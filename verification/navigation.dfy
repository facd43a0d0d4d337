/** The navigation controller's delegate hooks that pick the animator's
    direction and decide between the interactive driver and a timed
    animation, and how one swipe-back gesture flows through them. */
module Navigation {
  import opened Common
  import opened Gesture
  import opened Transitioning

  /** `UINavigationController.Operation`. */
  datatype Operation = NoOperation | PushOperation | PopOperation

  /** `navigationController(_:animationControllerFor:from:to:)`: the one
      shared animator runs in reverse exactly for a pop; nothing else about it
      changes. */
  function AnimationControllerFor(c: Config, op: Operation): (r: Config)
    ensures r.reverse <==> op == PopOperation
    ensures r.linerAnimation == c.linerAnimation && r.duration == c.duration
  {
    c.(reverse := op == PopOperation)
  }

  /** The animator's configuration after the hook, and whether the hook
      handed the container the interactive driver (otherwise it returned
      `nil` and the container runs the animation on its own clock). */
  datatype Handoff = Handoff(config: Config, interactive: bool)

  /** `navigationController(_:interactionControllerFor:)`: while a swipe is in
      progress the interactive driver is returned and the animator uses the
      linear curve; otherwise no driver and the spring curve. Either way the
      duration becomes 0.4 seconds and the direction is left alone. */
  function InteractionControllerFor(c: Config, d: Driver): (r: Handoff)
    ensures r.interactive <==> d.inProgress
    ensures r.config.linerAnimation <==> d.inProgress
    ensures CurveOf(r.config) == (if d.inProgress then Linear else Spring)
    ensures r.config.reverse == c.reverse
    ensures r.config.duration == Duration
  {
    Handoff(SetLinerAnimation(c, d.inProgress), d.inProgress)
  }

  /** Asking the hooks in the order the container does, for one operation. */
  function Hooks(c: Config, op: Operation, d: Driver): Handoff
  {
    InteractionControllerFor(AnimationControllerFor(c, op), d)
  }

  /** A pop started by a swipe is run interactively, in reverse, on the
      linear curve, whatever state the animator and the driver were in. */
  lemma SwipeStartsInteractivePop(c: Config, d: Driver)
    ensures
      var began := Step(d, Event(Began, None));
      var h := Hooks(c, PopOperation, began.driver);
      && began.command == Some(Pop)
      && h.interactive && h.config.reverse && CurveOf(h.config) == Linear
  {
  }

  /** With no swipe in progress, a push or a pop made by the application is
      run on the spring curve without the driver, forward for a push and in
      reverse for a pop. */
  lemma ProgrammaticTransitionIsTimed(c: Config, d: Driver, op: Operation)
    requires !d.inProgress
    ensures
      var h := Hooks(c, op, d);
      && !h.interactive && CurveOf(h.config) == Spring
      && (h.config.reverse <==> op == PopOperation)
  {
  }

  /** A fresh animator reports a duration of 0; the first time the hooks
      run for a transition they set it to 0.4 seconds, for either curve. */
  lemma HooksSetDuration(op: Operation, d: Driver)
    ensures InitialConfig.duration == 0.0
    ensures Hooks(InitialConfig, op, d).config.duration == Duration == 0.4
    ensures Hooks(InitialConfig, op, d).config.duration
         == Hooks(InitialConfig, op, d.(inProgress := !d.inProgress)).config.duration
  {
  }

  /** The last element of a non-empty sequence. */
  function Last<T>(s: seq<T>): T
    requires |s| > 0
  {
    s[|s| - 1]
  }

  /** One swipe-back from start to end. The gesture's `.began` pops, the
      hooks hand the container the interactive driver and a reverse linear
      animator, and the gesture's settling command decides the outcome: on
      `Finish` the screen beneath ends at its final frame and the swiped
      screen leaves the container; on `Cancel` the swiped screen stays, back
      at a zero horizontal origin, and the screen beneath leaves. Neither
      screen keeps a shadow. */
  lemma SwipeBackSession(c: Config, d: Driver, events: seq<Event>,
                         from: View, to: View, final: Rect)
    requires IsGesture(events)
    requires from.inContainer && !from.shadow && !to.shadow
    ensures
      var t := Run(d, events);
      var h := Hooks(c, PopOperation, Step(d, events[0]).driver);
      var settle := Last(t.commands);
      var o := Animate(h.config, Some(from), Some(to), final, settle == Cancel).value;
      && h.interactive && o.curve == Linear && !o.scene.toAbove
      && (settle == Finish || settle == Cancel)
      && (o.scene.to.inContainer <==> settle == Finish)
      && (o.scene.from.inContainer <==> settle == Cancel)
      && (settle == Finish ==> o.scene.to.frame == final)
      && (settle == Cancel ==> o.scene.from.frame.x == 0.0)
      && !o.scene.from.shadow && !o.scene.to.shadow
  {
    GestureOutcome(d, events);
  }
}
