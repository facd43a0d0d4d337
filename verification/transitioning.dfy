/** The slide-over-with-shadow animator (`AnimatedTransitioning`): its
    configuration, and the frames, shadows and container membership it gives
    the screen being left (`from`) and the screen being shown (`to`) before,
    during and after the move. Only horizontal offsets change; the animation
    engine that interpolates between the frames is outside the model. */
module Transitioning {
  import opened Common

  /** `bottomViewOffset`: how far left of its final place the lower screen
      sits while the upper one covers it. */
  const BottomViewOffset: real := -60.0

  /** The duration both curves use. */
  const Duration: real := 0.4

  /** A `CGRect`. */
  datatype Rect = Rect(x: real, y: real, width: real, height: real)
  {
    /** `offsetBy(dx:dy:)` with a vertical offset of 0. */
    function OffsetBy(dx: real): Rect
    {
      this.(x := x + dx)
    }
  }

  /** What the model keeps of a screen's view: its frame, whether the shadow
      radius set by `addShadow` is in effect, and whether it is in the
      transition's container. */
  datatype View = View(frame: Rect, shadow: bool, inContainer: bool)

  /** The two screens of one transition; `toAbove` says whether the shown
      screen is stacked above the one being left. */
  datatype Scene = Scene(from: View, to: View, toAbove: bool)

  datatype Curve = Linear | Spring

  /** The animator's stored properties: `reverse`, `linerAnimation` and the
      `duration` that `transitionDuration` reports (0 until the first time
      `linerAnimation` is assigned). */
  datatype Config = Config(reverse: bool, linerAnimation: bool, duration: real)

  const InitialConfig: Config := Config(false, false, 0.0)

  /** Assigning `linerAnimation`: its observer sets the duration, to the
      same value for both curves. */
  function SetLinerAnimation(c: Config, liner: bool): (r: Config)
    ensures r.linerAnimation == liner && r.reverse == c.reverse
    ensures r.duration == Duration
  {
    Config(c.reverse, liner, Duration)
  }

  /** The curve `animateTransition` asks for: linear for interactive
      transitions, a critically damped spring otherwise. */
  function CurveOf(c: Config): Curve
  {
    if c.linerAnimation then Linear else Spring
  }

  /** The set-up before the move. Forward, the shown screen is placed one
      width of the current screen to the right of its final frame, gets the
      shadow and goes on top; in reverse, the current screen gets the shadow
      and the shown one is slid under it, 60 points left of its final frame. */
  function BeforeMove(reverse: bool, from: View, to: View, final: Rect): (s: Scene)
    ensures s.toAbove == !reverse
    ensures s.toAbove ==> s.to.shadow && s.from.shadow == from.shadow
    ensures !s.toAbove ==> s.from.shadow && s.to.shadow == to.shadow
    ensures s.to.inContainer && s.from.inContainer == from.inContainer
    ensures s.from.frame == from.frame
    ensures s.to.frame.x == final.x + (if reverse then BottomViewOffset else from.frame.width)
    ensures s.to.frame == final.(x := s.to.frame.x)
  {
    if !reverse then
      Scene(from, View(final.OffsetBy(from.frame.width), true, true), true)
    else
      Scene(from.(shadow := true), View(final.OffsetBy(BottomViewOffset), to.shadow, true), false)
  }

  /** The frames the animation block moves the two screens to, as
      (`from`, `to`). In reverse the current screen's width is read when the
      block runs, which is still its width before the move. */
  function Targets(reverse: bool, s: Scene, final: Rect): (Rect, Rect)
  {
    if !reverse then (final.OffsetBy(BottomViewOffset), final)
    else (final.OffsetBy(s.from.frame.width), final)
  }

  /** Where the animation leaves the frames: at the targets, or, when the
      interactive transition was cancelled, back where they were before the
      animation block ran. */
  function Settle(reverse: bool, s: Scene, final: Rect, cancelled: bool): Scene
  {
    if cancelled then s
    else
      var (fromTarget, toTarget) := Targets(reverse, s, final);
      s.(from := s.from.(frame := fromTarget), to := s.to.(frame := toTarget))
  }

  /** The completion block: the screen that received the shadow loses it,
      the current screen's frame is reset (to the final frame forward, to a
      zero horizontal origin in reverse), and exactly one screen leaves the
      container — the shown one on cancellation, the current one otherwise. */
  function Complete(reverse: bool, s: Scene, final: Rect, cancelled: bool): Scene
  {
    var reset :=
      if !reverse then s.(to := s.to.(shadow := false), from := s.from.(frame := final))
      else s.(from := s.from.(shadow := false, frame := s.from.frame.(x := 0.0)));
    if cancelled then reset.(to := reset.to.(inContainer := false))
    else reset.(from := reset.from.(inContainer := false))
  }

  /** The terminal record of one transition: the two screens, the curve used,
      and the flag passed to `completeTransition`. */
  datatype Outcome = Outcome(scene: Scene, curve: Curve, completed: bool)

  /** `animateTransition` on the one animator the navigation controller
      shares between transitions: the set-up and the animation block read
      `reverse` when the transition starts, the completion block reads it
      again when it fires (`completionReverse`), after any delegate call in
      between may have overwritten it. Nothing happens when either screen is
      missing; `cancelled` stands for `transitionWasCancelled`. */
  function AnimateWith(c: Config, completionReverse: bool, from: Option<View>, to: Option<View>,
                       final: Rect, cancelled: bool): (r: Option<Outcome>)
    ensures r.Some? <==> from.Some? && to.Some?
    ensures r.Some? ==>
      var o, before := r.value, BeforeMove(c.reverse, from.value, to.value, final);
      && o.completed == !cancelled
      && (o.curve == Linear <==> c.linerAnimation)
      && o.scene.toAbove == !c.reverse
      // exactly the losing screen leaves the container
      && (cancelled ==> !o.scene.to.inContainer && o.scene.from.inContainer == from.value.inContainer)
      && (!cancelled ==> o.scene.to.inContainer && !o.scene.from.inContainer)
      // the completion block strips the shadow from the screen its own
      // reading of the direction names, whichever screen received it
      && (completionReverse ==> !o.scene.from.shadow && o.scene.to.shadow == before.to.shadow)
      && (!completionReverse ==> !o.scene.to.shadow && o.scene.from.shadow == before.from.shadow)
      // the shown screen ends at its final frame, or back at its start
      && (!cancelled ==> o.scene.to.frame == final)
      && (cancelled ==> o.scene.to.frame == before.to.frame)
      // and the current screen is reset by the completion block's direction
      && (!completionReverse ==> o.scene.from.frame == final)
      && (completionReverse ==> o.scene.from.frame.x == 0.0)
  {
    match (from, to)
    case (Some(f), Some(t)) =>
      var before := BeforeMove(c.reverse, f, t, final);
      var moved := Settle(c.reverse, before, final, cancelled);
      Some(Outcome(Complete(completionReverse, moved, final, cancelled), CurveOf(c), !cancelled))
    case _ => None
  }

  /** `animateTransition` when the direction is not overwritten while the
      transition runs: the screen that received the shadow loses it, the
      other keeps its own, and the current screen is reset to the final frame
      forward and to a zero horizontal origin in reverse. */
  function Animate(c: Config, from: Option<View>, to: Option<View>, final: Rect, cancelled: bool)
    : (r: Option<Outcome>)
    ensures r.Some? <==> from.Some? && to.Some?
    ensures r.Some? ==>
      var o, f0, t0 := r.value, from.value, to.value;
      && o.completed == !cancelled
      && (o.curve == Linear <==> c.linerAnimation)
      && o.scene.toAbove == !c.reverse
      // exactly the losing screen leaves the container
      && (cancelled ==> !o.scene.to.inContainer && o.scene.from.inContainer == f0.inContainer)
      && (!cancelled ==> o.scene.to.inContainer && !o.scene.from.inContainer)
      // the shadow is taken back from the screen that received it
      && (c.reverse ==> !o.scene.from.shadow && o.scene.to.shadow == t0.shadow)
      && (!c.reverse ==> !o.scene.to.shadow && o.scene.from.shadow == f0.shadow)
      // the shown screen ends at its final frame, or back at its start
      && (!cancelled ==> o.scene.to.frame == final)
      && (cancelled ==> o.scene.to.frame == BeforeMove(c.reverse, f0, t0, final).to.frame)
      // the current screen is reset whether or not the transition completed
      && (!c.reverse ==> o.scene.from.frame == final)
      && (c.reverse ==> o.scene.from.frame.x == 0.0)
      && (c.reverse && cancelled ==> o.scene.from.frame == f0.frame.(x := 0.0))
  {
    AnimateWith(c, c.reverse, from, to, final, cancelled)
  }

  /** When a swipe-back's direction is overwritten by a push before its
      completion block runs, the swiped screen keeps the shadow it received
      and is moved to the shown screen's final frame instead of back to a
      zero horizontal origin. */
  lemma DirectionOverwrittenLeavesShadow(c: Config, from: View, to: View, final: Rect, cancelled: bool)
    requires c.reverse && !from.shadow && !to.shadow
    ensures
      var o := AnimateWith(c, false, Some(from), Some(to), final, cancelled).value;
      && o.scene.from.shadow && !o.scene.to.shadow
      && o.scene.from.frame == final
  {
  }

  /** The horizontal offsets of the move. Forward, the shown screen comes in
      from one width to the right and the current one slides 60 points left;
      in reverse, the shown screen comes out from 60 points left and the
      current one slides one width to the right. Both end with the shown
      screen at its final frame. */
  lemma MoveOffsets(reverse: bool, from: View, to: View, final: Rect)
    ensures
      var before := BeforeMove(reverse, from, to, final);
      var (fromEnd, toEnd) := Targets(reverse, before, final);
      && toEnd == final
      && (!reverse ==> before.to.frame.x == final.x + from.frame.width
                       && fromEnd.x == final.x - 60.0)
      && (reverse ==> before.to.frame.x == final.x - 60.0
                      && fromEnd.x == final.x + from.frame.width)
  {
  }

  /** The screen drawn on top is the one that casts the shadow, in both
      directions. */
  lemma ShadowOnUpperScreen(reverse: bool, from: View, to: View, final: Rect)
    ensures
      var s := BeforeMove(reverse, from, to, final);
      (if s.toAbove then s.to else s.from).shadow
  {
  }

  /** Starting with the current screen in the container, a transition leaves
      exactly one of the two screens there: the shown one when it completed,
      the current one when it was cancelled. */
  lemma ExactlyOneRemains(c: Config, from: View, to: View, final: Rect, cancelled: bool)
    requires from.inContainer
    ensures
      var o := Animate(c, Some(from), Some(to), final, cancelled).value;
      && (o.scene.from.inContainer != o.scene.to.inContainer)
      && (o.scene.to.inContainer <==> o.completed)
  {
  }

  /** A transition between two screens whose shadow radius is 0 leaves both
      with radius 0 again, whether it completed or not. */
  lemma ShadowRadiusCleared(c: Config, from: View, to: View, final: Rect, cancelled: bool)
    requires !from.shadow && !to.shadow
    ensures
      var o := Animate(c, Some(from), Some(to), final, cancelled).value;
      !o.scene.from.shadow && !o.scene.to.shadow
  {
  }

  /** Push and pop end alike: when the transition completes, the shown
      screen is at its final frame in the container and the current one has
      left it, in both directions. */
  lemma CompletionIsDirectionSymmetric(liner: bool, duration: real, from: View, to: View, final: Rect)
    ensures
      forall reverse: bool ::
        var o := Animate(Config(reverse, liner, duration), Some(from), Some(to), final, false).value;
        o.scene.to.frame == final && o.scene.to.inContainer && !o.scene.from.inContainer
  {
  }

  /** A cancelled pop puts the current screen back at a zero horizontal
      origin; a cancelled push puts it at the shown screen's final frame. In
      both it stays in the container and the other screen leaves it. */
  lemma CancelRestoresCurrentScreen(c: Config, from: View, to: View, final: Rect)
    requires from.inContainer
    ensures
      var o := Animate(c, Some(from), Some(to), final, true).value;
      && o.scene.from.inContainer && !o.scene.to.inContainer
      && o.scene.from.frame.x == (if c.reverse then 0.0 else final.x)
      && !o.completed
  {
  }
}
