/** The pan-gesture driver of the sloppy swipe-back transition
    (`InteractiveTransition` in `SloppySwipingNav.swift`): the recognizer
    pre-filter, the progress clamp, the completion-intent rule, and the state
    machine that turns recognizer phases into commands for the percent-driven
    transition it inherits from UIKit. */
module Gesture {
  import opened Common

  /** Horizontal speed, in points per second, beyond which a fling decides
      the outcome whatever the position. */
  const FlingSpeed: real := 300.0

  /** Progress beyond which a slow release completes the pop. */
  const Majority: real := 0.5

  /** Width of the recognizer's view. A view of zero width would make the
      division in `Percent` an IEEE infinity or NaN, which `real` cannot
      express, so the model takes widths to be positive. */
  type Width = w: real | w > 0.0 witness 1.0

  // ---------------------------------------------------------------------
  // Pre-filter
  // ---------------------------------------------------------------------

  /** `gestureRecognizerShouldBegin`: `hasView` says whether the recognizer is
      attached to a view, `pan` is its translation when it is a pan
      recognizer and `None` when it is some other kind. */
  function ShouldBegin(hasView: bool, pan: Option<Point>): (begin: bool)
    ensures begin ==> hasView && pan.Some?
    ensures hasView && pan.Some? ==> (begin <==> Abs(pan.value.x) >= Abs(pan.value.y))
  {
    if !hasView then false
    else match pan
      case None => false
      case Some(t) => Abs(t.x) >= Abs(t.y)
  }

  /** The direction of the drag does not matter, only its slope: flipping
      either component leaves the decision unchanged. */
  lemma ShouldBeginIgnoresDirection(hasView: bool, t: Point)
    ensures ShouldBegin(hasView, Some(Point(-t.x, t.y))) == ShouldBegin(hasView, Some(t))
    ensures ShouldBegin(hasView, Some(Point(t.x, -t.y))) == ShouldBegin(hasView, Some(t))
  {
  }

  lemma AbsScales(k: real, a: real)
    requires k > 0.0
    ensures Abs(k * a) == k * Abs(a)
  {
    if a < 0.0 {
      assert k * a < 0.0;
    } else {
      assert k * a >= 0.0;
    }
  }

  lemma ScaledAbsOrder(k: real, a: real, b: real)
    requires k > 0.0
    ensures Abs(k * a) >= Abs(k * b) <==> Abs(a) >= Abs(b)
  {
    AbsScales(k, a);
    AbsScales(k, b);
    var d := Abs(a) - Abs(b);
    assert Abs(k * a) - Abs(k * b) == k * d;
    if d >= 0.0 {
      assert k * d >= 0.0;
    } else {
      assert k * -d > 0.0;
    }
  }

  /** Only the slope of the drag matters: scaling the translation by a
      positive factor leaves the decision unchanged. */
  lemma ShouldBeginScaleInvariant(t: Point, k: real)
    requires k > 0.0
    ensures ShouldBegin(true, Some(Point(k * t.x, k * t.y))) == ShouldBegin(true, Some(t))
  {
    ScaledAbsOrder(k, t.x, t.y);
  }

  /** A predominantly vertical drag is left to scrolling content; a drag at
      exactly 45 degrees, and a pan that has not moved yet, begin. */
  lemma ShouldBeginSplitsAtDiagonal(t: Point)
    ensures Abs(t.y) > Abs(t.x) ==> !ShouldBegin(true, Some(t))
    ensures Abs(t.y) == Abs(t.x) ==> ShouldBegin(true, Some(t))
    ensures ShouldBegin(true, Some(Point(0.0, 0.0)))
  {
  }

  // ---------------------------------------------------------------------
  // Progress and completion intent
  // ---------------------------------------------------------------------

  /** The fraction of the pop reported on `.changed`:
      `min(max(tx / width, 0), 1)`. */
  function Percent(tx: real, width: Width): (p: real)
    ensures 0.0 <= p <= 1.0
    ensures tx <= 0.0 ==> p == 0.0
    ensures tx >= width ==> p == 1.0
    ensures 0.0 < tx < width ==> p * width == tx
  {
    Min(Max(tx / width, 0.0), 1.0)
  }

  /** Dragging further right never reports less progress. */
  lemma PercentMonotone(a: real, b: real, width: Width)
    requires a <= b
    ensures Percent(a, width) <= Percent(b, width)
  {
    assert a / width <= b / width by {
      assert b / width - a / width == (b - a) / width;
    }
  }

  /** Whether lifting the finger now would complete the pop: a fast fling
      right completes, a fast fling left cancels, and otherwise the position
      decides. A speed of exactly `FlingSpeed` falls through to the position
      rule. */
  function Intent(vx: real, percent: real): (complete: bool)
    ensures vx > FlingSpeed ==> complete
    ensures vx < -FlingSpeed ==> !complete
    ensures -FlingSpeed <= vx <= FlingSpeed ==> (complete <==> percent > Majority)
  {
    if vx > FlingSpeed then true
    else if vx < -FlingSpeed then false
    else percent > Majority
  }

  /** Moving faster to the right, or further along, never turns a
      completing gesture into a cancelling one. */
  lemma IntentMonotone(vx1: real, p1: real, vx2: real, p2: real)
    requires vx1 <= vx2 && p1 <= p2
    ensures Intent(vx1, p1) ==> Intent(vx2, p2)
  {
  }

  /** The threshold cases: 301 and -301 points per second override the
      position, a still finger at 51% completes and one at 49% cancels, and
      exactly 300 is decided by position. */
  lemma IntentThresholds(p: real)
    ensures Intent(301.0, p) && !Intent(-301.0, p)
    ensures Intent(0.0, 0.51) && !Intent(0.0, 0.49)
    ensures Intent(300.0, p) == (p > 0.5) && Intent(-300.0, p) == (p > 0.5)
  {
  }

  // ---------------------------------------------------------------------
  // The driver state machine (`handlePanGesture`)
  // ---------------------------------------------------------------------

  /** Recognizer state; `Other` stands for the states the handler ignores
      (`.possible`, `.failed`). */
  datatype Phase = Began | Changed | Ended | Cancelled | Other

  /** What the pan recognizer reports in its view's coordinates. */
  datatype Reading = Reading(translation: Point, velocity: Point, width: Width)

  /** One call of the action method: the recognizer's state and, when the
      recognizer is attached to a view, its reading in that view. */
  datatype Event = Event(phase: Phase, reading: Option<Reading>)

  /** `transitionInProgress` and `shouldCompleteTransition`. */
  datatype Driver = Driver(inProgress: bool, shouldComplete: bool)

  /** Both flags start out false. */
  const Idle: Driver := Driver(false, false)

  /** What the handler asks of the outside world: pop the navigation stack,
      or drive the inherited percent-driven transition. */
  datatype Command = Pop | Update(percent: real) | Finish | Cancel

  datatype Reaction = Reaction(driver: Driver, command: Option<Command>)

  function ProgressOf(rd: Reading): real
  {
    Percent(rd.translation.x, rd.width)
  }

  function IntentOf(rd: Reading): bool
  {
    Intent(rd.velocity.x, ProgressOf(rd))
  }

  /** One call of `handlePanGesture`. There is no guard against a `.began`
      while a transition is already in progress, and `.began` leaves the
      completion intent of the previous gesture in place. */
  function Step(d: Driver, e: Event): (r: Reaction)
    ensures e.phase == Began ==>
      r.driver == Driver(true, d.shouldComplete) && r.command == Some(Pop)
    ensures e.phase == Changed ==> r.driver.inProgress == d.inProgress
    ensures e.phase == Changed && e.reading.None? ==> r == Reaction(d, None)
    ensures e.phase == Changed && e.reading.Some? ==>
      var rd := e.reading.value;
      && r.command == Some(Update(Percent(rd.translation.x, rd.width)))
      && r.driver.shouldComplete == Intent(rd.velocity.x, Percent(rd.translation.x, rd.width))
    ensures e.phase == Cancelled ==> r == Reaction(d.(inProgress := false), Some(Cancel))
    ensures e.phase == Ended ==>
      && r.driver == d.(inProgress := false)
      && r.command == Some(if d.shouldComplete then Finish else Cancel)
    ensures e.phase == Other ==> r == Reaction(d, None)
    ensures e.phase != Changed ==> r.driver.shouldComplete == d.shouldComplete
  {
    match e.phase
    case Began => Reaction(d.(inProgress := true), Some(Pop))
    case Changed =>
      (match e.reading
       case None => Reaction(d, None)
       case Some(rd) =>
         Reaction(d.(shouldComplete := IntentOf(rd)), Some(Update(ProgressOf(rd)))))
    case Ended | Cancelled =>
      var settle := if !d.shouldComplete || e.phase == Cancelled then Cancel else Finish;
      Reaction(d.(inProgress := false), Some(settle))
    case Other => Reaction(d, None)
  }

  /** The commands of one reaction, as a sequence. */
  function Emitted(c: Option<Command>): seq<Command>
  {
    match c
    case None => []
    case Some(x) => [x]
  }

  function CountPhase(events: seq<Event>, p: Phase): nat
  {
    if |events| == 0 then 0
    else (if events[0].phase == p then 1 else 0) + CountPhase(events[1..], p)
  }

  function Pops(cmds: seq<Command>): nat
  {
    if |cmds| == 0 then 0
    else (if cmds[0] == Pop then 1 else 0) + Pops(cmds[1..])
  }

  function Settles(cmds: seq<Command>): nat
  {
    if |cmds| == 0 then 0
    else (if cmds[0] == Finish || cmds[0] == Cancel then 1 else 0) + Settles(cmds[1..])
  }

  datatype Trace = Trace(driver: Driver, commands: seq<Command>)

  /** A stream of action-method calls, delivered in order on one thread. */
  function Run(d: Driver, events: seq<Event>): (t: Trace)
    ensures |t.commands| <= |events|
    ensures forall i :: 0 <= i < |t.commands| && t.commands[i].Update? ==>
      0.0 <= t.commands[i].percent <= 1.0
    ensures Pops(t.commands) == CountPhase(events, Began)
    ensures Settles(t.commands) == CountPhase(events, Ended) + CountPhase(events, Cancelled)
    decreases |events|
  {
    if |events| == 0 then Trace(d, [])
    else
      var head := Step(d, events[0]);
      var tail := Run(head.driver, events[1..]);
      var cmds := Emitted(head.command) + tail.commands;
      assert cmds[|Emitted(head.command)|..] == tail.commands;
      assert |Emitted(head.command)| == 1 ==> cmds[0] == head.command.value && cmds[1..] == tail.commands;
      Trace(tail.driver, cmds)
  }

  /** Running two streams one after the other is running their
      concatenation. */
  lemma {:induction false} RunAppend(d: Driver, a: seq<Event>, b: seq<Event>)
    ensures Run(d, a + b).driver == Run(Run(d, a).driver, b).driver
    ensures Run(d, a + b).commands == Run(d, a).commands + Run(Run(d, a).driver, b).commands
    decreases |a|
  {
    if |a| == 0 {
      assert a + b == b;
    } else {
      var head := Step(d, a[0]);
      assert (a + b)[0] == a[0];
      assert (a + b)[1..] == a[1..] + b;
      RunAppend(head.driver, a[1..], b);
      var mid := Run(head.driver, a[1..]);
      var rest := Run(mid.driver, b);
      assert Emitted(head.command) + (mid.commands + rest.commands)
          == (Emitted(head.command) + mid.commands) + rest.commands;
    }
  }

  /** The reading of the last `.changed` call that had a view, if any: the
      only call that writes the completion intent. */
  function LastReading(events: seq<Event>): Option<Reading>
    decreases |events|
  {
    if |events| == 0 then None
    else
      var e := events[|events| - 1];
      if e.phase == Changed && e.reading.Some? then e.reading
      else LastReading(events[..|events| - 1])
  }

  /** The phase of the last `.began`, `.ended` or `.cancelled` call, as the
      value it gives `transitionInProgress`, if any. */
  function LastToggle(events: seq<Event>): Option<bool>
    decreases |events|
  {
    if |events| == 0 then None
    else
      var p := events[|events| - 1].phase;
      if p == Began then Some(true)
      else if p == Ended || p == Cancelled then Some(false)
      else LastToggle(events[..|events| - 1])
  }

  /** After any stream of calls the completion intent is the one decided
      by the last `.changed` reading, and when there was none it is still
      the intent the driver started with — whatever `.began` calls came in
      between. */
  lemma {:induction false} RunIntent(d: Driver, events: seq<Event>)
    ensures Run(d, events).driver.shouldComplete ==
      match LastReading(events)
      case None => d.shouldComplete
      case Some(rd) => IntentOf(rd)
    decreases |events|
  {
    if |events| > 0 {
      var init := events[..|events| - 1];
      var last := events[|events| - 1];
      assert events == init + [last];
      RunAppend(d, init, [last]);
      RunIntent(d, init);
      var mid := Run(d, init).driver;
      assert Run(mid, [last]).driver == Step(mid, last).driver;
    }
  }

  /** After any stream of calls, `transitionInProgress` is true exactly when
      the last call that touched it was a `.began`. */
  lemma {:induction false} RunInProgress(d: Driver, events: seq<Event>)
    ensures Run(d, events).driver.inProgress ==
      match LastToggle(events)
      case None => d.inProgress
      case Some(b) => b
    decreases |events|
  {
    if |events| > 0 {
      var init := events[..|events| - 1];
      var last := events[|events| - 1];
      assert events == init + [last];
      RunAppend(d, init, [last]);
      RunInProgress(d, init);
      var mid := Run(d, init).driver;
      assert Run(mid, [last]).driver == Step(mid, last).driver;
    }
  }

  /** A well-formed gesture as the recognizer delivers it: `.began`, any
      number of `.changed`, then exactly one of `.ended` or `.cancelled`. */
  predicate IsGesture(events: seq<Event>)
  {
    && |events| >= 2
    && events[0].phase == Began
    && (events[|events| - 1].phase == Ended || events[|events| - 1].phase == Cancelled)
    && forall i :: 0 < i < |events| - 1 ==> events[i].phase == Changed
  }

  /** The progress updates a run of `.changed` calls reports: one per call
      that had a view. */
  function Progresses(changes: seq<Event>): seq<Command>
  {
    if |changes| == 0 then []
    else
      var here := match changes[0].reading
        case None => []
        case Some(rd) => [Update(ProgressOf(rd))];
      here + Progresses(changes[1..])
  }

  lemma {:induction false} ChangesOnlyUpdate(d: Driver, changes: seq<Event>)
    requires forall i :: 0 <= i < |changes| ==> changes[i].phase == Changed
    ensures Run(d, changes).commands == Progresses(changes)
    ensures Run(d, changes).driver.inProgress == d.inProgress
    decreases |changes|
  {
    if |changes| > 0 {
      ChangesOnlyUpdate(Step(d, changes[0]).driver, changes[1..]);
    }
  }

  /** One whole gesture: it pops once at `.began`, reports one clamped
      progress per `.changed` with a view, and ends with exactly one settling
      command, `Finish` only when it ended (not cancelled) and the last
      decided intent — carried over from the previous gesture if this one
      never moved — says complete. It always leaves no transition in
      progress. */
  lemma GestureOutcome(d: Driver, events: seq<Event>)
    requires IsGesture(events)
    ensures
      var t := Run(d, events);
      var middle := events[1..|events| - 1];
      var intent := match LastReading(middle)
        case None => d.shouldComplete
        case Some(rd) => IntentOf(rd);
      var ended := events[|events| - 1].phase == Ended;
      && !t.driver.inProgress
      && t.driver.shouldComplete == intent
      && t.commands == [Pop] + Progresses(middle) + [if ended && intent then Finish else Cancel]
  {
    var first := events[0];
    var middle := events[1..|events| - 1];
    var last := events[|events| - 1];
    assert events == [first] + middle + [last];
    RunAppend(d, [first] + middle, [last]);
    RunAppend(d, [first], middle);
    var began := Step(d, first).driver;
    assert Run(d, [first]) == Trace(began, [Pop]);
    ChangesOnlyUpdate(began, middle);
    RunIntent(began, middle);
    var moved := Run(began, middle).driver;
    assert Run(d, [first] + middle) == Trace(moved, [Pop] + Progresses(middle));
    assert Run(moved, [last]) == Trace(Step(moved, last).driver, Emitted(Step(moved, last).command));
  }

  /** No guard against re-entry: a second `.began` pops the stack again. */
  lemma ReentrantBeganPopsAgain()
    ensures Run(Idle, [Event(Began, None), Event(Began, None)]).commands == [Pop, Pop]
  {
  }

  /** The intent outlives its gesture: after a completed fling, a gesture
      that is released without ever moving also finishes. */
  lemma IntentCarriesOverGestures()
    ensures
      var fling := Reading(Point(10.0, 0.0), Point(400.0, 0.0), 100.0);
      Run(Idle, [Event(Began, None), Event(Changed, Some(fling)), Event(Ended, None),
                 Event(Began, None), Event(Ended, None)]).commands
        == [Pop, Update(0.1), Finish, Pop, Finish]
  {
    var fling := Reading(Point(10.0, 0.0), Point(400.0, 0.0), 100.0);
    var began, ended := Event(Began, None), Event(Ended, None);
    assert ProgressOf(fling) == 0.1;
    assert Run(Driver(true, true), [ended]) == Trace(Driver(false, true), [Finish]);
    assert Run(Driver(false, true), [began, ended]) == Trace(Driver(false, true), [Pop, Finish]);
    assert Run(Driver(true, true), [ended, began, ended]).commands == [Finish, Pop, Finish];
    assert Run(Driver(true, false), [Event(Changed, Some(fling)), ended, began, ended]).commands
      == [Update(0.1), Finish, Pop, Finish];
  }
}
