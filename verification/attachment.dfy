/** Installing the swipe recognizer on a screen (`attachToViewController`)
    and the navigation hook (`navigationController(_:willShow:animated:)`)
    that calls it for every screen about to be shown except the root one.
    Screens are named by identifiers; each screen's view carries a list of
    gesture recognizers, which UIKit reports as `nil` until one is added. */
module Attachment {
  import opened Common

  /** A gesture recognizer on a view: the sloppy-swipe pan recognizer, or any
      other recognizer the application installed itself. */
  datatype Recognizer = SloppyPan | OtherRecognizer(tag: nat)

  /** `view.gestureRecognizers`: `None` stands for `nil`. */
  type Recognizers = Option<seq<Recognizer>>

  function CountSloppy(rs: seq<Recognizer>): nat
  {
    if |rs| == 0 then 0
    else (if rs[0] == SloppyPan then 1 else 0) + CountSloppy(rs[1..])
  }

  /** How many sloppy-swipe recognizers a view carries. */
  function Installed(rs: Recognizers): nat
  {
    match rs
    case None => 0
    case Some(s) => CountSloppy(s)
  }

  /** The list a view's recognizers are added to: `nil` behaves as empty. */
  function Listed(rs: Recognizers): seq<Recognizer>
  {
    match rs
    case None => []
    case Some(s) => s
  }

  lemma {:induction false} CountSloppyAppend(s: seq<Recognizer>, x: Recognizer)
    ensures CountSloppy(s + [x]) == CountSloppy(s) + (if x == SloppyPan then 1 else 0)
    decreases |s|
  {
    if |s| > 0 {
      assert (s + [x])[1..] == s[1..] + [x];
      CountSloppyAppend(s[1..], x);
    }
  }

  /** `attachToViewController`: a new recognizer is added only when the view
      has none of this type (its list is `nil` or filters to empty), so a
      view never ends up with none, never gains a second one, and keeps the
      recognizers it had, in order. */
  function Attach(rs: Recognizers): (r: Recognizers)
    ensures r.Some?
    ensures Installed(r) == (if Installed(rs) == 0 then 1 else Installed(rs))
    ensures Installed(rs) > 0 ==> r == rs
    ensures Listed(rs) <= r.value
    ensures |r.value| <= |Listed(rs)| + 1
  {
    if Installed(rs) == 0 then
      CountSloppyAppend(Listed(rs), SloppyPan);
      assert Installed(rs) == CountSloppy(Listed(rs));
      Some(Listed(rs) + [SloppyPan])
    else rs
  }

  /** Attaching is idempotent. */
  lemma AttachIdempotent(rs: Recognizers)
    ensures Attach(Attach(rs)) == Attach(rs)
  {
  }

  /** Attaching twice to a bare view leaves exactly one recognizer. */
  lemma AttachTwiceInstallsOne(rs: Recognizers)
    requires Installed(rs) == 0
    ensures Installed(Attach(Attach(rs))) == 1
  {
  }

  /** Screens are identified by value; their views' recognizers by screen. */
  type ScreenId = nat

  type Views = map<ScreenId, Recognizers>

  /** A screen absent from the map has a view whose list is still `nil`. */
  function RecognizersOf(views: Views, s: ScreenId): Recognizers
  {
    if s in views then views[s] else None
  }

  /** `viewControllers.first`: the root of the navigation stack, if any. */
  predicate IsRoot(stack: seq<ScreenId>, s: ScreenId)
  {
    |stack| > 0 && s == stack[0]
  }

  /** `navigationController(_:willShow:animated:)`: every screen about to be
      shown gets the recognizer, except the root of the stack; no other
      screen is touched. An empty stack has no root, so the shown screen is
      attached. */
  function WillShow(stack: seq<ScreenId>, views: Views, shown: ScreenId): (r: Views)
    ensures IsRoot(stack, shown) ==> r == views
    ensures !IsRoot(stack, shown) ==> RecognizersOf(r, shown) == Attach(RecognizersOf(views, shown))
    ensures forall s :: s != shown ==> RecognizersOf(r, s) == RecognizersOf(views, s)
  {
    if IsRoot(stack, shown) then views
    else views[shown := Attach(RecognizersOf(views, shown))]
  }

  /** No screen carries more than one sloppy-swipe recognizer. */
  ghost predicate AtMostOne(views: Views)
  {
    forall s :: Installed(RecognizersOf(views, s)) <= 1
  }

  /** One call of the will-show hook: the stack at that moment and the
      screen about to appear. */
  datatype Show = Show(stack: seq<ScreenId>, screen: ScreenId)

  function Replay(views: Views, shows: seq<Show>): Views
    decreases |shows|
  {
    if |shows| == 0 then views
    else Replay(WillShow(shows[0].stack, views, shows[0].screen), shows[1..])
  }

  /** However often screens are shown, none ends up with two recognizers. */
  lemma {:induction false} ReplayKeepsAtMostOne(views: Views, shows: seq<Show>)
    requires AtMostOne(views)
    ensures AtMostOne(Replay(views, shows))
    decreases |shows|
  {
    if |shows| > 0 {
      var next := WillShow(shows[0].stack, views, shows[0].screen);
      forall s
        ensures Installed(RecognizersOf(next, s)) <= 1
      {
        assert Installed(RecognizersOf(views, s)) <= 1;
      }
      ReplayKeepsAtMostOne(next, shows[1..]);
    }
  }

  /** The screen at the bottom of the stack never gains a recognizer, since
      there is nothing beneath it to pop to. */
  lemma {:induction false} ReplayNeverAttachesRoot(views: Views, shows: seq<Show>, root: ScreenId)
    requires forall i :: 0 <= i < |shows| ==> IsRoot(shows[i].stack, root)
    ensures RecognizersOf(Replay(views, shows), root) == RecognizersOf(views, root)
    decreases |shows|
  {
    if |shows| > 0 {
      var next := WillShow(shows[0].stack, views, shows[0].screen);
      assert IsRoot(shows[0].stack, root);
      assert RecognizersOf(next, root) == RecognizersOf(views, root);
      ReplayNeverAttachesRoot(next, shows[1..], root);
    }
  }

  /** A screen that was shown at least once while it was not the root ends
      with exactly one recognizer; a screen never shown that way keeps what
      it had. */
  lemma {:induction false} ReplayInstalled(views: Views, shows: seq<Show>, s: ScreenId)
    requires Installed(RecognizersOf(views, s)) <= 1
    ensures Installed(RecognizersOf(Replay(views, shows), s)) ==
      if exists i :: 0 <= i < |shows| && shows[i].screen == s && !IsRoot(shows[i].stack, s)
      then 1 else Installed(RecognizersOf(views, s))
    decreases |shows|
  {
    if |shows| > 0 {
      var next := WillShow(shows[0].stack, views, shows[0].screen);
      var rest := shows[1..];
      var here := shows[0].screen == s && !IsRoot(shows[0].stack, s);
      assert Installed(RecognizersOf(next, s)) == if here then 1 else Installed(RecognizersOf(views, s));
      ReplayInstalled(next, rest, s);
      var later := exists j :: 0 <= j < |rest| && rest[j].screen == s && !IsRoot(rest[j].stack, s);
      if later {
        var j :| 0 <= j < |rest| && rest[j].screen == s && !IsRoot(rest[j].stack, s);
        assert shows[j + 1] == rest[j];
      } else if !here {
        forall i | 0 <= i < |shows|
          ensures !(shows[i].screen == s && !IsRoot(shows[i].stack, s))
        {
          if i > 0 {
            assert shows[i] == rest[i - 1];
          }
        }
      }
    }
  }
}
