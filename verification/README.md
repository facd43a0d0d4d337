# SloppySwipingNav in Dafny

A model of the decision and geometry logic of SloppySwipingNav. This is a
`UINavigationController` subclass that lets the user pop the current screen by
swiping right from anywhere on it, not only from the edge. Once the UIKit
plumbing is removed, three parts remain. The model covers all three and shows
how they fit together:

- **The pan-gesture driver** (`InteractiveTransition`), in module `Gesture`
  (`gesture.dfy`). It has:
  - the pre-filter that only lets predominantly horizontal drags begin;
  - the progress clamp `min(max(tx / width, 0), 1)`;
  - the completion-intent rule: a fling faster than 300 points per second
    decides, otherwise the majority rule at 0.5;
  - the state machine over `transitionInProgress` and
    `shouldCompleteTransition`. It turns recognizer phases into the commands
    pop, update(percent), finish and cancel.
- **Attachment** (`attachToViewController` and the will-show hook), in module
  `Attachment` (`attachment.dfy`). Each screen's recognizer list is modelled,
  including UIKit's `nil` list. A screen gets the sloppy-swipe recognizer only
  when it has none. The root screen of the stack never gets one.
- **The animator** (`AnimatedTransitioning`), in module `Transitioning`
  (`transitioning.dfy`). It covers:
  - its configuration (`reverse`, `linerAnimation`, `duration`);
  - the frames, shadow flags and container membership it gives the screen
    being left (`from`) and the screen being shown (`to`), before the move,
    at the animation targets and after the completion block.
- **The delegate hooks** that choose the direction (`reverse` exactly for a
  pop) and decide between the interactive driver and a timed spring
  animation, in module `Navigation` (`navigation.dfy`). This module also has
  a lemma that follows one whole swipe-back through the driver, the hooks and
  the animator.

`CGFloat` is modelled as `real`, so the model computes the progress quotient
and the frame offsets exactly, where the device rounds them (see "## Left
out"). Every operation is a pure function over immutable records. The
animator's stored properties (`reverse`, `linerAnimation`, `duration`) carry
over between transitions and are passed in as a `Config`. Only `reverse` is
read again later, by the completion block, and `Transitioning.AnimateWith`
takes that second reading as its own argument. The `Common` module
(`common.dfy`) holds `Option`, `Point` and Swift's `fabs`, `min` and `max`.

## Behaviour kept as the code has it

- The handler does not guard against a second `.began`. A `.began` that
  arrives while a transition is in progress sets the flag again and pops
  again (`Gesture.ReentrantBeganPopsAgain`, `Gesture.Run`). One might expect
  a single-session guard, but the code has none.
- `shouldCompleteTransition` is never reset at `.began`. A gesture that is
  released without any `.changed` call therefore settles according to the
  previous gesture's intent (`Gesture.IntentCarriesOverGestures`,
  `Gesture.GestureOutcome`).
- On a cancelled push, the completion block sets the current screen's frame
  to the shown screen's final frame, not to a zero origin. Only a cancelled
  pop sets the horizontal origin to 0 (`Transitioning.CancelRestoresCurrentScreen`).
- `duration` is 0 until `linerAnimation` is first assigned. After that it
  is 0.4 for both curves (`Transitioning.SetLinerAnimation`,
  `Navigation.HooksSetDuration`).
- The navigation controller keeps one animator for all transitions, and the
  completion block reads `reverse` again when it fires. A delegate call that
  changes the direction while a transition runs makes that block strip the
  shadow from, and reset the frame of, the wrong screen
  (`Transitioning.AnimateWith`, `Transitioning.DirectionOverwrittenLeavesShadow`).

## Model

| member | source | states |
|---|---|---|
| Gesture.ShouldBegin | Pod/Classes/SloppySwipingNav.swift:163-172 | A gesture begins only if the recognizer has a view and is a pan. A pan with a view begins exactly when the horizontal translation is at least as large, in absolute value, as the vertical one. |
| Gesture.ShouldBeginIgnoresDirection | Pod/Classes/SloppySwipingNav.swift:170-171 | Flipping the sign of either translation component never changes the decision. |
| Gesture.ShouldBeginScaleInvariant | Pod/Classes/SloppySwipingNav.swift:170-171 | Scaling the translation by any positive factor never changes the decision, so only the drag's slope matters. |
| Gesture.ShouldBeginSplitsAtDiagonal | Pod/Classes/SloppySwipingNav.swift:170-171 | A predominantly vertical drag never begins. A drag at exactly 45 degrees begins, and so does a pan that has not moved. |
| Gesture.Percent | Pod/Classes/SloppySwipingNav.swift:136-137 | Progress always lies in [0,1]. It is 0 for a translation of 0 or less and 1 for a translation of at least the view width. In between, progress times width is the translation. |
| Gesture.PercentMonotone | Pod/Classes/SloppySwipingNav.swift:137 | Dragging further right never reports less progress. |
| Gesture.Intent | Pod/Classes/SloppySwipingNav.swift:139-146 | A horizontal velocity above 300 completes and one below -300 cancels. Between those limits, inclusive, the result is true exactly when progress exceeds 0.5. |
| Gesture.IntentMonotone | Pod/Classes/SloppySwipingNav.swift:139-146 | A higher velocity or more progress never turns completion into cancellation. |
| Gesture.IntentThresholds | Pod/Classes/SloppySwipingNav.swift:140-146 | Velocities of 301 and -301 override the position. At zero velocity, 0.51 completes and 0.49 cancels. A velocity of exactly ±300 is decided by the position. |
| Gesture.Step | Pod/Classes/SloppySwipingNav.swift:125-161 | `.began` sets in-progress, keeps the intent and pops. `.changed` without a view does nothing. `.changed` with a view reports exactly the clamped progress `Percent(tx, width)`, which lies in [0,1]. It sets the intent to `Intent(vx, that progress)`: the fling rule, and otherwise the position rule. It leaves in-progress alone. `.cancelled` always cancels. `.ended` finishes exactly when the intent says complete. Both clear in-progress. Only `.changed` writes the intent, and other states change nothing. |
| Gesture.Run | Pod/Classes/SloppySwipingNav.swift:125-161 | Over any sequence of calls, every reported progress is in [0,1]. There is one pop per `.began` and one finish-or-cancel per `.ended` or `.cancelled`. There are never more commands than calls. |
| Gesture.RunIntent | Pod/Classes/SloppySwipingNav.swift:139-146 | After any sequence of calls, the intent is the one decided by the last `.changed` call that had a view. If there was no such call, it is still the starting intent. |
| Gesture.RunInProgress | Pod/Classes/SloppySwipingNav.swift:127-151 | After any sequence of calls, in-progress is true exactly when the last `.began`, `.ended` or `.cancelled` was a `.began`. If there was none, it keeps its starting value. |
| Gesture.ChangesOnlyUpdate | Pod/Classes/SloppySwipingNav.swift:131-148 | A run of `.changed` calls emits exactly one update per call that had a view, with that call's clamped progress, and does not touch in-progress. |
| Gesture.GestureOutcome | Pod/Classes/SloppySwipingNav.swift:125-161 | A well-formed gesture (`.began`, any `.changed`, then `.ended` or `.cancelled`) emits a pop, then its updates, then one settling command. That command is finish exactly when the gesture ended and the last decided intent (carried over if the gesture never moved) is complete. Afterwards nothing is in progress. |
| Gesture.ReentrantBeganPopsAgain | Pod/Classes/SloppySwipingNav.swift:127-129 | Two `.began` calls in a row pop twice. There is no re-entry guard. |
| Gesture.IntentCarriesOverGestures | Pod/Classes/SloppySwipingNav.swift:111-112 | After a completed fling, a following gesture released without moving also finishes, because the intent is not reset at `.began`. |
| Attachment.Attach | Pod/Classes/SloppySwipingNav.swift:114-123 | After attaching, a view has exactly one sloppy-swipe recognizer if it had none. Otherwise it is unchanged. Existing recognizers are kept in order, a `nil` list counts as empty, and at most one recognizer is added. |
| Attachment.AttachIdempotent | Pod/Classes/SloppySwipingNav.swift:117-122 | Attaching twice is the same as attaching once. |
| Attachment.AttachTwiceInstallsOne | Pod/Classes/SloppySwipingNav.swift:117-122 | Attaching twice to a bare view leaves exactly one recognizer. |
| Attachment.WillShow | Pod/Classes/SloppySwipingNav.swift:185-190 | The root of the stack is left untouched. Any other shown screen is attached, including when the stack is empty and there is no root. No other screen changes. |
| Attachment.ReplayKeepsAtMostOne | Pod/Classes/SloppySwipingNav.swift:117-122 | However many times screens are shown, no screen ever carries two sloppy-swipe recognizers. |
| Attachment.ReplayNeverAttachesRoot | Pod/Classes/SloppySwipingNav.swift:187-188 | The screen at the bottom of the stack keeps its recognizers through any sequence of will-show calls. |
| Attachment.ReplayInstalled | Pod/Classes/SloppySwipingNav.swift:185-190 | A screen that was ever shown while not the root ends with exactly one recognizer. Any other screen keeps its count. |
| Transitioning.SetLinerAnimation | Pod/Classes/SloppySwipingNav.swift:13-17 | Assigning the curve flag stores it, keeps the direction and sets the duration to 0.4. |
| Transitioning.BeforeMove | Pod/Classes/SloppySwipingNav.swift:33-43 | Forward: the shown screen goes on top, gets the shadow and starts one width of the current screen to the right of its final frame. Reverse: the current screen gets the shadow and the shown one goes beneath it, 60 points left of its final frame. In both cases the shown screen joins the container with the final frame's y and size. The current screen's frame and membership are untouched. |
| Transitioning.AnimateWith | Pod/Classes/SloppySwipingNav.swift:24-72 | The set-up and the move follow the direction at the start. The completion block follows its own, possibly overwritten, reading of `reverse`: it strips the shadow from `from` when that reading is reverse and from `to` otherwise, and it resets `from` to x = 0 or to the final frame accordingly. Membership, the shown screen's frame, the curve and the completion flag are as in `Animate`. |
| Transitioning.DirectionOverwrittenLeavesShadow | Pod/Classes/SloppySwipingNav.swift:56-64 | If a pop's direction is overwritten to forward before its completion block runs, the swiped screen keeps its shadow and is moved to the final frame instead of x = 0. |
| Transitioning.Animate | Pod/Classes/SloppySwipingNav.swift:24-72 | With the direction unchanged during the transition:  Missing screens mean no effect. Otherwise: the completion flag is the negation of cancelled; the curve is linear exactly when `linerAnimation` is set; exactly the losing screen leaves the container; the screen that got the shadow loses it while the other keeps its own. The shown screen ends at its final frame, or back at its start if cancelled. The current screen is reset to the final frame forward and to x = 0 in reverse. |
| Transitioning.MoveOffsets | Pod/Classes/SloppySwipingNav.swift:35-53 | Forward: `to` goes from finalX + width to finalX and `from` to finalX - 60. Reverse: `to` goes from finalX - 60 to finalX and `from` to finalX + width. |
| Transitioning.ShadowOnUpperScreen | Pod/Classes/SloppySwipingNav.swift:34-43 | In both directions, the screen drawn on top is the one with the shadow. |
| Transitioning.ExactlyOneRemains | Pod/Classes/SloppySwipingNav.swift:66-70 | Starting with the current screen in the container, exactly one of the two screens remains: the shown one if and only if the transition completed. |
| Transitioning.ShadowRadiusCleared | Pod/Classes/SloppySwipingNav.swift:36-64 | Two screens whose shadow radius is 0 end with radius 0, completed or cancelled. The flag models the radius only. |
| Transitioning.CompletionIsDirectionSymmetric | Pod/Classes/SloppySwipingNav.swift:46-70 | A completed push and a completed pop both leave the shown screen at its final frame in the container, with the other screen removed. |
| Transitioning.CancelRestoresCurrentScreen | Pod/Classes/SloppySwipingNav.swift:57-70 | A cancelled transition keeps the current screen and removes the other one. The current screen is at x = 0 for a pop and at the final frame's x for a push, and completion is reported false. |
| Navigation.AnimationControllerFor | Pod/Classes/SloppySwipingNav.swift:192-196 | The animator is reversed exactly for a pop. Its curve flag and duration are unchanged. |
| Navigation.InteractionControllerFor | Pod/Classes/SloppySwipingNav.swift:198-202 | The interactive driver is handed over exactly when a transition is in progress, and the linear curve is chosen exactly then too. The direction is kept and the duration becomes 0.4. |
| Navigation.SwipeStartsInteractivePop | Pod/Classes/SloppySwipingNav.swift:198-202 | After a `.began`, a pop is run interactively, in reverse, on the linear curve, whatever the earlier state. |
| Navigation.ProgrammaticTransitionIsTimed | Pod/Classes/SloppySwipingNav.swift:198-202 | With no swipe in progress, a transition gets no driver and the spring curve, and is reversed exactly for a pop. |
| Navigation.SwipeBackSession | Pod/Classes/SloppySwipingNav.swift:125-161 | For one whole gesture, the pop runs interactively and linearly with the swiped screen on top. The last command is finish or cancel. On finish, the screen beneath is in the container at its final frame. On cancel, the swiped screen remains at x = 0. Exactly one screen remains, and neither screen is left with a non-zero shadow radius. |
| Navigation.HooksSetDuration | Pod/Classes/SloppySwipingNav.swift:198-202 | A fresh animator reports duration 0. After the hooks run it reports 0.4 seconds, and the value is the same whether or not a swipe is in progress. |

## Left out

- The UIKit view hierarchy is modelled only as membership in the transition's container and an above/below flag. The order of other subviews and the mechanics of `removeFromSuperview` are left out.
- The animation engine (`UIView.animate`, spring and linear timing curves, the 0.4 s clock) is external and driven by time. `Transitioning.Settle` is an assumption about it: it leaves frames at the animation targets, or, for a cancelled interactive transition, back at their values before the animation block, which is assumed to match what UIKit does when it reverses an interactive animation.
- The interpolation done by `UIPercentDrivenInteractiveTransition` (`update`, `finish`, `cancel`) is framework code. Its calls appear only as emitted commands.
- Shadow colour, radius, opacity and `masksToBounds` are cosmetic. Each view has only a boolean: the shadow radius set by `addShadow` is in effect.
- Transitioning.Animate: the shadow flag stands for a non-zero shadow radius and nothing else. The removal code sets only the radius to 0. It leaves the opacity at 0.2, the colour black and `masksToBounds` false. So "loses the shadow", in `Animate`, `ShadowRadiusCleared` and `Navigation.SwipeBackSession`, means the radius is 0 again, not that every shadow property is back to its starting value.
- Transitioning.Animate: the direction is taken as fixed for the whole transition. `Transitioning.AnimateWith` models the case where a delegate call overwrites the shared animator's `reverse` before the completion block fires.
- Gesture.Percent: the quotient `tx / width` is computed exactly over `real`. `CGFloat` division rounds, so a quotient within rounding distance of 0, 1 or 0.5 may clamp or compare differently on a device. Likewise the frame offsets (`finalX + width`, `finalX - 60`) are exact sums in the model and rounded sums in the app.
- The weak `navigationController` reference set by `attachToViewController`, and the stack mutation done by `popViewController`, belong to the container. `Gesture.Step` emits the pop command unconditionally. In the app, the pop is a no-op when the reference is `nil`.
- Gesture.Percent: the view width is taken to be positive. A zero-width view makes the Swift division produce an IEEE infinity or NaN, which `real` cannot represent.
- Transitioning.Animate: frames are read as stored. `CGRect` standardisation of negative widths and heights is not modelled.
- Transitioning.Animate: the code cannot cancel a timed (non-interactive) transition. The `cancelled` input is therefore only meaningful when `linerAnimation` is set, and the model does not tie the two together.
- `Example/SloppySwipingNav/ViewController.swift` is a demo screen with a random background colour and contains no logic.
