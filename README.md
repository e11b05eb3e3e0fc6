# DragBackLayout drag-to-dismiss gesture, in Dafny

DragBackLayout is an Android `FrameLayout` that wraps an activity's content.
The user dismisses the screen by dragging it downward. Its one piece of logic
is the inner `ViewDragCallback`, which a `ViewDragHelper` calls for every
proposed child position and for the release of the child. It has two mutable
fields: `beginDrag` says whether the drag has passed a tenth of the
container's height, and `ratio` is `(originHeight - |top|) / originHeight`.
From these it decides when to report `DRAG_BEGIN` and how far the child may
move. On release it decides between `DRAG_END_AND_BACK` (followed 100 ms
later by `onBack`) and `DRAG_END`.

The model has three modules:

- `DragGesture` (`gesture.dfy`) holds the callbacks as pure steps on a
  `Session(beginDrag, ratio)`. Each step also returns the callback events
  (`Begin`, `End`, `EndAndBack`, `ScheduleBack(delayMs)`) and the visual
  effects (background alpha, child animation, relayout) it asks for. These are
  plain data. It also holds the session invariant `Inv`: the ratio is at most
  1, and it is at least 0.9 while the drag has not begun.
- `DragTrace` (`trace.dfy`) describes the event trace as a language. Each
  finished gesture is `[End]`, `[Begin, End]` or
  `[Begin, EndAndBack, ScheduleBack(100)]`. The gesture in progress
  contributes `[Begin]` exactly when `beginDrag` holds. The module proves that
  every touch sequence yields such a trace. Consequences:
  - `Begin` is reported at most once per gesture;
  - a commit always follows a `Begin` of the same gesture;
  - `onBack` is scheduled only right after a commit.
- `DragBackLayout` (`drag_back_layout.dfy`) holds the class `ViewDragCallback`.
  It has the source's fields plus the two traces. Each method is imperative,
  and its `ensures` ties the new fields and traces to the pure step of the old
  state. `Valid()` carries the session invariant and the trace language across
  calls.

The `ratio` is an exact `real`. Kotlin's `Float.toInt()` on the dim value is
truncation toward zero. `originHeight` is a constructor argument and must be at
least 1. The source's `callback?.` calls are modelled as appends to `events`,
with the callback assumed present.

The ratio is not clamped to [0, 1]: once the drag has begun, a proposed
offset with `|top| > originHeight` makes it negative. `Ratio`'s contract
states exactly when that happens (`0 <= r` iff `|top| <= originHeight`), and
`Alpha` is bounded to 0..255 only for ratios in [0, 1].

## Model

| member | source | states |
|---|---|---|
| `DragGesture.Code` | app/src/main/java/com/github/tuuzed/dragbacklayout/DragBackLayout.kt:55-59 | the onDrag codes are 1, 2, 3, and each names exactly one of Begin, End, EndAndBack |
| `DragGesture.Abs` | app/src/main/java/com/github/tuuzed/dragbacklayout/DragBackLayout.kt:118 | `top.absoluteValue`: the result is a natural number equal to x or to -x |
| `DragGesture.Max` | app/src/main/java/com/github/tuuzed/dragbacklayout/DragBackLayout.kt:122 | `max(top, 0)`: the result is at least both arguments and equal to one of them |
| `DragGesture.BeginThreshold` | app/src/main/java/com/github/tuuzed/dragbacklayout/DragBackLayout.kt:114 | the begin threshold t is the largest integer with `10 * t <= originHeight` |
| `DragGesture.Ratio` | app/src/main/java/com/github/tuuzed/dragbacklayout/DragBackLayout.kt:118 | `ratio * originHeight == originHeight - |top|`; ratio is at most 1; it equals 1 iff top is 0; it is non-negative iff `|top| <= originHeight` |
| `DragGesture.TruncateToInt` | app/src/main/java/com/github/tuuzed/dragbacklayout/DragBackLayout.kt:120 | `toInt` truncates toward zero: the result is the integer within one of x on the side of zero |
| `DragGesture.Alpha` | app/src/main/java/com/github/tuuzed/dragbacklayout/DragBackLayout.kt:119-120 | the dim alpha is `ratio * 255` truncated toward zero: for a non-negative ratio it is the integer part, and for a negative ratio it is the integer just above or at it; it lies in 0..255 for a ratio in [0, 1], and it is 255 at ratio 1 |
| `DragGesture.ClampHorizontal` | app/src/main/java/com/github/tuuzed/dragbacklayout/DragBackLayout.kt:106-108 | returns 0 while the drag has not begun and `left` once it has |
| `DragGesture.ClampVertical` | app/src/main/java/com/github/tuuzed/dragbacklayout/DragBackLayout.kt:110-123 | the returned offset is `max(top, 0)` on both the early-return and the normal path; at most one Begin is emitted |
| `DragGesture.Commits` | app/src/main/java/com/github/tuuzed/dragbacklayout/DragBackLayout.kt:127 | the release test `ratio <= 0.75` on the exact ratio; `CommitsAfterMove` gives it as an integer comparison |
| `DragGesture.CommitsAfterMove` | app/src/main/java/com/github/tuuzed/dragbacklayout/DragBackLayout.kt:118-127 | after a vertical move that recomputes the ratio, a release commits exactly when `4 * (originHeight - |top|) <= 3 * originHeight` |
| `DragGesture.Release` | app/src/main/java/com/github/tuuzed/dragbacklayout/DragBackLayout.kt:125-139 | the session is reset to `beginDrag = false, ratio = 1`; EndAndBack and ScheduleBack(100) are emitted iff `ratio <= 0.75`, and End is emitted iff not |
| `DragGesture.InitialInv` | app/src/main/java/com/github/tuuzed/dragbacklayout/DragBackLayout.kt:99-100 | the initial field values satisfy the session invariant |
| `DragGesture.VerticalKeepsInv` | app/src/main/java/com/github/tuuzed/dragbacklayout/DragBackLayout.kt:111-118 | the vertical clamp keeps the ratio at most 1, and at least 0.9 while the drag has not begun, because before begin the ratio is recomputed only for `0 <= top <= originHeight / 10` |
| `DragGesture.NoCommitBeforeBegin` | app/src/main/java/com/github/tuuzed/dragbacklayout/DragBackLayout.kt:127-136 | in a reachable session whose drag has not begun, release is a cancel that emits exactly End |
| `DragGesture.ReleaseKeepsInv` | app/src/main/java/com/github/tuuzed/dragbacklayout/DragBackLayout.kt:137-138 | after a release the session invariant holds again |
| `DragGesture.ReleaseTwiceCancels` | app/src/main/java/com/github/tuuzed/dragbacklayout/DragBackLayout.kt:125-139 | a release with no vertical move since the previous release is always a cancel (End) |
| `DragTrace.ClosedShape` | app/src/main/java/com/github/tuuzed/dragbacklayout/DragBackLayout.kt:114-136 | in a trace of finished gestures, every Begin is followed by End or EndAndBack; every EndAndBack has Begin just before it and ScheduleBack(100) just after it; every ScheduleBack has delay 100 and comes right after EndAndBack |
| `DragTrace.WellFormedShape` | app/src/main/java/com/github/tuuzed/dragbacklayout/DragBackLayout.kt:114-137 | the same position-by-position shape holds when a gesture is in progress; there, a final Begin alone may have no successor |
| `DragTrace.BeginAtMostOncePerGesture` | app/src/main/java/com/github/tuuzed/dragbacklayout/DragBackLayout.kt:114-117 | between any two Begins of a trace, the first is followed at once by the end of its gesture |
| `DragTrace.StepKeepsShape` | app/src/main/java/com/github/tuuzed/dragbacklayout/DragBackLayout.kt:106-139 | each callback (horizontal clamp, vertical clamp, release) keeps the session invariant and the trace language, with the open gesture begun iff `beginDrag` |
| `DragTrace.ReleaseKeepsShape` | app/src/main/java/com/github/tuuzed/dragbacklayout/DragBackLayout.kt:125-139 | a release closes the gesture in progress: the trace becomes a sequence of finished gestures |
| `DragTrace.RunWellFormed` | app/src/main/java/com/github/tuuzed/dragbacklayout/DragBackLayout.kt:97-140 | for every sequence of callbacks from the initial state, the session invariant holds and the trace is finished gestures followed by `[Begin]` iff the drag has begun |
| `DragTrace.RunCommitFollowsBegin` | app/src/main/java/com/github/tuuzed/dragbacklayout/DragBackLayout.kt:111-131 | in any run, each EndAndBack follows a Begin of the same gesture and is followed by ScheduleBack(100) |
| `DragTrace.RunBegunIffLastBegin` | app/src/main/java/com/github/tuuzed/dragbacklayout/DragBackLayout.kt:114-117 | in any run, `beginDrag` holds iff the last event reported is Begin |
| `DragTrace.ScenarioCommit` | app/src/main/java/com/github/tuuzed/dragbacklayout/DragBackLayout.kt:110-139 | height 1000, moves to 150 and to 300, then a release: the events are Begin, EndAndBack, ScheduleBack(100) |
| `DragTrace.ScenarioCancel` | app/src/main/java/com/github/tuuzed/dragbacklayout/DragBackLayout.kt:110-139 | height 1000, moves to 150 and back to 50, then a release: the events are Begin, End |
| `DragTrace.ScenarioNeverBegins` | app/src/main/java/com/github/tuuzed/dragbacklayout/DragBackLayout.kt:110-139 | height 1000, moves to 30 and 50 (below the threshold 100), then a release: the only event is End |
| `DragBackLayout.ViewDragCallback.constructor` | app/src/main/java/com/github/tuuzed/dragbacklayout/DragBackLayout.kt:99-100 | a new callback starts with `beginDrag = false`, `ratio = 1` and empty traces |
| `DragBackLayout.ViewDragCallback.TryCaptureView` | app/src/main/java/com/github/tuuzed/dragbacklayout/DragBackLayout.kt:102-104 | the child is always captured |
| `DragBackLayout.ViewDragCallback.ClampHorizontal` | app/src/main/java/com/github/tuuzed/dragbacklayout/DragBackLayout.kt:106-108 | returns the pure horizontal clamp of the current session (0 before begin, `left` after); a non-zero result implies the trace ends with Begin |
| `DragBackLayout.ViewDragCallback.ClampVertical` | app/src/main/java/com/github/tuuzed/dragbacklayout/DragBackLayout.kt:110-123 | returns `max(top, 0)`; before begin, a negative top changes nothing and emits nothing; the trace grows iff `!beginDrag && top > originHeight / 10`, and then by one Begin; once begun the drag stays begun; the new fields and traces are those of the pure step; the invariant is kept |
| `DragBackLayout.ViewDragCallback.Release` | app/src/main/java/com/github/tuuzed/dragbacklayout/DragBackLayout.kt:125-139 | with `ratio <= 0.75` the trace gains EndAndBack and ScheduleBack(100), and only in a begun drag; otherwise it gains exactly End; afterwards `beginDrag = false`, `ratio = 1`, and the trace is finished gestures |
| `DragBackLayout.DismissScenario` | app/src/main/java/com/github/tuuzed/dragbacklayout/DragBackLayout.kt:110-139 | a client of the class: height 1000, drags to 150 and 300, then a release; it reports Begin, EndAndBack and a scheduled onBack after 100 ms |

## Left out

- `attachToActivity` (DragBackLayout.kt:73-80) is left out. It moves views in the Android decor view, which is a foreign API.
- `onAttachedToWindow`, `onInterceptTouchEvent` and `onTouchEvent` (DragBackLayout.kt:82-95) are left out. They forward touch events to `ViewDragHelper`, which is not part of this model, and set the initial black background. Touches are modelled only as the callback calls they produce (`DragTrace.Touch`).
- The `post { }` capture of `originWidth`/`originHeight` (DragBackLayout.kt:66-70) is not modelled: it is UI-thread scheduling. `originHeight` is a constructor argument with `originHeight > 0`. Before that capture runs, the height is 0, and the division on line 118 would give NaN or infinity. The model excludes that state. `originWidth` is never read.
- Float arithmetic is not modelled. `ratio` and `dim` are exact reals, and `dim` is truncated toward zero exactly. At the 0.75 boundary, float rounding can only change the release decision for heights above about 2^23. The float product `ratio * 255` can differ from the exact one by one unit of alpha.
- Kotlin's 32-bit `Int` is not modelled: offsets are unbounded integers. The one `Int` offset where this matters is `top == Int.MIN_VALUE` (-2^31). There `top.absoluteValue` is again -2^31, and `originHeight - |top|` wraps around. For every other `Int` offset with `originHeight >= 1`, both stay in range.
- `Color.argb` packing, the animations and `requestLayout` are not rendered. They are recorded as `Effect` values: target scale, whether the child fades out, and duration in ms. `Color.TRANSPARENT` is recorded as `Background(0)`.
- The order between the `events` trace and the `effects` trace is not captured. Within each trace the source's order is kept. In the source, the effects of a release come before its `onDrag` call.
- The timing of `postDelayed(..., 100)` is not modelled. It is recorded as an appended `ScheduleBack(100)` event, and `onBack` itself never runs here.
- `pointerId`, `dx`, `dy`, `xvel` and `yvel` are unused and dropped. `xvel` and `yvel` reach only `super.onViewReleased`, which is the library's empty default. `child` and `releasedChild` are the target of the animations (DragBackLayout.kt:121, 129, 133). The layout holds a single child, so `AnimateChild` leaves that target implicit.
- `SupportDragBackActivity.kt` and `MainActivity.kt` are not part of this model. They are demo activities with no logic of their own.
