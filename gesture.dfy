/**
 * The drag-to-dismiss gesture of DragBackLayout, as pure step functions.
 *
 * A gesture session holds two values: whether the drag has begun and the
 * current ratio (how much of the content is still "in place").  Each
 * callback of the view-drag helper is a step from one session to the next;
 * the step also yields the callback events it fires and the visual effects
 * it asks the view for, both as data.
 */
module DragGesture {

  /** onDrag(DRAG_BEGIN), onDrag(DRAG_END), onDrag(DRAG_END_AND_BACK),
      and postDelayed({ onBack() }, delayMs).  Each drag event e in a trace
      stands for the call onDrag(Code(e)). */
  datatype Event = Begin | End | EndAndBack | ScheduleBack(delayMs: int)

  /** What the controller asks the view to do; never rendered here. */
  datatype Effect =
    | Background(alpha: int)                                   // setBackgroundColor(argb(alpha, 0, 0, 0))
    | AnimateChild(scale: real, fadeOut: bool, durationMs: int) // child.animate().scaleX/Y(scale)[.alpha(0)]
    | RequestLayout

  /** The state of the inner ViewDragCallback object. */
  datatype Session = Session(beginDrag: bool, ratio: real)

  /** The values the callback object starts with, and returns to on release. */
  const Idle := Session(false, 1.0)

  /** Integer codes the callback receives: DRAG_BEGIN, DRAG_END, DRAG_END_AND_BACK. */
  const DRAG_BEGIN := 1
  const DRAG_END := 2
  const DRAG_END_AND_BACK := 3

  /** Delay of the onBack callback after a committing release, and duration
      of the exit animation. */
  const BackDelayMs := 100

  /** A release commits to going back when the ratio is at most this. */
  const CommitRatio: real := 0.75

  /** The code onDrag is called with for a drag event. */
  function Code(e: Event): (c: int)
    requires !e.ScheduleBack?
    ensures DRAG_BEGIN <= c <= DRAG_END_AND_BACK
    ensures c == DRAG_BEGIN <==> e == Begin
    ensures c == DRAG_END <==> e == End
    ensures c == DRAG_END_AND_BACK <==> e == EndAndBack
  {
    match e
    case Begin => DRAG_BEGIN
    case End => DRAG_END
    case EndAndBack => DRAG_END_AND_BACK
  }

  function Abs(x: int): (a: nat)
    ensures a == x || a == -x
  {
    if x < 0 then -x else x
  }

  function Max(a: int, b: int): (m: int)
    ensures a <= m && b <= m && (m == a || m == b)
  {
    if a < b then b else a
  }

  /** Height a proposed top offset must exceed for the drag to begin
      (Kotlin's Int division; the height is positive, so it agrees with Dafny's). */
  function BeginThreshold(originHeight: int): (t: int)
    requires originHeight > 0
    ensures 0 <= t && 10 * t <= originHeight < 10 * (t + 1)
  {
    originHeight / 10
  }

  /** (originHeight - |top|) / originHeight, computed exactly. */
  function Ratio(originHeight: int, top: int): (r: real)
    requires originHeight > 0
    ensures r * originHeight as real == (originHeight - Abs(top)) as real
    ensures r <= 1.0
    ensures r == 1.0 <==> top == 0
    ensures 0.0 <= r <==> Abs(top) <= originHeight
  {
    var h := originHeight as real;
    var q := (originHeight - Abs(top)) as real / h;
    assert q * h == h - Abs(top) as real;
    ScaledBounds(q, h, Abs(top) as real);
    q
  }

  /** q * h == h - a with h > 0 places q against 1 and 0 as a places
      itself against 0 and h. */
  lemma ScaledBounds(q: real, h: real, a: real)
    requires h > 0.0 && a >= 0.0 && q * h == h - a
    ensures q <= 1.0 && (q == 1.0 <==> a == 0.0) && (0.0 <= q <==> a <= h)
  {
    if q < 0.0 {
      assert q * h < 0.0 * h;
    }
  }

  /** Kotlin's Float.toInt: truncation toward zero. */
  function TruncateToInt(x: real): (n: int)
    ensures 0.0 <= x ==> n as real <= x < n as real + 1.0
    ensures x < 0.0 ==> n as real - 1.0 < x <= n as real
  {
    if 0.0 <= x then x.Floor else -((-x).Floor)
  }

  /** The background alpha `(ratio * 255).toInt()`. */
  function Alpha(ratio: real): (a: int)
    ensures 0.0 <= ratio <= 1.0 ==> 0 <= a <= 255
    ensures ratio == 1.0 ==> a == 255
    ensures 0.0 <= ratio ==> a as real <= ratio * 255.0 < a as real + 1.0
    ensures ratio < 0.0 ==> a as real - 1.0 < ratio * 255.0 <= a as real
  {
    TruncateToInt(ratio * 255.0)
  }

  /** clampViewPositionHorizontal: no sideways movement before the drag begins. */
  function ClampHorizontal(s: Session, left: int): (x: int)
    ensures !s.beginDrag ==> x == 0
    ensures s.beginDrag ==> x == left
  {
    if s.beginDrag then left else 0
  }

  datatype VerticalStep = VerticalStep(session: Session, events: seq<Event>, effects: seq<Effect>, y: int)

  /** clampViewPositionVertical for a proposed top offset. */
  function ClampVertical(originHeight: int, s: Session, top: int): (r: VerticalStep)
    requires originHeight > 0
    ensures r.y == Max(top, 0)
    ensures r.events == [] || r.events == [Begin]
  {
    if !s.beginDrag && top < 0 then
      VerticalStep(s, [], [], 0)
    else
      var starts := !s.beginDrag && top > BeginThreshold(originHeight);
      var ratio := Ratio(originHeight, top);
      VerticalStep(Session(s.beginDrag || starts, ratio),
                   if starts then [Begin] else [],
                   [Background(Alpha(ratio)), AnimateChild(ratio, false, 0)],
                   Max(top, 0))
  }

  /** Whether a release in this session commits to going back. */
  predicate Commits(s: Session): (c: bool)
    ensures c ==> s.ratio < 0.9
  {
    s.ratio <= CommitRatio
  }

  /** After a vertical move, the release decision is the integer comparison
      4 * (originHeight - |top|) <= 3 * originHeight. */
  lemma CommitsAfterMove(originHeight: int, s: Session, top: int)
    requires originHeight > 0 && (s.beginDrag || top >= 0)
    ensures var r := ClampVertical(originHeight, s, top);
            Commits(r.session) <==> 4 * (originHeight - Abs(top)) <= 3 * originHeight
  {
    var h := originHeight as real;
    var a := (originHeight - Abs(top)) as real;
    ScaledAgainst(Ratio(originHeight, top), h, a, CommitRatio);
  }

  /** With q * h == a and h > 0, q lies at or below c exactly when a lies
      at or below c * h. */
  lemma ScaledAgainst(q: real, h: real, a: real, c: real)
    requires h > 0.0 && q * h == a
    ensures q <= c <==> a <= c * h
  {
    var d := q - c;
    assert d * h == a - c * h;
    if d > 0.0 {
      assert d * h > 0.0;
    } else {
      assert d * h <= 0.0;
    }
  }

  datatype ReleaseStep = ReleaseStep(session: Session, events: seq<Event>, effects: seq<Effect>)

  /** onViewReleased: commit or cancel, then reset the session. */
  function Release(s: Session): (r: ReleaseStep)
    ensures r.session == Idle && !Commits(r.session)
    ensures Commits(s) <==> EndAndBack in r.events
    ensures Commits(s) <==> ScheduleBack(BackDelayMs) in r.events
    ensures End in r.events <==> !Commits(s)
  {
    if Commits(s) then
      ReleaseStep(Idle, [EndAndBack, ScheduleBack(BackDelayMs)],
                  [Background(0), AnimateChild(0.0, true, BackDelayMs)])
    else
      ReleaseStep(Idle, [End], [AnimateChild(1.0, false, 0), RequestLayout])
  }

  /** What every reachable session satisfies: the ratio never exceeds one,
      and before the drag has begun it stays above nine tenths. */
  ghost predicate Inv(s: Session)
  {
    s.ratio <= 1.0 && (!s.beginDrag ==> s.ratio >= 0.9)
  }

  lemma InitialInv()
    ensures Inv(Idle)
  {
  }

  /** Before the drag has begun, the ratio is recomputed only for offsets
      0 <= top <= originHeight / 10, which keeps it at or above 0.9. */
  lemma VerticalKeepsInv(originHeight: int, s: Session, top: int)
    requires originHeight > 0 && Inv(s)
    ensures Inv(ClampVertical(originHeight, s, top).session)
  {
    var r := ClampVertical(originHeight, s, top);
    if !r.session.beginDrag && !(top < 0) {
      assert 0 <= top && 10 * top <= originHeight;
      NineTenths(r.session.ratio, originHeight as real, top as real);
    }
  }

  lemma NineTenths(q: real, h: real, t: real)
    requires h > 0.0 && 10.0 * t <= h && q * h == h - t
    ensures q >= 0.9
  {
    assert (q - 0.9) * h == 0.1 * h - t;
  }

  /** An uncommenced drag can never be committed. */
  lemma NoCommitBeforeBegin(s: Session)
    requires Inv(s) && !s.beginDrag
    ensures !Commits(s) && Release(s).events == [End]
  {
  }

  lemma ReleaseKeepsInv(s: Session)
    ensures Inv(Release(s).session)
  {
  }

  /** A release right after a release is always a cancel. */
  lemma ReleaseTwiceCancels(s: Session)
    ensures Release(Release(s).session).events == [End]
  {
  }
}
