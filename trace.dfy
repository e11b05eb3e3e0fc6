/**
 * The sequence of callback events the drag gesture produces.
 *
 * Every finished gesture contributes one of three event blocks to the trace:
 *   [End]                                   a release before the drag began,
 *   [Begin, End]                            a drag that snapped back,
 *   [Begin, EndAndBack, ScheduleBack(100)]  a drag that dismissed the screen,
 * and a gesture still in progress contributes [] or [Begin], according to
 * whether its drag has begun.
 */
module DragTrace {
  import opened DragGesture

  /** The trace is a concatenation of finished gestures. */
  predicate Closed(t: seq<Event>)
    decreases |t|
  {
    if t == [] then true
    else
      var n := |t|;
      match t[n - 1]
      case End =>
        Closed(t[..n - 1]) || (n >= 2 && t[n - 2] == Begin && Closed(t[..n - 2]))
      case ScheduleBack(d) =>
        d == BackDelayMs && n >= 3 && t[n - 2] == EndAndBack && t[n - 3] == Begin && Closed(t[..n - 3])
      case _ => false
  }

  /** The trace so far, with the gesture in progress begun or not. */
  predicate WellFormed(t: seq<Event>, begun: bool)
  {
    if begun then |t| > 0 && t[|t| - 1] == Begin && Closed(t[..|t| - 1])
    else Closed(t)
  }

  /** Position by position: every Begin is at the end of the trace or is
      followed at once by the end of its gesture (so a gesture begins at most
      once), every EndAndBack comes right after a Begin and right before the
      scheduled onBack, and onBack is scheduled only after an EndAndBack. */
  lemma {:induction false} ClosedShape(t: seq<Event>, i: int)
    requires Closed(t) && 0 <= i < |t|
    ensures t[i] == Begin ==> i + 1 < |t| && (t[i + 1] == End || t[i + 1] == EndAndBack)
    ensures t[i] == EndAndBack ==> 0 < i && t[i - 1] == Begin && i + 1 < |t| && t[i + 1] == ScheduleBack(BackDelayMs)
    ensures t[i].ScheduleBack? ==> t[i].delayMs == BackDelayMs && 0 < i && t[i - 1] == EndAndBack
    decreases |t|
  {
    var n := |t|;
    if i < n - 1 {
      match t[n - 1]
      case End =>
        if Closed(t[..n - 1]) {
          ClosedShape(t[..n - 1], i);
          assert t[..n - 1][i] == t[i];
          assert i + 1 < n - 1 ==> t[..n - 1][i + 1] == t[i + 1];
          assert 0 < i ==> t[..n - 1][i - 1] == t[i - 1];
        } else if i < n - 2 {
          ClosedShape(t[..n - 2], i);
          assert t[..n - 2][i] == t[i];
          assert i + 1 < n - 2 ==> t[..n - 2][i + 1] == t[i + 1];
          assert 0 < i ==> t[..n - 2][i - 1] == t[i - 1];
        }
      case ScheduleBack(_) =>
        if i < n - 3 {
          ClosedShape(t[..n - 3], i);
          assert t[..n - 3][i] == t[i];
          assert i + 1 < n - 3 ==> t[..n - 3][i + 1] == t[i + 1];
          assert 0 < i ==> t[..n - 3][i - 1] == t[i - 1];
        }
    }
  }

  /** The same shape for a trace whose last gesture may still be in
      progress; only a final Begin has no successor. */
  lemma WellFormedShape(t: seq<Event>, begun: bool, i: int)
    requires WellFormed(t, begun) && 0 <= i < |t|
    ensures t[i] == Begin ==> i + 1 == |t| || (t[i + 1] == End || t[i + 1] == EndAndBack)
    ensures t[i] == EndAndBack ==> 0 < i && t[i - 1] == Begin && i + 1 < |t| && t[i + 1] == ScheduleBack(BackDelayMs)
    ensures t[i].ScheduleBack? ==> t[i].delayMs == BackDelayMs && 0 < i && t[i - 1] == EndAndBack
  {
    if begun {
      var c := t[..|t| - 1];
      if i < |t| - 1 {
        ClosedShape(c, i);
        assert c[i] == t[i];
        assert i + 1 < |c| ==> c[i + 1] == t[i + 1];
        assert 0 < i ==> c[i - 1] == t[i - 1];
      }
    } else {
      ClosedShape(t, i);
    }
  }

  /** Two Begins always have the end of a gesture between them. */
  lemma BeginAtMostOncePerGesture(t: seq<Event>, begun: bool, i: int, j: int)
    requires WellFormed(t, begun) && 0 <= i < j < |t| && t[i] == Begin && t[j] == Begin
    ensures i + 1 < j && (t[i + 1] == End || t[i + 1] == EndAndBack)
  {
    WellFormedShape(t, begun, i);
  }

  /** The callback invocations a touch sequence drives. */
  datatype Touch = Horizontal(left: int) | Vertical(top: int) | Released

  datatype Outcome = Outcome(session: Session, events: seq<Event>)

  function Step(originHeight: int, s: Session, touch: Touch): (o: Outcome)
    requires originHeight > 0
  {
    match touch
    case Horizontal(_) => Outcome(s, [])
    case Vertical(top) =>
      var r := ClampVertical(originHeight, s, top);
      Outcome(r.session, r.events)
    case Released =>
      var r := Release(s);
      Outcome(r.session, r.events)
  }

  /** The session and the event trace after a touch sequence, starting idle. */
  function Run(originHeight: int, touches: seq<Touch>): (o: Outcome)
    requires originHeight > 0
    decreases |touches|
  {
    if touches == [] then Outcome(Idle, [])
    else
      var before := Run(originHeight, touches[..|touches| - 1]);
      var step := Step(originHeight, before.session, touches[|touches| - 1]);
      Outcome(step.session, before.events + step.events)
  }

  /** One step keeps the session invariant and the shape of the trace. */
  lemma StepKeepsShape(originHeight: int, s: Session, t: seq<Event>, touch: Touch)
    requires originHeight > 0 && Inv(s) && WellFormed(t, s.beginDrag)
    ensures var o := Step(originHeight, s, touch);
            Inv(o.session) && WellFormed(t + o.events, o.session.beginDrag)
  {
    var o := Step(originHeight, s, touch);
    match touch
    case Horizontal(_) =>
      assert t + o.events == t;
    case Vertical(top) =>
      VerticalKeepsInv(originHeight, s, top);
      if o.events == [] {
        assert t + o.events == t;
      } else {
        assert (t + [Begin])[..|t|] == t;
      }
    case Released =>
      if !s.beginDrag {
        NoCommitBeforeBegin(s);
      }
      ReleaseKeepsShape(s, t);
  }

  /** A release closes the gesture in progress. */
  lemma ReleaseKeepsShape(s: Session, t: seq<Event>)
    requires WellFormed(t, s.beginDrag) && (Commits(s) ==> s.beginDrag)
    ensures Closed(t + Release(s).events)
  {
    var u := t + Release(s).events;
    var n := |u|;
    if Commits(s) {
      assert u[..n - 3] == t[..|t| - 1];
      assert u[n - 3] == Begin && u[n - 2] == EndAndBack && u[n - 1] == ScheduleBack(BackDelayMs);
    } else if s.beginDrag {
      assert u[..n - 2] == t[..|t| - 1];
      assert u[n - 2] == Begin && u[n - 1] == End;
    } else {
      assert u[..n - 1] == t;
      assert u[n - 1] == End;
    }
  }

  /** Whatever the touches, the session invariant holds and the trace is a
      sequence of well-formed gestures whose last one is open exactly when
      the drag has begun. */
  lemma {:induction false} RunWellFormed(originHeight: int, touches: seq<Touch>)
    requires originHeight > 0
    ensures Inv(Run(originHeight, touches).session)
    ensures WellFormed(Run(originHeight, touches).events, Run(originHeight, touches).session.beginDrag)
    decreases |touches|
  {
    if touches != [] {
      var prefix := touches[..|touches| - 1];
      RunWellFormed(originHeight, prefix);
      var before := Run(originHeight, prefix);
      StepKeepsShape(originHeight, before.session, before.events, touches[|touches| - 1]);
    }
  }

  /** A committing release always follows a Begin of the same gesture and
      is followed by the scheduled onBack. */
  lemma RunCommitFollowsBegin(originHeight: int, touches: seq<Touch>, i: int)
    requires originHeight > 0
    requires 0 <= i < |Run(originHeight, touches).events|
    requires Run(originHeight, touches).events[i] == EndAndBack
    ensures var t := Run(originHeight, touches).events;
            0 < i && t[i - 1] == Begin && i + 1 < |t| && t[i + 1] == ScheduleBack(BackDelayMs)
  {
    RunWellFormed(originHeight, touches);
    var o := Run(originHeight, touches);
    WellFormedShape(o.events, o.session.beginDrag, i);
  }

  /** The session is begun exactly when the trace ends with Begin. */
  lemma RunBegunIffLastBegin(originHeight: int, touches: seq<Touch>)
    requires originHeight > 0
    ensures var o := Run(originHeight, touches);
            o.session.beginDrag <==> (|o.events| > 0 && o.events[|o.events| - 1] == Begin)
  {
    RunWellFormed(originHeight, touches);
    var o := Run(originHeight, touches);
    if !o.session.beginDrag && |o.events| > 0 {
      ClosedShape(o.events, |o.events| - 1);
    }
  }

  /** originHeight = 1000: drag to 150 (Begin, as 150 > 100), then to 300
      (ratio 0.7), then release: the screen is dismissed. */
  lemma ScenarioCommit()
    ensures Run(1000, [Vertical(150), Vertical(300), Released]).events
            == [Begin, EndAndBack, ScheduleBack(100)]
  {
    var t := [Vertical(150), Vertical(300), Released];
    assert t[..2] == [Vertical(150), Vertical(300)];
    assert t[..2][..1] == [Vertical(150)];
    assert Run(1000, [Vertical(150)]).session == Session(true, 0.85);
    assert Run(1000, t[..2]).session == Session(true, 0.7);
  }

  /** originHeight = 1000: drag to 150 (Begin), back to 50 (ratio 0.95),
      release: the view snaps back and onBack is never scheduled. */
  lemma ScenarioCancel()
    ensures Run(1000, [Vertical(150), Vertical(50), Released]).events == [Begin, End]
  {
    var t := [Vertical(150), Vertical(50), Released];
    assert t[..2] == [Vertical(150), Vertical(50)];
    assert t[..2][..1] == [Vertical(150)];
    assert Run(1000, [Vertical(150)]).session == Session(true, 0.85);
    assert Run(1000, t[..2]).session == Session(true, 0.95);
  }

  /** originHeight = 1000: a drag that never passes 50 does not begin. */
  lemma ScenarioNeverBegins()
    ensures Run(1000, [Vertical(30), Vertical(50), Released]).events == [End]
  {
    var t := [Vertical(30), Vertical(50), Released];
    assert t[..2] == [Vertical(30), Vertical(50)];
    assert t[..2][..1] == [Vertical(30)];
    assert Run(1000, [Vertical(30)]).session == Session(false, 0.97);
    assert Run(1000, t[..2]).session == Session(false, 0.95);
  }
}
