/**
 * The ViewDragCallback object inside DragBackLayout: two mutable fields,
 * the container height it reads, and the callback and view calls it makes,
 * which are appended to two traces.
 */
module DragBackLayout {
  import opened DragGesture
  import opened DragTrace

  class ViewDragCallback {
    /** Height of the container, taken once after its first layout. */
    const originHeight: int
    var beginDrag: bool
    var ratio: real
    /** Calls to onDrag and scheduled calls to onBack, in order. */
    var events: seq<Event>
    /** Background, animation and layout requests made to the view, in order. */
    var effects: seq<Effect>

    function Current(): (s: Session)
      reads this
    {
      Session(beginDrag, ratio)
    }

    /** The height is known, the ratio stays in the range the gesture can
        reach, and the events form finished gestures plus the one in progress. */
    ghost predicate Valid()
      reads this
    {
      originHeight > 0 && Inv(Current()) && WellFormed(events, beginDrag)
    }

    constructor (originHeight: int)
      requires originHeight > 0
      ensures Valid()
      ensures this.originHeight == originHeight && Current() == Idle
      ensures events == [] && effects == []
    {
      this.originHeight := originHeight;
      beginDrag := false;
      ratio := 1.0;
      events := [];
      effects := [];
    }

    /** tryCaptureView: the single child is always captured. */
    method TryCaptureView() returns (captured: bool)
      ensures captured
    {
      captured := true;
    }

    /** clampViewPositionHorizontal.  The child moves sideways only once the
        drag has begun, that is, only while the trace ends with Begin. */
    method ClampHorizontal(left: int) returns (x: int)
      requires Valid()
      ensures x == DragGesture.ClampHorizontal(Current(), left)
      ensures x != 0 ==> |events| > 0 && events[|events| - 1] == Begin
    {
      if beginDrag {
        x := left;
      } else {
        x := 0;
      }
    }

    /** clampViewPositionVertical for a proposed top offset. */
    method ClampVertical(top: int) returns (y: int)
      requires Valid()
      modifies this
      ensures Valid()
      ensures y == Max(top, 0)
      ensures var r := DragGesture.ClampVertical(originHeight, old(Current()), top);
              Current() == r.session && y == r.y &&
              events == old(events) + r.events && effects == old(effects) + r.effects
      ensures !old(beginDrag) && top < 0 ==>
                y == 0 && Current() == old(Current()) && events == old(events) && effects == old(effects)
      ensures (events != old(events)) <==> (!old(beginDrag) && top > BeginThreshold(originHeight))
      ensures old(beginDrag) ==> beginDrag
    {
      VerticalKeepsInv(originHeight, Current(), top);
      StepKeepsShape(originHeight, Current(), events, Vertical(top));
      if !beginDrag && top < 0 {
        return 0;
      }
      if !beginDrag && top > BeginThreshold(originHeight) {
        events := events + [Begin];
        beginDrag := true;
      }
      ratio := Ratio(originHeight, top);
      var dim := Alpha(ratio);
      effects := effects + [Background(dim), AnimateChild(ratio, false, 0)];
      y := Max(top, 0);
    }

    /** onViewReleased: commit when the ratio is at most 0.75, cancel
        otherwise, and start the next gesture from the initial values. */
    method Release()
      requires Valid()
      modifies this
      ensures Valid()
      ensures Current() == Idle
      ensures var r := DragGesture.Release(old(Current()));
              events == old(events) + r.events && effects == old(effects) + r.effects
      ensures old(ratio) <= CommitRatio ==>
                events == old(events) + [EndAndBack, ScheduleBack(BackDelayMs)] && old(beginDrag)
      ensures old(ratio) > CommitRatio ==> events == old(events) + [End]
      ensures Closed(events)
    {
      if !beginDrag {
        NoCommitBeforeBegin(Current());
      }
      ReleaseKeepsShape(Current(), events);
      if ratio <= CommitRatio {
        effects := effects + [Background(0), AnimateChild(0.0, true, BackDelayMs)];
        events := events + [EndAndBack, ScheduleBack(BackDelayMs)];
      } else {
        effects := effects + [AnimateChild(1.0, false, 0), RequestLayout];
        events := events + [End];
      }
      beginDrag := false;
      ratio := 1.0;
    }
  }

  /** A client: the height-1000 screen dragged to 150 and then to 300 is
      dismissed on release, with onBack scheduled 100 ms later. */
  method DismissScenario() returns (events: seq<Event>)
    ensures events == [Begin, EndAndBack, ScheduleBack(100)]
  {
    var c := new ViewDragCallback(1000);
    var y := c.ClampVertical(150);
    assert y == 150 && c.ratio == 0.85;
    y := c.ClampVertical(300);
    assert y == 300 && c.ratio == 0.7;
    c.Release();
    events := c.events;
  }
}
