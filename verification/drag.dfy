/** The drag controller of the single-thumb slider
    (src/components/Slider.jsx:115-145): a session opened by a mousedown on
    the thumb, fed mousemove events, and closed by a mouseup. */
module DragController {
  import opened Options
  import opened JsMath
  import opened Mapper
  import opened Geometry

  /** `Idle` while no mousemove listener is registered; `Dragging` while the
      listener of one `startDrag` closure is, holding that closure's constant
      `offset` and its mutable `closureValue`. */
  datatype Session = Idle | Dragging(offset: real, closureValue: int)

  /** What one mousemove does: the session afterwards and the value passed to
      `setValue`, if any. */
  datatype Moved = Moved(session: Session, write: Option<int>)

  /** What a sequence of mousemove events does: the session afterwards and
      the values passed to `setValue`, in order. */
  datatype Trace = Trace(session: Session, writes: seq<int>)

  /** A mousedown at `pageX` on the thumb (src/components/Slider.jsx:115-117):
      the offset keeps the thumb under the grab point and the closure starts
      from the shared value. */
  function StartDrag(g: Geometry, value: int, maxValue: int, pageX: real): (s: Session)
    requires maxValue > 0
    ensures s.Dragging? && s.closureValue == value
    ensures pageX + s.offset == Left(g.maxX, value, maxValue)
  {
    Dragging(Left(g.maxX, value, maxValue) - pageX, value)
  }

  /** The candidate left offset for a pointer at `pageX`
      (src/components/Slider.jsx:123): the pointer plus the grab offset,
      clamped into the travel. */
  function Candidate(offset: real, maxX: real, pageX: real): (next: real)
    ensures 0.0 <= next
    ensures next <= maxX || next == 0.0
    ensures 0.0 <= pageX + offset <= maxX ==> next == pageX + offset
    ensures pageX + offset <= 0.0 ==> next == 0.0
    ensures 0.0 <= maxX <= pageX + offset ==> next == maxX
  {
    Max(0.0, Min(pageX + offset, maxX))
  }

  /** One mousemove event (src/components/Slider.jsx:122-133): the value under
      the pointer is passed to `setValue` exactly when it differs from the
      closure's value, which then follows it. With no listener registered the
      event does nothing. */
  function Move(s: Session, maxX: real, maxValue: int, pageX: real): (m: Moved)
    requires maxValue > 0
    ensures s.Idle? ==> m == Moved(Idle, None)
    ensures s.Dragging? ==> m.session.Dragging? && m.session.offset == s.offset
    ensures s.Dragging? ==>
              m.session.closureValue == NextValue(Candidate(s.offset, maxX, pageX), maxX, maxValue)
    ensures m.write.Some? <==> s.Dragging? && m.session.closureValue != s.closureValue
    ensures m.write.Some? ==> m.write.value == m.session.closureValue
    ensures m.write.Some? ==> 0 <= m.write.value <= maxValue
  {
    match s
    case Idle => Moved(Idle, None)
    case Dragging(offset, closureValue) =>
      var nextValue := NextValue(Candidate(offset, maxX, pageX), maxX, maxValue);
      if closureValue != nextValue then Moved(Dragging(offset, nextValue), Some(nextValue))
      else Moved(s, None)
  }

  /** A mouseup (src/components/Slider.jsx:138-144): the one-shot listener
      removes the mousemove listener, if there is one. */
  function Drop(s: Session): (s': Session)
    ensures s'.Idle?
  {
    Idle
  }

  /** The writes of a sequence of events: the optional write `w` of the first
      event put in front of the writes of the rest. */
  function Prepend(w: Option<int>, writes: seq<int>): seq<int>
  {
    if w.Some? then [w.value] + writes else writes
  }

  /** A sequence of mousemove events folded over a session: every write is a
      value in range, no two consecutive writes are equal, the first write
      differs from the value the session started from, and the closure ends
      holding the last value written, which is the value under the pointer's
      last position. */
  function Drag(s: Session, maxX: real, maxValue: int, moves: seq<real>): (t: Trace)
    requires maxValue > 0
    ensures s.Idle? ==> t == Trace(Idle, [])
    ensures s.Dragging? ==> t.session.Dragging? && t.session.offset == s.offset
    ensures forall i :: 0 <= i < |t.writes| ==> 0 <= t.writes[i] <= maxValue
    ensures forall i :: 0 < i < |t.writes| ==> t.writes[i - 1] != t.writes[i]
    ensures |t.writes| > 0 ==> s.Dragging? && t.writes[0] != s.closureValue
    ensures s.Dragging? && |t.writes| == 0 ==> t.session.closureValue == s.closureValue
    ensures s.Dragging? && |t.writes| > 0 ==>
              t.session.closureValue == t.writes[|t.writes| - 1]
    ensures s.Dragging? && |moves| > 0 ==>
              t.session.closureValue
              == NextValue(Candidate(s.offset, maxX, moves[|moves| - 1]), maxX, maxValue)
    decreases |moves|
  {
    if |moves| == 0 then Trace(s, [])
    else
      var m := Move(s, maxX, maxValue, moves[0]);
      var rest := Drag(m.session, maxX, maxValue, moves[1..]);
      Trace(rest.session, Prepend(m.write, rest.writes))
  }

  /** The candidate pixel never moves left when the pointer moves right. */
  lemma CandidateMonotone(offset: real, maxX: real, pageX1: real, pageX2: real)
    requires pageX1 <= pageX2
    ensures Candidate(offset, maxX, pageX1) <= Candidate(offset, maxX, pageX2)
  {
  }

  /** Within one session the value under the pointer never decreases as the
      pointer moves right, whatever the track length. */
  lemma ValueMonotoneInPageX(offset: real, maxX: real, maxValue: int, pageX1: real, pageX2: real)
    requires maxValue > 0 && pageX1 <= pageX2
    ensures NextValue(Candidate(offset, maxX, pageX1), maxX, maxValue)
            <= NextValue(Candidate(offset, maxX, pageX2), maxX, maxValue)
  {
    if maxX > 0.0 {
      CandidateMonotone(offset, maxX, pageX1, pageX2);
      NextValueMonotone(Candidate(offset, maxX, pageX1), Candidate(offset, maxX, pageX2), maxX, maxValue);
    } else if maxX < 0.0 {
      assert Candidate(offset, maxX, pageX1) == 0.0 == Candidate(offset, maxX, pageX2);
    }
  }

  /** A move back to the grab point puts the candidate exactly at the thumb's
      left offset (no snapping) and, on a measured track, writes nothing. */
  lemma ReturnToGrabPointWritesNothing(g: Geometry, value: int, maxValue: int, pageX: real)
    requires maxValue > 0 && 0 <= value <= maxValue
    requires g.maxX.Some? && g.maxX.value > 0.0
    ensures var s := StartDrag(g, value, maxValue, pageX);
            && Candidate(s.offset, Travel(g), pageX) == Left(g.maxX, value, maxValue)
            && Move(s, Travel(g), maxValue, pageX) == Moved(s, None)
  {
    RoundTrip(g.maxX.value, value, maxValue);
  }

  /** `w` is strictly increasing and every element lies above `low`. */
  predicate IncreasingAbove(low: int, w: seq<int>)
  {
    && (forall i :: 0 <= i < |w| ==> low < w[i])
    && (forall i, j :: 0 <= i < j < |w| ==> w[i] < w[j])
  }

  lemma PrependIncreasing(low: int, v: int, w: seq<int>)
    requires low < v && IncreasingAbove(v, w)
    ensures IncreasingAbove(low, [v] + w)
  {
    var w' := [v] + w;
    forall i, j | 0 <= i < j < |w'|
      ensures w'[i] < w'[j]
    {
      if i > 0 {
        assert w'[i] == w[i - 1] && w'[j] == w[j - 1];
      }
    }
  }

  /** Moves that never go left, starting at or right of the value the session
      holds, write a strictly increasing sequence of values, all above the
      starting one. */
  lemma {:induction false} RightwardDragWritesIncreasing(s: Session, maxX: real, maxValue: int, moves: seq<real>)
    requires maxValue > 0 && s.Dragging?
    requires forall i, j :: 0 <= i <= j < |moves| ==> moves[i] <= moves[j]
    requires |moves| > 0 ==>
               s.closureValue <= NextValue(Candidate(s.offset, maxX, moves[0]), maxX, maxValue)
    ensures IncreasingAbove(s.closureValue, Drag(s, maxX, maxValue, moves).writes)
    decreases |moves|
  {
    if |moves| > 0 {
      var m := Move(s, maxX, maxValue, moves[0]);
      var rest := moves[1..];
      if |rest| > 0 {
        ValueMonotoneInPageX(s.offset, maxX, maxValue, moves[0], rest[0]);
      }
      RightwardDragWritesIncreasing(m.session, maxX, maxValue, rest);
      var wr := Drag(m.session, maxX, maxValue, rest).writes;
      assert Drag(s, maxX, maxValue, moves).writes == Prepend(m.write, wr);
      if m.write.Some? {
        PrependIncreasing(s.closureValue, m.session.closureValue, wr);
      }
    }
  }

  /** On a 300-pixel track for values 0 to 100, grabbed with offset 0, a
      pointer at three pixels per unit reads as that unit. */
  lemma StepToMiddle(c: int, pageX: real, v: int)
    requires c != v && 0 <= v <= 100 && pageX == 3.0 * v as real
    ensures Move(Dragging(0.0, c), 300.0, 100, pageX) == Moved(Dragging(0.0, v), Some(v))
  {
    assert Candidate(0.0, 300.0, pageX) == pageX;
    assert pageX / 300.0 * 100.0 == v as real;
    RoundOfInteger(v);
  }

  /** A track of 300 pixels for values 0 to 100, grabbed at the left end
      and dragged to pixel 150 in steps of 30: the writes climb by tens to 50. */
  lemma DragToMiddle()
    ensures Drag(Dragging(0.0, 0), 300.0, 100, [30.0, 60.0, 90.0, 120.0, 150.0]).writes
            == [10, 20, 30, 40, 50]
  {
    var moves := [30.0, 60.0, 90.0, 120.0, 150.0];
    StepToMiddle(0, 30.0, 10);
    StepToMiddle(10, 60.0, 20);
    StepToMiddle(20, 90.0, 30);
    StepToMiddle(30, 120.0, 40);
    StepToMiddle(40, 150.0, 50);
    assert Drag(Dragging(0.0, 50), 300.0, 100, moves[5..]).writes == [];
    assert Drag(Dragging(0.0, 40), 300.0, 100, moves[4..]).writes == [50];
    assert Drag(Dragging(0.0, 30), 300.0, 100, moves[3..]).writes == [40, 50];
    assert Drag(Dragging(0.0, 20), 300.0, 100, moves[2..]).writes == [30, 40, 50];
    assert Drag(Dragging(0.0, 10), 300.0, 100, moves[1..]).writes == [20, 30, 40, 50];
  }

  /** The closure value as the code keeps it: `None` once it holds `NaN`. */
  datatype SessionAsWritten = SessionAsWritten(offset: real, closureValue: Option<int>)

  /** Line 128 as the code writes it: JavaScript's `!==`, under which `NaN`
      differs from every value, itself included. */
  predicate StrictlyDiffers(a: Option<int>, b: Option<int>)
  {
    a.None? || b.None? || a.value != b.value
  }

  /** The value under the pointer as lines 123-126 compute it, in the
      render whose `maxX` is the ref's value: `None` stands for `NaN`, which
      `Math.min(pageX + offset, undefined)` gives while the ref is unset and
      `0 / 0` gives on a zero-length track. */
  function ValueUnderPointerAsWritten(offset: real, maxX: Option<real>, maxValue: int, pageX: real): (v: Option<int>)
    requires maxValue > 0
    ensures v.None? <==> maxX.None? || maxX.value == 0.0
    ensures v.Some? ==>
              v.value == NextValue(Candidate(offset, maxX.value, pageX), maxX.value, maxValue)
  {
    match maxX
    case None => None
    case Some(x) => NextValueAsWritten(Candidate(offset, x, pageX), x, maxValue)
  }

  /** The arguments of the `setValue` calls a sequence of mousemove events
      makes with src/components/Slider.jsx:122-133 as written, in order;
      `None` is a call with `NaN`. */
  function WritesAsWritten(s: SessionAsWritten, maxX: Option<real>, maxValue: int, moves: seq<real>): (calls: seq<Option<int>>)
    requires maxValue > 0
    ensures |calls| <= |moves|
    ensures forall i :: 0 < i < |calls| ==> StrictlyDiffers(calls[i - 1], calls[i])
    ensures |calls| > 0 ==> StrictlyDiffers(s.closureValue, calls[0])
    decreases |moves|
  {
    if |moves| == 0 then []
    else
      var nextValue := ValueUnderPointerAsWritten(s.offset, maxX, maxValue, moves[0]);
      if StrictlyDiffers(s.closureValue, nextValue) then
        [nextValue] + WritesAsWritten(SessionAsWritten(s.offset, nextValue), maxX, maxValue, moves[1..])
      else
        WritesAsWritten(s, maxX, maxValue, moves[1..])
  }

  /** The writes of the corrected fold as the numbers the code passes. */
  function Numbers(writes: seq<int>): (calls: seq<Option<int>>)
    ensures |calls| == |writes|
    ensures forall i :: 0 <= i < |writes| ==> calls[i] == Some(writes[i])
  {
    if |writes| == 0 then [] else [Some(writes[0])] + Numbers(writes[1..])
  }

  /** On a track of non-zero length the code as written passes `setValue`
      exactly the values the corrected fold writes, in the same order: the
      two differ only when there is no track to divide by. */
  lemma {:induction false} AsWrittenAgrees(offset: real, closureValue: int, maxX: real, maxValue: int, moves: seq<real>)
    requires maxValue > 0 && maxX != 0.0
    ensures WritesAsWritten(SessionAsWritten(offset, Some(closureValue)), Some(maxX), maxValue, moves)
            == Numbers(Drag(Dragging(offset, closureValue), maxX, maxValue, moves).writes)
    decreases |moves|
  {
    if |moves| > 0 {
      var m := Move(Dragging(offset, closureValue), maxX, maxValue, moves[0]);
      AsWrittenAgrees(offset, m.session.closureValue, maxX, maxValue, moves[1..]);
      var rest := Drag(m.session, maxX, maxValue, moves[1..]).writes;
      if m.write.Some? {
        assert ([m.write.value] + rest)[1..] == rest;
      }
    }
  }

  /** As written, a zero-length track makes every mousemove call `setValue`
      with `NaN`, however still the pointer is. */
  lemma {:induction false} ZeroTrackWritesOnEveryMove(s: SessionAsWritten, maxValue: int, moves: seq<real>)
    requires maxValue > 0
    ensures var calls := WritesAsWritten(s, Some(0.0), maxValue, moves);
            |calls| == |moves| && forall i :: 0 <= i < |calls| ==> calls[i].None?
    decreases |moves|
  {
    if |moves| > 0 {
      ZeroTrackWritesOnEveryMove(SessionAsWritten(s.offset, None), maxValue, moves[1..]);
    }
  }

  /** As written, a drag opened by a render that has no `maxX` makes every
      mousemove call `setValue` with `NaN`. */
  lemma {:induction false} UnmeasuredDragWritesOnEveryMove(s: SessionAsWritten, maxValue: int, moves: seq<real>)
    requires maxValue > 0
    ensures var calls := WritesAsWritten(s, None, maxValue, moves);
            |calls| == |moves| && forall i :: 0 <= i < |calls| ==> calls[i].None?
    decreases |moves|
  {
    if |moves| > 0 {
      UnmeasuredDragWritesOnEveryMove(SessionAsWritten(s.offset, None), maxValue, moves[1..]);
    }
  }

  /** With the corrected conversion a zero-length track writes at most once,
      the minimum value 0, in a whole drag. */
  lemma {:induction false} ZeroTrackWritesAtMostOnce(s: Session, maxValue: int, moves: seq<real>)
    requires maxValue > 0
    ensures var w := Drag(s, 0.0, maxValue, moves).writes;
            |w| <= 1 && (forall i :: 0 <= i < |w| ==> w[i] == 0)
    decreases |moves|
  {
    if |moves| > 0 && s.Dragging? {
      var m := Move(s, 0.0, maxValue, moves[0]);
      ZeroTrackWritesAtMostOnce(m.session, maxValue, moves[1..]);
      var wr := Drag(m.session, 0.0, maxValue, moves[1..]).writes;
      assert m.session.closureValue == 0;
      assert |wr| == 0;
    }
  }

  /** With the corrected reading, a drag over a slider that has not been
      measured writes at most once, the minimum value 0. */
  lemma UnmeasuredDragWritesAtMostOnce(g: Geometry, s: Session, maxValue: int, moves: seq<real>)
    requires maxValue > 0 && g.maxX.None?
    ensures var w := Drag(s, Travel(g), maxValue, moves).writes;
            |w| <= 1 && (forall i :: 0 <= i < |w| ==> w[i] == 0)
  {
    ZeroTrackWritesAtMostOnce(s, maxValue, moves);
  }
}
