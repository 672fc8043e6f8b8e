/** The single-thumb slider as a whole: the shared value it reads and writes
    through the slider context, its measured geometry and its drag session,
    driven by a sequence of mouse events. */
module Slider {
  import opened Options
  import opened Mapper
  import opened Geometry
  import opened DragController

  /** A mouse event on the page; `pageX` is the pointer's horizontal page
      coordinate. A mousedown is one on the thumb. */
  datatype Event = MouseDown(pageX: real) | MouseMove(pageX: real) | MouseUp

  /** The slider's state: the context's `maxValue` and `value`, the geometry,
      and the drag session. */
  datatype Widget = Widget(maxValue: int, geometry: Geometry, value: int, session: Session)

  /** What one event does: the state afterwards and the value passed to
      `setValue`, if any. */
  datatype Stepped = Stepped(widget: Widget, write: Option<int>)

  /** What a sequence of events does: the state afterwards and the values
      passed to `setValue`, in order. */
  datatype History = History(widget: Widget, writes: seq<int>)

  /** The state the slider keeps: a positive range, a value inside it, and an
      open session's closure agreeing with the shared value. */
  predicate Valid(w: Widget)
  {
    && w.maxValue > 0
    && 0 <= w.value <= w.maxValue
    && (w.session.Dragging? ==> w.session.closureValue == w.value)
  }

  /** The slider as first rendered (src/contexts/SliderContext.jsx:17-18,
      src/components/Slider.jsx:70-72): unmeasured, hidden, no listener. */
  function Mount(maxValue: int, value: int): (w: Widget)
    ensures w.session.Idle? && w.geometry.maxX.None? && !w.geometry.initialized
    ensures Valid(w) <==> 0 < maxValue && 0 <= value <= maxValue
  {
    Widget(maxValue, Unmeasured, value, Idle)
  }

  /** The post-mount measurement (src/components/Slider.jsx:153-167), run
      once; it changes nothing but the geometry. */
  function Measure(w: Widget, trackWidth: real, thumbWidth: real): (w': Widget)
    requires !w.geometry.initialized
    ensures w'.geometry.initialized && w'.geometry.maxX == Some(trackWidth - thumbWidth)
    ensures w'.maxValue == w.maxValue && w'.value == w.value && w'.session == w.session
    ensures Valid(w) ==> Valid(w')
  {
    w.(geometry := Initialize(w.geometry, trackWidth, thumbWidth))
  }

  /** One event (src/components/Slider.jsx:115-145). A mousedown while a
      session is already open is ignored. A write replaces the shared value,
      as the context's `setValue` does. */
  function Step(w: Widget, e: Event): (st: Stepped)
    requires w.maxValue > 0
    ensures st.widget.maxValue == w.maxValue && st.widget.geometry == w.geometry
    ensures st.write.Some? ==> e.MouseMove? && st.widget.value == st.write.value
    ensures st.write.None? ==> st.widget.value == w.value
    ensures Valid(w) && st.write.Some? ==> st.write.value != w.value
    ensures Valid(w) ==> Valid(st.widget)
    ensures e.MouseUp? ==> st.widget.session.Idle?
    ensures e.MouseDown? && w.session.Idle? ==>
              && st.widget.session.Dragging?
              && st.widget.session.closureValue == w.value
              && e.pageX + st.widget.session.offset == Left(w.geometry.maxX, w.value, w.maxValue)
    ensures e.MouseDown? && w.session.Dragging? ==> st == Stepped(w, None)
    ensures e.MouseMove? && w.session.Idle? ==> st == Stepped(w, None)
    ensures e.MouseMove? && w.session.Dragging? ==>
              && st.widget.session.Dragging?
              && st.widget.session.offset == w.session.offset
              && st.widget.session.closureValue
                 == NextValue(Candidate(w.session.offset, Travel(w.geometry), e.pageX),
                              Travel(w.geometry), w.maxValue)
    ensures Valid(w) && e.MouseMove? && w.session.Dragging? ==>
              st.widget.value == st.widget.session.closureValue
  {
    match e
    case MouseDown(pageX) =>
      if w.session.Idle? then
        Stepped(w.(session := StartDrag(w.geometry, w.value, w.maxValue, pageX)), None)
      else
        Stepped(w, None)
    case MouseMove(pageX) =>
      var m := Move(w.session, Travel(w.geometry), w.maxValue, pageX);
      var value := if m.write.Some? then m.write.value else w.value;
      Stepped(w.(value := value, session := m.session), m.write)
    case MouseUp =>
      Stepped(w.(session := Drop(w.session)), None)
  }

  /** A sequence of events: the geometry is never touched again, every write
      lies in range, no two consecutive writes (across gestures too) are
      equal, the first differs from the starting value, the shared value
      ends as the last write, and a gesture still open after a final move
      leaves the shared value under the pointer. */
  function Run(w: Widget, events: seq<Event>): (h: History)
    requires w.maxValue > 0
    ensures h.widget.maxValue == w.maxValue && h.widget.geometry == w.geometry
    ensures Valid(w) ==> Valid(h.widget)
    ensures Valid(w) ==> forall i :: 0 <= i < |h.writes| ==> 0 <= h.writes[i] <= w.maxValue
    ensures Valid(w) ==> forall i :: 0 < i < |h.writes| ==> h.writes[i - 1] != h.writes[i]
    ensures Valid(w) && |h.writes| > 0 ==> h.writes[0] != w.value
    ensures |h.writes| == 0 ==> h.widget.value == w.value
    ensures |h.writes| > 0 ==> h.widget.value == h.writes[|h.writes| - 1]
    ensures Valid(w) && |events| > 0 && events[|events| - 1].MouseMove? && h.widget.session.Dragging? ==>
              h.widget.value
              == NextValue(Candidate(h.widget.session.offset, Travel(w.geometry), events[|events| - 1].pageX),
                           Travel(w.geometry), w.maxValue)
    decreases |events|
  {
    if |events| == 0 then History(w, [])
    else
      var st := Step(w, events[0]);
      var rest := Run(st.widget, events[1..]);
      History(rest.widget, Prepend(st.write, rest.writes))
  }

  /** Mouse movement as events. */
  function Moves(xs: seq<real>): (es: seq<Event>)
    ensures |es| == |xs|
    ensures forall i :: 0 <= i < |xs| ==> es[i] == MouseMove(xs[i])
  {
    if |xs| == 0 then [] else [MouseMove(xs[0])] + Moves(xs[1..])
  }

  lemma PrependAppend(x: Option<int>, u: seq<int>, v: seq<int>)
    ensures Prepend(x, u + v) == Prepend(x, u) + v
  {
    if x.Some? {
      assert [x.value] + (u + v) == ([x.value] + u) + v;
    }
  }

  /** Running two event sequences one after the other. */
  lemma {:induction false} RunAppend(w: Widget, a: seq<Event>, b: seq<Event>)
    requires w.maxValue > 0
    ensures var h := Run(w, a);
            var h' := Run(h.widget, b);
            Run(w, a + b) == History(h'.widget, h.writes + h'.writes)
    decreases |a|
  {
    if |a| == 0 {
      assert a + b == b;
    } else {
      var st := Step(w, a[0]);
      assert (a + b)[0] == a[0];
      assert (a + b)[1..] == a[1..] + b;
      RunAppend(st.widget, a[1..], b);
      var h1 := Run(st.widget, a[1..]);
      var h' := Run(h1.widget, b);
      assert Run(w, a) == History(h1.widget, Prepend(st.write, h1.writes));
      assert Run(st.widget, a[1..] + b) == History(h'.widget, h1.writes + h'.writes);
      PrependAppend(st.write, h1.writes, h'.writes);
    }
  }

  /** While no session is open, mouse moves and mouseups write nothing and
      leave the state as it is. */
  lemma {:induction false} IdleEventsWriteNothing(w: Widget, events: seq<Event>)
    requires w.maxValue > 0 && w.session.Idle?
    requires forall i :: 0 <= i < |events| ==> !events[i].MouseDown?
    ensures Run(w, events) == History(w, [])
    decreases |events|
  {
    if |events| > 0 {
      IdleEventsWriteNothing(w, events[1..]);
    }
  }

  /** During a session, mouse moves do exactly what the drag fold does, and
      the shared value follows the closure. */
  lemma {:induction false} MovesFollowDrag(w: Widget, xs: seq<real>)
    requires Valid(w) && w.session.Dragging?
    ensures var h := Run(w, Moves(xs));
            var t := Drag(w.session, Travel(w.geometry), w.maxValue, xs);
            && h.writes == t.writes && h.widget.session == t.session
            && (|xs| > 0 ==>
                  h.widget.value
                  == NextValue(Candidate(w.session.offset, Travel(w.geometry), xs[|xs| - 1]),
                               Travel(w.geometry), w.maxValue))
    decreases |xs|
  {
    if |xs| > 0 {
      assert Moves(xs)[1..] == Moves(xs[1..]);
      var st := Step(w, MouseMove(xs[0]));
      MovesFollowDrag(st.widget, xs[1..]);
    }
  }

  /** A whole gesture on an idle slider, mousedown, moves, mouseup, writes
      exactly what the drag fold from the grab point writes, and leaves no
      listener behind. */
  lemma GestureIsDrag(w: Widget, pageX: real, xs: seq<real>)
    requires Valid(w) && w.session.Idle?
    ensures var h := Run(w, [MouseDown(pageX)] + Moves(xs) + [MouseUp]);
            var s := StartDrag(w.geometry, w.value, w.maxValue, pageX);
            && h.writes == Drag(s, Travel(w.geometry), w.maxValue, xs).writes
            && h.widget.session.Idle?
  {
    var down := Step(w, MouseDown(pageX)).widget;
    var s := StartDrag(w.geometry, w.value, w.maxValue, pageX);
    assert down == w.(session := s);
    assert Run(w, [MouseDown(pageX)]) == History(down, []);
    RunAppend(w, [MouseDown(pageX)], Moves(xs));
    MovesFollowDrag(down, xs);
    var moved := Run(down, Moves(xs));
    RunAppend(w, [MouseDown(pageX)] + Moves(xs), [MouseUp]);
    assert Run(moved.widget, [MouseUp]) == History(Step(moved.widget, MouseUp).widget, []);
  }
}
