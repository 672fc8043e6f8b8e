# Single-thumb range slider: a Dafny model

This project models the logic of the single-thumb slider in
`src/components/Slider.jsx`. The rest of that file is React presentation.
The slider is modelled in three parts, plus two small helper modules and one
module that puts everything together:

- `Options` (`options.dfy`) holds the optional-value datatype.
- `JsMath` (`jsmath.dfy`) defines `Math.min`, `Math.max` and `Math.round` over
  exact reals. `Math.round` is `Floor(x + 0.5)`, which is JavaScript's
  "half towards +infinity" rule for every argument.
- `Mapper` (`mapper.dfy`) is the coordinate mapper. `Left` maps a value to the
  thumb's left offset in pixels. `NextValue` maps a pixel offset back to a
  value during a drag.
- `Geometry` (`geometry.dfy`) is the geometry prober. It takes the one-time
  measurement `maxX = track width - thumb width`, raises the one-way
  `initialized` flag, and says what the thumb's style shows (left offset and
  opacity).
- `DragController` (`drag.dfy`) holds the drag session. It is `Idle`, or
  `Dragging(offset, closureValue)` for the closure of one `startDrag`.
  `Move` models one mousemove and `Drop` models the mouseup. `Drag` folds a
  sequence of moves into the list of values passed to `setValue`.
- `Slider` (`slider.dfy`) is the whole widget. It holds the slider context's
  `maxValue` and `value`, the geometry and the session. It is driven by a
  sequence of `MouseDown` / `MouseMove` / `MouseUp` events. A write replaces
  the shared value, just as the context's `setValue` does.

All arithmetic uses exact reals (pixels) and integers (values). `maxX` is an
`Option<real>`. It is `None` before the measurement, when the ref does not yet
hold a number.

In exact arithmetic, line 126 applied to line 75's `left` gives the value back
exactly (`Mapper.RoundTrip`).

## Model

| member | source | states |
|---|---|---|
| JsMath.Round | src/components/Slider.jsx:126 | `Math.round` returns the integer nearest its argument, with halves going up: `r - 0.5 <= x < r + 0.5` |
| JsMath.Min | src/components/Slider.jsx:123 | `Math.min` returns one of its two arguments, and that one is no larger than either |
| JsMath.Max | src/components/Slider.jsx:123 | `Math.max` returns one of its two arguments, and that one is no smaller than either |
| Mapper.Left | src/components/Slider.jsx:73-76 | an unset or zero `maxX` puts the thumb at 0 whatever the value; otherwise `left / maxX == value / maxValue`, and a value in `[0, maxValue]` on a positive track gives a left offset in `[0, maxX]` |
| Mapper.NextValue | src/components/Slider.jsx:126 | the value is the integer nearest `next / maxX * maxValue`; a pixel inside `[0, maxX]` gives a value in `[0, maxValue]`; a zero-length track reads as the minimum 0 (the corrected form, see Findings) |
| Mapper.NextValueAsWritten | src/components/Slider.jsx:126 | as the code is written, the conversion is NaN exactly when `maxX` is 0, and otherwise agrees with `NextValue` |
| Mapper.RoundTrip | src/components/Slider.jsx:75-126 | converting the thumb's left offset back to a value gives exactly the original value, for every non-zero `maxX` |
| Mapper.NextValueMonotone | src/components/Slider.jsx:126 | on a positive track, a pixel further right never gives a smaller value |
| Geometry.Initialize | src/components/Slider.jsx:153-164 | the measurement raises `initialized` and sets `maxX` so that `maxX + thumb width == track width`; it runs only on an unmeasured slider |
| Geometry.Travel | src/components/Slider.jsx:73-74 | the travel a drag divides by is the measured `maxX`, and 0 while nothing is measured. The second half follows line 74's falsy reading and differs from the code at lines 123-126, where an unset `maxX` yields NaN (see Findings) |
| Geometry.View | src/components/Slider.jsx:98-100 | the thumb is fully opaque exactly when initialised and transparent otherwise, and it sits at the mapped left offset |
| Geometry.UnmeasuredThumbHidden | src/components/Slider.jsx:70-100 | before measurement the thumb is invisible and at 0, whatever the value |
| Geometry.InitializedThumbShown | src/components/Slider.jsx:153-164 | after measurement on a track wider than the thumb, the thumb is visible, and a value in range places it within `[0, maxX]` in proportion to the value |
| DragController.StartDrag | src/components/Slider.jsx:115-117 | a mousedown opens a session whose closure holds the shared value and whose offset keeps the thumb's left edge at the grab point: `pageX + offset == left` |
| DragController.Candidate | src/components/Slider.jsx:123 | the candidate pixel is never negative and never beyond a non-negative `maxX`, whatever `pageX` is; it equals `pageX + offset` inside the track and sticks to the nearer edge outside it |
| DragController.Move | src/components/Slider.jsx:122-133 | a move writes exactly when the value under the pointer differs from the closure's value; the closure then holds the written value, which is in `[0, maxValue]`; the offset never changes; with no listener nothing happens |
| DragController.Drop | src/components/Slider.jsx:138-140 | after a mouseup there is no mousemove listener, whatever the session was, so a drop without a drag is harmless |
| DragController.Drag | src/components/Slider.jsx:115-145 | over any sequence of moves, every write is in `[0, maxValue]`, no two consecutive writes are equal, the first write differs from the value at drag start, and the closure ends holding the last write, which is the value under the pointer's last position |
| DragController.CandidateMonotone | src/components/Slider.jsx:123 | the candidate pixel is non-decreasing in `pageX` |
| DragController.ValueMonotoneInPageX | src/components/Slider.jsx:123-126 | within a session the value under the pointer is non-decreasing in `pageX`, for every track length |
| DragController.ReturnToGrabPointWritesNothing | src/components/Slider.jsx:115-128 | moving back to the grab point puts the candidate exactly at the thumb's left offset (no snapping), and that move writes nothing |
| DragController.RightwardDragWritesIncreasing | src/components/Slider.jsx:122-133 | moves that never go left, starting no lower than the closure's value, write a strictly increasing sequence that stays above the starting value |
| DragController.DragToMiddle | src/components/Slider.jsx:122-133 | on a 300-pixel track for values 0 to 100, grabbed at the left end and dragged to pixel 150 in steps of 30, the writes are 10, 20, 30, 40, 50 |
| DragController.ValueUnderPointerAsWritten | src/components/Slider.jsx:123-126 | as the code is written, the value under the pointer is NaN exactly when `maxX` is unset or 0, and otherwise agrees with the corrected `NextValue` of the clamped pixel |
| DragController.WritesAsWritten | src/components/Slider.jsx:122-133 | as the code is written, the arguments of the `setValue` calls a sequence of moves makes, NaN included: at most one call per move, each argument strictly different (`!==`) from the one before it and the first from the closure's starting value |
| DragController.AsWrittenAgrees | src/components/Slider.jsx:122-133 | on a track of non-zero length, the code as written passes `setValue` exactly the values the corrected fold writes, in the same order, so the two differ only when there is no track |
| DragController.ZeroTrackWritesOnEveryMove | src/components/Slider.jsx:123-131 | as the code is written, a zero-length track makes every mousemove call `setValue`, each time with NaN |
| DragController.ZeroTrackWritesAtMostOnce | src/components/Slider.jsx:123-131 | with the corrected conversion, a zero-length track writes at most once in a whole drag, and the value written is 0 |
| DragController.UnmeasuredDragWritesOnEveryMove | src/components/Slider.jsx:115-131 | as the code is written, a drag opened by a render whose `maxX` is unset makes every mousemove call `setValue`, each time with NaN |
| DragController.UnmeasuredDragWritesAtMostOnce | src/components/Slider.jsx:115-131 | with the corrected reading of an unset `maxX` as a zero-length track, such a drag writes at most once, and the value written is 0 |
| Slider.Mount | src/contexts/SliderContext.jsx:17-18 | a freshly mounted slider is unmeasured and hidden and has no listener; it is valid exactly when `0 < maxValue` and the value lies in `[0, maxValue]` |
| Slider.Measure | src/components/Slider.jsx:153-167 | the one measurement sets `maxX` to track width minus thumb width and raises `initialized`; value and session are untouched |
| Slider.Step | src/components/Slider.jsx:115-145 | one event never touches the geometry or `maxValue`; only a mousemove writes; a write replaces the shared value and differs from the previous one; a mouseup leaves no listener; a mousedown on an idle slider opens a session whose closure holds the shared value and whose offset keeps the thumb under the grab point; a mousemove during a session sets the closure, and the shared value, to the value under the pointer, keeping the offset; a mousemove with no session and a mousedown during one change nothing; validity, including the closure agreeing with the shared value, is preserved |
| Slider.Run | src/components/Slider.jsx:115-145 | over any event sequence the geometry is never written again; every write is in `[0, maxValue]`; no two consecutive writes are equal, even across gestures; the first write differs from the starting value; the shared value ends as the last write; when the last event is a mousemove inside a gesture, the shared value is the value under the pointer |
| Slider.IdleEventsWriteNothing | src/components/Slider.jsx:138-144 | after a drop (no listener), moves and mouseups write nothing and change nothing |
| Slider.MovesFollowDrag | src/components/Slider.jsx:122-133 | during a session, mousemove events write exactly what the drag fold writes, end in the same session, and leave the shared value under the pointer's last position |
| Slider.GestureIsDrag | src/components/Slider.jsx:115-145 | a gesture (mousedown, moves, mouseup) writes exactly what the drag fold writes from the grab point, and leaves the slider idle |

## Findings

| source | as written | input that shows it | evidently intended | confidence | as-written member | corrected member |
|---|---|---|---|---|---|---|
| src/components/Slider.jsx:126 | `(next / maxX) * maxValue` divides by `maxX` even when it is 0. Line 74 treats that case as "no track", but here `0 / 0` is NaN. Since `NaN !== NaN` on line 128, every mousemove calls `setValue(NaN)` | the track's inner width is fixed at 320px (line 83) and the thumb is `2rem` wide with border-box sizing (lines 81, 92-95); with a root font size of 160px the thumb is 320px wide, `maxX = 0`, and two mousemove events at the same `pageX` during a drag make two `setValue(NaN)` calls | a zero-length track reads as the minimum value 0 (what a negative `maxX` already gives), so the store is written at most once | low; not executed | DragController.ZeroTrackWritesOnEveryMove | DragController.ZeroTrackWritesAtMostOnce |
| src/components/Slider.jsx:123 | line 73 binds `maxX` when each render runs, so a drag opened by the first render keeps `maxX` undefined (and `left` at 0) in its closure, even after line 160 has stored the number. `Math.min(pageX + offset, undefined)` is NaN, the value at line 126 is NaN, and every mousemove calls `setValue(NaN)` | a mousedown on the still invisible thumb (opacity 0, line 100) handled by the first render, before the re-render that line 163 triggers has committed a new handler, followed by two mousemove events | an unmeasured slider reads as a zero-length track, as line 74 reads it, so the store is written at most once, with the minimum 0 | low; not executed | DragController.UnmeasuredDragWritesOnEveryMove | DragController.UnmeasuredDragWritesAtMostOnce |

The rest of the model uses the corrected `Mapper.NextValue`. `Geometry.Travel`
treats an unset `maxX` as a zero-length track. Line 74 reads it that way; lines
123-126 do not (second row above). So a drag needs no precondition on `maxX`.
`DragController.AsWrittenAgrees` shows that on a track of non-zero length the
code as written passes `setValue` the same values in the same order. A negative `maxX` (a thumb wider than its
track) is handled as the code handles it: the clamp gives 0, and so does the
value.

## Left out

- React mechanics are not modelled: `useState`, `useRef`, `useEffect`, render
  closures and re-rendering. They appear as explicit state: the `Widget`
  record, and the `Session` standing in for one `startDrag` closure.
- DOM measurement is not modelled: `clientWidth` and `getBoundingClientRect`
  become the real parameters of `Measure`/`Initialize`. The guarantee that the
  effect runs once after mount becomes their `!initialized` precondition.
- Listener registration on `document.body` is represented only by the
  `Idle`/`Dragging` session.
- Styles and JSX markup (src/components/Slider.jsx:80-112, 170-186) are left
  out: they are presentation. Only the thumb's `left` and `opacity` are
  modelled.
- src/App.js and src/components/Header.jsx are left out: they are page
  composition and display.
- IEEE-754 floating point is not modelled: `/` and `Math.round` use exact
  real arithmetic, which is why the round trip is exact.
- Slider.Mount: `maxValue > 0` is required everywhere. This is the context's
  range invariant (it fixes `maxValue` at 100). With `maxValue` 0, line 75
  would divide by zero.
- Slider.Step: a mousedown while a session is already open is ignored. The code
  would register a second mousemove/mouseup pair, and both closures would then
  handle every move. That happens when the mouseup does not reach
  `document.body` (line 144): a release outside the window, or over the part
  of the viewport below the body's content, which targets `html`. It also
  happens when a second mouse button is pressed on the thumb mid-drag, since
  `onMouseDown` (line 183) does not check the button.
- Slider.Step: a move reads `maxX` from the current geometry. The code reads
  the `maxX` captured by the render that handled the mousedown. The two differ
  only for a mousedown handled by the first render, before the re-render that
  line 163 triggers has committed. That closure keeps `maxX` undefined and
  `left` at 0 even after line 160 has stored the number, so the code calls
  `setValue(NaN)` on every move (second Findings row). The model reads the
  current geometry for both the offset and the travel: 0 while unmeasured,
  and the measured `maxX` once the measurement has run.
- Mapper.NextValueAsWritten: all non-finite results collapse into `None`.
  With `maxX` 0 the clamp has already made `next` 0, so NaN is the only one
  that can occur.
- The dual-thumb variant with per-thumb limits is not part of this model. Its
  source files are not among the modelled files.
