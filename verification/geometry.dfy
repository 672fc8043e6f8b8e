/** The geometry prober of the single-thumb slider: the one-time measurement
    of the thumb's travel `maxX`, the `initialized` flag it raises, and the
    thumb's rendered position and visibility. */
module Geometry {
  import opened Options
  import opened Mapper

  /** `maxX` is the ref's value once measured (`None` before), and
      `initialized` the state flag that makes the thumb visible. */
  datatype Geometry = Geometry(maxX: Option<real>, initialized: bool)

  /** What the thumb's style shows: its left offset in pixels and its
      opacity. */
  datatype ThumbView = ThumbView(left: real, opacity: int)

  /** The geometry of a freshly mounted slider (src/components/Slider.jsx:70-72):
      nothing measured yet, the flag down. */
  const Unmeasured: Geometry := Geometry(None, false)

  /** The post-mount measurement (src/components/Slider.jsx:153-164): the
      thumb's left edge may travel the track's inner width less the thumb's
      own width. It runs once, so it only ever meets an unmeasured slider. */
  function Initialize(g: Geometry, trackWidth: real, thumbWidth: real): (g': Geometry)
    requires !g.initialized
    ensures g'.initialized && g'.maxX.Some?
    ensures g'.maxX.value + thumbWidth == trackWidth
  {
    Geometry(Some(trackWidth - thumbWidth), true)
  }

  /** The travel the drag handler divides by: the measured `maxX`, or a
      zero-length track while nothing has been measured. */
  function Travel(g: Geometry): (x: real)
    ensures g.maxX.Some? ==> x == g.maxX.value
    ensures g.maxX.None? ==> x == 0.0
  {
    match g.maxX
    case None => 0.0
    case Some(x) => x
  }

  /** The thumb's style (src/components/Slider.jsx:73-76, 98-100): hidden
      until initialised, and placed at the mapped left offset. */
  function View(g: Geometry, value: int, maxValue: int): (v: ThumbView)
    requires maxValue > 0
    ensures v.opacity == 1 <==> g.initialized
    ensures v.opacity == 0 <==> !g.initialized
    ensures v.left == Left(g.maxX, value, maxValue)
  {
    ThumbView(Left(g.maxX, value, maxValue), if g.initialized then 1 else 0)
  }

  /** Before measurement the thumb is invisible and sits at 0 whatever the
      value. */
  lemma UnmeasuredThumbHidden(value: int, maxValue: int)
    requires maxValue > 0
    ensures View(Unmeasured, value, maxValue) == ThumbView(0.0, 0)
  {
  }

  /** After measurement on a track wider than the thumb, the thumb is visible
      and a value in range places it within the travel, proportionally. */
  lemma InitializedThumbShown(trackWidth: real, thumbWidth: real, value: int, maxValue: int)
    requires maxValue > 0 && 0 <= value <= maxValue && thumbWidth < trackWidth
    ensures var g := Initialize(Unmeasured, trackWidth, thumbWidth);
            var v := View(g, value, maxValue);
            && v.opacity == 1
            && 0.0 <= v.left <= trackWidth - thumbWidth
            && v.left * maxValue as real == (trackWidth - thumbWidth) * value as real
  {
  }
}
