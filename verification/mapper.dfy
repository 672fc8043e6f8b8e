/** The coordinate mapper of the single-thumb slider: the thumb's left pixel
    offset computed from the shared value, and the value read back from a
    pixel offset during a drag. */
module Mapper {
  import opened Options
  import opened JsMath

  /** The thumb's left offset (src/components/Slider.jsx:73-76). `maxX` is
      `None` until the geometry has been measured; the conditional treats an
      unset and a zero `maxX` alike, as falsy, and leaves the thumb at 0. */
  function Left(maxX: Option<real>, value: int, maxValue: int): (left: real)
    requires maxValue > 0
    ensures maxX.None? || maxX.value == 0.0 ==> left == 0.0
    ensures maxX.Some? ==> left * maxValue as real == maxX.value * value as real
    ensures maxX.Some? && 0.0 < maxX.value && 0 <= value <= maxValue ==>
              0.0 <= left <= maxX.value
  {
    match maxX
    case None => 0.0
    case Some(x) => if x != 0.0 then x * value as real / maxValue as real else 0.0
  }

  /** The value a candidate pixel offset `next` stands for
      (src/components/Slider.jsx:126), with the zero-length track read as
      the minimum value 0 instead of dividing 0 by 0. */
  function NextValue(next: real, maxX: real, maxValue: int): (v: int)
    requires maxValue > 0
    ensures maxX == 0.0 ==> v == 0
    ensures maxX != 0.0 ==>
              v as real - 0.5 <= next / maxX * maxValue as real < v as real + 0.5
    ensures 0.0 <= next <= maxX ==> 0 <= v <= maxValue
  {
    if maxX == 0.0 then 0
    else
      var v := Round(next / maxX * maxValue as real);
      assert 0.0 <= next <= maxX ==> 0.0 <= next / maxX <= 1.0 by {
        if 0.0 <= next <= maxX {
          DivideWithinUnit(next, maxX);
        }
      }
      v
  }

  /** The same line as the code writes it. `None` stands for `NaN`: with
      `maxX` zero the clamp has already made `next` zero, and `0 / 0` is
      `NaN`, which `Math.round` passes through. */
  function NextValueAsWritten(next: real, maxX: real, maxValue: int): (v: Option<int>)
    requires maxValue > 0
    ensures v.None? <==> maxX == 0.0
    ensures v.Some? ==> v.value == NextValue(next, maxX, maxValue)
  {
    if maxX == 0.0 then None else Some(Round(next / maxX * maxValue as real))
  }

  lemma DivideWithinUnit(a: real, b: real)
    requires 0.0 <= a <= b && b != 0.0
    ensures 0.0 <= a / b <= 1.0
  {
    assert b > 0.0;
    assert a / b * b == a;
  }

  /** Reading back the left offset of a value gives that value again, exactly,
      for every non-zero track length. */
  lemma RoundTrip(maxX: real, value: int, maxValue: int)
    requires maxValue > 0 && maxX != 0.0
    ensures NextValue(Left(Some(maxX), value, maxValue), maxX, maxValue) == value
  {
    var m := maxValue as real;
    var left := Left(Some(maxX), value, maxValue);
    var v := value as real;
    assert left * m == maxX * v;
    calc {
      left / maxX * m;
      (left * m) / maxX;
      (maxX * v) / maxX;
      v;
    }
    RoundOfInteger(value);
  }

  /** On a track of positive length a pixel further right never reads as a
      smaller value. */
  lemma NextValueMonotone(next1: real, next2: real, maxX: real, maxValue: int)
    requires maxValue > 0 && maxX > 0.0 && next1 <= next2
    ensures NextValue(next1, maxX, maxValue) <= NextValue(next2, maxX, maxValue)
  {
    var m := maxValue as real;
    assert next1 / maxX <= next2 / maxX;
    assert next1 / maxX * m <= next2 / maxX * m;
    RoundMonotone(next1 / maxX * m, next2 / maxX * m);
  }
}
