/**
 * The volume bar (src/components/badges/VolBar.tsx): a value clamped to
 * [0, max] and the filled percentage of the bar.
 */
module VolBar {
  import opened JsValues

  /** The `max` prop's default. */
  const DefaultMax: real := 10.0

  /** The displayed value: `Number(value)` clamped to [0, max], or 0 when not finite. */
  function DisplayValue(value: Json, max: real): (v: real)
    ensures max >= 0.0 ==> 0.0 <= v <= max
    ensures !ToNumber(value).IsFinite() ==> v == 0.0
    ensures value.Null? && max >= 0.0 ==> v == 0.0
    ensures value.Num? && 0.0 <= value.x <= max ==> v == value.x
    ensures value.Num? && value.x < 0.0 && max >= 0.0 ==> v == 0.0
    ensures value.Num? && value.x > max ==> v == max
  {
    var n := ToNumber(value);
    if n.IsFinite() then ClampReal(n.x, 0.0, max) else 0.0
  }

  /** The width of the filled part, in percent of the bar. */
  function Percent(v: real, max: real): (p: real)
    ensures max == 0.0 ==> p == 0.0
    ensures max != 0.0 ==> p * max == v * 100.0
    ensures max > 0.0 && 0.0 <= v <= max ==> 0.0 <= p <= 100.0
  {
    if max == 0.0 then 0.0 else v / max * 100.0
  }

  /** For any value and a non-negative maximum the bar is between empty and full. */
  lemma {:induction false} BarWithinBounds(value: Json, max: real)
    requires max >= 0.0
    ensures 0.0 <= Percent(DisplayValue(value, max), max) <= 100.0
  {
  }

  /** With the default maximum of 10: 4 fills 40 percent, 12 fills the bar, a missing value none of it. */
  lemma DefaultMaxExamples()
    ensures Percent(DisplayValue(Num(4.0), DefaultMax), DefaultMax) == 40.0
    ensures Percent(DisplayValue(Num(12.0), DefaultMax), DefaultMax) == 100.0
    ensures Percent(DisplayValue(Missing, DefaultMax), DefaultMax) == 0.0
  {
  }
}
