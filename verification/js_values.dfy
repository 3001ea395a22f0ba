/**
 * The part of JavaScript's number semantics the day engine depends on:
 * values read from the database, `Number(...)`, `Number.isFinite`,
 * `Math.trunc` and the `Math.min(hi, Math.max(lo, x))` clamp.
 * Numbers are exact (`real`); IEEE rounding is not modelled.
 */
module JsValues {

  /**
   * A field value as it arrives from the database (JSON): absent (`undefined`),
   * `null`, a number, or anything whose `Number(...)` is NaN.
   * JSON cannot carry NaN or Infinity, so a `Num` is always finite.
   */
  datatype Json = Missing | Null | Num(x: real) | NonNumeric

  /** A JavaScript number as held in component state. */
  datatype JsNumber = Finite(x: real) | NaN | PosInfinity | NegInfinity {
    predicate IsFinite() { Finite? }
  }

  /** `Number(v)` */
  function ToNumber(v: Json): (n: JsNumber)
    ensures !n.PosInfinity? && !n.NegInfinity?
    ensures n.IsFinite() <==> v.Num? || v.Null?
    ensures v.Num? ==> n == Finite(v.x)
    ensures v.Null? ==> n == Finite(0.0)
  {
    match v
    case Missing => NaN
    case Null => Finite(0.0)
    case Num(x) => Finite(x)
    case NonNumeric => NaN
  }

  /** `Math.trunc(x)`: the integer part, rounding toward zero. */
  function Trunc(x: real): (r: int)
    ensures x >= 0.0 ==> 0 <= r && r as real <= x < r as real + 1.0
    ensures x < 0.0 ==> r <= 0 && r as real - 1.0 < x <= r as real
  {
    if x >= 0.0 then x.Floor else -((-x).Floor)
  }

  /** `Math.min(hi, Math.max(lo, x))` on integers. */
  function ClampInt(x: int, lo: int, hi: int): (r: int)
    ensures lo <= hi ==> lo <= r <= hi
    ensures lo <= x <= hi ==> r == x
    ensures lo <= hi && x < lo ==> r == lo
    ensures x > hi ==> r == hi
  {
    if hi < (if lo < x then x else lo) then hi else if lo < x then x else lo
  }

  /** `Math.min(hi, Math.max(lo, x))` on (finite) numbers. */
  function ClampReal(x: real, lo: real, hi: real): (r: real)
    ensures lo <= hi ==> lo <= r <= hi
    ensures lo <= x <= hi ==> r == x
    ensures lo <= hi && x < lo ==> r == lo
    ensures x > hi ==> r == hi
  {
    if hi < (if lo < x then x else lo) then hi else if lo < x then x else lo
  }

  /** Clamping twice to the same range is clamping once. */
  lemma ClampIntIdempotent(x: int, lo: int, hi: int)
    requires lo <= hi
    ensures ClampInt(ClampInt(x, lo, hi), lo, hi) == ClampInt(x, lo, hi)
  {
  }

  /** Truncation leaves integers unchanged. */
  lemma TruncOfInt(k: int)
    ensures Trunc(k as real) == k
  {
  }
}
