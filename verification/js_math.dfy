/** The JavaScript number operations the editor relies on, over Dafny's exact
    reals. No IEEE-754 rounding is modelled. */
module JsMath {

  /** `Math.round(x)`: the nearest integer, halves rounded toward +Infinity
      (so `Math.round(-2.5) == -2`). */
  function Round(x: real): (r: int)
    ensures x - 0.5 < r as real <= x + 0.5
  {
    (x + 0.5).Floor
  }

  /** `Math.max(a, b)` on finite numbers. */
  function Max(a: real, b: real): (r: real)
    ensures r >= a && r >= b
    ensures r == a || r == b
  {
    if a >= b then a else b
  }

  /** `Math.min(a, b)` on finite numbers. */
  function Min(a: real, b: real): (r: real)
    ensures r <= a && r <= b
    ensures r == a || r == b
  {
    if a <= b then a else b
  }

  /** `Math.max(lo, Math.min(v, hi))`: inside `[lo, hi]` when that range is
      non-empty, and `lo` when it is empty. */
  function Clamp(v: real, lo: real, hi: real): (r: real)
    ensures r >= lo
    ensures lo <= hi ==> r <= hi
    ensures lo <= v <= hi ==> r == v
    ensures lo > hi ==> r == lo
  {
    Max(lo, Min(v, hi))
  }

  /** `Math.abs` on an integer. */
  function Abs(i: int): (r: nat)
    ensures r == i || r == -i
  {
    if i < 0 then -i else i
  }

  /** Assigning a non-negative number to `canvas.width` / `canvas.height`
      keeps its integer part. */
  function Truncate(x: real): (r: nat)
    requires x >= 0.0
    ensures r as real <= x < r as real + 1.0
  {
    x.Floor
  }
}
