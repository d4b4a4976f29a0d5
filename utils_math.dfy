/** The generic `Clamp` helper, over integers. */
module UtilsMath {

  /** Bounds `val` to `[lo, hi]`: below `lo` gives `lo`, above `hi` gives
    * `hi`, anything else is returned as it is. */
  function Clamp(val: int, lo: int, hi: int): (r: int)
    ensures lo <= hi ==> lo <= r <= hi
    ensures r == val || r == lo || r == hi
  {
    if val < lo then lo
    else if val > hi then hi
    else val
  }

  /** The three cases of `Clamp`, stated as what a caller may rely on. */
  lemma ClampCases(val: int, lo: int, hi: int)
    ensures val < lo ==> Clamp(val, lo, hi) == lo
    ensures lo <= val && hi < val ==> Clamp(val, lo, hi) == hi
    ensures lo <= val <= hi ==> Clamp(val, lo, hi) == val
  {
  }

  /** Clamping twice is clamping once. */
  lemma ClampIdempotent(val: int, lo: int, hi: int)
    requires lo <= hi
    ensures Clamp(Clamp(val, lo, hi), lo, hi) == Clamp(val, lo, hi)
  {
  }

  /** Clamping is monotone in the value. */
  lemma ClampMonotone(a: int, b: int, lo: int, hi: int)
    requires a <= b && lo <= hi
    ensures Clamp(a, lo, hi) <= Clamp(b, lo, hi)
  {
  }
}
