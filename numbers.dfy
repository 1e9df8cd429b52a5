/** clamp over integers. */
module Numbers {
  function Min(a: int, b: int): int { if a <= b then a else b }

  function Max(a: int, b: int): int { if a >= b then a else b }

  /** clamp: `Math.max(min, Math.min(value, max))`. */
  function Clamp(value: int, lo: int, hi: int): (r: int)
    ensures lo <= hi ==> lo <= r <= hi
    ensures lo <= value <= hi ==> r == value
    ensures value < lo ==> r == lo
    ensures lo <= hi && hi < value ==> r == hi
    ensures hi < lo ==> r == lo
  {
    Max(lo, Min(value, hi))
  }

  /** With lo <= hi the result is the point of [lo, hi] nearest to value. */
  lemma ClampNearest(value: int, lo: int, hi: int, x: int)
    requires lo <= hi && lo <= x <= hi
    ensures Dist(Clamp(value, lo, hi), value) <= Dist(x, value)
  {
  }

  function Dist(a: int, b: int): nat { if a >= b then a - b else b - a }

  /** Clamping a clamped value changes nothing. */
  lemma ClampIdempotent(value: int, lo: int, hi: int)
    ensures Clamp(Clamp(value, lo, hi), lo, hi) == Clamp(value, lo, hi)
  {
  }

  /** Clamping keeps the order of values. */
  lemma ClampMonotonic(a: int, b: int, lo: int, hi: int)
    requires a <= b
    ensures Clamp(a, lo, hi) <= Clamp(b, lo, hi)
  {
  }

  lemma ClampExamples()
    ensures Clamp(5, 1, 10) == 5 && Clamp(-5, 1, 10) == 1 && Clamp(15, 1, 10) == 10
  {
  }
}
