/** Facts about division, remainders and multiples that the solver needs spelled out. */
module Arithmetic {

  lemma MulBounds(d: int, e: int)
    requires d > 0
    ensures e >= 1 ==> d * e >= d
    ensures e <= 0 ==> d * e <= 0
    ensures e <= -1 ==> d * e <= -d
  {
    assert d * e == d * (e - 1) + d == d * (e + 1) - d;
  }

  lemma DivUnique(x: int, d: int, q: int, r: int)
    requires d > 0 && 0 <= r < d && x == d * q + r
    ensures x / d == q && x % d == r
  {
    var e := q - x / d;
    assert d * e == d * q - d * (x / d);
    MulBounds(d, e);
  }

  lemma MultipleMod(q: int, d: int)
    requires d > 0
    ensures (q * d) % d == 0 && (q * d) / d == q
  {
    DivUnique(q * d, d, q, 0);
  }

  lemma ModShift(a: int, d: int)
    requires d > 0
    ensures (a + d) % d == a % d && (a - d) % d == a % d
    ensures (a + d) / d == a / d + 1 && (a - d) / d == a / d - 1
  {
    assert d * (a / d + 1) == d * (a / d) + d;
    assert d * (a / d - 1) == d * (a / d) - d;
    DivUnique(a + d, d, a / d + 1, a % d);
    DivUnique(a - d, d, a / d - 1, a % d);
  }

  lemma FloorMultiple(v: int, d: int)
    requires d > 0
    ensures (v - v % d) % d == 0 && v - v % d == d * (v / d)
  {
    DivUnique(v - v % d, d, v / d, 0);
  }

  lemma FloorBounds(v: int, d: int)
    requires d > 0
    ensures (v - v % d) % d == 0 && v - v % d <= v < v - v % d + d
    ensures 0 <= v ==> 0 <= v - v % d
  {
    FloorMultiple(v, d);
    if 0 <= v {
      MulBounds(d, v / d);
    }
  }

  /** Distinct multiples of d are at least d apart. */
  lemma MultiplesApart(a: int, b: int, d: int)
    requires d > 0 && a % d == 0 && b % d == 0 && a < b
    ensures a + d <= b
  {
    var e := b / d - a / d;
    assert d * e == d * (b / d) - d * (a / d) == b - a;
    MulBounds(d, e);
  }

  lemma MultipleOfMultiple(a: int, d: int, w: int)
    requires d > 0 && w > 0 && a % d == 0 && d % w == 0
    ensures a % w == 0
  {
    var q, p := a / d, d / w;
    assert a == q * d && d == p * w;
    assert a == (q * p) * w;
    MultipleMod(q * p, w);
  }

  /** start plus k steps, by repeated addition. */
  function Boundary(start: int, step: int, k: nat): int
  {
    if k == 0 then start else Boundary(start, step, k - 1) + step
  }

  lemma {:induction false} BoundaryIsLinear(start: int, step: int, k: nat)
    ensures Boundary(start, step, k) == start + k * step
  {
    if k > 0 {
      BoundaryIsLinear(start, step, k - 1);
      assert k * step == (k - 1) * step + step;
    }
  }

  lemma {:induction false} BoundaryShift(start: int, step: int, k: nat)
    ensures Boundary(start, step, k + 1) == Boundary(start + step, step, k)
  {
    if k > 0 {
      BoundaryShift(start, step, k - 1);
    }
  }

  lemma {:induction false} BoundaryGrows(start: int, step: int, j: nat, k: nat)
    requires step > 0 && j < k
    ensures Boundary(start, step, j) + step <= Boundary(start, step, k)
    decreases k
  {
    if j < k - 1 {
      BoundaryGrows(start, step, j, k - 1);
    }
  }

  lemma {:induction false} BoundaryMod(start: int, step: int, k: nat)
    requires step > 0
    ensures Boundary(start, step, k) % step == start % step
  {
    if k > 0 {
      BoundaryMod(start, step, k - 1);
      ModShift(Boundary(start, step, k - 1), step);
    }
  }

  /** From one multiple, every later one is some whole number of steps away. */
  lemma BoundaryReaches(a: int, b: int, step: int) returns (k: nat)
    requires step > 0 && a % step == 0 && b % step == 0 && a <= b
    ensures Boundary(a, step, k) == b
    decreases b - a
  {
    k := 0;
    if a < b {
      MultiplesApart(a, b, step);
      ModShift(a, step);
      k := BoundaryReaches(a + step, b, step);
      BoundaryShift(a, step, k);
      k := k + 1;
    }
  }
}
