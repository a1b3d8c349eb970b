/** Facts about products and remainders with variable operands, one at a time, and about the sizes of sets. */
module Arithmetic {

  lemma MulMono(a: nat, b: nat, c: nat)
    requires a <= b
    ensures a * c <= b * c
  {
  }

  lemma RemainderUnique(x: nat, a: nat, q: nat, r: nat)
    requires a > 0 && x == q * a + r && r < a
    ensures x % a == r && x / a == q
  {
    var p := x / a;
    assert p * a <= x < p * a + a;
    if p < q {
      MulMono(p + 1, q, a);
    } else if q < p {
      MulMono(q + 1, p, a);
    }
  }

  /** Adding multiples of a does not change the remainder by a. */
  lemma RemainderShift(x: nat, a: nat, k: nat)
    requires a > 0
    ensures (x + k * a) % a == x % a
  {
    var q, r := x / a, x % a;
    assert x == q * a + r;
    assert x + k * a == (q + k) * a + r;
    RemainderUnique(x + k * a, a, q + k, r);
  }

  /** Reducing by a multiple of a first does not change the remainder by a. */
  lemma RemainderTwice(x: nat, a: nat, k: nat)
    requires a > 0 && k > 0
    ensures a * k > 0 && x % (a * k) % a == x % a
  {
    var m := a * k;
    assert m > 0 by { MulMono(1, k, a); }
    var q, r := x / m, x % m;
    assert x == q * m + r;
    assert q * m == (q * k) * a;
    RemainderShift(r, a, q * k);
  }

  function Pow2(n: nat): (p: nat)
    ensures p > 0
  {
    if n == 0 then 1 else 2 * Pow2(n - 1)
  }

  lemma {:induction false} Pow2Add(a: nat, b: nat)
    ensures Pow2(a + b) == Pow2(a) * Pow2(b)
  {
    if a > 0 {
      Pow2Add(a - 1, b);
    }
  }

  /** x & (2^n - 1) does not depend on higher bits already masked off. */
  lemma MaskTwice(x: nat, n: nat, m: nat)
    requires n <= m
    ensures x % Pow2(m) % Pow2(n) == x % Pow2(n)
  {
    Pow2Add(n, m - n);
    RemainderTwice(x, Pow2(n), Pow2(m - n));
  }

  lemma FloorBounds(x: nat, a: nat)
    requires a > 0
    ensures x - a < x / a * a <= x && x / a * a % a == 0
  {
    assert x == x / a * a + x % a;
    RemainderUnique(x / a * a, a, x / a, 0);
  }

  /** ALIGNMENT_CEILING. */
  function Ceiling(x: nat, alignment: nat): (r: nat)
    requires alignment > 0
    ensures r % alignment == 0 && x <= r < x + alignment
  {
    FloorBounds(x + (alignment - 1), alignment);
    (x + (alignment - 1)) / alignment * alignment
  }

  /** The first n numbers. */
  ghost function Below(n: nat): (s: set<nat>)
    ensures |s| == n && forall i :: i in s <==> 0 <= i < n
  {
    if n == 0 then {} else Below(n - 1) + {n - 1}
  }

  /** A proper subset has fewer elements. */
  lemma Smaller<T>(a: set<T>, b: set<T>)
    requires a < b
    ensures |a| < |b|
  {
    assert b == a + (b - a);
  }
}
