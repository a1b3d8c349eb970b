/**
 arena_run_regind: which region of a run a pointer points to, without a division by a variable.
 Unsigned arithmetic is written out modulo 2^32.
 */
module RegionIndex {
  import opened Arithmetic

  const UINT_RANGE := 0x1_0000_0000
  const RUN_MAXREGS := 2048      // 1U << LG_RUN_MAXREGS
  const INV_RANGE := 0x20_0000   // 1U << SIZE_INV_SHIFT, with SIZE_INV_SHIFT == 32 - 11

  datatype BinInfo = BinInfo(reg0Offset: nat, regInterval: nat, nregs: nat)

  /** SIZE_INV(s). */
  function SizeInv(d: nat): nat
    requires d > 0
  {
    INV_RANGE / d + 1
  }

  /** ffs(x) - 1. */
  function TrailingZeros(x: nat): nat
    requires x > 0
  {
    if x % 2 == 1 then 0 else 1 + TrailingZeros(x / 2)
  }

  function ShiftRight(x: nat, n: nat): nat
  {
    if n == 0 then x else ShiftRight(x / 2, n - 1)
  }

  /** The quotient of the rescaled difference by the rescaled interval. */
  function Quotient(diff: nat, interval: nat): nat
    requires interval > 0
  {
    if interval == 1 then diff
    else if 3 <= interval <= 31 then diff * SizeInv(interval) % UINT_RANGE / INV_RANGE
    else diff / interval
  }

  function RunRegInd(run: nat, info: BinInfo, ptr: nat): nat
    requires ptr >= run + info.reg0Offset && info.regInterval > 0
  {
    IndexOf((ptr - run - info.reg0Offset) % UINT_RANGE, info.regInterval)
  }

  /** Powers of two are factored out of both operands first. */
  function IndexOf(diff: nat, interval: nat): nat
    requires interval > 0
  {
    var shift := TrailingZeros(interval);
    OddPart(interval);
    Quotient(ShiftRight(diff, shift), ShiftRight(interval, shift))
  }

  /** The address arena_run_reg_alloc computes for a region. */
  function RegAddress(run: nat, info: BinInfo, regind: nat): nat
  {
    run + info.reg0Offset + info.regInterval * regind
  }

  lemma {:induction false} OddPart(x: nat)
    requires x > 0
    ensures ShiftRight(x, TrailingZeros(x)) % 2 == 1
    ensures x == ShiftRight(x, TrailingZeros(x)) * Pow2(TrailingZeros(x))
  {
    if x % 2 == 0 {
      OddPart(x / 2);
      var odd, p := ShiftRight(x / 2, TrailingZeros(x / 2)), Pow2(TrailingZeros(x / 2));
      assert odd * (2 * p) == 2 * (odd * p);
    }
  }

  lemma {:induction false} ShiftMultiple(k: nat, n: nat)
    ensures ShiftRight(k * Pow2(n), n) == k
  {
    if n > 0 {
      var p := k * Pow2(n - 1);
      ShiftMultiple(k, n - 1);
      assert k * Pow2(n) == 2 * p && 2 * p / 2 == p;
    }
  }

  // Products of variables, one fact at a time.

  lemma Distribute(a: nat, b: nat, c: nat)
    ensures (a + b) * c == a * c + b * c
  {
  }

  lemma Associate(a: nat, b: nat, c: nat)
    ensures (a * b) * c == a * (b * c)
  {
  }

  lemma Euclid(x: nat, d: nat, bound: nat)
    requires d > 0 && x < bound * d
    ensures x == (x / d) * d + x % d && x % d < d && x / d < bound
  {
    if x / d >= bound {
      MulMono(bound, x / d, d);
    }
  }

  lemma DivMultiple(d: nat, q: nat)
    requires d > 0
    ensures d * q / d == q
  {
    var x := d * q;
    var p := x / d;
    assert p * d <= x < p * d + d;
    if p < q {
      MulMono(p + 1, q, d);
    } else {
      MulMono(q, p, d);
      if q < p {
        MulMono(q + 1, p, d);
      }
    }
  }

  lemma Rescale(x: nat, odd: nat, p: nat, regind: nat)
    requires x == odd * p
    ensures x * regind == (odd * regind) * p
  {
    Associate(odd, p, regind);
    Associate(odd, regind, p);
  }

  /** The reciprocal exceeds 2^21 / d by less than one part in d. */
  lemma ReciprocalError(d: nat)
    requires 3 <= d <= 31
    ensures 0 < SizeInv(d) * d - INV_RANGE <= d && SizeInv(d) > 67650
  {
    var q, r := INV_RANGE / d, INV_RANGE % d;
    assert INV_RANGE == q * d + r;
    assert (q + 1) * d == q * d + d;
  }

  /** inv exceeds the reciprocal of d by k. */
  predicate Reciprocal(inv: nat, d: nat, k: nat)
  {
    inv * d == INV_RANGE + k
  }

  lemma ProductBounds(d: nat, inv: nat, k: nat, q: nat, r: nat)
    requires Reciprocal(inv, d, k) && k <= d <= 31 && inv > 67650 && q < RUN_MAXREGS && r < d
    ensures q * INV_RANGE <= (q * d + r) * inv < (q + 1) * INV_RANGE
  {
    hide Reciprocal;
    var product, y, z := (q * d + r) * inv, q * k, r * inv;
    ProductSum(d, inv, k, q, r);
    QuotientPart(k, q);
    RemainderPart(d, inv, k, r);
    SumBounds(q * INV_RANGE, y, z, product, inv, k);
  }

  lemma SumBounds(x: nat, y: nat, z: nat, product: nat, inv: nat, k: nat)
    requires product == x + y + z && y <= 2047 * 31 && z <= INV_RANGE + k - inv && k <= 31 && inv > 67650
    ensures x <= product < x + INV_RANGE
  {
  }

  lemma ProductSum(d: nat, inv: nat, k: nat, q: nat, r: nat)
    requires Reciprocal(inv, d, k)
    ensures (q * d + r) * inv == q * INV_RANGE + q * k + r * inv
  {
    Distribute(q * d, r, inv);
    Associate(q, d, inv);
    Distribute(INV_RANGE, k, q);
  }

  lemma QuotientPart(k: nat, q: nat)
    requires q < RUN_MAXREGS && k <= 31
    ensures q * k <= 2047 * 31
  {
    MulMono(q, 2047, k);
  }

  lemma RemainderPart(d: nat, inv: nat, k: nat, r: nat)
    requires Reciprocal(inv, d, k) && r < d
    ensures r * inv <= INV_RANGE + k - inv
  {
    MulMono(r, d - 1, inv);
    Distribute(d - 1, 1, inv);
  }

  lemma ReciprocalOf(d: nat, diff: nat, inv: nat, q: nat, r: nat)
    requires 0 < inv * d - INV_RANGE <= d <= 31 && inv > 67650 && diff == q * d + r && q < RUN_MAXREGS && r < d
    ensures diff * inv < UINT_RANGE && diff * inv % UINT_RANGE / INV_RANGE == q
  {
    ProductBounds(d, inv, inv * d - INV_RANGE, q, r);
    Shifted(diff * inv, q);
  }

  lemma Shifted(product: nat, q: nat)
    requires q * INV_RANGE <= product < (q + 1) * INV_RANGE && q < RUN_MAXREGS
    ensures product < UINT_RANGE && product % UINT_RANGE / INV_RANGE == q
  {
  }

  /** The multiplication by the reciprocal is exact and does not overflow, for every difference inside the largest run. */
  lemma ReciprocalExact(d: nat, diff: nat)
    requires 3 <= d <= 31 && diff < RUN_MAXREGS * d
    ensures diff * SizeInv(d) < UINT_RANGE
    ensures Quotient(diff, d) == diff / d
  {
    hide SizeInv;
    Euclid(diff, d, RUN_MAXREGS);
    ReciprocalError(d);
    ReciprocalOf(d, diff, SizeInv(d), diff / d, diff % d);
  }

  lemma QuotientOfMultiple(odd: nat, regind: nat)
    requires odd % 2 == 1 && regind < RUN_MAXREGS
    ensures Quotient(odd * regind, odd) == regind
  {
    DivMultiple(odd, regind);
    if 3 <= odd <= 31 {
      assert odd * regind < RUN_MAXREGS * odd by {
        MulMono(regind, 2047, odd);
      }
      ReciprocalExact(odd, odd * regind);
    }
  }

  lemma IndexOfMultiple(x: nat, regind: nat)
    requires x > 0 && regind < RUN_MAXREGS
    ensures IndexOf(x * regind, x) == regind
  {
    var shift := TrailingZeros(x);
    OddPart(x);
    var odd, p := ShiftRight(x, shift), Pow2(shift);
    hide Quotient, Pow2, ShiftRight, TrailingZeros, IndexOf;
    Rescale(x, odd, p, regind);
    ShiftMultiple(odd * regind, shift);
    QuotientOfMultiple(odd, regind);
    IndexUnfolds(x * regind, x, odd * regind, odd);
  }

  lemma IndexUnfolds(diff: nat, x: nat, shifted: nat, odd: nat)
    requires x > 0 && ShiftRight(diff, TrailingZeros(x)) == shifted && ShiftRight(x, TrailingZeros(x)) == odd && odd > 0
    ensures IndexOf(diff, x) == Quotient(shifted, odd)
  {
  }

  /** The index of the region whose address was handed out is found again, for every layout of a bin. */
  lemma RegIndInvertsAddress(run: nat, info: BinInfo, regind: nat)
    requires info.regInterval > 0 && regind < info.nregs <= RUN_MAXREGS
    requires info.regInterval * regind < UINT_RANGE
    ensures RunRegInd(run, info, RegAddress(run, info, regind)) == regind
  {
    hide IndexOf;
    var offset := info.regInterval * regind;
    IndexOfMultiple(info.regInterval, regind);
    SmallRemainder(offset, UINT_RANGE);
    assert RegAddress(run, info, regind) - run - info.reg0Offset == offset;
  }

  lemma SmallRemainder(x: nat, a: nat)
    requires x < a
    ensures x % a == x
  {
  }

  /** The regions of a run begin at its offset and lie one behind the other, an interval each. */
  lemma RegionsApart(run: nat, info: BinInfo, i: nat, j: nat)
    ensures RegAddress(run, info, 0) == run + info.reg0Offset
    ensures RegAddress(run, info, i + 1) == RegAddress(run, info, i) + info.regInterval
    ensures i < j ==> RegAddress(run, info, i) + info.regInterval <= RegAddress(run, info, j)
  {
    Distribute(i, 1, info.regInterval);
    if i < j {
      MulMono(i + 1, j, info.regInterval);
    }
  }
}
