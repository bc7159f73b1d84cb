/** `muldiv64` and `muldivU64`: floor(a * b / d) in 64-bit arithmetic. */
module WideArith {
  import opened Words

  // ----- muldiv64: signed 64-bit, where overflow has no defined result

  predicate FitsInt64(x: int) {
    -0x8000_0000_0000_0000 <= x < 0x8000_0000_0000_0000
  }

  /**
   `muldiv64` for the arguments its header admits: a non-negative, d positive.
   `None` when one of the products or the sum leaves the signed 64-bit range.
   */
  function MulDiv64(a: nat, b: nat, d: nat): Option<int>
    requires FitsInt64(a) && d > 0
  {
    SumIfDefined((a / d) * b, (a % d) * b, d)
  }

  function SumIfDefined(qb: int, rb: int, d: nat): Option<int>
    requires d > 0
  {
    if FitsInt64(qb) && FitsInt64(rb) && FitsInt64(qb + rb / d) then Some(qb + rb / d) else None
  }

  lemma MulMono(x: nat, y: nat, k: nat)
    requires x <= y
    ensures x * k <= y * k
  {
  }

  /** floor(a * b / d) splits along a == q * d + r. */
  lemma SplitDivision(a: nat, b: nat, d: nat)
    requires d > 0
    ensures (a * b) / d == (a / d) * b + ((a % d) * b) / d
  {
    var q, r := a / d, a % d;
    var rb := r * b;
    var q2, r2 := rb / d, rb % d;
    calc {
      a * b;
      (q * d + r) * b;
      { assert (q * d + r) * b == q * d * b + r * b; assert q * d * b == q * b * d; }
      q * b * d + (q2 * d + r2);
      { assert (q * b + q2) * d == q * b * d + q2 * d; }
      (q * b + q2) * d + r2;
    }
    DivModUnique(a * b, d, q * b + q2, r2);
  }

  lemma ProductsNonNegative(q: nat, r: nat, b: nat)
    ensures 0 <= q * b && 0 <= r * b
  {
  }

  lemma QuotientNonNegative(p: nat, d: nat)
    requires d > 0
    ensures 0 <= p / d
  {
  }

  lemma Cancel(x: int, y: int, d: int)
    requires d > 0 && x * d < y * d
    ensures x < y
  {
    assert (x - y) * d == x * d - y * d;
    if x > y { MultipleAtLeast(x - y, d); }
  }

  /** The floor is at most `a` when the multiplier is at most the divisor. */
  lemma FloorAtMost(a: nat, b: nat, d: nat)
    requires d > 0 && b <= d
    ensures 0 <= (a * b) / d <= a
  {
    ProductsNonNegative(a, b, b);
    QuotientNonNegative(a * b, d);
    FloorBounds(a, b, d);
    MulMono(b, d, a);
    assert (a + 1) * d == a * d + d;
    Cancel((a * b) / d, a + 1, d);
  }

  lemma FloorBounds(a: nat, b: nat, d: nat)
    requires d > 0
    ensures ((a * b) / d) * d <= a * b < ((a * b) / d) * d + d
  {
    var p := a * b;
    assert p == (p / d) * d + p % d;
  }

  /**
   With b <= d the result is exactly floor(a * b / d), and it is defined for
   precisely those arguments whose second product stays in range.
   */
  lemma MulDiv64IsFloor(a: nat, b: nat, d: nat)
    requires FitsInt64(a) && d > 0 && b <= d
    ensures MulDiv64(a, b, d) ==
      if (a % d) * b < 0x8000_0000_0000_0000 then Some((a * b) / d) else None
  {
    SplitDivision(a, b, d);
    FloorAtMost(a, b, d);
    ProductsNonNegative(a / d, a % d, b);
    SumDefined((a / d) * b, (a % d) * b, d, (a * b) / d);
  }

  lemma SumDefined(qb: nat, rb: nat, d: nat, f: nat)
    requires d > 0 && f == qb + rb / d && FitsInt64(f)
    ensures SumIfDefined(qb, rb, d) == if rb < 0x8000_0000_0000_0000 then Some(f) else None
  {
  }

  /** No multiplicand overflows exactly when (d - 1) * b stays below 2^63. */
  lemma SafeForEveryMultiplicand(b: nat, d: nat)
    requires 0 < d < 0x1_0000_0000 && b <= d
    ensures (forall a: nat :: FitsInt64(a) ==> MulDiv64(a, b, d).Some?)
      <==> (d - 1) * b < 0x8000_0000_0000_0000
  {
    if (d - 1) * b < 0x8000_0000_0000_0000 {
      forall a: nat | FitsInt64(a) ensures MulDiv64(a, b, d).Some? {
        MulDiv64IsFloor(a, b, d);
        MulMono(a % d, d - 1, b);
      }
    } else {
      var a := d - 1;
      MulDiv64IsFloor(a, b, d);
      DivModUnique(a, d, 0, a);
    }
  }

  // ----- splitting an amount into shares

  function Sum(shares: seq<nat>): nat {
    if shares == [] then 0 else shares[0] + Sum(shares[1..])
  }

  /** What is paid out when every share `b` of `d` gets `muldiv64(a, b, d)`. */
  function PaidOut(a: nat, shares: seq<nat>, d: nat): int
    requires FitsInt64(a) && d > 0
    requires forall i :: 0 <= i < |shares| ==> MulDiv64(a, shares[i], d).Some?
  {
    if shares == [] then 0 else MulDiv64(a, shares[0], d).value + PaidOut(a, shares[1..], d)
  }

  lemma {:induction false} PaidOutBounds(a: nat, shares: seq<nat>, d: nat)
    requires FitsInt64(a) && d > 0 && Sum(shares) <= d
    requires forall i :: 0 <= i < |shares| ==> MulDiv64(a, shares[i], d).Some?
    ensures PaidOut(a, shares, d) * d <= a * Sum(shares) <= PaidOut(a, shares, d) * d + |shares| * (d - 1)
  {
    if shares != [] {
      var b, rest := shares[0], shares[1..];
      PaidOutBounds(a, rest, d);
      MulDiv64IsFloor(a, b, d);
      FloorBounds(a, b, d);
      BoundsAdd(a, b, Sum(rest), d, (a * b) / d, PaidOut(a, rest, d), |rest|);
    }
  }

  lemma BoundsAdd(a: nat, b: nat, s: nat, d: nat, x: int, y: int, n: nat)
    requires x * d <= a * b < x * d + d
    requires y * d <= a * s <= y * d + n * (d - 1)
    ensures (x + y) * d <= a * (b + s) <= (x + y) * d + (n + 1) * (d - 1)
  {
    assert (x + y) * d == x * d + y * d;
    assert a * (b + s) == a * b + a * s;
    assert (n + 1) * (d - 1) == n * (d - 1) + (d - 1);
  }

  /**
   Shares of at most the whole never pay out more than the amount, and n >= 1
   shares that make up the whole lose fewer than n units to rounding.
   */
  lemma SharesConserve(a: nat, shares: seq<nat>, d: nat)
    requires FitsInt64(a) && d > 0 && Sum(shares) <= d
    requires forall i :: 0 <= i < |shares| ==> (d - 1) * shares[i] < 0x8000_0000_0000_0000
    ensures forall i :: 0 <= i < |shares| ==> MulDiv64(a, shares[i], d).Some?
    ensures PaidOut(a, shares, d) <= a
    ensures shares != [] && Sum(shares) == d ==> a < PaidOut(a, shares, d) + |shares|
  {
    forall i | 0 <= i < |shares| ensures MulDiv64(a, shares[i], d).Some? {
      ShareAtMostSum(shares, i);
      MulDiv64IsFloor(a, shares[i], d);
      MulMono(a % d, d - 1, shares[i]);
    }
    PaidOutBounds(a, shares, d);
    BoundsConserve(a, Sum(shares), d, PaidOut(a, shares, d), |shares|);
  }

  lemma BoundsConserve(a: nat, s: nat, d: nat, p: int, n: nat)
    requires d > 0 && s <= d && p * d <= a * s <= p * d + n * (d - 1)
    ensures p <= a
    ensures n > 0 && s == d ==> a < p + n
  {
    MulMono(s, d, a);
    assert (a + 1) * d == a * d + d;
    Cancel(p, a + 1, d);
    if n > 0 && s == d {
      assert (p + n) * d == p * d + n * d;
      assert n * d == n * (d - 1) + n;
      Cancel(a, p + n, d);
    }
  }

  lemma {:induction false} ShareAtMostSum(shares: seq<nat>, i: nat)
    requires i < |shares|
    ensures shares[i] <= Sum(shares)
  {
    if i > 0 { ShareAtMostSum(shares[1..], i - 1); }
  }

  // ----- muldivU64: unsigned 64-bit, two builds

  function Wrap64(x: nat): nat {
    x % 0x1_0000_0000_0000_0000
  }

  /** The build with a 128-bit type: the product is exact, the cast truncates. */
  function MulDivU64Wide(a: nat, b: nat, d: nat): nat {
    if d == 0 || a == 0 || b == 0 then 0 else Wrap64(a * b / d)
  }

  /** The portable build: every intermediate wraps. */
  function MulDivU64Portable(a: nat, b: nat, d: nat): nat {
    if d == 0 || a == 0 || b == 0 then 0
    else
      WrappedSum((a / d) * b, (a % d) * b, d)
  }

  function WrappedSum(qb: nat, rb: nat, d: nat): nat
    requires d > 0
  {
    Wrap64(Wrap64(qb) + Wrap64(rb) / d)
  }

  predicate FitsUint64(x: int) {
    0 <= x < 0x1_0000_0000_0000_0000
  }

  lemma ZeroProduct(a: nat, b: nat, d: nat)
    requires d > 0 && (a == 0 || b == 0)
    ensures (a * b) / d == 0 && (a % d) * b == 0
  {
  }

  /** The early return agrees with the general case. */
  lemma WideIsWrapped(a: nat, b: nat, d: nat)
    requires d > 0
    ensures MulDivU64Wide(a, b, d) == Wrap64((a * b) / d)
  {
    if a == 0 || b == 0 { ZeroProduct(a, b, d); }
  }

  lemma PortableIsWrapped(a: nat, b: nat, d: nat)
    requires d > 0
    ensures MulDivU64Portable(a, b, d) == WrappedSum((a / d) * b, (a % d) * b, d)
  {
    if a == 0 || b == 0 { ZeroProduct(a, b, d); ZeroProduct(a / d, b, 1); }
  }

  /** The 128-bit build is exact precisely when the quotient fits. */
  lemma WideIsFloor(a: nat, b: nat, d: nat)
    requires d > 0
    ensures MulDivU64Wide(a, b, d) == (a * b) / d <==> FitsUint64((a * b) / d)
  {
    WideIsWrapped(a, b, d);
    WrapIsSelf((a * b) / d);
  }

  lemma FloorFits(a: nat, b: nat, d: nat)
    requires FitsUint64(a) && 0 < d && b <= d
    ensures FitsUint64((a * b) / d)
  {
    FloorAtMost(a, b, d);
  }

  /** A share of at most the whole always fits. */
  lemma WideShareIsFloor(a: nat, b: nat, d: nat)
    requires FitsUint64(a) && 0 < d && b <= d
    ensures MulDivU64Wide(a, b, d) == (a * b) / d
  {
    FloorFits(a, b, d);
    WideIsFloor(a, b, d);
  }

  lemma WrapIsSelf(x: int)
    requires 0 <= x
    ensures Wrap64(x) == x <==> FitsUint64(x)
  {
  }

  /** Wrapping a sum: equal results mean equal second terms, when those are small. */
  lemma WrapSumEqual(x: nat, y: nat, z: nat)
    requires FitsUint64(y) && FitsUint64(z)
    ensures Wrap64(Wrap64(x) + y) == Wrap64(x + z) <==> y == z
  {
  }

  /** Losing a multiple of 2^64 before dividing loses at least one from the quotient. */
  lemma WrappedQuotient(p: nat, d: nat)
    requires 0 < d < 0x1_0000_0000_0000_0000
    ensures Wrap64(p) / d <= p / d
    ensures Wrap64(p) / d == p / d <==> FitsUint64(p)
  {
    var w := Wrap64(p);
    if w < p {
      assert w + 0x1_0000_0000_0000_0000 <= p;
      var k := w / d;
      assert (k + 1) * d == k * d + d;
      QuotientAtLeast(p, d, k + 1);
    }
  }

  lemma QuotientAtLeast(p: nat, d: nat, k: nat)
    requires d > 0 && p >= k * d
    ensures p / d >= k
  {
    assert (p / d + 1) * d == (p / d) * d + d;
    Cancel(k, p / d + 1, d);
  }

  /** The two builds agree exactly when the product with the remainder does not wrap. */
  lemma BuildsAgree(a: nat, b: nat, d: nat)
    requires FitsUint64(b) && FitsUint64(d)
    ensures MulDivU64Portable(a, b, d) == MulDivU64Wide(a, b, d)
      <==> d == 0 || (a % d) * b < 0x1_0000_0000_0000_0000
  {
    if d != 0 {
      BuildsAgreeIfWrapped(a, b, d);
    }
  }

  lemma BuildsAgreeIfWrapped(a: nat, b: nat, d: nat)
    requires 0 < d && FitsUint64(d) && FitsUint64(b)
    ensures MulDivU64Portable(a, b, d) == MulDivU64Wide(a, b, d) <==> FitsUint64((a % d) * b)
  {
    ProductsNonNegative(a / d, a % d, b);
    WideIsWrapped(a, b, d);
    PortableIsWrapped(a, b, d);
    SplitDivision(a, b, d);
    RemainderQuotientFits(a, b, d);
    SumsAgree((a / d) * b, (a % d) * b, d);
  }

  lemma SumsAgree(qb: nat, rb: nat, d: nat)
    requires 0 < d && FitsUint64(d) && FitsUint64(rb / d)
    ensures WrappedSum(qb, rb, d) == Wrap64(qb + rb / d) <==> FitsUint64(rb)
  {
    WrappedQuotient(rb, d);
    WrapSumEqual(qb, Wrap64(rb) / d, rb / d);
  }

  lemma RemainderQuotientFits(a: nat, b: nat, d: nat)
    requires d > 0 && FitsUint64(b)
    ensures FitsUint64(((a % d) * b) / d)
  {
    var r := a % d;
    assert b * r == r * b;
    FloorFits(b, r, d);
  }

  /** The smallest sort of disagreement: 2^63 * 2 wraps to nothing. */
  lemma BuildsDisagree()
    ensures MulDivU64Wide(0x8000_0000_0000_0000, 2, 0xFFFF_FFFF_FFFF_FFFF) == 1
    ensures MulDivU64Portable(0x8000_0000_0000_0000, 2, 0xFFFF_FFFF_FFFF_FFFF) == 0
  {
  }
}
