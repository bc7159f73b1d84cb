/** The decimal floating form of include/xrpl/basics/Number.h: ranges, order, external view. */
module Numbers {
  import opened Words

  // ----- powers of ten and mantissa ranges

  /** `logTen`: the exponent of a power of ten, and nothing for any other value. */
  method LogTen(value: int) returns (r: Option<nat>)
    ensures r.Some? ==> value == Pow(10, r.value)
    ensures r.None? ==> forall k: nat :: value != Pow(10, k)
  {
    var v, log := value, 0;
    while v >= 10 && v % 10 == 0
      invariant value == v * Pow(10, log)
      invariant v > 0 <==> value > 0
      decreases v
    {
      v := v / 10;
      log := log + 1;
    }
    if v == 1 { return Some(log); }
    forall k: nat ensures value != Pow(10, k) { NotAPower(v, log, k); }
    return None;
  }

  lemma {:induction false} PowSum(j: nat, k: nat)
    ensures Pow(10, j + k) == Pow(10, j) * Pow(10, k)
  {
    if j > 0 { PowSum(j - 1, k); }
  }

  lemma {:induction false} PowPositive(k: nat)
    ensures Pow(10, k) >= 1
  {
    if k > 0 { PowPositive(k - 1); }
  }

  lemma {:induction false} PowMonotone(j: nat, k: nat)
    requires j <= k
    ensures Pow(10, j) <= Pow(10, k)
  {
    if j < k { PowMonotone(j, k - 1); PowPositive(k - 1); }
  }

  /** What the loop stops at: neither one nor divisible by ten, or below ten. */
  lemma {:induction false} NotAPower(v: int, log: nat, k: nat)
    requires v != 1 && !(v >= 10 && v % 10 == 0)
    ensures v * Pow(10, log) != Pow(10, k)
  {
    PowPositive(k);
    PowPositive(log);
    if v <= 0 {
      ProductNotPositive(v, Pow(10, log));
    } else if k == 0 {
      ProductAboveOne(v, Pow(10, log));
    } else if log == 0 {
      PowPositive(k - 1);
    } else {
      NotAPower(v, log - 1, k - 1);
      TenFold(v, Pow(10, log - 1));
    }
  }

  lemma ProductNotPositive(v: int, p: nat)
    requires v <= 0
    ensures v * p <= 0
  {
  }

  lemma TenFold(v: int, p: int)
    ensures v * (10 * p) == 10 * (v * p)
  {
  }

  lemma ProductAboveOne(v: int, p: int)
    requires v > 1 && p >= 1
    ensures v * p > 1
  {
    MultipleAtLeast(p, v);
    assert p * v == v * p;
  }

  datatype Scale = Small | Large

  datatype MantissaRange = MantissaRange(min: nat, max: nat, log: int, scale: Scale)

  function MinMantissa(scale: Scale): nat {
    match scale
    case Small => 1_000_000_000_000_000
    case Large => 1_000_000_000_000_000_000
  }

  function MaxMantissa(scale: Scale): nat {
    10 * MinMantissa(scale) - 1
  }

  /** The range's constructor: a whole decade that fits in 64 bits, named by its logarithm. */
  method MakeRange(scale: Scale) returns (r: MantissaRange)
    ensures r.scale == scale && r.min == MinMantissa(scale) && r.max == MaxMantissa(scale)
    ensures r.log >= 0 && r.min == Pow(10, r.log) && r.max == Pow(10, r.log + 1) - 1
    ensures r.max < 0x1_0000_0000_0000_0000
  {
    var min := MinMantissa(scale);
    var log := LogTen(min);
    if log.None? { MinIsPower(scale); }
    r := MantissaRange(min, min * 10 - 1, log.value, scale);
  }

  lemma MinIsPower(scale: Scale)
    ensures exists k: nat :: MinMantissa(scale) == Pow(10, k)
  {
    assert Pow(10, 5) == 100_000;
    assert Pow(10, 10) == 10_000_000_000 by { PowSum(5, 5); }
    assert Pow(10, 15) == 1_000_000_000_000_000 by { PowSum(5, 10); }
    assert Pow(10, 18) == 1_000_000_000_000_000_000 by { PowSum(3, 15); }
  }

  // ----- numbers and what they denote

  const MIN_EXPONENT: int := -32768
  const MAX_EXPONENT: int := 32768
  const MAX_REP: int := 9_223_372_036_854_775_807
  const LOWEST_INT: int := -0x8000_0000

  datatype Number = Number(negative: bool, mantissa: nat, exponent: int)

  const Zero := Number(false, 0, LOWEST_INT)

  predicate IsNormal(scale: Scale, x: Number) {
    x == Zero || (
      && MinMantissa(scale) <= x.mantissa <= MaxMantissa(scale)
      && (x.mantissa <= MAX_REP || x.mantissa % 10 == 0)
      && MIN_EXPONENT <= x.exponent <= MAX_EXPONENT)
  }

  /** 10^e in units of 10^base. */
  function Unit(e: int, base: int): nat
    requires base <= e
  {
    Pow(10, e - base)
  }

  lemma UnitStep(e: int, base: int)
    requires base <= e
    ensures Unit(e + 1, base) == 10 * Unit(e, base) && Unit(e, base) >= 1
  {
    PowPositive(e - base);
  }

  lemma UnitMonotone(d: int, e: int, base: int)
    requires base <= d <= e
    ensures 1 <= Unit(d, base) <= Unit(e, base)
  {
    PowPositive(d - base);
    PowMonotone(d - base, e - base);
  }

  function Signed(negative: bool, magnitude: int): int {
    if negative then -magnitude else magnitude
  }

  /** The number denoted, in units of 10^base for any base below every exponent. */
  function Value(x: Number, base: int): int
    requires base <= MIN_EXPONENT && (x.mantissa == 0 || base <= x.exponent)
  {
    if x.mantissa == 0 then 0 else Signed(x.negative, x.mantissa * Unit(x.exponent, base))
  }

  // ----- the order

  /** `operator<`, branch by branch. */
  predicate Less(x: Number, y: Number) {
    if x.negative != y.negative then x.negative
    else if x.mantissa == 0 then y.mantissa > 0
    else if y.mantissa == 0 then false
    else if x.exponent > y.exponent then x.negative
    else if x.exponent < y.exponent then !x.negative
    else x.mantissa < y.mantissa
  }

  /** On normal numbers `operator<` is a strict total order consistent with `operator==`. */
  lemma LessIsStrictTotalOrder(scale: Scale, x: Number, y: Number, z: Number)
    requires IsNormal(scale, x) && IsNormal(scale, y) && IsNormal(scale, z)
    ensures !(Less(x, y) && Less(y, x))
    ensures x == y <==> !Less(x, y) && !Less(y, x)
    ensures Less(x, y) && Less(y, z) ==> Less(x, z)
  {
  }

  /** The one case in which `operator<` does not follow the numbers denoted. */
  predicate RankedByMagnitude(x: Number, y: Number) {
    x.negative && y.negative && x.exponent == y.exponent && x.mantissa != y.mantissa
  }

  lemma ProductMonotone(m: int, n: int, u: int)
    requires u >= 1
    ensures m < n <==> m * u < n * u
  {
    assert (n - m) * u == n * u - m * u;
    if m < n { MultipleAtLeast(n - m, u); }
    if m > n { assert (m - n) * u == m * u - n * u; MultipleAtLeast(m - n, u); }
  }

  /** Between two decades the exponent alone decides. */
  lemma LowerDecade(min: nat, m: nat, d: int, n: nat, e: int, base: int)
    requires base <= d < e && m < 10 * min && min <= n
    ensures m * Unit(d, base) < n * Unit(e, base)
  {
    UnitStep(d, base);
    UnitMonotone(d + 1, e, base);
    var u, w := Unit(d, base), Unit(e, base);
    ProductMonotone(m, 10 * min, u);
    assert (10 * min) * u == min * (10 * u);
    ProductAtMost(min, 10 * u, n, w);
  }

  lemma ProductAtMost(a: nat, b: nat, c: nat, d: nat)
    requires a <= c && b <= d
    ensures a * b <= c * d
  {
    assert c * d == a * b + a * (d - b) + (c - a) * d;
  }

  lemma MagnitudeOrder(scale: Scale, x: Number, y: Number, base: int)
    requires IsNormal(scale, x) && IsNormal(scale, y) && x != Zero && y != Zero && base <= MIN_EXPONENT
    ensures x.mantissa * Unit(x.exponent, base) < y.mantissa * Unit(y.exponent, base)
      <==> x.exponent < y.exponent || (x.exponent == y.exponent && x.mantissa < y.mantissa)
  {
    var min := MinMantissa(scale);
    if x.exponent < y.exponent {
      LowerDecade(min, x.mantissa, x.exponent, y.mantissa, y.exponent, base);
    } else if y.exponent < x.exponent {
      LowerDecade(min, y.mantissa, y.exponent, x.mantissa, x.exponent, base);
    } else {
      UnitMonotone(x.exponent, x.exponent, base);
      ProductMonotone(x.mantissa, y.mantissa, Unit(x.exponent, base));
    }
  }

  lemma MagnitudePositive(scale: Scale, x: Number, base: int)
    requires IsNormal(scale, x) && x != Zero && base <= MIN_EXPONENT
    ensures x.mantissa * Unit(x.exponent, base) > 0
  {
    UnitMonotone(x.exponent, x.exponent, base);
    ProductMonotone(0, x.mantissa, Unit(x.exponent, base));
  }

  /** `operator<` is the numeric order exactly outside the case ranked by magnitude. */
  lemma LessIsNumeric(scale: Scale, x: Number, y: Number, base: int)
    requires IsNormal(scale, x) && IsNormal(scale, y) && base <= MIN_EXPONENT
    ensures (Less(x, y) <==> Value(x, base) < Value(y, base)) <==> !RankedByMagnitude(x, y)
  {
    if x != Zero { MagnitudePositive(scale, x, base); }
    if y != Zero { MagnitudePositive(scale, y, base); }
    if x != Zero && y != Zero {
      MagnitudeOrder(scale, x, y, base);
      MagnitudeOrder(scale, y, x, base);
    }
  }

  /** Normal numbers are equal exactly when they denote the same value. */
  lemma EqualIsNumeric(scale: Scale, x: Number, y: Number, base: int)
    requires IsNormal(scale, x) && IsNormal(scale, y) && base <= MIN_EXPONENT
    ensures x == y <==> Value(x, base) == Value(y, base)
  {
    if x != Zero { MagnitudePositive(scale, x, base); }
    if y != Zero { MagnitudePositive(scale, y, base); }
    if x != Zero && y != Zero {
      MagnitudeOrder(scale, x, y, base);
      MagnitudeOrder(scale, y, x, base);
    }
  }

  /** -1 is ranked below -2. */
  lemma MinusOneRanksBelowMinusTwo(base: int)
    requires base <= MIN_EXPONENT
    ensures var one, two := Number(true, 1_000_000_000_000_000, -15), Number(true, 2_000_000_000_000_000, -15);
      IsNormal(Small, one) && IsNormal(Small, two) && Less(one, two) && Value(two, base) < Value(one, base)
  {
    var one, two := Number(true, 1_000_000_000_000_000, -15), Number(true, 2_000_000_000_000_000, -15);
    MagnitudeOrder(Small, one, two, base);
  }

  // ----- the external view

  /** `mantissa()`. */
  function ExternalMantissa(x: Number): int {
    Signed(x.negative, if x.mantissa > MAX_REP then x.mantissa / 10 else x.mantissa)
  }

  /** `exponent()`. */
  function ExternalExponent(x: Number): int {
    if x.mantissa > MAX_REP then x.exponent + 1 else x.exponent
  }

  /** The view fits a signed 64-bit mantissa and denotes the number itself. */
  lemma ExternalViewDenotes(scale: Scale, x: Number, base: int)
    requires IsNormal(scale, x) && base <= MIN_EXPONENT
    ensures -MAX_REP <= ExternalMantissa(x) <= MAX_REP
    ensures x == Zero ==> ExternalMantissa(x) == 0
    ensures x != Zero ==>
      ExternalExponent(x) >= base && Value(x, base) == ExternalMantissa(x) * Unit(ExternalExponent(x), base)
  {
    if x.mantissa > MAX_REP {
      UnitStep(x.exponent, base);
      TenTimes(x.mantissa / 10, Unit(x.exponent, base));
    }
    if x != Zero { SignedProduct(x.negative, x.mantissa, Unit(x.exponent, base)); }
    if x.mantissa > MAX_REP { SignedProduct(x.negative, x.mantissa / 10, Unit(x.exponent + 1, base)); }
  }

  lemma TenTimes(m: nat, u: nat)
    ensures (10 * m) * u == m * (10 * u)
  {
  }

  lemma SignedProduct(negative: bool, m: int, u: int)
    ensures Signed(negative, m * u) == Signed(negative, m) * u
  {
  }

  /** Two normal numbers with the same view are the same number. */
  lemma ExternalViewDetermines(scale: Scale, x: Number, y: Number)
    requires IsNormal(scale, x) && IsNormal(scale, y)
    requires ExternalMantissa(x) == ExternalMantissa(y) && ExternalExponent(x) == ExternalExponent(y)
    ensures x == y
  {
    var base := MIN_EXPONENT;
    ExternalViewDenotes(scale, x, base);
    ExternalViewDenotes(scale, y, base);
    EqualIsNumeric(scale, x, y, base);
  }

  // ----- negation and the extremes

  /** Unary minus. */
  function Negate(x: Number): Number {
    if x.mantissa == 0 then Zero else x.(negative := !x.negative)
  }

  lemma NegateDenotes(scale: Scale, x: Number, base: int)
    requires IsNormal(scale, x) && base <= MIN_EXPONENT
    ensures IsNormal(scale, Negate(x)) && Negate(Negate(x)) == x
    ensures Value(Negate(x), base) == -Value(x, base)
  {
  }

  function TopMantissa(scale: Scale): nat {
    if MaxMantissa(scale) < MAX_REP then MaxMantissa(scale) else MAX_REP
  }

  function Max(scale: Scale): Number {
    Number(false, TopMantissa(scale), MAX_EXPONENT)
  }

  function Lowest(scale: Scale): Number {
    Number(true, TopMantissa(scale), MAX_EXPONENT)
  }

  /**
   `max()` and `lowest()` bound the normal numbers numerically, except those
   with the top exponent and a mantissa that needs the wide internal form.
   */
  lemma ExtremesBound(scale: Scale, x: Number, base: int)
    requires IsNormal(scale, x) && base <= MIN_EXPONENT
    ensures Value(Lowest(scale), base) <= Value(x, base) <= Value(Max(scale), base)
      <==> !(x.exponent == MAX_EXPONENT && x.mantissa > MAX_REP)
  {
    var top := Max(scale);
    MagnitudePositive(scale, top, base);
    if x != Zero {
      MagnitudePositive(scale, x, base);
      MagnitudeOrder(scale, top, x, base);
    }
  }

  /** `operator<` puts every other negative number with the top exponent below `lowest()`. */
  lemma LowestIsNotLeast(scale: Scale, x: Number)
    requires IsNormal(scale, x)
    ensures Less(x, Lowest(scale)) <==>
      x.negative && x.exponent == MAX_EXPONENT && x.mantissa < TopMantissa(scale)
  {
  }
}
