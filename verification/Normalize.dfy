/**
 `doNormalize` and the guard digits of src/libxrpl/basics/Number.cpp: every
 decimal magnitude becomes a normal number, and when that number is the
 correctly rounded one.
 */
module Normalize {
  import opened Words
  import opened Numbers

  datatype Mode = ToNearest | TowardsZero | Downward | Upward

  // ----- rounding, stated on integers

  /** A remainder `rem` of a unit `u` moves the magnitude up in this mode. */
  predicate Away(mode: Mode, negative: bool, odd: bool, rem: int, u: int) {
    match mode
    case TowardsZero => false
    case Downward => negative && rem > 0
    case Upward => !negative && rem > 0
    case ToNearest => 2 * rem > u || (2 * rem == u && odd)
  }

  function Abs(x: int): int {
    if x < 0 then -x else x
  }

  /** `x`, a multiple of `u`, is the magnitude `v` rounded to that unit. */
  predicate Rounds(mode: Mode, negative: bool, odd: bool, x: int, u: int, v: int) {
    if mode == ToNearest then 2 * Abs(v - x) <= u && (2 * Abs(v - x) == u ==> !odd)
    else if (mode == Downward && negative) || (mode == Upward && !negative) then x - u < v <= x
    else x <= v < x + u
  }

  function ExternalMagnitude(x: Number): nat {
    if x.mantissa > MAX_REP then x.mantissa / 10 else x.mantissa
  }

  /** The number is `v` rounded to the last digit of its external view. */
  predicate Faithful(mode: Mode, x: Number, v: int, base: int)
    requires base <= x.exponent
  {
    var u := Unit(ExternalExponent(x), base);
    Rounds(mode, x.negative, ExternalMagnitude(x) % 2 == 1, ExternalMagnitude(x) * u, u, v)
  }

  // ----- guard digits

  /** The guard word and its sticky bit say of `rem` against `u` all that rounding asks. */
  predicate Tracks(digits: int, extra: bool, rem: int, u: int) {
    && 0 <= digits < 0x1_0000_0000_0000_0000 && 0 <= rem < u
    && (digits != 0 || extra <==> rem != 0)
    && (digits > 0x5000_0000_0000_0000 || (digits == 0x5000_0000_0000_0000 && extra) <==> 2 * rem > u)
    && (digits == 0x5000_0000_0000_0000 && !extra <==> 2 * rem == u)
  }

  lemma PushTracks(digits: int, extra: bool, d: int, rem: int, u: int)
    requires Tracks(digits, extra, rem, u) && 0 <= d < 10
    ensures Tracks(digits / 16 + d * 0x1000_0000_0000_0000, extra || digits % 16 != 0, d * u + rem, 10 * u)
  {
    assert 0 <= digits / 16 < 0x1000_0000_0000_0000;
    DigitBounds(d, rem, u);
  }

  lemma DigitBounds(d: int, rem: int, u: int)
    requires 0 <= d < 10 && 0 <= rem < u
    ensures 0 <= d * u + rem < 10 * u
    ensures d < 5 ==> 2 * (d * u + rem) < 10 * u
    ensures d == 5 ==> d * u == 5 * u
    ensures d > 5 ==> 2 * (d * u + rem) > 10 * u
    ensures d > 0 ==> d * u >= u
    ensures d == 0 ==> d * u == 0
  {
    if d > 0 { MultipleAtLeast(d, u); }
    assert (9 - d) * u == 9 * u - d * u;
    if d < 9 { MultipleAtLeast(9 - d, u); }
    assert (d - 5) * u == d * u - 5 * u;
    if d > 5 { MultipleAtLeast(d - 5, u); }
    assert (5 - d) * u == 5 * u - d * u;
    if d < 5 { MultipleAtLeast(5 - d, u); }
  }

  /** `Number::Guard`: sixteen decimal digits in hexadecimal, and a sticky bit. */
  class Guard {
    var digits: int
    var extra: bool
    var negative: bool

    constructor ()
      ensures digits == 0 && !extra && !negative
    {
      digits, extra, negative := 0, false, false;
    }

    method SetNegative()
      modifies this
      ensures digits == old(digits) && extra == old(extra) && negative
    {
      negative := true;
    }

    method Push(d: int, ghost rem: int, ghost u: int)
      requires 0 <= d < 10 && Tracks(digits, extra, rem, u)
      modifies this
      ensures Tracks(digits, extra, d * u + rem, 10 * u)
      ensures negative == old(negative)
    {
      PushTracks(digits, extra, d, rem, u);
      extra := extra || digits % 16 != 0;
      digits := digits / 16 + d * 0x1000_0000_0000_0000;
    }

    /** 1 above half, 0 at half, -1 below half; the directed modes never tie. */
    function Round(mode: Mode): int
      reads this
    {
      if mode == TowardsZero then -1
      else if mode == Downward then (if negative && (digits > 0 || extra) then 1 else -1)
      else if mode == Upward then (if negative then -1 else if digits > 0 || extra then 1 else -1)
      else if digits > 0x5000_0000_0000_0000 then 1
      else if digits < 0x5000_0000_0000_0000 then -1
      else if extra then 1
      else 0
    }

    lemma RoundIsAway(mode: Mode, odd: bool, rem: int, u: int)
      requires Tracks(digits, extra, rem, u)
      ensures Round(mode) == 1 || (Round(mode) == 0 && odd) <==> Away(mode, negative, odd, rem, u)
    {
    }
  }

  // ----- the tail of the normalization: rounding up and bringing into range

  /** `doRoundUp` with `bringIntoRange`, once the direction is known. */
  function DoRoundUp(scale: Scale, negative: bool, m: nat, e: int, away: bool): (r: Result<Number>) {
    var m1 := if away then m + 1 else m;
    var cut := away && (m1 > MaxMantissa(scale) || m1 > MAX_REP);
    var m2, e2 := if cut then m1 / 10 else m1, if cut then e + 1 else e;
    var low := m2 < MinMantissa(scale);
    var m3, e3 := if low then m2 * 10 else m2, if low then e2 - 1 else e2;
    if e3 < MIN_EXPONENT then Ok(Zero)
    else if e3 > MAX_EXPONENT then Err("overflow")
    else Ok(Number(negative, m3, e3))
  }

  /** Leading digits for which the result is 9223372036854775800, below both neighbours of `v`. */
  predicate InGap(mode: Mode, negative: bool, v: int, u: int) {
    || (&& 9_223_372_036_854_775_807 * u < v < 9_223_372_036_854_775_808 * u
        && Away(mode, negative, true, v - 9_223_372_036_854_775_807 * u, u))
    || (&& 9_223_372_036_854_775_808 * u <= v < 9_223_372_036_854_775_810 * u
        && !Away(mode, negative, false, v - 9_223_372_036_854_775_800 * u, 10 * u))
  }

  /** The magnitudes that the large scale rounds to the wrong side. */
  ghost predicate Lost(scale: Scale, mode: Mode, negative: bool, v: int, base: int)
    requires base <= MIN_EXPONENT
  {
    scale == Large && exists e :: MIN_EXPONENT <= e <= MAX_EXPONENT && InGap(mode, negative, v, Unit(e, base))
  }

  /** The magnitudes too large for the range. */
  predicate Overflows(scale: Scale, mode: Mode, negative: bool, v: int, base: int)
    requires base <= MIN_EXPONENT
  {
    var u := Unit(MAX_EXPONENT, base);
    match scale
    case Large => v >= 9_223_372_036_854_775_808 * u
    case Small =>
      v >= 9_999_999_999_999_999 * u &&
      (v >= 10_000_000_000_000_000 * u || Away(mode, negative, true, v - 9_999_999_999_999_999 * u, u))
  }

  /** The magnitudes below the smallest normal number. */
  predicate Underflows(scale: Scale, v: int, base: int)
    requires base <= MIN_EXPONENT
  {
    v < MinMantissa(scale) * Unit(MIN_EXPONENT, base)
  }

  /** All that normalization promises about a magnitude `v`. */
  ghost predicate Outcome(scale: Scale, mode: Mode, negative: bool, v: int, base: int, r: Result<Number>)
    requires base <= MIN_EXPONENT
  {
    && (r.Ok? ==> IsNormal(scale, r.value))
    && (r == Ok(Zero) <==> Underflows(scale, v, base))
    && (r.Err? <==> Overflows(scale, mode, negative, v, base))
    && (r.Ok? && r.value != Zero ==>
          && r.value.negative == negative
          && (Faithful(mode, r.value, v, base) <==> !Lost(scale, mode, negative, v, base)))
  }

  /** `v` written with leading digits `m` at exponent `e`, as a full mantissa of the scale. */
  ghost predicate Leading(scale: Scale, v: int, base: int, m: int, e: int, rem: int)
    requires base <= e
  {
    && MinMantissa(scale) <= m <= MaxMantissa(scale)
    && v == m * Unit(e, base) + rem && 0 <= rem < Unit(e, base)
  }

  lemma InDecade(scale: Scale, v: int, base: int, m: int, e: int, rem: int)
    requires base <= e && Leading(scale, v, base, m, e, rem)
    ensures MinMantissa(scale) * Unit(e, base) <= v < 10 * MinMantissa(scale) * Unit(e, base)
    ensures forall n :: m < n ==> v < Times(n, Unit(e, base))
    ensures forall n :: n <= m ==> Times(n, Unit(e, base)) <= v
  {
    var u := Unit(e, base);
    forall n ensures (m < n ==> v < Times(n, u)) && (n <= m ==> Times(n, u) <= v) {
      if m < n {
        assert n * u == m * u + (n - m) * u;
        MultipleAtLeast(n - m, u);
      } else {
        assert m * u == n * u + (m - n) * u;
        ProductAtMost(0, 0, m - n, u);
      }
    }
    assert Times(MinMantissa(scale), u) <= v;
    assert v < Times(10 * MinMantissa(scale), u);
  }

  function Times(n: int, u: int): int {
    n * u
  }

  // ----- where a magnitude lies

  /** A magnitude lies in the decade of one exponent only. */
  lemma DecadeUnique(min: nat, v: int, d: int, e: int, base: int)
    requires base <= d && base <= e
    requires min * Unit(d, base) <= v < 10 * min * Unit(d, base)
    requires min * Unit(e, base) <= v < 10 * min * Unit(e, base)
    ensures d == e
  {
    if d < e { DecadesApart(min, d, e, base); }
    if e < d { DecadesApart(min, e, d, base); }
  }

  lemma DecadesApart(min: nat, d: int, e: int, base: int)
    requires base <= d < e
    ensures 10 * min * Unit(d, base) <= min * Unit(e, base)
  {
    UnitStep(d, base);
    UnitMonotone(d + 1, e, base);
    TenTimes(min, Unit(d, base));
    ProductAtMost(min, 10 * Unit(d, base), min, Unit(e, base));
  }

  lemma DecadesOrdered(min: nat, d: int, e: int, base: int)
    requires base <= d <= e
    ensures min * Unit(d, base) <= min * Unit(e, base)
  {
    UnitMonotone(d, e, base);
    ProductAtMost(min, Unit(d, base), min, Unit(e, base));
  }

  lemma NoUnderflow(scale: Scale, v: int, base: int, m: int, e: int, rem: int)
    requires base <= MIN_EXPONENT <= e && Leading(scale, v, base, m, e, rem)
    ensures !Underflows(scale, v, base)
  {
    InDecade(scale, v, base, m, e, rem);
    DecadesOrdered(MinMantissa(scale), MIN_EXPONENT, e, base);
  }

  /** Below the top exponent nothing overflows, above it everything does. */
  lemma OverflowByExponent(scale: Scale, mode: Mode, negative: bool, v: int, base: int, m: int, e: int, rem: int)
    requires base <= MIN_EXPONENT && base <= e && Leading(scale, v, base, m, e, rem)
    ensures e < MAX_EXPONENT ==> !Overflows(scale, mode, negative, v, base)
    ensures e > MAX_EXPONENT ==> Overflows(scale, mode, negative, v, base)
  {
    InDecade(scale, v, base, m, e, rem);
    UnitMonotone(MAX_EXPONENT, MAX_EXPONENT, base);
    if e < MAX_EXPONENT { DecadesApart(MinMantissa(scale), e, MAX_EXPONENT, base); }
    if e > MAX_EXPONENT { DecadesApart(MinMantissa(scale), MAX_EXPONENT, e, base); }
  }

  lemma OverflowAtTop(scale: Scale, mode: Mode, negative: bool, v: int, base: int, m: int, rem: int)
    requires base <= MIN_EXPONENT && Leading(scale, v, base, m, MAX_EXPONENT, rem)
    ensures Overflows(scale, mode, negative, v, base) <==>
      if scale == Large then m > MAX_REP
      else m == MaxMantissa(scale) && Away(mode, negative, true, rem, Unit(MAX_EXPONENT, base))
  {
    var u := Unit(MAX_EXPONENT, base);
    InDecade(scale, v, base, m, MAX_EXPONENT, rem);
    assert Times(9_223_372_036_854_775_808, u) <= v <==> m >= 9_223_372_036_854_775_808;
    assert Times(9_999_999_999_999_999, u) <= v <==> m >= 9_999_999_999_999_999;
    assert Times(10_000_000_000_000_000, u) <= v <==> m >= 10_000_000_000_000_000;
  }

  lemma GapInDecade(mode: Mode, negative: bool, v: int, u: int)
    requires u >= 1 && InGap(mode, negative, v, u)
    ensures 1_000_000_000_000_000_000 * u <= v < 10_000_000_000_000_000_000 * u
  {
  }

  /** Of a full mantissa's own exponent, being lost can be read off. */
  lemma LostHere(mode: Mode, negative: bool, v: int, base: int, m: int, e: int, rem: int)
    requires base <= MIN_EXPONENT <= e <= MAX_EXPONENT && Leading(Large, v, base, m, e, rem)
    ensures Lost(Large, mode, negative, v, base) <==> InGap(mode, negative, v, Unit(e, base))
  {
    if Lost(Large, mode, negative, v, base) {
      var d :| MIN_EXPONENT <= d <= MAX_EXPONENT && InGap(mode, negative, v, Unit(d, base));
      UnitMonotone(d, d, base);
      GapInDecade(mode, negative, v, Unit(d, base));
      InDecade(Large, v, base, m, e, rem);
      DecadeUnique(1_000_000_000_000_000_000, v, d, e, base);
    }
  }

  lemma GapByDigits(mode: Mode, negative: bool, v: int, base: int, m: int, e: int, rem: int)
    requires base <= e && Leading(Large, v, base, m, e, rem)
    ensures InGap(mode, negative, v, Unit(e, base)) <==>
      || (m == 9_223_372_036_854_775_807 && Away(mode, negative, true, rem, Unit(e, base)))
      || (9_223_372_036_854_775_808 <= m < 9_223_372_036_854_775_810 &&
          !Away(mode, negative, false, (m - 9_223_372_036_854_775_800) * Unit(e, base) + rem, 10 * Unit(e, base)))
  {
    var u := Unit(e, base);
    InDecade(Large, v, base, m, e, rem);
    assert Times(9_223_372_036_854_775_807, u) <= v <==> m >= 9_223_372_036_854_775_807;
    assert Times(9_223_372_036_854_775_808, u) <= v <==> m >= 9_223_372_036_854_775_808;
    assert Times(9_223_372_036_854_775_810, u) <= v <==> m >= 9_223_372_036_854_775_810;
    assert (m - 9_223_372_036_854_775_800) * u == m * u - 9_223_372_036_854_775_800 * u;
  }

  // ----- rounding a full mantissa that fits 63 bits

  /** Keeping `p` or moving one unit up, whichever the mode says, rounds `p + rem`. */
  lemma StepRounds(mode: Mode, negative: bool, odd: bool, p: int, rem: int, u: int, away: bool)
    requires 0 <= rem < u && away == Away(mode, negative, odd, rem, u)
    ensures Rounds(mode, negative, odd != away, if away then p + u else p, u, p + rem)
  {
  }

  /** When the step up carries into the next decade, the coarser unit is met as well. */
  lemma CarryRounds(mode: Mode, negative: bool, p: int, rem: int, u: int)
    requires 0 <= rem < u && Away(mode, negative, true, rem, u)
    ensures Rounds(mode, negative, false, p + u, 10 * u, p + rem)
  {
  }

  /** Seven units below is not a rounding. */
  lemma FarBelow(mode: Mode, negative: bool, odd: bool, x: int, u: int, v: int)
    requires 0 < u && x + 7 * u < v
    ensures !Rounds(mode, negative, odd, x, u, v)
  {
  }

  /** A number is faithful when its view's magnitude, in its unit, rounds `v`. */
  lemma FaithfulBy(mode: Mode, x: Number, v: int, base: int, n: int, e: int)
    requires base <= x.exponent && base <= e && ExternalMagnitude(x) == n && ExternalExponent(x) == e
    ensures Faithful(mode, x, v, base) <==>
      Rounds(mode, x.negative, n % 2 == 1, Times(n, Unit(e, base)), Unit(e, base), v)
  {
  }

  /** The rounded digits, viewed at the exponent they were cut at. */
  lemma StepFaithful(mode: Mode, x: Number, v: int, base: int, m: int, e: int, rem: int, away: bool)
    requires base <= x.exponent && base <= e
    requires v == m * Unit(e, base) + rem && 0 <= rem < Unit(e, base)
    requires away == Away(mode, x.negative, m % 2 == 1, rem, Unit(e, base))
    requires ExternalMagnitude(x) == (if away then m + 1 else m) && ExternalExponent(x) == e
    ensures Faithful(mode, x, v, base)
  {
    var u := Unit(e, base);
    assert (m + 1) * u == m * u + u;
    StepRounds(mode, x.negative, m % 2 == 1, m * u, rem, u, away);
    FaithfulBy(mode, x, v, base, if away then m + 1 else m, e);
  }

  /** All digits nine: the step up is one in the next decade. */
  lemma CarryFaithful(mode: Mode, x: Number, v: int, base: int, min: int, e: int, rem: int)
    requires base <= e && x.mantissa == min <= MAX_REP && min % 2 == 0 && x.exponent == e + 1
    requires v == (10 * min - 1) * Unit(e, base) + rem && 0 <= rem < Unit(e, base)
    requires Away(mode, x.negative, true, rem, Unit(e, base))
    ensures Faithful(mode, x, v, base)
  {
    var u := Unit(e, base);
    UnitStep(e, base);
    TenTimes(min, u);
    assert (10 * min - 1) * u == (10 * min) * u - u;
    CarryRounds(mode, x.negative, (10 * min - 1) * u, rem, u);
    FaithfulBy(mode, x, v, base, min, e + 1);
  }

  lemma GapUnfaithful(mode: Mode, x: Number, v: int, base: int, m: int, e: int, rem: int)
    requires base <= e && x.mantissa == 9_223_372_036_854_775_800 && x.exponent == e
    requires v == m * Unit(e, base) + rem && 0 <= rem < Unit(e, base)
    requires m > 9_223_372_036_854_775_807 || (m == 9_223_372_036_854_775_807 && rem > 0)
    ensures !Faithful(mode, x, v, base)
  {
    var u := Unit(e, base);
    assert m * u == 9_223_372_036_854_775_807 * u + (m - 9_223_372_036_854_775_807) * u;
    if m > 9_223_372_036_854_775_807 { MultipleAtLeast(m - 9_223_372_036_854_775_807, u); }
    FarBelow(mode, x.negative, false, 9_223_372_036_854_775_800 * u, u, v);
    FaithfulBy(mode, x, v, base, 9_223_372_036_854_775_800, e);
  }

  /** What the tail makes of a full mantissa that fits 63 bits. */
  lemma DirectResult(scale: Scale, negative: bool, m: int, e: int, away: bool)
    requires MIN_EXPONENT <= e && MinMantissa(scale) <= m <= MaxMantissa(scale) && m <= MAX_REP
    ensures DoRoundUp(scale, negative, m, e, away) ==
      if away && m == MaxMantissa(scale) then
        (if e + 1 > MAX_EXPONENT then Err("overflow") else Ok(Number(negative, MinMantissa(scale), e + 1)))
      else if e > MAX_EXPONENT then Err("overflow")
      else if away && m == MAX_REP then Ok(Number(negative, 9_223_372_036_854_775_800, e))
      else Ok(Number(negative, if away then m + 1 else m, e))
  {
  }

  lemma DirectFaithful(
    scale: Scale, mode: Mode, negative: bool, v: int, base: int, m: int, e: int, rem: int, away: bool)
    requires base <= MIN_EXPONENT <= e && Leading(scale, v, base, m, e, rem) && m <= MAX_REP
    requires away == Away(mode, negative, m % 2 == 1, rem, Unit(e, base))
    requires DoRoundUp(scale, negative, m, e, away).Ok?
    ensures var x := DoRoundUp(scale, negative, m, e, away).value;
      && x != Zero && IsNormal(scale, x) && x.negative == negative
      && (Faithful(mode, x, v, base) <==> !(m == MAX_REP && away))
  {
    DirectResult(scale, negative, m, e, away);
    var x := DoRoundUp(scale, negative, m, e, away).value;
    if away && m == MaxMantissa(scale) {
      CarryFaithful(mode, x, v, base, MinMantissa(scale), e, rem);
    } else if away && m == MAX_REP {
      GapUnfaithful(mode, x, v, base, m, e, rem);
    } else {
      StepFaithful(mode, x, v, base, m, e, rem, away);
    }
  }

  lemma DirectLost(
    scale: Scale, mode: Mode, negative: bool, v: int, base: int, m: int, e: int, rem: int, away: bool)
    requires base <= MIN_EXPONENT <= e <= MAX_EXPONENT && Leading(scale, v, base, m, e, rem) && m <= MAX_REP
    requires away == Away(mode, negative, m % 2 == 1, rem, Unit(e, base))
    ensures Lost(scale, mode, negative, v, base) <==> m == MAX_REP && away
  {
    if scale == Large {
      LostHere(mode, negative, v, base, m, e, rem);
      GapByDigits(mode, negative, v, base, m, e, rem);
    }
  }

  lemma DirectOverflow(
    scale: Scale, mode: Mode, negative: bool, v: int, base: int, m: int, e: int, rem: int, away: bool)
    requires base <= MIN_EXPONENT <= e && Leading(scale, v, base, m, e, rem) && m <= MAX_REP
    requires away == Away(mode, negative, m % 2 == 1, rem, Unit(e, base))
    ensures DoRoundUp(scale, negative, m, e, away).Err? <==> Overflows(scale, mode, negative, v, base)
  {
    DirectResult(scale, negative, m, e, away);
    OverflowByExponent(scale, mode, negative, v, base, m, e, rem);
    if e == MAX_EXPONENT { OverflowAtTop(scale, mode, negative, v, base, m, rem); }
  }

  lemma DirectOutcome(
    scale: Scale, mode: Mode, negative: bool, v: int, base: int, m: int, e: int, rem: int, away: bool)
    requires base <= MIN_EXPONENT <= e && Leading(scale, v, base, m, e, rem) && m <= MAX_REP
    requires away == Away(mode, negative, m % 2 == 1, rem, Unit(e, base))
    ensures Outcome(scale, mode, negative, v, base, DoRoundUp(scale, negative, m, e, away))
  {
    NoUnderflow(scale, v, base, m, e, rem);
    DirectOverflow(scale, mode, negative, v, base, m, e, rem, away);
    DirectResult(scale, negative, m, e, away);
    if DoRoundUp(scale, negative, m, e, away).Ok? {
      DirectFaithful(scale, mode, negative, v, base, m, e, rem, away);
      DirectLost(scale, mode, negative, v, base, m, e, rem, away);
    }
  }

  // ----- rounding a full mantissa that does not

  lemma ShiftedResult(negative: bool, m: int, e: int, away: bool)
    requires MIN_EXPONENT <= e < MAX_EXPONENT && MAX_REP < m <= MaxMantissa(Large)
    ensures DoRoundUp(Large, negative, m / 10, e + 1, away) == Ok(
      if away && m / 10 + 1 == MinMantissa(Large) then Number(negative, MinMantissa(Large), e + 1)
      else Number(negative, 10 * (if away then m / 10 + 1 else m / 10), e))
  {
  }

  lemma ShiftedFaithful(
    mode: Mode, negative: bool, v: int, base: int, m: int, e: int, rem: int, away: bool)
    requires base <= MIN_EXPONENT <= e < MAX_EXPONENT && Leading(Large, v, base, m, e, rem) && m > MAX_REP
    requires away == Away(mode, negative, (m / 10) % 2 == 1, (m % 10) * Unit(e, base) + rem, 10 * Unit(e, base))
    requires DoRoundUp(Large, negative, m / 10, e + 1, away).Ok?
    ensures var x := DoRoundUp(Large, negative, m / 10, e + 1, away).value;
      && x != Zero && IsNormal(Large, x) && x.negative == negative
      && (Faithful(mode, x, v, base) <==> !(m < 9_223_372_036_854_775_810 && !away))
  {
    ShiftedResult(negative, m, e, away);
    var x := DoRoundUp(Large, negative, m / 10, e + 1, away).value;
    if m < 9_223_372_036_854_775_810 && !away {
      GapUnfaithful(mode, x, v, base, m, e, rem);
    } else {
      UnitStep(e, base);
      DigitBounds(m % 10, rem, Unit(e, base));
      SplitDigit(m, Unit(e, base));
      StepFaithful(mode, x, v, base, m / 10, e + 1, (m % 10) * Unit(e, base) + rem, away);
    }
  }

  lemma ShiftedLost(
    mode: Mode, negative: bool, v: int, base: int, m: int, e: int, rem: int, away: bool)
    requires base <= MIN_EXPONENT <= e < MAX_EXPONENT && Leading(Large, v, base, m, e, rem) && m > MAX_REP
    requires away == Away(mode, negative, (m / 10) % 2 == 1, (m % 10) * Unit(e, base) + rem, 10 * Unit(e, base))
    ensures Lost(Large, mode, negative, v, base) <==> m < 9_223_372_036_854_775_810 && !away
  {
    LostHere(mode, negative, v, base, m, e, rem);
    GapByDigits(mode, negative, v, base, m, e, rem);
  }

  lemma SplitDigit(m: int, u: int)
    ensures m * u == (m / 10) * (10 * u) + (m % 10) * u
  {
    var d, r := m / 10, m % 10;
    assert (10 * d + r) * u == d * (10 * u) + r * u;
  }

  lemma ShiftedOutcome(
    mode: Mode, negative: bool, v: int, base: int, m: int, e: int, rem: int, away: bool)
    requires base <= MIN_EXPONENT <= e < MAX_EXPONENT && Leading(Large, v, base, m, e, rem) && m > MAX_REP
    requires away == Away(mode, negative, (m / 10) % 2 == 1, (m % 10) * Unit(e, base) + rem, 10 * Unit(e, base))
    ensures Outcome(Large, mode, negative, v, base, DoRoundUp(Large, negative, m / 10, e + 1, away))
  {
    ShiftedResult(negative, m, e, away);
    ShiftedFaithful(mode, negative, v, base, m, e, rem, away);
    ShiftedLost(mode, negative, v, base, m, e, rem, away);
    NoUnderflow(Large, v, base, m, e, rem);
    OverflowByExponent(Large, mode, negative, v, base, m, e, rem);
  }

  // ----- the loops

  lemma ThrowOverflows(scale: Scale, mode: Mode, negative: bool, v: int, base: int, m: int, e: int, rem: int)
    requires base <= MIN_EXPONENT && MAX_EXPONENT <= e && m > MaxMantissa(scale) && rem >= 0
    requires v == m * Unit(e, base) + rem
    ensures Overflows(scale, mode, negative, v, base) && !Underflows(scale, v, base)
  {
    var min := MinMantissa(scale);
    UnitMonotone(MAX_EXPONENT, e, base);
    ProductAtMost(10 * min, Unit(MAX_EXPONENT, base), m, Unit(e, base));
    DecadesOrdered(min, MIN_EXPONENT, MAX_EXPONENT, base);
    TenFold(min, Unit(MAX_EXPONENT, base));
  }

  lemma FlushUnderflows(scale: Scale, mode: Mode, negative: bool, v: int, base: int, m: int, e: int, rem: int)
    requires base <= MIN_EXPONENT && base <= e && 0 <= m <= MaxMantissa(scale) && 0 <= rem < Unit(e, base)
    requires e < MIN_EXPONENT || (e == MIN_EXPONENT && m < MinMantissa(scale))
    requires v == m * Unit(e, base) + rem
    ensures Underflows(scale, v, base) && !Overflows(scale, mode, negative, v, base)
  {
    var min, u := MinMantissa(scale), Unit(e, base);
    assert (m + 1) * u == m * u + u;
    if e < MIN_EXPONENT {
      DecadesApart(min, e, MIN_EXPONENT, base);
      ProductAtMost(m + 1, u, 10 * min, u);
    } else {
      ProductAtMost(m + 1, u, min, u);
    }
    DecadesOrdered(min, MIN_EXPONENT, MAX_EXPONENT, base);
    UnitMonotone(MAX_EXPONENT, MAX_EXPONENT, base);
  }

  /** The first loop: multiply by ten until the mantissa is full or the exponent lowest. */
  method ScaleUp(scale: Scale, mantissa: nat, exponent: int, ghost base: int) returns (m: nat, e: int)
    requires base <= MIN_EXPONENT && base <= exponent
    ensures base <= e && m * Unit(e, base) == mantissa * Unit(exponent, base)
    ensures m >= MinMantissa(scale) || e <= MIN_EXPONENT
    ensures mantissa >= MinMantissa(scale) ==> m == mantissa && e == exponent
  {
    m, e := mantissa, exponent;
    while m < MinMantissa(scale) && e > MIN_EXPONENT
      invariant base <= e && m * Unit(e, base) == mantissa * Unit(exponent, base)
      invariant mantissa >= MinMantissa(scale) ==> m == mantissa && e == exponent
      decreases e - MIN_EXPONENT
    {
      UnitStep(e - 1, base);
      TenTimes(m, Unit(e - 1, base));
      m := m * 10;
      e := e - 1;
    }
  }

  /** Dropping one digit keeps `v` split into leading digits and remainder. */
  lemma DropDigit(v: int, m: int, e: int, rem: int, base: int)
    requires base <= e && v == m * Unit(e, base) + rem
    ensures v == (m / 10) * Unit(e + 1, base) + ((m % 10) * Unit(e, base) + rem)
    ensures Unit(e + 1, base) == 10 * Unit(e, base)
  {
    UnitStep(e, base);
    SplitDigit(m, Unit(e, base));
  }

  /** The second loop: drop digits into the guard until the mantissa is in range. */
  method ScaleDown(g: Guard, scale: Scale, mantissa: nat, exponent: int, ghost v: int, ghost base: int)
      returns (thrown: bool, m: nat, e: int, ghost rem: int)
    requires base <= exponent && v == mantissa * Unit(exponent, base)
    requires Tracks(g.digits, g.extra, 0, Unit(exponent, base))
    modifies g
    ensures g.negative == old(g.negative)
    ensures base <= e && v == m * Unit(e, base) + rem && Tracks(g.digits, g.extra, rem, Unit(e, base))
    ensures thrown ==> m > MaxMantissa(scale) && e >= MAX_EXPONENT
    ensures !thrown ==> m <= MaxMantissa(scale)
    ensures (m == mantissa && e == exponent && rem == 0) || m >= MinMantissa(scale)
    ensures mantissa <= MaxMantissa(scale) ==> m == mantissa && e == exponent && rem == 0
  {
    m, e, rem := mantissa, exponent, 0;
    while m > MaxMantissa(scale)
      invariant g.negative == old(g.negative)
      invariant base <= e && v == m * Unit(e, base) + rem && Tracks(g.digits, g.extra, rem, Unit(e, base))
      invariant (m == mantissa && e == exponent && rem == 0) || m >= MinMantissa(scale)
      invariant mantissa <= MaxMantissa(scale) ==> m == mantissa && e == exponent && rem == 0
    {
      if e >= MAX_EXPONENT { return true, m, e, rem; }
      DropDigit(v, m, e, rem, base);
      g.Push(m % 10, rem, Unit(e, base));
      rem := (m % 10) * Unit(e, base) + rem;
      m := m / 10;
      e := e + 1;
    }
    thrown := false;
  }

  predicate Settled(scale: Scale, x: Number) {
    IsNormal(scale, x) && x != Zero && (x.mantissa <= MAX_REP || x.exponent < MAX_EXPONENT)
  }

  /**
   `doNormalize`: the magnitude `mantissa * 10^exponent` becomes a normal
   number, zero exactly below the smallest one, an error exactly above the
   largest, and faithfully rounded unless it is one of the lost magnitudes.
   */
  method DoNormalize(scale: Scale, mode: Mode, negative: bool, mantissa: nat, exponent: int, ghost base: int)
      returns (r: Result<Number>)
    requires base <= MIN_EXPONENT && base <= exponent
    ensures Outcome(scale, mode, negative, mantissa * Unit(exponent, base), base, r)
    ensures Settled(scale, Number(negative, mantissa, exponent)) ==> r == Ok(Number(negative, mantissa, exponent))
  {
    ghost var v := mantissa * Unit(exponent, base);
    if mantissa == 0 {
      ZeroUnderflows(scale, mode, negative, base);
      return Ok(Zero);
    }
    var m, e := ScaleUp(scale, mantissa, exponent, base);
    var g := new Guard();
    if negative { g.SetNegative(); }
    UnitMonotone(e, e, base);
    var thrown;
    ghost var rem;
    thrown, m, e, rem := ScaleDown(g, scale, m, e, v, base);
    if thrown {
      ThrowOverflows(scale, mode, negative, v, base, m, e, rem);
      return Err("Number::normalize 1");
    }
    if e < MIN_EXPONENT || m < MinMantissa(scale) {
      FlushUnderflows(scale, mode, negative, v, base, m, e, rem);
      return Ok(Zero);
    }
    r := RoundLeading(g, scale, mode, negative, m, e, rem, v, base);
  }

  lemma ZeroUnderflows(scale: Scale, mode: Mode, negative: bool, base: int)
    requires base <= MIN_EXPONENT
    ensures Underflows(scale, 0, base) && !Overflows(scale, mode, negative, 0, base)
  {
    UnitMonotone(MIN_EXPONENT, MIN_EXPONENT, base);
    UnitMonotone(MAX_EXPONENT, MAX_EXPONENT, base);
    ProductMonotone(0, MinMantissa(scale), Unit(MIN_EXPONENT, base));
  }

  /** A mantissa over 63 bits gives up one more digit before it is rounded. */
  method RoundShifted(
    g: Guard, mode: Mode, negative: bool, m: nat, e: int, ghost rem: int, ghost v: int, ghost base: int)
      returns (r: Result<Number>)
    requires base <= MIN_EXPONENT <= e < MAX_EXPONENT && Leading(Large, v, base, m, e, rem) && m > MAX_REP
    requires g.negative == negative && Tracks(g.digits, g.extra, rem, Unit(e, base))
    modifies g
    ensures Outcome(Large, mode, negative, v, base, r)
    ensures rem == 0 && m % 10 == 0 ==> r == Ok(Number(negative, m, e))
  {
    g.Push(m % 10, rem, Unit(e, base));
    var round := g.Round(mode);
    g.RoundIsAway(mode, (m / 10) % 2 == 1, (m % 10) * Unit(e, base) + rem, 10 * Unit(e, base));
    var away := round == 1 || (round == 0 && (m / 10) % 2 == 1);
    ShiftedOutcome(mode, negative, v, base, m, e, rem, away);
    ShiftedResult(negative, m, e, away);
    r := DoRoundUp(Large, negative, m / 10, e + 1, away);
  }

  /** From the cut to 63 bits on. */
  method RoundLeading(
    g: Guard, scale: Scale, mode: Mode, negative: bool, m: nat, e: int, ghost rem: int, ghost v: int, ghost base: int)
      returns (r: Result<Number>)
    requires base <= MIN_EXPONENT <= e && Leading(scale, v, base, m, e, rem)
    requires g.negative == negative && Tracks(g.digits, g.extra, rem, Unit(e, base))
    modifies g
    ensures Outcome(scale, mode, negative, v, base, r)
    ensures rem == 0 && Settled(scale, Number(negative, m, e)) ==> r == Ok(Number(negative, m, e))
  {
    if m > MAX_REP {
      if e >= MAX_EXPONENT {
        NoUnderflow(scale, v, base, m, e, rem);
        OverflowByExponent(scale, mode, negative, v, base, m, e, rem);
        if e == MAX_EXPONENT { OverflowAtTop(scale, mode, negative, v, base, m, rem); }
        return Err("Number::normalize 1.5");
      }
      r := RoundShifted(g, mode, negative, m, e, rem, v, base);
      return;
    }
    var round := g.Round(mode);
    g.RoundIsAway(mode, m % 2 == 1, rem, Unit(e, base));
    var away := round == 1 || (round == 0 && m % 2 == 1);
    DirectOutcome(scale, mode, negative, v, base, m, e, rem, away);
    DirectResult(scale, negative, m, e, away);
    return DoRoundUp(scale, negative, m, e, away);
  }

  /** Both kinds of lost magnitude occur: 2^63 - 0.1 to nearest, and 2^63 towards zero. */
  lemma LostExamples(base: int)
    requires base <= MIN_EXPONENT
    ensures Lost(Large, ToNearest, false, 92_233_720_368_547_758_079 * Unit(-1, base), base)
    ensures Lost(Large, TowardsZero, false, 9_223_372_036_854_775_808 * Unit(0, base), base)
    ensures DoRoundUp(Large, false, MAX_REP, 0, true) == Ok(Number(false, 9_223_372_036_854_775_800, 0))
    ensures DoRoundUp(Large, false, 922_337_203_685_477_580, 1, false) == Ok(Number(false, 9_223_372_036_854_775_800, 0))
  {
    UnitStep(-1, base);
    assert InGap(ToNearest, false, 92_233_720_368_547_758_079 * Unit(-1, base), Unit(0, base));
    assert InGap(TowardsZero, false, 9_223_372_036_854_775_808 * Unit(0, base), Unit(0, base));
    DirectResult(Large, false, MAX_REP, 0, true);
    ShiftedResult(false, MAX_REP + 1, 0, false);
  }
}
