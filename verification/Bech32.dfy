/**
 The bech32 checksum and 8-to-5-bit regrouping of P2WSH addresses (BIP 173).

 Registers are unbounded naturals, as Python's integers are.
 */
module Bech32 {
  import opened Words

  // ----- exclusive or

  function Xor(a: nat, b: nat): nat {
    if a == 0 then b else if b == 0 then a else (a + b) % 2 + 2 * Xor(a / 2, b / 2)
  }

  lemma BitAndHalf(bit: nat, half: nat)
    requires bit < 2
    ensures (bit + 2 * half) % 2 == bit && (bit + 2 * half) / 2 == half
  {
    DivModUnique(bit + 2 * half, 2, half, bit);
  }

  lemma {:induction false} XorStep(a: nat, b: nat)
    ensures Xor(a, b) % 2 == (a + b) % 2 && Xor(a, b) / 2 == Xor(a / 2, b / 2)
  {
    if a != 0 && b != 0 { BitAndHalf((a + b) % 2, Xor(a / 2, b / 2)); }
  }

  lemma {:induction false} XorCommutes(a: nat, b: nat)
    ensures Xor(a, b) == Xor(b, a)
  {
    if a != 0 && b != 0 { XorCommutes(a / 2, b / 2); }
  }

  lemma {:induction false} XorSelf(a: nat)
    ensures Xor(a, a) == 0
  {
    if a != 0 { XorSelf(a / 2); }
  }

  lemma {:induction false} XorAssociates(a: nat, b: nat, c: nat)
    ensures Xor(Xor(a, b), c) == Xor(a, Xor(b, c))
  {
    if a != 0 && b != 0 && c != 0 {
      var l, r := Xor(a, b), Xor(b, c);
      XorStep(a, b);
      XorStep(b, c);
      XorAssociates(a / 2, b / 2, c / 2);
      SameParity(a, b, c, l, r);
      XorStep(l, c);
      XorStep(a, r);
      HalvesEqual(Xor(l, c), Xor(a, r));
    }
  }

  lemma SameParity(a: nat, b: nat, c: nat, l: nat, r: nat)
    requires l % 2 == (a + b) % 2 && r % 2 == (b + c) % 2
    ensures (l + c) % 2 == (a + r) % 2
  {
  }

  lemma HalvesEqual(a: nat, b: nat)
    requires a / 2 == b / 2 && a % 2 == b % 2
    ensures a == b
  {
  }

  lemma XorInterchange(a: nat, b: nat, c: nat, d: nat)
    ensures Xor(Xor(a, b), Xor(c, d)) == Xor(Xor(a, c), Xor(b, d))
  {
    XorAssociates(a, b, Xor(c, d));
    XorAssociates(b, c, d);
    XorCommutes(b, c);
    XorAssociates(c, b, d);
    XorAssociates(a, c, Xor(b, d));
  }

  lemma {:induction false} XorBounded(a: nat, b: nat, k: nat)
    requires a < Pow2(k) && b < Pow2(k)
    ensures Xor(a, b) < Pow2(k)
  {
    if a != 0 && b != 0 { XorBounded(a / 2, b / 2, k - 1); }
  }

  // ----- masks and shifts, one bit at a time

  /** `a & (2^k - 1)`. */
  function Low(a: nat, k: nat): nat {
    if k == 0 then 0 else a % 2 + 2 * Low(a / 2, k - 1)
  }

  /** `a >> k`. */
  function High(a: nat, k: nat): nat {
    if k == 0 then a else High(a / 2, k - 1)
  }

  lemma XorIs(a: nat, b: nat, x: nat)
    requires x % 2 == (a + b) % 2 && x / 2 == Xor(a / 2, b / 2)
    ensures x == Xor(a, b)
  {
    XorStep(a, b);
    HalvesEqual(x, Xor(a, b));
  }

  lemma LowStep(a: nat, k: nat)
    requires k != 0
    ensures Low(a, k) % 2 == a % 2 && Low(a, k) / 2 == Low(a / 2, k - 1)
  {
    BitAndHalf(a % 2, Low(a / 2, k - 1));
  }

  lemma ParityOfParts(a: nat, b: nat, l: nat, m: nat)
    requires l % 2 == a % 2 && m % 2 == b % 2
    ensures (l + m) % 2 == (a + b) % 2
  {
  }

  lemma {:induction false} LowOfXor(a: nat, b: nat, k: nat)
    ensures Low(Xor(a, b), k) == Xor(Low(a, k), Low(b, k))
  {
    if k != 0 {
      XorStep(a, b);
      LowOfXor(a / 2, b / 2, k - 1);
      LowStep(a, k);
      LowStep(b, k);
      LowStep(Xor(a, b), k);
      ParityOfParts(a, b, Low(a, k), Low(b, k));
      XorIs(Low(a, k), Low(b, k), Low(Xor(a, b), k));
    }
  }

  lemma {:induction false} HighOfXor(a: nat, b: nat, k: nat)
    ensures High(Xor(a, b), k) == Xor(High(a, k), High(b, k))
  {
    if k != 0 {
      XorStep(a, b);
      HighOfXor(a / 2, b / 2, k - 1);
    }
  }

  lemma EvenIsDouble(x: nat, half: nat)
    requires x % 2 == 0 && x / 2 == half
    ensures x == 2 * half
  {
  }

  lemma DoubleOfXor(a: nat, b: nat)
    ensures 2 * Xor(a, b) == Xor(2 * a, 2 * b)
  {
    var x := Xor(2 * a, 2 * b);
    BitAndHalf(0, a);
    BitAndHalf(0, b);
    BitAndHalf(0, a + b);
    XorStep(2 * a, 2 * b);
    EvenIsDouble(x, Xor(a, b));
  }

  lemma ShiftOfXor(a: nat, b: nat)
    ensures 32 * Xor(a, b) == Xor(32 * a, 32 * b)
  {
    var a1, b1 := 2 * a, 2 * b;
    var a2, b2 := 2 * a1, 2 * b1;
    var a3, b3 := 2 * a2, 2 * b2;
    var a4, b4 := 2 * a3, 2 * b3;
    DoubleOfXor(a, b);
    DoubleOfXor(a1, b1);
    DoubleOfXor(a2, b2);
    DoubleOfXor(a3, b3);
    DoubleOfXor(a4, b4);
  }

  lemma {:induction false} SmallNumber(a: nat, k: nat)
    ensures a < Pow2(k) ==> Low(a, k) == a && High(a, k) == 0
    ensures Low(a, k) < Pow2(k)
  {
    if k != 0 { SmallNumber(a / 2, k - 1); }
  }

  lemma {:induction false} HighOfHigh(a: nat, j: nat, k: nat)
    ensures High(High(a, j), k) == High(a, j + k)
  {
    if j != 0 { HighOfHigh(a / 2, j - 1, k); }
  }

  /** A five-bit digit in front of which `h` stands. */
  lemma SplitFive(a: nat, h: nat, v: nat)
    ensures a == 32 * High(a, 5) + Low(a, 5) && Low(a, 5) < 32
    ensures a == 32 * h + v && v < 32 ==> High(a, 5) == h && Low(a, 5) == v
  {
    var a1 := a / 2;
    var a2 := a1 / 2;
    var a3 := a2 / 2;
    var a4 := a3 / 2;
    var a5 := a4 / 2;
    assert High(a, 5) == High(a1, 4) == High(a2, 3) == High(a3, 2) == High(a4, 1) == a5;
    assert Low(a4, 1) == a4 % 2;
    assert Low(a3, 2) == a3 % 2 + 2 * (a4 % 2);
    assert Low(a2, 3) == a2 % 2 + 2 * Low(a3, 2);
    assert Low(a1, 4) == a1 % 2 + 2 * Low(a2, 3);
    assert Low(a, 5) == a % 2 + 2 * Low(a1, 4);
  }

  // ----- checksum

  /** The register keeps this many bits when five more are shifted in. */
  const TOP: nat := 25

  function Generator(i: nat): nat
    requires i < 5
  {
    match i
    case 0 => 0x3B6A57B2
    case 1 => 0x26508E6D
    case 2 => 0x1EA119FA
    case 3 => 0x3D4233DD
    case 4 => 0x2A1462B3
  }

  /** Generator `i` if bit `i` of `b` is set. */
  function Gated(b: nat, i: nat): nat
    requires i < 5
  {
    if High(b, i) % 2 == 1 then Generator(i) else 0
  }

  /** What the first `n` iterations of the inner loop xor in. */
  function Feedback(b: nat, n: nat): nat
    requires n <= 5
  {
    if n == 0 then 0 else Xor(Feedback(b, n - 1), Gated(b, n - 1))
  }

  function Absorb(chk: nat, v: nat): nat {
    Xor(Xor(32 * Low(chk, TOP), v), Feedback(High(chk, TOP), 5))
  }

  function Fold(chk: nat, values: seq<nat>): nat
    decreases |values|
  {
    if values == [] then chk else Fold(Absorb(chk, values[0]), values[1..])
  }

  /** `_bech32_polymod`. */
  method Polymod(values: seq<nat>) returns (chk: nat)
    ensures chk == Fold(1, values)
  {
    chk := 1;
    assert values[0..] == values;
    for k := 0 to |values|
      invariant Fold(chk, values[k..]) == Fold(1, values)
    {
      ghost var before := chk;
      assert values[k..][1..] == values[k + 1..];
      var b := High(chk, TOP);
      chk := Xor(32 * Low(chk, TOP), values[k]);
      ghost var start := chk;
      for i := 0 to 5
        invariant chk == Xor(start, Feedback(b, i))
      {
        XorAssociates(start, Feedback(b, i), Gated(b, i));
        chk := Xor(chk, if High(b, i) % 2 == 1 then Generator(i) else 0);
      }
      assert chk == Absorb(before, values[k]);
    }
  }

  lemma GateOnParity(p: nat, q: nat, x: nat, g: nat)
    requires x % 2 == (p + q) % 2
    ensures (if x % 2 == 1 then g else 0) == Xor(if p % 2 == 1 then g else 0, if q % 2 == 1 then g else 0)
  {
    XorSelf(g);
    XorCommutes(g, 0);
  }

  lemma GatedLinear(b: nat, d: nat, i: nat)
    requires i < 5
    ensures Gated(Xor(b, d), i) == Xor(Gated(b, i), Gated(d, i))
  {
    HighOfXor(b, d, i);
    XorStep(High(b, i), High(d, i));
    GateOnParity(High(b, i), High(d, i), High(Xor(b, d), i), Generator(i));
  }

  lemma {:induction false} FeedbackLinear(b: nat, d: nat, n: nat)
    requires n <= 5
    ensures Feedback(Xor(b, d), n) == Xor(Feedback(b, n), Feedback(d, n))
  {
    if n != 0 {
      FeedbackLinear(b, d, n - 1);
      GatedLinear(b, d, n - 1);
      XorInterchange(Feedback(b, n - 1), Feedback(d, n - 1), Gated(b, n - 1), Gated(d, n - 1));
    }
  }

  /** One step of the checksum is linear over xor. */
  lemma AbsorbLinear(c: nat, d: nat, v: nat, w: nat)
    ensures Absorb(Xor(c, d), Xor(v, w)) == Xor(Absorb(c, v), Absorb(d, w))
  {
    LowOfXor(c, d, TOP);
    HighOfXor(c, d, TOP);
    ShiftOfXor(Low(c, TOP), Low(d, TOP));
    FeedbackLinear(High(c, TOP), High(d, TOP), 5);
    var s, t := 32 * Low(c, TOP), 32 * Low(d, TOP);
    XorInterchange(s, t, v, w);
    XorInterchange(Xor(s, v), Xor(t, w), Feedback(High(c, TOP), 5), Feedback(High(d, TOP), 5));
  }

  function Zeros(n: nat): (r: seq<nat>)
    ensures |r| == n
  {
    if n == 0 then [] else [0] + Zeros(n - 1)
  }

  /** The checksum of a mixed register splits into the parts that came from the register and from the values. */
  lemma {:induction false} FoldSplits(c: nat, d: nat, values: seq<nat>)
    ensures Fold(Xor(c, d), values) == Xor(Fold(c, Zeros(|values|)), Fold(d, values))
    decreases |values|
  {
    if values != [] {
      AbsorbLinear(c, d, 0, values[0]);
      FoldSplits(Absorb(c, 0), Absorb(d, values[0]), values[1..]);
      assert Zeros(|values|)[1..] == Zeros(|values| - 1);
    }
  }

  lemma {:induction false} FoldAppend(c: nat, xs: seq<nat>, ys: seq<nat>)
    ensures Fold(c, xs + ys) == Fold(Fold(c, xs), ys)
    decreases |xs|
  {
    if xs == [] {
      assert xs + ys == ys;
    } else {
      assert (xs + ys)[1..] == xs[1..] + ys;
      FoldAppend(Absorb(c, xs[0]), xs[1..], ys);
    }
  }

  predicate FiveBit(values: seq<nat>) {
    forall k :: 0 <= k < |values| ==> values[k] < 32
  }

  /** Digits appended to a number in base 32. */
  function Base32(acc: nat, digits: seq<nat>): nat
    decreases |digits|
  {
    if digits == [] then acc else Base32(32 * acc + digits[0], digits[1..])
  }

  lemma DoubleThenFill(a: nat, v: nat)
    ensures Xor(2 * a, v) == 2 * Xor(a, v / 2) + v % 2
  {
    XorIs(2 * a, v, 2 * Xor(a, v / 2) + v % 2);
  }

  lemma ShiftThenFill(c: nat, v: nat)
    requires v < 32
    ensures Xor(32 * c, v) == 32 * c + v
  {
    var v1 := v / 2;
    var v2 := v1 / 2;
    var v3 := v2 / 2;
    var v4 := v3 / 2;
    var c1 := 2 * c;
    var c2 := 2 * c1;
    var c3 := 2 * c2;
    var c4 := 2 * c3;
    assert v4 / 2 == 0;
    DoubleThenFill(c, v4);
    DoubleThenFill(c1, v3);
    DoubleThenFill(c2, v2);
    DoubleThenFill(c3, v1);
    DoubleThenFill(c4, v);
    XorCommutes(c, 0);
  }

  lemma PowersOfTwo()
    ensures Pow2(5) == 32 && Pow2(TOP) == 0x200_0000 && Pow2(30) == 0x4000_0000
  {
    assert Pow2(10) == 1024;
    assert Pow2(15) == 1024 * 32;
    assert Pow2(20) == 1024 * 1024;
    assert Pow2(25) == 1024 * 1024 * 32;
  }

  lemma NoFeedback(n: nat)
    requires n <= 5
    ensures Feedback(0, n) == 0
  {
    if n != 0 { NoFeedback(n - 1); SmallNumber(0, n - 1); }
  }

  lemma AbsorbSmall(acc: nat, v: nat)
    requires acc < Pow2(TOP) && v < 32
    ensures Absorb(acc, v) == 32 * acc + v
  {
    SmallNumber(acc, TOP);
    NoFeedback(5);
    ShiftThenFill(acc, v);
    XorCommutes(32 * acc + v, 0);
  }

  lemma FoldStep(acc: nat, digits: seq<nat>, next: nat)
    requires digits != [] && Absorb(acc, digits[0]) == next && next == 32 * acc + digits[0]
    ensures Fold(acc, digits) == Fold(next, digits[1..])
    ensures Base32(acc, digits) == Base32(next, digits[1..])
  {
  }

  lemma RoomForDigit(acc: nat, used: nat, digit: nat)
    requires acc < Pow2(5 * used) && digit < 32
    ensures 32 * acc + digit < Pow2(5 * (used + 1))
  {
    Pow2OfSum(5 * used);
  }

  /** Before the register fills up, absorbing five-bit values only shifts them in; `used` have been. */
  lemma {:induction false} FoldOfDigits(acc: nat, used: nat, digits: seq<nat>)
    requires used + |digits| <= 6 && FiveBit(digits)
    requires acc < Pow2(5 * used)
    ensures Fold(acc, digits) == Base32(acc, digits)
    decreases |digits|
  {
    if digits != [] {
      var next := 32 * acc + digits[0];
      Pow2Monotone(5 * used, TOP);
      AbsorbSmall(acc, digits[0]);
      RoomForDigit(acc, used, digits[0]);
      FoldStep(acc, digits, next);
      FoldOfDigits(next, used + 1, digits[1..]);
    }
  }

  lemma {:induction false} Pow2Monotone(j: nat, k: nat)
    requires j <= k
    ensures Pow2(j) <= Pow2(k)
  {
    if j < k { Pow2Monotone(j, k - 1); }
  }

  lemma Pow2OfSum(k: nat)
    ensures Pow2(k + 5) == 32 * Pow2(k)
  {
    assert Pow2(k + 2) == 4 * Pow2(k);
    assert Pow2(k + 4) == 4 * Pow2(k + 2);
  }

  /** The low `count` five-bit digits, most significant first. */
  function Digits(n: nat, count: nat): (r: seq<nat>)
    ensures |r| == count
  {
    seq(count, i requires 0 <= i < count => Low(High(n, 5 * (count - 1 - i)), 5))
  }

  lemma {:induction false} Base32Append(acc: nat, digits: seq<nat>, last: nat)
    ensures Base32(acc, digits + [last]) == 32 * Base32(acc, digits) + last
    decreases |digits|
  {
    if digits == [] {
      assert ([] + [last])[1..] == [];
    } else {
      assert (digits + [last])[1..] == digits[1..] + [last];
      Base32Append(32 * acc + digits[0], digits[1..], last);
    }
  }

  lemma DigitsSplit(n: nat, k: nat)
    requires k != 0
    ensures Digits(n, k) == Digits(High(n, 5), k - 1) + [Low(n, 5)]
  {
    assert Digits(n, k)[k - 1] == Low(High(n, 0), 5);
    forall i | 0 <= i < k - 1
      ensures Digits(n, k)[i] == Digits(High(n, 5), k - 1)[i]
    {
      HighOfHigh(n, 5, 5 * (k - 2 - i));
    }
  }

  /** Five-bit values denote `n` exactly when they are its digits. */
  lemma {:induction false} DigitsDenote(n: nat, d: seq<nat>)
    requires FiveBit(d)
    ensures FiveBit(Digits(n, |d|))
    ensures n < Pow2(5 * |d|) ==> (Base32(0, d) == n <==> d == Digits(n, |d|))
    decreases |d|
  {
    var k := |d|;
    if k != 0 {
      var front, last := d[..k - 1], d[k - 1];
      assert d == front + [last];
      Base32Append(0, front, last);
      SplitFive(n, Base32(0, front), last);
      DigitsDenote(High(n, 5), front);
      Pow2OfSum(5 * (k - 1));
      DigitsSplit(n, k);
    }
  }

  /** `_bech32_create_checksum` over an already expanded prefix and data. */
  function Checksum(values: seq<nat>): (r: seq<nat>)
    ensures |r| == 6
  {
    Digits(Xor(Fold(1, values + [0, 0, 0, 0, 0, 0]), 1), 6)
  }

  lemma RegisterBounded(chk: nat)
    ensures Absorb(chk, 0) < Pow2(30)
  {
    PowersOfTwo();
    SmallNumber(chk, TOP);
    XorCommutes(32 * Low(chk, TOP), 0);
    FeedbackBounded(High(chk, TOP), 5);
    XorBounded(32 * Low(chk, TOP), Feedback(High(chk, TOP), 5), 30);
  }

  lemma {:induction false} FeedbackBounded(b: nat, n: nat)
    requires n <= 5
    ensures Feedback(b, n) < Pow2(30)
  {
    PowersOfTwo();
    if n != 0 {
      FeedbackBounded(b, n - 1);
      XorBounded(Feedback(b, n - 1), Gated(b, n - 1), 30);
    }
  }

  /**
   The checksum is valid and unique: for any expanded prefix and data, six five-bit values make the
   polymod 1 exactly when they are the created checksum.
   */
  lemma ChecksumVerifies(values: seq<nat>, appended: seq<nat>)
    requires |appended| == 6 && FiveBit(appended)
    ensures FiveBit(Checksum(values))
    ensures Fold(1, values + appended) == 1 <==> appended == Checksum(values)
  {
    var c := Fold(1, values);
    var zeros: seq<nat> := [0, 0, 0, 0, 0, 0];
    ZerosOfSix();
    FoldAppend(1, values, appended);
    FoldAppend(1, values, zeros);
    var z := Fold(c, zeros);
    FoldSplits(c, 0, appended);
    XorCommutes(c, 0);
    FoldOfDigits(0, 0, appended);
    assert Fold(c, appended) == Xor(z, Base32(0, appended));
    LastAbsorbed(c);
    PowersOfTwo();
    XorBounded(z, 1, 30);
    XorSolve(z, Base32(0, appended), 1);
    DigitsDenote(Xor(z, 1), appended);
  }

  lemma ZerosOfSix()
    ensures Zeros(6) == [0, 0, 0, 0, 0, 0]
  {
    assert Zeros(3) == [0, 0, 0];
  }

  lemma LastAbsorbed(c: nat)
    ensures Fold(c, [0, 0, 0, 0, 0, 0]) < Pow2(30)
  {
    assert [0, 0, 0, 0, 0, 0] == [0, 0, 0, 0, 0] + [0];
    FoldAppend(c, [0, 0, 0, 0, 0], [0]);
    var five := Fold(c, [0, 0, 0, 0, 0]);
    assert [0][1..] == [];
    assert Fold(five, [0]) == Absorb(five, 0);
    RegisterBounded(five);
  }

  lemma XorSolve(z: nat, n: nat, one: nat)
    ensures Xor(z, n) == one <==> n == Xor(z, one)
  {
    XorAssociates(z, z, n);
    XorAssociates(z, z, one);
    XorSelf(z);
  }

  // ----- regrouping bits

  /** The low `n` bits of `v`, most significant first. */
  function Bits(v: nat, n: nat): (r: seq<nat>)
    ensures |r| == n
  {
    if n == 0 then [] else Bits(v / 2, n - 1) + [v % 2]
  }

  /** The concatenated `width`-bit values. */
  function BitString(values: seq<nat>, width: nat): (r: seq<nat>)
    ensures |r| == |values| * width
  {
    if values == [] then [] else
      assert |values| * width == width + (|values| - 1) * width;
      Bits(values[0], width) + BitString(values[1..], width)
  }

  lemma {:induction false} BitStringAppend(values: seq<nat>, v: nat, width: nat)
    ensures BitString(values + [v], width) == BitString(values, width) + Bits(v, width)
  {
    if values == [] {
      assert ([] + [v])[1..] == [];
      assert BitString([v], width) == Bits(v, width) + BitString([], width);
    } else {
      assert (values + [v])[1..] == values[1..] + [v];
      BitStringAppend(values[1..], v, width);
    }
  }

  lemma {:induction false} BitsOfLow(a: nat, n: nat)
    ensures Bits(Low(a, n), n) == Bits(a, n)
  {
    if n != 0 {
      LowStep(a, n);
      BitsOfLow(a / 2, n - 1);
    }
  }

  lemma {:induction false} BitsSplit(a: nat, m: nat, n: nat)
    ensures Bits(a, m + n) == Bits(High(a, n), m) + Bits(a, n)
  {
    if n != 0 {
      BitsSplit(a / 2, m, n - 1);
    }
  }

  /** `a << k`. */
  function ShiftLeft(a: nat, k: nat): nat {
    if k == 0 then a else 2 * ShiftLeft(a, k - 1)
  }

  lemma {:induction false} BitsOfShift(a: nat, b: nat, m: nat, f: nat)
    requires b < Pow2(f)
    ensures Bits(ShiftLeft(a, f) + b, m + f) == Bits(a, m) + Bits(b, f)
  {
    if f != 0 {
      BitsOfShift(a, b / 2, m, f - 1);
    }
  }

  /** `ret` regroups `data` into `to`-bit values, the last one filled up with zeros. */
  ghost predicate Regroups(data: seq<nat>, from: nat, ret: seq<nat>, to: nat) {
    && (forall k :: 0 <= k < |ret| ==> ret[k] < Pow2(to))
    && exists z :: 0 <= z < to && BitString(ret, to) == BitString(data, from) + Bits(0, z)
  }

  /** Moving the top group of `to + bits` pending bits to the output keeps the bit string. */
  lemma EmitGroup(ret: seq<nat>, acc: nat, bits: nat, to: nat)
    ensures Low(High(acc, bits), to) < Pow2(to)
    ensures BitString(ret + [Low(High(acc, bits), to)], to) + Bits(acc, bits) == BitString(ret, to) + Bits(acc, to + bits)
  {
    BitsSplit(acc, to, bits);
    BitsOfLow(High(acc, bits), to);
    SmallNumber(High(acc, bits), to);
    BitStringAppend(ret, Low(High(acc, bits), to), to);
  }

  /** Absorbing a value appends its bits to the pending ones. */
  lemma TakeValue(taken: seq<nat>, v: nat, from: nat, emitted: seq<nat>, acc: nat, bits: nat)
    requires v < Pow2(from) && emitted + Bits(acc, bits) == BitString(taken, from)
    ensures emitted + Bits(ShiftLeft(acc, from) + v, bits + from) == BitString(taken + [v], from)
  {
    BitsOfShift(acc, v, bits, from);
    BitStringAppend(taken, v, from);
  }

  /** The last group is filled up with zeros. */
  lemma PadGroup(ret: seq<nat>, acc: nat, bits: nat, to: nat)
    requires bits <= to
    ensures Low(ShiftLeft(acc, to - bits), to) < Pow2(to)
    ensures BitString(ret + [Low(ShiftLeft(acc, to - bits), to)], to)
            == BitString(ret, to) + Bits(acc, bits) + Bits(0, to - bits)
  {
    var shifted := ShiftLeft(acc, to - bits);
    BitsOfShift(acc, 0, bits, to - bits);
    EmitGroup(ret, shifted, 0, to);
    var group := [Low(shifted, to)];
    assert High(shifted, 0) == shifted;
    assert BitString(ret + group, to) + [] == BitString(ret + group, to);
    assert Bits(shifted, to) == Bits(acc, bits) + Bits(0, to - bits);
  }

  /** The inner loop of `_convertbits`. */
  method EmitGroups(before: seq<nat>, acc: nat, pending: nat, to: nat) returns (ret: seq<nat>, bits: nat)
    requires 1 <= to && InGroup(before, to)
    ensures bits < to && InGroup(ret, to)
    ensures BitString(ret, to) + Bits(acc, bits) == BitString(before, to) + Bits(acc, pending)
  {
    ret, bits := before, pending;
    while bits >= to
      invariant InGroup(ret, to)
      invariant BitString(ret, to) + Bits(acc, bits) == BitString(before, to) + Bits(acc, pending)
    {
      bits := bits - to;
      EmitGroup(ret, acc, bits, to);
      ret := ret + [Low(High(acc, bits), to)];
    }
  }

  /** `_convertbits`; without padding the bits that do not fill a value are dropped. */
  method ConvertBits(data: seq<nat>, from: nat, to: nat, pad: bool) returns (ret: seq<nat>)
    requires 1 <= to
    requires forall k :: 0 <= k < |data| ==> data[k] < Pow2(from)
    ensures pad ==> Regroups(data, from, ret, to)
    ensures !pad ==> BitString(ret, to) <= BitString(data, from) && |BitString(data, from)| - |BitString(ret, to)| < to
  {
    var acc: nat, bits: nat := 0, 0;
    ret := [];
    for k := 0 to |data|
      invariant bits < to && InGroup(ret, to)
      invariant Converted(data, k, from, ret, to, acc, bits)
    {
      TakeNext(data, k, from, ret, to, acc, bits);
      acc := ShiftLeft(acc, from) + data[k];
      bits := bits + from;
      ghost var before, pending := ret, bits;
      ret, bits := EmitGroups(ret, acc, bits, to);
      assert Converted(data, k + 1, from, before, to, acc, pending);
    }
    if pad && bits != 0 {
      PadLast(data, from, ret, to, acc, bits);
      ret := ret + [Low(ShiftLeft(acc, to - bits), to)];
    } else {
      NoPad(data, from, ret, to, acc, bits);
    }
  }

  predicate InGroup(ret: seq<nat>, to: nat) {
    forall j :: 0 <= j < |ret| ==> ret[j] < Pow2(to)
  }

  /** What was emitted and the pending bits are the bits of the first `k` values. */
  ghost predicate Converted(data: seq<nat>, k: nat, from: nat, ret: seq<nat>, to: nat, acc: nat, bits: nat)
    requires k <= |data|
  {
    BitString(ret, to) + Bits(acc, bits) == BitString(data[..k], from)
  }

  lemma TakeNext(data: seq<nat>, k: nat, from: nat, ret: seq<nat>, to: nat, acc: nat, bits: nat)
    requires k < |data| && data[k] < Pow2(from) && Converted(data, k, from, ret, to, acc, bits)
    ensures Converted(data, k + 1, from, ret, to, ShiftLeft(acc, from) + data[k], bits + from)
  {
    TakeValue(data[..k], data[k], from, BitString(ret, to), acc, bits);
    assert data[..k] + [data[k]] == data[..k + 1];
  }

  lemma PadLast(data: seq<nat>, from: nat, ret: seq<nat>, to: nat, acc: nat, bits: nat)
    requires 0 < bits < to && InGroup(ret, to) && Converted(data, |data|, from, ret, to, acc, bits)
    ensures Regroups(data, from, ret + [Low(ShiftLeft(acc, to - bits), to)], to)
  {
    assert data[..|data|] == data;
    PadGroup(ret, acc, bits, to);
  }

  lemma NoPad(data: seq<nat>, from: nat, ret: seq<nat>, to: nat, acc: nat, bits: nat)
    requires bits < to && InGroup(ret, to) && Converted(data, |data|, from, ret, to, acc, bits)
    ensures bits == 0 ==> Regroups(data, from, ret, to)
    ensures BitString(ret, to) <= BitString(data, from) && |BitString(data, from)| - |BitString(ret, to)| < to
  {
    assert data[..|data|] == data;
    if bits == 0 { assert BitString(ret, to) == BitString(data, from) + Bits(0, 0); }
  }

  lemma {:induction false} BitsInjective(a: nat, b: nat, n: nat)
    requires a < Pow2(n) && b < Pow2(n) && Bits(a, n) == Bits(b, n)
    ensures a == b
  {
    if n != 0 {
      assert Bits(a, n)[..n - 1] == Bits(a / 2, n - 1) && Bits(b, n)[..n - 1] == Bits(b / 2, n - 1);
      assert Bits(a, n)[n - 1] == a % 2 && Bits(b, n)[n - 1] == b % 2;
      BitsInjective(a / 2, b / 2, n - 1);
    }
  }

  lemma {:induction false} BitStringInjective(xs: seq<nat>, ys: seq<nat>, width: nat)
    requires |xs| == |ys| && BitString(xs, width) == BitString(ys, width)
    requires forall k :: 0 <= k < |xs| ==> xs[k] < Pow2(width) && ys[k] < Pow2(width)
    ensures xs == ys
  {
    if xs != [] {
      var s, t := BitString(xs, width), BitString(ys, width);
      assert s[..width] == Bits(xs[0], width) && t[..width] == Bits(ys[0], width);
      assert s[width..] == BitString(xs[1..], width) && t[width..] == BitString(ys[1..], width);
      BitsInjective(xs[0], ys[0], width);
      BitStringInjective(xs[1..], ys[1..], width);
    }
  }

  /** Regrouping loses nothing: data of one length are told apart by their regrouped values. */
  lemma RegroupsInjective(d: seq<nat>, e: seq<nat>, from: nat, ret: seq<nat>, to: nat)
    requires |d| == |e| && Regroups(d, from, ret, to) && Regroups(e, from, ret, to)
    requires forall k :: 0 <= k < |d| ==> d[k] < Pow2(from) && e[k] < Pow2(from)
    ensures d == e
  {
    assert BitString(ret, to)[..|d| * from] == BitString(d, from);
    assert BitString(ret, to)[..|d| * from] == BitString(e, from);
    BitStringInjective(d, e, from);
  }

  // ----- addresses

  /** `_CHARSET`, letter by letter. */
  function Letter(d: nat): char
    requires d < 32
  {
    match d
    case 0 => 'q' case 1 => 'p' case 2 => 'z' case 3 => 'r'
    case 4 => 'y' case 5 => '9' case 6 => 'x' case 7 => '8'
    case 8 => 'g' case 9 => 'f' case 10 => '2' case 11 => 't'
    case 12 => 'v' case 13 => 'd' case 14 => 'w' case 15 => '0'
    case 16 => 's' case 17 => '3' case 18 => 'j' case 19 => 'n'
    case 20 => '5' case 21 => '4' case 22 => 'k' case 23 => 'h'
    case 24 => 'c' case 25 => 'e' case 26 => '6' case 27 => 'm'
    case 28 => 'u' case 29 => 'a' case 30 => '7' case 31 => 'l'
  }

  function HrpExpand(hrp: string): seq<nat> {
    seq(|hrp|, i requires 0 <= i < |hrp| => High(hrp[i] as int, 5)) + [0]
    + seq(|hrp|, i requires 0 <= i < |hrp| => Low(hrp[i] as int, 5))
  }

  function Letters(data: seq<nat>): string
    requires FiveBit(data)
  {
    seq(|data|, i requires 0 <= i < |data| => Letter(data[i]))
  }

  function HrpOf(network: string): string {
    if network == "mainnet" then "bc" else if network == "testnet" then "tb" else "bcrt"
  }

  /** An address of a version-0 witness program. */
  ghost predicate IsAddress(program: Bytes, hrp: string, address: string) {
    exists ret: seq<nat> :: Regroups(program, 8, ret, 5) && Spells(hrp, [0] + ret, address)
  }

  /** `address` is the prefix, the separator, and the letters of the data and its checksum. */
  predicate Spells(hrp: string, data: seq<nat>, address: string) {
    var combined := data + Checksum(HrpExpand(hrp) + data);
    FiveBit(combined) && address == hrp + "1" + Letters(combined)
  }

  /** `encode_p2wsh_address`. */
  method EncodeP2wshAddress(spk: Bytes, network: string) returns (r: Result<string>)
    ensures r.Ok? <==> |spk| == 34 && spk[0] == 0x00 && spk[1] == 0x20
    ensures r.Ok? ==> IsAddress(spk[2..], HrpOf(network), r.value)
  {
    if |spk| != 34 || spk[0] != 0x00 || spk[1] != 0x20 { return Err("expected P2WSH scriptPubKey"); }
    var prog := spk[2..];
    var hrp := HrpOf(network);
    Pow2Of5And8();
    var ret := ConvertBits(prog, 8, 5, true);
    var data := [0] + ret;
    var values := HrpExpand(hrp) + data;
    var chk := Polymod(values + [0, 0, 0, 0, 0, 0]);
    var checksum := Digits(Xor(chk, 1), 6);
    ChecksumVerifies(values, [0, 0, 0, 0, 0, 0]);
    return Ok(hrp + "1" + Letters(data + checksum));
  }

  lemma Pow2Of5And8()
    ensures Pow2(5) == 32 && Pow2(8) == 256
  {
    assert Pow2(4) == 16;
  }

  lemma LettersDistinct(i: nat, j: nat)
    requires i < 32 && j < 32 && Letter(i) == Letter(j)
    ensures i == j
  {
  }

  lemma SpellingDetermines(hrp: string, d: seq<nat>, e: seq<nat>, address: string)
    requires Spells(hrp, d, address) && Spells(hrp, e, address)
    ensures d == e
  {
    var cd, ce := d + Checksum(HrpExpand(hrp) + d), e + Checksum(HrpExpand(hrp) + e);
    assert |cd| == |ce| == |address| - |hrp| - 1;
    forall k | 0 <= k < |d| ensures d[k] == e[k] {
      assert address[|hrp| + 1 + k] == Letter(cd[k]) == Letter(ce[k]);
      LettersDistinct(cd[k], ce[k]);
    }
  }

  lemma RegroupedBytesDetermine(p: Bytes, q: Bytes, r: seq<nat>)
    requires |p| == |q| && Regroups(p, 8, r, 5) && Regroups(q, 8, r, 5)
    ensures p == q
  {
    Pow2Of5And8();
    RegroupsInjective(p, q, 8, r, 5);
  }

  /** Distinct witness programs have distinct addresses. */
  lemma AddressesDistinct(p: Bytes, q: Bytes, hrp: string, address: string)
    requires |p| == |q| && IsAddress(p, hrp, address) && IsAddress(q, hrp, address)
    ensures p == q
  {
    var rp: seq<nat> :| Regroups(p, 8, rp, 5) && Spells(hrp, [0] + rp, address);
    var rq: seq<nat> :| Regroups(q, 8, rq, 5) && Spells(hrp, [0] + rq, address);
    SpellingDetermines(hrp, [0] + rp, [0] + rq, address);
    assert ([0] + rp)[1..] == rp && ([0] + rq)[1..] == rq;
    RegroupedBytesDetermine(p, q, rp);
  }
}
