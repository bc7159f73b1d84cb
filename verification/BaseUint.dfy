/**
 `BaseUInt`: fixed-width unsigned integers stored as big-endian 32-bit limbs.

 A limb here is the native value of the stored word, so the byte swaps of the source cancel; the
 bytes that comparison walks over are the big-endian bytes of the limbs, in order.
 */
module BaseUint {
  import opened Words

  type Limb = x: int | 0 <= x < 0x1_0000_0000

  /** The number that the limbs denote, most significant first. */
  function Value(s: seq<Limb>): nat {
    if s == [] then 0 else Value(s[..|s| - 1]) * 0x1_0000_0000 + s[|s| - 1]
  }

  /** The number that bytes denote, most significant first. */
  function ByteValue(s: Bytes): nat {
    if s == [] then 0 else ByteValue(s[..|s| - 1]) * 256 + s[|s| - 1]
  }

  lemma ValueAppend(s: seq<Limb>, d: Limb)
    ensures Value(s + [d]) == Value(s) * 0x1_0000_0000 + d
  {
    assert (s + [d])[..|s|] == s;
  }

  lemma ByteValueAppend(s: Bytes, d: byte)
    ensures ByteValue(s + [d]) == ByteValue(s) * 256 + d
  {
    assert (s + [d])[..|s|] == s;
  }

  /** 2^Bits for a number of `width` limbs. */
  function Modulus(width: nat): (r: nat)
    ensures 0 < r
  {
    if width == 0 then 1 else 0x1_0000_0000 * Modulus(width - 1)
  }

  lemma {:induction false} ValueBounded(s: seq<Limb>)
    ensures Value(s) < Modulus(|s|)
  {
    if s != [] { ValueBounded(s[..|s| - 1]); }
  }

  /** Shifting by a limb commutes with reduction modulo a power. */
  lemma Carry(x: int, p: nat, d: Limb)
    requires 0 < p
    ensures (x % p) * 0x1_0000_0000 + d == (x * 0x1_0000_0000 + d) % (0x1_0000_0000 * p)
  {
    var q, m := x / p, x % p;
    assert x == q * p + m;
    assert q * (0x1_0000_0000 * p) == 0x1_0000_0000 * (q * p);
    DivModUnique(x * 0x1_0000_0000 + d, 0x1_0000_0000 * p, q, m * 0x1_0000_0000 + d);
  }

  lemma SmallModulo(x: int, p: nat)
    requires 0 <= x < p
    ensures x % p == x
  {
    DivModUnique(x, p, 0, x);
  }

  // ----- 32-bit wrap-around

  function Next(x: Limb): Limb {
    if x == 0xFFFF_FFFF then 0 else x + 1
  }

  function Prev(x: Limb): Limb {
    if x == 0 then 0xFFFF_FFFF else x - 1
  }

  // ----- what the carry loops compute

  /** `++`: add one to the last limb and carry while it wraps to zero. */
  function Increment(s: seq<Limb>): (r: seq<Limb>)
    ensures |r| == |s|
  {
    if s == [] then []
    else
      var last := |s| - 1;
      if Next(s[last]) != 0 then s[..last] + [Next(s[last])] else Increment(s[..last]) + [0]
  }

  /** `--`: subtract one from the last limb and borrow while it was zero. */
  function Decrement(s: seq<Limb>): (r: seq<Limb>)
    ensures |r| == |s|
  {
    if s == [] then []
    else
      var last := |s| - 1;
      if s[last] != 0 then s[..last] + [Prev(s[last])] else Decrement(s[..last]) + [0xFFFF_FFFF]
  }

  /** `+=` with an incoming carry. */
  function Add(a: seq<Limb>, b: seq<Limb>, carry: nat): (r: seq<Limb>)
    requires |a| == |b|
    ensures |r| == |a|
  {
    if a == [] then []
    else
      var last := |a| - 1;
      var n := carry + a[last] + b[last];
      Add(a[..last], b[..last], n / 0x1_0000_0000) + [n % 0x1_0000_0000]
  }

  /** The carry that `+=` drops at the most significant limb. */
  function CarryOut(a: seq<Limb>, b: seq<Limb>, carry: nat): nat
    requires |a| == |b|
  {
    if a == [] then carry
    else
      var last := |a| - 1;
      CarryOut(a[..last], b[..last], (carry + a[last] + b[last]) / 0x1_0000_0000)
  }

  /** Nothing is lost but the carry out. */
  lemma {:induction false} AddExact(a: seq<Limb>, b: seq<Limb>, carry: nat)
    requires |a| == |b|
    ensures Value(Add(a, b, carry)) + CarryOut(a, b, carry) * Modulus(|a|) == Value(a) + Value(b) + carry
  {
    if a != [] {
      var last := |a| - 1;
      var n: nat := carry + a[last] + b[last];
      var out, d := n / 0x1_0000_0000, n % 0x1_0000_0000;
      var front, c := Add(a[..last], b[..last], out), CarryOut(a[..last], b[..last], out);
      AddExact(a[..last], b[..last], out);
      AddUnfolds(a, b, carry, out, d, front);
      ExactStep(Value(front), c, Modulus(last), Value(a[..last]), Value(b[..last]), out, d, a[last], b[last], carry);
    }
  }

  lemma ExactStep(v: nat, c: nat, p: nat, x: nat, y: nat, out: nat, d: nat, a: Limb, b: Limb, carry: nat)
    requires v + c * p == x + y + out && carry + a + b == out * 0x1_0000_0000 + d
    ensures v * 0x1_0000_0000 + d + c * (0x1_0000_0000 * p)
      == x * 0x1_0000_0000 + a + (y * 0x1_0000_0000 + b) + carry
  {
    assert c * (0x1_0000_0000 * p) == 0x1_0000_0000 * (c * p);
  }

  /** `+=` is addition modulo 2^Bits. */
  lemma AddIsModular(a: seq<Limb>, b: seq<Limb>, carry: nat)
    requires |a| == |b|
    ensures Value(Add(a, b, carry)) == (Value(a) + Value(b) + carry) % Modulus(|a|)
  {
    AddExact(a, b, carry);
    ValueBounded(Add(a, b, carry));
    DivModUnique(Value(a) + Value(b) + carry, Modulus(|a|), CarryOut(a, b, carry), Value(Add(a, b, carry)));
  }

  lemma {:induction false} AddUnfolds(a: seq<Limb>, b: seq<Limb>, carry: nat, out: nat, d: Limb, front: seq<Limb>)
    requires |a| == |b| > 0 && carry + a[|a| - 1] + b[|a| - 1] == out * 0x1_0000_0000 + d
    requires front == Add(a[..|a| - 1], b[..|a| - 1], out)
    ensures Value(Add(a, b, carry)) == Value(front) * 0x1_0000_0000 + d
    ensures CarryOut(a, b, carry) == CarryOut(a[..|a| - 1], b[..|a| - 1], out)
    ensures Value(a) == Value(a[..|a| - 1]) * 0x1_0000_0000 + a[|a| - 1]
    ensures Value(b) == Value(b[..|a| - 1]) * 0x1_0000_0000 + b[|a| - 1]
  {
    DivModUnique(carry + a[|a| - 1] + b[|a| - 1], 0x1_0000_0000, out, d);
    assert Add(a, b, carry) == front + [d];
    ValueAppend(front, d);
  }

  /** `++` is addition of one modulo 2^Bits. */
  lemma {:induction false} IncrementIsModular(s: seq<Limb>)
    ensures Value(Increment(s)) == (Value(s) + 1) % Modulus(|s|)
  {
    if s != [] {
      var last := |s| - 1;
      var front := s[..last];
      if Next(s[last]) != 0 {
        ValueAppend(front, s[last] + 1);
        ValueBounded(front);
        SmallModulo(Value(s) + 1, Modulus(|s|));
      } else {
        IncrementIsModular(front);
        ValueAppend(Increment(front), 0);
        Carry(Value(front) + 1, Modulus(last), 0);
      }
    }
  }

  /** `--` is subtraction of one modulo 2^Bits. */
  lemma {:induction false} DecrementIsModular(s: seq<Limb>)
    ensures Value(Decrement(s)) == (Value(s) - 1) % Modulus(|s|)
  {
    if s != [] {
      var last := |s| - 1;
      var front := s[..last];
      if s[last] != 0 {
        ValueAppend(front, s[last] - 1);
        ValueBounded(s);
        SmallModulo(Value(s) - 1, Modulus(|s|));
      } else {
        DecrementIsModular(front);
        ValueAppend(Decrement(front), 0xFFFF_FFFF);
        Carry(Value(front) - 1, Modulus(last), 0xFFFF_FFFF);
      }
    }
  }

  lemma {:induction false} ValueInjective(a: seq<Limb>, b: seq<Limb>)
    requires |a| == |b| && Value(a) == Value(b)
    ensures a == b
  {
    if a != [] {
      var last := |a| - 1;
      DivModUnique(Value(a), 0x1_0000_0000, Value(a[..last]), a[last]);
      DivModUnique(Value(b), 0x1_0000_0000, Value(b[..last]), b[last]);
      ValueInjective(a[..last], b[..last]);
      assert a == a[..last] + [a[last]] && b == b[..last] + [b[last]];
    }
  }

  /** `++` and `--` undo each other, also around zero. */
  lemma IncrementDecrement(s: seq<Limb>)
    ensures Decrement(Increment(s)) == s && Increment(Decrement(s)) == s
  {
    ValueBounded(s);
    DownAfterUp(s);
    UpAfterDown(s);
    ValueInjective(Decrement(Increment(s)), s);
    ValueInjective(Increment(Decrement(s)), s);
  }

  lemma DownAfterUp(s: seq<Limb>)
    ensures Value(Decrement(Increment(s))) == Value(s)
  {
    var v, p := Value(s), Modulus(|s|);
    ValueBounded(s);
    IncrementIsModular(s);
    DecrementIsModular(Increment(s));
    if v + 1 == p { DivModUnique(v + 1, p, 1, 0); } else { SmallModulo(v + 1, p); }
    if v + 1 == p { DivModUnique(-1, p, -1, p - 1); } else { SmallModulo(v, p); }
  }

  lemma UpAfterDown(s: seq<Limb>)
    ensures Value(Increment(Decrement(s))) == Value(s)
  {
    var v, p := Value(s), Modulus(|s|);
    ValueBounded(s);
    DecrementIsModular(s);
    IncrementIsModular(Decrement(s));
    if v == 0 { DivModUnique(-1, p, -1, p - 1); } else { SmallModulo(v - 1, p); }
    if v == 0 { DivModUnique(p, p, 1, 0); } else { SmallModulo(v, p); }
  }

  // ----- comparison

  datatype Ordering = Less | Equal | Greater

  function Order(a: int, b: int): Ordering {
    if a < b then Less else if a == b then Equal else Greater
  }

  /** The big-endian bytes of the limbs, as they lie in memory. */
  function BytesOf(s: seq<Limb>): Bytes {
    if s == [] then [] else BytesOf(s[..|s| - 1]) + BigEndian(s[|s| - 1], 4)
  }

  /** Order by the first byte that differs. */
  function Lexicographic(x: Bytes, y: Bytes): Ordering
    requires |x| == |y|
  {
    if x == [] then Equal
    else if x[0] != y[0] then (if x[0] > y[0] then Greater else Less)
    else Lexicographic(x[1..], y[1..])
  }

  lemma {:induction false} LexicographicAppend(x: Bytes, y: Bytes, a: byte, b: byte)
    requires |x| == |y|
    ensures Lexicographic(x + [a], y + [b]) ==
            if Lexicographic(x, y) != Equal then Lexicographic(x, y) else Order(a, b)
  {
    if x == [] {
      assert (x + [a])[1..] == [] && (y + [b])[1..] == [];
    } else {
      assert (x + [a])[1..] == x[1..] + [a] && (y + [b])[1..] == y[1..] + [b];
      if x[0] == y[0] { LexicographicAppend(x[1..], y[1..], a, b); }
    }
  }

  /** On byte strings of one length, the lexicographic order is the numeric one. */
  lemma {:induction false} LexicographicIsNumeric(x: Bytes, y: Bytes)
    requires |x| == |y|
    ensures Lexicographic(x, y) == Order(ByteValue(x), ByteValue(y))
    decreases |x|
  {
    if x != [] {
      var last := |x| - 1;
      LexicographicIsNumeric(x[..last], y[..last]);
      LexicographicAppend(x[..last], y[..last], x[last], y[last]);
      assert x == x[..last] + [x[last]] && y == y[..last] + [y[last]];
    }
  }

  /** The bytes denote the same number as the limbs. */
  lemma {:induction false} BytesDenote(s: seq<Limb>)
    ensures |BytesOf(s)| == 4 * |s| && ByteValue(BytesOf(s)) == Value(s)
  {
    if s != [] {
      var last := |s| - 1;
      BytesDenote(s[..last]);
      AppendBigEndian(BytesOf(s[..last]), s[last]);
    }
  }

  lemma AppendBigEndian(x: Bytes, n: Limb)
    ensures ByteValue(x + BigEndian(n, 4)) == ByteValue(x) * 0x1_0000_0000 + n
  {
    var n1 := n / 256;
    var n2 := n1 / 256;
    var n3 := n2 / 256;
    assert n3 < 256;
    assert BigEndian(n, 4) == [n3 % 256, n2 % 256, n1 % 256, n % 256] by {
      assert BigEndian(n3, 1) == [n3 % 256];
      assert BigEndian(n2, 2) == [n3 % 256, n2 % 256];
      assert BigEndian(n1, 3) == [n3 % 256, n2 % 256, n1 % 256];
    }
    var x1 := x + [n3 % 256];
    var x2 := x1 + [n2 % 256];
    var x3 := x2 + [n1 % 256];
    assert x + BigEndian(n, 4) == x3 + [n % 256];
    ByteValueAppend(x, n3 % 256);
    ByteValueAppend(x1, n2 % 256);
    ByteValueAppend(x2, n1 % 256);
    ByteValueAppend(x3, n % 256);
  }

  /** `<=>` on numbers of one width is the numeric order. */
  lemma CompareIsNumeric(a: seq<Limb>, b: seq<Limb>)
    requires |a| == |b|
    ensures |BytesOf(a)| == |BytesOf(b)|
    ensures Lexicographic(BytesOf(a), BytesOf(b)) == Order(Value(a), Value(b))
  {
    BytesDenote(a);
    BytesDenote(b);
    LexicographicIsNumeric(BytesOf(a), BytesOf(b));
  }

  // ----- one iteration of each loop

  /** `++` has come down to the first `n` limbs; `rest` is what it left behind. */
  ghost predicate Incrementing(o: seq<Limb>, n: nat, rest: seq<Limb>) {
    n <= |o| && Increment(o) == Increment(o[..n]) + rest
  }

  ghost predicate Decrementing(o: seq<Limb>, n: nat, rest: seq<Limb>) {
    n <= |o| && Decrement(o) == Decrement(o[..n]) + rest
  }

  lemma IncrementOne(o: seq<Limb>, i: nat)
    requires i < |o|
    ensures Increment(o[..i + 1]) == (if Next(o[i]) != 0 then o[..i] else Increment(o[..i])) + [Next(o[i])]
  {
    assert o[..i + 1][..i] == o[..i];
  }

  lemma IncrementStep(o: seq<Limb>, i: nat, rest: seq<Limb>)
    requires i < |o| && Incrementing(o, i + 1, rest)
    ensures if Next(o[i]) == 0 then Incrementing(o, i, [Next(o[i])] + rest) else Increment(o) == o[..i] + ([Next(o[i])] + rest)
  {
    IncrementOne(o, i);
    Regroup(if Next(o[i]) != 0 then o[..i] else Increment(o[..i]), [Next(o[i])], rest);
  }

  lemma DecrementOne(o: seq<Limb>, i: nat)
    requires i < |o|
    ensures Decrement(o[..i + 1]) == (if o[i] != 0 then o[..i] else Decrement(o[..i])) + [Prev(o[i])]
  {
    assert o[..i + 1][..i] == o[..i];
  }

  lemma DecrementStep(o: seq<Limb>, i: nat, rest: seq<Limb>)
    requires i < |o| && Decrementing(o, i + 1, rest)
    ensures if o[i] == 0 then Decrementing(o, i, [Prev(o[i])] + rest) else Decrement(o) == o[..i] + ([Prev(o[i])] + rest)
  {
    DecrementOne(o, i);
    Regroup(if o[i] != 0 then o[..i] else Decrement(o[..i]), [Prev(o[i])], rest);
  }

  lemma LoopDone(o: seq<Limb>, rest: seq<Limb>)
    ensures Incrementing(o, 0, rest) ==> o[..0] + rest == Increment(o)
    ensures Decrementing(o, 0, rest) ==> o[..0] + rest == Decrement(o)
  {
    assert o[..0] == [];
  }

  lemma AddStep(o: seq<Limb>, p: seq<Limb>, i: nat, carry: nat, d: Limb, out: nat, rest: seq<Limb>)
    requires i < |o| == |p|
    requires var n: nat := carry + o[i] + p[i]; d == n % 0x1_0000_0000 && out == n / 0x1_0000_0000
    requires Adding(o, p, i + 1, carry, rest)
    ensures Adding(o, p, i, out, [d] + rest)
  {
    assert o[..i + 1][..i] == o[..i] && p[..i + 1][..i] == p[..i];
    assert Add(o[..i + 1], p[..i + 1], carry) == Add(o[..i], p[..i], out) + [d];
  }

  /** The sum is that of the first `n` limbs with a carry, followed by `rest`. */
  ghost predicate Adding(o: seq<Limb>, p: seq<Limb>, n: nat, carry: nat, rest: seq<Limb>) {
    n <= |o| == |p| && Add(o, p, 0) == Add(o[..n], p[..n], carry) + rest
  }

  lemma AddingStarts(o: seq<Limb>, p: seq<Limb>)
    requires |o| == |p|
    ensures Adding(o, p, |o|, 0, [])
  {
    assert o[..|o|] == o && p[..|o|] == p;
  }

  lemma AddingDone(o: seq<Limb>, p: seq<Limb>, carry: nat, rest: seq<Limb>)
    requires Adding(o, p, 0, carry, rest)
    ensures o[..0] + rest == Add(o, p, 0)
  {
    assert o[..0] == [] && p[..0] == [];
  }

  // ----- the class

  class BaseUInt {
    const data: array<Limb>

    /** Zero, `width` limbs wide. */
    constructor (width: nat)
      requires 2 <= width
      ensures fresh(data) && data.Length == width && Value(data[..]) == 0
    {
      data := new Limb[width](i => 0);
      new;
      AllZero(data[..]);
    }

    /** The limbs up to `i` are those of `front`, the limbs after it are `rest`. */
    ghost predicate Split(front: seq<Limb>, i: int, rest: seq<Limb>)
      reads data
    {
      && -1 <= i < data.Length == |front| && |rest| == data.Length - 1 - i
      && (forall k :: 0 <= k <= i ==> data[k] == front[k])
      && (forall k :: i < k < data.Length ==> data[k] == rest[k - i - 1])
    }

    lemma SplitWhole(front: seq<Limb>, i: int, rest: seq<Limb>)
      requires Split(front, i, rest)
      ensures data[..] == front[..i + 1] + rest
    {
    }

    /** `operator++` adds one modulo 2^Bits. */
    method Increase()
      modifies data
      ensures data[..] == Increment(old(data[..]))
      ensures Value(data[..]) == (Value(old(data[..])) + 1) % Modulus(data.Length)
    {
      CarryUp();
      IncrementIsModular(old(data[..]));
    }

    /** `operator--` subtracts one modulo 2^Bits. */
    method Decrease()
      modifies data
      ensures data[..] == Decrement(old(data[..]))
      ensures Value(data[..]) == (Value(old(data[..])) - 1) % Modulus(data.Length)
    {
      BorrowDown();
      DecrementIsModular(old(data[..]));
    }

    /** `operator+=` adds modulo 2^Bits; `b` may be the same number. */
    method AddAssign(b: BaseUInt)
      requires b.data.Length == data.Length
      modifies data
      ensures data[..] == Add(old(data[..]), old(b.data[..]), 0)
      ensures Value(data[..]) == (Value(old(data[..])) + Value(old(b.data[..]))) % Modulus(data.Length)
    {
      AddLimbs(b);
      AddIsModular(old(data[..]), old(b.data[..]), 0);
    }

    /** The loop of `operator++`. */
    method CarryUp()
      modifies data
      ensures data[..] == Increment(old(data[..]))
    {
      ghost var o, rest := data[..], [];
      var i := data.Length - 1;
      assert o[..i + 1] == o;
      while i >= 0
        invariant Split(o, i, rest) && Incrementing(o, i + 1, rest)
      {
        IncrementStep(o, i, rest);
        data[i] := Next(data[i]);
        rest := [data[i]] + rest;
        if data[i] != 0 {
          SplitWhole(o, i - 1, rest);
          return;
        }
        i := i - 1;
      }
      SplitWhole(o, i, rest);
      LoopDone(o, rest);
    }

    /** The loop of `operator--`. */
    method BorrowDown()
      modifies data
      ensures data[..] == Decrement(old(data[..]))
    {
      ghost var o, rest := data[..], [];
      var i := data.Length - 1;
      assert o[..i + 1] == o;
      while i >= 0
        invariant Split(o, i, rest) && Decrementing(o, i + 1, rest)
      {
        DecrementStep(o, i, rest);
        var prev := data[i];
        data[i] := Prev(data[i]);
        rest := [data[i]] + rest;
        if prev != 0 {
          SplitWhole(o, i - 1, rest);
          return;
        }
        i := i - 1;
      }
      SplitWhole(o, i, rest);
      LoopDone(o, rest);
    }

    /** The loop of `operator+=`. */
    method AddLimbs(b: BaseUInt)
      requires b.data.Length == data.Length
      modifies data
      ensures data[..] == Add(old(data[..]), old(b.data[..]), 0)
    {
      ghost var o, p, rest := data[..], b.data[..], [];
      var carry: nat := 0;
      var i := data.Length - 1;
      AddingStarts(o, p);
      while i >= 0
        invariant Split(o, i, rest) && (forall k :: 0 <= k <= i ==> b.data[k] == p[k])
        invariant Adding(o, p, i + 1, carry, rest)
      {
        var n: nat := carry + data[i] + b.data[i];
        AddStep(o, p, i, carry, n % 0x1_0000_0000, n / 0x1_0000_0000, rest);
        data[i] := n % 0x1_0000_0000;
        carry := n / 0x1_0000_0000;
        rest := [data[i]] + rest;
        i := i - 1;
      }
      SplitWhole(o, i, rest);
      AddingDone(o, p, carry, rest);
    }

    /** Assignment from a 64-bit integer. */
    method Assign(u: nat)
      requires 2 <= data.Length && u < 0x1_0000_0000 * 0x1_0000_0000
      modifies data
      ensures Value(data[..]) == u
    {
      for i := 0 to data.Length
        invariant forall k :: 0 <= k < i ==> data[k] == 0
      {
        data[i] := 0;
      }
      var w := data.Length;
      data[w - 2] := u / 0x1_0000_0000;
      data[w - 1] := u % 0x1_0000_0000;
      var zeros := data[..w - 2];
      AllZero(zeros);
      assert data[..] == zeros + [u / 0x1_0000_0000] + [u % 0x1_0000_0000];
      ValueAppend(zeros, u / 0x1_0000_0000);
      ValueAppend(zeros + [u / 0x1_0000_0000], u % 0x1_0000_0000);
    }

    /** `operator<=>`: find the first byte that differs. */
    method Compare(b: BaseUInt) returns (r: Ordering)
      requires b.data.Length == data.Length
      ensures r == Order(Value(data[..]), Value(b.data[..]))
    {
      CompareIsNumeric(data[..], b.data[..]);
      var x, y := BytesOf(data[..]), BytesOf(b.data[..]);
      var i := 0;
      while i < |x| && x[i] == y[i]
        invariant 0 <= i <= |x| && Lexicographic(x[i..], y[i..]) == Lexicographic(x, y)
      {
        assert x[i..][1..] == x[i + 1..] && y[i..][1..] == y[i + 1..];
        i := i + 1;
      }
      if i == |x| { return Equal; }
      return if x[i] > y[i] then Greater else Less;
    }
  }

  lemma {:induction false} AllZero(s: seq<Limb>)
    requires forall i :: 0 <= i < |s| ==> s[i] == 0
    ensures Value(s) == 0
  {
    if s != [] { AllZero(s[..|s| - 1]); }
  }
}
