/** Bytes, fixed-width little- and big-endian integers (`struct.pack`), and powers. */
module Words {

  type byte = x: int | 0 <= x < 256
  type Bytes = seq<byte>

  /** A hash with 32-byte results; SHA-256 is a parameter of everything that uses it. */
  type Hash = f: Bytes -> Bytes | forall x :: |f(x)| == 32 witness (x: Bytes) => seq(32, i => 0)

  datatype Option<+T> = None | Some(value: T) {
    predicate IsFailure() {
      None?
    }
    function PropagateFailure<U>(): Option<U>
      requires None?
    {
      None
    }
    function Extract(): T
      requires Some?
    {
      value
    }
  }

  /** The value, or the exception that the source raises instead. */
  datatype Result<+T> = Ok(value: T) | Err(error: string)

  function Pow(b: nat, e: nat): nat {
    if e == 0 then 1 else b * Pow(b, e - 1)
  }

  function Pow2(e: nat): (r: nat)
    ensures 1 <= r
  {
    if e == 0 then 1 else 2 * Pow2(e - 1)
  }

  /** The low `width` bytes of `n`, least significant first. */
  function LittleEndian(n: nat, width: nat): (r: Bytes)
    ensures |r| == width
  {
    if width == 0 then [] else [n % 256] + LittleEndian(n / 256, width - 1)
  }

  function FromLittleEndian(b: Bytes): nat {
    if b == [] then 0 else b[0] + 256 * FromLittleEndian(b[1..])
  }

  /** The low `width` bytes of `n`, most significant first. */
  function BigEndian(n: nat, width: nat): (r: Bytes)
    ensures |r| == width
  {
    if width == 0 then [] else BigEndian(n / 256, width - 1) + [n % 256]
  }

  lemma {:induction false} FromLittleEndianInverts(n: nat, width: nat)
    requires n < Pow(256, width)
    ensures FromLittleEndian(LittleEndian(n, width)) == n
  {
    if width != 0 {
      assert n / 256 < Pow(256, width - 1);
      FromLittleEndianInverts(n / 256, width - 1);
      assert LittleEndian(n, width)[1..] == LittleEndian(n / 256, width - 1);
    }
  }

  lemma {:induction false} BigEndianInjective(m: nat, n: nat, width: nat)
    requires m < Pow(256, width) && n < Pow(256, width)
    requires BigEndian(m, width) == BigEndian(n, width)
    ensures m == n
  {
    if width != 0 {
      var a, b := BigEndian(m, width), BigEndian(n, width);
      assert a[..width - 1] == BigEndian(m / 256, width - 1);
      assert b[..width - 1] == BigEndian(n / 256, width - 1);
      assert a[width - 1] == m % 256 && b[width - 1] == n % 256;
      BigEndianInjective(m / 256, n / 256, width - 1);
    }
  }

  lemma Pow256()
    ensures Pow(256, 1) == 0x100 && Pow(256, 2) == 0x1_0000
    ensures Pow(256, 4) == 0x1_0000_0000 && Pow(256, 8) == 0x1_0000_0000_0000_0000
  {
    assert Pow(256, 3) == 0x100_0000;
    assert Pow(256, 4) == 0x1_0000_0000;
    assert Pow(256, 5) == 0x100_0000_0000;
    assert Pow(256, 6) == 0x1_0000_0000_0000;
    assert Pow(256, 7) == 0x100_0000_0000_0000;
  }

  lemma Regroup<T>(x: seq<T>, y: seq<T>, z: seq<T>)
    ensures (x + y) + z == x + (y + z)
  {
  }

  lemma HeadTail<T>(s: seq<T>)
    requires s != []
    ensures [s[0]] + s[1..] == s
  {
  }

  lemma MultipleAtLeast(k: int, d: int)
    requires 1 <= k && 0 < d
    ensures d <= k * d
  {
    assert k * d == d + (k - 1) * d;
  }

  lemma SmallMultiple(k: int, d: int)
    requires 0 < d && -d < k * d < d
    ensures k == 0
  {
    if k >= 1 { MultipleAtLeast(k, d); } else if k <= -1 { MultipleAtLeast(-k, d); }
  }

  /** Quotient and remainder are determined by the division equation. */
  lemma DivModUnique(a: int, d: int, q: int, r: int)
    requires 0 < d && a == q * d + r && 0 <= r < d
    ensures a / d == q && a % d == r
  {
    var q', r' := a / d, a % d;
    assert (q - q') * d == r' - r;
    SmallMultiple(q - q', d);
  }
}
