/** Fixed-width integers and the little-endian byte strings that .NET's
    `BinaryWriter`/`BinaryReader` and `BitConverter` produce on a
    little-endian machine. */
module Bytes {

  type u8 = x: int | 0 <= x < 0x100
  /** A byte is its unsigned value; bit fields are packed with `*` and `+`. */
  type byte = u8
  type u16 = x: int | 0 <= x < 0x1_0000
  type u32 = x: int | 0 <= x < 0x1_0000_0000
  type u64 = x: int | 0 <= x < 0x1_0000_0000_0000_0000
  type i8 = x: int | -0x80 <= x < 0x80
  type i16 = x: int | -0x8000 <= x < 0x8000
  type i32 = x: int | -0x8000_0000 <= x < 0x8000_0000
  type i64 = x: int | -0x8000_0000_0000_0000 <= x < 0x8000_0000_0000_0000

  function Pow256(n: nat): (p: nat)
    ensures p > 0
  {
    if n == 0 then 1 else 256 * Pow256(n - 1)
  }

  /** The C# `(byte)` cast: the low eight bits of the two's-complement value. */
  function ToByte(x: int): byte
  {
    x % 256
  }

  /** The low `n` bytes of `x` in two's complement, least significant first
      (what `(byte)x, (byte)(x >> 8), ...` writes). */
  function LE(x: int, n: nat): (r: seq<byte>)
    ensures |r| == n
    decreases n
  {
    if n == 0 then [] else [ToByte(x)] + LE(x / 256, n - 1)
  }

  /** The unsigned value of a little-endian byte string. */
  function Unsigned(s: seq<byte>): (v: nat)
    ensures v < Pow256(|s|)
  {
    if s == [] then 0 else s[0] + 256 * Unsigned(s[1..])
  }

  /** The two's-complement value of a little-endian byte string. */
  function Signed(s: seq<byte>): int
  {
    var u := Unsigned(s);
    if |s| > 0 && 2 * u >= Pow256(|s|) then u - Pow256(|s|) else u
  }

  lemma ModUnique(x: int, d: int, k: int, r: int)
    requires 0 <= r < d
    requires x == d * k + r
    ensures x % d == r && x / d == k
  {
    var q, m := x / d, x % d;
    var t := k - q;
    assert d * k == d * q + d * t;
    assert d * t == m - r;
  }

  lemma DivMod256(x: int, p: nat)
    requires p > 0
    ensures x % (256 * p) == x % 256 + 256 * ((x / 256) % p)
  {
    var q, r := x / 256, x % 256;
    var k, m := q / p, q % p;
    assert x == (256 * p) * k + (256 * m + r) by {
      assert q == p * k + m;
      assert x == 256 * q + r;
    }
    ModUnique(x, 256 * p, k, 256 * m + r);
  }

  /** Reading back what LE wrote recovers the value modulo 256^n. */
  lemma {:induction false} UnsignedLE(x: int, n: nat)
    ensures Unsigned(LE(x, n)) == x % Pow256(n)
    decreases n
  {
    if n > 0 {
      var p := Pow256(n - 1);
      var s := LE(x, n);
      UnsignedLE(x / 256, n - 1);
      DivMod256(x, p);
      assert s[1..] == LE(x / 256, n - 1);
      assert s[0] == x % 256;
      assert Unsigned(s) == x % 256 + 256 * ((x / 256) % p);
    }
  }

  /** Writing back what was read reproduces the bytes. */
  lemma {:induction false} LEUnsigned(s: seq<byte>)
    ensures LE(Unsigned(s), |s|) == s
  {
    if s != [] {
      var u, rest := Unsigned(s), Unsigned(s[1..]);
      ModUnique(u, 256, rest, s[0]);
      LEUnsigned(s[1..]);
    }
  }

  /** LE only depends on the value modulo 256^n. */
  lemma LEModulo(x: int, y: int, n: nat)
    requires x % Pow256(n) == y % Pow256(n)
    ensures LE(x, n) == LE(y, n)
  {
    UnsignedLE(x, n);
    UnsignedLE(y, n);
    LEUnsigned(LE(x, n));
    LEUnsigned(LE(y, n));
  }

  /** Reading a two's-complement value of the width it was written at recovers it. */
  lemma SignedLE(x: int, n: nat)
    requires n > 0
    requires x + Pow256(n) / 2 >= 0 && x < Pow256(n) / 2
    ensures Signed(LE(x, n)) == x
  {
    var p := Pow256(n);
    UnsignedLE(x, n);
    if x >= 0 {
      ModUnique(x, p, 0, x);
    } else {
      ModUnique(x, p, -1, x + p);
    }
  }

  lemma UnsignedLEBounded(x: int, n: nat)
    requires 0 <= x < Pow256(n)
    ensures Unsigned(LE(x, n)) == x
  {
    UnsignedLE(x, n);
    ModUnique(x, Pow256(n), 0, x);
  }

  lemma ShiftSum(a0: int, ua: int, ub: int, p: int)
    ensures a0 + 256 * (ua + p * ub) == (a0 + 256 * ua) + (256 * p) * ub
  {
  }

  /** Concatenating byte strings adds the second one's value shifted past the first. */
  lemma {:induction false} UnsignedAppend(a: seq<byte>, b: seq<byte>)
    ensures Unsigned(a + b) == Unsigned(a) + Pow256(|a|) * Unsigned(b)
  {
    if a != [] {
      assert (a + b)[1..] == a[1..] + b;
      UnsignedAppend(a[1..], b);
      ShiftSum(a[0], Unsigned(a[1..]), Unsigned(b), Pow256(|a| - 1));
    } else {
      assert a + b == b;
    }
  }

  /** Dividing by 256 and then by p is dividing by 256 * p (floor division,
      like repeated arithmetic right shifts). */
  lemma DivDiv256(x: int, p: nat)
    requires p > 0
    ensures x / 256 / p == x / (256 * p)
  {
    var q, r := x / 256, x % 256;
    var k, m := q / p, q % p;
    assert x == (256 * p) * k + (256 * m + r) by {
      assert q == p * k + m;
      assert x == 256 * q + r;
    }
    ModUnique(x, 256 * p, k, 256 * m + r);
  }

  /** Byte k of LE(x, n) is `(byte)(x >> 8k)`. */
  lemma {:induction false} LEIndex(x: int, n: nat, k: nat)
    requires k < n
    ensures LE(x, n)[k] == ToByte(x / Pow256(k))
    decreases n
  {
    if k > 0 {
      LEIndex(x / 256, n - 1, k - 1);
      DivDiv256(x, Pow256(k - 1));
    }
  }

  lemma Pow256Values()
    ensures Pow256(1) == 0x100 && Pow256(2) == 0x1_0000 && Pow256(3) == 0x100_0000
    ensures Pow256(4) == 0x1_0000_0000 && Pow256(5) == 0x100_0000_0000
    ensures Pow256(6) == 0x1_0000_0000_0000 && Pow256(7) == 0x100_0000_0000_0000
    ensures Pow256(8) == 0x1_0000_0000_0000_0000
  {
  }

  /** The two-byte form the writers spell out shift by shift. */
  lemma LE2(x: int)
    ensures LE(x, 2) == [ToByte(x), ToByte(x / 0x100)]
  {
    LEIndex(x, 2, 0);
    LEIndex(x, 2, 1);
    Pow256Values();
  }

  /** The four-byte form the writers spell out shift by shift. */
  lemma LE4(x: int)
    ensures LE(x, 4) == [ToByte(x), ToByte(x / 0x100), ToByte(x / 0x1_0000), ToByte(x / 0x100_0000)]
  {
    LEIndex(x, 4, 0);
    LEIndex(x, 4, 1);
    LEIndex(x, 4, 2);
    LEIndex(x, 4, 3);
    Pow256Values();
  }

  /** The eight-byte form the writers spell out shift by shift. */
  lemma LE8(x: int)
    ensures LE(x, 8) == [ToByte(x), ToByte(x / 0x100), ToByte(x / 0x1_0000), ToByte(x / 0x100_0000),
      ToByte(x / 0x1_0000_0000), ToByte(x / 0x100_0000_0000), ToByte(x / 0x1_0000_0000_0000), ToByte(x / 0x100_0000_0000_0000)]
  {
    LEIndex(x, 8, 0);
    LEIndex(x, 8, 1);
    LEIndex(x, 8, 2);
    LEIndex(x, 8, 3);
    LEIndex(x, 8, 4);
    LEIndex(x, 8, 5);
    LEIndex(x, 8, 6);
    LEIndex(x, 8, 7);
    Pow256Values();
  }

  /** Appending in two steps is appending the concatenation. */
  lemma AppendAssoc<T>(a: seq<T>, b: seq<T>, c: seq<T>)
    ensures a + b + c == a + (b + c)
  {
  }
}
