/** The little-endian `BinaryWriter`/`BinaryReader` primitives the ELF
    structures are written and read with. A stream is the byte string still
    to be read; running out of bytes is the reader's EndOfStreamException. */
module BinaryIo {
  import opened Bytes

  /** `ReadUInt16`/`ReadUInt32`/`ReadUInt64` (n = 2, 4, 8) and `ReadByte`
      (n = 1): the value of the next `n` bytes, and what is left after them. */
  function Read(s: seq<byte>, n: nat): (r: (nat, seq<byte>))
    requires n <= |s|
    ensures r.0 < Pow256(n) && |r.1| == |s| - n
    ensures s == LE(r.0, n) + r.1
  {
    LEUnsigned(s[..n]);
    assert s == s[..n] + s[n..];
    (Unsigned(s[..n]), s[n..])
  }

  /** `ReadInt32`: the next four bytes as a two's-complement value. */
  function ReadSigned32(s: seq<byte>): (r: (i32, seq<byte>))
    requires 4 <= |s|
    ensures |r.1| == |s| - 4
    ensures s == LE(r.0, 4) + r.1
  {
    var (u, rest) := Read(s, 4);
    Pow256Values();
    var v := if u >= 0x8000_0000 then u - 0x1_0000_0000 else u;
    LEModulo(u, v, 4);
    (v, rest)
  }

  /** `ReadUInt32`: `Read` at four bytes, typed as a `uint`. */
  function ReadUInt32(s: seq<byte>): (r: (u32, seq<byte>))
    requires 4 <= |s|
    ensures |r.1| == |s| - 4
  {
    Pow256Values();
    Read(s, 4)
  }

  /** `ReadUInt64`: `Read` at eight bytes, typed as a `ulong`. */
  function ReadUInt64(s: seq<byte>): (r: (u64, seq<byte>))
    requires 8 <= |s|
    ensures |r.1| == |s| - 8
  {
    Pow256Values();
    Read(s, 8)
  }

  /** Reading back an unsigned field gives the written value modulo 256^n:
      the writer's narrowing casts are the only loss. */
  lemma ReadWritten(x: int, n: nat, rest: seq<byte>)
    ensures Read(LE(x, n) + rest, n) == (x % Pow256(n), rest)
  {
    var s := LE(x, n) + rest;
    assert s[..n] == LE(x, n);
    assert s[n..] == rest;
    UnsignedLE(x, n);
  }

  /** Reading back a 32-bit signed field gives the written value. */
  lemma ReadWrittenSigned32(x: i32, rest: seq<byte>)
    ensures ReadSigned32(LE(x, 4) + rest) == (x, rest)
  {
    ReadWritten(x, 4, rest);
    Pow256Values();
    if x >= 0 {
      ModUnique(x, 0x1_0000_0000, 0, x);
    } else {
      ModUnique(x, 0x1_0000_0000, -1, x + 0x1_0000_0000);
    }
  }

  /** The value of a field does not change when it is read back from the
      same bytes followed by anything. */
  lemma ReadWrittenBounded(x: int, n: nat, rest: seq<byte>)
    requires 0 <= x < Pow256(n)
    ensures Read(LE(x, n) + rest, n) == (x, rest)
  {
    ReadWritten(x, n, rest);
    ModUnique(x, Pow256(n), 0, x);
  }
}
