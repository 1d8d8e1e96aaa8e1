/** SectionHeaderEntry64.cs and SectionHeaderEntry32.cs: one entry of the
    section header table ("Sections" in the System V ABI, chapter
    "Object Files"), written and read little-endian. */
module SectionHeaders {
  import opened Wrappers
  import opened Bytes
  import opened BinaryIo

  /** `EntrySize64` and `EntrySize32`. */
  const EntrySize64 := 0x40
  const EntrySize32 := 0x28

  /** SectionType.cs and SectionAttribute.cs are not part of this model:
      the type is written as a `uint` and the flags as a `ulong`, so those
      are their ranges here. `Link` and `Info` are C# `int`s. */
  datatype SectionHeaderEntry64 = SectionHeaderEntry64(
    name: u32, sectionType: u32, flags: u64, address: u64, offset: u64, size: u64,
    link: i32, info: i32, addressAlignment: u64, entrySize: u64)

  /** `WriteTo`, first half: name, type, flags, address, offset. */
  function WriteFront64(e: SectionHeaderEntry64): (r: seq<byte>)
    ensures |r| == 32
  {
    LE(e.name, 4) + (LE(e.sectionType, 4) + (LE(e.flags, 8) + (LE(e.address, 8) + LE(e.offset, 8))))
  }

  /** `WriteTo`, second half: size, link, info, alignment, entry size. */
  function WriteBack64(e: SectionHeaderEntry64): (r: seq<byte>)
    ensures |r| == 32
  {
    LE(e.size, 8) + (LE(e.link, 4) + (LE(e.info, 4) + (LE(e.addressAlignment, 8) + LE(e.entrySize, 8))))
  }

  /** `SectionHeaderEntry64.WriteTo`: ten fields, 64 bytes. */
  function Write64(e: SectionHeaderEntry64): (r: seq<byte>)
    ensures |r| == EntrySize64
  {
    WriteFront64(e) + WriteBack64(e)
  }

  /** `SectionHeaderEntry64.ReadFrom`: the same ten fields in the same
      order; a stream shorter than 64 bytes throws, which is None here. */
  function ReadFrom64(s: seq<byte>): (r: Option<(SectionHeaderEntry64, seq<byte>)>)
    ensures r.Some? <==> |s| >= EntrySize64
    ensures r.Some? ==> |r.value.1| == |s| - EntrySize64
  {
    if |s| < EntrySize64 then None
    else
      var (name, sectionType, flags, address, offset, s5) := ReadFront64(s);
      var (size, link, info, addressAlignment, entrySize, s10) := ReadBack64(s5);
      Some((SectionHeaderEntry64(name, sectionType, flags, address, offset, size, link, info, addressAlignment, entrySize), s10))
  }

  /** The first five fields ReadFrom reads: name, type, flags, address, offset. */
  function ReadFront64(s: seq<byte>): (r: (u32, u32, u64, u64, u64, seq<byte>))
    requires 32 <= |s|
    ensures |r.5| == |s| - 32
  {
    var (name, s1) := ReadUInt32(s);
    var (sectionType, s2) := ReadUInt32(s1);
    var (flags, s3) := ReadUInt64(s2);
    var (address, s4) := ReadUInt64(s3);
    var (offset, s5) := ReadUInt64(s4);
    (name, sectionType, flags, address, offset, s5)
  }

  /** The last five: size, link, info, alignment, entry size. */
  function ReadBack64(s: seq<byte>): (r: (u64, i32, i32, u64, u64, seq<byte>))
    requires 32 <= |s|
    ensures |r.5| == |s| - 32
  {
    var (size, s1) := ReadUInt64(s);
    var (link, s2) := ReadSigned32(s1);
    var (info, s3) := ReadSigned32(s2);
    var (addressAlignment, s4) := ReadUInt64(s3);
    var (entrySize, s5) := ReadUInt64(s4);
    (size, link, info, addressAlignment, entrySize, s5)
  }

  lemma Front64RoundTrip(e: SectionHeaderEntry64, rest: seq<byte>)
    ensures ReadFront64(WriteFront64(e) + rest) == (e.name, e.sectionType, e.flags, e.address, e.offset, rest)
  {
    Pow256Values();
    var t5 := LE(e.offset, 8) + rest;
    var t4 := LE(e.address, 8) + t5;
    var t3 := LE(e.flags, 8) + t4;
    var t2 := LE(e.sectionType, 4) + t3;
    var t1 := LE(e.name, 4) + t2;
    assert WriteFront64(e) + rest == t1 by {
      var d := LE(e.address, 8) + LE(e.offset, 8);
      var c := LE(e.flags, 8) + d;
      var b := LE(e.sectionType, 4) + c;
      AppendAssoc(LE(e.name, 4), b, rest);
      AppendAssoc(LE(e.sectionType, 4), c, rest);
      AppendAssoc(LE(e.flags, 8), d, rest);
      AppendAssoc(LE(e.address, 8), LE(e.offset, 8), rest);
    }
    ReadWrittenBounded(e.name, 4, t2);
    ReadWrittenBounded(e.sectionType, 4, t3);
    ReadWrittenBounded(e.flags, 8, t4);
    ReadWrittenBounded(e.address, 8, t5);
    ReadWrittenBounded(e.offset, 8, rest);
  }

  lemma Back64RoundTrip(e: SectionHeaderEntry64, rest: seq<byte>)
    ensures ReadBack64(WriteBack64(e) + rest) == (e.size, e.link, e.info, e.addressAlignment, e.entrySize, rest)
  {
    Pow256Values();
    var t5 := LE(e.entrySize, 8) + rest;
    var t4 := LE(e.addressAlignment, 8) + t5;
    var t3 := LE(e.info, 4) + t4;
    var t2 := LE(e.link, 4) + t3;
    var t1 := LE(e.size, 8) + t2;
    assert WriteBack64(e) + rest == t1 by {
      var d := LE(e.addressAlignment, 8) + LE(e.entrySize, 8);
      var c := LE(e.info, 4) + d;
      var b := LE(e.link, 4) + c;
      AppendAssoc(LE(e.size, 8), b, rest);
      AppendAssoc(LE(e.link, 4), c, rest);
      AppendAssoc(LE(e.info, 4), d, rest);
      AppendAssoc(LE(e.addressAlignment, 8), LE(e.entrySize, 8), rest);
    }
    ReadWrittenBounded(e.size, 8, t2);
    ReadWrittenSigned32(e.link, t3);
    ReadWrittenSigned32(e.info, t4);
    ReadWrittenBounded(e.addressAlignment, 8, t5);
    ReadWrittenBounded(e.entrySize, 8, rest);
  }

  /** `ReadFrom` after `WriteTo` reproduces every field and leaves the
      stream at the next entry. */
  lemma Entry64RoundTrip(e: SectionHeaderEntry64, rest: seq<byte>)
    ensures ReadFrom64(Write64(e) + rest) == Some((e, rest))
  {
    AppendAssoc(WriteFront64(e), WriteBack64(e), rest);
    Front64RoundTrip(e, WriteBack64(e) + rest);
    Back64RoundTrip(e, rest);
  }

  /** A table of entries written one after the other reads back entry by
      entry at a 64-byte stride. */
  lemma Table64RoundTrip(entries: seq<SectionHeaderEntry64>, k: nat, rest: seq<byte>)
    requires k < |entries|
    ensures ReadFrom64((Table64(entries) + rest)[EntrySize64 * k..]) == Some((entries[k], Table64(entries[k + 1..]) + rest))
  {
    TableSuffix(entries, k, rest);
    var suffix := entries[k..];
    assert suffix[0] == entries[k] && suffix[1..] == entries[k + 1..];
    AppendAssoc(Write64(entries[k]), Table64(entries[k + 1..]), rest);
    Entry64RoundTrip(entries[k], Table64(entries[k + 1..]) + rest);
  }

  /** Skipping k entries of a table leaves the table of the rest. */
  lemma {:induction false} TableSuffix(entries: seq<SectionHeaderEntry64>, k: nat, rest: seq<byte>)
    requires k <= |entries|
    ensures (Table64(entries) + rest)[EntrySize64 * k..] == Table64(entries[k..]) + rest
    decreases k
  {
    if k > 0 {
      var head, tail := Write64(entries[0]), Table64(entries[1..]) + rest;
      AppendAssoc(head, Table64(entries[1..]), rest);
      TableSuffix(entries[1..], k - 1, rest);
      assert entries[1..][k - 1..] == entries[k..];
      DropAfter(head, tail, EntrySize64 * (k - 1));
    }
  }

  lemma DropAfter(a: seq<byte>, b: seq<byte>, n: nat)
    requires n <= |b|
    ensures (a + b)[|a| + n..] == b[n..]
  {
  }

  /** Several entries written back to back. */
  function Table64(entries: seq<SectionHeaderEntry64>): (r: seq<byte>)
    ensures |r| == EntrySize64 * |entries|
  {
    if entries == [] then [] else Write64(entries[0]) + Table64(entries[1..])
  }

  // ---- the 32-bit entry ----

  /** SectionHeaderEntry32's properties; the flags come from the shared
      base class and are a `ulong` value here too. */
  datatype SectionHeaderEntry32 = SectionHeaderEntry32(
    name: u32, sectionType: u32, flags: u64, address: u32, offset: u32, size: u32,
    link: i32, info: i32, addressAlignment: u32, entrySize: u32)

  /** The `(int)` cast of a `uint`: the same 32 bits read as signed. */
  function AsInt32(x: u32): (r: i32)
    ensures r % 0x1_0000_0000 == x
  {
    if x < 0x8000_0000 then x else x - 0x1_0000_0000
  }

  /** `SectionHeaderEntry32.WriteTo`: ten four-byte fields, the flags cut
      to 32 bits and the offset written through an `int` cast. */
  function Write32(e: SectionHeaderEntry32): (r: seq<byte>)
    ensures |r| == EntrySize32
  {
    WriteFront32(e) + WriteBack32(e)
  }

  function WriteFront32(e: SectionHeaderEntry32): (r: seq<byte>)
    ensures |r| == 20
  {
    LE(e.name, 4) + (LE(e.sectionType, 4) + (LE(e.flags % 0x1_0000_0000, 4) + (LE(e.address, 4) + LE(AsInt32(e.offset), 4))))
  }

  function WriteBack32(e: SectionHeaderEntry32): (r: seq<byte>)
    ensures |r| == 20
  {
    LE(e.size, 4) + (LE(e.link, 4) + (LE(e.info, 4) + (LE(e.addressAlignment, 4) + LE(e.entrySize, 4))))
  }

  /** Writing the offset through the `int` cast gives the bytes of the
      unsigned offset itself. */
  lemma OffsetCastKeepsBytes(offset: u32)
    ensures LE(AsInt32(offset), 4) == LE(offset, 4)
  {
    Pow256Values();
    LEModulo(AsInt32(offset), offset, 4);
  }

  /** A reader for the 32-bit layout of the standard (the source has none):
      ten four-byte fields, link and info signed. */
  function ReadFrom32(s: seq<byte>): (r: Option<(SectionHeaderEntry32, seq<byte>)>)
    ensures r.Some? <==> |s| >= EntrySize32
    ensures r.Some? ==> |r.value.1| == |s| - EntrySize32
  {
    if |s| < EntrySize32 then None
    else
      Pow256Values();
      var (name, s1) := Read(s, 4);
      var (sectionType, s2) := Read(s1, 4);
      var (flags, s3) := Read(s2, 4);
      var (address, s4) := Read(s3, 4);
      var (offset, s5) := Read(s4, 4);
      var (size, s6) := Read(s5, 4);
      var (link, s7) := ReadSigned32(s6);
      var (info, s8) := ReadSigned32(s7);
      var (addressAlignment, s9) := Read(s8, 4);
      var (entrySize, s10) := Read(s9, 4);
      Some((SectionHeaderEntry32(name, sectionType, flags, address, offset, size, link, info, addressAlignment, entrySize), s10))
  }

  lemma Front32RoundTrip(e: SectionHeaderEntry32, rest: seq<byte>)
    ensures var s := WriteFront32(e) + rest;
      var (name, s1) := Read(s, 4);
      var (sectionType, s2) := Read(s1, 4);
      var (flags, s3) := Read(s2, 4);
      var (address, s4) := Read(s3, 4);
      Read(s4, 4) == (e.offset, rest)
      && name == e.name && sectionType == e.sectionType && flags == e.flags % 0x1_0000_0000 && address == e.address
  {
    Pow256Values();
    OffsetCastKeepsBytes(e.offset);
    var t5 := LE(e.offset, 4) + rest;
    var t4 := LE(e.address, 4) + t5;
    var t3 := LE(e.flags % 0x1_0000_0000, 4) + t4;
    var t2 := LE(e.sectionType, 4) + t3;
    var t1 := LE(e.name, 4) + t2;
    assert WriteFront32(e) + rest == t1 by {
      var d := LE(e.address, 4) + LE(e.offset, 4);
      var c := LE(e.flags % 0x1_0000_0000, 4) + d;
      var b := LE(e.sectionType, 4) + c;
      AppendAssoc(LE(e.name, 4), b, rest);
      AppendAssoc(LE(e.sectionType, 4), c, rest);
      AppendAssoc(LE(e.flags % 0x1_0000_0000, 4), d, rest);
      AppendAssoc(LE(e.address, 4), LE(e.offset, 4), rest);
    }
    ReadWrittenBounded(e.name, 4, t2);
    ReadWrittenBounded(e.sectionType, 4, t3);
    ReadWrittenBounded(e.flags % 0x1_0000_0000, 4, t4);
    ReadWrittenBounded(e.address, 4, t5);
    ReadWrittenBounded(e.offset, 4, rest);
  }

  lemma Back32RoundTrip(e: SectionHeaderEntry32, rest: seq<byte>)
    ensures var s := WriteBack32(e) + rest;
      var (size, s1) := Read(s, 4);
      var (link, s2) := ReadSigned32(s1);
      var (info, s3) := ReadSigned32(s2);
      var (addressAlignment, s4) := Read(s3, 4);
      Read(s4, 4) == (e.entrySize, rest)
      && size == e.size && link == e.link && info == e.info && addressAlignment == e.addressAlignment
  {
    Pow256Values();
    var t5 := LE(e.entrySize, 4) + rest;
    var t4 := LE(e.addressAlignment, 4) + t5;
    var t3 := LE(e.info, 4) + t4;
    var t2 := LE(e.link, 4) + t3;
    var t1 := LE(e.size, 4) + t2;
    assert WriteBack32(e) + rest == t1 by {
      var d := LE(e.addressAlignment, 4) + LE(e.entrySize, 4);
      var c := LE(e.info, 4) + d;
      var b := LE(e.link, 4) + c;
      AppendAssoc(LE(e.size, 4), b, rest);
      AppendAssoc(LE(e.link, 4), c, rest);
      AppendAssoc(LE(e.info, 4), d, rest);
      AppendAssoc(LE(e.addressAlignment, 4), LE(e.entrySize, 4), rest);
    }
    ReadWrittenBounded(e.size, 4, t2);
    ReadWrittenSigned32(e.link, t3);
    ReadWrittenSigned32(e.info, t4);
    ReadWrittenBounded(e.addressAlignment, 4, t5);
    ReadWrittenBounded(e.entrySize, 4, rest);
  }

  /** Reading the 32-bit layout back recovers every field, the flags cut
      to their low 32 bits. */
  lemma Entry32RoundTrip(e: SectionHeaderEntry32, rest: seq<byte>)
    ensures ReadFrom32(Write32(e) + rest) == Some((e.(flags := e.flags % 0x1_0000_0000), rest))
  {
    AppendAssoc(WriteFront32(e), WriteBack32(e), rest);
    Front32RoundTrip(e, WriteBack32(e) + rest);
    Back32RoundTrip(e, rest);
  }
}
