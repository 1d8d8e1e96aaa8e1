/** ElfHeader64.cs and ElfHeader32.cs: the ELF header that follows the
    identification bytes ("ELF Header" in the System V ABI, chapter
    "Object Files"). Both are written little-endian. */
module ElfHeaders {
  import opened Wrappers
  import opened Bytes
  import opened BinaryIo
  import ElfIdent

  /** FileType.cs and MachineType.cs values used below. */
  const Relocatable: u16 := 1
  const X86_64: u16 := 0x3E
  /** `Version.Current`. */
  const VersionCurrent: u32 := 1

  /** `ElfHeaderSize64` and `SectionHeaderEntry64.EntrySize64`. */
  const ElfHeaderSize64: u16 := 0x40
  const SectionHeaderEntrySize64: u16 := 0x40
  /** `ElfHeaderSize32` and `SectionHeaderEntry32.EntrySize32`. */
  const ElfHeaderSize32: u16 := 0x34
  const SectionHeaderEntrySize32: u16 := 0x28

  /** ElfHeader64's properties. `SectionHeaderStringIndex` is a C# `int`. */
  datatype ElfHeader64 = ElfHeader64(
    fileType: u16, machine: u16, version: u32,
    entryAddress: u64, programHeaderOffset: u64, programHeaderCount: u16,
    sectionHeaderOffset: u64, sectionHeaderCount: u16, flags: u32,
    sectionHeaderStringIndex: i32)

  /** `ElfHeader64.WriteTo`: type, machine, version, entry, phoff, shoff
      and flags, then six two-byte fields. ProgramHeader.cs is not part of
      this model, so its `EntrySize64` is the parameter `programHeaderEntrySize`. */
  function Write64(h: ElfHeader64, programHeaderEntrySize: u16): (r: seq<byte>)
    ensures |r| + ElfIdent.IdentSize == ElfHeaderSize64 as int
  {
    WriteAddresses64(h) + WriteCounts(ElfHeaderSize64, programHeaderEntrySize, h.programHeaderCount,
      SectionHeaderEntrySize64, h.sectionHeaderCount, h.sectionHeaderStringIndex)
  }

  /** The first seven fields: 36 bytes. */
  function WriteAddresses64(h: ElfHeader64): (r: seq<byte>)
    ensures |r| == 36
  {
    LE(h.fileType, 2) + (LE(h.machine, 2) + (LE(h.version, 4) + (LE(h.entryAddress, 8)
    + (LE(h.programHeaderOffset, 8) + (LE(h.sectionHeaderOffset, 8) + LE(h.flags, 4))))))
  }

  /** ehsize, phentsize, phnum, shentsize, shnum and shstrndx, two bytes
      each, as both headers write them; the string-table index goes through
      a `(ushort)` cast. */
  function WriteCounts(elfHeaderSize: u16, programHeaderEntrySize: u16, programHeaderCount: u16,
    sectionHeaderEntrySize: u16, sectionHeaderCount: u16, sectionHeaderStringIndex: int): (r: seq<byte>)
    ensures |r| == 12
  {
    LE(elfHeaderSize, 2) + (LE(programHeaderEntrySize, 2) + (LE(programHeaderCount, 2)
    + (LE(sectionHeaderEntrySize, 2) + (LE(sectionHeaderCount, 2) + LE(sectionHeaderStringIndex, 2)))))
  }

  /** The fields `ReadFrom64` reads before the two-byte ones. */
  datatype Addresses = Addresses(fileType: u16, machine: u16, version: u32,
    entryAddress: u64, programHeaderOffset: u64, sectionHeaderOffset: u64, flags: u32)

  /** The two-byte fields `ReadFrom64` keeps; the three sizes are read and
      dropped without a check. */
  datatype Counts = Counts(programHeaderCount: u16, sectionHeaderCount: u16, sectionHeaderStringIndex: u16)

  function ReadAddresses64(s: seq<byte>): (r: (Addresses, seq<byte>))
    requires |s| >= 36
    ensures |r.1| == |s| - 36
  {
    Pow256Values();
    var (fileType, s1) := Read(s, 2);
    var (machine, s2) := Read(s1, 2);
    var (version, s3) := Read(s2, 4);
    var (entryAddress, s4) := Read(s3, 8);
    var (programHeaderOffset, s5) := Read(s4, 8);
    var (sectionHeaderOffset, s6) := Read(s5, 8);
    var (flags, s7) := Read(s6, 4);
    (Addresses(fileType, machine, version, entryAddress, programHeaderOffset, sectionHeaderOffset, flags), s7)
  }

  function ReadCounts(s: seq<byte>): (r: (Counts, seq<byte>))
    requires |s| >= 12
    ensures |r.1| == |s| - 12
  {
    Pow256Values();
    var (_, s1) := Read(s, 2);
    var (_, s2) := Read(s1, 2);
    var (programHeaderCount, s3) := Read(s2, 2);
    var (_, s4) := Read(s3, 2);
    var (sectionHeaderCount, s5) := Read(s4, 2);
    var (sectionHeaderStringIndex, s6) := Read(s5, 2);
    (Counts(programHeaderCount, sectionHeaderCount, sectionHeaderStringIndex), s6)
  }

  /** `ElfHeader64.ReadFrom64`: the same fields in the same order. A
      stream shorter than 48 bytes makes a read throw, which is None here. */
  function ReadFrom64(s: seq<byte>): (r: Option<(ElfHeader64, seq<byte>)>)
    ensures r.Some? <==> |s| >= 48
    ensures r.Some? ==> |r.value.1| == |s| - 48
  {
    if |s| < 48 then None
    else
      var (a, s7) := ReadAddresses64(s);
      var (c, s13) := ReadCounts(s7);
      Some((ElfHeader64(a.fileType, a.machine, a.version, a.entryAddress, a.programHeaderOffset, c.programHeaderCount,
        a.sectionHeaderOffset, c.sectionHeaderCount, a.flags, c.sectionHeaderStringIndex), s13))
  }

  lemma Addresses64RoundTrip(h: ElfHeader64, rest: seq<byte>)
    ensures ReadAddresses64(WriteAddresses64(h) + rest) == (Addresses(h.fileType, h.machine, h.version,
      h.entryAddress, h.programHeaderOffset, h.sectionHeaderOffset, h.flags), rest)
  {
    Pow256Values();
    var t7 := LE(h.flags, 4) + rest;
    var t6 := LE(h.sectionHeaderOffset, 8) + t7;
    var t5 := LE(h.programHeaderOffset, 8) + t6;
    var t4 := LE(h.entryAddress, 8) + t5;
    var t3 := LE(h.version, 4) + t4;
    var t2 := LE(h.machine, 2) + t3;
    var t1 := LE(h.fileType, 2) + t2;
    assert WriteAddresses64(h) + rest == t1 by {
      var f := LE(h.sectionHeaderOffset, 8) + LE(h.flags, 4);
      var e := LE(h.programHeaderOffset, 8) + f;
      var d := LE(h.entryAddress, 8) + e;
      var c := LE(h.version, 4) + d;
      var b := LE(h.machine, 2) + c;
      AppendAssoc(LE(h.fileType, 2), b, rest);
      AppendAssoc(LE(h.machine, 2), c, rest);
      AppendAssoc(LE(h.version, 4), d, rest);
      AppendAssoc(LE(h.entryAddress, 8), e, rest);
      AppendAssoc(LE(h.programHeaderOffset, 8), f, rest);
      AppendAssoc(LE(h.sectionHeaderOffset, 8), LE(h.flags, 4), rest);
    }
    ReadWrittenBounded(h.fileType, 2, t2);
    ReadWrittenBounded(h.machine, 2, t3);
    ReadWrittenBounded(h.version, 4, t4);
    ReadWrittenBounded(h.entryAddress, 8, t5);
    ReadWrittenBounded(h.programHeaderOffset, 8, t6);
    ReadWrittenBounded(h.sectionHeaderOffset, 8, t7);
    ReadWrittenBounded(h.flags, 4, rest);
  }

  /** Reading back the six two-byte fields recovers the three that are
      kept, the string-table index cut to 16 bits. */
  lemma CountsRoundTrip(elfHeaderSize: u16, programHeaderEntrySize: u16, programHeaderCount: u16,
    sectionHeaderEntrySize: u16, sectionHeaderCount: u16, sectionHeaderStringIndex: int, rest: seq<byte>)
    ensures ReadCounts(WriteCounts(elfHeaderSize, programHeaderEntrySize, programHeaderCount,
        sectionHeaderEntrySize, sectionHeaderCount, sectionHeaderStringIndex) + rest)
      == (Counts(programHeaderCount, sectionHeaderCount, sectionHeaderStringIndex % 0x1_0000), rest)
  {
    Pow256Values();
    var t6 := LE(sectionHeaderStringIndex, 2) + rest;
    var t5 := LE(sectionHeaderCount, 2) + t6;
    var t4 := LE(sectionHeaderEntrySize, 2) + t5;
    var t3 := LE(programHeaderCount, 2) + t4;
    var t2 := LE(programHeaderEntrySize, 2) + t3;
    var t1 := LE(elfHeaderSize, 2) + t2;
    assert WriteCounts(elfHeaderSize, programHeaderEntrySize, programHeaderCount,
        sectionHeaderEntrySize, sectionHeaderCount, sectionHeaderStringIndex) + rest == t1 by {
      var e := LE(sectionHeaderCount, 2) + LE(sectionHeaderStringIndex, 2);
      var d := LE(sectionHeaderEntrySize, 2) + e;
      var c := LE(programHeaderCount, 2) + d;
      var b := LE(programHeaderEntrySize, 2) + c;
      AppendAssoc(LE(elfHeaderSize, 2), b, rest);
      AppendAssoc(LE(programHeaderEntrySize, 2), c, rest);
      AppendAssoc(LE(programHeaderCount, 2), d, rest);
      AppendAssoc(LE(sectionHeaderEntrySize, 2), e, rest);
      AppendAssoc(LE(sectionHeaderCount, 2), LE(sectionHeaderStringIndex, 2), rest);
    }
    ReadWrittenBounded(elfHeaderSize, 2, t2);
    ReadWrittenBounded(programHeaderEntrySize, 2, t3);
    ReadWrittenBounded(programHeaderCount, 2, t4);
    ReadWrittenBounded(sectionHeaderEntrySize, 2, t5);
    ReadWrittenBounded(sectionHeaderCount, 2, t6);
    ReadWritten(sectionHeaderStringIndex, 2, rest);
  }

  /** Reading back what `WriteTo` wrote recovers every field, except that
      the string-table index went through a `(ushort)` cast; the stream is
      left just after the header. */
  lemma Header64RoundTrip(h: ElfHeader64, programHeaderEntrySize: u16, rest: seq<byte>)
    ensures ReadFrom64(Write64(h, programHeaderEntrySize) + rest)
      == Some((h.(sectionHeaderStringIndex := h.sectionHeaderStringIndex % 0x1_0000), rest))
  {
    var counts := WriteCounts(ElfHeaderSize64, programHeaderEntrySize, h.programHeaderCount,
      SectionHeaderEntrySize64, h.sectionHeaderCount, h.sectionHeaderStringIndex);
    AppendAssoc(WriteAddresses64(h), counts, rest);
    Addresses64RoundTrip(h, counts + rest);
    CountsRoundTrip(ElfHeaderSize64, programHeaderEntrySize, h.programHeaderCount,
      SectionHeaderEntrySize64, h.sectionHeaderCount, h.sectionHeaderStringIndex, rest);
  }

  /** The size fields `WriteCounts` writes first, second and fourth. */
  lemma CountsSizeFields(elfHeaderSize: u16, programHeaderEntrySize: u16, programHeaderCount: u16,
    sectionHeaderEntrySize: u16, sectionHeaderCount: u16, sectionHeaderStringIndex: int)
    ensures var w := WriteCounts(elfHeaderSize, programHeaderEntrySize, programHeaderCount,
        sectionHeaderEntrySize, sectionHeaderCount, sectionHeaderStringIndex);
      Unsigned(w[0..2]) == elfHeaderSize && Unsigned(w[2..4]) == programHeaderEntrySize
      && Unsigned(w[6..8]) == sectionHeaderEntrySize
  {
    var w := WriteCounts(elfHeaderSize, programHeaderEntrySize, programHeaderCount,
      sectionHeaderEntrySize, sectionHeaderCount, sectionHeaderStringIndex);
    Pow256Values();
    assert w[0..2] == LE(elfHeaderSize, 2);
    assert w[2..4] == LE(programHeaderEntrySize, 2);
    assert w[6..8] == LE(sectionHeaderEntrySize, 2);
    UnsignedLEBounded(elfHeaderSize, 2);
    UnsignedLEBounded(programHeaderEntrySize, 2);
    UnsignedLEBounded(sectionHeaderEntrySize, 2);
  }

  /** A slice of the second part of a concatenation. */
  lemma SliceAfter(a: seq<byte>, c: seq<byte>, i: nat, j: nat)
    requires i <= j <= |c|
    ensures (a + c)[|a| + i..|a| + j] == c[i..j]
  {
  }

  /** The 64-bit header always claims a 0x40-byte header and 0x40-byte
      section headers, at offsets 36 and 42 of what it writes. */
  lemma Header64SizeFields(h: ElfHeader64, programHeaderEntrySize: u16)
    ensures var w := Write64(h, programHeaderEntrySize);
      Unsigned(w[36..38]) == 0x40 && Unsigned(w[38..40]) == programHeaderEntrySize && Unsigned(w[42..44]) == 0x40
  {
    var a := WriteAddresses64(h);
    var c := WriteCounts(ElfHeaderSize64, programHeaderEntrySize, h.programHeaderCount,
      SectionHeaderEntrySize64, h.sectionHeaderCount, h.sectionHeaderStringIndex);
    CountsSizeFields(ElfHeaderSize64, programHeaderEntrySize, h.programHeaderCount,
      SectionHeaderEntrySize64, h.sectionHeaderCount, h.sectionHeaderStringIndex);
    assert Write64(h, programHeaderEntrySize) == a + c;
    SliceAfter(a, c, 0, 2);
    SliceAfter(a, c, 2, 4);
    SliceAfter(a, c, 6, 8);
  }

  // ---- the 32-bit header ----

  /** ElfHeader32's properties. The three addresses are `IntPtr`s, 64 bits
      wide in a 64-bit process. `Ident` is declared but never assigned. */
  datatype ElfHeader32 = ElfHeader32(
    fileType: u16, machine: u16, version: u32,
    entryAddress: i64, programHeaderOffset: i64, programHeaderCount: u16,
    sectionHeaderOffset: i64, sectionHeaderCount: u16, flags: u32,
    sectionHeaderStringIndex: i32)

  /** `ElfHeader32.WriteTo`: the 64-bit layout with the three addresses
      cast to `uint`, so four bytes each; no identification bytes are
      written. `ProgramHeader.EntrySize32` is the parameter. */
  function Write32(h: ElfHeader32, programHeaderEntrySize: u16): (r: seq<byte>)
    ensures |r| + ElfIdent.IdentSize == ElfHeaderSize32 as int
  {
    WriteAddresses32(h) + WriteCounts(ElfHeaderSize32, programHeaderEntrySize, h.programHeaderCount,
      SectionHeaderEntrySize32, h.sectionHeaderCount, h.sectionHeaderStringIndex)
  }

  /** The first seven fields: 24 bytes. */
  function WriteAddresses32(h: ElfHeader32): (r: seq<byte>)
    ensures |r| == 24
  {
    LE(h.fileType, 2) + (LE(h.machine, 2) + (LE(h.version, 4) + (LE(h.entryAddress, 4)
    + (LE(h.programHeaderOffset, 4) + (LE(h.sectionHeaderOffset, 4) + LE(h.flags, 4))))))
  }

  /** A reader of the standard ELF32 layout, the partner of `Write32`; the
      source has no working reader (its commented-out one skips the three
      size fields). The addresses come back as 32-bit unsigned values. */
  function ReadFrom32(s: seq<byte>): (r: Option<(ElfHeader32, seq<byte>)>)
    ensures r.Some? <==> |s| >= 36
    ensures r.Some? ==> |r.value.1| == |s| - 36
  {
    if |s| < 36 then None
    else
      Pow256Values();
      var (fileType, s1) := Read(s, 2);
      var (machine, s2) := Read(s1, 2);
      var (version, s3) := Read(s2, 4);
      var (entryAddress, s4) := Read(s3, 4);
      var (programHeaderOffset, s5) := Read(s4, 4);
      var (sectionHeaderOffset, s6) := Read(s5, 4);
      var (flags, s7) := Read(s6, 4);
      var (c, s13) := ReadCounts(s7);
      Some((ElfHeader32(fileType, machine, version, entryAddress, programHeaderOffset, c.programHeaderCount,
        sectionHeaderOffset, c.sectionHeaderCount, flags, c.sectionHeaderStringIndex), s13))
  }

  lemma Addresses32RoundTrip(h: ElfHeader32, rest: seq<byte>)
    ensures var s := WriteAddresses32(h) + rest;
      Read(s, 2).0 == h.fileType && Read(Read(s, 2).1, 2).0 == h.machine
      && Read(Read(Read(s, 2).1, 2).1, 4) == (h.version, LE(h.entryAddress, 4) + (LE(h.programHeaderOffset, 4)
        + (LE(h.sectionHeaderOffset, 4) + (LE(h.flags, 4) + rest))))
  {
    Pow256Values();
    var t7 := LE(h.flags, 4) + rest;
    var t6 := LE(h.sectionHeaderOffset, 4) + t7;
    var t5 := LE(h.programHeaderOffset, 4) + t6;
    var t4 := LE(h.entryAddress, 4) + t5;
    var t3 := LE(h.version, 4) + t4;
    var t2 := LE(h.machine, 2) + t3;
    var t1 := LE(h.fileType, 2) + t2;
    assert WriteAddresses32(h) + rest == t1 by {
      var f := LE(h.sectionHeaderOffset, 4) + LE(h.flags, 4);
      var e := LE(h.programHeaderOffset, 4) + f;
      var d := LE(h.entryAddress, 4) + e;
      var c := LE(h.version, 4) + d;
      var b := LE(h.machine, 2) + c;
      AppendAssoc(LE(h.fileType, 2), b, rest);
      AppendAssoc(LE(h.machine, 2), c, rest);
      AppendAssoc(LE(h.version, 4), d, rest);
      AppendAssoc(LE(h.entryAddress, 4), e, rest);
      AppendAssoc(LE(h.programHeaderOffset, 4), f, rest);
      AppendAssoc(LE(h.sectionHeaderOffset, 4), LE(h.flags, 4), rest);
    }
    ReadWrittenBounded(h.fileType, 2, t2);
    ReadWrittenBounded(h.machine, 2, t3);
    ReadWrittenBounded(h.version, 4, t4);
  }

  /** Reading the 32-bit layout back recovers every field, with the three
      addresses cut to their low 32 bits and the string-table index to 16. */
  lemma Header32RoundTrip(h: ElfHeader32, programHeaderEntrySize: u16, rest: seq<byte>)
    ensures ReadFrom32(Write32(h, programHeaderEntrySize) + rest)
      == Some((h.(entryAddress := h.entryAddress % 0x1_0000_0000,
                  programHeaderOffset := h.programHeaderOffset % 0x1_0000_0000,
                  sectionHeaderOffset := h.sectionHeaderOffset % 0x1_0000_0000,
                  sectionHeaderStringIndex := h.sectionHeaderStringIndex % 0x1_0000), rest))
  {
    Pow256Values();
    var counts := WriteCounts(ElfHeaderSize32, programHeaderEntrySize, h.programHeaderCount,
      SectionHeaderEntrySize32, h.sectionHeaderCount, h.sectionHeaderStringIndex);
    AppendAssoc(WriteAddresses32(h), counts, rest);
    Addresses32RoundTrip(h, counts + rest);
    var t7 := LE(h.flags, 4) + (counts + rest);
    var t6 := LE(h.sectionHeaderOffset, 4) + t7;
    var t5 := LE(h.programHeaderOffset, 4) + t6;
    ReadWritten(h.entryAddress, 4, t5);
    ReadWritten(h.programHeaderOffset, 4, t6);
    ReadWritten(h.sectionHeaderOffset, 4, t7);
    ReadWrittenBounded(h.flags, 4, counts + rest);
    CountsRoundTrip(ElfHeaderSize32, programHeaderEntrySize, h.programHeaderCount,
      SectionHeaderEntrySize32, h.sectionHeaderCount, h.sectionHeaderStringIndex, rest);
  }

  /** The 32-bit header claims a 0x34-byte header and 0x28-byte section
      headers, at offsets 24 and 30 of what it writes. */
  lemma Header32SizeFields(h: ElfHeader32, programHeaderEntrySize: u16)
    ensures var w := Write32(h, programHeaderEntrySize);
      Unsigned(w[24..26]) == 0x34 && Unsigned(w[26..28]) == programHeaderEntrySize && Unsigned(w[30..32]) == 0x28
  {
    var a := WriteAddresses32(h);
    var c := WriteCounts(ElfHeaderSize32, programHeaderEntrySize, h.programHeaderCount,
      SectionHeaderEntrySize32, h.sectionHeaderCount, h.sectionHeaderStringIndex);
    CountsSizeFields(ElfHeaderSize32, programHeaderEntrySize, h.programHeaderCount,
      SectionHeaderEntrySize32, h.sectionHeaderCount, h.sectionHeaderStringIndex);
    assert Write32(h, programHeaderEntrySize) == a + c;
    SliceAfter(a, c, 0, 2);
    SliceAfter(a, c, 2, 4);
    SliceAfter(a, c, 6, 8);
  }
}
