/** SymbolEntry32.cs: one entry of an ELF32 symbol table ("Symbol Table"
    in the System V ABI, chapter "Object Files"). */
module SymbolEntries {
  import opened Wrappers
  import opened Bytes
  import opened BinaryIo
  import Buffers

  /** `EntrySize32`. */
  const EntrySize32 := 0x10

  /** SymbolType.cs. */
  const NotSpecified := 0
  const Object := 1
  const Function := 2

  /** SymbolVisibility.cs. */
  const Default := 0
  const Protected := 3
  const Exported := 4

  /** The public fields of a symbol entry. The three enums are C# `int`s
      (SymbolBinding.cs is not part of this model). */
  datatype SymbolFields = SymbolFields(
    name: u32, value: u64, size: u64,
    binding: i32, symbolType: i32, visibility: i32,
    sectionHeaderTableIndex: i32)

  /** `Info`: the binding cast to a byte and shifted into the high nibble,
      the type's low nibble below it, all cast to a byte. The two parts
      share no bit, so the `|` is a sum. */
  function Info(binding: int, symbolType: int): (r: byte)
    ensures r / 16 == binding % 16 && r % 16 == symbolType % 16
  {
    InfoNibbles(binding, symbolType);
    ToByte(ToByte(binding) * 16 + ToByte(symbolType) % 16)
  }

  lemma InfoNibbles(binding: int, symbolType: int)
    ensures var r := ToByte(ToByte(binding) * 16 + ToByte(symbolType) % 16);
      r / 16 == binding % 16 && r % 16 == symbolType % 16
  {
    var b, t := ToByte(binding), ToByte(symbolType) % 16;
    assert t == symbolType % 16 by {
      ModUnique(symbolType, 16, 16 * (symbolType / 256) + (symbolType % 256) / 16, t);
    }
    var q := b / 16;
    assert b == 16 * q + b % 16;
    assert b % 16 == binding % 16 by {
      ModUnique(binding, 16, 16 * (binding / 256) + q, b % 16);
    }
    ModUnique(b * 16 + t, 256, q, (b % 16) * 16 + t);
    ModUnique((b % 16) * 16 + t, 16, b % 16, t);
  }

  /** `Other`: the visibility cast to a byte, masked to two bits. */
  function Other(visibility: int): (r: byte)
    ensures r == visibility % 4
  {
    ModUnique(visibility, 4, 64 * (visibility / 256) + ToByte(visibility) / 4, ToByte(visibility) % 4);
    ToByte(visibility) % 4
  }

  /** `WriteTo`: name, `(uint)Value`, `(uint)Size`, Info, Other and the
      section index as a `ushort`: 16 bytes. */
  function Write(f: SymbolFields): (r: seq<byte>)
    ensures |r| == EntrySize32
  {
    LE(f.name, 4) + LE(f.value % 0x1_0000_0000, 4) + LE(f.size % 0x1_0000_0000, 4)
    + [Info(f.binding, f.symbolType)] + [Other(f.visibility)] + LE(f.sectionHeaderTableIndex % 0x1_0000, 2)
  }

  /** What a reader of the standard's symbol layout sees: the info byte
      split into binding (high nibble) and type (low nibble). */
  datatype ReadSymbol = ReadSymbol(name: nat, value: nat, size: nat, binding: nat, symbolType: nat,
    other: nat, sectionHeaderTableIndex: nat)

  function ReadFrom(s: seq<byte>): (r: Option<(ReadSymbol, seq<byte>)>)
    ensures r.Some? <==> |s| >= EntrySize32
    ensures r.Some? ==> |r.value.1| == |s| - EntrySize32 && r.value.0.binding < 16 && r.value.0.symbolType < 16
  {
    if |s| < EntrySize32 then None
    else
      var (name, s1) := Read(s, 4);
      var (value, s2) := Read(s1, 4);
      var (size, s3) := Read(s2, 4);
      var (info, s4) := Read(s3, 1);
      var (other, s5) := Read(s4, 1);
      var (index, s6) := Read(s5, 2);
      assert info < 256 by { Pow256Values(); }
      Some((ReadSymbol(name, value, size, info / 16, info % 16, other, index), s6))
  }

  /** Reading a written entry back: name, the low 32 bits of value and
      size, the low nibbles of binding and type, the visibility's low two
      bits and the index's low 16 bits. */
  lemma {:induction false} SymbolRoundTrip(f: SymbolFields, rest: seq<byte>)
    ensures ReadFrom(Write(f) + rest) == Some((ReadSymbol(f.name, f.value % 0x1_0000_0000, f.size % 0x1_0000_0000,
      f.binding % 16, f.symbolType % 16, f.visibility % 4, f.sectionHeaderTableIndex % 0x1_0000), rest))
  {
    var info, other := Info(f.binding, f.symbolType), Other(f.visibility);
    Regroup(LE(f.name, 4), LE(f.value % 0x1_0000_0000, 4), LE(f.size % 0x1_0000_0000, 4), [info], [other],
      LE(f.sectionHeaderTableIndex % 0x1_0000, 2), rest);
    ReadFields(f.name, f.value % 0x1_0000_0000, f.size % 0x1_0000_0000, info, other,
      f.sectionHeaderTableIndex % 0x1_0000, rest);
  }

  /** `ReadFrom` on six written fields, regrouped from the right. */
  lemma ReadFields(name: nat, value: nat, size: nat, info: byte, other: byte, index: nat, rest: seq<byte>)
    requires name < 0x1_0000_0000 && value < 0x1_0000_0000 && size < 0x1_0000_0000 && index < 0x1_0000
    ensures ReadFrom(LE(name, 4) + (LE(value, 4) + (LE(size, 4) + ([info] + ([other] + (LE(index, 2) + rest))))))
      == Some((ReadSymbol(name, value, size, info / 16, info % 16, other, index), rest))
  {
    Pow256Values();
    var t6 := LE(index, 2) + rest;
    var t5 := LE(other, 1) + t6;
    var t4 := LE(info, 1) + t5;
    var t3 := LE(size, 4) + t4;
    var t2 := LE(value, 4) + t3;
    assert LE(info, 1) == [info] by { ModUnique(info, 256, 0, info); }
    assert LE(other, 1) == [other] by { ModUnique(other, 256, 0, other); }
    ReadWrittenBounded(name, 4, t2);
    ReadWrittenBounded(value, 4, t3);
    ReadWrittenBounded(size, 4, t4);
    ReadWrittenBounded(info, 1, t5);
    ReadWrittenBounded(other, 1, t6);
    ReadWrittenBounded(index, 2, rest);
  }

  /** Six writes followed by the rest of the stream, regrouped from the
      right. */
  lemma Regroup(a: seq<byte>, b: seq<byte>, c: seq<byte>, d: seq<byte>, e: seq<byte>, g: seq<byte>, rest: seq<byte>)
    ensures a + b + c + d + e + g + rest == a + (b + (c + (d + (e + (g + rest)))))
  {
    AppendAssoc(a + b + c + d + e, g, rest);
    AppendAssoc(a + b + c + d, e, g + rest);
    AppendAssoc(a + b + c, d, e + (g + rest));
    AppendAssoc(a + b, c, d + (e + (g + rest)));
    AppendAssoc(a, b, c + (d + (e + (g + rest))));
  }

  /** The visibility has three bits of values but two are kept: Exported
      (4) is written as Default (0). */
  lemma ExportedWrapsToDefault()
    ensures Other(Exported) == Default && Other(Protected) == Protected
  {
  }

  /** SymbolEntry32: a class with public mutable fields. */
  class SymbolEntry32 {
    var name: u32
    var value: u64
    var size: u64
    var binding: i32
    var symbolType: i32
    var visibility: i32
    var sectionHeaderTableIndex: i32

    constructor()
      ensures Fields() == SymbolFields(0, 0, 0, 0, 0, 0, 0)
    {
      name, value, size := 0, 0, 0;
      binding, symbolType, visibility := 0, 0, 0;
      sectionHeaderTableIndex := 0;
    }

    function Fields(): SymbolFields
      reads this
    {
      SymbolFields(name, value, size, binding, symbolType, visibility, sectionHeaderTableIndex)
    }

    /** `GetEntrySize()`. */
    function GetEntrySize(): (r: nat)
      ensures r == |Write(Fields())|
    {
      EntrySize32
    }

    /** `WriteTo`: six writes, in the order of the layout. */
    method WriteTo(writer: Buffers.ByteList)
      modifies writer
      ensures writer.items == old(writer.items) + Write(Fields())
    {
      var nameBytes, valueBytes, sizeBytes := LE(name, 4), LE(value % 0x1_0000_0000, 4), LE(size % 0x1_0000_0000, 4);
      var info, other, indexBytes := Info(binding, symbolType), Other(visibility), LE(sectionHeaderTableIndex % 0x1_0000, 2);
      ghost var start := writer.items;
      writer.AddRange(nameBytes);
      writer.AddRange(valueBytes);
      AppendAssoc(start, nameBytes, valueBytes);
      writer.AddRange(sizeBytes);
      AppendAssoc(start, nameBytes + valueBytes, sizeBytes);
      writer.Add(info);
      AppendAssoc(start, nameBytes + valueBytes + sizeBytes, [info]);
      writer.Add(other);
      AppendAssoc(start, nameBytes + valueBytes + sizeBytes + [info], [other]);
      writer.AddRange(indexBytes);
      AppendAssoc(start, nameBytes + valueBytes + sizeBytes + [info] + [other], indexBytes);
    }
  }
}
