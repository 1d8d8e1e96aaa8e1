/** The assembly syntax tree (AssemblyListing.cs, SectionDeclaration.cs,
    SectionLabel.cs, ExternDeclaration.cs, GlobalDeclaration.cs, Data.cs)
    and the literal-to-bytes constructors of Data. */
module Ast {
  import opened Bytes
  import O = Operands

  /** A data entry: the bytes it stands for. */
  datatype Data = Data(bytes: seq<byte>)

  /** `new Data(byte value)`: exactly that byte. */
  function FromByte(value: byte): (d: Data)
    ensures |d.bytes| == 1 && Unsigned(d.bytes) == value
  {
    Data([value])
  }

  /** `new Data(short value)`: `BitConverter.GetBytes`, least significant byte first. */
  function FromShort(value: i16): (d: Data)
    ensures |d.bytes| == 2 && Signed(d.bytes) == value
  {
    SignedLE(value, 2);
    Data(LE(value, 2))
  }

  /** `new Data(int value)`. */
  function FromInt(value: i32): (d: Data)
    ensures |d.bytes| == 4 && Signed(d.bytes) == value
  {
    SignedLE(value, 4);
    Data(LE(value, 4))
  }

  /** `new Data(long value)`. */
  function FromLong(value: i64): (d: Data)
    ensures |d.bytes| == 8 && Signed(d.bytes) == value
  {
    SignedLE(value, 8);
    Data(LE(value, 8))
  }

  /** The byte `Encoding.ASCII` gives one character: its code below 128, and
      the replacement '?' for anything else. */
  function AsciiByte(c: char): (b: byte)
    ensures b < 128
  {
    if (c as int) < 128 then c as int else '?' as int
  }

  /** `new Data(string value)`: `Encoding.ASCII.GetBytes`. */
  function FromString(value: string): (d: Data)
    ensures |d.bytes| == |value|
    ensures forall i :: 0 <= i < |value| ==> d.bytes[i] < 128
  {
    Data(seq(|value|, i requires 0 <= i < |value| => AsciiByte(value[i])))
  }

  /** Reading ASCII bytes back as characters. */
  function AsciiString(bytes: seq<byte>): (s: string)
    requires forall i :: 0 <= i < |bytes| ==> bytes[i] < 128
    ensures |s| == |bytes|
  {
    seq(|bytes|, i requires 0 <= i < |bytes| => bytes[i] as char)
  }

  /** ASCII text survives the round trip; every other character comes back as '?'. */
  lemma StringRoundTrip(value: string)
    ensures var back := AsciiString(FromString(value).bytes);
      forall i :: 0 <= i < |value| ==>
        back[i] == if (value[i] as int) < 128 then value[i] else '?'
  {
  }

  /** An ASCII string is recovered exactly. */
  lemma AsciiRoundTrip(value: string)
    requires forall i :: 0 <= i < |value| ==> (value[i] as int) < 128
    ensures AsciiString(FromString(value).bytes) == value
  {
    StringRoundTrip(value);
  }

  /** `new Data(0)` picks the int overload: four zero bytes, as `dd 0`. */
  lemma ZeroIsInt()
    ensures FromInt(0).bytes == [0, 0, 0, 0]
  {
  }

  /** A node of the tree the parser builds and the assembler walks. The
      source's class hierarchy becomes one tagged union; `Unsupported` is any
      other AstNode subclass, named by its runtime type. */
  datatype Node =
    | Listing(directives: seq<Node>)
    | Extern(name: string)
    | Global(name: string)
    | Section(name: string, entries: seq<Node>)
    | Instr(instruction: O.Instruction)
    | DataEntry(data: Data)
    | Label(name: string)
    | Unsupported(typeName: string)

  /** What a section may hold: instructions, data and labels. */
  predicate IsEntry(node: Node)
  {
    node.Instr? || node.DataEntry? || node.Label?
  }

  /** What a listing may hold: declarations and sections of entries. */
  predicate IsDirective(node: Node)
  {
    node.Extern? || node.Global?
    || (node.Section? && forall k :: 0 <= k < |node.entries| ==> IsEntry(node.entries[k]))
  }

  /** The shape of every tree the parser builds. */
  predicate WellFormedListing(node: Node)
  {
    node.Listing? && forall k :: 0 <= k < |node.directives| ==> IsDirective(node.directives[k])
  }
}
