/** ElfHeaderIdent.cs: the sixteen identification bytes that open an ELF
    file ("ELF Identification" in the System V ABI, chapter "Object Files"). */
module ElfIdent {
  import opened Wrappers
  import opened Bytes
  import Buffers

  /** `MagicNumber`: 7F 'E' 'L' 'F'. */
  const Magic: seq<byte> := [0x7F, 0x45, 0x4C, 0x46]

  /** IdentClass.cs. */
  const ClassNone: byte := 0
  const Class32: byte := 1
  const Class64: byte := 2

  /** IdentData is not part of this model; the standard's values. */
  const Data2LSB: byte := 1
  const Data2MSB: byte := 2

  /** `Version.Current`. */
  const VersionCurrent: byte := 1

  const IdentSize := 16

  /** The bytes the (class, data) constructor builds. */
  function IdentBytes(identClass: byte, data: byte): (r: seq<byte>)
    ensures |r| == IdentSize && r[..4] == Magic
    ensures r[4] == identClass && r[5] == data && r[6] == VersionCurrent
    ensures forall k :: 7 <= k < IdentSize ==> r[k] == 0
  {
    Magic + [identClass, data, VersionCurrent] + seq(9, _ => 0)
  }

  /** `IsValid`: the first four bytes are the magic number, compared one
      at a time and stopping at the first mismatch. Reaching an index the
      ident does not have throws, which is None here; so a short ident is
      invalid when a byte it has already differs, and throws otherwise. */
  function IsValidOf(ident: seq<byte>): (r: Option<bool>)
    ensures r == Some(true) <==> |ident| >= 4 && ident[..4] == Magic
    ensures r.None? <==> |ident| < 4 && ident == Magic[..|ident|]
  {
    if |ident| < 1 then None
    else if ident[0] != Magic[0] then Some(false)
    else if |ident| < 2 then None
    else if ident[1] != Magic[1] then Some(false)
    else if |ident| < 3 then None
    else if ident[2] != Magic[2] then Some(false)
    else if |ident| < 4 then
      assert ident == Magic[..3] by { assert ident == [ident[0], ident[1], ident[2]]; }
      None
    else
      assert ident[..4] == Magic <==> ident[3] == Magic[3] by {
        assert ident[..4] == [ident[0], ident[1], ident[2], ident[3]];
      }
      Some(ident[3] == Magic[3])
  }

  /** `IdentClass` (byte 4) and `IdentData` (byte 5), None where the
      indexing throws. */
  function ClassOf(ident: seq<byte>): (r: Option<byte>)
    ensures r.Some? <==> |ident| > 4
    ensures r.Some? ==> r.value == ident[4]
  {
    if |ident| > 4 then Some(ident[4]) else None
  }

  function DataOf(ident: seq<byte>): (r: Option<byte>)
    ensures r.Some? <==> |ident| > 5
    ensures r.Some? ==> r.value == ident[5]
  {
    if |ident| > 5 then Some(ident[5]) else None
  }

  /** `ReadFrom`: `ReadBytes(16)`, which returns fewer bytes at the end of
      the stream instead of throwing. */
  function ReadBytesOf(s: seq<byte>): (r: (seq<byte>, seq<byte>))
    ensures r.0 + r.1 == s
    ensures |r.0| == if |s| < IdentSize then |s| else IdentSize
  {
    if |s| < IdentSize then (s, []) else (s[..IdentSize], s[IdentSize..])
  }

  /** Reading back what a constructed ident wrote: valid, with the same
      class and data, and the stream positioned just after it. */
  lemma {:induction false} IdentRoundTrip(identClass: byte, data: byte, rest: seq<byte>)
    ensures var (ident, after) := ReadBytesOf(IdentBytes(identClass, data) + rest);
      IsValidOf(ident) == Some(true) && ClassOf(ident) == Some(identClass)
      && DataOf(ident) == Some(data) && after == rest
  {
    var written := IdentBytes(identClass, data);
    var s := written + rest;
    assert s[..IdentSize] == written;
    assert s[IdentSize..] == rest;
  }

  /** A stream shorter than four bytes: `IsValid` throws when every byte
      read so far matches the magic number, and is false otherwise. */
  lemma ShortIdent(s: seq<byte>)
    requires |s| < 4
    ensures IsValidOf(ReadBytesOf(s).0) == if s == Magic[..|s|] then None else Some(false)
  {
  }

  /** The empty stream throws; a first byte other than 7F is invalid
      without reaching the missing bytes, as is 7F followed by 00. */
  lemma ShortIdentExamples()
    ensures IsValidOf([]) == None
    ensures IsValidOf([0x00]) == Some(false)
    ensures IsValidOf([0x7F, 0x00]) == Some(false)
    ensures IsValidOf([0x7F, 0x45, 0x4C]) == None
  {
  }

  /** ElfHeaderIdent. The byte-array constructor keeps the caller's array
      itself, so later writes through either reference are seen by both. */
  class ElfHeaderIdent {
    const ident: array<byte>

    constructor FromBytes(bytes: array<byte>)
      ensures ident == bytes
    {
      ident := bytes;
    }

    /** The (class, data) constructor: magic, class, data, the current
        version, and zeros up to sixteen bytes. */
    constructor (identClass: byte, data: byte)
      ensures fresh(ident)
      ensures ident[..] == IdentBytes(identClass, data)
    {
      var bytes := new byte[16];
      bytes[0] := Magic[0];
      bytes[1] := Magic[1];
      bytes[2] := Magic[2];
      bytes[3] := Magic[3];
      bytes[4] := identClass;
      bytes[5] := data;
      bytes[6] := VersionCurrent;
      bytes[7] := 0;
      for i := 8 to 16
        invariant bytes[..4] == Magic
        invariant bytes[4] == identClass && bytes[5] == data && bytes[6] == VersionCurrent
        invariant forall k :: 7 <= k < i ==> bytes[k] == 0
      {
        bytes[i] := 0;
      }
      ident := bytes;
    }

    function IsValid(): (r: Option<bool>)
      reads ident
      ensures r == Some(true) <==> ident.Length >= 4 && ident[..4] == Magic
    {
      IsValidOf(ident[..])
    }

    function IdentClass(): Option<byte>
      reads ident
    {
      ClassOf(ident[..])
    }

    function IdentData(): Option<byte>
      reads ident
    {
      DataOf(ident[..])
    }

    /** `WriteTo`: the whole array, whatever its length. */
    method WriteTo(writer: Buffers.ByteList)
      modifies writer
      ensures writer.items == old(writer.items) + old(ident[..])
    {
      writer.AddRange(ident[..]);
    }

    /** `ReadFrom`: up to sixteen bytes into a fresh array. */
    static method ReadFrom(s: seq<byte>) returns (r: ElfHeaderIdent, rest: seq<byte>)
      ensures fresh(r) && fresh(r.ident)
      ensures (r.ident[..], rest) == ReadBytesOf(s)
    {
      var (bytes, after) := ReadBytesOf(s);
      var a := new byte[|bytes|](i requires 0 <= i < |bytes| => bytes[i]);
      assert a[..] == bytes;
      r := new ElfHeaderIdent.FromBytes(a);
      rest := after;
    }
  }
}
