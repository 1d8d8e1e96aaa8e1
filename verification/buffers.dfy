/** The growable byte buffer the emitter and the assembler write into
    (a `List<byte>`). */
module Buffers {
  import opened Bytes

  class ByteList {
    var items: seq<byte>

    constructor()
      ensures items == []
    {
      items := [];
    }

    /** `Add`. */
    method Add(b: byte)
      modifies this
      ensures items == old(items) + [b]
    {
      items := items + [b];
    }

    /** `AddRange`. */
    method AddRange(bs: seq<byte>)
      modifies this
      ensures items == old(items) + bs
    {
      items := items + bs;
    }

    /** The indexer's setter `list[i] = b`. */
    method Set(i: nat, b: byte)
      requires i < |items|
      modifies this
      ensures items == old(items)[i := b]
    {
      items := items[i := b];
    }
  }
}
