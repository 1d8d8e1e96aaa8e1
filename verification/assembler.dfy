/** Assembler.cs: walks the tree, emitting instructions into one byte
    buffer and recording extern/global declarations in its symbol table;
    the private little-endian emitters and the reservation mechanism patch
    that buffer in place. */
module Assembling {
  import opened Bytes
  import opened Ast
  import O = Operands
  import Symbols
  import Buffers
  import Emitter
  import Definitions

  /** What `Assemble` gives back: null, an error string, or an exception
      that escaped (from `InstructionEmitter.Emit`). */
  datatype Outcome = Done | Failed(message: string) | Threw(message: string)

  /** The assembler's state as a value: the buffer and the symbol store. */
  datatype Machine = Machine(items: seq<byte>, store: Symbols.Store)

  /** `Assemble(node)` on a state. */
  function AssembleOf(node: Node, m: Machine): (r: (Outcome, Machine))
    ensures |m.items| <= |r.1.items| && r.1.items[..|m.items|] == m.items
    ensures Symbols.WellKeyed(m.store) ==> Symbols.WellKeyed(r.1.store)
    decreases node, 1
  {
    match node
    case Listing(directives) => AssembleAll(directives, m)
    case Extern(name) => (Done, Machine(m.items, Symbols.ImportIn(m.store, name).1))
    case Global(name) => (Done, Machine(m.items, Symbols.ExportIn(m.store, name).1))
    case Section(_, entries) => AssembleAll(entries, m)
    case Instr(instruction) => InstructionStep(instruction, m)
    case DataEntry(_) => (Done, m)
    case Label(_) => (Done, m)
    case Unsupported(typeName) => (Failed("unsupported AstNode: " + typeName), m)
  }

  /** What `Assemble` returns for an emitter result: nothing (`Done`) once
      it was emitted, the emitter's message otherwise. */
  function OutcomeOf(result: Emitter.EmitResult): (r: Outcome)
    ensures r == Done <==> result.Emitted?
    ensures r.Threw? <==> result.Threw?
    ensures !result.Emitted? ==> r.message == result.message
  {
    match result
    case Emitted => Done
    case NotSupported(message) => Failed(message)
    case Threw(message) => Threw(message)
  }

  /** One instruction: the emitter's bytes are appended and the symbols are
      left alone. */
  function InstructionStep(instruction: O.Instruction, m: Machine): (r: (Outcome, Machine))
    ensures r.1.store == m.store
    ensures |m.items| <= |r.1.items| && r.1.items[..|m.items|] == m.items
    ensures r.0 == Done <==> Emitter.EmitOf(instruction).result.Emitted?
  {
    var e := Emitter.EmitOf(instruction);
    (OutcomeOf(e.result), Machine(m.items + e.bytes, m.store))
  }

  /** The `foreach` over a listing's directives or a section's entries: the
      first outcome that is not null is returned at once. */
  function AssembleAll(nodes: seq<Node>, m: Machine): (r: (Outcome, Machine))
    ensures |m.items| <= |r.1.items| && r.1.items[..|m.items|] == m.items
    ensures Symbols.WellKeyed(m.store) ==> Symbols.WellKeyed(r.1.store)
    ensures nodes == [] ==> r == (Done, m)
    decreases nodes, 0
  {
    if nodes == [] then (Done, m)
    else
      var (outcome, m') := AssembleOf(nodes[0], m);
      if outcome != Done then (outcome, m')
      else
        var r := AssembleAll(nodes[1..], m');
        assert r.1.items[..|m.items|] == r.1.items[..|m'.items|][..|m.items|];
        r
  }

  /** Assembling one sequence after another is assembling their
      concatenation: the second only runs when the first ends with null,
      and nothing after a failing item is assembled. */
  lemma {:induction false} AssembleAllAppend(a: seq<Node>, b: seq<Node>, m: Machine)
    ensures var first := AssembleAll(a, m);
      AssembleAll(a + b, m) == if first.0 != Done then first else AssembleAll(b, first.1)
    decreases a
  {
    if a != [] {
      assert (a + b)[0] == a[0];
      assert (a + b)[1..] == a[1..] + b;
      var (outcome, m') := AssembleOf(a[0], m);
      if outcome == Done {
        AssembleAllAppend(a[1..], b, m');
      }
    } else {
      assert a + b == b;
    }
  }

  /** When assembling stops with an error, it is the outcome of one item,
      reached after every item before it succeeded. */
  lemma {:induction false} FirstErrorStops(nodes: seq<Node>, m: Machine)
    requires AssembleAll(nodes, m).0 != Done
    ensures exists k :: (0 <= k < |nodes| && AssembleAll(nodes[..k], m).0 == Done
                         && AssembleOf(nodes[k], AssembleAll(nodes[..k], m).1) == AssembleAll(nodes, m))
    decreases nodes
  {
    var (outcome, m') := AssembleOf(nodes[0], m);
    if outcome != Done {
      assert nodes[..0] == [];
      assert AssembleAll(nodes[..0], m) == (Done, m);
    } else {
      FirstErrorStops(nodes[1..], m');
      var k :| 0 <= k < |nodes[1..]| && AssembleAll(nodes[1..][..k], m').0 == Done
        && AssembleOf(nodes[1..][k], AssembleAll(nodes[1..][..k], m').1) == AssembleAll(nodes[1..], m');
      var before := nodes[..k + 1];
      assert before[0] == nodes[0] && before[1..] == nodes[1..][..k];
      assert AssembleAll(before, m) == AssembleAll(nodes[1..][..k], m');
      assert nodes[k + 1] == nodes[1..][k];
    }
  }

  /** Declarations, data entries and labels append nothing and never fail;
      imports and exports keep the symbol indices ordinal. */
  predicate IsDeclaration(node: Node)
  {
    node.Extern? || node.Global? || node.DataEntry? || node.Label?
  }

  lemma {:induction false} DeclarationsEmitNothing(nodes: seq<Node>, m: Machine)
    requires forall k :: 0 <= k < |nodes| ==> IsDeclaration(nodes[k])
    requires Symbols.Ordinal(m.store)
    ensures var r := AssembleAll(nodes, m);
      r.0 == Done && r.1.items == m.items && Symbols.Ordinal(r.1.store)
    decreases nodes
  {
    if nodes != [] {
      var n := nodes[0];
      if n.Extern? {
        Symbols.ImportKeepsOrdinal(m.store, n.name);
      } else if n.Global? {
        Symbols.ExportKeepsOrdinal(m.store, n.name);
      }
      DeclarationsEmitNothing(nodes[1..], AssembleOf(n, m).1);
    }
  }

  /** Assembling never breaks the ordinal symbol indices. */
  lemma {:induction false} AssembleKeepsOrdinal(node: Node, m: Machine)
    requires Symbols.Ordinal(m.store)
    ensures Symbols.Ordinal(AssembleOf(node, m).1.store)
    decreases node, 1
  {
    match node
    case Listing(directives) => AssembleAllKeepsOrdinal(directives, m);
    case Section(_, entries) => AssembleAllKeepsOrdinal(entries, m);
    case Extern(name) => Symbols.ImportKeepsOrdinal(m.store, name);
    case Global(name) => Symbols.ExportKeepsOrdinal(m.store, name);
    case _ =>
  }

  lemma {:induction false} AssembleAllKeepsOrdinal(nodes: seq<Node>, m: Machine)
    requires Symbols.Ordinal(m.store)
    ensures Symbols.Ordinal(AssembleAll(nodes, m).1.store)
    decreases nodes, 0
  {
    if nodes != [] {
      AssembleKeepsOrdinal(nodes[0], m);
      var (outcome, m') := AssembleOf(nodes[0], m);
      if outcome == Done {
        AssembleAllKeepsOrdinal(nodes[1..], m');
      }
    }
  }

  /** An outcome the emitter can produce: null, an escaped exception, or
      a failure whose message is the emitter's "instruction `...` not supported". */
  predicate FromEmitter(o: Outcome)
  {
    o.Failed? ==> |o.message| >= 13 && o.message[..13] == "instruction `"
  }

  /** A section of instructions, data and labels fails only in the emitter. */
  lemma {:induction false} EntriesFromEmitter(nodes: seq<Node>, m: Machine)
    requires forall k :: 0 <= k < |nodes| ==> IsEntry(nodes[k])
    ensures FromEmitter(AssembleAll(nodes, m).0)
    decreases nodes
  {
    if nodes != [] {
      var (outcome, m') := AssembleOf(nodes[0], m);
      if outcome == Done {
        EntriesFromEmitter(nodes[1..], m');
      }
    }
  }

  /** A listing of declarations and such sections fails only in the emitter. */
  lemma {:induction false} DirectivesFromEmitter(nodes: seq<Node>, m: Machine)
    requires forall k :: 0 <= k < |nodes| ==> IsDirective(nodes[k])
    ensures FromEmitter(AssembleAll(nodes, m).0)
    decreases nodes
  {
    if nodes != [] {
      if nodes[0].Section? {
        EntriesFromEmitter(nodes[0].entries, m);
      }
      var (outcome, m') := AssembleOf(nodes[0], m);
      if outcome == Done {
        DirectivesFromEmitter(nodes[1..], m');
      }
    }
  }

  /** A tree of the parser's shape never meets the "unsupported AstNode"
      branch: every failure assembling it is an instruction the emitter
      does not support. */
  lemma ParsedListingFromEmitter(node: Node, m: Machine)
    requires WellFormedListing(node)
    ensures FromEmitter(AssembleOf(node, m).0)
    ensures var o := AssembleOf(node, m).0;
      !(o.Failed? && |o.message| >= 21 && o.message[..21] == "unsupported AstNode: ")
  {
    DirectivesFromEmitter(node.directives, m);
    var o := AssembleOf(node, m).0;
    if o.Failed? && |o.message| >= 21 {
      assert o.message[0] == "instruction `"[0];
    }
  }

  /** `count` zero bytes. */
  function Zeros(count: nat): (z: seq<byte>)
    ensures |z| == count && forall i :: 0 <= i < count ==> z[i] == 0
  {
    seq(count, _ => 0)
  }

  /** The buffer with `bytes` written over it from `offset` on. */
  function Patch(items: seq<byte>, offset: nat, bytes: seq<byte>): (r: seq<byte>)
    requires offset + |bytes| <= |items|
    ensures |r| == |items|
    ensures forall i :: 0 <= i < |items| ==>
      r[i] == if offset <= i < offset + |bytes| then bytes[i - offset] else items[i]
  {
    items[..offset] + bytes + items[offset + |bytes|..]
  }

  /** Writing `bytes` from `offset` on by one indexer assignment per byte:
      the writes inside the buffer take effect, and the first one past its
      end throws ArgumentOutOfRangeException (`true`) with the rest unwritten. */
  function Overwrite(items: seq<byte>, offset: nat, bytes: seq<byte>): (r: (seq<byte>, bool))
    ensures |r.0| == |items|
    ensures r.1 <==> bytes != [] && |items| < offset + |bytes|
    ensures forall i :: 0 <= i < |items| ==>
      r.0[i] == if offset <= i < offset + |bytes| then bytes[i - offset] else items[i]
    decreases bytes
  {
    if bytes == [] then (items, false)
    else if offset >= |items| then (items, true)
    else Overwrite(items[offset := bytes[0]], offset + 1, bytes[1..])
  }

  /** A write that fits the buffer is a patch. */
  lemma {:induction false} OverwriteInside(items: seq<byte>, offset: nat, bytes: seq<byte>)
    requires offset + |bytes| <= |items|
    ensures Overwrite(items, offset, bytes) == (Patch(items, offset, bytes), false)
    decreases bytes
  {
    if bytes != [] {
      OverwriteInside(items[offset := bytes[0]], offset + 1, bytes[1..]);
      assert Patch(items[offset := bytes[0]], offset + 1, bytes[1..]) == Patch(items, offset, bytes);
    } else {
      assert Patch(items, offset, bytes) == items;
    }
  }

  /** Reserving n bytes and then patching all n of them is appending them. */
  lemma ReserveThenPatch(items: seq<byte>, bytes: seq<byte>)
    ensures Patch(items + Zeros(|bytes|), |items|, bytes) == items + bytes
  {
  }

  /** Assembler.cs. */
  class Assembler {
    const data: Buffers.ByteList
    const symbolTable: Symbols.SymbolTable
    var numReservations: int

    ghost predicate Valid()
      reads this, symbolTable
    {
      symbolTable.Valid()
    }

    /** The state `Assemble` works on. */
    function Current(): Machine
      reads this, data, symbolTable
    {
      Machine(data.items, symbolTable.store)
    }

    constructor()
      ensures Valid() && symbolTable.Ordered()
      ensures fresh(data) && fresh(symbolTable)
      ensures data.items == [] && symbolTable.store == map[] && numReservations == 0
    {
      data := new Buffers.ByteList();
      symbolTable := new Symbols.SymbolTable();
      numReservations := 0;
    }

    /** `GetBytes()`: a copy of the buffer. */
    method GetBytes() returns (bytes: seq<byte>)
      ensures bytes == data.items
    {
      bytes := data.items;
    }

    /** `Assemble(node)`. */
    method Assemble(node: Node) returns (outcome: Outcome)
      requires Valid()
      modifies data, symbolTable
      ensures Valid()
      ensures (outcome, Current()) == AssembleOf(node, old(Current()))
      decreases node, 1
    {
      match node
      case Listing(directives) =>
        outcome := AssembleEach(directives);
      case Extern(name) =>
        var _ := symbolTable.Import(name);
        outcome := Done;
      case Global(name) =>
        var _ := symbolTable.Export(name);
        outcome := Done;
      case Section(_, entries) =>
        outcome := AssembleEach(entries);
      case Instr(instruction) =>
        outcome := AssembleInstruction(instruction);
      case DataEntry(_) =>
        outcome := Done;
      case Label(_) =>
        outcome := Done;
      case Unsupported(typeName) =>
        outcome := Failed("unsupported AstNode: " + typeName);
    }

    /** The `Instruction` case of `Assemble`: the emitter appends to the
        data and its result becomes the outcome. */
    method AssembleInstruction(instruction: O.Instruction) returns (outcome: Outcome)
      requires Valid()
      modifies data
      ensures Valid()
      ensures (outcome, Current()) == InstructionStep(instruction, old(Current()))
    {
      var result, _ := Emitter.Emit(instruction, data);
      outcome := OutcomeOf(result);
    }

    /** The two `foreach` loops of `Assemble`. */
    method AssembleEach(nodes: seq<Node>) returns (outcome: Outcome)
      requires Valid()
      modifies data, symbolTable
      ensures Valid()
      ensures (outcome, Current()) == AssembleAll(nodes, old(Current()))
      decreases nodes, 0
    {
      var i := 0;
      while i < |nodes|
        invariant 0 <= i <= |nodes|
        invariant Valid()
        invariant AssembleAll(nodes, old(Current())) == AssembleAll(nodes[i..], Current())
      {
        assert nodes[i..][1..] == nodes[i + 1..];
        outcome := Assemble(nodes[i]);
        if outcome != Done {
          return;
        }
        i := i + 1;
      }
      outcome := Done;
    }

    method EmitByte(value: byte)
      modifies data
      ensures data.items == old(data.items) + [value]
    {
      data.Add(value);
    }

    /** `EmitShort`: the low byte, then `(emit >> 8) & 0xFF`. */
    method EmitShort(value: i16)
      modifies data
      ensures data.items == old(data.items) + LE(value, 2)
      ensures Signed(data.items[|old(data.items)|..]) == value
    {
      data.Add(ToByte(value));
      data.Add(ToByte(value / 0x100));
      LE2(value);
      SignedLE(value, 2);
      assert data.items[|old(data.items)|..] == LE(value, 2);
    }

    method EmitInt(value: i32)
      modifies data
      ensures data.items == old(data.items) + LE(value, 4)
      ensures Signed(data.items[|old(data.items)|..]) == value
    {
      data.Add(ToByte(value));
      data.Add(ToByte(value / 0x100));
      data.Add(ToByte(value / 0x1_0000));
      data.Add(ToByte(value / 0x100_0000));
      LE4(value);
      SignedLE(value, 4);
      assert data.items[|old(data.items)|..] == LE(value, 4);
    }

    method EmitLong(value: i64)
      modifies data
      ensures data.items == old(data.items) + LE(value, 8)
      ensures Signed(data.items[|old(data.items)|..]) == value
    {
      ghost var before := data.items;
      data.Add(ToByte(value));
      data.Add(ToByte(value / 0x100));
      data.Add(ToByte(value / 0x1_0000));
      data.Add(ToByte(value / 0x100_0000));
      data.Add(ToByte(value / 0x1_0000_0000));
      data.Add(ToByte(value / 0x100_0000_0000));
      data.Add(ToByte(value / 0x1_0000_0000_0000));
      data.Add(ToByte(value / 0x100_0000_0000_0000));
      LE8(value);
      assert data.items == before + LE(value, 8);
      SignedLE(value, 8);
      assert data.items[|before|..] == LE(value, 8);
    }

    method EmitBytes(bytes: seq<byte>)
      modifies data
      ensures data.items == old(data.items) + bytes
    {
      data.AddRange(bytes);
    }

    /** `EmitZeros(count)`: `while (count-- > 0)` appends one zero per step,
        so a negative count appends nothing. */
    method EmitZeros(count: int)
      modifies data
      ensures data.items == old(data.items) + Zeros(if count > 0 then count else 0)
    {
      var remaining := count;
      while remaining > 0
        invariant remaining <= 0 ==> remaining == count || remaining == 0
        invariant remaining > 0 ==> remaining <= count
        invariant data.items == old(data.items) + Zeros(if remaining > 0 then count - remaining else if count > 0 then count else 0)
      {
        remaining := remaining - 1;
        data.Add(0);
      }
    }

    /** `GetReservationTicket(size)`: the current length, after which `size`
        zeros are appended to be patched later. */
    method GetReservationTicket(size: int) returns (ticket: nat)
      modifies this, data
      ensures ticket == |old(data.items)|
      ensures data.items == old(data.items) + Zeros(if size > 0 then size else 0)
      ensures numReservations == old(numReservations) + 1
    {
      numReservations := numReservations + 1;
      ticket := |data.items|;
      EmitZeros(size);
    }

    /** `ReturnReservationTicket`: hands back the reservation's offset and
        counts it returned. Its `Debug.Assert` of an outstanding reservation
        is compiled out of release builds, so the count may go below zero. */
    method ReturnReservationTicket(reservation: nat) returns (offset: nat)
      modifies this
      ensures offset == reservation
      ensures numReservations == old(numReservations) - 1
    {
      numReservations := numReservations - 1;
      offset := reservation;
    }

    method ReserveByte() returns (ticket: nat)
      modifies this, data
      ensures ticket == |old(data.items)| && data.items == old(data.items) + Zeros(1)
      ensures numReservations == old(numReservations) + 1
    {
      ticket := GetReservationTicket(1);
    }

    method ReserveShort() returns (ticket: nat)
      modifies this, data
      ensures ticket == |old(data.items)| && data.items == old(data.items) + Zeros(2)
      ensures numReservations == old(numReservations) + 1
    {
      ticket := GetReservationTicket(2);
    }

    method ReserveInt() returns (ticket: nat)
      modifies this, data
      ensures ticket == |old(data.items)| && data.items == old(data.items) + Zeros(4)
      ensures numReservations == old(numReservations) + 1
    {
      ticket := GetReservationTicket(4);
    }

    /** `EmitByte(reservation, emit)`: overwrite the reserved byte. */
    method EmitByteAt(reservation: nat, value: byte) returns (thrown: bool)
      modifies this, data
      ensures (data.items, thrown) == Overwrite(old(data.items), reservation, [value])
      ensures numReservations == old(numReservations) - 1
    {
      var offset := ReturnReservationTicket(reservation);
      if offset >= |data.items| {
        return true;
      }
      data.Set(offset, value);
      thrown := false;
    }

    /** `EmitShort(reservation, emit)`: overwrite two reserved bytes. */
    method EmitShortAt(reservation: nat, value: i16) returns (thrown: bool)
      modifies this, data
      ensures (data.items, thrown) == Overwrite(old(data.items), reservation, LE(value, 2))
      ensures numReservations == old(numReservations) - 1
    {
      var offset := ReturnReservationTicket(reservation);
      ghost var items, bytes := data.items, LE(value, 2);
      LE2(value);
      if offset >= |data.items| {
        return true;
      }
      data.Set(offset, ToByte(value));
      assert Overwrite(items, offset, bytes) == Overwrite(data.items, offset + 1, bytes[1..]);
      if offset + 1 >= |data.items| {
        return true;
      }
      data.Set(offset + 1, ToByte(value / 0x100));
      assert bytes[1..][1..] == [];
      assert Overwrite(items, offset, bytes) == Overwrite(data.items, offset + 2, []);
      thrown := false;
    }

    /** `EmitInt(reservation, emit)`: overwrite four reserved bytes. */
    method EmitIntAt(reservation: nat, value: i32) returns (thrown: bool)
      modifies this, data
      ensures (data.items, thrown) == Overwrite(old(data.items), reservation, LE(value, 4))
      ensures numReservations == old(numReservations) - 1
    {
      var offset := ReturnReservationTicket(reservation);
      ghost var items, bytes := data.items, LE(value, 4);
      LE4(value);
      if offset >= |data.items| {
        return true;
      }
      data.Set(offset, ToByte(value));
      assert Overwrite(items, offset, bytes) == Overwrite(data.items, offset + 1, bytes[1..]);
      if offset + 1 >= |data.items| {
        return true;
      }
      data.Set(offset + 1, ToByte(value / 0x100));
      assert bytes[1..][1..] == bytes[2..];
      assert Overwrite(items, offset, bytes) == Overwrite(data.items, offset + 2, bytes[2..]);
      if offset + 2 >= |data.items| {
        return true;
      }
      data.Set(offset + 2, ToByte(value / 0x1_0000));
      assert bytes[2..][1..] == bytes[3..];
      assert Overwrite(items, offset, bytes) == Overwrite(data.items, offset + 3, bytes[3..]);
      if offset + 3 >= |data.items| {
        return true;
      }
      data.Set(offset + 3, ToByte(value / 0x100_0000));
      assert bytes[3..][1..] == [];
      assert Overwrite(items, offset, bytes) == Overwrite(data.items, offset + 4, []);
      thrown := false;
    }

    /** A reserved int patched later gives the same bytes as emitting it directly. */
    method ReserveAndPatchInt(value: i32)
      modifies this, data
      ensures data.items == old(data.items) + LE(value, 4)
      ensures numReservations == old(numReservations)
    {
      var ticket := ReserveInt();
      var _ := EmitIntAt(ticket, value);
      OverwriteInside(old(data.items) + Zeros(4), |old(data.items)|, LE(value, 4));
      ReserveThenPatch(old(data.items), LE(value, 4));
    }
  }
}
