/** The encoding table and the resolution of an instruction against it
    (InstructionDefinitions.cs, InstructionDefinition.cs,
    OperandTypeDefinition.cs, FixedOperandDefinition.cs). */
module Definitions {
  import opened Wrappers
  import opened Bytes
  import O = Operands

  /** An operand shape: a kind and size (OperandTypeDefinition) or one named
      register (FixedOperandDefinition, whose kind is Fixed). */
  datatype OperandDef =
    | Typed(kind: O.OperandType, size: O.OperandSize)
    | FixedReg(name: string, size: O.OperandSize)
  {
    function Kind(): O.OperandType
    {
      if FixedReg? then O.Fixed else kind
    }
  }

  // The only instances: the constructors are private to the two classes.
  const Memory8: OperandDef := Typed(O.Memory, O.Size8)
  const Memory16: OperandDef := Typed(O.Memory, O.Size16)
  const Memory32: OperandDef := Typed(O.Memory, O.Size32)
  const Memory64: OperandDef := Typed(O.Memory, O.Size64)
  const Reg8: OperandDef := Typed(O.Register, O.Size8)
  const Reg16: OperandDef := Typed(O.Register, O.Size16)
  const Reg32: OperandDef := Typed(O.Register, O.Size32)
  const Reg64: OperandDef := Typed(O.Register, O.Size64)
  const Imm8: OperandDef := Typed(O.Immediate, O.Size8)
  const Imm16: OperandDef := Typed(O.Immediate, O.Size16)
  const Imm32: OperandDef := Typed(O.Immediate, O.Size32)
  const AL: OperandDef := FixedReg("al", O.Size8)
  const AX: OperandDef := FixedReg("ax", O.Size16)
  const EAX: OperandDef := FixedReg("eax", O.Size32)
  const RAX: OperandDef := FixedReg("rax", O.Size64)

  /** `InstructionDefinition`: opcode bytes, operand shapes, whether the
      register index is added to the last opcode byte, and REX.W. */
  datatype Definition = Definition(opcode: seq<byte>, operands: seq<OperandDef>, opcodeReg: bool := false, w: bool := false)

  const AddDefinitions: seq<Definition> := [
    Definition([0x66, 0x83], [Reg16, Imm8]),
    Definition([0x83], [Reg32, Imm8]),
    Definition([0x83], [Reg64, Imm8], w := true),
    Definition([0x04], [AL, Imm8]),
    Definition([0x66, 0x05], [AX, Imm16]),
    Definition([0x05], [EAX, Imm32]),
    Definition([0x05], [RAX, Imm32], w := true),
    Definition([0x01], [Memory64, Reg64], w := true),
    Definition([0x01], [Memory32, Reg32]),
    Definition([0x01], [Memory16, Reg16]),
    Definition([0x03], [Reg64, Memory64], w := true),
    Definition([0x03], [Reg32, Memory32]),
    Definition([0x03], [Reg16, Memory16])
  ]

  const MovDefinitions: seq<Definition> := [
    Definition([0xB8], [Reg64, Imm32], opcodeReg := true),
    Definition([0x89], [Memory64, Reg64], w := true),
    Definition([0x8B], [Reg64, Memory64], w := true),
    Definition([0xC7], [Reg64, Imm32], w := true),
    Definition([0xC7], [Reg32, Imm32]),
    Definition([0xC7], [Reg16, Imm16]),
    Definition([0xC7], [Reg64, Imm32], w := true)
  ]

  const PushDefinitions: seq<Definition> := [
    Definition([0x50], [Reg16], opcodeReg := true),
    Definition([0x50], [Reg32], opcodeReg := true),
    Definition([0x50], [Reg64], opcodeReg := true),
    Definition([0x6A], [Imm8]),
    Definition([0x68], [Imm16]),
    Definition([0x68], [Imm32])
  ]

  const PopDefinitions: seq<Definition> := [
    Definition([0x58], [Reg16], opcodeReg := true),
    Definition([0x58], [Reg32], opcodeReg := true),
    Definition([0x58], [Reg64], opcodeReg := true)
  ]

  /** A shape the table can contain: no typed shape of kind Fixed and no
      64-bit immediate shape. */
  predicate ShapeOk(d: OperandDef)
  {
    (d.Typed? ==> d.kind != O.Fixed && d.size != O.SizeNone)
    && (d.Typed? && d.kind == O.Immediate ==> d.size != O.Size64)
  }

  /** What every table entry satisfies: a non-empty opcode, one or two
      shapes, and a register first shape when the register goes in the opcode. */
  predicate WellFormed(def: Definition)
  {
    |def.opcode| >= 1 && 1 <= |def.operands| <= 2
    && (forall k :: 0 <= k < |def.operands| ==> ShapeOk(def.operands[k]))
    && (def.opcodeReg ==> def.operands[0].Typed? && def.operands[0].kind == O.Register)
  }

  /** The dictionary lookup `TryGetValue(name)`: the entries of a known
      mnemonic, in declaration order. */
  function Table(name: string): (r: Option<seq<Definition>>)
    ensures r.Some? <==> name in {"add", "mov", "push", "pop"}
    ensures r.Some? ==> |r.value| > 0 && forall k :: 0 <= k < |r.value| ==> WellFormed(r.value[k])
  {
    if name == "add" then Some(AddDefinitions)
    else if name == "mov" then Some(MovDefinitions)
    else if name == "push" then Some(PushDefinitions)
    else if name == "pop" then Some(PopDefinitions)
    else None
  }

  /** `OperandMatches`: equal sizes, and either the register a fixed shape
      names, or the shape's kind, or a register where memory is asked for. */
  predicate OperandMatches(d: OperandDef, op: O.Operand)
  {
    op.Size() == d.size
    && match d
       case FixedReg(name, _) => op.Reg? && op.name == name
       case Typed(kind, _) => op.Kind() == kind || (op.Kind() == O.Register && kind == O.Memory)
  }

  /** `Matches`: equal arity and every operand matches its shape. */
  predicate Matches(def: Definition, ops: seq<O.Operand>)
  {
    |def.operands| == |ops| && forall k :: 0 <= k < |ops| ==> OperandMatches(def.operands[k], ops[k])
  }

  /** The index of the first matching entry, in declaration order. */
  function FirstMatch(defs: seq<Definition>, ops: seq<O.Operand>): (r: Option<nat>)
    ensures r.Some? ==> r.value < |defs| && Matches(defs[r.value], ops)
    ensures r.Some? ==> forall k :: 0 <= k < r.value ==> !Matches(defs[k], ops)
    ensures r.None? ==> forall k :: 0 <= k < |defs| ==> !Matches(defs[k], ops)
  {
    if defs == [] then None
    else if Matches(defs[0], ops) then Some(0)
    else match FirstMatch(defs[1..], ops)
      case None => None
      case Some(k) => Some(k + 1)
  }

  /** The operand `WidenInstructionOperandImm` widens: the leftmost top-level
      immediate that can still widen. */
  function WidenIndex(ops: seq<O.Operand>): (r: Option<nat>)
    ensures r.Some? ==> r.value < |ops| && ops[r.value].IsImm() && ops[r.value].CanWiden()
    ensures r.Some? ==> forall k :: 0 <= k < r.value ==> !(ops[k].IsImm() && ops[k].CanWiden())
    ensures r.None? ==> forall k :: 0 <= k < |ops| ==> !(ops[k].IsImm() && ops[k].CanWiden())
  {
    if ops == [] then None
    else if ops[0].IsImm() && ops[0].CanWiden() then Some(0)
    else match WidenIndex(ops[1..])
      case None => None
      case Some(k) => Some(k + 1)
  }

  /** How many widenings an operand still allows. */
  function Headroom(op: O.Operand): nat
  {
    match op
    case Imm8(_) => 3
    case Imm16(_) => 2
    case Imm32(_) => 1
    case _ => 0
  }

  function Budget(ops: seq<O.Operand>): nat
  {
    if ops == [] then 0 else Headroom(ops[0]) + Budget(ops[1..])
  }

  /** Each operand allows at most three widenings. */
  lemma {:induction false} BudgetBound(ops: seq<O.Operand>)
    ensures Budget(ops) <= 3 * |ops|
  {
    if ops != [] {
      BudgetBound(ops[1..]);
    }
  }

  /** Replacing one operand changes the budget by the change of its headroom. */
  lemma {:induction false} BudgetUpdate(ops: seq<O.Operand>, i: nat, x: O.Operand)
    requires i < |ops|
    ensures Budget(ops[i := x]) + Headroom(ops[i]) == Budget(ops) + Headroom(x)
  {
    if i == 0 {
      assert ops[i := x][1..] == ops[1..];
    } else {
      assert ops[i := x][1..] == ops[1..][i - 1 := x];
      BudgetUpdate(ops[1..], i - 1, x);
    }
  }

  /** One widening step lowers the budget by exactly one. */
  lemma WidenLowersBudget(ops: seq<O.Operand>, i: nat)
    requires i < |ops| && ops[i].IsImm() && ops[i].CanWiden()
    ensures Budget(ops[i := ops[i].Widen()]) + 1 == Budget(ops)
  {
    BudgetUpdate(ops, i, ops[i].Widen());
  }

  /** `b` is `a` after zero or more widenings: a non-immediate is untouched,
      a symbol or 64-bit immediate too, and a number keeps its value. */
  predicate Widens(a: O.Operand, b: O.Operand)
  {
    if a.IsImm() && a.CanWiden() then
      b.IsImm() && !b.Sym? && b.Value() == a.Value() && b.Size().Bits() >= a.Size().Bits()
    else b == a
  }

  predicate AllWiden(ops: seq<O.Operand>, ops': seq<O.Operand>)
  {
    |ops'| == |ops| && forall k :: 0 <= k < |ops| ==> Widens(ops[k], ops'[k])
  }

  lemma WidensTransitive(a: O.Operand, b: O.Operand, c: O.Operand)
    requires Widens(a, b) && Widens(b, c)
    ensures Widens(a, c)
  {
  }

  lemma AllWidenStep(ops0: seq<O.Operand>, ops: seq<O.Operand>, i: nat)
    requires AllWiden(ops0, ops)
    requires i < |ops| && ops[i].IsImm() && ops[i].CanWiden()
    ensures AllWiden(ops0, ops[i := ops[i].Widen()])
  {
    var ops' := ops[i := ops[i].Widen()];
    forall k | 0 <= k < |ops0|
      ensures Widens(ops0[k], ops'[k])
    {
      if k == i {
        WidensTransitive(ops0[k], ops[k], ops'[k]);
      }
    }
  }

  /** The `while (true)` retry loop of `Lookup`: the first matching entry, or
      else widen the leftmost widenable immediate and retry, or else give up.
      Returns the entry and the operands as the loop leaves them. */
  function Resolve(defs: seq<Definition>, ops: seq<O.Operand>): (r: (Option<Definition>, seq<O.Operand>))
    ensures AllWiden(ops, r.1)
    ensures r.0.Some? ==> exists k :: FirstMatch(defs, r.1) == Some(k) && r.0.value == defs[k]
    ensures r.0.None? ==> FirstMatch(defs, r.1).None? && WidenIndex(r.1).None?
    decreases Budget(ops)
  {
    match FirstMatch(defs, ops)
    case Some(k) => (Some(defs[k]), ops)
    case None =>
      match WidenIndex(ops)
      case None => (None, ops)
      case Some(i) =>
        WidenLowersBudget(ops, i);
        var r := Resolve(defs, ops[i := ops[i].Widen()]);
        AllWidenRefl(ops);
        AllWidenStep(ops, ops, i);
        AllWidenTransitive(ops, ops[i := ops[i].Widen()], r.1);
        r
  }

  lemma AllWidenTransitive(a: seq<O.Operand>, b: seq<O.Operand>, c: seq<O.Operand>)
    requires AllWiden(a, b) && AllWiden(b, c)
    ensures AllWiden(a, c)
  {
    forall k | 0 <= k < |a|
      ensures Widens(a[k], c[k])
    {
      WidensTransitive(a[k], b[k], c[k]);
    }
  }

  lemma AllWidenRefl(ops: seq<O.Operand>)
    ensures AllWiden(ops, ops)
  {
  }

  /** `Lookup` as a value: unknown mnemonics give no entry and untouched operands. */
  function LookupOf(instruction: O.Instruction): (r: (Option<Definition>, seq<O.Operand>))
    ensures Table(instruction.name).None? ==> r == (None, instruction.operands)
    ensures AllWiden(instruction.operands, r.1)
  {
    match Table(instruction.name)
    case None => (None, instruction.operands)
    case Some(defs) => Resolve(defs, instruction.operands)
  }

  /** `WidenInstructionOperandImm`: widen the leftmost widenable top-level
      immediate in place and report whether there was one. */
  method WidenOperandImm(ops: seq<O.Operand>) returns (widened: bool, ops': seq<O.Operand>)
    ensures widened <==> WidenIndex(ops).Some?
    ensures widened ==> ops' == ops[WidenIndex(ops).value := ops[WidenIndex(ops).value].Widen()]
    ensures !widened ==> ops' == ops
  {
    ops' := ops;
    for i := 0 to |ops|
      invariant forall k :: 0 <= k < i ==> !(ops[k].IsImm() && ops[k].CanWiden())
    {
      if ops[i].IsImm() && ops[i].CanWiden() {
        ops' := ops[i := ops[i].Widen()];
        widened := true;
        WidenIndexIsFirst(ops, i);
        return;
      }
    }
    widened := false;
  }

  lemma WidenIndexIsFirst(ops: seq<O.Operand>, i: nat)
    requires i < |ops| && ops[i].IsImm() && ops[i].CanWiden()
    requires forall k :: 0 <= k < i ==> !(ops[k].IsImm() && ops[k].CanWiden())
    ensures WidenIndex(ops) == Some(i)
  {
  }

  lemma FirstMatchIsFirst(defs: seq<Definition>, ops: seq<O.Operand>, i: nat)
    requires i < |defs| && Matches(defs[i], ops)
    requires forall k :: 0 <= k < i ==> !Matches(defs[k], ops)
    ensures FirstMatch(defs, ops) == Some(i)
  {
  }

  /** `Lookup`: scan the entries in order; when none matches, widen one
      immediate and scan again; when nothing can widen, give up. */
  method Lookup(instruction: O.Instruction) returns (definition: Option<Definition>, operands: seq<O.Operand>)
    ensures (definition, operands) == LookupOf(instruction)
  {
    operands := instruction.operands;
    var table := Table(instruction.name);
    if table.None? {
      return None, operands;
    }
    definition, operands := LookupIn(table.value, operands);
  }

  /** `Lookup`'s retry loop over the entries of one mnemonic. */
  method LookupIn(defs: seq<Definition>, ops: seq<O.Operand>) returns (definition: Option<Definition>, operands: seq<O.Operand>)
    ensures (definition, operands) == Resolve(defs, ops)
  {
    operands := ops;
    while true
      invariant Resolve(defs, operands) == Resolve(defs, ops)
      decreases Budget(operands)
    {
      var found := FindMatch(defs, operands);
      if found.Some? {
        ResolveMatched(defs, operands, found.value);
        return Some(defs[found.value]), operands;
      }
      var widened;
      var before := operands;
      widened, operands := WidenOperandImm(operands);
      if !widened {
        ResolveStuck(defs, before);
        return None, operands;
      }
      ResolveWidened(defs, before);
    }
  }

  /** The inner `foreach` over the entries: the first one the operands match. */
  method FindMatch(defs: seq<Definition>, ops: seq<O.Operand>) returns (found: Option<nat>)
    ensures found == FirstMatch(defs, ops)
  {
    for k := 0 to |defs|
      invariant forall j :: 0 <= j < k ==> !Matches(defs[j], ops)
    {
      if Matches(defs[k], ops) {
        FirstMatchIsFirst(defs, ops, k);
        return Some(k);
      }
    }
    return None;
  }

  lemma ResolveMatched(defs: seq<Definition>, ops: seq<O.Operand>, k: nat)
    requires FirstMatch(defs, ops) == Some(k)
    ensures Resolve(defs, ops) == (Some(defs[k]), ops)
  {
  }

  lemma ResolveStuck(defs: seq<Definition>, ops: seq<O.Operand>)
    requires FirstMatch(defs, ops).None? && WidenIndex(ops).None?
    ensures Resolve(defs, ops) == (None, ops)
  {
  }

  /** One round of the retry loop that finds no entry widens one immediate
      and leaves the outcome unchanged; the budget falls by one. */
  lemma ResolveWidened(defs: seq<Definition>, ops: seq<O.Operand>)
    requires FirstMatch(defs, ops).None? && WidenIndex(ops).Some?
    ensures var i := WidenIndex(ops).value;
      Resolve(defs, ops) == Resolve(defs, ops[i := ops[i].Widen()])
      && Budget(ops[i := ops[i].Widen()]) < Budget(ops)
  {
    WidenLowersBudget(ops, WidenIndex(ops).value);
  }

  // ---- properties of the table ----

  /** A register is accepted where a memory shape of its size is asked for,
      but a memory operand never where a register shape is. */
  lemma RegisterForMemoryOnly(op: O.Operand, s: O.OperandSize)
    ensures op.Reg? && op.size == s ==> OperandMatches(Typed(O.Memory, s), op)
    ensures op.Mem? ==> !OperandMatches(Typed(O.Register, s), op)
    ensures op.IsImm() ==> !OperandMatches(Typed(O.Register, s), op) && !OperandMatches(Typed(O.Memory, s), op)
  {
  }

  /** A fixed shape accepts exactly the register of its name and size. */
  lemma FixedShapeMatches(d: OperandDef, op: O.Operand)
    requires d.FixedReg?
    ensures OperandMatches(d, op) <==> op.Reg? && op.name == d.name && op.size == d.size
  {
  }

  /** A top-level symbol or 64-bit immediate never resolves, whatever the mnemonic. */
  lemma {:induction false} WideImmediateNeverResolves(instruction: O.Instruction, j: nat)
    requires j < |instruction.operands|
    requires instruction.operands[j].IsImm() && instruction.operands[j].Size() == O.Size64
    ensures LookupOf(instruction).0.None?
  {
    var r := LookupOf(instruction);
    var table := Table(instruction.name);
    if table.Some? && r.0.Some? {
      assert false;
    }
  }

  /** When a known mnemonic does not resolve, every top-level immediate has
      been left widened to 64 bits. */
  lemma FailureLeavesImmediatesWide(instruction: O.Instruction)
    requires Table(instruction.name).Some?
    requires LookupOf(instruction).0.None?
    ensures forall k :: 0 <= k < |LookupOf(instruction).1| && LookupOf(instruction).1[k].IsImm() ==>
      LookupOf(instruction).1[k].Size() == O.Size64
  {
  }

  /** The B8 entry has the shapes of the C7 Reg64 entries and comes first, so
      these are never chosen. */
  lemma C7Shadowed(ops: seq<O.Operand>)
    ensures FirstMatch(MovDefinitions, ops) != Some(3)
    ensures FirstMatch(MovDefinitions, ops) != Some(6)
  {
    assert MovDefinitions[3].operands == MovDefinitions[0].operands;
    assert MovDefinitions[6].operands == MovDefinitions[0].operands;
  }

  /** The register size of the first three push and pop entries: 16, 32
      and 64 bits, in that order. */
  function StackSize(k: nat): (size: O.RegisterSize)
    requires k < 3
    ensures PushDefinitions[k] == Definition([0x50], [Typed(O.Register, size)], opcodeReg := true)
    ensures PopDefinitions[k] == Definition([0x58], [Typed(O.Register, size)], opcodeReg := true)
  {
    [O.Size16, O.Size32, O.Size64][k]
  }

  /** The k-th push or pop entry: 50 or 58 plus the register, on a
      register of StackSize(k). */
  lemma StackEntry(mnemonic: string, k: nat)
    requires mnemonic == "push" || mnemonic == "pop"
    requires k < 3
    ensures Table(mnemonic).value[k]
      == Definition([if mnemonic == "push" then 0x50 else 0x58], [Typed(O.Register, StackSize(k))], opcodeReg := true)
  {
  }

  /** `push r16/r32/r64` and the pops: the entry of the register's size,
      whatever the register's name. */
  lemma StackRegister(bits: int, mnemonic: string, k: nat, r: string)
    requires mnemonic == "push" || mnemonic == "pop"
    requires k < 3
    ensures var ops := [O.Reg(StackSize(k), r)];
      LookupOf(O.Instruction(bits, mnemonic, ops)) == (Some(Table(mnemonic).value[k]), ops)
  {
    var ops := [O.Reg(StackSize(k), r)];
    var defs := Table(mnemonic).value;
    forall j | 0 <= j < k
      ensures !Matches(defs[j], ops)
    {
      assert !OperandMatches(defs[j].operands[0], ops[0]);
    }
    assert Matches(defs[k], ops);
    FirstMatchIsFirst(defs, ops, k);
  }

  /** `mov r64, r64`: the register is accepted for the Memory64 shape of
      89 /r, the second entry. */
  lemma MovRegisterRegister(bits: int, a: string, b: string)
    ensures LookupOf(O.Instruction(bits, "mov", [O.Reg(O.Size64, a), O.Reg(O.Size64, b)]))
      == (Some(MovDefinitions[1]), [O.Reg(O.Size64, a), O.Reg(O.Size64, b)])
  {
    var ops := [O.Reg(O.Size64, a), O.Reg(O.Size64, b)];
    assert !OperandMatches(MovDefinitions[0].operands[1], ops[1]);
    assert Matches(MovDefinitions[1], ops);
    FirstMatchIsFirst(MovDefinitions, ops, 1);
  }

  /** `mov [x], r64` for a register, a 32-bit value or a symbol in brackets: 89 /r. */
  lemma MovStore(bits: int, inner: O.Operand, b: string)
    requires inner.Reg? || inner.Imm32? || inner.Sym?
    ensures LookupOf(O.Instruction(bits, "mov", [O.Mem(inner), O.Reg(O.Size64, b)]))
      == (Some(MovDefinitions[1]), [O.Mem(inner), O.Reg(O.Size64, b)])
  {
    var ops := [O.Mem(inner), O.Reg(O.Size64, b)];
    assert !OperandMatches(MovDefinitions[0].operands[0], ops[0]);
    assert Matches(MovDefinitions[1], ops);
    FirstMatchIsFirst(MovDefinitions, ops, 1);
  }

  /** `mov r64, [r64]`: 8B /r, the third entry. */
  lemma MovLoad(bits: int, a: string, b: string)
    ensures LookupOf(O.Instruction(bits, "mov", [O.Reg(O.Size64, a), O.Mem(O.Reg(O.Size64, b))]))
      == (Some(MovDefinitions[2]), [O.Reg(O.Size64, a), O.Mem(O.Reg(O.Size64, b))])
  {
    var ops := [O.Reg(O.Size64, a), O.Mem(O.Reg(O.Size64, b))];
    assert !OperandMatches(MovDefinitions[0].operands[1], ops[1]);
    assert !OperandMatches(MovDefinitions[1].operands[1], ops[1]);
    assert Matches(MovDefinitions[2], ops);
    FirstMatchIsFirst(MovDefinitions, ops, 2);
  }

  /** `mov r64, [x]` for a 32-bit value in brackets: 8B /r. */
  lemma MovLoadAbsolute(bits: int, a: string, v: i32)
    ensures LookupOf(O.Instruction(bits, "mov", [O.Reg(O.Size64, a), O.Mem(O.Imm32(v))]))
      == (Some(MovDefinitions[2]), [O.Reg(O.Size64, a), O.Mem(O.Imm32(v))])
  {
    var ops := [O.Reg(O.Size64, a), O.Mem(O.Imm32(v))];
    assert !OperandMatches(MovDefinitions[0].operands[1], ops[1]);
    assert !OperandMatches(MovDefinitions[1].operands[1], ops[1]);
    assert Matches(MovDefinitions[2], ops);
    FirstMatchIsFirst(MovDefinitions, ops, 2);
  }

  /** No mov entry takes a 64-bit register with an 8- or 16-bit immediate. */
  lemma MovRegNarrowUnmatched(a: string, imm: O.Operand)
    requires imm.Imm8? || imm.Imm16?
    ensures FirstMatch(MovDefinitions, [O.Reg(O.Size64, a), imm]).None?
  {
    var ops := [O.Reg(O.Size64, a), imm];
    var defs := MovDefinitions;
    forall k | 0 <= k < |defs|
      ensures !Matches(defs[k], ops)
    {
      if k == 0 {
        assert !OperandMatches(defs[0].operands[1], ops[1]);
      } else if k == 1 {
        assert !OperandMatches(defs[1].operands[1], ops[1]);
      } else if k == 2 {
        assert !OperandMatches(defs[2].operands[1], ops[1]);
      } else if k == 3 {
        assert !OperandMatches(defs[3].operands[1], ops[1]);
      } else if k == 4 {
        assert !OperandMatches(defs[4].operands[0], ops[0]);
      } else if k == 5 {
        assert !OperandMatches(defs[5].operands[0], ops[0]);
      } else {
        assert !OperandMatches(defs[6].operands[1], ops[1]);
      }
    }
  }

  /** `mov r64, imm8`: no entry takes the byte or its 16-bit widening, so it
      is widened twice and picks the first entry, B8+r with a 32-bit immediate. */
  lemma MovRegisterImm8(bits: int, a: string, v: i8)
    ensures LookupOf(O.Instruction(bits, "mov", [O.Reg(O.Size64, a), O.Imm8(v)]))
      == (Some(MovDefinitions[0]), [O.Reg(O.Size64, a), O.Imm32(v)])
  {
    var r := O.Reg(O.Size64, a);
    var ops'' := [r, O.Imm32(v)];
    MovRegisterWidens(a, O.Imm8(v));
    assert O.Imm8(v).Widen() == O.Imm16(v);
    MovRegisterWidens(a, O.Imm16(v));
    assert O.Imm16(v).Widen() == O.Imm32(v);
    MovRegisterImm32(a, v);
  }

  lemma MovRegisterImm32(a: string, v: i32)
    ensures Resolve(MovDefinitions, [O.Reg(O.Size64, a), O.Imm32(v)]) == (Some(MovDefinitions[0]), [O.Reg(O.Size64, a), O.Imm32(v)])
  {
    var ops := [O.Reg(O.Size64, a), O.Imm32(v)];
    assert Matches(MovDefinitions[0], ops);
    FirstMatchIsFirst(MovDefinitions, ops, 0);
    ResolveMatched(MovDefinitions, ops, 0);
  }

  /** One unsuccessful round for a 64-bit register and a narrow immediate. */
  lemma MovRegisterWidens(a: string, imm: O.Operand)
    requires imm.Imm8? || imm.Imm16?
    ensures Resolve(MovDefinitions, [O.Reg(O.Size64, a), imm]) == Resolve(MovDefinitions, [O.Reg(O.Size64, a), imm.Widen()])
  {
    var ops := [O.Reg(O.Size64, a), imm];
    MovRegNarrowUnmatched(a, imm);
    assert WidenIndex(ops) == Some(1);
    assert ops[1 := ops[1].Widen()] == [O.Reg(O.Size64, a), imm.Widen()];
    ResolveWidened(MovDefinitions, ops);
  }

  /** `add r64, imm8`: 83 /0 ib, the third entry, for every register. */
  lemma AddRegisterImm8(bits: int, a: string, v: i8)
    ensures LookupOf(O.Instruction(bits, "add", [O.Reg(O.Size64, a), O.Imm8(v)]))
      == (Some(AddDefinitions[2]), [O.Reg(O.Size64, a), O.Imm8(v)])
  {
    var ops := [O.Reg(O.Size64, a), O.Imm8(v)];
    assert !OperandMatches(AddDefinitions[0].operands[0], ops[0]);
    assert !OperandMatches(AddDefinitions[1].operands[0], ops[0]);
    assert Matches(AddDefinitions[2], ops);
    FirstMatchIsFirst(AddDefinitions, ops, 2);
  }

  /** The fixed-register entries of the add table. */
  lemma AddAccumulatorEntries()
    ensures AddDefinitions[3] == Definition([0x04], [AL, Imm8])
    ensures AddDefinitions[4] == Definition([0x66, 0x05], [AX, Imm16])
    ensures AddDefinitions[6] == Definition([0x05], [RAX, Imm32], w := true)
  {
  }

  /** `add al, imm8`: the fixed-register entry 04 ib. */
  lemma AddAlImm8(bits: int, v: i8)
    ensures LookupOf(O.Instruction(bits, "add", [O.Reg(O.Size8, "al"), O.Imm8(v)]))
      == (Some(AddDefinitions[3]), [O.Reg(O.Size8, "al"), O.Imm8(v)])
  {
    AlImm8Match(v);
  }

  lemma AlImm8Match(v: i8)
    ensures FirstMatch(AddDefinitions, [O.Reg(O.Size8, "al"), O.Imm8(v)]) == Some(3)
  {
    var ops := [O.Reg(O.Size8, "al"), O.Imm8(v)];
    assert !OperandMatches(AddDefinitions[0].operands[0], ops[0]);
    assert !OperandMatches(AddDefinitions[1].operands[0], ops[0]);
    assert !OperandMatches(AddDefinitions[2].operands[0], ops[0]);
    assert Matches(AddDefinitions[3], ops);
    FirstMatchIsFirst(AddDefinitions, ops, 3);
  }

  /** `add ax, imm16`: the fixed-register entry 66 05. */
  lemma AddAxImm16(bits: int, v: i16)
    ensures LookupOf(O.Instruction(bits, "add", [O.Reg(O.Size16, "ax"), O.Imm16(v)]))
      == (Some(AddDefinitions[4]), [O.Reg(O.Size16, "ax"), O.Imm16(v)])
  {
    AxImm16Match(v);
  }

  lemma AxImm16Match(v: i16)
    ensures FirstMatch(AddDefinitions, [O.Reg(O.Size16, "ax"), O.Imm16(v)]) == Some(4)
  {
    var ops := [O.Reg(O.Size16, "ax"), O.Imm16(v)];
    assert !OperandMatches(AddDefinitions[0].operands[1], ops[1]);
    assert !OperandMatches(AddDefinitions[1].operands[0], ops[0]);
    assert !OperandMatches(AddDefinitions[2].operands[0], ops[0]);
    assert !OperandMatches(AddDefinitions[3].operands[0], ops[0]);
    assert Matches(AddDefinitions[4], ops);
    FirstMatchIsFirst(AddDefinitions, ops, 4);
  }

  /** No add entry takes a 64-bit register with a 16-bit immediate. */
  lemma AddRegImm16Unmatched(a: string, v: i16)
    ensures FirstMatch(AddDefinitions, [O.Reg(O.Size64, a), O.Imm16(v)]).None?
  {
    var ops := [O.Reg(O.Size64, a), O.Imm16(v)];
    var defs := AddDefinitions;
    forall k | 0 <= k < |defs|
      ensures !Matches(defs[k], ops)
    {
      if k == 0 {
        assert !OperandMatches(defs[0].operands[0], ops[0]);
      } else if k == 1 {
        assert !OperandMatches(defs[1].operands[0], ops[0]);
      } else if k == 2 {
        assert !OperandMatches(defs[2].operands[1], ops[1]);
      } else if k == 3 {
        assert !OperandMatches(defs[3].operands[0], ops[0]);
      } else if k == 4 {
        assert !OperandMatches(defs[4].operands[0], ops[0]);
      } else if k == 5 {
        assert !OperandMatches(defs[5].operands[0], ops[0]);
      } else if k == 6 {
        assert !OperandMatches(defs[6].operands[1], ops[1]);
      } else if k == 7 {
        assert !OperandMatches(defs[7].operands[1], ops[1]);
      } else if k == 8 {
        assert !OperandMatches(defs[8].operands[0], ops[0]);
      } else if k == 9 {
        assert !OperandMatches(defs[9].operands[0], ops[0]);
      } else if k == 10 {
        assert !OperandMatches(defs[10].operands[1], ops[1]);
      } else if k == 11 {
        assert !OperandMatches(defs[11].operands[0], ops[0]);
      } else {
        assert !OperandMatches(defs[12].operands[0], ops[0]);
      }
    }
  }

  /** With a 32-bit immediate only the fixed RAX entry can match a 64-bit
      register: it does for rax and nothing does for any other name. */
  lemma AddRegImm32(a: string, v: i32)
    ensures FirstMatch(AddDefinitions, [O.Reg(O.Size64, a), O.Imm32(v)]) == if a == "rax" then Some(6) else None
  {
    var ops := [O.Reg(O.Size64, a), O.Imm32(v)];
    AddRegImm32Others(a, v);
    if a == "rax" {
      assert Matches(AddDefinitions[6], ops);
      FirstMatchIsFirst(AddDefinitions, ops, 6);
    } else {
      assert !OperandMatches(AddDefinitions[6].operands[0], ops[0]);
    }
  }

  lemma AddRegImm32Others(a: string, v: i32)
    ensures forall k :: 0 <= k < |AddDefinitions| && k != 6 ==> !Matches(AddDefinitions[k], [O.Reg(O.Size64, a), O.Imm32(v)])
  {
    var ops := [O.Reg(O.Size64, a), O.Imm32(v)];
    var defs := AddDefinitions;
    forall k | 0 <= k < |defs| && k != 6
      ensures !Matches(defs[k], ops)
    {
      if k == 0 {
        assert !OperandMatches(defs[0].operands[0], ops[0]);
      } else if k == 1 {
        assert !OperandMatches(defs[1].operands[0], ops[0]);
      } else if k == 2 {
        assert !OperandMatches(defs[2].operands[1], ops[1]);
      } else if k == 3 {
        assert !OperandMatches(defs[3].operands[0], ops[0]);
      } else if k == 4 {
        assert !OperandMatches(defs[4].operands[0], ops[0]);
      } else if k == 5 {
        assert !OperandMatches(defs[5].operands[0], ops[0]);
      } else if k == 7 {
        assert !OperandMatches(defs[7].operands[1], ops[1]);
      } else if k == 8 {
        assert !OperandMatches(defs[8].operands[0], ops[0]);
      } else if k == 9 {
        assert !OperandMatches(defs[9].operands[0], ops[0]);
      } else if k == 10 {
        assert !OperandMatches(defs[10].operands[1], ops[1]);
      } else if k == 11 {
        assert !OperandMatches(defs[11].operands[0], ops[0]);
      } else {
        assert !OperandMatches(defs[12].operands[0], ops[0]);
      }
    }
  }

  /** `add rax, imm32`: 48 05 id. */
  lemma AddRaxImm32(bits: int, v: i32)
    ensures LookupOf(O.Instruction(bits, "add", [O.Reg(O.Size64, "rax"), O.Imm32(v)]))
      == (Some(AddDefinitions[6]), [O.Reg(O.Size64, "rax"), O.Imm32(v)])
  {
    AddRegImm32("rax", v);
    ResolveMatched(AddDefinitions, [O.Reg(O.Size64, "rax"), O.Imm32(v)], 6);
  }

  /** `add r64, imm16` (a value the parser reads as 16-bit, like 200): widened
      once, it picks the RAX, Imm32 entry for rax; for any other register it
      is widened to 64 bits and is not supported. */
  lemma AddRegisterImm16(bits: int, a: string, v: i16)
    ensures LookupOf(O.Instruction(bits, "add", [O.Reg(O.Size64, a), O.Imm16(v)]))
      == if a == "rax" then (Some(AddDefinitions[6]), [O.Reg(O.Size64, a), O.Imm32(v)])
         else (None, [O.Reg(O.Size64, a), O.Imm64(v)])
  {
    var r := O.Reg(O.Size64, a);
    var ops, ops' := [r, O.Imm16(v)], [r, O.Imm32(v)];
    AddRegImm16Unmatched(a, v);
    assert WidenIndex(ops) == Some(1);
    assert ops[1 := ops[1].Widen()] == ops';
    ResolveWidened(AddDefinitions, ops);
    AddRegImm32(a, v);
    if a == "rax" {
      ResolveMatched(AddDefinitions, ops', 6);
    } else {
      AddRegisterImm32Unsupported(a, v);
    }
  }

  /** `add r64, imm32` for a register other than rax is not supported; the
      immediate is left widened to 64 bits. */
  lemma AddRegisterImm32Unsupported(a: string, v: i32)
    requires a != "rax"
    ensures Resolve(AddDefinitions, [O.Reg(O.Size64, a), O.Imm32(v)]) == (None, [O.Reg(O.Size64, a), O.Imm64(v)])
  {
    var r := O.Reg(O.Size64, a);
    AddRegImm32Widens(a, v);
    AddRegImm64Stuck(a, v);
    ResolveOnceWidened(AddDefinitions, [r, O.Imm32(v)], 1, [r, O.Imm64(v)]);
  }

  /** No entry takes `add r64, imm32` for r64 other than rax, and the
      immediate is the one to widen. */
  lemma AddRegImm32Widens(a: string, v: i32)
    requires a != "rax"
    ensures var ops := [O.Reg(O.Size64, a), O.Imm32(v)];
      FirstMatch(AddDefinitions, ops).None? && WidenIndex(ops) == Some(1)
      && ops[1 := ops[1].Widen()] == [O.Reg(O.Size64, a), O.Imm64(v)]
  {
    var ops := [O.Reg(O.Size64, a), O.Imm32(v)];
    AddRegImm32(a, v);
    WidenIndexIsFirst(ops, 1);
  }

  /** Widened to 64 bits, the immediate cannot widen further and no entry takes it. */
  lemma AddRegImm64Stuck(a: string, v: i32)
    ensures var ops := [O.Reg(O.Size64, a), O.Imm64(v)];
      Resolve(AddDefinitions, ops).0.None? && forall k :: 0 <= k < |ops| ==> !(ops[k].IsImm() && ops[k].CanWiden())
  {
    WideImmediateNeverResolves(O.Instruction(0, "add", [O.Reg(O.Size64, a), O.Imm64(v)]), 1);
  }

  /** A retry loop that widens once and then finds nothing. */
  lemma ResolveOnceWidened(defs: seq<Definition>, ops: seq<O.Operand>, i: nat, wide: seq<O.Operand>)
    requires FirstMatch(defs, ops).None? && WidenIndex(ops) == Some(i)
    requires ops[i := ops[i].Widen()] == wide
    requires Resolve(defs, wide).0.None?
    requires forall k :: 0 <= k < |wide| ==> !(wide[k].IsImm() && wide[k].CanWiden())
    ensures Resolve(defs, ops) == (None, wide)
  {
    ResolveWidened(defs, ops);
    assert WidenIndex(wide).None?;
  }

  /** `push imm`: 6A ib for a byte, 68 for a 16- or 32-bit value. */
  lemma PushImmediate(bits: int, imm: O.Operand)
    requires imm.Imm8? || imm.Imm16? || imm.Imm32?
    ensures LookupOf(O.Instruction(bits, "push", [imm]))
      == (Some(PushDefinitions[if imm.Imm8? then 3 else if imm.Imm16? then 4 else 5]), [imm])
  {
    var k := if imm.Imm8? then 3 else if imm.Imm16? then 4 else 5;
    var ops := [imm];
    assert !OperandMatches(PushDefinitions[0].operands[0], ops[0]);
    assert !OperandMatches(PushDefinitions[1].operands[0], ops[0]);
    assert !OperandMatches(PushDefinitions[2].operands[0], ops[0]);
    assert k > 3 ==> !OperandMatches(PushDefinitions[3].operands[0], ops[0]);
    assert k > 4 ==> !OperandMatches(PushDefinitions[4].operands[0], ops[0]);
    assert Matches(PushDefinitions[k], ops);
    FirstMatchIsFirst(PushDefinitions, ops, k);
  }
}
