/** The bytes `Emit` produces for whole instructions: pushes and pops of
    every register, register and memory moves between every pair of
    registers, immediates, absolute addresses, and the two exceptions. */
module Encodings {
  import opened Wrappers
  import opened Bytes
  import O = Operands
  import Symbols
  import opened Definitions
  import opened Emitter

  /** The REX prefix 0100WR0B as a byte sequence: empty when no bit is set. */
  function Rex(w: bool, r: nat, b: nat): (x: seq<byte>)
    requires r < 16 && b < 16
    ensures |x| <= 1
    ensures x == [] <==> !w && r < 8 && b < 8
    ensures x != [] ==> (x[0] / 16 == 4 && (x[0] / 8) % 2 == (if w then 1 else 0)
                         && (x[0] / 4) % 2 == r / 8 && (x[0] / 2) % 2 == 0 && x[0] % 2 == b / 8)
  {
    if w || r > 7 || b > 7 then [0x40 + (if w then 8 else 0) + 4 * (r / 8) + b / 8] else []
  }

  /** The ModR/M byte mod<<6 | reg<<3 | rm from register numbers. */
  function ModRmOf(mod: nat, reg: nat, rm: nat): (x: byte)
    requires mod < 4
    ensures x / 64 == mod && (x / 8) % 8 == reg % 8 && x % 8 == rm % 8
  {
    Pack(mod, reg % 8, rm % 8)
  }

  /** ModR/M, SIB and displacement for [r_m] with r_r in reg: mod 00, except
      [rbp]/[r13] which take mod 01 and a zero disp8; [rsp]/[r12] add the
      SIB byte 0x24. */
  function IndirectBytes(m: nat, r: nat): (x: seq<byte>)
    requires m < 16 && r < 16
    ensures |x| == if m % 8 == 4 || m % 8 == 5 then 2 else 1
    ensures x[0] == ModRmOf(if m % 8 == 5 then 1 else 0, r, m)
  {
    [ModRmOf(if m % 8 == 5 then 1 else 0, r, m)] + (if m % 8 == 4 then [0x24] else []) + (if m % 8 == 5 then [0] else [])
  }

  /** Two operands in the order of their shapes, the second no memory operand. */
  lemma ArrangeInOrder(a: O.Operand, b: O.Operand, x: OperandDef, y: OperandDef)
    requires b.Kind() != O.Memory
    ensures Arrange([a, b], [x, y]) == (Some(Slot(a, x)), Some(Slot(b, y)))
  {
  }

  /** Two operands swapped so that the memory operand, the second, comes first. */
  lemma ArrangeSwapped(a: O.Operand, b: O.Operand, x: OperandDef, y: OperandDef)
    requires b.Kind() == O.Memory
    ensures Arrange([a, b], [x, y]) == (Some(Slot(b, y)), Some(Slot(a, x)))
  {
  }

  /** Neither of two operands is an immediate. */
  lemma NoImmediate(a: O.Operand, b: O.Operand)
    requires !a.IsImm() && !b.IsImm()
    ensures FirstImm([a, b]) == None
  {
    assert [a, b][1..] == [b];
  }

  /** An immediate after an operand that is none. */
  lemma SecondImmediate(a: O.Operand, b: O.Operand)
    requires !a.IsImm() && b.IsImm()
    ensures FirstImm([a, b]) == Some(b)
  {
    assert [a, b][1..] == [b];
  }

  // ---- push and pop ----

  /** One register in the opcode: REX.B for r8..r15 and the low three bits
      added to the opcode byte; nothing follows. */
  lemma RegisterInOpcodeParts(def: Definition, i: nat, op: O.Operand, shape: OperandDef)
    requires i < 16 && |def.opcode| == 1 && def.opcodeReg && !def.w && def.opcode[0] < 248
    requires op.Reg? && RegisterByte(op.name) == Success(i)
    ensures var s1 := Some(Slot(op, shape));
      Head(def, s1, None) == Encoding(Rex(false, 0, i) + [def.opcode[0] + i % 8], None)
      && Tail(def, s1, None, None) == Encoding([], None)
  {
  }

  /** The one-byte opcode of `push` (50) or `pop` (58) plus the low three
      bits of register i. */
  function StackOpcode(mnemonic: string, i: nat): (x: byte)
    requires i < 16
    ensures x % 8 == i % 8 && x / 8 == (if mnemonic == "push" then 10 else 11)
  {
    (if mnemonic == "push" then 0x50 else 0x58) + i % 8
  }

  /** `push` and `pop` of each of the sixteen registers at 16, 32 and 64
      bits (alias columns 1 to 3): the register number in the low bits of
      50 or 58, with REX.B for r8..r15. The 16-bit forms get no 66
      operand-size prefix, so they come out as the 64-bit ones. */
  lemma PushPopRegister(bits: int, mnemonic: string, c: nat, i: nat)
    requires mnemonic == "push" || mnemonic == "pop"
    requires 1 <= c <= 3 && i < 16
    ensures var op := O.Reg(StackSize(c - 1), Aliases(i)[c]);
      EmitOf(O.Instruction(bits, mnemonic, [op]))
      == Emission(Emitted, Rex(false, 0, i) + [StackOpcode(mnemonic, i)], [op])
  {
    var op := O.Reg(StackSize(c - 1), Aliases(i)[c]);
    StackTable(mnemonic);
    PushPopParts(bits, mnemonic, c, i);
    EmitOfBytes(O.Instruction(bits, mnemonic, [op]), Table(mnemonic).value[c - 1], [op],
      Some(Slot(op, Typed(O.Register, StackSize(c - 1)))), None,
      Rex(false, 0, i) + [StackOpcode(mnemonic, i)], Encoding([], None));
  }

  /** Both stack mnemonics have at least the three register entries. */
  lemma StackTable(mnemonic: string)
    requires mnemonic == "push" || mnemonic == "pop"
    ensures Table(mnemonic).Some? && |Table(mnemonic).value| >= 3
  {
  }

  lemma PushPopParts(bits: int, mnemonic: string, c: nat, i: nat)
    requires mnemonic == "push" || mnemonic == "pop"
    requires 1 <= c <= 3 && i < 16
    ensures var op := O.Reg(StackSize(c - 1), Aliases(i)[c]);
      var def, s1 := Table(mnemonic).value[c - 1], Some(Slot(op, Typed(O.Register, StackSize(c - 1))));
      LookupOf(O.Instruction(bits, mnemonic, [op])) == (Some(def), [op])
      && |def.opcode| > 0 && Arrange([op], def.operands) == (s1, None)
      && Head(def, s1, None) == Encoding(Rex(false, 0, i) + [StackOpcode(mnemonic, i)], None)
      && Tail(def, s1, None, FirstImm([op])) == Encoding([], None)
  {
    var op := O.Reg(StackSize(c - 1), Aliases(i)[c]);
    var shape := Typed(O.Register, StackSize(c - 1));
    StackRegister(bits, mnemonic, c - 1, Aliases(i)[c]);
    AliasesShareNumber(i);
    StackEntry(mnemonic, c - 1);
    StackEntryParts(Table(mnemonic).value[c - 1], mnemonic, i, op, shape);
  }

  /** A push or pop entry applied to register i. */
  lemma StackEntryParts(def: Definition, mnemonic: string, i: nat, op: O.Operand, shape: OperandDef)
    requires i < 16 && op.Reg? && RegisterByte(op.name) == Success(i)
    requires def == Definition([if mnemonic == "push" then 0x50 else 0x58], [shape], opcodeReg := true)
    ensures var s1 := Some(Slot(op, shape));
      Arrange([op], def.operands) == (s1, None)
      && Head(def, s1, None) == Encoding(Rex(false, 0, i) + [StackOpcode(mnemonic, i)], None)
      && Tail(def, s1, None, FirstImm([op])) == Encoding([], None)
  {
    RegisterInOpcodeParts(def, i, op, shape);
  }

  /** An unknown register name throws before anything is appended. */
  lemma UnknownRegisterThrows(bits: int, mnemonic: string, name: string)
    requires mnemonic == "push" || mnemonic == "pop"
    requires RegisterByte(name).Failure?
    ensures var ops := [O.Reg(O.Size64, name)];
      EmitOf(O.Instruction(bits, mnemonic, ops)) == Emission(Threw("Invalid register name: " + name), [], ops)
  {
    var ops := [O.Reg(O.Size64, name)];
    StackRegister(bits, mnemonic, 2, name);
    var def := Table(mnemonic).value[2];
    EmitOfParts(O.Instruction(bits, mnemonic, ops), def, ops, Some(Slot(ops[0], Reg64)), None);
  }

  // ---- moves between registers and memory ----

  /** REX and opcode for two operands naming r_i (rm) and r_j (reg). */
  lemma RegisterPairHead(def: Definition, s1: Option<Slot>, s2: Option<Slot>, i: nat, j: nat)
    requires i < 16 && j < 16 && |def.opcode| > 0 && !def.opcodeReg
    requires s1.Some? && NamedRegister(OpOf(s1)) == Some(Aliases(i)[3])
    requires s2.Some? && NamedRegister(OpOf(s2)) == Some(Aliases(j)[3])
    ensures Head(def, s1, s2) == Encoding(Rex(def.w, j, i) + def.opcode, None)
  {
    Alias3(i);
    Alias3(j);
  }

  /** A register-direct ModR/M byte, mod 11, and nothing after it. */
  lemma RegisterDirectTail(def: Definition, s1: Option<Slot>, s2: Option<Slot>, i: nat, j: nat)
    requires i < 16 && j < 16 && !def.opcodeReg
    requires s1 == Some(Slot(O.Reg(O.Size64, Aliases(i)[3]), Memory64))
    requires s2 == Some(Slot(O.Reg(O.Size64, Aliases(j)[3]), Reg64))
    ensures Tail(def, s1, s2, None) == Encoding([ModRmOf(3, j, i)], None)
  {
    Alias3(i);
    Alias3(j);
  }

  /** The indirect addressing of [r_m] with r_r in reg. */
  lemma IndirectTail(def: Definition, s1: Option<Slot>, s2: Option<Slot>, m: nat, r: nat)
    requires m < 16 && r < 16 && !def.opcodeReg
    requires s1 == Some(Slot(O.Mem(O.Reg(O.Size64, Aliases(m)[3])), Memory64))
    requires s2 == Some(Slot(O.Reg(O.Size64, Aliases(r)[3]), Reg64))
    ensures Tail(def, s1, s2, None) == Encoding(IndirectBytes(m, r), None)
  {
    Alias3(m);
    Alias3(r);
  }

  /** `mov r64, r64`: REX.W with R for the source and B for the destination,
      89, and a register-direct ModR/M byte (mod 11) with the source in reg. */
  lemma MovRegisterRegisterBytes(bits: int, i: nat, j: nat)
    requires i < 16 && j < 16
    ensures var ops := [O.Reg(O.Size64, Aliases(i)[3]), O.Reg(O.Size64, Aliases(j)[3])];
      EmitOf(O.Instruction(bits, "mov", ops)) == Emission(Emitted, Rex(true, j, i) + [0x89] + [ModRmOf(3, j, i)], ops)
  {
    var a, b := O.Reg(O.Size64, Aliases(i)[3]), O.Reg(O.Size64, Aliases(j)[3]);
    MovRegisterRegisterParts(bits, i, j);
    EmitOfBytes(O.Instruction(bits, "mov", [a, b]), MovDefinitions[1], [a, b], Some(Slot(a, Memory64)), Some(Slot(b, Reg64)),
      Rex(true, j, i) + [0x89], Encoding([ModRmOf(3, j, i)], None));
  }

  lemma MovRegisterRegisterParts(bits: int, i: nat, j: nat)
    requires i < 16 && j < 16
    ensures var a, b := O.Reg(O.Size64, Aliases(i)[3]), O.Reg(O.Size64, Aliases(j)[3]);
      var s1, s2 := Some(Slot(a, Memory64)), Some(Slot(b, Reg64));
      LookupOf(O.Instruction(bits, "mov", [a, b])) == (Some(MovDefinitions[1]), [a, b])
      && Arrange([a, b], MovDefinitions[1].operands) == (s1, s2)
      && Head(MovDefinitions[1], s1, s2) == Encoding(Rex(true, j, i) + [0x89], None)
      && Tail(MovDefinitions[1], s1, s2, FirstImm([a, b])) == Encoding([ModRmOf(3, j, i)], None)
  {
    var a, b := O.Reg(O.Size64, Aliases(i)[3]), O.Reg(O.Size64, Aliases(j)[3]);
    MovRegisterRegister(bits, Aliases(i)[3], Aliases(j)[3]);
    ArrangeInOrder(a, b, Memory64, Reg64);
    NoImmediate(a, b);
    var s1, s2 := Some(Slot(a, Memory64)), Some(Slot(b, Reg64));
    RegisterPairHead(MovDefinitions[1], s1, s2, i, j);
    RegisterDirectTail(MovDefinitions[1], s1, s2, i, j);
  }

  /** `mov [r64], r64`: REX.W, 89 and the indirect addressing of the destination. */
  lemma MovStoreBytes(bits: int, i: nat, j: nat)
    requires i < 16 && j < 16
    ensures var ops := [O.Mem(O.Reg(O.Size64, Aliases(i)[3])), O.Reg(O.Size64, Aliases(j)[3])];
      EmitOf(O.Instruction(bits, "mov", ops)) == Emission(Emitted, Rex(true, j, i) + [0x89] + IndirectBytes(i, j), ops)
  {
    var a, b := O.Mem(O.Reg(O.Size64, Aliases(i)[3])), O.Reg(O.Size64, Aliases(j)[3]);
    MovStoreParts(bits, i, j);
    EmitOfBytes(O.Instruction(bits, "mov", [a, b]), MovDefinitions[1], [a, b], Some(Slot(a, Memory64)), Some(Slot(b, Reg64)),
      Rex(true, j, i) + [0x89], Encoding(IndirectBytes(i, j), None));
  }

  lemma MovStoreParts(bits: int, i: nat, j: nat)
    requires i < 16 && j < 16
    ensures var a, b := O.Mem(O.Reg(O.Size64, Aliases(i)[3])), O.Reg(O.Size64, Aliases(j)[3]);
      var s1, s2 := Some(Slot(a, Memory64)), Some(Slot(b, Reg64));
      LookupOf(O.Instruction(bits, "mov", [a, b])) == (Some(MovDefinitions[1]), [a, b])
      && Arrange([a, b], MovDefinitions[1].operands) == (s1, s2)
      && Head(MovDefinitions[1], s1, s2) == Encoding(Rex(true, j, i) + [0x89], None)
      && Tail(MovDefinitions[1], s1, s2, FirstImm([a, b])) == Encoding(IndirectBytes(i, j), None)
  {
    var a, b := O.Mem(O.Reg(O.Size64, Aliases(i)[3])), O.Reg(O.Size64, Aliases(j)[3]);
    MovStore(bits, a.inner, Aliases(j)[3]);
    ArrangeInOrder(a, b, Memory64, Reg64);
    NoImmediate(a, b);
    var s1, s2 := Some(Slot(a, Memory64)), Some(Slot(b, Reg64));
    RegisterPairHead(MovDefinitions[1], s1, s2, i, j);
    IndirectTail(MovDefinitions[1], s1, s2, i, j);
  }

  /** `mov r64, [r64]`: REX.W, 8B and the indirect addressing of the source;
      the memory operand is moved to the first place. */
  lemma MovLoadBytes(bits: int, i: nat, j: nat)
    requires i < 16 && j < 16
    ensures var ops := [O.Reg(O.Size64, Aliases(i)[3]), O.Mem(O.Reg(O.Size64, Aliases(j)[3]))];
      EmitOf(O.Instruction(bits, "mov", ops)) == Emission(Emitted, Rex(true, i, j) + [0x8B] + IndirectBytes(j, i), ops)
  {
    var a, b := O.Reg(O.Size64, Aliases(i)[3]), O.Mem(O.Reg(O.Size64, Aliases(j)[3]));
    MovLoadParts(bits, i, j);
    EmitOfBytes(O.Instruction(bits, "mov", [a, b]), MovDefinitions[2], [a, b], Some(Slot(b, Memory64)), Some(Slot(a, Reg64)),
      Rex(true, i, j) + [0x8B], Encoding(IndirectBytes(j, i), None));
  }

  lemma MovLoadParts(bits: int, i: nat, j: nat)
    requires i < 16 && j < 16
    ensures var a, b := O.Reg(O.Size64, Aliases(i)[3]), O.Mem(O.Reg(O.Size64, Aliases(j)[3]));
      var s1, s2 := Some(Slot(b, Memory64)), Some(Slot(a, Reg64));
      LookupOf(O.Instruction(bits, "mov", [a, b])) == (Some(MovDefinitions[2]), [a, b])
      && Arrange([a, b], MovDefinitions[2].operands) == (s1, s2)
      && Head(MovDefinitions[2], s1, s2) == Encoding(Rex(true, i, j) + [0x8B], None)
      && Tail(MovDefinitions[2], s1, s2, FirstImm([a, b])) == Encoding(IndirectBytes(j, i), None)
  {
    var a, b := O.Reg(O.Size64, Aliases(i)[3]), O.Mem(O.Reg(O.Size64, Aliases(j)[3]));
    var def := MovDefinitions[2];
    assert def == Definition([0x8B], [Reg64, Memory64], w := true);
    MovLoad(bits, Aliases(i)[3], Aliases(j)[3]);
    ArrangeSwapped(a, b, Reg64, Memory64);
    NoImmediate(a, b);
    var s1, s2 := Some(Slot(b, Memory64)), Some(Slot(a, Reg64));
    assert NamedRegister(OpOf(s1)) == Some(Aliases(j)[3]) && NamedRegister(OpOf(s2)) == Some(Aliases(i)[3]);
    RegisterPairHead(def, s1, s2, j, i);
    IndirectTail(def, s1, s2, j, i);
  }

  // ---- absolute addresses ----

  /** REX.W (and R for r8..r15) and the opcode, for a bracketed value and r_r. */
  lemma AbsoluteHead(def: Definition, inner: O.Operand, r: nat)
    requires r < 16 && |def.opcode| > 0 && !def.opcodeReg && inner.IsImm()
    ensures Head(def, Some(Slot(O.Mem(inner), Memory64)), Some(Slot(O.Reg(O.Size64, Aliases(r)[3]), Reg64)))
      == Encoding(Rex(def.w, r, 0) + def.opcode, None)
  {
    Alias3(r);
  }

  /** ModR/M 00 reg 100, SIB 0x25 and the 32-bit value. */
  lemma AbsoluteTail(def: Definition, v: i32, r: nat)
    requires r < 16 && !def.opcodeReg
    ensures Tail(def, Some(Slot(O.Mem(O.Imm32(v)), Memory64)), Some(Slot(O.Reg(O.Size64, Aliases(r)[3]), Reg64)), None)
      == Encoding([ModRmOf(0, r, 4), 0x25] + LE(v, 4), None)
  {
    var s1, s2 := Some(Slot(O.Mem(O.Imm32(v)), Memory64)), Some(Slot(O.Reg(O.Size64, Aliases(r)[3]), Reg64));
    AbsoluteAddressing(def, v, r);
    assert ImmediateBytes(None) == [];
    assert [ModRmOf(0, r, 4), 0x25] + LE(v, 4) + [] == [ModRmOf(0, r, 4), 0x25] + LE(v, 4);
  }

  /** Steps 3 to 5 for an absolute address: ModR/M, SIB 0x25, the value. */
  lemma AbsoluteAddressing(def: Definition, v: i32, r: nat)
    requires r < 16 && !def.opcodeReg
    ensures Addressing(def, Some(Slot(O.Mem(O.Imm32(v)), Memory64)), Some(Slot(O.Reg(O.Size64, Aliases(r)[3]), Reg64)))
      == Encoding([ModRmOf(0, r, 4), 0x25] + LE(v, 4), None)
  {
    var s1 := Some(Slot(O.Mem(O.Imm32(v)), Memory64));
    AbsoluteModRm(v, r);
    AbsoluteDisplacement(v, r);
    assert Sib(OpOf(s1)) == Success(Some(0x25));
    assert [ModRmOf(0, r, 4)] + [0x25] == [ModRmOf(0, r, 4), 0x25];
  }

  /** After mod 00 and a SIB base of 101 come the four bytes of the address. */
  lemma AbsoluteDisplacement(v: i32, r: nat)
    ensures Displacement(ModRmOf(0, r, 4), Some(0x25), Some(O.Mem(O.Imm32(v)))) == Success(LE(v, 4))
  {
  }

  /** An absolute address is mod 00 and r/m 100, with the register in reg. */
  lemma AbsoluteModRm(v: i32, r: nat)
    requires r < 16
    ensures ModRm(Some(Slot(O.Mem(O.Imm32(v)), Memory64)), Some(Slot(O.Reg(O.Size64, Aliases(r)[3]), Reg64)))
      == Success(Some(ModRmOf(0, r, 4)))
  {
    Alias3(r);
  }

  /** The same addressing for a symbol in brackets: it has no 32-bit value,
      so the encoding faults after the SIB byte. */
  lemma SymbolTail(def: Definition, symbol: Symbols.Symbol, r: nat)
    requires r < 16 && !def.opcodeReg
    ensures Tail(def, Some(Slot(O.Mem(O.Sym(symbol)), Memory64)), Some(Slot(O.Reg(O.Size64, Aliases(r)[3]), Reg64)), None)
      == Encoding([ModRmOf(0, r, 4), 0x25], Some("No disp32 value"))
  {
    Alias3(r);
  }

  lemma MovStoreAbsoluteParts(v: i32, j: nat)
    requires j < 16
    ensures var a, b := O.Mem(O.Imm32(v)), O.Reg(O.Size64, Aliases(j)[3]);
      var s1, s2 := Some(Slot(a, Memory64)), Some(Slot(b, Reg64));
      Arrange([a, b], MovDefinitions[1].operands) == (s1, s2)
      && Head(MovDefinitions[1], s1, s2) == Encoding(Rex(true, j, 0) + [0x89], None)
      && Tail(MovDefinitions[1], s1, s2, FirstImm([a, b])) == Encoding([ModRmOf(0, j, 4), 0x25] + LE(v, 4), None)
  {
    var a, b := O.Mem(O.Imm32(v)), O.Reg(O.Size64, Aliases(j)[3]);
    ArrangeInOrder(a, b, Memory64, Reg64);
    NoImmediate(a, b);
    AbsoluteHead(MovDefinitions[1], O.Imm32(v), j);
    AbsoluteTail(MovDefinitions[1], v, j);
  }

  lemma MovLoadAbsoluteParts(i: nat, v: i32)
    requires i < 16
    ensures var a, b := O.Reg(O.Size64, Aliases(i)[3]), O.Mem(O.Imm32(v));
      var s1, s2 := Some(Slot(b, Memory64)), Some(Slot(a, Reg64));
      Arrange([a, b], MovDefinitions[2].operands) == (s1, s2)
      && Head(MovDefinitions[2], s1, s2) == Encoding(Rex(true, i, 0) + [0x8B], None)
      && Tail(MovDefinitions[2], s1, s2, FirstImm([a, b])) == Encoding([ModRmOf(0, i, 4), 0x25] + LE(v, 4), None)
  {
    var a, b := O.Reg(O.Size64, Aliases(i)[3]), O.Mem(O.Imm32(v));
    ArrangeSwapped(a, b, Reg64, Memory64);
    NoImmediate(a, b);
    AbsoluteHead(MovDefinitions[2], O.Imm32(v), i);
    AbsoluteTail(MovDefinitions[2], v, i);
  }

  lemma MovStoreSymbolParts(symbol: Symbols.Symbol, j: nat)
    requires j < 16
    ensures var a, b := O.Mem(O.Sym(symbol)), O.Reg(O.Size64, Aliases(j)[3]);
      var s1, s2 := Some(Slot(a, Memory64)), Some(Slot(b, Reg64));
      Arrange([a, b], MovDefinitions[1].operands) == (s1, s2)
      && Head(MovDefinitions[1], s1, s2) == Encoding(Rex(true, j, 0) + [0x89], None)
      && Tail(MovDefinitions[1], s1, s2, FirstImm([a, b])) == Encoding([ModRmOf(0, j, 4), 0x25], Some("No disp32 value"))
  {
    var a, b := O.Mem(O.Sym(symbol)), O.Reg(O.Size64, Aliases(j)[3]);
    ArrangeInOrder(a, b, Memory64, Reg64);
    NoImmediate(a, b);
    AbsoluteHead(MovDefinitions[1], O.Sym(symbol), j);
    SymbolTail(MovDefinitions[1], symbol, j);
  }

  /** `mov [disp32], r64`: REX.W, 89, ModR/M 00 reg 100, SIB 0x25 (no base,
      no index) and the displacement. */
  lemma MovStoreAbsoluteBytes(bits: int, v: i32, j: nat)
    requires j < 16
    ensures var ops := [O.Mem(O.Imm32(v)), O.Reg(O.Size64, Aliases(j)[3])];
      EmitOf(O.Instruction(bits, "mov", ops)) == Emission(Emitted, Rex(true, j, 0) + [0x89] + [ModRmOf(0, j, 4), 0x25] + LE(v, 4), ops)
  {
    var a, b := O.Mem(O.Imm32(v)), O.Reg(O.Size64, Aliases(j)[3]);
    var ops := [a, b];
    MovStore(bits, a.inner, Aliases(j)[3]);
    var s1, s2 := Some(Slot(a, Memory64)), Some(Slot(b, Reg64));
    MovStoreAbsoluteParts(v, j);
    EmitOfBytes(O.Instruction(bits, "mov", ops), MovDefinitions[1], ops, s1, s2,
      Rex(true, j, 0) + [0x89], Encoding([ModRmOf(0, j, 4), 0x25] + LE(v, 4), None));
    AppendAssoc(Rex(true, j, 0) + [0x89], [ModRmOf(0, j, 4), 0x25], LE(v, 4));
  }

  /** `mov r64, [disp32]`: REX.W, 8B, and the same addressing. */
  lemma MovLoadAbsoluteBytes(bits: int, i: nat, v: i32)
    requires i < 16
    ensures var ops := [O.Reg(O.Size64, Aliases(i)[3]), O.Mem(O.Imm32(v))];
      EmitOf(O.Instruction(bits, "mov", ops)) == Emission(Emitted, Rex(true, i, 0) + [0x8B] + [ModRmOf(0, i, 4), 0x25] + LE(v, 4), ops)
  {
    var a, b := O.Reg(O.Size64, Aliases(i)[3]), O.Mem(O.Imm32(v));
    var ops := [a, b];
    MovLoadAbsolute(bits, Aliases(i)[3], v);
    var s1, s2 := Some(Slot(b, Memory64)), Some(Slot(a, Reg64));
    MovLoadAbsoluteParts(i, v);
    EmitOfBytes(O.Instruction(bits, "mov", ops), MovDefinitions[2], ops, s1, s2,
      Rex(true, i, 0) + [0x8B], Encoding([ModRmOf(0, i, 4), 0x25] + LE(v, 4), None));
    AppendAssoc(Rex(true, i, 0) + [0x8B], [ModRmOf(0, i, 4), 0x25], LE(v, 4));
  }

  /** `mov [symbol], r64`: a symbol in brackets has no 32-bit value, so
      emission throws after REX, opcode, ModR/M and SIB are appended. */
  lemma MovStoreSymbolThrows(bits: int, symbol: Symbols.Symbol, j: nat)
    requires j < 16
    ensures var ops := [O.Mem(O.Sym(symbol)), O.Reg(O.Size64, Aliases(j)[3])];
      EmitOf(O.Instruction(bits, "mov", ops))
      == Emission(Threw("No disp32 value"), Rex(true, j, 0) + [0x89] + [ModRmOf(0, j, 4), 0x25], ops)
  {
    var a, b := O.Mem(O.Sym(symbol)), O.Reg(O.Size64, Aliases(j)[3]);
    var ops := [a, b];
    MovStore(bits, a.inner, Aliases(j)[3]);
    var s1, s2 := Some(Slot(a, Memory64)), Some(Slot(b, Reg64));
    MovStoreSymbolParts(symbol, j);
    EmitOfBytes(O.Instruction(bits, "mov", ops), MovDefinitions[1], ops, s1, s2,
      Rex(true, j, 0) + [0x89], Encoding([ModRmOf(0, j, 4), 0x25], Some("No disp32 value")));
  }

  // ---- immediates ----

  /** A register r_i in rm (mod 11, reg 000) followed by an immediate. */
  lemma RegisterImmediateParts(def: Definition, i: nat, imm: O.Operand)
    requires i < 16 && |def.opcode| > 0 && !def.opcodeReg && def.w
    requires imm.Imm8? || imm.Imm16? || imm.Imm32?
    requires |def.operands| == 2
    ensures var s1, s2 := Some(Slot(O.Reg(O.Size64, Aliases(i)[3]), Reg64)), Some(Slot(imm, def.operands[1]));
      Head(def, s1, s2) == Encoding(Rex(true, 0, i) + def.opcode, None)
      && Tail(def, s1, s2, Some(imm)) == Encoding([ModRmOf(3, 0, i)] + ImmediateBytes(Some(imm)), None)
  {
    RegisterImmediateHead(def, i, imm);
    RegisterImmediateTail(def, i, imm);
  }

  lemma RegisterImmediateHead(def: Definition, i: nat, imm: O.Operand)
    requires i < 16 && |def.opcode| > 0 && !def.opcodeReg && def.w
    requires imm.Imm8? || imm.Imm16? || imm.Imm32?
    requires |def.operands| == 2
    ensures var s1, s2 := Some(Slot(O.Reg(O.Size64, Aliases(i)[3]), Reg64)), Some(Slot(imm, def.operands[1]));
      Head(def, s1, s2) == Encoding(Rex(true, 0, i) + def.opcode, None)
  {
    Alias3(i);
  }

  lemma RegisterImmediateTail(def: Definition, i: nat, imm: O.Operand)
    requires i < 16 && !def.opcodeReg
    requires imm.Imm8? || imm.Imm16? || imm.Imm32?
    requires |def.operands| == 2
    ensures var s1, s2 := Some(Slot(O.Reg(O.Size64, Aliases(i)[3]), Reg64)), Some(Slot(imm, def.operands[1]));
      Tail(def, s1, s2, Some(imm)) == Encoding([ModRmOf(3, 0, i)] + ImmediateBytes(Some(imm)), None)
  {
    Alias3(i);
  }

  lemma AddRegisterImm8Parts(i: nat, v: i8)
    requires i < 16
    ensures var ops := [O.Reg(O.Size64, Aliases(i)[3]), O.Imm8(v)];
      var s1, s2 := Some(Slot(ops[0], Reg64)), Some(Slot(ops[1], Imm8));
      Arrange(ops, AddDefinitions[2].operands) == (s1, s2)
      && Head(AddDefinitions[2], s1, s2) == Encoding(Rex(true, 0, i) + [0x83], None)
      && Tail(AddDefinitions[2], s1, s2, FirstImm(ops)) == Encoding([ModRmOf(3, 0, i), ToByte(v)], None)
  {
    var a := O.Reg(O.Size64, Aliases(i)[3]);
    ArrangeInOrder(a, O.Imm8(v), Reg64, Imm8);
    SecondImmediate(a, O.Imm8(v));
    RegisterImmediateParts(AddDefinitions[2], i, O.Imm8(v));
  }

  /** `add r64, imm8`: REX.W (and B for r8..r15), 83, ModR/M 11 000 r, the byte. */
  lemma AddRegisterImm8Bytes(bits: int, i: nat, v: i8)
    requires i < 16
    ensures var ops := [O.Reg(O.Size64, Aliases(i)[3]), O.Imm8(v)];
      EmitOf(O.Instruction(bits, "add", ops)) == Emission(Emitted, Rex(true, 0, i) + [0x83] + [ModRmOf(3, 0, i), ToByte(v)], ops)
  {
    var a := O.Reg(O.Size64, Aliases(i)[3]);
    var ops := [a, O.Imm8(v)];
    AddRegisterImm8(bits, Aliases(i)[3], v);
    var def := AddDefinitions[2];
    var s1, s2 := Some(Slot(a, Reg64)), Some(Slot(O.Imm8(v), Imm8));
    AddRegisterImm8Parts(i, v);
    EmitOfBytes(O.Instruction(bits, "add", ops), def, ops, s1, s2,
      Rex(true, 0, i) + [0x83], Encoding([ModRmOf(3, 0, i), ToByte(v)], None));
  }

  /** B8+r with a 32-bit immediate: no ModR/M. */
  lemma MovImmediateParts(i: nat, v: i32)
    requires i < 16
    ensures var s1, s2 := Some(Slot(O.Reg(O.Size64, Aliases(i)[3]), Reg64)), Some(Slot(O.Imm32(v), Imm32));
      Head(MovDefinitions[0], s1, s2) == Encoding(Rex(false, 0, i) + [0xB8 + i % 8], None)
      && Tail(MovDefinitions[0], s1, s2, Some(O.Imm32(v))) == Encoding(LE(v, 4), None)
  {
    Alias3(i);
  }

  /** `mov r64, imm8`: the byte is widened to 32 bits and encoded with B8+r
      and a four-byte immediate, without REX.W. */
  lemma MovRegisterImm8Bytes(bits: int, i: nat, v: i8)
    requires i < 16
    ensures var a, opcode: byte := O.Reg(O.Size64, Aliases(i)[3]), 0xB8 + i % 8;
      EmitOf(O.Instruction(bits, "mov", [a, O.Imm8(v)]))
      == Emission(Emitted, Rex(false, 0, i) + [opcode] + LE(v, 4), [a, O.Imm32(v)])
  {
    var a := O.Reg(O.Size64, Aliases(i)[3]);
    var ops := [a, O.Imm32(v)];
    MovRegisterImm8(bits, Aliases(i)[3], v);
    var s1, s2 := Some(Slot(a, Reg64)), Some(Slot(O.Imm32(v), Imm32));
    ArrangeInOrder(a, O.Imm32(v), Reg64, Imm32);
    SecondImmediate(a, O.Imm32(v));
    MovImmediateParts(i, v);
    EmitOfBytes(O.Instruction(bits, "mov", [a, O.Imm8(v)]), MovDefinitions[0], ops, s1, s2,
      Rex(false, 0, i) + [0xB8 + i % 8], Encoding(LE(v, 4), None));
  }

  /** A fixed register and an immediate: the opcode and the immediate only. */
  lemma FixedImmediateParts(def: Definition, s1: Option<Slot>, imm: O.Operand)
    requires |def.opcode| > 0 && !def.opcodeReg && |def.operands| == 2
    requires s1.Some? && s1.value.shape.FixedReg? && s1.value.op.Reg? && s1.value.op.name in {"al", "ax", "eax", "rax"}
    requires imm.Imm8? || imm.Imm16? || imm.Imm32?
    ensures var s2 := Some(Slot(imm, def.operands[1]));
      Head(def, s1, s2) == Encoding(Rex(def.w, 0, 0) + def.opcode, None)
      && Tail(def, s1, s2, Some(imm)) == Encoding(ImmediateBytes(Some(imm)), None)
  {
    FixedImmediateHead(def, s1, imm);
    FixedImmediateTail(def, s1, imm);
  }

  lemma FixedImmediateHead(def: Definition, s1: Option<Slot>, imm: O.Operand)
    requires |def.opcode| > 0 && !def.opcodeReg && |def.operands| == 2
    requires s1.Some? && s1.value.shape.FixedReg? && s1.value.op.Reg? && s1.value.op.name in {"al", "ax", "eax", "rax"}
    requires imm.Imm8? || imm.Imm16? || imm.Imm32?
    ensures Head(def, s1, Some(Slot(imm, def.operands[1]))) == Encoding(Rex(def.w, 0, 0) + def.opcode, None)
  {
  }

  lemma FixedImmediateTail(def: Definition, s1: Option<Slot>, imm: O.Operand)
    requires !def.opcodeReg && |def.operands| == 2
    requires s1.Some? && s1.value.shape.FixedReg? && s1.value.op.Reg? && s1.value.op.name in {"al", "ax", "eax", "rax"}
    requires imm.Imm8? || imm.Imm16? || imm.Imm32?
    ensures Tail(def, s1, Some(Slot(imm, def.operands[1])), Some(imm)) == Encoding(ImmediateBytes(Some(imm)), None)
  {
    assert Addressing(def, s1, Some(Slot(imm, def.operands[1]))) == Encoding([], None);
  }

  /** A fixed register then an immediate: the operands stay in order, the
      head is the prefix and the opcode, the tail the immediate alone. */
  lemma FixedRegisterImmediate(def: Definition, a: O.Operand, b: O.Operand)
    requires |def.opcode| > 0 && !def.opcodeReg && |def.operands| == 2 && def.operands[0].FixedReg?
    requires a.Reg? && a.name in {"al", "ax", "eax", "rax"}
    requires b.Imm8? || b.Imm16? || b.Imm32?
    ensures var s1, s2 := Some(Slot(a, def.operands[0])), Some(Slot(b, def.operands[1]));
      Arrange([a, b], def.operands) == (s1, s2)
      && Head(def, s1, s2) == Encoding(Rex(def.w, 0, 0) + def.opcode, None)
      && Tail(def, s1, s2, FirstImm([a, b])) == Encoding(ImmediateBytes(Some(b)), None)
  {
    ArrangeInOrder(a, b, def.operands[0], def.operands[1]);
    assert def.operands == [def.operands[0], def.operands[1]];
    SecondImmediate(a, b);
    FixedImmediateParts(def, Some(Slot(a, def.operands[0])), b);
  }

  lemma AddRaxParts(def: Definition, v: i32)
    requires def.opcode == [0x05] && def.w && !def.opcodeReg && def.operands == [RAX, Imm32]
    ensures var a, b := O.Reg(O.Size64, "rax"), O.Imm32(v);
      var s1, s2 := Some(Slot(a, RAX)), Some(Slot(b, Imm32));
      Arrange([a, b], def.operands) == (s1, s2)
      && Head(def, s1, s2) == Encoding([0x48, 0x05], None)
      && Tail(def, s1, s2, FirstImm([a, b])) == Encoding(LE(v, 4), None)
  {
    FixedRegisterImmediate(def, O.Reg(O.Size64, "rax"), O.Imm32(v));
    RexWBeforeOpcode([0x05]);
  }

  /** REX.W alone is 48, put before the opcode. */
  lemma RexWBeforeOpcode(opcode: seq<byte>)
    ensures Rex(true, 0, 0) + opcode == [0x48] + opcode
  {
  }

  lemma AddAlParts(def: Definition, v: i8)
    requires def.opcode == [0x04] && !def.w && !def.opcodeReg && def.operands == [AL, Imm8]
    ensures var a, b := O.Reg(O.Size8, "al"), O.Imm8(v);
      var s1, s2 := Some(Slot(a, AL)), Some(Slot(b, Imm8));
      Arrange([a, b], def.operands) == (s1, s2)
      && Head(def, s1, s2) == Encoding([0x04], None)
      && Tail(def, s1, s2, FirstImm([a, b])) == Encoding([ToByte(v)], None)
  {
    FixedRegisterImmediate(def, O.Reg(O.Size8, "al"), O.Imm8(v));
  }

  lemma AddAxParts(def: Definition, v: i16)
    requires def.opcode == [0x66, 0x05] && !def.w && !def.opcodeReg && def.operands == [AX, Imm16]
    ensures var a, b := O.Reg(O.Size16, "ax"), O.Imm16(v);
      var s1, s2 := Some(Slot(a, AX)), Some(Slot(b, Imm16));
      Arrange([a, b], def.operands) == (s1, s2)
      && Head(def, s1, s2) == Encoding([0x66, 0x05], None)
      && Tail(def, s1, s2, FirstImm([a, b])) == Encoding(LE(v, 4), None)
  {
    FixedRegisterImmediate(def, O.Reg(O.Size16, "ax"), O.Imm16(v));
  }

  /** `add rax, imm32`: REX.W, 05 and the four bytes; no ModR/M, since rax
      is the fixed register of the entry. */
  lemma AddRaxImm32Bytes(bits: int, v: i32)
    ensures var ops := [O.Reg(O.Size64, "rax"), O.Imm32(v)];
      EmitOf(O.Instruction(bits, "add", ops)) == Emission(Emitted, [0x48, 0x05] + LE(v, 4), ops)
  {
    var ops := [O.Reg(O.Size64, "rax"), O.Imm32(v)];
    AddRaxImm32(bits, v);
    AddAccumulatorEntries();
    AddRaxParts(AddDefinitions[6], v);
    EmitOfBytes(O.Instruction(bits, "add", ops), AddDefinitions[6], ops, Some(Slot(ops[0], RAX)), Some(Slot(ops[1], Imm32)), [0x48, 0x05], Encoding(LE(v, 4), None));
  }

  /** `add rax, 200` and every other 16-bit value: the same bytes as the
      32-bit form, and the operand left widened. */
  lemma AddRaxImm16Bytes(bits: int, v: i16)
    ensures EmitOf(O.Instruction(bits, "add", [O.Reg(O.Size64, "rax"), O.Imm16(v)]))
      == Emission(Emitted, [0x48, 0x05] + LE(v, 4), [O.Reg(O.Size64, "rax"), O.Imm32(v)])
  {
    var ops := [O.Reg(O.Size64, "rax"), O.Imm32(v)];
    AddRegisterImm16(bits, "rax", v);
    AddRaxImm32(bits, v);
    AddRaxImm32Bytes(bits, v);
  }

  /** `add r64, imm16` for any register but rax is not supported and emits nothing. */
  lemma AddRegisterImm16Unsupported(bits: int, a: string, v: i16)
    requires a != "rax"
    ensures var e := EmitOf(O.Instruction(bits, "add", [O.Reg(O.Size64, a), O.Imm16(v)]));
      e.result.NotSupported? && e.bytes == [] && e.operands == [O.Reg(O.Size64, a), O.Imm64(v)]
  {
    AddRegisterImm16(bits, a, v);
  }

  /** `add al, imm8`: 04 and the byte. */
  lemma AddAlImm8Bytes(bits: int, v: i8)
    ensures var ops := [O.Reg(O.Size8, "al"), O.Imm8(v)];
      EmitOf(O.Instruction(bits, "add", ops)) == Emission(Emitted, [0x04, ToByte(v)], ops)
  {
    var ops := [O.Reg(O.Size8, "al"), O.Imm8(v)];
    AddAlImm8(bits, v);
    AddAccumulatorEntries();
    AddAlParts(AddDefinitions[3], v);
    EmitOfBytes(O.Instruction(bits, "add", ops), AddDefinitions[3], ops, Some(Slot(ops[0], AL)), Some(Slot(ops[1], Imm8)), [0x04], Encoding([ToByte(v)], None));
  }

  /** `add ax, imm16`: 66 05 followed by the value as four bytes, as for
      every 16-bit immediate. */
  lemma AddAxImm16Bytes(bits: int, v: i16)
    ensures var ops := [O.Reg(O.Size16, "ax"), O.Imm16(v)];
      EmitOf(O.Instruction(bits, "add", ops)) == Emission(Emitted, [0x66, 0x05] + LE(v, 4), ops)
  {
    var ops := [O.Reg(O.Size16, "ax"), O.Imm16(v)];
    AddAxImm16(bits, v);
    AddAccumulatorEntries();
    AddAxParts(AddDefinitions[4], v);
    EmitOfBytes(O.Instruction(bits, "add", ops), AddDefinitions[4], ops, Some(Slot(ops[0], AX)), Some(Slot(ops[1], Imm16)), [0x66, 0x05], Encoding(LE(v, 4), None));
  }

  /** An immediate alone: the opcode and the immediate. */
  lemma ImmediateOnlyParts(def: Definition, imm: O.Operand)
    requires |def.opcode| > 0 && !def.opcodeReg && !def.w && |def.operands| == 1
    requires imm.Imm8? || imm.Imm16? || imm.Imm32?
    ensures var s1 := Some(Slot(imm, def.operands[0]));
      Head(def, s1, None) == Encoding(def.opcode, None)
      && Tail(def, s1, None, Some(imm)) == Encoding(ImmediateBytes(Some(imm)), None)
  {
  }

  /** `push imm`: 6A and one byte, or 68 and four bytes. */
  lemma PushImmediateBytes(bits: int, imm: O.Operand)
    requires imm.Imm8? || imm.Imm16? || imm.Imm32?
    ensures EmitOf(O.Instruction(bits, "push", [imm]))
      == Emission(Emitted, [if imm.Imm8? then 0x6A else 0x68] + ImmediateBytes(Some(imm)), [imm])
  {
    PushImmediate(bits, imm);
    var def := PushDefinitions[if imm.Imm8? then 3 else if imm.Imm16? then 4 else 5];
    var s1 := Some(Slot(imm, def.operands[0]));
    ImmediateOnlyParts(def, imm);
    assert FirstImm([imm]) == Some(imm);
    EmitOfBytes(O.Instruction(bits, "push", [imm]), def, [imm], s1, None, def.opcode, Encoding(ImmediateBytes(Some(imm)), None));
  }
}
