/** Machine-code emission for one resolved instruction (InstructionEmitter.cs):
    REX prefix, opcode, ModR/M, SIB, displacement and immediate, in the
    instruction format of section 2.1 of the Intel 64 and IA-32 Architectures
    Software Developer's Manual, Volume 2A. */
module Emitter {
  import opened Wrappers
  import opened Bytes
  import O = Operands
  import opened Definitions
  import Buffers

  /** A value, or the message of the exception the source throws instead. */
  type Try<T> = Result<T, string>

  // ---- register numbers ----

  /** The sixteen registers' names, by number: the 8-, 16-, 32- and 64-bit
      names that `RegisterByte` accepts for each. */
  function Aliases(i: nat): (names: seq<string>)
    requires i < 16
    ensures |names| == 4
  {
    [ ["al", "ax", "eax", "rax"], ["cl", "cx", "ecx", "rcx"], ["dl", "dx", "edx", "rdx"],
      ["bl", "bx", "ebx", "rbx"], ["ah", "sp", "esp", "rsp"], ["ch", "bp", "ebp", "rbp"],
      ["dh", "si", "esi", "rsi"], ["bh", "di", "edi", "rdi"], ["r8l", "r8w", "r8d", "r8"],
      ["r9l", "r9w", "r9d", "r9"], ["r10l", "r10w", "r10d", "r10"], ["r11l", "r11w", "r11d", "r11"],
      ["r12l", "r12w", "r12d", "r12"], ["r13l", "r13w", "r13d", "r13"], ["r14l", "r14w", "r14d", "r14"],
      ["r15l", "r15w", "r15d", "r15"] ][i]
  }

  /** `RegisterByte`: the register number of a name, or the
      InvalidOperationException for an unknown name. */
  function RegisterByte(register: string): (r: Try<nat>)
    ensures r.Success? ==> r.value < 16
    ensures r.Failure? ==> r.error == "Invalid register name: " + register
  {
    match register
    case "al" | "ax" | "eax" | "rax" => Success(0)
    case "cl" | "cx" | "ecx" | "rcx" => Success(1)
    case "dl" | "dx" | "edx" | "rdx" => Success(2)
    case "bl" | "bx" | "ebx" | "rbx" => Success(3)
    case "ah" | "sp" | "esp" | "rsp" => Success(4)
    case "ch" | "bp" | "ebp" | "rbp" => Success(5)
    case "dh" | "si" | "esi" | "rsi" => Success(6)
    case "bh" | "di" | "edi" | "rdi" => Success(7)
    case "r8l" | "r8w" | "r8d" | "r8" => Success(8)
    case "r9l" | "r9w" | "r9d" | "r9" => Success(9)
    case "r10l" | "r10w" | "r10d" | "r10" => Success(10)
    case "r11l" | "r11w" | "r11d" | "r11" => Success(11)
    case "r12l" | "r12w" | "r12d" | "r12" => Success(12)
    case "r13l" | "r13w" | "r13d" | "r13" => Success(13)
    case "r14l" | "r14w" | "r14d" | "r14" => Success(14)
    case "r15l" | "r15w" | "r15d" | "r15" => Success(15)
    case _ => Failure("Invalid register name: " + register)
  }

  /** Every alias of register i maps to i: the 8-, 16-, 32- and 64-bit
      names of one register share its number. */
  lemma AliasesShareNumber(i: nat)
    requires i < 16
    ensures RegisterByte(Aliases(i)[0]) == Success(i) && RegisterByte(Aliases(i)[1]) == Success(i)
    ensures RegisterByte(Aliases(i)[2]) == Success(i) && RegisterByte(Aliases(i)[3]) == Success(i)
  {
    Alias0(i);
    Alias1(i);
    Alias2(i);
    Alias3(i);
  }

  lemma Alias0(i: nat)
    requires i < 16
    ensures RegisterByte(Aliases(i)[0]) == Success(i)
  {
  }

  lemma Alias1(i: nat)
    requires i < 16
    ensures RegisterByte(Aliases(i)[1]) == Success(i)
  {
  }

  lemma Alias2(i: nat)
    requires i < 16
    ensures RegisterByte(Aliases(i)[2]) == Success(i)
  {
  }

  lemma Alias3(i: nat)
    requires i < 16
    ensures RegisterByte(Aliases(i)[3]) == Success(i)
  {
  }

  /** The names RegisterByte accepts are exactly the aliases. */
  lemma KnownNamesAreAliases(register: string)
    ensures RegisterByte(register).Success? ==> register in Aliases(RegisterByte(register).value)
  {
  }

  /** The 8-bit name sil is none of the aliases. */
  lemma SilRejected()
    ensures RegisterByte("sil").Failure?
  {
    KnownNamesAreAliases("sil");
  }

  // ---- operand slots ----

  /** An operand together with the shape it matched. */
  datatype Slot = Slot(op: O.Operand, shape: OperandDef)

  function SlotAt(ops: seq<O.Operand>, shapes: seq<OperandDef>, k: nat): Option<Slot>
  {
    if k < |ops| && k < |shapes| then Some(Slot(ops[k], shapes[k])) else None
  }

  /** The first two operands with their shapes, swapped when the second is a
      memory operand so that a memory operand always comes first. */
  function Arrange(ops: seq<O.Operand>, shapes: seq<OperandDef>): (r: (Option<Slot>, Option<Slot>))
    ensures r.1.Some? ==> r.1.value.op.Kind() != O.Memory || (r.0.Some? && r.0.value.op.Mem?)
    ensures {r.0, r.1} == {SlotAt(ops, shapes, 0), SlotAt(ops, shapes, 1)}
  {
    var s1, s2 := SlotAt(ops, shapes, 0), SlotAt(ops, shapes, 1);
    if s2.Some? && s2.value.op.Kind() == O.Memory then (s2, s1) else (s1, s2)
  }

  function OpOf(s: Option<Slot>): Option<O.Operand>
  {
    if s.Some? then Some(s.value.op) else None
  }

  /** The register named by an operand or by the brackets of a memory operand. */
  function NamedRegister(op: Option<O.Operand>): Option<string>
  {
    match op
    case Some(Reg(_, name)) => Some(name)
    case Some(Mem(Reg(_, name))) => Some(name)
    case _ => None
  }

  /** Every register name the operand mentions is known to RegisterByte. */
  predicate NamesKnown(op: Option<O.Operand>)
  {
    NamedRegister(op).Some? ==> RegisterByte(NamedRegister(op).value).Success?
  }

  /** The message of the exception RegisterByte throws. */
  predicate RegisterError(message: string)
  {
    |message| >= 23 && message[..23] == "Invalid register name: "
  }

  // ---- REX ----

  /** `GetRexBit`: the operand, or the register in its brackets, is r8..r15. */
  function RexBit(op: Option<O.Operand>): (r: Try<bool>)
    ensures r.Success? <==> NamesKnown(op)
    ensures r.Success? ==> (r.value <==> NamedRegister(op).Some? && RegisterByte(NamedRegister(op).value).value > 7)
    ensures r.Failure? ==> RegisterError(r.error)
  {
    match NamedRegister(op)
    case None => Success(false)
    case Some(name) =>
      match RegisterByte(name)
      case Failure(e) => Failure(e)
      case Success(n) => Success(n > 7)
  }

  /** `CalculateRexPrefix`: 0100WR0B when any of W, R (second operand) or B
      (first operand) is set, and no prefix otherwise. Both operands are
      checked before anything else, so an unknown register name fails here. */
  function RexPrefix(w: bool, s1: Option<Slot>, s2: Option<Slot>): (r: Try<Option<byte>>)
    ensures r.Success? <==> NamesKnown(OpOf(s1)) && NamesKnown(OpOf(s2))
    ensures r.Failure? ==> RegisterError(r.error)
    ensures r.Success? ==> (r.value.Some? <==> w || RexBit(OpOf(s1)).value || RexBit(OpOf(s2)).value)
    ensures r.Success? && r.value.Some? ==>
      var x := r.value.value;
      x / 16 == 4 && (x / 8) % 2 == (if w then 1 else 0)
      && (x / 4) % 2 == (if RexBit(OpOf(s2)).value then 1 else 0)
      && (x / 2) % 2 == 0
      && x % 2 == (if RexBit(OpOf(s1)).value then 1 else 0)
  {
    match RexBit(OpOf(s1))
    case Failure(e) => Failure(e)
    case Success(b) =>
      match RexBit(OpOf(s2))
      case Failure(e) => Failure(e)
      case Success(rr) =>
        if w || b || rr then
          Success(Some(0x40 + (if w then 8 else 0) + (if rr then 4 else 0) + (if b then 1 else 0)))
        else Success(None)
  }

  // ---- opcode ----

  /** The opcode bytes with the register's low three bits added to the last
      one when the definition carries the register in the opcode. */
  function Opcode(def: Definition, s1: Option<Slot>): (r: Try<seq<byte>>)
    requires |def.opcode| > 0
    ensures NamesKnown(OpOf(s1)) ==> r.Success?
    ensures r.Success? ==> |r.value| == |def.opcode| && r.value[..|def.opcode| - 1] == def.opcode[..|def.opcode| - 1]
    ensures r.Success? && !(def.opcodeReg && s1.Some? && s1.value.op.Reg?) ==> r.value == def.opcode
    ensures r.Success? && def.opcodeReg && s1.Some? && s1.value.op.Reg? ==>
      var last := |def.opcode| - 1;
      RegisterByte(s1.value.op.name).Success?
      && r.value[last] == ToByte(def.opcode[last] + RegisterByte(s1.value.op.name).value % 8)
  {
    if def.opcodeReg && s1.Some? && s1.value.op.Reg? then
      match RegisterByte(s1.value.op.name)
      case Failure(e) => Failure(e)
      case Success(n) =>
        var last := |def.opcode| - 1;
        Success(def.opcode[last := ToByte(def.opcode[last] + n % 8)])
    else Success(def.opcode)
  }

  // ---- ModR/M ----

  /** `CalculateModRMRegBits`: the low three bits of a register that does not
      fill a fixed shape, of the register in brackets, or 100 for bracketed
      immediates; nothing for anything else. */
  function RegBits(s: Option<Slot>): (r: Try<Option<nat>>)
    ensures NamesKnown(OpOf(s)) ==> r.Success?
    ensures r.Success? && r.value.Some? ==> r.value.value < 8
    ensures r.Success? && r.value.Some? ==> s.Some? && (s.value.op.Reg? || s.value.op.Mem?)
    ensures s.Some? && s.value.op.Mem? && s.value.op.inner.IsImm() ==> r == Success(Some(4))
    ensures s.Some? && s.value.op.Reg? && s.value.shape.Kind() != O.Fixed ==>
      var n := RegisterByte(s.value.op.name);
      (n.Success? ==> r == Success(Some(n.value % 8))) && (n.Failure? ==> r == Failure(n.error))
    ensures s.Some? && s.value.op.Mem? && s.value.op.inner.Reg? ==>
      var n := RegisterByte(s.value.op.inner.name);
      (n.Success? ==> r == Success(Some(n.value % 8))) && (n.Failure? ==> r == Failure(n.error))
    ensures s.None? || (s.value.op.Reg? && s.value.shape.Kind() == O.Fixed) ==> r == Success(None)
  {
    match s
    case None => Success(None)
    case Some(Slot(op, shape)) =>
      if op.Reg? && shape.Kind() != O.Fixed then
        match RegisterByte(op.name)
        case Failure(e) => Failure(e)
        case Success(n) => Success(Some(n % 8))
      else if op.Mem? && op.inner.Reg? then
        match RegisterByte(op.inner.name)
        case Failure(e) => Failure(e)
        case Success(n) => Success(Some(n % 8))
      else if op.Mem? && op.inner.IsImm() then Success(Some(4))
      else Success(None)
  }

  /** `CalculateModRmModBits`: 11 for a register operand; for a memory operand
      01 ([SIB + disp8]) when the register bits are 101 ([rbp]/[r13]) and 00
      otherwise. */
  function ModBits(op1: Option<O.Operand>, reg1: Option<nat>): (m: nat)
    ensures m in {0, 1, 3}
    ensures m == 3 <==> !(op1.Some? && op1.value.Mem?)
    ensures m == 1 <==> op1.Some? && op1.value.Mem? && reg1 == Some(5)
  {
    if op1.Some? && op1.value.Mem? then
      if reg1 == Some(5) then 1 else 0
    else 3
  }

  /** `CalculateModRM`: mod<<6 | reg<<3 | rm, with rm from the first operand
      and reg from the second (0 when it is no register); nothing when the
      first operand gives no register bits. */
  function ModRm(s1: Option<Slot>, s2: Option<Slot>): (r: Try<Option<byte>>)
    ensures NamesKnown(OpOf(s1)) && NamesKnown(OpOf(s2)) ==> r.Success?
    ensures r.Success? ==> RegBits(s1).Success? && (RegBits(s1).value.Some? ==> RegBits(s2).Success?)
    ensures r.Success? ==> (r.value.Some? <==> RegBits(s1).value.Some?)
    ensures r.Success? && r.value.Some? ==>
      var x := r.value.value;
      x / 64 == ModBits(OpOf(s1), RegBits(s1).value)
      && x / 64 != 2
      && (x / 8) % 8 == (if RegBits(s2).value.Some? then RegBits(s2).value.value else 0)
      && x % 8 == RegBits(s1).value.value
  {
    match RegBits(s1)
    case Failure(e) => Failure(e)
    case Success(None) => Success(None)
    case Success(Some(rm)) =>
      match RegBits(s2)
      case Failure(e) => Failure(e)
      case Success(reg) =>
        var m := ModBits(OpOf(s1), Some(rm));
        Success(Some(Pack(m, if reg.Some? then reg.value else 0, rm)))
  }

  /** Three bit fields of 2, 3 and 3 bits in one byte, high to low. */
  function Pack(high: nat, middle: nat, low: nat): (x: byte)
    requires high < 4 && middle < 8 && low < 8
    ensures x / 64 == high && (x / 8) % 8 == middle && x % 8 == low
  {
    var upper := high * 8 + middle;
    ModUnique(upper * 8 + low, 8, upper, low);
    ModUnique(upper, 8, high, middle);
    ModUnique(upper * 8 + low, 64, high, middle * 8 + low);
    upper * 8 + low
  }

  // ---- SIB ----

  /** `CalculateSibByte`: for a memory first operand, 0x24 (base and index
      100) around rsp/r12 and 0x25 (no base, disp32) around an immediate;
      otherwise nothing. */
  function Sib(op1: Option<O.Operand>): (r: Try<Option<byte>>)
    ensures NamesKnown(op1) ==> r.Success?
    ensures r.Success? && r.value.Some? ==> op1.Some? && op1.value.Mem?
    ensures r.Success? && r.value.Some? ==> r.value.value in {0x24, 0x25}
    ensures r.Success? && r.value == Some(0x25) <==> op1.Some? && op1.value.Mem? && op1.value.inner.IsImm()
    ensures op1.Some? && op1.value.Mem? && op1.value.inner.Reg? && r.Success? ==>
      RegisterByte(op1.value.inner.name).Success? &&
      (r.value == Some(0x24) <==> RegisterByte(op1.value.inner.name).value % 8 == 4)
  {
    match op1
    case Some(Mem(Reg(_, name))) =>
      (match RegisterByte(name)
       case Failure(e) => Failure(e)
       case Success(n) => if n % 8 == 4 then Success(Some(0 * 64 + 4 * 8 + 4)) else Success(None))
    case Some(Mem(inner)) =>
      if inner.IsImm() then Success(Some(0 * 64 + 4 * 8 + 5)) else Success(None)
    case _ => Success(None)
  }

  // ---- displacement and immediate ----

  /** `GetDisplacement32`: the value of an Imm32 in brackets; any other
      operand throws. */
  function Displacement32(op1: Option<O.Operand>): (r: Try<i32>)
    ensures r.Success? <==> op1.Some? && op1.value.Mem? && op1.value.inner.Imm32?
    ensures r.Failure? ==> r.error == "No disp32 value"
  {
    match op1
    case Some(Mem(Imm32(v))) => Success(v)
    case _ => Failure("No disp32 value")
  }

  /** The displacement after a ModR/M byte: a zero disp8 for mod 01, four
      zeros for mod 10, and for mod 00 with a SIB base of 101 the bracketed
      value as four little-endian bytes. */
  function Displacement(modRm: byte, sib: Option<byte>, op1: Option<O.Operand>): (r: Try<seq<byte>>)
    ensures modRm / 64 == 1 ==> r == Success([0])
    ensures modRm / 64 == 0 && sib.Some? && sib.value % 8 == 5 && Displacement32(op1).Success? ==>
      r.Success? && |r.value| == 4 && Signed(r.value) == Displacement32(op1).value
    ensures r.Failure? ==> r == Failure("No disp32 value")
  {
    var mod := modRm / 64;
    if mod == 1 then Success([0])
    else if mod == 2 then Success([0, 0, 0, 0])
    else if mod == 0 && sib.Some? && sib.value % 8 == 5 then
      match Displacement32(op1)
      case Failure(e) => Failure(e)
      case Success(v) =>
        SignedLE(v, 4);
        Success(LE(v, 4))
    else Success([])
  }

  /** `GetImmOperand`: the first top-level immediate, symbols included. */
  function FirstImm(ops: seq<O.Operand>): (r: Option<O.Operand>)
    ensures r.Some? ==> r.value.IsImm() && r.value in ops
    ensures r.None? ==> forall k :: 0 <= k < |ops| ==> !ops[k].IsImm()
    ensures r.Some? ==> exists k :: 0 <= k < |ops| && ops[k] == r.value && forall j :: 0 <= j < k ==> !ops[j].IsImm()
  {
    if ops == [] then None
    else if ops[0].IsImm() then Some(ops[0])
    else
      var r := FirstImm(ops[1..]);
      if r.Some? then
        var k :| 0 <= k < |ops[1..]| && ops[1..][k] == r.value && forall j :: 0 <= j < k ==> !ops[1..][j].IsImm();
        assert ops[k + 1] == r.value;
        r
      else r
  }

  /** The immediate bytes: one for Imm8, four for Imm16 and Imm32 (the 16-bit
      value sign-extended), none for Imm64 and symbols. */
  function ImmediateBytes(imm: Option<O.Operand>): (r: seq<byte>)
    ensures imm.Some? && imm.value.Imm8? ==> |r| == 1 && Signed(r) == imm.value.v8
    ensures imm.Some? && (imm.value.Imm16? || imm.value.Imm32?) ==> |r| == 4 && Signed(r) == imm.value.Value()
    ensures imm.None? || imm.value.Imm64? || imm.value.Sym? ==> r == []
  {
    match imm
    case Some(Imm8(v)) => SignedLE(v, 1); LE(v, 1)
    case Some(Imm16(v)) => SignedLE(v, 4); LE(v, 4)
    case Some(Imm32(v)) => SignedLE(v, 4); LE(v, 4)
    case _ => []
  }

  function OptBytes(b: Option<byte>): (r: seq<byte>)
    ensures |r| == if b.Some? then 1 else 0
  {
    if b.Some? then [b.value] else []
  }

  // ---- the whole encoding ----

  /** The bytes appended for one resolved instruction, and the message of the
      exception that stopped emission, if any: bytes appended before a throw
      stay in the buffer. */
  datatype Encoding = Encoding(bytes: seq<byte>, fault: Option<string>)

  /** Steps 1 and 2: the REX prefix and the opcode. */
  function Head(def: Definition, s1: Option<Slot>, s2: Option<Slot>): (r: Encoding)
    requires |def.opcode| > 0
    ensures r.fault.None? <==> NamesKnown(OpOf(s1)) && NamesKnown(OpOf(s2))
    ensures r.fault.Some? ==> r.bytes == [] && RegisterError(r.fault.value)
  {
    match RexPrefix(def.w, s1, s2)
    case Failure(e) => Encoding([], Some(e))
    case Success(rex) =>
      match Opcode(def, s1)
      case Failure(e) => Encoding(OptBytes(rex) + def.opcode, Some(e))
      case Success(code) => Encoding(OptBytes(rex) + code, None)
  }

  /** Steps 3 to 5: ModR/M, SIB and displacement. Once the register names
      are known, the only exception left is a missing disp32. */
  function Addressing(def: Definition, s1: Option<Slot>, s2: Option<Slot>): (r: Encoding)
    ensures NamesKnown(OpOf(s1)) && NamesKnown(OpOf(s2)) && r.fault.Some? ==> r.fault == Some("No disp32 value")
  {
    match ModRm(s1, s2)
    case Failure(e) => Encoding([], Some(e))
    case Success(modRm) =>
      var withModRm := !def.opcodeReg && modRm.Some?;
      var b := if withModRm then [modRm.value] else [];
      match Sib(OpOf(s1))
      case Failure(e) => Encoding(b, Some(e))
      case Success(sib) =>
        var b' := b + OptBytes(sib);
        match (if withModRm then Displacement(modRm.value, sib, OpOf(s1)) else Success([]))
        case Failure(e) => Encoding(b', Some(e))
        case Success(disp) => Encoding(b' + disp, None)
  }

  /** Steps 3-6 of `Emit`: ModR/M, SIB, displacement, then the immediate
      unless one of the first three threw. */
  function Tail(def: Definition, s1: Option<Slot>, s2: Option<Slot>, imm: Option<O.Operand>): (r: Encoding)
    ensures NamesKnown(OpOf(s1)) && NamesKnown(OpOf(s2)) && r.fault.Some? ==> r.fault == Some("No disp32 value")
  {
    var addressing := Addressing(def, s1, s2);
    if addressing.fault.Some? then addressing
    else Encoding(addressing.bytes + ImmediateBytes(imm), None)
  }

  /** Steps 1-6 of `Emit` after a definition was found, in the source's order;
      a throw keeps what was appended before it. */
  function Encode(def: Definition, ops: seq<O.Operand>): (r: Encoding)
    requires |def.opcode| > 0
    ensures var slots := Arrange(ops, def.operands);
      var head := Head(def, slots.0, slots.1);
      head.bytes <= r.bytes && (head.fault.Some? ==> r == head)
    ensures r.fault.Some? ==> (r.bytes == [] && RegisterError(r.fault.value)) || r.fault == Some("No disp32 value")
  {
    var slots := Arrange(ops, def.operands);
    var head := Head(def, slots.0, slots.1);
    if head.fault.Some? then head
    else
      var tail := Tail(def, slots.0, slots.1, FirstImm(ops));
      Encoding(head.bytes + tail.bytes, tail.fault)
  }

  /** What `Emit` returns: null on success, the not-supported message, or
      the message of an exception it let escape. */
  datatype EmitResult = Emitted | NotSupported(message: string) | Threw(message: string)

  /** The outcome of `Emit`: its result, the bytes it appends and the
      instruction's operands as resolution leaves them. */
  datatype Emission = Emission(result: EmitResult, bytes: seq<byte>, operands: seq<O.Operand>)

  function EmitOf(instruction: O.Instruction): (r: Emission)
    ensures r.operands == LookupOf(instruction).1
    ensures LookupOf(instruction).0.None? ==> r.bytes == [] && r.result.NotSupported?
    ensures r.result.NotSupported? <==> LookupOf(instruction).0.None?
    ensures r.result.NotSupported? ==> |r.result.message| >= 13 && r.result.message[..13] == "instruction `"
  {
    var (def, ops) := LookupOf(instruction);
    match def
    case None =>
      var text := O.InstructionToString(O.Instruction(instruction.bits, instruction.name, ops));
      assert ("instruction `" + (text + "` not supported"))[..13] == "instruction `";
      Emission(NotSupported("instruction `" + (text + "` not supported")), [], ops)
    case Some(d) =>
      assert d in Table(instruction.name).value by {
        var k :| FirstMatch(Table(instruction.name).value, ops) == Some(k) && d == Table(instruction.name).value[k];
      }
      var e := Encode(d, ops);
      Emission(if e.fault.Some? then Threw(e.fault.value) else Emitted, e.bytes, ops)
  }

  /** `Emit`: resolve the instruction (widening its immediates in place),
      then append prefix, opcode, ModR/M, SIB, displacement and immediate. */
  method Emit(instruction: O.Instruction, bytes: Buffers.ByteList) returns (result: EmitResult, operands: seq<O.Operand>)
    modifies bytes
    ensures bytes.items == old(bytes.items) + EmitOf(instruction).bytes
    ensures result == EmitOf(instruction).result && operands == EmitOf(instruction).operands
  {
    var found;
    found, operands := Lookup(instruction);
    if found.None? {
      return NotSupported("instruction `" + O.InstructionToString(O.Instruction(instruction.bits, instruction.name, operands)) + "` not supported"), operands;
    }
    EmitOfFound(instruction);
    EncodeParts(found.value, operands);
    var fault := EmitEncoding(found.value, operands, bytes);
    if fault.Some? {
      return Threw(fault.value), operands;
    }
    return Emitted, operands;
  }

  /** The encoding of a resolved instruction, appended step by step. */
  method EmitEncoding(def: Definition, operands: seq<O.Operand>, bytes: Buffers.ByteList) returns (fault: Option<string>)
    requires |def.opcode| > 0
    modifies bytes
    ensures var slots := Arrange(operands, def.operands);
      var head := Head(def, slots.0, slots.1);
      var tail := Tail(def, slots.0, slots.1, FirstImm(operands));
      if head.fault.Some? then bytes.items == old(bytes.items) + head.bytes && fault == head.fault
      else bytes.items == old(bytes.items) + (head.bytes + tail.bytes) && fault == tail.fault
  {
    var slots := Arrange(operands, def.operands);
    ghost var before := bytes.items;
    fault := EmitHead(def, slots.0, slots.1, bytes);
    if fault.Some? {
      return;
    }
    fault := EmitTail(def, slots.0, slots.1, FirstImm(operands), bytes);
    AppendAssoc(before, Head(def, slots.0, slots.1).bytes, Tail(def, slots.0, slots.1, FirstImm(operands)).bytes);
  }

  lemma EncodeParts(def: Definition, ops: seq<O.Operand>)
    requires |def.opcode| > 0
    ensures var slots := Arrange(ops, def.operands);
      var head := Head(def, slots.0, slots.1);
      var tail := Tail(def, slots.0, slots.1, FirstImm(ops));
      Encode(def, ops) == if head.fault.Some? then head else Encoding(head.bytes + tail.bytes, tail.fault)
  {
  }

  /** Steps 3-6, appended step by step. */
  method EmitTail(def: Definition, s1: Option<Slot>, s2: Option<Slot>, imm: Option<O.Operand>, bytes: Buffers.ByteList) returns (fault: Option<string>)
    modifies bytes
    ensures bytes.items == old(bytes.items) + Tail(def, s1, s2, imm).bytes
    ensures fault == Tail(def, s1, s2, imm).fault
  {
    ghost var before := bytes.items;
    fault := EmitAddressing(def, s1, s2, bytes);
    if fault.Some? {
      return;
    }
    EmitImmediate(imm, bytes);
    AppendAssoc(before, Addressing(def, s1, s2).bytes, ImmediateBytes(imm));
  }

  /** Once a definition is found, `Emit` is the encoding of the resolved operands. */
  lemma EmitOfFound(instruction: O.Instruction)
    requires LookupOf(instruction).0.Some?
    ensures |LookupOf(instruction).0.value.opcode| > 0
    ensures var e := Encode(LookupOf(instruction).0.value, LookupOf(instruction).1);
      EmitOf(instruction) == Emission(if e.fault.Some? then Threw(e.fault.value) else Emitted, e.bytes, LookupOf(instruction).1)
  {
    var (def, ops) := LookupOf(instruction);
    var defs := Table(instruction.name).value;
    var k :| FirstMatch(defs, ops) == Some(k) && def.value == defs[k];
    assert WellFormed(defs[k]);
  }

  /** `Emit` of a resolved instruction in terms of its two halves: a throw
      in the first half leaves only its bytes, otherwise both halves follow
      each other. */
  lemma EmitOfParts(instruction: O.Instruction, def: Definition, ops: seq<O.Operand>, s1: Option<Slot>, s2: Option<Slot>)
    requires LookupOf(instruction) == (Some(def), ops)
    requires Arrange(ops, def.operands) == (s1, s2)
    ensures |def.opcode| > 0
    ensures var head := Head(def, s1, s2);
      head.fault.Some? ==> EmitOf(instruction) == Emission(Threw(head.fault.value), head.bytes, ops)
    ensures var head, tail := Head(def, s1, s2), Tail(def, s1, s2, FirstImm(ops));
      head.fault.None? ==>
      EmitOf(instruction) == Emission(if tail.fault.Some? then Threw(tail.fault.value) else Emitted, head.bytes + tail.bytes, ops)
  {
    EmitOfFound(instruction);
    EncodeParts(def, ops);
  }

  /** `Emit` of a resolved instruction whose first half does not throw. */
  lemma EmitOfBytes(instruction: O.Instruction, def: Definition, ops: seq<O.Operand>, s1: Option<Slot>, s2: Option<Slot>,
                    head: seq<byte>, tail: Encoding)
    requires LookupOf(instruction) == (Some(def), ops)
    requires |def.opcode| > 0
    requires Arrange(ops, def.operands) == (s1, s2)
    requires Head(def, s1, s2) == Encoding(head, None)
    requires Tail(def, s1, s2, FirstImm(ops)) == tail
    ensures EmitOf(instruction) == Emission(if tail.fault.Some? then Threw(tail.fault.value) else Emitted, head + tail.bytes, ops)
  {
    EmitOfParts(instruction, def, ops, s1, s2);
  }

  /** `Emit` throws in two ways only: an unknown register name, before any
      byte is appended, or a bracketed operand without a 32-bit value. */
  lemma EmitFaults(instruction: O.Instruction)
    ensures var e := EmitOf(instruction);
      e.result.Threw? ==> (e.bytes == [] && RegisterError(e.result.message)) || e.result.message == "No disp32 value"
  {
    var (def, ops) := LookupOf(instruction);
    if def.Some? {
      var slots := Arrange(ops, def.value.operands);
      EmitOfParts(instruction, def.value, ops, slots.0, slots.1);
    }
  }

  /** 1. the REX prefix; 2. the opcode, with the register added to its last byte. */
  method EmitHead(def: Definition, s1: Option<Slot>, s2: Option<Slot>, bytes: Buffers.ByteList) returns (fault: Option<string>)
    requires |def.opcode| > 0
    modifies bytes
    ensures bytes.items == old(bytes.items) + Head(def, s1, s2).bytes
    ensures fault == Head(def, s1, s2).fault
  {
    var rex := RexPrefix(def.w, s1, s2);
    if rex.Failure? {
      return Some(rex.error);
    }
    ghost var start := bytes.items;
    if rex.value.Some? {
      bytes.Add(rex.value.value);
    }
    bytes.AddRange(def.opcode);
    AppendAssoc(start, OptBytes(rex.value), def.opcode);
    if def.opcodeReg && s1.Some? && s1.value.op.Reg? {
      var n := RegisterByte(s1.value.op.name);
      if n.Failure? {
        return Some(n.error);
      }
      var last := |bytes.items| - 1;
      assert bytes.items[last] == def.opcode[|def.opcode| - 1];
      var b := ToByte(bytes.items[last] + n.value % 8);
      assert Opcode(def, s1) == Success(def.opcode[|def.opcode| - 1 := b]);
      UpdateAfter(start + OptBytes(rex.value), def.opcode, |def.opcode| - 1, b);
      bytes.Set(last, b);
      AppendAssoc(start, OptBytes(rex.value), def.opcode[|def.opcode| - 1 := b]);
    }
    return None;
  }

  /** Changing a byte of the second part of a concatenation. */
  lemma UpdateAfter(a: seq<byte>, c: seq<byte>, i: nat, x: byte)
    requires i < |c|
    ensures (a + c)[|a| + i := x] == a + c[i := x]
  {
  }

  /** 3. ModR/M; 4. SIB; 5. displacement. */
  method EmitAddressing(def: Definition, s1: Option<Slot>, s2: Option<Slot>, bytes: Buffers.ByteList) returns (fault: Option<string>)
    modifies bytes
    ensures bytes.items == old(bytes.items) + Addressing(def, s1, s2).bytes
    ensures fault == Addressing(def, s1, s2).fault
  {
    var op1 := OpOf(s1);
    var modRm := ModRm(s1, s2);
    if modRm.Failure? {
      return Some(modRm.error);
    }
    var withModRm := !def.opcodeReg && modRm.value.Some?;
    ghost var start := bytes.items;
    ghost var b: seq<byte> := if withModRm then [modRm.value.value] else [];
    if withModRm {
      bytes.Add(modRm.value.value);
    }
    assert bytes.items == start + b;
    var sib := Sib(op1);
    if sib.Failure? {
      return Some(sib.error);
    }
    if sib.value.Some? {
      bytes.Add(sib.value.value);
    }
    AppendAssoc(start, b, OptBytes(sib.value));
    if withModRm {
      ghost var before := bytes.items;
      fault := EmitDisplacement(modRm.value.value, sib.value, op1, bytes);
      if fault.None? {
        AppendAssoc(start, b + OptBytes(sib.value), Displacement(modRm.value.value, sib.value, op1).value);
      }
      return fault;
    }
    assert b + OptBytes(sib.value) + [] == b + OptBytes(sib.value);
    return None;
  }

  /** 5. the displacement that follows a ModR/M byte. */
  method EmitDisplacement(modRm: byte, sib: Option<byte>, op1: Option<O.Operand>, bytes: Buffers.ByteList) returns (fault: Option<string>)
    modifies bytes
    ensures fault.None? <==> Displacement(modRm, sib, op1).Success?
    ensures fault.Some? ==> bytes.items == old(bytes.items) && fault == Some(Displacement(modRm, sib, op1).error)
    ensures fault.None? ==> bytes.items == old(bytes.items) + Displacement(modRm, sib, op1).value
  {
    var mod := modRm / 64;
    if mod == 1 {
      bytes.Add(0);
    } else if mod == 2 {
      bytes.Add(0);
      bytes.Add(0);
      bytes.Add(0);
      bytes.Add(0);
    } else if mod == 0 && sib.Some? && sib.value % 8 == 5 {
      var value := Displacement32(op1);
      if value.Failure? {
        return Some(value.error);
      }
      var v := value.value;
      bytes.Add(ToByte(v));
      bytes.Add(ToByte(v / 0x100));
      bytes.Add(ToByte(v / 0x1_0000));
      bytes.Add(ToByte(v / 0x100_0000));
      LE4(v);
    }
    return None;
  }

  /** 6. the immediate. */
  method EmitImmediate(imm: Option<O.Operand>, bytes: Buffers.ByteList)
    modifies bytes
    ensures bytes.items == old(bytes.items) + ImmediateBytes(imm)
  {
    match imm {
      case Some(Imm8(v)) =>
        bytes.Add(ToByte(v));
      case Some(Imm16(v)) =>
        bytes.Add(ToByte(v));
        bytes.Add(ToByte(v / 0x100));
        bytes.Add(ToByte(v / 0x1_0000));
        bytes.Add(ToByte(v / 0x100_0000));
        LE4(v);
      case Some(Imm32(v)) =>
        bytes.Add(ToByte(v));
        bytes.Add(ToByte(v / 0x100));
        bytes.Add(ToByte(v / 0x1_0000));
        bytes.Add(ToByte(v / 0x100_0000));
        LE4(v);
      case _ =>
    }
  }
}
