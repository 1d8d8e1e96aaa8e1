/** Instruction operands and instructions of the assembly AST
    (Operand.cs, RegisterOperand.cs, Register8/16/32/64Operand.cs,
    MemoryOperand.cs, ImmOperand.cs, Imm8/16/32/64Operand.cs,
    SymbolOperand.cs, Instruction.cs). */
module Operands {
  import opened Wrappers
  import opened Bytes
  import Text
  import Symbols

  /** `OperandType`. */
  datatype OperandType = Register | Memory | Immediate | Fixed

  /** `OperandSize`; `(int)Size` is the bit count, and None is 0. */
  datatype OperandSize = SizeNone | Size8 | Size16 | Size32 | Size64
  {
    function Bits(): (n: nat)
      ensures n in {0, 8, 16, 32, 64}
    {
      match this
      case SizeNone => 0
      case Size8 => 8
      case Size16 => 16
      case Size32 => 32
      case Size64 => 64
    }
  }

  type RegisterSize = s: OperandSize | s != SizeNone witness Size8

  /** One operand object. The source's class hierarchy becomes one tagged
      union: `Reg` is Register8/16/32/64Operand by its size, `Mem` is
      MemoryOperand, `Imm8`..`Imm64` the immediates and `Sym` SymbolOperand. */
  datatype Operand =
    | Reg(size: RegisterSize, name: string)
    | Mem(inner: Operand)
    | Imm8(v8: i8)
    | Imm16(v16: i16)
    | Imm32(v32: i32)
    | Imm64(v64: i64)
    | Sym(symbol: Symbols.Symbol)
  {
    /** `Type`. */
    function Kind(): OperandType
    {
      match this
      case Reg(_, _) => Register
      case Mem(_) => Memory
      case _ => Immediate
    }

    /** `Size`: a memory operand is always 64-bit, whatever it wraps. */
    function Size(): (s: OperandSize)
      ensures s != SizeNone
      ensures Mem? ==> s == Size64
    {
      match this
      case Reg(s, _) => s
      case Mem(_) => Size64
      case Imm8(_) => Size8
      case Imm16(_) => Size16
      case Imm32(_) => Size32
      case Imm64(_) => Size64
      case Sym(_) => Size64
    }

    /** `is ImmOperand`. */
    predicate IsImm()
    {
      Imm8? || Imm16? || Imm32? || Imm64? || Sym?
    }

    /** The numeric value of a numeric immediate. */
    function Value(): int
      requires Imm8? || Imm16? || Imm32? || Imm64?
    {
      match this
      case Imm8(v) => v
      case Imm16(v) => v
      case Imm32(v) => v
      case Imm64(v) => v
    }

    /** `MemoryOperand.InnerType`. */
    function InnerType(): OperandType
      requires Mem?
    {
      inner.Kind()
    }

    /** `ImmOperand.CanWiden`: the size is below 64 bits. */
    predicate CanWiden()
      requires IsImm()
    {
      Size().Bits() < 64
    }

    /** `ImmOperand.Widen()`: the next wider immediate of the same value; the
        64-bit immediate and the symbol return themselves. */
    function Widen(): (r: Operand)
      requires IsImm()
      ensures r.IsImm() && r.Kind() == Immediate
      ensures CanWiden() <==> Imm8? || Imm16? || Imm32?
      ensures CanWiden() ==> !r.Sym? && r.Size().Bits() == 2 * Size().Bits() && r.Value() == Value()
      ensures !CanWiden() ==> r == this
    {
      match this
      case Imm8(v) => Imm16(v)
      case Imm16(v) => Imm32(v)
      case Imm32(v) => Imm64(v)
      case Imm64(_) => this
      case Sym(_) => this
    }
  }

  /** Widening never narrows, and at 64 bits it is a fixed point. */
  lemma WidenMonotone(op: Operand)
    requires op.IsImm()
    ensures op.Widen().Size().Bits() >= op.Size().Bits()
    ensures op.Size() == Size64 ==> op.Widen() == op
  {
  }

  /** Every immediate reaches 64 bits after at most three widenings, keeping its value. */
  lemma {:induction false} WidenThrice(op: Operand)
    requires op.IsImm()
    ensures var w := op.Widen().Widen().Widen();
      w.Size() == Size64 && !w.CanWiden() && (op.Sym? ==> w == op) && (!op.Sym? ==> w == Imm64(op.Value()))
  {
  }

  // ---- equality ----

  /** `Operand.Equals(Operand other)`: non-virtual, it compares only kind
      and size. `None` stands for a null argument. */
  function BaseEquals(a: Operand, other: Option<Operand>): bool
  {
    other.Some? && a.Kind() == other.value.Kind() && a.Size() == other.value.Size()
  }

  /** `a.Equals(object other)`, dispatched on the runtime class of `a`.
      Register16Operand skips `base.Equals`, which its class check makes
      redundant; SymbolOperand has no override and falls back to BaseEquals;
      MemoryOperand compares its inner operands with their own `Equals`. */
  function ObjectEquals(a: Operand, other: Option<Operand>): bool
  {
    match a
    case Reg(size, name) =>
      other.Some? && other.value.Reg? && other.value.size == size
      && BaseEquals(a, other) && name == other.value.name && a.Kind() == other.value.Kind()
    case Mem(inner) =>
      other.Some? && other.value.Mem? && BaseEquals(a, other)
      && ObjectEquals(inner, Some(other.value.inner))
    case Imm8(v) => other.Some? && other.value.Imm8? && BaseEquals(a, other) && v == other.value.v8
    case Imm16(v) => other.Some? && other.value.Imm16? && BaseEquals(a, other) && v == other.value.v16
    case Imm32(v) => other.Some? && other.value.Imm32? && BaseEquals(a, other) && v == other.value.v32
    case Imm64(v) => other.Some? && other.value.Imm64? && BaseEquals(a, other) && v == other.value.v64
    case Sym(_) => BaseEquals(a, other)
  }

  /** `operator ==` on expressions of static type Operand: two nulls are
      equal, one null is not, otherwise the non-virtual BaseEquals decides. */
  function OperatorEquals(a: Option<Operand>, b: Option<Operand>): bool
  {
    match a
    case None => b.None?
    case Some(x) => BaseEquals(x, b)
  }

  /** `operator ==` on expressions of static type RegisterOperand. */
  function RegisterOperatorEquals(a: Option<Operand>, b: Option<Operand>): (r: bool)
    requires a.None? || a.value.Reg?
    requires b.None? || b.value.Reg?
    ensures r <==> a == b
  {
    match a
    case None => b.None?
    case Some(x) => b.Some? && BaseEquals(x, b) && x.name == b.value.name
  }

  /** Whether a symbol operand occurs in the operand. */
  predicate HasSymbol(op: Operand)
  {
    match op
    case Sym(_) => true
    case Mem(inner) => HasSymbol(inner)
    case _ => false
  }

  /** The non-virtual comparison sees only kind and size: and so do `==`,
      `!=` and every call whose argument is typed Operand. */
  lemma {:induction false} BaseEqualsKindAndSize(a: Operand, b: Operand)
    ensures BaseEquals(a, Some(b)) <==> a.Kind() == b.Kind() && a.Size() == b.Size()
    ensures OperatorEquals(Some(a), Some(b)) == BaseEquals(a, Some(b))
    ensures !BaseEquals(a, None) && OperatorEquals(None, None) && !OperatorEquals(Some(a), None)
  {
  }

  /** Without symbols inside, the virtual Equals is structural equality. */
  lemma {:induction false} ObjectEqualsStructural(a: Operand, other: Option<Operand>)
    requires !HasSymbol(a)
    ensures ObjectEquals(a, other) <==> other == Some(a)
  {
    if a.Mem? && other.Some? && other.value.Mem? {
      ObjectEqualsStructural(a.inner, Some(other.value.inner));
    }
  }

  /** Registers of different widths are never equal, even with the same name. */
  lemma RegisterWidthsDiffer(s1: RegisterSize, s2: RegisterSize, name: string)
    requires s1 != s2
    ensures !ObjectEquals(Reg(s1, name), Some(Reg(s2, name)))
    ensures !RegisterOperatorEquals(Some(Reg(s1, name)), Some(Reg(s2, name)))
    ensures !BaseEquals(Reg(s1, name), Some(Reg(s2, name)))
  {
  }

  /** Through the non-virtual comparison rax and rcx are "equal", 1 and 2 too. */
  lemma BaseEqualsIgnoresPayload()
    ensures OperatorEquals(Some(Reg(Size64, "rax")), Some(Reg(Size64, "rcx")))
    ensures OperatorEquals(Some(Imm8(1)), Some(Imm8(2)))
    ensures !ObjectEquals(Reg(Size64, "rax"), Some(Reg(Size64, "rcx")))
    ensures !RegisterOperatorEquals(Some(Reg(Size64, "rax")), Some(Reg(Size64, "rcx")))
  {
  }

  /** A symbol operand equals every 64-bit immediate, whatever the symbols,
      while a 64-bit immediate never equals a symbol operand. */
  lemma SymbolEqualsAnyImm64(s1: Symbols.Symbol, s2: Symbols.Symbol, v: i64)
    ensures ObjectEquals(Sym(s1), Some(Sym(s2)))
    ensures ObjectEquals(Sym(s1), Some(Imm64(v)))
    ensures !ObjectEquals(Imm64(v), Some(Sym(s1)))
    ensures ObjectEquals(Mem(Sym(s1)), Some(Mem(Sym(s2))))
  {
  }

  // ---- text ----

  /** `ToString()`: registers print as "reg64[rax]", immediates as
      "imm8(5)"; memory and symbol operands have no override and print their
      class name. */
  function ToString(op: Operand): string
  {
    match op
    case Reg(s, n) => "reg" + Text.IntToString(s.Bits()) + "[" + n + "]"
    case Mem(_) => "Zenos.Assembly.AST.MemoryOperand"
    case Sym(_) => "Zenos.Assembly.AST.SymbolOperand"
    case _ => "imm" + Text.IntToString(op.Size().Bits()) + "(" + Text.IntToString(op.Value()) + ")"
  }

  /** A register prints as "reg", its width and its name in brackets. */
  lemma RegisterToStringExample()
    ensures ToString(Reg(Size64, "rax")) == "reg64[rax]"
  {
    assert Text.NatToString(64) == "64";
  }

  /** An immediate prints as "imm", its width and its value in parentheses. */
  lemma Imm8ToStringExample()
    ensures ToString(Imm8(-5)) == "imm8(-5)"
  {
    assert Text.NatToString(5) == "5";
    assert Text.NatToString(8) == "8";
  }

  lemma Imm32ToStringExample()
    ensures ToString(Imm32(200)) == "imm32(200)"
  {
    assert Text.NatToString(200) == "200";
    assert Text.NatToString(32) == "32";
  }

  /** The first bracket after a run of digits is the one that ends it. */
  lemma BracketAfterDigits(d: string, rest: string)
    requires Text.AllDigits(d)
    ensures Text.IndexOf(d + "[" + rest, '[') == Some(|d|)
  {
    var u := d + "[" + rest;
    assert u[|d|] == '[';
    var k := Text.IndexOf(u, '[').value;
    assert k < |d| ==> u[k] == d[k] && Text.IsDigit(d[k]);
  }

  /** Digits, a bracket and a rest can be split apart again. */
  lemma DigitsBracketUnique(d1: string, r1: string, d2: string, r2: string)
    requires Text.AllDigits(d1) && Text.AllDigits(d2)
    requires d1 + "[" + r1 == d2 + "[" + r2
    ensures d1 == d2 && r1 == r2
  {
    BracketAfterDigits(d1, r1);
    BracketAfterDigits(d2, r2);
    var u := d1 + "[" + r1;
    assert d1 == u[..|d1|] && d2 == u[..|d2|];
    assert r1 == u[|d1| + 1..] && r2 == u[|d2| + 1..];
  }

  /** After "reg": the width's digits, then the bracketed name. */
  lemma RegisterTextParts(s: RegisterSize, n: string)
    ensures ToString(Reg(s, n))[3..] == Text.NatToString(s.Bits()) + "[" + (n + "]")
  {
    var d := Text.NatToString(s.Bits());
    assert ToString(Reg(s, n)) == "reg" + (d + "[" + (n + "]"));
  }

  /** Different registers print differently: the size and the name can be
      read back from "reg<bits>[<name>]", since the bit count is all digits. */
  lemma RegisterToStringInjective(s1: RegisterSize, n1: string, s2: RegisterSize, n2: string)
    requires ToString(Reg(s1, n1)) == ToString(Reg(s2, n2))
    ensures s1 == s2 && n1 == n2
  {
    var d1, d2 := Text.NatToString(s1.Bits()), Text.NatToString(s2.Bits());
    RegisterTextParts(s1, n1);
    RegisterTextParts(s2, n2);
    DigitsBracketUnique(d1, n1 + "]", d2, n2 + "]");
    assert n1 == (n1 + "]")[..|n1|];
    assert n2 == (n2 + "]")[..|n2|];
    Text.NatToStringValue(s1.Bits());
    Text.NatToStringValue(s2.Bits());
  }

  // ---- instructions ----

  /** Instruction.cs: the mode bits, the mnemonic and the operands. The
      source's operand array is shared and written by resolution; here it is
      a value, and resolution returns the updated sequence. */
  datatype Instruction = Instruction(bits: int, name: string, operands: seq<Operand>)

  /** The two convenience constructors: 64-bit mode. */
  function NewInstruction(name: string, operands: seq<Operand>): (i: Instruction)
    ensures i.bits == 64 && i.name == name && i.operands == operands
  {
    Instruction(64, name, operands)
  }

  /** `string.Join(", ", ...)` over the operands' `ToString()`. */
  function JoinOperands(ops: seq<Operand>): (r: string)
    ensures ops == [] <==> r == []
    ensures |ops| == 1 ==> r == ToString(ops[0])
  {
    if ops == [] then ""
    else if |ops| == 1 then ToString(ops[0])
    else ToString(ops[0]) + ", " + JoinOperands(ops[1..])
  }

  /** An operand in front of a non-empty list: its text, then a comma and
      a space. */
  lemma JoinOperandsCons(op: Operand, ops: seq<Operand>)
    requires ops != []
    ensures JoinOperands([op] + ops) == ToString(op) + ", " + JoinOperands(ops)
  {
    assert ([op] + ops)[1..] == ops;
  }

  /** The join seen from the other end: appending an operand to a non-empty
      list appends a separator and that operand's text. */
  lemma {:induction false} JoinOperandsAppend(ops: seq<Operand>, op: Operand)
    requires ops != []
    ensures JoinOperands(ops + [op]) == JoinOperands(ops) + ", " + ToString(op)
  {
    if |ops| == 1 {
      assert ops + [op] == [ops[0]] + [op];
      JoinOperandsCons(ops[0], [op]);
    } else {
      var rest := ops[1..];
      assert ops == [ops[0]] + rest;
      assert ops + [op] == [ops[0]] + (rest + [op]);
      JoinOperandsAppend(rest, op);
      JoinOperandsCons(ops[0], rest + [op]);
      JoinOperandsCons(ops[0], rest);
      SeparatorsRegroup(ToString(ops[0]), JoinOperands(rest), ToString(op));
    }
  }

  lemma SeparatorsRegroup(h: string, j: string, t: string)
    ensures h + ", " + (j + ", " + t) == (h + ", " + j) + ", " + t
  {
  }

  /** Two operands are separated by a comma and a space. */
  lemma JoinTwoOperands(a: Operand, b: Operand)
    ensures JoinOperands([a, b]) == ToString(a) + ", " + ToString(b)
  {
    JoinOperandsCons(a, [b]);
  }

  /** `Instruction.ToString()`: "name op1, op2". An instruction without
      operands still prints the space after its name. */
  function InstructionToString(i: Instruction): (s: string)
    ensures |s| > |i.name| && s[..|i.name| + 1] == i.name + " "
    ensures s[|i.name| + 1..] == JoinOperands(i.operands)
    ensures i.operands == [] ==> s == i.name + " "
  {
    i.name + " " + JoinOperands(i.operands)
  }

  /** An instruction object of the tree: its contents and the identity of
      the `Operand[]` array it was built with. Two instructions built from
      separate arrays have different identities, whatever the arrays hold. */
  datatype InstructionObject = InstructionObject(instruction: Instruction, operandsArray: nat)

  /** `Instruction.Equals(Instruction)`: not null, the same bits and name,
      and the very same operand array, since the default comparer of
      `Operand[]` compares references. */
  predicate InstructionEquals(a: InstructionObject, other: Option<InstructionObject>)
  {
    other.Some? && a.instruction.bits == other.value.instruction.bits
    && a.instruction.name == other.value.instruction.name
    && a.operandsArray == other.value.operandsArray
  }

  /** `operator ==` through the default comparer: two nulls are equal, a
      null and an instruction are not, otherwise `Equals`. */
  predicate InstructionOperatorEquals(a: Option<InstructionObject>, b: Option<InstructionObject>)
  {
    if a.None? then b.None? else InstructionEquals(a.value, b)
  }

  /** Instruction equality is reference equality of the operands: an
      instruction equals itself, and equal contents in separate arrays are
      unequal. It is symmetric, and `==` agrees with `!=` on nulls. */
  lemma InstructionEqualityIsByReference(a: InstructionObject, b: InstructionObject)
    ensures InstructionEquals(a, Some(a)) && !InstructionEquals(a, None)
    ensures a.instruction == b.instruction && a.operandsArray != b.operandsArray ==> !InstructionEquals(a, Some(b))
    ensures InstructionEquals(a, Some(b)) <==> InstructionEquals(b, Some(a))
    ensures InstructionOperatorEquals(None, None) && !InstructionOperatorEquals(None, Some(b))
    ensures InstructionOperatorEquals(Some(a), Some(b)) <==> InstructionEquals(a, Some(b))
  {
  }

  /** When one array identity always stands for one content, `Equals` is
      exactly equality of the contents and the identity. */
  lemma InstructionEqualsContents(a: InstructionObject, b: InstructionObject)
    requires a.operandsArray == b.operandsArray ==> a.instruction.operands == b.instruction.operands
    ensures InstructionEquals(a, Some(b)) <==> a == b
  {
  }
}
