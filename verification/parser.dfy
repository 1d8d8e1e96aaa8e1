/** AssemblerParser.cs: splits the input into lines, strips comments,
    splits off labels, groups entries into sections and parses operands,
    interning unknown names in the parser's own symbol table. */
module Parsing {
  import opened Wrappers
  import opened Bytes
  import opened Text
  import opened Ast
  import O = Operands
  import Symbols
  import Emitter

  // ---- register names ----

  const Registers64: set<string> := {
    "rax", "rbx", "rcx", "rdx", "rsi", "rdi", "rbp", "rsp",
    "r8", "r9", "r10", "r11", "r12", "r13", "r14", "r15"}

  /** Four of these carry a trailing space, as the source spells them. */
  const Registers32: set<string> := {
    "eax", "ebx", "ecx", "edx", "esi", "edi", "ebp", "esp",
    "r8d", "r9d", "r10d ", "r11d ", "r12d ", "r13d ", "r14d", "r15d"}

  const Registers16: set<string> := {
    "ax", "bx", "cx", "dx", "si", "di", "bp", "sp",
    "r8w", "r9w", "r10w", "r11w", "r12w", "r13w", "r14w", "r15w"}

  const Registers8: set<string> := {
    "al", "bl", "cl", "dl", "sil", "dil", "bpl", "spl",
    "r8b", "r9b", "r10b", "r11b", "r12b", "r13b", "r14b", "r15b"}

  // ---- operands ----

  /** The number forms tried before the register names: outside brackets
      the narrowest of sbyte, short, int and long; inside brackets int only. */
  function NumberOperand(operand: string, inMemory: bool): (r: Option<O.Operand>)
    ensures r.Some? ==> (r.value.Imm8? || r.value.Imm16? || r.value.Imm32? || r.value.Imm64?)
    ensures r.Some? ==> ParseInteger(operand) == Some(r.value.Value())
    ensures r.Some? && inMemory ==> r.value.Imm32?
    ensures ParseInteger(operand).None? ==> r.None?
  {
    if !inMemory then
      if TryParse(operand, -0x80, 0x7F).Some? then Some(O.Imm8(TryParse(operand, -0x80, 0x7F).value))
      else if TryParse(operand, -0x8000, 0x7FFF).Some? then Some(O.Imm16(TryParse(operand, -0x8000, 0x7FFF).value))
      else if TryParse(operand, -0x8000_0000, 0x7FFF_FFFF).Some? then Some(O.Imm32(TryParse(operand, -0x8000_0000, 0x7FFF_FFFF).value))
      else if TryParse(operand, -0x8000_0000_0000_0000, 0x7FFF_FFFF_FFFF_FFFF).Some? then
        Some(O.Imm64(TryParse(operand, -0x8000_0000_0000_0000, 0x7FFF_FFFF_FFFF_FFFF).value))
      else None
    else if TryParse(operand, -0x8000_0000, 0x7FFF_FFFF).Some? then Some(O.Imm32(TryParse(operand, -0x8000_0000, 0x7FFF_FFFF).value))
    else None
  }

  predicate Bracketed(operand: string)
  {
    |operand| > 0 && operand[0] == '[' && operand[|operand| - 1] == ']'
  }

  /** The register-name lookups, 64-bit names first. */
  function RegisterOperand(operand: string): (r: Option<O.Operand>)
    ensures r.None? <==> operand !in Registers64 && operand !in Registers32 && operand !in Registers16 && operand !in Registers8
    ensures r.Some? ==> r.value.Reg? && r.value.name == operand
    ensures r.Some? && r.value.size == O.Size64 ==> operand in Registers64
    ensures r.Some? && r.value.size == O.Size32 ==> operand in Registers32
    ensures r.Some? && r.value.size == O.Size16 ==> operand in Registers16
    ensures r.Some? && r.value.size == O.Size8 ==> operand in Registers8
  {
    if operand in Registers64 then Some(O.Reg(O.Size64, operand))
    else if operand in Registers32 then Some(O.Reg(O.Size32, operand))
    else if operand in Registers16 then Some(O.Reg(O.Size16, operand))
    else if operand in Registers8 then Some(O.Reg(O.Size8, operand))
    else None
  }

  /** `ParseOperand(operand, isInMemoryOperand)` on a symbol store: a
      bracketed text (outside brackets) wraps its inside, then numbers, then
      register names, and anything else is a symbol that Resolve interns. */
  function ParseOperandIn(store: Symbols.Store, operand: string, inMemory: bool): (r: (O.Operand, Symbols.Store))
    ensures Symbols.WellKeyed(store) ==> Symbols.WellKeyed(r.1)
    ensures !r.0.Sym? && !(r.0.Mem? && r.0.inner.Sym?) ==> r.1 == store
    ensures inMemory ==> !r.0.Mem?
    decreases if inMemory then 0 else 1
  {
    if !inMemory && Bracketed(operand) then
      var (inner, st) := ParseOperandIn(store, operand[1..|operand| - 1], true);
      (O.Mem(inner), st)
    else if NumberOperand(operand, inMemory).Some? then (NumberOperand(operand, inMemory).value, store)
    else if RegisterOperand(operand).Some? then (RegisterOperand(operand).value, store)
    else
      var (symbol, st) := Symbols.ResolveIn(store, operand);
      (O.Sym(symbol), st)
  }

  /** The operands of one instruction, parsed left to right. */
  function ParseEachIn(store: Symbols.Store, texts: seq<string>): (r: (seq<O.Operand>, Symbols.Store))
    ensures |r.0| == |texts|
    ensures Symbols.WellKeyed(store) ==> Symbols.WellKeyed(r.1)
    decreases texts
  {
    if texts == [] then ([], store)
    else
      var (op, st) := ParseOperandIn(store, Trim(texts[0]), false);
      var (ops, st') := ParseEachIn(st, texts[1..]);
      ([op] + ops, st')
  }

  /** `ParseInstructionOperands(operandsString)`: comma-separated operands. */
  function ParseOperandsIn(store: Symbols.Store, operandsString: string): (r: (seq<O.Operand>, Symbols.Store))
    ensures Symbols.WellKeyed(store) ==> Symbols.WellKeyed(r.1)
  {
    var clean := Trim(operandsString);
    if clean == [] then ([], store) else ParseEachIn(store, Split(clean, {','}))
  }

  /** One operand text: trimmed, then parsed outside brackets. */
  lemma ParseEachInSingle(store: Symbols.Store, text: string)
    ensures var r := ParseOperandIn(store, Trim(text), false);
      ParseEachIn(store, [text]) == ([r.0], r.1)
  {
    var r := ParseOperandIn(store, Trim(text), false);
    assert [text][1..] == [];
    assert ParseEachIn(r.1, []) == ([], r.1);
    assert [r.0] + [] == [r.0];
  }

  /** Operand texts are parsed in order, each with the symbol table the
      ones before it left: parsing a concatenation parses its halves in turn. */
  lemma {:induction false} ParseEachInAppend(store: Symbols.Store, a: seq<string>, b: seq<string>)
    ensures AppendThreads(store, a, b)
    decreases a
  {
    if a == [] {
      assert a + b == b;
      assert [] + ParseEachIn(store, b).0 == ParseEachIn(store, b).0;
    } else {
      ParseEachInAppend(ParseOperandIn(store, Trim(a[0]), false).1, a[1..], b);
      AppendThreadsStep(store, a, b);
    }
  }

  /** Parsing `a + b` from `store` parses `a`, then `b` from where `a` left the table. */
  ghost predicate AppendThreads(store: Symbols.Store, a: seq<string>, b: seq<string>)
  {
    var ra := ParseEachIn(store, a);
    var rb := ParseEachIn(ra.1, b);
    ParseEachIn(store, a + b) == (ra.0 + rb.0, rb.1)
  }

  lemma AppendThreadsStep(store: Symbols.Store, a: seq<string>, b: seq<string>)
    requires a != []
    requires AppendThreads(ParseOperandIn(store, Trim(a[0]), false).1, a[1..], b)
    ensures AppendThreads(store, a, b)
  {
    var h := ParseOperandIn(store, Trim(a[0]), false);
    ParseEachInCons(store, a);
    ParseEachInCons(store, a + b);
    ConsAppend(a, b);
    var ta := ParseEachIn(h.1, a[1..]);
    var tb := ParseEachIn(ta.1, b);
    AppendAssoc([h.0], ta.0, tb.0);
  }

  /** The first operand text, then the rest with the table it left. */
  lemma ParseEachInCons(store: Symbols.Store, texts: seq<string>)
    requires texts != []
    ensures var h := ParseOperandIn(store, Trim(texts[0]), false);
      var t := ParseEachIn(h.1, texts[1..]);
      ParseEachIn(store, texts) == ([h.0] + t.0, t.1)
  {
  }

  /** `ParseInstructionOperands("a,b")`: the two comma-separated texts,
      trimmed and parsed left to right, the second with the table the first
      left. */
  lemma TwoOperands(store: Symbols.Store, a: string, b: string)
    requires ',' !in a && ',' !in b
    requires Trimmed(a + "," + b)
    ensures var ra := ParseOperandIn(store, Trim(a), false);
      var rb := ParseOperandIn(ra.1, Trim(b), false);
      ParseOperandsIn(store, a + "," + b) == ([ra.0, rb.0], rb.1)
  {
    CommaPair(store, a, b);
    ParseEachInPair(store, a, b);
  }

  /** Two comma-free texts around one comma: the pair of texts. */
  lemma CommaPair(store: Symbols.Store, a: string, b: string)
    requires ',' !in a && ',' !in b
    requires Trimmed(a + "," + b)
    ensures ParseOperandsIn(store, a + "," + b) == ParseEachIn(store, [a, b])
  {
    var s := a + [','] + b;
    assert s[0] == (a + "," + b)[0];
    AlreadyTrimmed(s, IsWhiteSpace);
    SplitPair(a, b, ',');
    assert a + "," + b == s;
  }

  /** Two operand texts: the first parsed, then the second with its table. */
  lemma ParseEachInPair(store: Symbols.Store, a: string, b: string)
    ensures var ra := ParseOperandIn(store, Trim(a), false);
      var rb := ParseOperandIn(ra.1, Trim(b), false);
      ParseEachIn(store, [a, b]) == ([ra.0, rb.0], rb.1)
  {
    var ra := ParseOperandIn(store, Trim(a), false);
    var rb := ParseOperandIn(ra.1, Trim(b), false);
    ParseEachInCons(store, [a, b]);
    PairOfSingles(a, b);
    ParseEachInSingle(ra.1, b);
    PairOfSingles(ra.0, rb.0);
  }

  /** A string that starts with a letter is no number. */
  lemma {:induction false} LetterIsNoNumber(s: string)
    requires s != [] && (('a' <= s[0] <= 'z') || ('A' <= s[0] <= 'Z'))
    ensures ParseInteger(s).None?
  {
    TrimStartIdempotent(s, IsNumberWhite);
    var t := TrimWith(s, IsNumberWhite);
    if t != [] {
      assert t[0] == s[0];
      assert !IsDigit(t[0]);
    }
  }

  /** The narrowest immediate that holds a number. */
  function Narrowest(v: i64): (op: O.Operand)
    ensures (op.Imm8? || op.Imm16? || op.Imm32? || op.Imm64?) && op.Value() == v
    ensures op.Imm8? <==> -0x80 <= v < 0x80
    ensures op.Imm16? <==> !(-0x80 <= v < 0x80) && -0x8000 <= v < 0x8000
    ensures op.Imm32? <==> !(-0x8000 <= v < 0x8000) && -0x8000_0000 <= v < 0x8000_0000
    ensures op.Imm64? <==> !(-0x8000_0000 <= v < 0x8000_0000)
  {
    if -0x80 <= v < 0x80 then O.Imm8(v)
    else if -0x8000 <= v < 0x8000 then O.Imm16(v)
    else if -0x8000_0000 <= v < 0x8000_0000 then O.Imm32(v)
    else O.Imm64(v)
  }

  /** A text that is not bracketed is no memory operand. */
  lemma NumberNotBracketed(operand: string)
    requires ParseInteger(operand).Some?
    ensures !Bracketed(operand)
  {
    if Bracketed(operand) {
      TrimStartIdempotent(operand, IsNumberWhite);
    }
  }

  /** A bare integer becomes the narrowest immediate that holds it, and
      the symbol table is not touched. */
  lemma NarrowestImmediate(store: Symbols.Store, operand: string)
    requires ParseInteger(operand).Some?
    requires -0x8000_0000_0000_0000 <= ParseInteger(operand).value < 0x8000_0000_0000_0000
    ensures ParseOperandIn(store, operand, false) == (Narrowest(ParseInteger(operand).value), store)
  {
    NumberNotBracketed(operand);
    NumberIsNarrowest(operand, ParseInteger(operand).value);
  }

  /** The first of the four widths that holds the value is chosen. */
  lemma NumberIsNarrowest(operand: string, v: int)
    requires ParseInteger(operand) == Some(v)
    requires -0x8000_0000_0000_0000 <= v < 0x8000_0000_0000_0000
    ensures NumberOperand(operand, false) == Some(Narrowest(v))
  {
    if -0x80 <= v < 0x80 {
      assert TryParse(operand, -0x80, 0x7F) == Some(v);
    } else if -0x8000 <= v < 0x8000 {
      assert TryParse(operand, -0x80, 0x7F).None?;
      assert TryParse(operand, -0x8000, 0x7FFF) == Some(v);
    } else if -0x8000_0000 <= v < 0x8000_0000 {
      assert TryParse(operand, -0x8000, 0x7FFF).None?;
      assert TryParse(operand, -0x8000_0000, 0x7FFF_FFFF) == Some(v);
    } else {
      assert TryParse(operand, -0x8000_0000, 0x7FFF_FFFF).None?;
      assert TryParse(operand, -0x8000_0000_0000_0000, 0x7FFF_FFFF_FFFF_FFFF) == Some(v);
    }
  }

  /** `[n]` for an int-range n is a memory operand around an Imm32, even
      when n would fit in a byte. */
  lemma BracketedNumber(store: Symbols.Store, number: string)
    requires ParseInteger(number).Some? && -0x8000_0000 <= ParseInteger(number).value < 0x8000_0000
    ensures ParseOperandIn(store, "[" + number + "]", false) == (O.Mem(O.Imm32(ParseInteger(number).value)), store)
  {
    var operand := "[" + number + "]";
    assert Bracketed(operand);
    assert operand[1..|operand| - 1] == number;
    assert NumberOperand(number, true) == Some(O.Imm32(ParseInteger(number).value));
    assert ParseOperandIn(store, number, true) == (O.Imm32(ParseInteger(number).value), store);
  }

  /** A register name is neither bracketed nor a number, so it reaches the
      register lookups. */
  lemma {:induction false} NameIsNoNumber(store: Symbols.Store, name: string)
    requires name != [] && 'a' <= name[0] <= 'z'
    ensures ParseOperandIn(store, name, false) == (if RegisterOperand(name).Some? then (RegisterOperand(name).value, store) else (O.Sym(Symbols.ResolveIn(store, name).0), Symbols.ResolveIn(store, name).1))
  {
    LetterIsNoNumber(name);
  }

  /** The 64-bit names become 64-bit register operands. */
  lemma Register64Names(store: Symbols.Store, name: string)
    requires name in Registers64
    ensures ParseOperandIn(store, name, false) == (O.Reg(O.Size64, name), store)
  {
    assert name[0] == 'r';
    NameIsNoNumber(store, name);
  }

  /** The 32-bit names become 32-bit register operands. */
  lemma Register32Names(store: Symbols.Store, name: string)
    requires name in Registers32
    ensures ParseOperandIn(store, name, false) == (O.Reg(O.Size32, name), store)
  {
    assert name[0] == 'e' || name[0] == 'r';
    assert name !in Registers64;
    NameIsNoNumber(store, name);
  }

  /** The 16-bit names become 16-bit register operands. */
  lemma Register16Names(store: Symbols.Store, name: string)
    requires name in Registers16
    ensures ParseOperandIn(store, name, false) == (O.Reg(O.Size16, name), store)
  {
    assert 'a' <= name[0] <= 'z';
    assert name !in Registers64 && name !in Registers32;
    NameIsNoNumber(store, name);
  }

  /** The wider names end in none of the letters that end the 8-bit names. */
  lemma WideNameEndings(name: string)
    ensures (name in Registers64 || name in Registers32 || name in Registers16)
      ==> (name != [] && name[|name| - 1] != 'l' && name[|name| - 1] != 'b')
  {
  }

  /** The 8-bit names become 8-bit register operands. */
  lemma Register8Names(store: Symbols.Store, name: string)
    requires name in Registers8
    ensures ParseOperandIn(store, name, false) == (O.Reg(O.Size8, name), store)
  {
    assert 'a' <= name[0] <= 'z';
    var last := name[|name| - 1];
    assert last == 'l' || last == 'b';
    WideNameEndings(name);
    NameIsNoNumber(store, name);
  }

  /** Anything that is neither a number nor a register name becomes a
      symbol, interned by Resolve. */
  lemma SymbolFallback(store: Symbols.Store, operand: string)
    requires !Bracketed(operand) && ParseInteger(operand).None?
    requires operand !in Registers64 && operand !in Registers32 && operand !in Registers16 && operand !in Registers8
    ensures ParseOperandIn(store, operand, false) == (O.Sym(Symbols.ResolveIn(store, operand).0), Symbols.ResolveIn(store, operand).1)
  {
  }

  /** Every 64- and 16-bit name the parser accepts is known to the emitter. */
  lemma WideNamesKnown(name: string)
    requires name in Registers64 || name in Registers16
    ensures Emitter.RegisterByte(name).Success?
  {
  }

  /** "r10d" through "r13d" are spelled with a trailing space in the 32-bit
      set, so the plain name is no register but a symbol that Resolve interns. */
  lemma R10dIsSymbol(store: Symbols.Store)
    ensures ParseOperandIn(store, "r10d", false) == (O.Sym(Symbols.ResolveIn(store, "r10d").0), Symbols.ResolveIn(store, "r10d").1)
  {
    assert "r10d" !in Registers64 && "r10d" !in Registers16 && "r10d" !in Registers8;
    assert "r10d" !in Registers32;
    NameIsNoNumber(store, "r10d");
  }

  /** 8-bit names such as sil and r8b parse as registers that the emitter
      rejects: its 8-bit names are al..bh and r8l..r15l. */
  lemma EightBitNamesRejected(store: Symbols.Store)
    ensures ParseOperandIn(store, "sil", false) == (O.Reg(O.Size8, "sil"), store)
    ensures Emitter.RegisterByte("sil").Failure?
  {
    Emitter.SilRejected();
    Register8Names(store, "sil");
  }

  // ---- data literals ----

  /** The range of the integral type a data directive reads a decimal into:
      `byte` is unsigned, `short`, `int` and `long` are signed. */
  function DataLow(size: O.OperandSize): int
  {
    match size
    case Size16 => -0x8000
    case Size32 => -0x8000_0000
    case Size64 => -0x8000_0000_0000_0000
    case _ => 0
  }

  function DataHigh(size: O.OperandSize): int
  {
    match size
    case Size8 => 0xFF
    case Size16 => 0x7FFF
    case Size32 => 0x7FFF_FFFF
    case Size64 => 0x7FFF_FFFF_FFFF_FFFF
    case SizeNone => 0
  }

  /** `ParseIntAsData(size, operand)`: the decimal text at the directive's
      width (byte, short, int, long), or the exception for anything else. */
  function ParseIntAsData(size: O.OperandSize, operand: string): (r: Result<Data, string>)
    ensures r.Success? <==> size != O.SizeNone && TryParse(operand, DataLow(size), DataHigh(size)).Some?
    ensures r.Failure? ==> r.error == "Unknown operand data value: " + operand
    ensures r.Success? ==> (size != O.SizeNone && ParseInteger(operand).Some?
      && |r.value.bytes| == size.Bits() / 8
      && r.value.bytes == LE(ParseInteger(operand).value, size.Bits() / 8))
  {
    match size
    case Size8 =>
      (match TryParse(operand, 0, 0xFF)
       case Some(v) => Success(FromByte(v))
       case None => Failure("Unknown operand data value: " + operand))
    case Size16 =>
      (match TryParse(operand, -0x8000, 0x7FFF)
       case Some(v) => Success(FromShort(v))
       case None => Failure("Unknown operand data value: " + operand))
    case Size32 =>
      (match TryParse(operand, -0x8000_0000, 0x7FFF_FFFF)
       case Some(v) => Success(FromInt(v))
       case None => Failure("Unknown operand data value: " + operand))
    case Size64 =>
      (match TryParse(operand, -0x8000_0000_0000_0000, 0x7FFF_FFFF_FFFF_FFFF)
       case Some(v) => Success(FromLong(v))
       case None => Failure("Unknown operand data value: " + operand))
    case SizeNone => Failure("Unknown operand data value: " + operand)
  }

  /** `db 255` is one byte; `db 256` and `db -1` are outside `byte` and
      throw; `dw -1` is two bytes of ones. */
  lemma ByteDataExample()
    ensures ParseIntAsData(O.Size8, "255") == Success(Data([0xFF]))
  {
    DecimalInRange(255, "255", 0, 0xFF);
  }

  lemma ByteDataTooLarge()
    ensures ParseIntAsData(O.Size8, "256").Failure?
  {
    DecimalText(256, "256");
  }

  lemma ByteDataNegative()
    ensures ParseIntAsData(O.Size8, "-1").Failure?
  {
    DecimalText(-1, "-1");
  }

  lemma ShortDataNegative()
    ensures ParseIntAsData(O.Size16, "-1") == Success(Data([0xFF, 0xFF]))
  {
    DecimalInRange(-1, "-1", -0x8000, 0x7FFF);
    MinusOneShort();
  }

  lemma MinusOneShort()
    ensures FromShort(-1) == Data([0xFF, 0xFF])
  {
    LE2(-1);
    assert -1 / 0x100 == -1;
  }

  /** The literal `s` of a value within the bounds passes `TryParse`. */
  lemma DecimalInRange(x: int, s: string, lo: int, hi: int)
    requires s == IntToString(x) && lo <= x <= hi
    ensures TryParse(s, lo, hi) == Some(x)
  {
    DecimalText(x, s);
  }

  /** The literal `s` is how `x` prints, so it parses as `x`. */
  lemma DecimalText(x: int, s: string)
    requires s == IntToString(x)
    ensures ParseInteger(s) == Some(x)
  {
    IntToStringParses(x);
  }

  /** `ParseHexAsData(size, hexValue)`: the hex digits as the bit pattern
      of the directive's width, read as byte, short, int or long; the bytes
      are stated by HexDataBytes. */
  function ParseHexAsData(size: O.OperandSize, hexValue: string): (r: Result<Data, string>)
    ensures r.Failure? ==> r.error == "Unknown operand data value: " + hexValue
    ensures r.Success? ==> size != O.SizeNone && |r.value.bytes| == size.Bits() / 8
  {
    match size
    case Size8 =>
      (match TryParseHex(hexValue, 1, false)
       case Some(v) => Success(FromByte(v))
       case None => Failure("Unknown operand data value: " + hexValue))
    case Size16 =>
      (match TryParseHex(hexValue, 2, true)
       case Some(v) => HexFits(hexValue, 2); Success(FromShort(v))
       case None => Failure("Unknown operand data value: " + hexValue))
    case Size32 =>
      (match TryParseHex(hexValue, 4, true)
       case Some(v) => HexFits(hexValue, 4); Success(FromInt(v))
       case None => Failure("Unknown operand data value: " + hexValue))
    case Size64 =>
      (match TryParseHex(hexValue, 8, true)
       case Some(v) => HexFits(hexValue, 8); Success(FromLong(v))
       case None => Failure("Unknown operand data value: " + hexValue))
    case SizeNone => Failure("Unknown operand data value: " + hexValue)
  }

  /** A hex literal is accepted exactly when its digits fit the width, and
      its bytes are the literal's bit pattern, least significant first. */
  lemma HexDataBytes(size: O.OperandSize, hexValue: string)
    requires size != O.SizeNone
    ensures var r := ParseHexAsData(size, hexValue);
      (r.Success? <==> ParseHexDigits(hexValue).Some? && ParseHexDigits(hexValue).value < Pow256(size.Bits() / 8))
      && (r.Success? ==> r.value.bytes == LE(ParseHexDigits(hexValue).value, size.Bits() / 8))
  {
    var n := size.Bits() / 8;
    var signed := size != O.Size8;
    HexDataAccepted(size, hexValue);
    if TryParseHex(hexValue, n, signed).Some? {
      HexPattern(hexValue, n, signed);
      if signed {
        HexFits(hexValue, n);
      }
    }
  }

  /** A data directive accepts a hex literal exactly when the literal parses
      at the directive's width, signed for every width but a byte. */
  lemma HexDataAccepted(size: O.OperandSize, hexValue: string)
    requires size != O.SizeNone
    ensures ParseHexAsData(size, hexValue).Success?
      <==> TryParseHex(hexValue, size.Bits() / 8, size != O.Size8).Some?
  {
    match size
    case Size8 => assert size.Bits() / 8 == 1;
    case Size16 => assert size.Bits() / 8 == 2;
    case Size32 => assert size.Bits() / 8 == 4;
    case Size64 => assert size.Bits() / 8 == 8;
  }

  /** A signed hex literal of n bytes fits the n-byte integral type. */
  lemma HexFits(hexValue: string, n: nat)
    requires TryParseHex(hexValue, n, true).Some?
    ensures var v := TryParseHex(hexValue, n, true).value;
      (n == 2 ==> -0x8000 <= v < 0x8000)
      && (n == 4 ==> -0x8000_0000 <= v < 0x8000_0000)
      && (n == 8 ==> -0x8000_0000_0000_0000 <= v < 0x8000_0000_0000_0000)
  {
    Pow256Values();
  }

  /** The value a hex literal parses to has the literal's bit pattern as
      its low bytes. */
  lemma HexPattern(hexValue: string, n: nat, signed: bool)
    requires TryParseHex(hexValue, n, signed).Some?
    ensures LE(TryParseHex(hexValue, n, signed).value, n) == LE(ParseHexDigits(hexValue).value, n)
  {
    var pattern := ParseHexDigits(hexValue).value;
    ModUnique(pattern, Pow256(n), 0, pattern);
    LEModulo(TryParseHex(hexValue, n, signed).value, pattern, n);
  }

  /** Hex literals are two's complement at the directive's width: a hex
      literal and a decimal one that agree modulo 2^width give the same bytes. */
  lemma HexMatchesDecimal(size: O.OperandSize, hexValue: string, decimal: string)
    requires ParseHexAsData(size, hexValue).Success? && ParseIntAsData(size, decimal).Success?
    requires ParseHexDigits(hexValue).value % Pow256(size.Bits() / 8) == ParseInteger(decimal).value % Pow256(size.Bits() / 8)
    ensures ParseHexAsData(size, hexValue) == ParseIntAsData(size, decimal)
  {
    HexDataBytes(size, hexValue);
    LEModulo(ParseHexDigits(hexValue).value, ParseInteger(decimal).value, size.Bits() / 8);
  }

  /** The value of four hex digits, most significant first. */
  lemma FourHexDigits(a: char, b: char, c: char, d: char)
    requires IsHexDigit(a) && IsHexDigit(b) && IsHexDigit(c) && IsHexDigit(d)
    ensures AllHexDigits([a, b, c, d])
    ensures HexValue([a, b, c, d])
      == ((HexDigitValue(a) * 16 + HexDigitValue(b)) * 16 + HexDigitValue(c)) * 16 + HexDigitValue(d)
  {
    assert [a][..0] == [] && HexValue([a]) == HexDigitValue(a);
    assert [a, b][..1] == [a] && HexValue([a, b]) == HexDigitValue(a) * 16 + HexDigitValue(b);
    assert [a, b, c][..2] == [a, b];
    assert [a, b, c, d][..3] == [a, b, c];
  }

  lemma HexDigitsFF01()
    ensures ParseHexDigits("FF01") == Some(0xFF01)
  {
    FourHexDigits('F', 'F', '0', '1');
    PlainHexDigits("FF01");
  }

  /** The value of three decimal digits, most significant first. */
  lemma ThreeDigits(a: char, b: char, c: char)
    requires IsDigit(a) && IsDigit(b) && IsDigit(c)
    ensures AllDigits([a, b, c])
    ensures DigitsValue([a, b, c])
      == ((a as int - '0' as int) * 10 + (b as int - '0' as int)) * 10 + (c as int - '0' as int)
  {
    assert [a][..0] == [] && DigitsValue([a]) == a as int - '0' as int;
    assert [a, b][..1] == [a];
    assert [a, b, c][..2] == [a, b];
  }

  lemma DecimalMinus255()
    ensures ParseInteger("-255") == Some(-255)
  {
    ThreeDigits('2', '5', '5');
    NegativeDecimal("255");
    assert "-" + "255" == "-255";
  }

  /** `dw 0xFF01` and `dw -255` give the same two bytes. */
  lemma HexShortExample()
    ensures ParseHexAsData(O.Size16, "FF01") == ParseIntAsData(O.Size16, "-255")
    ensures ParseIntAsData(O.Size16, "-255") == Success(Data([0x01, 0xFF]))
  {
    HexDigitsFF01();
    DecimalMinus255();
    ShortTwosComplement("FF01", "-255");
  }

  /** Any texts that read as 0xFF01 and -255 give the same 16-bit data:
      01 then FF. */
  lemma ShortTwosComplement(hexValue: string, decimal: string)
    requires ParseHexDigits(hexValue) == Some(0xFF01) && ParseInteger(decimal) == Some(-255)
    ensures ParseHexAsData(O.Size16, hexValue) == ParseIntAsData(O.Size16, decimal)
    ensures ParseIntAsData(O.Size16, decimal) == Success(Data([0x01, 0xFF]))
  {
    var size := O.Size16;
    assert size.Bits() / 8 == 2 && Pow256(2) == 0x1_0000 by {
      Pow256Values();
    }
    ModUnique(0xFF01, 0x1_0000, 0, 0xFF01);
    ModUnique(-255, 0x1_0000, -1, 0xFF01);
    HexDataAccepted(size, hexValue);
    LE2(-255);
    HexMatchesDecimal(size, hexValue, decimal);
  }

  // ---- lines ----

  /** Trimming adds no character. */
  lemma TrimKeepsAbsence(s: string, c: char)
    requires c !in s
    ensures c !in Trim(s)
  {
    TrimSlice(s, IsWhiteSpace);
  }

  /** `RemoveComment(line)`: `line.Split(';').First().Trim()`, which is the
      text before the first ';', trimmed. */
  function RemoveComment(line: string): (r: string)
    ensures ';' !in r
    ensures Trimmed(r)
    ensures var k := IndexOf(line, ';'); r == Trim(if k.Some? then line[..k.value] else line)
  {
    var before := Split(line, {';'})[0];
    SplitFirst(line, ';');
    TrimEnds(before, IsWhiteSpace);
    TrimKeepsAbsence(before, ';');
    Trim(before)
  }

  predicate IsSeparator(c: char)
  {
    c == ' ' || c == '\t'
  }

  /** No white space at either end, as `Trim` leaves it. */
  predicate Trimmed(s: string)
  {
    s == [] || (!IsWhiteSpace(s[0]) && !IsWhiteSpace(s[|s| - 1]))
  }

  /** The first position of a space or tab. */
  function FirstSeparator(s: string): (r: Option<nat>)
    ensures r.Some? ==> r.value < |s| && IsSeparator(s[r.value]) && forall i :: 0 <= i < r.value ==> !IsSeparator(s[i])
    ensures r.None? ==> forall i :: 0 <= i < |s| ==> !IsSeparator(s[i])
  {
    if s == [] then None
    else if IsSeparator(s[0]) then Some(0)
    else match FirstSeparator(s[1..])
      case None => None
      case Some(k) => Some(k + 1)
  }

  /** `inst.Split(new[] {' ', '\t'}, 2, StringSplitOptions.RemoveEmptyEntries)`
      then `Trim` on each part: the first word, and the rest of the line
      after the separators that follow it. */
  function SplitWords(inst: string): (r: seq<string>)
    ensures |r| <= 2
    ensures inst != [] && Trimmed(inst) ==> |r| >= 1
  {
    var t := TrimStart(inst, IsSeparator);
    if t == [] then []
    else match FirstSeparator(t)
      case None => [Trim(t)]
      case Some(k) =>
        var rest := TrimStart(t[k + 1..], IsSeparator);
        if rest == [] then [Trim(t[..k])] else [Trim(t[..k]), Trim(rest)]
  }

  /** The first word, a space and a trimmed rest split into those two. */
  lemma SplitTwoWords(head: string, rest: string)
    requires head != [] && Trimmed(head) && forall i :: 0 <= i < |head| ==> !IsSeparator(head[i])
    requires rest != [] && Trimmed(rest)
    ensures SplitWords(head + " " + rest) == [head, rest]
  {
    var inst := head + " " + rest;
    assert inst[0] == head[0];
    assert TrimStart(inst, IsSeparator) == inst;
    SeparatorAfterWord(head, rest);
    AroundSeparator(head, ' ', rest);
    assert inst == head + [' '] + rest;
    assert TrimStart(rest, IsSeparator) == rest;
    AlreadyTrimmed(head, IsWhiteSpace);
    AlreadyTrimmed(rest, IsWhiteSpace);
  }

  /** A word free of separators ends at the space that follows it. */
  lemma SeparatorAfterWord(head: string, rest: string)
    requires forall i :: 0 <= i < |head| ==> !IsSeparator(head[i])
    ensures FirstSeparator(head + " " + rest) == Some(|head|)
  {
    var inst := head + " " + rest;
    assert IsSeparator(inst[|head|]);
    assert forall i :: 0 <= i < |head| ==> inst[i] == head[i];
  }

  /** A single trimmed word is all there is. */
  lemma SplitOneWord(word: string)
    requires word != [] && Trimmed(word) && forall i :: 0 <= i < |word| ==> !IsSeparator(word[i])
    ensures SplitWords(word) == [word]
  {
    assert TrimStart(word, IsSeparator) == word;
    AlreadyTrimmed(word, IsWhiteSpace);
  }

  /** The parser's state between lines: the open section's name, the mode
      bits, the directives so far and the entries of the open section. */
  datatype Progress = Progress(sectionName: string, bits: int, directives: seq<Node>, entries: seq<Node>)

  /** The data combinators (`DatasParser`): a parameter of the model. */
  type DataParser = (O.OperandSize, string) -> Result<seq<Data>, string>

  predicate WellFormedProgress(p: Progress)
  {
    (forall k :: 0 <= k < |p.directives| ==> IsDirective(p.directives[k]))
    && (forall k :: 0 <= k < |p.entries| ==> IsEntry(p.entries[k]))
  }

  /** Appending section entries keeps the progress well formed. */
  lemma EntriesAppended(p: Progress, extra: seq<Node>)
    ensures WellFormedProgress(p) && (forall k :: 0 <= k < |extra| ==> IsEntry(extra[k]))
      ==> WellFormedProgress(p.(entries := p.entries + extra))
  {
  }

  function DataEntries(ds: seq<Data>): (r: seq<Node>)
    ensures |r| == |ds| && forall k :: 0 <= k < |r| ==> r[k] == DataEntry(ds[k])
  {
    if ds == [] then [] else [DataEntry(ds[0])] + DataEntries(ds[1..])
  }

  /** The width a data directive names. */
  function DataSize(directive: string): Option<O.OperandSize>
  {
    match directive
    case "db" => Some(O.Size8)
    case "dw" => Some(O.Size16)
    case "dd" => Some(O.Size32)
    case "dq" => Some(O.Size64)
    case _ => None
  }

  /** A directive or instruction with its operand text. */
  function ApplyWords(p: Progress, store: Symbols.Store, head: string, rest: string, dataParser: DataParser)
    : (r: (Result<Progress, string>, Symbols.Store))
    ensures Symbols.WellKeyed(store) ==> Symbols.WellKeyed(r.1)
    ensures r.0.Success? && WellFormedProgress(p) ==> WellFormedProgress(r.0.value)
  {
    match head
    case "global" => (Success(p.(directives := p.directives + [Global(rest)])), store)
    case "extern" => (Success(p.(directives := p.directives + [Extern(rest)])), store)
    case "bits" =>
      (match TryParse(rest, -0x8000_0000, 0x7FFF_FFFF)
       case None => (Failure("bits directive without integer operand"), store)
       case Some(b) => (Success(p.(bits := b)), store))
    case "section" =>
      if p.sectionName != "" then
        (Success(Progress(rest, p.bits, p.directives + [Section(p.sectionName, p.entries)], [])), store)
      else (Success(p.(sectionName := rest)), store)
    case _ =>
      if DataSize(head).Some? then
        (match dataParser(DataSize(head).value, rest)
         case Failure(e) => (Failure(e), store)
         case Success(ds) => (Success(p.(entries := p.entries + DataEntries(ds))), store))
      else
        var (ops, st) := ParseOperandsIn(store, rest);
        (Success(p.(entries := p.entries + [Instr(O.Instruction(p.bits, head, ops))])), st)
  }

  /** `cleanLine.Split(':', 2)` when the first ':' is past the line's first
      character: the trimmed label and the trimmed instruction after it.
      Otherwise there is no label and the line is the instruction. */
  function SplitLabel(clean: string): (r: (Option<string>, string))
    ensures r.0.Some? <==> IndexOf(clean, ':').Some? && IndexOf(clean, ':').value > 0
    ensures r.0.Some? ==> r.0.value == Trim(Split(clean, {':'})[0]) && ':' !in r.0.value
    ensures r.0.Some? ==> Trimmed(r.1)
    ensures r.0.None? ==> r.1 == clean
  {
    var colon := IndexOf(clean, ':');
    if colon.Some? && colon.value > 0 then
      SplitFirst(clean, ':');
      TrimKeepsAbsence(clean[..colon.value], ':');
      TrimEnds(clean[colon.value + 1..], IsWhiteSpace);
      (Some(Trim(clean[..colon.value])), Trim(clean[colon.value + 1..]))
    else (None, clean)
  }

  /** The instruction part of a line: nothing, a directive or instruction
      with its operand text, or a lone mnemonic. */
  function InstructionOf(p: Progress, store: Symbols.Store, inst: string, dataParser: DataParser)
    : (r: (Result<Progress, string>, Symbols.Store))
    requires Trimmed(inst)
    ensures Symbols.WellKeyed(store) ==> Symbols.WellKeyed(r.1)
    ensures r.0.Success? && WellFormedProgress(p) ==> WellFormedProgress(r.0.value)
  {
    if inst == [] then (Success(p), store)
    else
      var words := SplitWords(inst);
      if |words| > 1 then ApplyWords(p, store, words[0], words[1], dataParser)
      else MnemonicOnly(p, store, words[0])
  }

  /** A line with a mnemonic and no operands: an instruction without
      operands is appended. */
  function MnemonicOnly(p: Progress, store: Symbols.Store, name: string)
    : (r: (Result<Progress, string>, Symbols.Store))
    ensures r.1 == store && r.0.Success?
    ensures r.0.value.entries == p.entries + [Instr(O.Instruction(p.bits, name, []))]
    ensures WellFormedProgress(p) ==> WellFormedProgress(r.0.value)
  {
    EntriesAppended(p, [Instr(O.Instruction(p.bits, name, []))]);
    (Success(p.(entries := p.entries + [Instr(O.Instruction(p.bits, name, []))])), store)
  }

  /** A non-blank line: the label, when there is one, is appended before
      the instruction part is parsed. */
  function LabelledOf(p: Progress, store: Symbols.Store, clean: string, dataParser: DataParser)
    : (r: (Result<Progress, string>, Symbols.Store))
    requires Trimmed(clean)
    ensures Symbols.WellKeyed(store) ==> Symbols.WellKeyed(r.1)
    ensures r.0.Success? && WellFormedProgress(p) ==> WellFormedProgress(r.0.value)
  {
    var split := SplitLabel(clean);
    if split.0.Some? then LabelThen(p, store, split.0.value, split.1, dataParser)
    else InstructionOf(p, store, clean, dataParser)
  }

  /** The label is appended before the instruction after it is parsed. */
  function LabelThen(p: Progress, store: Symbols.Store, name: string, inst: string, dataParser: DataParser)
    : (r: (Result<Progress, string>, Symbols.Store))
    requires Trimmed(inst)
    ensures Symbols.WellKeyed(store) ==> Symbols.WellKeyed(r.1)
    ensures r.0.Success? && WellFormedProgress(p) ==> WellFormedProgress(r.0.value)
    ensures inst == [] ==> r == (Success(p.(entries := p.entries + [Label(name)])), store)
  {
    EntriesAppended(p, [Label(name)]);
    InstructionOf(p.(entries := p.entries + [Label(name)]), store, inst, dataParser)
  }

  /** One line of `Parse`: comment, label, then directive or instruction. */
  function ParseLineOf(p: Progress, store: Symbols.Store, line: string, dataParser: DataParser)
    : (r: (Result<Progress, string>, Symbols.Store))
    ensures Symbols.WellKeyed(store) ==> Symbols.WellKeyed(r.1)
    ensures r.0.Success? && WellFormedProgress(p) ==> WellFormedProgress(r.0.value)
  {
    var clean := RemoveComment(line);
    if clean == [] then (Success(p), store) else LabelledOf(p, store, clean, dataParser)
  }

  /** The lines of the input: split at '\n' and '\r', empty ones dropped. */
  function Lines(input: string): (r: seq<string>)
    ensures forall i :: 0 <= i < |r| ==> r[i] != [] && '\n' !in r[i] && '\r' !in r[i]
  {
    var parts := Split(input, {'\n', '\r'});
    var r := RemoveEmpty(parts);
    assert forall i :: 0 <= i < |r| ==> r[i] in parts;
    r
  }

  /** The `foreach` over the lines; the first exception ends it. */
  function ParseLinesOf(lines: seq<string>, p: Progress, store: Symbols.Store, dataParser: DataParser)
    : (r: (Result<Progress, string>, Symbols.Store))
    ensures Symbols.WellKeyed(store) ==> Symbols.WellKeyed(r.1)
    ensures r.0.Success? && WellFormedProgress(p) ==> WellFormedProgress(r.0.value)
  {
    if lines == [] then (Success(p), store)
    else
      var (q, st) := ParseLineOf(p, store, lines[0], dataParser);
      if q.Failure? then (q, st) else ParseLinesOf(lines[1..], q.value, st, dataParser)
  }

  /** After the last line: the open section is kept only if it has entries. */
  function Finish(p: Progress): (listing: Node)
    ensures WellFormedProgress(p) ==> WellFormedListing(listing)
    ensures listing.Listing? && |listing.directives| == |p.directives| + (if p.entries == [] then 0 else 1)
  {
    if |p.entries| > 0 then Listing(p.directives + [Section(p.sectionName, p.entries)])
    else Listing(p.directives)
  }

  const Start := Progress("", 64, [], [])

  /** `Parse(input)` on a symbol store. */
  function ParseOf(input: string, store: Symbols.Store, dataParser: DataParser): (r: (Result<Node, string>, Symbols.Store))
    ensures Symbols.WellKeyed(store) ==> Symbols.WellKeyed(r.1)
    ensures r.0.Success? ==> WellFormedListing(r.0.value)
  {
    var (q, st) := ParseLinesOf(Lines(input), Start, store, dataParser);
    if q.Failure? then (Failure(q.error), st) else (Success(Finish(q.value)), st)
  }

  // ---- properties of section grouping ----

  /** A `section` line closes the open section, even an empty one, when a
      name was already set; before the first one nothing is closed, so the
      entries read so far join the section it opens. */
  lemma SectionLine(p: Progress, store: Symbols.Store, name: string, dataParser: DataParser)
    ensures var r := ApplyWords(p, store, "section", name, dataParser).0;
      r.Success? && r.value.sectionName == name && r.value.bits == p.bits
      && (p.sectionName != "" ==> r.value.directives == p.directives + [Section(p.sectionName, p.entries)] && r.value.entries == [])
      && (p.sectionName == "" ==> r.value.directives == p.directives && r.value.entries == p.entries)
  {
  }

  /** `bits` with an integer sets the mode of every later instruction; with
      anything else it throws. */
  lemma BitsLine(p: Progress, store: Symbols.Store, operand: string, dataParser: DataParser)
    ensures var r := ApplyWords(p, store, "bits", operand, dataParser).0;
      match TryParse(operand, -0x8000_0000, 0x7FFF_FFFF)
      case Some(b) => r == Success(p.(bits := b))
      case None => r == Failure("bits directive without integer operand")
  {
  }

  /** An instruction line is appended to the open section with the current
      mode bits, and only its operands touch the symbol table. */
  lemma InstructionLine(p: Progress, store: Symbols.Store, head: string, rest: string, dataParser: DataParser)
    requires head !in {"global", "extern", "bits", "section", "db", "dw", "dd", "dq"}
    ensures var r := ParseOperandsIn(store, rest);
      ApplyWords(p, store, head, rest, dataParser)
      == (Success(p.(entries := p.entries + [Instr(O.Instruction(p.bits, head, r.0))])), r.1)
  {
  }

  /** The text of an instruction line, a mnemonic, a space and its operands,
      appends that instruction with the parsed operands. */
  lemma InstructionText(p: Progress, store: Symbols.Store, head: string, rest: string, dataParser: DataParser)
    requires head != [] && Trimmed(head) && forall i :: 0 <= i < |head| ==> !IsSeparator(head[i])
    requires rest != [] && Trimmed(rest)
    requires head !in {"global", "extern", "bits", "section", "db", "dw", "dd", "dq"}
    ensures Trimmed(head + " " + rest)
    ensures var r := ParseOperandsIn(store, rest);
      InstructionOf(p, store, head + " " + rest, dataParser)
      == (Success(p.(entries := p.entries + [Instr(O.Instruction(p.bits, head, r.0))])), r.1)
  {
    var inst := head + " " + rest;
    assert inst[0] == head[0] && inst[|inst| - 1] == rest[|rest| - 1];
    SplitTwoWords(head, rest);
    InstructionLine(p, store, head, rest, dataParser);
  }

  /** A label before an instruction: the label entry, then the instruction. */
  lemma LabelThenInstruction(p: Progress, store: Symbols.Store, name: string, head: string, rest: string, dataParser: DataParser)
    requires head != [] && Trimmed(head) && forall i :: 0 <= i < |head| ==> !IsSeparator(head[i])
    requires rest != [] && Trimmed(rest)
    requires head !in {"global", "extern", "bits", "section", "db", "dw", "dd", "dq"}
    ensures Trimmed(head + " " + rest)
    ensures var r := ParseOperandsIn(store, rest);
      LabelThen(p, store, name, head + " " + rest, dataParser)
      == (Success(p.(entries := p.entries + [Label(name), Instr(O.Instruction(p.bits, head, r.0))])), r.1)
  {
    var q := p.(entries := p.entries + [Label(name)]);
    InstructionText(q, store, head, rest, dataParser);
    var inst := head + " " + rest;
    assert LabelThen(p, store, name, inst, dataParser) == InstructionOf(q, store, inst, dataParser);
    AppendPair(p.entries, Label(name), Instr(O.Instruction(p.bits, head, ParseOperandsIn(store, rest).0)));
  }

  /** A label before a lone mnemonic: the label, then the instruction
      without operands. */
  lemma LabelThenMnemonic(p: Progress, store: Symbols.Store, name: string, mnemonic: string, dataParser: DataParser)
    requires mnemonic != [] && Trimmed(mnemonic) && forall i :: 0 <= i < |mnemonic| ==> !IsSeparator(mnemonic[i])
    ensures LabelThen(p, store, name, mnemonic, dataParser)
      == (Success(p.(entries := p.entries + [Label(name), Instr(O.Instruction(p.bits, mnemonic, []))])), store)
  {
    var q := p.(entries := p.entries + [Label(name)]);
    SplitOneWord(mnemonic);
    assert LabelThen(p, store, name, mnemonic, dataParser) == InstructionOf(q, store, mnemonic, dataParser);
    assert InstructionOf(q, store, mnemonic, dataParser) == MnemonicOnly(q, store, mnemonic);
    AppendPair(p.entries, Label(name), Instr(O.Instruction(p.bits, mnemonic, [])));
  }

  /** A blank or comment-only line changes nothing. */
  lemma BlankLine(p: Progress, store: Symbols.Store, line: string, dataParser: DataParser)
    requires RemoveComment(line) == []
    ensures ParseLineOf(p, store, line, dataParser) == (Success(p), store)
  {
  }

  /** The open section is emitted at the end only when it has entries. */
  lemma FinishKeepsNonEmpty(p: Progress)
    ensures p.entries == [] ==> Finish(p) == Listing(p.directives)
    ensures p.entries != [] ==> Finish(p).directives[|p.directives|] == Section(p.sectionName, p.entries)
  {
  }

  // ---- the parser object ----

  class AssemblerParser {
    const symbolTable: Symbols.SymbolTable

    ghost predicate Valid()
      reads this, symbolTable
    {
      symbolTable.Valid()
    }

    constructor()
      ensures Valid() && fresh(symbolTable) && symbolTable.store == map[]
    {
      symbolTable := new Symbols.SymbolTable();
    }

    /** `ParseOperand(operand, isInMemoryOperand)`. */
    method ParseOperand(operand: string, inMemory: bool) returns (op: O.Operand)
      requires Valid()
      modifies symbolTable
      ensures Valid()
      ensures (op, symbolTable.store) == ParseOperandIn(old(symbolTable.store), operand, inMemory)
      decreases if inMemory then 0 else 1
    {
      if !inMemory && |operand| > 0 && operand[0] == '[' && operand[|operand| - 1] == ']' {
        var inner := ParseOperand(operand[1..|operand| - 1], true);
        return O.Mem(inner);
      }
      var number := NumberOperand(operand, inMemory);
      if number.Some? {
        return number.value;
      }
      var register := RegisterOperand(operand);
      if register.Some? {
        return register.value;
      }
      var symbol := symbolTable.Resolve(operand);
      return O.Sym(symbol);
    }

    /** `stringOps.Select(opText => ParseOperand(opText, false))`: each
        text trimmed and parsed, left to right. */
    method ParseEach(texts: seq<string>) returns (operands: seq<O.Operand>)
      requires Valid()
      modifies symbolTable
      ensures Valid()
      ensures (operands, symbolTable.store) == ParseEachIn(old(symbolTable.store), texts)
    {
      ghost var all := ParseEachIn(symbolTable.store, texts);
      operands := [];
      var i := 0;
      assert texts[i..] == texts;
      while i < |texts|
        invariant 0 <= i <= |texts|
        invariant Valid()
        invariant all.0 == operands + ParseEachIn(symbolTable.store, texts[i..]).0
        invariant all.1 == ParseEachIn(symbolTable.store, texts[i..]).1
      {
        ghost var before := symbolTable.store;
        assert texts[i..][1..] == texts[i + 1..];
        var op := ParseOperand(Trim(texts[i]), false);
        ghost var rest := ParseEachIn(symbolTable.store, texts[i + 1..]);
        assert ParseEachIn(before, texts[i..]) == ([op] + rest.0, rest.1);
        AppendAssoc(operands, [op], rest.0);
        operands := operands + [op];
        i := i + 1;
      }
      assert texts[i..] == [];
      assert operands == all.0;
    }

    /** `ParseInstructionOperands(operandsString)`. */
    method ParseInstructionOperands(operandsString: string) returns (operands: seq<O.Operand>)
      requires Valid()
      modifies symbolTable
      ensures Valid()
      ensures (operands, symbolTable.store) == ParseOperandsIn(old(symbolTable.store), operandsString)
    {
      var clean := Trim(operandsString);
      if clean == [] {
        return [];
      }
      operands := ParseEach(Split(clean, {','}));
    }

    /** The `switch` on the first word of a line that has operand text. */
    method ApplyDirective(p: Progress, head: string, rest: string, dataParser: DataParser) returns (r: Result<Progress, string>)
      requires Valid()
      modifies symbolTable
      ensures Valid()
      ensures (r, symbolTable.store) == ApplyWords(p, old(symbolTable.store), head, rest, dataParser)
    {
      var directives, sectionName, bits, sectionEntries := p.directives, p.sectionName, p.bits, p.entries;
      match head {
        case "global" =>
          directives := directives + [Global(rest)];
        case "extern" =>
          directives := directives + [Extern(rest)];
        case "bits" =>
          var b := TryParse(rest, -0x8000_0000, 0x7FFF_FFFF);
          if b.None? {
            return Failure("bits directive without integer operand");
          }
          bits := b.value;
        case "section" =>
          if sectionName != "" {
            directives := directives + [Section(sectionName, sectionEntries)];
            sectionEntries := [];
          }
          sectionName := rest;
        case _ =>
          var size := DataSize(head);
          if size.Some? {
            var data := dataParser(size.value, rest);
            if data.Failure? {
              return Failure(data.error);
            }
            sectionEntries := sectionEntries + DataEntries(data.value);
          } else {
            var operands := ParseInstructionOperands(rest);
            sectionEntries := sectionEntries + [Instr(O.Instruction(bits, head, operands))];
          }
      }
      return Success(Progress(sectionName, bits, directives, sectionEntries));
    }

    /** The body of `Parse`'s loop for one line. */
    method ParseLine(p: Progress, line: string, dataParser: DataParser) returns (r: Result<Progress, string>)
      requires Valid()
      modifies symbolTable
      ensures Valid()
      ensures (r, symbolTable.store) == ParseLineOf(p, old(symbolTable.store), line, dataParser)
    {
      var cleanLine := RemoveComment(line);
      if cleanLine == [] {
        return Success(p);
      }
      var split := SplitLabel(cleanLine);
      var progress, inst := p, cleanLine;
      if split.0.Some? {
        progress := p.(entries := p.entries + [Label(split.0.value)]);
        inst := split.1;
      }
      assert ParseLineOf(p, old(symbolTable.store), line, dataParser)
        == InstructionOf(progress, symbolTable.store, inst, dataParser);
      if inst == [] {
        return Success(progress);
      }
      var instAndOps := SplitWords(inst);
      if |instAndOps| > 1 {
        r := ApplyDirective(progress, instAndOps[0], instAndOps[1], dataParser);
      } else {
        r := Success(progress.(entries := progress.entries + [Instr(O.Instruction(progress.bits, instAndOps[0], []))]));
        assert (r, symbolTable.store) == MnemonicOnly(progress, symbolTable.store, instAndOps[0]);
      }
    }

    /** `Parse(input)`. */
    method Parse(input: string, dataParser: DataParser) returns (r: Result<Node, string>)
      requires Valid()
      modifies symbolTable
      ensures Valid()
      ensures (r, symbolTable.store) == ParseOf(input, old(symbolTable.store), dataParser)
      ensures r.Success? ==> WellFormedListing(r.value)
    {
      var q := ParseLines(Lines(input), dataParser);
      if q.Failure? {
        return Failure(q.error);
      }
      return Success(Finish(q.value));
    }

    /** `Parse`'s loop over the lines, from the empty start. */
    method ParseLines(lines: seq<string>, dataParser: DataParser) returns (r: Result<Progress, string>)
      requires Valid()
      modifies symbolTable
      ensures Valid()
      ensures (r, symbolTable.store) == ParseLinesOf(lines, Start, old(symbolTable.store), dataParser)
    {
      var p := Start;
      var i := 0;
      while i < |lines|
        invariant 0 <= i <= |lines|
        invariant Valid()
        invariant ParseLinesOf(lines, Start, old(symbolTable.store), dataParser)
          == ParseLinesOf(lines[i..], p, symbolTable.store, dataParser)
      {
        assert lines[i..][1..] == lines[i + 1..];
        var q := ParseLine(p, lines[i], dataParser);
        if q.Failure? {
          return q;
        }
        p := q.value;
        i := i + 1;
      }
      return Success(p);
    }
  }
}
