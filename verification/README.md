# zenos-assembler, modelled in Dafny

This project models the core of zenos-assembler. That core is a small
x86-64 assembler for four mnemonics: `add`, `mov`, `push` and `pop`. It
has these parts:

- an instruction table that picks the encoding, widening immediates until
  one matches;
- an emitter that turns an instruction into REX, opcode, ModR/M, SIB,
  displacement and immediate bytes;
- an assembler driver that walks the parsed listing, with byte
  reservations that are patched later;
- a symbol table that numbers names and promotes them to exported or
  imported;
- a line parser for labels, directives, data literals and operands;
- the ELF serialisers for the identification block, the 32- and 64-bit
  file headers, the section header entries, the 32-bit symbol entry and
  the section-name string table.

All multi-byte values are little-endian.

Pure code is modelled as functions: operand classification, table
lookup, encoding, parsing, ELF layouts. Each stateful class is a Dafny
class whose methods are proved against those functions:

- `Assembler`;
- `SymbolTable`;
- `AssemblerParser`;
- `ElfHeaderIdent`;
- `SymbolEntry32`;
- the byte list behind the `BinaryWriter`.

Integers of the source's fixed widths are subset types of `int` (`u8`
through `u64`, `i8` through `i64`). Wrap-around and truncating casts are
written out with `%`.

The modules:

- `Bytes` and `BinaryIo`: little-endian encoding and reading.
- `Buffers`: the growable byte buffer.
- `Text`: trimming, splitting and integer text.
- `Operands`: operands and instructions.
- `Symbols`: symbols and the symbol table.
- `Definitions`: the instruction table and lookup.
- `Emitter`: the instruction emitter.
- `Encodings`: whole-instruction encodings.
- `Ast`: data literals and the listing tree.
- `Parsing`: the line parser.
- `Assembling`: the assembler driver.
- `ElfIdent`, `ElfHeaders`, `SectionHeaders`, `SymbolEntries` and
  `StringTables`: the ELF structures.

## Model

| member | source | states |
|---|---|---|
| `Operands.OperandSize.Bits` | src/Zenos.Assembler/Assembly/AST/Operand.cs:9 | an operand size is one of 0, 8, 16, 32 or 64 bits |
| `Operands.Operand.Size` | src/Zenos.Assembler/Assembly/AST/MemoryOperand.cs:41-44 | every operand has a size; a memory operand is always 64 bits, whatever its inner operand |
| `Operands.Operand.Widen` | src/Zenos.Assembler/Assembly/AST/Imm8Operand.cs:49 | only 8-, 16- and 32-bit immediates can widen; widening doubles the width and keeps the value; anything else is returned unchanged |
| `Operands.WidenMonotone` | src/Zenos.Assembler/Assembly/AST/ImmOperand.cs:7-9 | widening never narrows an immediate, and a 64-bit immediate is left as it is |
| `Operands.WidenThrice` | src/Zenos.Assembler/Assembly/AST/Imm64Operand.cs:49 | three widenings take any immediate to a 64-bit immediate of the same value; a symbol stays itself |
| `Operands.RegisterOperatorEquals` | src/Zenos.Assembler/Assembly/AST/RegisterOperand.cs:15-35 | register `==` holds exactly when both sides are equal registers, or both are null |
| `Operands.BaseEqualsKindAndSize` | src/Zenos.Assembler/Assembly/AST/Operand.cs:11-34 | base operand equality (`BaseEquals`) is equality of kind and size; operator `==` agrees with it, including the null cases |
| `Operands.ObjectEqualsStructural` | src/Zenos.Assembler/Assembly/AST/Imm8Operand.cs:16-27 | when no symbol is involved, `Equals` on an operand (`ObjectEquals`) is structural equality |
| `Operands.RegisterWidthsDiffer` | src/Zenos.Assembler/Assembly/AST/Register16Operand.cs:22-27 | registers with the same name but different widths are unequal |
| `Operands.BaseEqualsIgnoresPayload` | src/Zenos.Assembler/Assembly/AST/Operand.cs:16-19 | `Operand ==` compares only kind and size, so `rax == rcx` and `imm8(1) == imm8(2)` hold, while the subclass `Equals` tells the registers apart |
| `Operands.SymbolEqualsAnyImm64` | src/Zenos.Assembler/Assembly/AST/SymbolOperand.cs:6-13 | a symbol operand reports 64-bit immediate kind and size, so it equals every other symbol and every 64-bit immediate, while an immediate does not equal a symbol |
| `Operands.RegisterToStringExample` | src/Zenos.Assembler/Assembly/AST/RegisterOperand.cs:37-40 | a 64-bit `rax` prints as `reg64[rax]` |
| `Operands.Imm8ToStringExample` | src/Zenos.Assembler/Assembly/AST/Imm8Operand.cs:44-47 | an 8-bit immediate prints as `imm8(value)` |
| `Operands.Imm32ToStringExample` | src/Zenos.Assembler/Assembly/AST/Imm32Operand.cs:44-47 | a 32-bit immediate prints as `imm32(value)` |
| `Operands.RegisterToStringInjective` | src/Zenos.Assembler/Assembly/AST/RegisterOperand.cs:37-40 | `ToString` of two registers that print the same are the same register, width and name |
| `Operands.NewInstruction` | src/Zenos.Assembler/Assembly/AST/Instruction.cs:9-23 | the convenience constructors build a 64-bit-mode instruction with the given name and operands |
| `Operands.InstructionToString` | src/Zenos.Assembler/Assembly/AST/Instruction.cs:45 | an instruction prints as its name, a space and then the comma-separated operands; with no operands, the name and a trailing space |
| `Operands.JoinOperands` | src/Zenos.Assembler/Assembly/AST/Instruction.cs:45 | no operands, and only they, print as nothing; one operand prints as its own text |
| `Operands.JoinOperandsCons` | src/Zenos.Assembler/Assembly/AST/Instruction.cs:45 | an operand in front of a non-empty list prints as its text, a comma and space, then the rest |
| `Operands.JoinOperandsAppend` | src/Zenos.Assembler/Assembly/AST/Instruction.cs:45 | appending an operand appends a comma, a space and its text |
| `Operands.JoinTwoOperands` | src/Zenos.Assembler/Assembly/AST/Instruction.cs:45 | two operands print as the first, a comma and space, and the second |
| `Operands.InstructionEqualityIsByReference` | src/Zenos.Assembler/Assembly/AST/Instruction.cs:29-43 | instruction equality (`InstructionEquals`) compares the operand arrays by reference: equal contents in two arrays are unequal; it is reflexive and symmetric; `==` (`InstructionOperatorEquals`) agrees with it and handles nulls |
| `Operands.InstructionEqualsContents` | src/Zenos.Assembler/Assembly/AST/Instruction.cs:31-34 | when one array identity always holds one content, `Equals` is exactly equality of contents and identity |
| `Definitions.Table` | src/Zenos.Assembler/Assembly/AST/InstructionDefinitions.cs:8-52 | the table knows exactly `add`, `mov`, `push` and `pop`; each entry list is non-empty and well formed |
| `Definitions.FirstMatch` | src/Zenos.Assembler/Assembly/AST/InstructionDefinitions.cs:92-123 | the result is the first entry whose operand count and every operand pattern match (`OperandMatches`: a fixed register by its name, a typed pattern by kind and size, a register also matching a memory pattern; `Matches`: the count and every position) |
| `Definitions.WidenIndex` | src/Zenos.Assembler/Assembly/AST/InstructionDefinitions.cs:78-90 | the index found is the leftmost operand that can still widen |
| `Definitions.BudgetBound` | src/Zenos.Assembler/Assembly/AST/InstructionDefinitions.cs:58-71 | the number of widenings left is at most three per operand |
| `Definitions.WidenLowersBudget` | src/Zenos.Assembler/Assembly/AST/InstructionDefinitions.cs:58-71 | each widening step strictly lowers the budget, so the lookup loop ends |
| `Definitions.BudgetUpdate` | src/Zenos.Assembler/Assembly/AST/InstructionDefinitions.cs:78-90 | replacing one operand changes the budget by the difference of their headrooms |
| `Definitions.WidensTransitive` | src/Zenos.Assembler/Assembly/AST/InstructionDefinitions.cs:78-90 | repeated widening of one operand is still a widening of it |
| `Definitions.AllWidenStep` | src/Zenos.Assembler/Assembly/AST/InstructionDefinitions.cs:69-71 | one more widening step keeps the operands reachable from the input |
| `Definitions.AllWidenTransitive` | src/Zenos.Assembler/Assembly/AST/InstructionDefinitions.cs:58-71 | reachability by widenings composes |
| `Definitions.AllWidenRefl` | src/Zenos.Assembler/Assembly/AST/InstructionDefinitions.cs:58-67 | operands are reachable from themselves |
| `Definitions.Resolve` | src/Zenos.Assembler/Assembly/AST/InstructionDefinitions.cs:54-75 | the final operands are reached from the input by widenings; a found entry is the first match for them; a failure means no entry matches and nothing can widen |
| `Definitions.LookupOf` | src/Zenos.Assembler/Assembly/AST/InstructionDefinitions.cs:54-75 | an unknown mnemonic gives no entry and the operands unchanged; otherwise the result is the resolution over the mnemonic's entries |
| `Definitions.WidenOperandImm` | src/Zenos.Assembler/Assembly/AST/InstructionDefinitions.cs:78-90 | widens the leftmost widenable operand in place and reports whether it did |
| `Definitions.WidenIndexIsFirst` | src/Zenos.Assembler/Assembly/AST/InstructionDefinitions.cs:80-86 | no operand before the widened one could widen |
| `Definitions.FirstMatchIsFirst` | src/Zenos.Assembler/Assembly/AST/InstructionDefinitions.cs:60-67 | no entry before the found one matches |
| `Definitions.Lookup` | src/Zenos.Assembler/Assembly/AST/InstructionDefinitions.cs:54-75 | the loop returns what `LookupOf` specifies |
| `Definitions.LookupIn` | src/Zenos.Assembler/Assembly/AST/InstructionDefinitions.cs:58-74 | the widen-and-retry loop over one entry list returns what `Resolve` specifies |
| `Definitions.FindMatch` | src/Zenos.Assembler/Assembly/AST/InstructionDefinitions.cs:60-67 | the scan returns the first matching entry |
| `Definitions.ResolveMatched` | src/Zenos.Assembler/Assembly/AST/InstructionDefinitions.cs:60-67 | operands that already match resolve without widening |
| `Definitions.ResolveStuck` | src/Zenos.Assembler/Assembly/AST/InstructionDefinitions.cs:69-74 | operands that match nothing and cannot widen fail unchanged |
| `Definitions.ResolveWidened` | src/Zenos.Assembler/Assembly/AST/InstructionDefinitions.cs:69-71 | operands that match nothing resolve as their widened form does |
| `Definitions.RegisterForMemoryOnly` | src/Zenos.Assembler/Assembly/AST/InstructionDefinitions.cs:117-120 | a register operand also matches a memory pattern of its size; a memory operand never matches a register pattern; an immediate matches neither |
| `Definitions.FixedShapeMatches` | src/Zenos.Assembler/Assembly/AST/InstructionDefinitions.cs:109-112 | a fixed-register pattern matches exactly its register name at its width |
| `Definitions.WideImmediateNeverResolves` | src/Zenos.Assembler/Assembly/AST/InstructionDefinitions.cs:8-52 | no entry takes a 64-bit immediate, so such an operand never resolves |
| `Definitions.FailureLeavesImmediatesWide` | src/Zenos.Assembler/Assembly/AST/InstructionDefinitions.cs:69-74 | after a failed lookup every immediate has been widened as far as it goes |
| `Definitions.C7Shadowed` | src/Zenos.Assembler/Assembly/AST/InstructionDefinitions.cs:29-35 | the two Reg64 `mov` entries using opcode C7 (entries 3 and 6) are never the first match, since the B8 entry has the same shapes and comes first |
| `Definitions.StackSize` | src/Zenos.Assembler/Assembly/AST/InstructionDefinitions.cs:37-51 | the first three `push` and `pop` entries are opcode 50 or 58 with the register in the opcode, for 16-, 32- and 64-bit registers |
| `Definitions.StackEntry` | src/Zenos.Assembler/Assembly/AST/InstructionDefinitions.cs:39-50 | the first three push entries are 50 plus the register, and the pops 58 plus the register, for 16-, 32- and 64-bit registers in that order |
| `Definitions.StackRegister` | src/Zenos.Assembler/Assembly/AST/InstructionDefinitions.cs:39-41 | a 16-, 32- or 64-bit register resolves to the register-in-opcode entry of `push` or `pop` |
| `Definitions.MovRegisterRegister` | src/Zenos.Assembler/Assembly/AST/InstructionDefinitions.cs:30 | `mov` between 64-bit registers resolves to opcode 89 |
| `Definitions.MovStore` | src/Zenos.Assembler/Assembly/AST/InstructionDefinitions.cs:30 | `mov [mem], reg64` resolves to opcode 89 when the memory holds a register, a 32-bit address or a symbol |
| `Definitions.MovLoad` | src/Zenos.Assembler/Assembly/AST/InstructionDefinitions.cs:31 | `mov reg64, [mem]` resolves to opcode 8B |
| `Definitions.MovLoadAbsolute` | src/Zenos.Assembler/Assembly/AST/InstructionDefinitions.cs:31 | `mov reg64, [imm32]` resolves to opcode 8B |
| `Definitions.MovRegNarrowUnmatched` | src/Zenos.Assembler/Assembly/AST/InstructionDefinitions.cs:26-36 | `mov reg64` with an 8- or 16-bit immediate matches no entry before widening |
| `Definitions.MovRegisterImm8` | src/Zenos.Assembler/Assembly/AST/InstructionDefinitions.cs:29 | `mov reg64, imm8` widens the immediate to 32 bits and resolves to opcode B8 |
| `Definitions.MovRegisterImm32` | src/Zenos.Assembler/Assembly/AST/InstructionDefinitions.cs:29 | `mov reg64, imm32` resolves to opcode B8 without widening |
| `Definitions.MovRegisterWidens` | src/Zenos.Assembler/Assembly/AST/InstructionDefinitions.cs:29 | `mov reg64` with an 8- or 16-bit immediate resolves as with the immediate widened once |
| `Definitions.AddRegisterImm8` | src/Zenos.Assembler/Assembly/AST/InstructionDefinitions.cs:12-14 | `add reg64, imm8` resolves to the 83 entry with REX.W and keeps the 8-bit immediate |
| `Definitions.AddAccumulatorEntries` | src/Zenos.Assembler/Assembly/AST/InstructionDefinitions.cs:15-18 | the accumulator forms are 04 for AL with imm8, 66 05 for AX with imm16 and 05 with REX.W for RAX with imm32 |
| `Definitions.AddAlImm8` | src/Zenos.Assembler/Assembly/AST/InstructionDefinitions.cs:15 | `add al, imm8` resolves to opcode 04 |
| `Definitions.AddAxImm16` | src/Zenos.Assembler/Assembly/AST/InstructionDefinitions.cs:16 | `add ax, imm16` resolves to opcode 05 |
| `Definitions.AddRegImm16Unmatched` | src/Zenos.Assembler/Assembly/AST/InstructionDefinitions.cs:10-25 | `add reg64, imm16` matches no entry before widening |
| `Definitions.AddRegImm32` | src/Zenos.Assembler/Assembly/AST/InstructionDefinitions.cs:17 | `add reg64, imm32` matches the RAX entry exactly when the register is `rax`, and nothing otherwise |
| `Definitions.AddRegImm32Others` | src/Zenos.Assembler/Assembly/AST/InstructionDefinitions.cs:10-25 | no entry but the RAX one matches `add reg64, imm32` |
| `Definitions.AddRaxImm32` | src/Zenos.Assembler/Assembly/AST/InstructionDefinitions.cs:18 | `add rax, imm32` resolves to opcode 05 with REX.W |
| `Definitions.AddRegisterImm16` | src/Zenos.Assembler/Assembly/AST/InstructionDefinitions.cs:10-25 | `add rax, imm16` widens to 32 bits and resolves to 05; with any other register the lookup fails with the immediate widened to 64 bits |
| `Definitions.AddRegisterImm32Unsupported` | src/Zenos.Assembler/Assembly/AST/InstructionDefinitions.cs:10-25 | `add` of a 32-bit immediate to another register fails, leaving a 64-bit immediate |
| `Definitions.AddRegImm32Widens` | src/Zenos.Assembler/Assembly/AST/InstructionDefinitions.cs:69-71 | for a register other than `rax`, `add reg64, imm32` matches nothing and widens the immediate |
| `Definitions.AddRegImm64Stuck` | src/Zenos.Assembler/Assembly/AST/InstructionDefinitions.cs:69-74 | a 64-bit immediate operand of `add` is stuck |
| `Definitions.ResolveOnceWidened` | src/Zenos.Assembler/Assembly/AST/InstructionDefinitions.cs:58-71 | when one widening leaves nothing widenable and still no match, the lookup fails with the widened operands |
| `Definitions.PushImmediate` | src/Zenos.Assembler/Assembly/AST/InstructionDefinitions.cs:42-44 | `push imm8` resolves to 6A; `push imm16` and `push imm32` resolve to 68 |
| `Emitter.RegisterByte` | src/Zenos.Assembler/Assembly/AST/InstructionEmitter.cs:299-402 | a known register name gives its number below 16; any other name fails with "Invalid register name: " and the name |
| `Emitter.Aliases` | src/Zenos.Assembler/Assembly/AST/InstructionEmitter.cs:299-350 | each of the sixteen register numbers has four accepted names, of 8, 16, 32 and 64 bits (`ah` to `bh` stand at 4 to 7) |
| `Emitter.AliasesShareNumber` | src/Zenos.Assembler/Assembly/AST/InstructionEmitter.cs:299-350 | the four names of a register all map to its number |
| `Emitter.KnownNamesAreAliases` | src/Zenos.Assembler/Assembly/AST/InstructionEmitter.cs:299-350 | every accepted name is one of the four names of the number it maps to |
| `Emitter.SilRejected` | src/Zenos.Assembler/Assembly/AST/InstructionEmitter.cs:351-402 | `sil` is not an accepted name |
| `Emitter.Arrange` | src/Zenos.Assembler/Assembly/AST/InstructionEmitter.cs:30-40 | the two slots are the two operands with their patterns, swapped when needed so that a memory operand never comes second after a non-memory one |
| `Emitter.RexBit` | src/Zenos.Assembler/Assembly/AST/InstructionEmitter.cs:217-220 | a REX extension bit is set exactly for registers 8 to 15 |
| `Emitter.RexPrefix` | src/Zenos.Assembler/Assembly/AST/InstructionEmitter.cs:181-215 | a REX byte is emitted exactly when W, B or R is needed; it is 0x40 plus those bits; X is never set |
| `Emitter.Opcode` | src/Zenos.Assembler/Assembly/AST/InstructionEmitter.cs:51-57 | the opcode keeps its length and prefix; with a register-in-opcode entry, the low three bits of the register are added to its last byte |
| `Emitter.RegBits` | src/Zenos.Assembler/Assembly/AST/InstructionEmitter.cs:222-237 | the field is the low three bits of the slot's register when its shape is not a fixed register, or of the register in brackets; 100 for an absolute address in brackets; nothing for an empty slot, a fixed register or anything else; an unknown register name fails with the emitter's message |
| `Emitter.ModBits` | src/Zenos.Assembler/Assembly/AST/InstructionEmitter.cs:270-291 | the mod field is 0, 1 or 3: 3 exactly for non-memory operands, 1 exactly for memory based on register 5 |
| `Emitter.ModRm` | src/Zenos.Assembler/Assembly/AST/InstructionEmitter.cs:247-268 | the ModR/M byte packs mod, reg and r/m fields as the layout prescribes |
| `Emitter.Pack` | src/Zenos.Assembler/Assembly/AST/InstructionEmitter.cs:247-268 | three fields packed into a byte read back as the 2-bit, 3-bit and 3-bit fields |
| `Emitter.Sib` | src/Zenos.Assembler/Assembly/AST/InstructionEmitter.cs:147-179 | a SIB byte is emitted only for memory operands and is 0x24, or 0x25 exactly when the inner operand is an immediate |
| `Emitter.Displacement32` | src/Zenos.Assembler/Assembly/AST/InstructionEmitter.cs:137-145 | an absolute address yields its 32-bit value; anything else has none |
| `Emitter.Displacement` | src/Zenos.Assembler/Assembly/AST/InstructionEmitter.cs:74-102 | mod 1 emits one zero byte; mod 0 with SIB base 5 emits four bytes reading back as the address; a missing address fails with "No disp32 value" |
| `Emitter.ImmediateBytes` | src/Zenos.Assembler/Assembly/AST/InstructionEmitter.cs:105-132 | an 8-bit immediate gives one byte and 16- and 32-bit immediates four bytes, each reading back as the value; 64-bit immediates and symbols give none |
| `Emitter.FirstImm` | src/Zenos.Assembler/Assembly/AST/InstructionEmitter.cs:293 | the immediate is the first immediate operand, and none when there is none |
| `Emitter.Head` | src/Zenos.Assembler/Assembly/AST/InstructionEmitter.cs:42-57 | the head fails exactly on an unknown register name, and then emits nothing |
| `Emitter.Addressing` | src/Zenos.Assembler/Assembly/AST/InstructionEmitter.cs:60-102 | with known names, addressing fails only with "No disp32 value" |
| `Emitter.Tail` | src/Zenos.Assembler/Assembly/AST/InstructionEmitter.cs:60-132 | with known names, the tail fails only with "No disp32 value" |
| `Emitter.Encode` | src/Zenos.Assembler/Assembly/AST/InstructionEmitter.cs:30-135 | the prefix and opcode come first and are all there is when they fault; a fault is a bad register name with nothing emitted, or a missing displacement |
| `Emitter.EmitOf` | src/Zenos.Assembler/Assembly/AST/InstructionEmitter.cs:11-135 | the operands returned are the lookup's; an unsupported instruction emits nothing and names the instruction; otherwise the bytes are the encoding of the entry found |
| `Emitter.Emit` | src/Zenos.Assembler/Assembly/AST/InstructionEmitter.cs:11-135 | the emitter appends exactly the bytes `EmitOf` specifies to the writer |
| `Emitter.EmitEncoding` | src/Zenos.Assembler/Assembly/AST/InstructionEmitter.cs:42-132 | writes the head and, unless the head failed, the tail, to the writer |
| `Emitter.EmitTail` | src/Zenos.Assembler/Assembly/AST/InstructionEmitter.cs:60-132 | writes exactly the tail's bytes and reports its fault |
| `Emitter.EncodeParts` | src/Zenos.Assembler/Assembly/AST/InstructionEmitter.cs:42-132 | an encoding is its head and, when the head succeeds, its tail |
| `Emitter.EmitOfFound` | src/Zenos.Assembler/Assembly/AST/InstructionEmitter.cs:13-16 | when an entry is found, the result is that entry's encoding of the resolved operands |
| `Emitter.EmitOfParts` | src/Zenos.Assembler/Assembly/AST/InstructionEmitter.cs:42-132 | the bytes are head, addressing and tail in that order |
| `Emitter.EmitOfBytes` | src/Zenos.Assembler/Assembly/AST/InstructionEmitter.cs:42-132 | a successful encoding is the REX byte, the opcode, ModR/M, SIB, displacement and immediate |
| `Emitter.EmitFaults` | src/Zenos.Assembler/Assembly/AST/InstructionEmitter.cs:84-102 | the emitter fails only on an invalid register name or on a missing 32-bit displacement |
| `Emitter.EmitHead` | src/Zenos.Assembler/Assembly/AST/InstructionEmitter.cs:42-57 | the head writes the REX prefix and the adjusted opcode |
| `Emitter.EmitAddressing` | src/Zenos.Assembler/Assembly/AST/InstructionEmitter.cs:60-71 | the addressing step writes the ModR/M and SIB bytes |
| `Emitter.EmitDisplacement` | src/Zenos.Assembler/Assembly/AST/InstructionEmitter.cs:74-102 | the displacement step writes the bytes `Displacement` specifies |
| `Emitter.EmitImmediate` | src/Zenos.Assembler/Assembly/AST/InstructionEmitter.cs:105-132 | the immediate step writes the bytes `ImmediateBytes` specifies |
| `Encodings.ArrangeInOrder` | src/Zenos.Assembler/Assembly/AST/InstructionEmitter.cs:30-33 | operands without a memory second operand keep their order |
| `Encodings.ArrangeSwapped` | src/Zenos.Assembler/Assembly/AST/InstructionEmitter.cs:35-40 | a memory second operand is swapped to first place |
| `Encodings.NoImmediate` | src/Zenos.Assembler/Assembly/AST/InstructionEmitter.cs:293 | operands without an immediate contribute no immediate bytes |
| `Encodings.SecondImmediate` | src/Zenos.Assembler/Assembly/AST/InstructionEmitter.cs:293 | the immediate of a register-immediate pair is the second operand |
| `Encodings.Rex` | src/Zenos.Assembler/Assembly/AST/InstructionEmitter.cs:181-215 | a REX byte is present exactly when W is set or a register number is 8 or more; its bits are 0100WR0B |
| `Encodings.ModRmOf` | src/Zenos.Assembler/Assembly/AST/InstructionEmitter.cs:247-268 | a ModR/M byte holds mod, reg and r/m in its three fields |
| `Encodings.IndirectBytes` | src/Zenos.Assembler/Assembly/AST/InstructionEmitter.cs:60-102 | a register-indirect operand takes a SIB byte for bases 4 and 12 and a zero disp8 for bases 5 and 13 |
| `Encodings.RegisterInOpcodeParts` | src/Zenos.Assembler/Assembly/AST/InstructionEmitter.cs:42-57 | a register-in-opcode entry is an optional REX.B and the opcode plus the register's low bits |
| `Encodings.StackOpcode` | src/Zenos.Assembler/Assembly/AST/InstructionEmitter.cs:51-57 | the push or pop opcode carries the register's low three bits |
| `Encodings.PushPopRegister` | tests/Zenos.Tests/InstructionEmitterTests.cs:9-57 | `push` and `pop` of any of the sixteen 16-, 32- or 64-bit registers give 0x41 for r8 to r15, then 50 or 58 plus the low three bits; 16-bit registers get no 66 prefix |
| `Encodings.PushPopParts` | src/Zenos.Assembler/Assembly/AST/InstructionEmitter.cs:42-132 | push and pop of a register have that head and an empty tail |
| `Encodings.StackEntryParts` | src/Zenos.Assembler/Assembly/AST/InstructionEmitter.cs:30-132 | a register-in-opcode entry keeps its operand in place and has no ModR/M, SIB, displacement or immediate |
| `Encodings.UnknownRegisterThrows` | src/Zenos.Assembler/Assembly/AST/InstructionEmitter.cs:299-402 | pushing an unknown register name fails with the invalid-register message |
| `Encodings.RegisterPairHead` | src/Zenos.Assembler/Assembly/AST/InstructionEmitter.cs:42-51 | two registers give REX with the second as R and the first as B, then the opcode |
| `Encodings.RegisterDirectTail` | src/Zenos.Assembler/Assembly/AST/InstructionEmitter.cs:60-102 | two registers give one mode-3 ModR/M byte |
| `Encodings.IndirectTail` | src/Zenos.Assembler/Assembly/AST/InstructionEmitter.cs:60-102 | a register-indirect operand gives the indirect ModR/M, SIB and displacement bytes |
| `Encodings.AbsoluteHead` | src/Zenos.Assembler/Assembly/AST/InstructionEmitter.cs:42-51 | an absolute or symbol memory operand contributes no REX.B |
| `Encodings.AbsoluteTail` | src/Zenos.Assembler/Assembly/AST/InstructionEmitter.cs:60-100 | an absolute address gives ModR/M with r/m 4, SIB 0x25 and the address in four bytes |
| `Encodings.AbsoluteAddressing` | src/Zenos.Assembler/Assembly/AST/InstructionEmitter.cs:60-100 | the ModR/M, SIB and displacement steps of an absolute address are r/m 4, SIB 0x25 and the four address bytes, without fault |
| `Encodings.SymbolTail` | src/Zenos.Assembler/Assembly/AST/InstructionEmitter.cs:93-100 | a symbol address gives ModR/M and SIB 0x25 and then fails with "No disp32 value" |
| `Encodings.MovRegisterRegisterBytes` | tests/Zenos.Tests/InstructionEmitterTests.cs:537-579 | `mov reg64, reg64` is REX.W with R and B, 89 and a mode-3 ModR/M with the source in reg and the target in r/m |
| `Encodings.MovStoreBytes` | tests/Zenos.Tests/InstructionEmitterTests.cs:581-623 | `mov [reg], reg64` is REX.W, 89, then ModR/M with a SIB 0x24 for bases 4 and 12 and a zero displacement for bases 5 and 13 |
| `Encodings.MovLoadBytes` | tests/Zenos.Tests/InstructionEmitterTests.cs:625-667 | `mov reg64, [reg]` is REX.W, 8B, then ModR/M with a SIB 0x24 for bases 4 and 12 and a zero displacement for bases 5 and 13 |
| `Encodings.MovStoreAbsoluteBytes` | tests/Zenos.Tests/InstructionEmitterTests.cs:294-375 | `mov [imm32], reg64` encodes SIB 0x25 and the address as four little-endian bytes |
| `Encodings.MovLoadAbsoluteBytes` | tests/Zenos.Tests/InstructionEmitterTests.cs:294-375 | `mov reg64, [imm32]` encodes SIB 0x25 and the address as four little-endian bytes |
| `Encodings.MovStoreSymbolThrows` | src/Zenos.Assembler/Assembly/AST/InstructionEmitter.cs:93-100 | a memory operand holding a symbol fails with "No disp32 value" |
| `Encodings.AddRegisterImm8Bytes` | tests/Zenos.Tests/InstructionEmitterTests.cs:275-284 | `add reg64, imm8` is REX.W, 83, a mode-3 ModR/M with the register, and the byte |
| `Encodings.MovRegisterImm8Bytes` | tests/Zenos.Tests/InstructionEmitterTests.cs:669-723 | `mov reg64, imm8` is an optional REX.B, B8 plus the register's low bits, and four bytes of the value |
| `Encodings.FixedRegisterImmediate` | src/Zenos.Assembler/Assembly/AST/InstructionEmitter.cs:60-64 | a fixed register (`al`, `ax`, `eax` or `rax`) and an immediate encode as the optional REX.W and the opcode, then the immediate, with no ModR/M byte |
| `Encodings.FixedImmediateParts` | src/Zenos.Assembler/Assembly/AST/InstructionEmitter.cs:42-132 | a fixed register and an immediate give an optional REX.W, the opcode and the immediate only |
| `Encodings.RegisterImmediateParts` | src/Zenos.Assembler/Assembly/AST/InstructionEmitter.cs:42-132 | a register and an immediate give REX.W, the opcode, a mode-3 ModR/M and the immediate |
| `Encodings.ImmediateOnlyParts` | src/Zenos.Assembler/Assembly/AST/InstructionEmitter.cs:42-57 | an immediate-only entry has no REX and the plain opcode |
| `Encodings.AddRaxImm32Bytes` | tests/Zenos.Tests/InstructionEmitterTests.cs:250-261 | `add rax, imm32` is 48 05 and the value in four little-endian bytes |
| `Encodings.AddRaxImm16Bytes` | tests/Zenos.Tests/InstructionEmitterTests.cs:250-261 | `add rax, imm16` widens and encodes as 48 05 and four bytes, returning the widened operands |
| `Encodings.AddRegisterImm16Unsupported` | tests/Zenos.Tests/InstructionEmitterTests.cs:142-291 | `add reg64, imm16` for a register other than `rax` is reported unsupported, emits nothing and returns the immediate widened to 64 bits |
| `Encodings.AddAlImm8Bytes` | tests/Zenos.Tests/InstructionEmitterTests.cs:208-219 | `add al, imm8` is 04 and the byte |
| `Encodings.AddAxImm16Bytes` | tests/Zenos.Tests/InstructionEmitterTests.cs:222-233 | `add ax, imm16` is 66 05 and four bytes of the value |
| `Encodings.PushImmediateBytes` | tests/Zenos.Tests/InstructionEmitterTests.cs:59-140 | `push imm8` is 6A and the byte; `push imm16` and `push imm32` are 68 and four bytes |
| `Symbols.Symbol.AsExport` | src/Zenos.Assembler/Assembly/Symbol.cs:20 | the exported copy keeps the name and index and is exported, not imported |
| `Symbols.Symbol.AsImport` | src/Zenos.Assembler/Assembly/Symbol.cs:22 | the imported copy keeps the name and index and is imported, not exported |
| `Symbols.Symbol.Equals` | src/Zenos.Assembler/Assembly/Symbol.cs:24-37 | a symbol equals exactly a non-null symbol with the same name, index and type |
| `Symbols.NewSymbol` | src/Zenos.Assembler/Assembly/Symbol.cs:13-18 | a new symbol has the given index and name and is neither exported nor imported |
| `Symbols.OperatorEquals` | src/Zenos.Assembler/Assembly/Symbol.cs:50-58 | `==` holds for two nulls or for equal symbols |
| `Symbols.ExportImportExclusive` | src/Zenos.Assembler/Assembly/Symbol.cs:10-11 | no symbol is both exported and imported |
| `Symbols.ResolveIn` | src/Zenos.Assembler/Assembly/SymbolTable.cs:27-30 | a known name returns its symbol and leaves the store alone; an unknown name gets a new symbol numbered by the store's size |
| `Symbols.ResolveKeepsOrdinal` | src/Zenos.Assembler/Assembly/SymbolTable.cs:27-30 | resolving keeps the symbols numbered 0 to n-1 without gaps |
| `Symbols.ExportKeepsOrdinal` | src/Zenos.Assembler/Assembly/SymbolTable.cs:13-17 | exporting keeps that numbering |
| `Symbols.ImportKeepsOrdinal` | src/Zenos.Assembler/Assembly/SymbolTable.cs:19-23 | importing keeps that numbering |
| `Symbols.RelinkKeepsOrdinal` | src/Zenos.Assembler/Assembly/SymbolTable.cs:25 | replacing a stored symbol by one with the same name and index keeps that numbering |
| `Symbols.ExportIn` | src/Zenos.Assembler/Assembly/SymbolTable.cs:13-17 | the symbol returned is exported and keeps the index resolution gave it; in a well-keyed table it is stored under its name |
| `Symbols.ImportIn` | src/Zenos.Assembler/Assembly/SymbolTable.cs:19-23 | the symbol returned is imported and keeps the index resolution gave it; in a well-keyed table it is stored under its name |
| `Symbols.ExportIdempotent` | src/Zenos.Assembler/Assembly/SymbolTable.cs:13-17 | exporting a name twice gives the same symbol and store as once |
| `Symbols.ImportIdempotent` | src/Zenos.Assembler/Assembly/SymbolTable.cs:19-23 | importing a name twice gives the same symbol and store as once |
| `Symbols.LatestPromotionWins` | src/Zenos.Assembler/Assembly/SymbolTable.cs:13-23 | of an export and an import of one name, the later one wins, and the index is kept |
| `Symbols.UpdateCanBreakOrdinal` | src/Zenos.Assembler/Assembly/SymbolTable.cs:25 | a direct `Update` with an arbitrary index can break the numbering |
| `Symbols.SymbolTable.constructor` | src/Zenos.Assembler/Assembly/SymbolTable.cs:7-11 | a new table is empty and trivially numbered without gaps |
| `Symbols.SymbolTable.Update` | src/Zenos.Assembler/Assembly/SymbolTable.cs:25 | the symbol is stored under its name and returned; the table grows only for a new name |
| `Symbols.SymbolTable.Resolve` | src/Zenos.Assembler/Assembly/SymbolTable.cs:27-30 | the table changes as `ResolveIn` specifies and keeps its numbering |
| `Symbols.SymbolTable.Export` | src/Zenos.Assembler/Assembly/SymbolTable.cs:13-17 | the table changes as `ExportIn` specifies and keeps its numbering |
| `Symbols.SymbolTable.Import` | src/Zenos.Assembler/Assembly/SymbolTable.cs:19-23 | the table changes as `ImportIn` specifies and keeps its numbering |
| `Ast.FromByte` | src/Zenos.Assembler/Assembly/AST/Data.cs:15-18 | a byte is one byte of data with that value |
| `Ast.FromShort` | src/Zenos.Assembler/Assembly/AST/Data.cs:20-23 | a short is two little-endian bytes reading back as the value |
| `Ast.FromInt` | src/Zenos.Assembler/Assembly/AST/Data.cs:25-28 | an int is four little-endian bytes reading back as the value |
| `Ast.FromLong` | src/Zenos.Assembler/Assembly/AST/Data.cs:30-33 | a long is eight little-endian bytes reading back as the value |
| `Ast.FromString` | src/Zenos.Assembler/Assembly/AST/Data.cs:35-38 | a string is one 7-bit ASCII byte per character |
| `Ast.AsciiByte` | src/Zenos.Assembler/Assembly/AST/Data.cs:35-38 | a character becomes a 7-bit byte: its code when ASCII, else `?` |
| `Ast.AsciiString` | src/Zenos.Assembler/Assembly/AST/Data.cs:35-38 | reading ASCII bytes back gives one character per byte |
| `Ast.StringRoundTrip` | src/Zenos.Assembler/Assembly/AST/Data.cs:35-38 | decoding the bytes gives back each character that is ASCII, and `?` for the others |
| `Ast.AsciiRoundTrip` | src/Zenos.Assembler/Assembly/AST/Data.cs:35-38 | an ASCII string decodes back to itself |
| `Ast.ZeroIsInt` | tests/Zenos.Tests/InstructionEmitterTests.cs:378-535 | the int 0 is four zero bytes |
| `Parsing.NumberOperand` | src/Zenos.Assembler/Assembly/AssemblerParser.cs:266-291 | a number becomes an immediate holding its value; inside brackets it is always 32 bits; a non-number gives nothing |
| `Parsing.RegisterOperand` | src/Zenos.Assembler/Assembly/AssemblerParser.cs:294-312 | a name in one of the four register sets becomes a register of that set's width; other names give nothing |
| `Parsing.ParseOperandIn` | src/Zenos.Assembler/Assembly/AssemblerParser.cs:257-315 | only symbol operands touch the symbol table, which stays well keyed; a bracketed operand is never nested memory |
| `Parsing.ParseEachIn` | src/Zenos.Assembler/Assembly/AssemblerParser.cs:246-255 | one operand per text, and the symbol table stays well keyed |
| `Parsing.ParseEachInSingle` | src/Zenos.Assembler/Assembly/AssemblerParser.cs:252-254 | one text parses to the operand of its trimmed text, with the table that operand left |
| `Parsing.ParseEachInCons` | src/Zenos.Assembler/Assembly/AssemblerParser.cs:252-254 | the first text is parsed first, and the rest are parsed from the table it left |
| `Parsing.ParseEachInAppend` | src/Zenos.Assembler/Assembly/AssemblerParser.cs:252-254 | parsing the texts of `a` then `b` parses `a`, then `b` from the table `a` left, and the operands come in that order |
| `Parsing.ParseEachInPair` | src/Zenos.Assembler/Assembly/AssemblerParser.cs:252-254 | two texts give the first operand, then the second one parsed with the table the first left |
| `Parsing.ParseOperandsIn` | src/Zenos.Assembler/Assembly/AssemblerParser.cs:246-255 | the operand list parsed from the comma-separated text keeps the symbol table well keyed |
| `Parsing.CommaPair` | src/Zenos.Assembler/Assembly/AssemblerParser.cs:248-252 | a trimmed `a,b` with comma-free `a` and `b` is split into exactly the texts `a` and `b` |
| `Parsing.TwoOperands` | src/Zenos.Assembler/Assembly/AssemblerParser.cs:246-255 | a trimmed `a,b` parses to the operands of trimmed `a` and trimmed `b`, the second parsed with the table the first left |
| `Parsing.LetterIsNoNumber` | src/Zenos.Assembler/Assembly/AssemblerParser.cs:266-270 | text starting with a letter is never parsed as a number |
| `Parsing.Narrowest` | src/Zenos.Assembler/Assembly/AssemblerParser.cs:270-284 | a value becomes the narrowest of the 8-, 16-, 32- and 64-bit immediates that holds it |
| `Parsing.NumberNotBracketed` | src/Zenos.Assembler/Assembly/AssemblerParser.cs:261-266 | a number never starts with a bracket |
| `Parsing.NarrowestImmediate` | src/Zenos.Assembler/Assembly/AssemblerParser.cs:266-284 | a 64-bit number parses to the narrowest immediate and leaves the symbols alone |
| `Parsing.NumberIsNarrowest` | src/Zenos.Assembler/Assembly/AssemblerParser.cs:270-284 | outside brackets, a number is its narrowest immediate |
| `Parsing.BracketedNumber` | src/Zenos.Assembler/Assembly/AssemblerParser.cs:261-291 | `[n]` with a 32-bit n is a memory operand over a 32-bit immediate |
| `Parsing.NameIsNoNumber` | src/Zenos.Assembler/Assembly/AssemblerParser.cs:294-314 | a lower-case name is a register when it is one, else a resolved symbol |
| `Parsing.Register64Names` | src/Zenos.Assembler/Assembly/AssemblerParser.cs:317-323 | every 64-bit register name parses to a 64-bit register |
| `Parsing.Register32Names` | src/Zenos.Assembler/Assembly/AssemblerParser.cs:325-331 | every 32-bit register name parses to a 32-bit register |
| `Parsing.Register16Names` | src/Zenos.Assembler/Assembly/AssemblerParser.cs:333-339 | every 16-bit register name parses to a 16-bit register |
| `Parsing.Register8Names` | src/Zenos.Assembler/Assembly/AssemblerParser.cs:341-347 | every 8-bit register name parses to an 8-bit register |
| `Parsing.WideNameEndings` | src/Zenos.Assembler/Assembly/AssemblerParser.cs:317-339 | no wide register name ends in `l` or `b`, so the wide sets never claim an 8-bit name |
| `Parsing.SymbolFallback` | src/Zenos.Assembler/Assembly/AssemblerParser.cs:314 | anything that is not bracketed, numeric or a register name is a resolved symbol |
| `Parsing.WideNamesKnown` | src/Zenos.Assembler/Assembly/AssemblerParser.cs:317-339 | every 64- and 16-bit register name the parser accepts is known to the emitter |
| `Parsing.R10dIsSymbol` | src/Zenos.Assembler/Assembly/AssemblerParser.cs:329-330 | `r10d` is missing from the 32-bit set, so it parses as a symbol |
| `Parsing.EightBitNamesRejected` | src/Zenos.Assembler/Assembly/AssemblerParser.cs:341-347 | `sil` parses as an 8-bit register that the emitter then rejects |
| `Parsing.ParseIntAsData` | src/Zenos.Assembler/Assembly/AssemblerParser.cs:197-217 | accepted exactly when the size is byte, short, int or long and the text parses as an integer in that type's range (0 to 255 for `byte`, two's complement ranges for the others); the result is that many little-endian bytes of the number; otherwise it fails with "Unknown operand data value: " and the text |
| `Parsing.ByteDataExample` | src/Zenos.Assembler/Assembly/AssemblerParser.cs:201-202 | `db 255` is the single byte FF |
| `Parsing.ByteDataTooLarge` | src/Zenos.Assembler/Assembly/AssemblerParser.cs:201-202 | `db 256` is outside `byte` and fails |
| `Parsing.ByteDataNegative` | src/Zenos.Assembler/Assembly/AssemblerParser.cs:201-202 | `db -1` is outside the unsigned `byte` and fails |
| `Parsing.ShortDataNegative` | src/Zenos.Assembler/Assembly/AssemblerParser.cs:204-205 | `dw -1` is the two bytes FF FF |
| `Parsing.ParseHexAsData` | src/Zenos.Assembler/Assembly/AssemblerParser.cs:219-239 | a hex literal becomes as many bytes as the size; anything else fails with the same message |
| `Parsing.HexDataBytes` | src/Zenos.Assembler/Assembly/AssemblerParser.cs:219-239 | a hex literal is accepted exactly when its digits fit the size |
| `Parsing.HexDataAccepted` | src/Zenos.Assembler/Assembly/AssemblerParser.cs:219-239 | hex data is accepted exactly when the sized hex parse succeeds |
| `Parsing.HexFits` | src/Zenos.Assembler/Assembly/AssemblerParser.cs:225-235 | a signed hex literal of n bytes fits the n-byte integral type |
| `Parsing.HexPattern` | src/Zenos.Assembler/Assembly/AssemblerParser.cs:219-239 | a hex value is written as the bit pattern of its digits |
| `Parsing.HexMatchesDecimal` | src/Zenos.Assembler/Assembly/AssemblerParser.cs:197-239 | a hex and a decimal literal with the same bit pattern give the same bytes |
| `Parsing.HexShortExample` | tests/Zenos.Tests/AssemblerParsingTests.cs:469-628 | `dw 0xFF01` and `dw -255` both give the bytes 01 FF |
| `Parsing.ShortTwosComplement` | tests/Zenos.Tests/AssemblerParsingTests.cs:469-628 | any text reading FF01 in hex and -255 in decimal gives the same short data |
| `Parsing.RemoveComment` | src/Zenos.Assembler/Assembly/AssemblerParser.cs:241-244 | the result is the trimmed text before the first `;`, with no `;` left |
| `Parsing.FirstSeparator` | src/Zenos.Assembler/Assembly/AssemblerParser.cs:50-51 | the position found is the first space or tab; none means the text has neither |
| `Parsing.SplitWords` | src/Zenos.Assembler/Assembly/AssemblerParser.cs:50-51 | a line splits into at most two words, and a non-empty trimmed line into at least one |
| `Parsing.SeparatorAfterWord` | src/Zenos.Assembler/Assembly/AssemblerParser.cs:50 | after a word without spaces or tabs, the first separator is the space that follows it |
| `Parsing.SplitTwoWords` | src/Zenos.Assembler/Assembly/AssemblerParser.cs:50-51 | a word, a space and a trimmed rest split into exactly that word and that rest |
| `Parsing.SplitOneWord` | src/Zenos.Assembler/Assembly/AssemblerParser.cs:50-51 | a trimmed word without spaces or tabs is the only part |
| `Parsing.ApplyWords` | src/Zenos.Assembler/Assembly/AssemblerParser.cs:53-111 | a directive or instruction line keeps the progress well formed and the symbol table well keyed |
| `Parsing.SplitLabel` | src/Zenos.Assembler/Assembly/AssemblerParser.cs:34-45 | a label exists exactly when a `:` follows some text; it is the trimmed text before the `:` |
| `Parsing.MnemonicOnly` | src/Zenos.Assembler/Assembly/AssemblerParser.cs:108-111 | a lone mnemonic appends an operandless instruction to the current section and leaves the symbols alone |
| `Parsing.InstructionOf` | src/Zenos.Assembler/Assembly/AssemblerParser.cs:47-111 | the rest of a line keeps the progress well formed |
| `Parsing.LabelledOf` | src/Zenos.Assembler/Assembly/AssemblerParser.cs:34-45 | a labelled line keeps the progress well formed |
| `Parsing.LabelThen` | src/Zenos.Assembler/Assembly/AssemblerParser.cs:34-48 | a labelled line keeps the progress well formed; with nothing after the label it adds only the label entry and leaves the symbols alone |
| `Parsing.DataEntries` | src/Zenos.Assembler/Assembly/AssemblerParser.cs:81-100 | one data entry per parsed literal, in order |
| `Parsing.EntriesAppended` | src/Zenos.Assembler/Assembly/AssemblerParser.cs:81-105 | appending entries to the open section keeps the progress well formed |
| `Parsing.ParseLineOf` | src/Zenos.Assembler/Assembly/AssemblerParser.cs:26-111 | any line keeps the progress well formed and the symbol table well keyed |
| `Parsing.ParseLinesOf` | src/Zenos.Assembler/Assembly/AssemblerParser.cs:26-111 | any sequence of lines keeps the progress well formed |
| `Parsing.Finish` | src/Zenos.Assembler/Assembly/AssemblerParser.cs:114-119 | the listing is well formed; a last section is added exactly when it holds entries |
| `Parsing.Lines` | src/Zenos.Assembler/Assembly/AssemblerParser.cs:26 | every line is non-empty and holds no line break |
| `Parsing.ParseOf` | src/Zenos.Assembler/Assembly/AssemblerParser.cs:19-120 | a parsed listing is well formed: only directives at the top, only entries inside sections |
| `Parsing.SectionLine` | src/Zenos.Assembler/Assembly/AssemblerParser.cs:70-79 | `section` closes the open section, even an empty one, once a name was set; before the first name the entries read so far join the new section |
| `Parsing.BitsLine` | src/Zenos.Assembler/Assembly/AssemblerParser.cs:64-68 | `bits` sets the mode to the parsed number, or fails on text that is not a 32-bit integer |
| `Parsing.InstructionLine` | src/Zenos.Assembler/Assembly/AssemblerParser.cs:101-111 | any other word is an instruction in the current mode with the parsed operands |
| `Parsing.InstructionText` | src/Zenos.Assembler/Assembly/AssemblerParser.cs:50-105 | the text `mnemonic operands` appends that instruction, in the current mode, with the operands parsed from the rest, and the table they left |
| `Parsing.LabelThenInstruction` | src/Zenos.Assembler/Assembly/AssemblerParser.cs:34-105 | `name: mnemonic operands` appends the label entry and then that instruction, with the parsed operands |
| `Parsing.LabelThenMnemonic` | src/Zenos.Assembler/Assembly/AssemblerParser.cs:34-111 | `name: mnemonic` appends the label entry and then the instruction without operands, and leaves the symbols alone |
| `Parsing.BlankLine` | src/Zenos.Assembler/Assembly/AssemblerParser.cs:29-31 | a line that is empty after removing its comment changes nothing |
| `Parsing.FinishKeepsNonEmpty` | src/Zenos.Assembler/Assembly/AssemblerParser.cs:114-117 | the final section is appended with its name and entries only when it has entries |
| `Parsing.AssemblerParser.constructor` | src/Zenos.Assembler/Assembly/AssemblerParser.cs:13-17 | a new parser has a fresh, empty symbol table |
| `Parsing.AssemblerParser.ParseOperand` | src/Zenos.Assembler/Assembly/AssemblerParser.cs:257-315 | the parsed operand and the table change are those `ParseOperandIn` specifies |
| `Parsing.AssemblerParser.ParseEach` | src/Zenos.Assembler/Assembly/AssemblerParser.cs:246-255 | the loop over the texts does what `ParseEachIn` specifies |
| `Parsing.AssemblerParser.ParseInstructionOperands` | src/Zenos.Assembler/Assembly/AssemblerParser.cs:246-255 | the operands and the table change are those `ParseOperandsIn` specifies |
| `Parsing.AssemblerParser.ApplyDirective` | src/Zenos.Assembler/Assembly/AssemblerParser.cs:53-111 | the directive switch does what `ApplyWords` specifies |
| `Parsing.AssemblerParser.ParseLine` | src/Zenos.Assembler/Assembly/AssemblerParser.cs:26-111 | one line does what `ParseLineOf` specifies |
| `Parsing.AssemblerParser.Parse` | src/Zenos.Assembler/Assembly/AssemblerParser.cs:19-120 | the whole parse does what `ParseOf` specifies and yields a well-formed listing |
| `Parsing.AssemblerParser.ParseLines` | src/Zenos.Assembler/Assembly/AssemblerParser.cs:26-112 | the line loop does what `ParseLinesOf` specifies |
| `Assembling.OutcomeOf` | src/Zenos.Assembler/Assembly/Assembler.cs:52-53 | null exactly when the emitter succeeded; an exception stays an exception; the message is the emitter's |
| `Assembling.InstructionStep` | src/Zenos.Assembler/Assembly/Assembler.cs:52-53 | an instruction only appends bytes and leaves the symbols alone; it yields null exactly when the emitter succeeded |
| `Assembling.AssembleOf` | src/Zenos.Assembler/Assembly/Assembler.cs:20-61 | assembling a node only appends bytes and keeps the symbol table well keyed |
| `Assembling.AssembleAll` | src/Zenos.Assembler/Assembly/Assembler.cs:24-32 | assembling a list only appends bytes; an empty list does nothing |
| `Assembling.AssembleAllAppend` | src/Zenos.Assembler/Assembly/Assembler.cs:24-32 | assembling two lists is assembling the first and then, unless it failed, the second |
| `Assembling.FirstErrorStops` | src/Zenos.Assembler/Assembly/Assembler.cs:24-32 | a failure comes from one node after a successful prefix, and nothing after it is assembled |
| `Assembling.DeclarationsEmitNothing` | src/Zenos.Assembler/Assembly/Assembler.cs:34-40 | `extern` and `global` emit no bytes, succeed and keep the symbol numbering |
| `Assembling.AssembleKeepsOrdinal` | src/Zenos.Assembler/Assembly/Assembler.cs:20-61 | assembling a node keeps the symbols numbered without gaps |
| `Assembling.AssembleAllKeepsOrdinal` | src/Zenos.Assembler/Assembly/Assembler.cs:24-32 | assembling a list keeps that numbering |
| `Assembling.EntriesFromEmitter` | src/Zenos.Assembler/Assembly/Assembler.cs:52-57 | inside sections, every failure comes from the emitter |
| `Assembling.DirectivesFromEmitter` | src/Zenos.Assembler/Assembly/Assembler.cs:34-50 | at the top level, every failure comes from the emitter |
| `Assembling.ParsedListingFromEmitter` | src/Zenos.Assembler/Assembly/Assembler.cs:58-59 | a parsed listing never reaches the unsupported-node case |
| `Assembling.Overwrite` | src/Zenos.Assembler/Assembly/Assembler.cs:129-159 | the length is kept; bytes inside the buffer are written; the write throws exactly when it runs past the end |
| `Assembling.OverwriteInside` | src/Zenos.Assembler/Assembly/Assembler.cs:129-159 | a write that fits never throws and patches exactly those positions |
| `Assembling.ReserveThenPatch` | src/Zenos.Assembler/Assembly/Assembler.cs:147-159 | reserving n zero bytes and patching them gives the same bytes as appending |
| `Assembling.Assembler.constructor` | src/Zenos.Assembler/Assembly/Assembler.cs:13-16 | a new assembler has no bytes, no symbols and no reservations |
| `Assembling.Assembler.GetBytes` | src/Zenos.Assembler/Assembly/Assembler.cs:18 | returns the bytes emitted so far |
| `Assembling.Assembler.Assemble` | src/Zenos.Assembler/Assembly/Assembler.cs:20-61 | the new bytes and symbols are those `AssembleOf` specifies |
| `Assembling.Assembler.AssembleInstruction` | src/Zenos.Assembler/Assembly/Assembler.cs:52-53 | an instruction appends the emitter's bytes |
| `Assembling.Assembler.AssembleEach` | src/Zenos.Assembler/Assembly/Assembler.cs:24-32 | the listing loop does what `AssembleAll` specifies |
| `Assembling.Assembler.EmitByte` | src/Zenos.Assembler/Assembly/Assembler.cs:64-67 | appends the byte |
| `Assembling.Assembler.EmitShort` | src/Zenos.Assembler/Assembly/Assembler.cs:69-73 | appends two little-endian bytes that read back as the value |
| `Assembling.Assembler.EmitInt` | src/Zenos.Assembler/Assembly/Assembler.cs:75-81 | appends four little-endian bytes that read back as the value |
| `Assembling.Assembler.EmitLong` | src/Zenos.Assembler/Assembly/Assembler.cs:83-93 | appends eight little-endian bytes that read back as the value |
| `Assembling.Assembler.EmitBytes` | src/Zenos.Assembler/Assembly/Assembler.cs:96-99 | appends the bytes |
| `Assembling.Assembler.EmitZeros` | src/Zenos.Assembler/Assembly/Assembler.cs:101-107 | appends count zero bytes, and none for a negative count |
| `Assembling.Assembler.GetReservationTicket` | src/Zenos.Assembler/Assembly/Assembler.cs:109-115 | the ticket is the current length, the size is filled with zeros and one more reservation is open |
| `Assembling.Assembler.ReturnReservationTicket` | src/Zenos.Assembler/Assembly/Assembler.cs:116-122 | the offset is the ticket and one fewer reservation is open |
| `Assembling.Assembler.ReserveByte` | src/Zenos.Assembler/Assembly/Assembler.cs:124-127 | reserves one zero byte at the end |
| `Assembling.Assembler.ReserveShort` | src/Zenos.Assembler/Assembly/Assembler.cs:135-138 | reserves two zero bytes at the end |
| `Assembling.Assembler.ReserveInt` | src/Zenos.Assembler/Assembly/Assembler.cs:147-150 | reserves four zero bytes at the end |
| `Assembling.Assembler.EmitByteAt` | src/Zenos.Assembler/Assembly/Assembler.cs:129-133 | writes the byte at the reservation, as `Overwrite` specifies, and closes the reservation |
| `Assembling.Assembler.EmitShortAt` | src/Zenos.Assembler/Assembly/Assembler.cs:140-145 | writes two little-endian bytes at the reservation, as `Overwrite` specifies |
| `Assembling.Assembler.EmitIntAt` | src/Zenos.Assembler/Assembly/Assembler.cs:152-159 | writes four little-endian bytes at the reservation, as `Overwrite` specifies |
| `Assembling.Assembler.ReserveAndPatchInt` | src/Zenos.Assembler/Assembly/Assembler.cs:147-159 | reserving an int and then writing it leaves the bytes an immediate write gives, with no reservation left open |
| `Buffers.ByteList.constructor` | src/Zenos.Assembler/Assembly/Assembler.cs:13-16 | a new buffer is empty |
| `Buffers.ByteList.Add` | src/Zenos.Assembler/Assembly/Assembler.cs:64-67 | appends one byte |
| `Buffers.ByteList.AddRange` | src/Zenos.Assembler/Assembly/Assembler.cs:96-99 | appends the bytes in order |
| `Buffers.ByteList.Set` | src/Zenos.Assembler/Assembly/Assembler.cs:129-133 | replaces one byte and leaves the rest |
| `Bytes.UnsignedLE` | src/Zenos.Assembler/Linker/EndianAwareBinaryWriter.cs:24-34 | little-endian bytes read back as the value modulo 256 to the n |
| `Bytes.LE` | src/Zenos.Assembler/Linker/EndianAwareBinaryWriter.cs:24-34 | a value is written as exactly n bytes |
| `Bytes.Unsigned` | src/Zenos.Assembler/Linker/EndianAwareBinaryReader.cs:16-24 | n bytes read as an unsigned value below 256 to the n |
| `Bytes.LE2` | src/Zenos.Assembler/Assembly/Assembler.cs:69-73 | a short is its low byte, then the next byte |
| `Bytes.LE4` | src/Zenos.Assembler/Assembly/Assembler.cs:75-81 | an int is its four bytes, lowest first |
| `Bytes.LE8` | src/Zenos.Assembler/Assembly/Assembler.cs:83-93 | a long is its eight bytes, lowest first |
| `Bytes.LEUnsigned` | src/Zenos.Assembler/Linker/EndianAwareBinaryReader.cs:16-24 | writing what was read gives the same bytes |
| `Bytes.LEModulo` | src/Zenos.Assembler/Linker/EndianAwareBinaryWriter.cs:24-34 | values equal modulo 256 to the n are written identically, which is what a truncating cast does |
| `Bytes.SignedLE` | src/Zenos.Assembler/Assembly/Assembler.cs:69-93 | a value in the signed range reads back from its bytes as itself |
| `Bytes.UnsignedAppend` | src/Zenos.Assembler/Linker/EndianAwareBinaryReader.cs:16-24 | the value of concatenated bytes is the low part plus the high part shifted |
| `Bytes.LEIndex` | src/Zenos.Assembler/Assembly/Assembler.cs:75-81 | byte k is the value shifted right by 8k bits, truncated |
| `BinaryIo.Read` | src/Zenos.Assembler/Linker/EndianAwareBinaryReader.cs:16-24 | reading n bytes gives a value below 256 to the n, and the bytes are that value's encoding followed by the rest |
| `BinaryIo.ReadSigned32` | src/Zenos.Assembler/Linker/SectionHeaderEntry64.cs:81-95 | a signed 32-bit read gives a value whose encoding is the four bytes |
| `BinaryIo.ReadUInt32` | src/Zenos.Assembler/Linker/EndianAwareBinaryReader.cs:22-24 | a 32-bit read consumes four bytes |
| `BinaryIo.ReadUInt64` | src/Zenos.Assembler/Linker/ElfHeader64.cs:120-140 | a 64-bit read consumes eight bytes |
| `BinaryIo.ReadWritten` | src/Zenos.Assembler/Linker/ElfHeader64.cs:120-140 | reading back n written bytes gives the value modulo 256 to the n and the rest |
| `BinaryIo.ReadWrittenSigned32` | src/Zenos.Assembler/Linker/SectionHeaderEntry64.cs:81-95 | a written signed 32-bit value reads back as itself |
| `BinaryIo.ReadWrittenBounded` | src/Zenos.Assembler/Linker/ElfHeader64.cs:120-140 | an in-range value reads back as itself |
| `Text.TrimStart` | src/Zenos.Assembler/Assembly/AssemblerParser.cs:243 | the result is a suffix of the text and does not start with white space |
| `Text.TrimStartDropsWhite` | src/Zenos.Assembler/Assembly/AssemblerParser.cs:243 | every character the leading trim drops is white space |
| `Text.TrimEnd` | src/Zenos.Assembler/Assembly/AssemblerParser.cs:243 | the result is a prefix of the text and does not end with white space |
| `Text.TrimEndDropsWhite` | src/Zenos.Assembler/Assembly/AssemblerParser.cs:243 | every character the trailing trim drops is white space |
| `Text.TrimSlice` | src/Zenos.Assembler/Assembly/AssemblerParser.cs:243 | trimming yields a contiguous slice of the text |
| `Text.TrimEnds` | src/Zenos.Assembler/Assembly/AssemblerParser.cs:243 | a trimmed text neither starts nor ends with white space |
| `Text.TrimIdempotent` | src/Zenos.Assembler/Assembly/AssemblerParser.cs:243 | trimming twice is trimming once (`Trim` is this trim with the .NET white-space set) |
| `Text.AlreadyTrimmed` | src/Zenos.Assembler/Assembly/AssemblerParser.cs:243 | text without white space at either end is left unchanged |
| `Text.IndexOf` | src/Zenos.Assembler/Assembly/AssemblerParser.cs:243 | the index is the first occurrence, and none exactly when the character is absent |
| `Text.Split` | src/Zenos.Assembler/Assembly/AssemblerParser.cs:26 | the parts contain no separator and there is at least one |
| `Text.SplitJoin` | src/Zenos.Assembler/Assembly/AssemblerParser.cs:26 | joining the parts with the separator gives back the text |
| `Text.SplitNone` | src/Zenos.Assembler/Assembly/AssemblerParser.cs:26 | text without separators is one part |
| `Text.SplitAtSeparator` | src/Zenos.Assembler/Assembly/AssemblerParser.cs:252 | splitting at a separator gives the parts before it followed by the parts after it |
| `Text.SplitPair` | src/Zenos.Assembler/Assembly/AssemblerParser.cs:252 | two separator-free texts joined by the separator split back into exactly those two |
| `Text.SplitFirst` | src/Zenos.Assembler/Assembly/AssemblerParser.cs:34-45 | the first part is the text before the first separator |
| `Text.RemoveEmpty` | src/Zenos.Assembler/Assembly/AssemblerParser.cs:50-51 | the result holds exactly the non-empty parts, and no empty one |
| `Text.RemoveEmptyAppend` | src/Zenos.Assembler/Assembly/AssemblerParser.cs:50-51 | filtering a concatenation is the concatenation of the filtered halves, so the order is kept |
| `Text.RemoveEmptySingle` | src/Zenos.Assembler/Assembly/AssemblerParser.cs:50-51 | one part is dropped exactly when it is empty |
| `Text.NatToString` | src/Zenos.Assembler/Assembly/AST/Imm8Operand.cs:44-47 | a number prints as decimal digits without a leading zero |
| `Text.NatToStringValue` | src/Zenos.Assembler/Assembly/AST/Imm8Operand.cs:44-47 | the printed digits read back as the number |
| `Text.IntToStringParses` | src/Zenos.Assembler/Assembly/AST/Imm8Operand.cs:44-47 | a printed integer parses back to itself |
| `Text.NegativeDecimal` | src/Zenos.Assembler/Assembly/AssemblerParser.cs:266-270 | a minus sign before digits parses as the negated value |
| `Text.TryParse` | src/Zenos.Assembler/Assembly/AssemblerParser.cs:64-68 | a bounded parse succeeds exactly when the text (read by `ParseInteger`: trimmed, an optional sign, decimal digits) is an integer within the bounds, and then gives that integer |
| `Text.PlainHexDigits` | src/Zenos.Assembler/Assembly/AssemblerParser.cs:219-239 | a run of hex digits parses as its value |
| `Text.FromBits` | src/Zenos.Assembler/Assembly/AssemblerParser.cs:219-239 | a bit pattern reinterpreted as signed lies in the signed range and keeps the pattern |
| `Text.TryParseHex` | src/Zenos.Assembler/Assembly/AssemblerParser.cs:219-239 | a sized hex parse succeeds exactly when the digits fit; the result keeps the bit pattern and is signed or unsigned as asked |
| `ElfIdent.IdentBytes` | src/Zenos.Assembler/Linker/ElfHeaderIdent.cs:25-48 | the sixteen bytes are the magic, the class, the data encoding, the current version and zero padding |
| `ElfIdent.IsValidOf` | src/Zenos.Assembler/Linker/ElfHeaderIdent.cs:19-20 | the bytes are compared in order and the first mismatch answers false; valid exactly when the first four bytes are the magic; the check throws exactly when the identification is shorter than four bytes and every byte it has matches the magic |
| `ElfIdent.ClassOf` | src/Zenos.Assembler/Linker/ElfHeaderIdent.cs:22 | the class is byte 4, and reading it throws on a shorter identification |
| `ElfIdent.DataOf` | src/Zenos.Assembler/Linker/ElfHeaderIdent.cs:23 | the data encoding is byte 5, and reading it throws on a shorter identification |
| `ElfIdent.ReadBytesOf` | src/Zenos.Assembler/Linker/ElfHeaderIdent.cs:55-59 | reading takes up to sixteen bytes from the front and leaves the rest |
| `ElfIdent.IdentRoundTrip` | tests/Zenos.Tests/ElfTests.cs:18-21 | a written identification reads back valid, with its class and data encoding |
| `ElfIdent.ShortIdent` | src/Zenos.Assembler/Linker/ElfHeaderIdent.cs:19-20 | a stream shorter than four bytes gives an identification whose validity check throws if it is a prefix of the magic, and is false otherwise |
| `ElfIdent.ShortIdentExamples` | src/Zenos.Assembler/Linker/ElfHeaderIdent.cs:19-20 | the empty identification and 7F 'E' 'L' throw; 00 and 7F 00 are invalid without throwing |
| `ElfIdent.ElfHeaderIdent.IsValid` | src/Zenos.Assembler/Linker/ElfHeaderIdent.cs:19-20 | the object is valid exactly when its array starts with the magic |
| `ElfIdent.ElfHeaderIdent.FromBytes` | src/Zenos.Assembler/Linker/ElfHeaderIdent.cs:14-17 | the object keeps the given array itself |
| `ElfIdent.ElfHeaderIdent.constructor` | src/Zenos.Assembler/Linker/ElfHeaderIdent.cs:25-48 | the new array holds the identification bytes |
| `ElfIdent.ElfHeaderIdent.WriteTo` | src/Zenos.Assembler/Linker/ElfHeaderIdent.cs:50-53 | appends the identification bytes |
| `ElfIdent.ElfHeaderIdent.ReadFrom` | src/Zenos.Assembler/Linker/ElfHeaderIdent.cs:55-59 | reads up to sixteen bytes into a fresh identification and returns the rest |
| `ElfHeaders.Write64` | src/Zenos.Assembler/Linker/ElfHeader64.cs:97-114 | the header after the identification is 48 bytes, making 0x40 in all |
| `ElfHeaders.WriteAddresses64` | src/Zenos.Assembler/Linker/ElfHeader64.cs:99-107 | type, machine, version, entry, offsets and flags take 36 bytes |
| `ElfHeaders.WriteCounts` | src/Zenos.Assembler/Linker/ElfHeader64.cs:108-113 | the six 16-bit size, count and index fields take 12 bytes |
| `ElfHeaders.ReadAddresses64` | src/Zenos.Assembler/Linker/ElfHeader64.cs:122-128 | reading the address block consumes 36 bytes |
| `ElfHeaders.ReadCounts` | src/Zenos.Assembler/Linker/ElfHeader64.cs:130-136 | reading the counts block consumes 12 bytes |
| `ElfHeaders.ReadFrom64` | src/Zenos.Assembler/Linker/ElfHeader64.cs:120-140 | the reader needs 48 bytes and consumes exactly 48 |
| `ElfHeaders.Addresses64RoundTrip` | src/Zenos.Assembler/Linker/ElfHeader64.cs:97-140 | type, machine, version, entry, offsets and flags read back as written |
| `ElfHeaders.CountsRoundTrip` | src/Zenos.Assembler/Linker/ElfHeader64.cs:108-136 | the sizes, counts and string index read back as written |
| `ElfHeaders.Header64RoundTrip` | tests/Zenos.Tests/ElfTests.cs:25-35 | a written 64-bit header reads back as itself, with the string index truncated to 16 bits |
| `ElfHeaders.CountsSizeFields` | src/Zenos.Assembler/Linker/ElfHeader64.cs:108-113 | the size fields hold the values given to them |
| `ElfHeaders.Header64SizeFields` | src/Zenos.Assembler/Linker/ElfHeader64.cs:108-111 | the header size and section entry size fields are 0x40; the program entry size is the one given |
| `ElfHeaders.Write32` | src/Zenos.Assembler/Linker/ElfHeader32.cs:102-118 | the header after the identification is 36 bytes, making 0x34 in all |
| `ElfHeaders.WriteAddresses32` | src/Zenos.Assembler/Linker/ElfHeader32.cs:104-111 | type, machine, version, entry, offsets and flags take 24 bytes |
| `ElfHeaders.ReadFrom32` | src/Zenos.Assembler/Linker/ElfHeader32.cs:124-141 | a reader of the 32-bit layout needs 36 bytes and consumes exactly 36 |
| `ElfHeaders.Addresses32RoundTrip` | src/Zenos.Assembler/Linker/ElfHeader32.cs:102-118 | each 32-bit address field reads back as the low 32 bits of its value |
| `ElfHeaders.Header32RoundTrip` | src/Zenos.Assembler/Linker/ElfHeader32.cs:102-118 | a written 32-bit header reads back with its addresses truncated to 32 bits and its string index to 16 |
| `ElfHeaders.Header32SizeFields` | src/Zenos.Assembler/Linker/ElfHeader32.cs:112-115 | the header size is 0x34, the program entry size is the one given and the section entry size is 0x28 |
| `SectionHeaders.Write64` | src/Zenos.Assembler/Linker/SectionHeaderEntry64.cs:67-79 | an entry is 0x40 bytes |
| `SectionHeaders.WriteFront64` | src/Zenos.Assembler/Linker/SectionHeaderEntry64.cs:69-73 | name, type, flags, address and offset take 32 bytes |
| `SectionHeaders.WriteBack64` | src/Zenos.Assembler/Linker/SectionHeaderEntry64.cs:74-78 | size, link, info, alignment and entry size take 32 bytes |
| `SectionHeaders.ReadFrom64` | src/Zenos.Assembler/Linker/SectionHeaderEntry64.cs:81-95 | the reader needs 0x40 bytes and consumes exactly that many |
| `SectionHeaders.ReadFront64` | src/Zenos.Assembler/Linker/SectionHeaderEntry64.cs:83-87 | reading the first five fields consumes 32 bytes |
| `SectionHeaders.ReadBack64` | src/Zenos.Assembler/Linker/SectionHeaderEntry64.cs:88-92 | reading the last five fields consumes 32 bytes |
| `SectionHeaders.Front64RoundTrip` | src/Zenos.Assembler/Linker/SectionHeaderEntry64.cs:67-95 | name, type, flags, address and offset read back as written |
| `SectionHeaders.Back64RoundTrip` | src/Zenos.Assembler/Linker/SectionHeaderEntry64.cs:67-95 | size, link, info, alignment and entry size read back as written |
| `SectionHeaders.Entry64RoundTrip` | src/Zenos.Assembler/Linker/SectionHeaderEntry64.cs:67-95 | a written entry reads back as itself, whatever follows |
| `SectionHeaders.Table64RoundTrip` | tests/Zenos.Tests/ElfTests.cs:37-61 | in a table of entries, reading at entry k gives entry k and the rest of the table |
| `SectionHeaders.TableSuffix` | tests/Zenos.Tests/ElfTests.cs:37-61 | the bytes from entry k on are the table of the remaining entries |
| `SectionHeaders.Table64` | tests/Zenos.Tests/ElfTests.cs:37-61 | a table is 0x40 bytes per entry |
| `SectionHeaders.AsInt32` | src/Zenos.Assembler/Linker/SectionHeaderEntry32.cs:73 | the cast to int keeps the value modulo 2 to the 32 |
| `SectionHeaders.OffsetCastKeepsBytes` | src/Zenos.Assembler/Linker/SectionHeaderEntry32.cs:73 | the offset written through the int cast has the same bytes as the unsigned offset |
| `SectionHeaders.Write32` | src/Zenos.Assembler/Linker/SectionHeaderEntry32.cs:67-79 | an entry is 0x28 bytes |
| `SectionHeaders.WriteFront32` | src/Zenos.Assembler/Linker/SectionHeaderEntry32.cs:69-73 | name, type, flags, address and offset take 20 bytes |
| `SectionHeaders.WriteBack32` | src/Zenos.Assembler/Linker/SectionHeaderEntry32.cs:74-78 | size, link, info, alignment and entry size take 20 bytes |
| `SectionHeaders.ReadFrom32` | src/Zenos.Assembler/Linker/SectionHeaderEntry32.cs:14 | a reader of the 32-bit layout needs 0x28 bytes and consumes exactly that many |
| `SectionHeaders.Front32RoundTrip` | src/Zenos.Assembler/Linker/SectionHeaderEntry32.cs:69-73 | the first five fields read back as written, the flags truncated to 32 bits |
| `SectionHeaders.Back32RoundTrip` | src/Zenos.Assembler/Linker/SectionHeaderEntry32.cs:74-78 | the last five fields read back as written |
| `SectionHeaders.Entry32RoundTrip` | src/Zenos.Assembler/Linker/SectionHeaderEntry32.cs:67-79 | a written entry reads back as itself, with the flags truncated to 32 bits |
| `SymbolEntries.Info` | src/Zenos.Assembler/Linker/SymbolEntry32.cs:55 | the high nibble is the binding and the low nibble the type |
| `SymbolEntries.InfoNibbles` | src/Zenos.Assembler/Linker/SymbolEntry32.cs:55 | the byte casts and the shift keep exactly those nibbles |
| `SymbolEntries.Other` | src/Zenos.Assembler/Linker/SymbolEntry32.cs:60 | the other byte is the visibility's low two bits |
| `SymbolEntries.Write` | src/Zenos.Assembler/Linker/SymbolEntry32.cs:68-76 | an entry is 0x10 bytes |
| `SymbolEntries.ReadFrom` | src/Zenos.Assembler/Linker/SymbolEntry32.cs:68-76 | a reader of that layout needs sixteen bytes, consumes them and returns nibble-sized binding and type |
| `SymbolEntries.SymbolRoundTrip` | src/Zenos.Assembler/Linker/SymbolEntry32.cs:68-76 | a written entry reads back with each field truncated to its width on disk |
| `SymbolEntries.ExportedWrapsToDefault` | src/Zenos.Assembler/Linker/SymbolEntry32.cs:60 | the visibility mask turns `Exported` into `Default` and keeps `Protected` |
| `SymbolEntries.SymbolEntry32.constructor` | src/Zenos.Assembler/Linker/SymbolEntry32.cs:16-50 | a new entry has every field zero |
| `SymbolEntries.SymbolEntry32.GetEntrySize` | src/Zenos.Assembler/Linker/SymbolEntry32.cs:62 | the size is the length of what `WriteTo` writes |
| `SymbolEntries.SymbolEntry32.WriteTo` | src/Zenos.Assembler/Linker/SymbolEntry32.cs:68-76 | appends the entry's bytes |
| `StringTables.NameBytes` | src/Zenos.Assembler/Linker/Section.cs:52 | each character is one byte of the same value |
| `StringTables.ReadFromOf` | src/Zenos.Assembler/Linker/Section.cs:30-56 | on success the reader stops just after a zero byte |
| `StringTables.ReadFrom` | src/Zenos.Assembler/Linker/Section.cs:30-56 | the byte loop returns what `ReadFromOf` specifies |
| `StringTables.ScanConsumed` | src/Zenos.Assembler/Linker/Section.cs:36-53 | the name scan (`Scan`) makes progress and stops just after a zero byte |
| `StringTables.ScanKeepsNames` | src/Zenos.Assembler/Linker/Section.cs:36-53 | every name collected is non-empty and free of zero bytes |
| `StringTables.ReadNamesAreTableNames` | src/Zenos.Assembler/Linker/Section.cs:30-56 | every name read is non-empty and free of zero bytes |
| `StringTables.ScanName` | src/Zenos.Assembler/Linker/Section.cs:52 | scanning a name's bytes adds them to the builder |
| `StringTables.ScanTerminatedName` | src/Zenos.Assembler/Linker/Section.cs:39-49 | a name followed by a zero byte is added to the list |
| `StringTables.ScanNames` | src/Zenos.Assembler/Linker/Section.cs:36-53 | a run of terminated names followed by an empty one reads back as those names |
| `StringTables.ScanToEnd` | src/Zenos.Assembler/Linker/Section.cs:36-53 | without the final empty name, the scan runs off the end |
| `StringTables.TableRoundTrip` | src/Zenos.Assembler/Linker/Section.cs:30-56 | a table of names reads back as those names and stops after the closing zero |
| `StringTables.UnterminatedTable` | src/Zenos.Assembler/Linker/Section.cs:36-45 | a table without the closing empty name runs past the end of the data |
| `StringTables.SectionNameTable` | tests/Zenos.Tests/ElfTests.cs:63-74 | the four section names read back from their 34-byte table |

## Left out

- Operands.OperandSize.Bits: `OperandSize.cs` is not part of this model. The values 0, 8, 16, 32 and 64 are assumed from the names and from how the emitter and parser use them.
- Text.ParseInteger, Text.TryParse, Text.TryParseHex and Text.IntToString follow the invariant culture only. Culture-dependent signs, digit groups and white space are not modelled.
- Parsing.ParseOf and Parsing.AssemblerParser.Parse take the data-literal parser (`DatasParser`) as a `DataParser` parameter. Nothing ties the bytes of `db`, `dw`, `dd` and `dq` lines to `ParseIntAsData` and `ParseHexAsData`. The parser-combinator library behind it is not part of this model.
- ElfHeaders.Write32 models the `IntPtr` address fields as 64-bit signed integers. It writes their low 32 bits. The platform width of `IntPtr` is not modelled.
- ElfHeaders.Write64 and ElfHeaders.Write32 take the program header entry size as a parameter. `ProgramHeader.cs` is not part of this model.
- SectionHeaders and SymbolEntries: `SectionType` is assumed 32 bits, `SectionAttribute` 64 bits, and `SymbolBinding`, `SymbolType` and `SymbolVisibility` `int`. Their declarations are not part of this model.
- ElfHeaders.ReadFrom32 and SectionHeaders.ReadFrom32 are reference readers of the 32-bit layouts. The source's 32-bit header reader is commented out, and it has no 32-bit section entry reader.
- Assembling.Assembler.ReturnReservationTicket models the release build, where `Debug.Assert` does nothing, so the open-reservation count can go negative. Overflow of that `int` counter is not modelled.
- Assembling.Assembler.EmitShortAt and Assembling.Assembler.EmitIntAt write byte by byte. When the reservation runs past the end, the bytes before the end are written and the method then reports the exception, as `Overwrite` states. The exception itself is a returned flag.
- Assembling.Assembler.AssembleInstruction discards the widened operands the emitter returns. In the source, widening writes into the instruction's shared `Operand[]` array in place (InstructionDefinitions.cs line 84), so later readers of the same tree see the widened operands. Operands are values here, so that aliasing is not captured.
- Ast.Data: `new Data(byte[])` keeps the caller's array, and the model holds its bytes as a value, so later writes by the caller through that array are not seen. (`ElfHeaderIdent(byte[])` does keep the array itself: `ElfIdent.ElfHeaderIdent.FromBytes` ensures it.)
- Bytes are a subset of `int` (0 to 255), not `bv8`. Bit operations are written as arithmetic.
- `EndianAwareBinaryWriter` and `EndianAwareBinaryReader` are modelled as little-endian only. The byte-swap path for a big-endian host or target is left out.
- File and stream I/O (`ParseFile`, writing to a stream) is left out: bytes go to a growable buffer or a sequence.
- `NativeInt`, `PrintInfo`, `GetHashCode`, the method compiler under `Compiler/`, and the unused helpers `InstructionEncoding`, `GetRegisterOperand` and `GetMemoryOperand` are not modelled.
- `ElfHeader32.Ident` is never assigned and never written by the source, so the 32-bit header model has no identification field.
- StringTables.ReadFrom ignores the section's declared size, as the source does. A table that runs off the end of the data is a failure here, where the source throws an end-of-stream exception.
- Operands.ToString: injectivity is proved for registers only. Immediates are covered by examples. Memory and symbol operands print their class names, which are not modelled beyond that.
- Instruction equality is modelled through an explicit identity for the operand array (`InstructionObject`). No heap array is modelled.
