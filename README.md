# 8086 `mov` disassembler, modelled in Dafny

The program reads 8086 machine code and writes an assembly listing. The
listing starts with `bits 16` and then has one line per decoded `mov`
instruction, in nasm's syntax. There is one exception. An immediate moved into
memory (opcodes 0xC6 and 0xC7) gets a `byte`/`word` keyword only when the
caller passes a `sizing` that places one, so without it the line gives no
operand size. Four `mov` encodings are decoded:
- register/memory to or from a register (opcodes 0x88-0x8B);
- an immediate to a register or memory (0xC6, 0xC7);
- an immediate to a register (0xB0-0xBF);
- the accumulator to or from a direct address (0xA0-0xA3).

The model follows the source file by file:

| file | module | what it holds |
|---|---|---|
| `src/tools.rs` | `Tools` (tools.dfy) | The byte cursor. `ByteCursor` is a class whose `pos` the reading methods advance. `GetU8` and `GetU16` are proved equal to a function of (bytes, position) that returns a `Step`: the outcome and where the cursor stands afterwards. `Next` states its result directly. |
| `src/x86_decoder.rs` | `Decoder` (x86_decoder.dfy) | The register and address-expression tables, and the four extraction routines. Each routine is a method on the cursor, proved equal to a stream function. The operands each routine builds are stated in a lemma beside it. |
| `src/lib.rs` | `Lib` (lib.dfy) | `extract_instruction`: the opcode dispatcher, as a method and as `InstructionAt`. `decode_instructions`: a loop proved to produce `Listing` and to stop with the failure `DecodeFrom` names. |
| `src/x86_definitions.rs` | `Definitions` (x86_definitions.dfy) | The data types and their `Display` impls, as string-valued functions. |
| (no file) | `Decimal` (decimal.dfy) | Rust's `to_string` for the `u16` and `i16` values, with a parser that undoes it. |
| (no file) | `Rendering` (rendering.dfy) | Parsers for each rendered piece, and the proof that every line of a listing reads back as the instruction it came from. |
| (no file) | `RenderedExamples`, `Scenarios` (scenarios.dfy) | Five whole-input examples. |

Modelling decisions:
- **Bytes.** Bytes are `bv8`, so the source's masks and shifts are written as they are.
- **`u16` and `i16`.** These are integer subtypes. `get_u16` keeps its 16-bit shift-and-add with explicit wrap-around. `as i16` and `(b as i8).into()` are written out as two's-complement reinterpretation and sign extension.
- **Output and standard error.** The output file becomes the returned `seq<string>`. The message printed to standard error becomes the returned `Option<Failed>`.
- **Inconsistent types.** The source's types do not agree with each other, and the model reconciles them:
  - An instruction is `Instruction(kind, source, destination, sizing)`, as `src/x86_definitions.rs` declares it. The decoder's `Instructions::Move(MoveInstruction { .. })` is that record with kind `Move`.
  - An immediate carries the `is_word_encoding` bit the decoder stores.
  - A failure carries the opcode byte and the message that `src/tools.rs` and `src/lib.rs` build. `src/errors.rs` declares only the byte.
- **`sizing`.** The source never sets `sizing`: the decoder builds `MoveInstruction { source, destination }` without one (`src/x86_decoder.rs:120-123`, `193-196`, `228-231`, `264-267`). So it is a parameter of the decode that every built instruction carries.
- **Immediates.** An immediate renders as its unsigned value alone, as `src/x86_definitions.rs:179-184` does. A `byte`/`word` keyword appears only where `sizing` places one. So `C6 06 00 00 07` lists as `mov [0], 7`, and as `mov byte [0], 7` only when the caller passes that sizing.

## Model

| member | source | states |
|---|---|---|
| Tools.ReadU8 | src/tools.rs:3-17 | Succeeds exactly when a byte remains. It then returns that byte and consumes it. Otherwise it fails with the opcode byte and the given message, consuming nothing. |
| Tools.ReadU16 | src/tools.rs:19-27 | Succeeds exactly when two bytes remain. It then consumes both and returns lo + 256·hi (little-endian). Otherwise it fails with the opcode byte and message, and the stream is exhausted. |
| Tools.JoinU16 | src/tools.rs:24-25 | The 16-bit `(hi << 8) + lo`, with wrap-around, equals lo + 256·hi: the add never overflows. |
| Tools.ReadU16UnitTests | src/tools.rs:33-47 | `0C 03` reads as 0x030C and `87 13` as 0x1387. |
| Tools.ReadU8Extends | src/tools.rs:3-17 | A byte read that succeeds gives the same result on any longer stream. |
| Tools.ReadU16Extends | src/tools.rs:19-27 | A word read that succeeds gives the same result on any longer stream. |
| Tools.ByteCursor.Next | src/tools.rs:8 | `Iterator::next`: the byte under the cursor, consumed, or `None` at the end. |
| Tools.ByteCursor.GetU8 | src/tools.rs:3-17 | The cursor's result and new position are those `ReadU8` gives at the old position. |
| Tools.ByteCursor.GetU16 | src/tools.rs:19-27 | The cursor's result and new position are those `ReadU16` gives at the old position. |
| Decimal.NatToString | src/x86_definitions.rs:181 | `to_string` of an unsigned value: at least one character, all digits, with no leading zero except for 0 itself. |
| Decimal.IntToString | src/x86_definitions.rs:120 | `to_string` of a signed offset: digits and a sign, starting with '-' exactly when the offset is negative. There is no leading zero: a text starting with `0` is the offset 0, and the digit after a '-' is never `0`. |
| Decimal.NatToStringRoundTrip | src/x86_definitions.rs:181 | The decimal text of a natural number, read back as digits, is that number. |
| Decimal.IntToStringRoundTrip | src/x86_definitions.rs:120 | The text of a signed offset parses back to the offset. The parser accepts only canonical numerals (no padded digits, no `-0`), so the text is the canonical one. |
| Decimal.IntToStringInjective | src/x86_definitions.rs:120 | Distinct offsets are written differently. |
| Decimal.ParseIntRefusesLeadingZeros | src/x86_definitions.rs:120 | Examples of the parser that undoes `to_string`: it refuses `0300`, `-0128` and `-0`, and reads `0` and `-128` back as 0 and -128. |
| Definitions.InstructionsText | src/x86_definitions.rs:8-21 | Each mnemonic is three lower-case letters. |
| Definitions.InstructionSizingText | src/x86_definitions.rs:69-78 | The keyword is four letters and starts with `b` for byte and `w` for word. |
| Definitions.RegisterText | src/x86_definitions.rs:148-173 | Each register name is two lower-case letters. |
| Definitions.ImmediateText | src/x86_definitions.rs:179-184 | The immediate is written as plain decimal digits whose value is the immediate, with no leading zero: a text starting with `0` is the value 0. |
| Definitions.BaseText | src/x86_definitions.rs:105-118 | A present base is written as its name and ` + ` (five characters). An absent base writes nothing. |
| Definitions.MemoryText | src/x86_definitions.rs:101-126 | Memory is written between brackets. With no bases, the inside is exactly the signed offset. |
| Definitions.ReferenceText | src/x86_definitions.rs:86-94 | An operand's kind shows in its first character: a letter for a register, `[` for memory, a digit for an immediate. |
| Definitions.InstructionText | src/x86_definitions.rs:30-57 | A line begins with the three-letter mnemonic and a space and is at least eight characters long. The full reading is `Rendering.InstructionRoundTrip`. |
| Definitions.SizingPrefix | src/x86_definitions.rs:34-41 | The keyword and a space are written before an operand exactly when `sizing` is present and names that side. |
| Decoder.GetStandardRegisterEncoding | src/x86_decoder.rs:7-37 | The register picked has the 3-bit code `bits` and is a word register exactly when the operand-size bit is set. |
| Decoder.RegisterTablesInjective | src/x86_decoder.rs:9-28 | The byte and word tables are injective and share no register: the register determines the field and the size bit. |
| Decoder.GetExpressionRegisterEncoding | src/x86_decoder.rs:39-56 | A memory operand with the given offset and addressable bases. Bit 2 clear gives BX or BP plus SI or DI. Bit 2 set gives SI, DI, BP or BX alone. |
| Decoder.Mode | src/x86_decoder.rs:67 | The mode field is below 4. |
| Decoder.RegBits | src/x86_decoder.rs:64 | The reg field is below 8, so the register-table index is in bounds. |
| Decoder.RmBits | src/x86_decoder.rs:65 | The r/m field is below 8, so both table indexes are in bounds. |
| Decoder.ModRegRmPartition | src/x86_decoder.rs:64-67 | The mode, reg and r/m fields together rebuild the byte. |
| Decoder.AsI16 | src/x86_decoder.rs:77-81 | `u16 as i16` gives a value congruent to the input modulo 2^16, negative exactly when the input is at least 0x8000. |
| Decoder.SignExtend | src/x86_decoder.rs:94-99 | `(b as i8).into()` gives a value in [-128, 128) congruent to the byte modulo 256. |
| Decoder.ResolveRm | src/x86_decoder.rs:72-110 | The r/m step consumes 0, 1 or 2 displacement bytes by mode. It fails exactly when they are missing, naming the opcode byte. |
| Decoder.ResolveRmOperand | src/x86_decoder.rs:72-110 | Mode 3 gives the register-table entry for r/m. Every other mode gives an addressable memory operand. Mode 0 with r/m 6 is the little-endian direct address with no bases. Modes 0, 1 and 2 otherwise take the expression-table row for r/m, with offset zero, the sign-extended byte or the 16-bit displacement. |
| Decoder.ReadImmediate | src/x86_decoder.rs:173-191 | Reads one immediate byte, or two when the size bit is set, little-endian. It keeps the size bit and fails exactly when the bytes are missing. |
| Decoder.RegisterOrMemoryToOrFromRegister | src/x86_decoder.rs:58-124 | Consumes the second byte plus its displacement, and fails exactly when they are missing. |
| Decoder.RegisterOrMemoryOperands | src/x86_decoder.rs:58-124 | A `mov` between the reg-field register and the r/m operand. The r/m operand is exactly the one `ResolveRm` reads after the second byte. The direction bit makes the register the destination. Both operands are sized by bit 0. |
| Decoder.ImmediateToRegisterOrMemory | src/x86_decoder.rs:126-197 | Consumes the second byte, its displacement and a 1- or 2-byte immediate (by bit 0), and fails exactly when they are missing. |
| Decoder.ImmediateToRegisterOrMemoryOperands | src/x86_decoder.rs:126-197 | The source is the immediate read after the displacement, with its width following bit 0. The destination is exactly the r/m operand `ResolveRm` reads after the second byte. |
| Decoder.ImmediateToRegister | src/x86_decoder.rs:199-232 | Consumes a 1- or 2-byte immediate by bit 3, and fails exactly when it is missing. |
| Decoder.ImmediateToRegisterOperands | src/x86_decoder.rs:199-232 | The destination is the register with code `byte1 & 7`, a word register exactly when bit 3 is set. The source is the immediate of that width. |
| Decoder.AccumulatorToMemoryOrMemoryToAccumulator | src/x86_decoder.rs:234-268 | Always consumes a 2-byte direct address, and fails exactly when it is missing. |
| Decoder.AccumulatorOperands | src/x86_decoder.rs:234-268 | A `mov` between AL/AX (bit 0) and the direct address. Bit 1 set stores the accumulator; bit 1 clear loads it. |
| Decoder.DirectionBitSwaps | src/x86_decoder.rs:111-118 | Flipping the direction bit swaps source and destination and changes nothing else. |
| Decoder.ImmediateIgnoresRegBits | src/x86_decoder.rs:130-133 | The reg field of the second byte of 0xC6/0xC7 is never read: any value there decodes alike. |
| Decoder.ImmediateToRegisterOrMemoryReadsFields | src/x86_decoder.rs:126-197 | That form depends on the second byte only through its mode and r/m fields. |
| Decoder.ResolveRmReadsFields | src/x86_decoder.rs:72-110 | The r/m step depends on the second byte only through mode and r/m, and on the stream only from its position on. |
| Decoder.ReadImmediateReadsFrom | src/x86_decoder.rs:173-187 | The immediate depends on the stream only from its position on. |
| Decoder.ResolveRmExtends | src/x86_decoder.rs:72-110 | A successful r/m step decodes alike on any longer stream. |
| Decoder.ReadImmediateExtends | src/x86_decoder.rs:173-187 | A successful immediate read decodes alike on any longer stream. |
| Decoder.RegisterOrMemoryExtends | src/x86_decoder.rs:58-124 | A successful decode of this form is unchanged by bytes appended after it. |
| Decoder.ImmediateToRegisterOrMemoryExtends | src/x86_decoder.rs:126-197 | A successful decode of this form is unchanged by bytes appended after it. |
| Decoder.ImmediateToRegisterExtends | src/x86_decoder.rs:199-232 | A successful decode of this form is unchanged by bytes appended after it. |
| Decoder.AccumulatorExtends | src/x86_decoder.rs:234-268 | A successful decode of this form is unchanged by bytes appended after it. |
| Decoder.DecodeRm | src/x86_decoder.rs:72-110 | On the cursor, it gives the result and position of `ResolveRm`. |
| Decoder.GetImmediate | src/x86_decoder.rs:173-191 | On the cursor, it gives the result and position of `ReadImmediate`. |
| Decoder.ExtractRegisterOrMemoryToOrFromRegister | src/x86_decoder.rs:58-124 | On the cursor, it gives the result and position of the stream function. |
| Decoder.ExtractImmediateToRegisterOrMemory | src/x86_decoder.rs:126-197 | On the cursor, it gives the result and position of the stream function. |
| Decoder.ExtractImmediateToRegister | src/x86_decoder.rs:199-232 | On the cursor, it gives the result and position of the stream function. |
| Decoder.ExtractAccumulatorToMemoryOrMemoryToAccumulator | src/x86_decoder.rs:234-268 | On the cursor, it gives the result and position of the stream function. |
| Lib.OpcodePatternsDisjoint | src/lib.rs:45-56 | No byte matches two of the four mask tests, and a byte matches one exactly when it is in the four opcode ranges. |
| Lib.InstructionAt | src/lib.rs:37-62 | At the end of input the result is `Ok(None)`, with nothing consumed. A decoded instruction takes 2 to 6 bytes. A failure names the opcode byte. |
| Lib.DispatchByOpcodeRange | src/lib.rs:45-61 | Each opcode range goes to its routine. A byte outside them fails at once, naming itself and consuming only itself. |
| Lib.InstructionAtWellFormed | src/lib.rs:37-62 | Every decoded instruction has addressable memory operands. |
| Lib.InstructionAtExtends | src/lib.rs:37-62 | A successful decode is unchanged by bytes appended after it. |
| Lib.DecodeFrom | src/lib.rs:19-34 | The loop emits at most one instruction per two bytes. When it ends without failure, it has used at most six bytes per instruction. |
| Lib.DecodeStep | src/lib.rs:19-34 | One turn of the loop: a decoded instruction is emitted and the loop goes on after it. A failure stops the loop with no further output. The end of input stops it cleanly. |
| Lib.DecodedInstructionsWellFormed | src/lib.rs:19-34 | Every instruction the loop emits has addressable memory operands. |
| Lib.DecodeExtends | src/lib.rs:19-34 | Decoding a continuation of a clean stream gives the stream's instructions first, then what follows. No instruction straddles the join. |
| Lib.RenderLines | src/lib.rs:28-32 | One line per instruction, in order. |
| Lib.RenderLinesAt | src/lib.rs:28-32 | Line k is the text of instruction k. |
| Lib.RenderLinesAppend | src/lib.rs:28-32 | The lines of two runs of instructions, one after the other, are the lines of the first run followed by those of the second. |
| Lib.Listing | src/lib.rs:17-32 | The output file: `bits 16` first, then one line per decoded instruction. |
| Lib.EmptyListing | src/lib.rs:17 | An empty input lists only `bits 16`, without failure. |
| Lib.ListingAppend | src/lib.rs:14-35 | Appending bytes to a cleanly decoding input only appends lines to its listing. |
| Lib.UnknownOpcodeStops | src/lib.rs:20-26 | An unknown byte ends the listing where it stands, and the failure names it. Nothing after it is decoded. |
| Lib.SingleInstructionListing | src/lib.rs:14-35 | An input that is exactly one instruction lists as the header and that instruction's line. |
| Lib.ExtractInstruction | src/lib.rs:37-62 | On the cursor, it gives the result and position of `InstructionAt`. |
| Lib.DecodeInstructions | src/lib.rs:14-35 | The lines written are `bits 16` followed by one line per decoded instruction (`Listing`). The error is the failure that stopped the decode, if any. |
| Scenarios.RegisterToRegister | src/x86_decoder.rs:58-124 | `89 D9` lists as `mov cx, bx`. |
| Scenarios.ImmediateToByteRegister | src/x86_decoder.rs:199-232 | `B0 05` lists as `mov al, 5`. |
| Scenarios.ImmediateToDirectAddress | src/x86_decoder.rs:126-197 | `C6 06 00 00 07` lists as `mov [0], 7`, or as `mov byte [0], 7` when sizing asks for a destination keyword. |
| Scenarios.UnknownOpcode | src/lib.rs:58-61 | `FF` lists only the header and fails naming 0xFF. |
| Scenarios.MemoryToRegister | src/x86_decoder.rs:89-91 | `8B 00` lists as `mov ax, [bx + si + 0]`. |
| Rendering.MnemonicRoundTrip | src/x86_definitions.rs:8-21 | The four mnemonics are distinct and read back. |
| Rendering.SizeRoundTrip | src/x86_definitions.rs:69-78 | `byte` and `word` read back as their size. |
| Rendering.RegisterRoundTrip | src/x86_definitions.rs:148-173 | The sixteen register names are distinct and read back. |
| Rendering.MemoryRoundTrip | src/x86_definitions.rs:101-126 | A memory operand's text, with its present bases each followed by ` + ` and the offset always printed, parses back to the operand. |
| Rendering.MemoryTextInjective | src/x86_definitions.rs:101-126 | Two memory operands with the same text are equal. |
| Rendering.DirectAddressText | src/x86_decoder.rs:238-247 | A direct address prints as `[-…]` exactly when it is 0x8000 or above. The printed number is congruent to the address modulo 2^16. |
| Rendering.ReferenceRoundTrip | src/x86_definitions.rs:86-94 | An operand's text parses back to the operand. An immediate keeps its value. |
| Rendering.OperandRoundTrip | src/x86_definitions.rs:30-57 | An operand with its sizing keyword reads back as that keyword and operand. |
| Rendering.OperandHasNoComma | src/x86_definitions.rs:42-43 | No operand text contains a comma, so the first comma on a line ends the destination. |
| Rendering.InstructionRoundTrip | src/x86_definitions.rs:30-57 | A line parses back to its instruction: the mnemonic, the destination before the source, and the keyword on the side `sizing` names. Only the immediate's width bit is lost. |
| Rendering.ListingReadsBack | src/lib.rs:14-35 | Line k+1 of a listing parses back to the k-th decoded instruction. |

## Left out

- `src/main.rs`: file reading and the command line are not modelled. The decode takes the bytes as a sequence and returns the lines.
- `tests/test.rs`: these tests assemble with nasm, decode and compare binaries. External tools are not modelled.
- Formatter errors and the `unwrap()` on `writeln!`: writing is modelled as appending a line, which cannot fail.
- `eprintln!` of the failure: the failure is returned instead of printed. Its `Display` text (`src/errors.rs:10-14`) is not modelled.
- Decoder failure messages: the failures carry the source's messages, but only `Tools.ReadU8`, `Tools.ReadU16` and the unknown-opcode case state them. The other contracts state only the opcode byte.
- `sizing`: no rule sets it, since none exists in the source. It is a caller-supplied parameter of the decode.
- Rendering.InstructionRoundTrip: this round trip is up to the immediate's width bit. The source's renderer does not write that bit, so no parser can recover it.
- Rendering.MemoryRoundTrip: this is stated for memory operands whose second slot is used only after the first, which every decoded operand satisfies. Other operands print ambiguously.
- `Lib.DecodeExtends` covers bytes appended after a clean prefix. Decoding a stream at a shifted position, with bytes inserted before it, is not stated.
