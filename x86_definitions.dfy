/** The instruction data model and its text (src/x86_definitions.rs). Every
    `Display` impl becomes a string-valued function; a formatter error is not
    modelled. */
module Definitions {
  import opened Errors
  import opened Decimal
  import opened Tools

  /** The instruction tags; only `Move` is produced by the decoder. */
  datatype Instructions = Move | Add | Subtract | Compare

  datatype InstructionSizingOptions = Word | Byte

  /** A size keyword and the operand it is written before. */
  datatype InstructionSizing = InstructionSizing(isSource: bool, size: InstructionSizingOptions)

  datatype Register = AL | CL | DL | BL | AH | CH | DH | BH | AX | CX | DX | BX | SP | BP | SI | DI

  /** Rust's `i16`. */
  type i16 = x: int | -0x8000 <= x < 0x8000

  /** A memory operand: the two slots of `registers: [Option<Register>; 2]`
      and a signed offset. */
  datatype Memory = Memory(base0: Option<Register>, base1: Option<Register>, offset: i16)

  /** A 16-bit immediate and the operand-size bit it was decoded with. */
  datatype Immediate = Immediate(value: u16, isWord: bool)

  datatype Reference = Reg(register: Register) | Mem(memory: Memory) | Imm(immediate: Immediate)

  datatype Instruction = Instruction(
    instruction: Instructions,
    source: Reference,
    destination: Reference,
    sizing: Option<InstructionSizing>)

  /** The registers an 8086 address expression may add up. */
  predicate IsBaseRegister(r: Register)
  {
    r == BX || r == BP || r == SI || r == DI
  }

  /** A memory operand as the 8086 can address it: bases drawn from BX, BP,
      SI and DI, the second slot used only after the first, never the same
      register twice. */
  predicate WellFormedMemory(m: Memory)
  {
    (m.base0.Some? ==> IsBaseRegister(m.base0.value)) &&
    (m.base1.Some? ==> m.base0.Some? && IsBaseRegister(m.base1.value) && m.base1 != m.base0)
  }

  predicate IsLowerLetter(c: char)
  {
    'a' <= c <= 'z'
  }

  function InstructionsText(k: Instructions): (s: string)
    ensures |s| == 3 && IsLowerLetter(s[0]) && IsLowerLetter(s[1]) && IsLowerLetter(s[2])
  {
    match k
    case Move => "mov"
    case Add => "add"
    case Subtract => "sub"
    case Compare => "cmp"
  }

  function InstructionSizingText(z: InstructionSizing): (s: string)
    ensures |s| == 4 && s[0] == if z.size == Byte then 'b' else 'w'
  {
    match z.size
    case Byte => "byte"
    case Word => "word"
  }

  function RegisterText(r: Register): (s: string)
    ensures |s| == 2 && IsLowerLetter(s[0]) && IsLowerLetter(s[1])
  {
    match r
    case AL => "al"
    case CL => "cl"
    case DL => "dl"
    case BL => "bl"
    case AH => "ah"
    case CH => "ch"
    case DH => "dh"
    case BH => "bh"
    case AX => "ax"
    case CX => "cx"
    case DX => "dx"
    case BX => "bx"
    case SP => "sp"
    case BP => "bp"
    case SI => "si"
    case DI => "di"
  }

  /** One slot of a memory operand: the register and " + ", or nothing. */
  function BaseText(b: Option<Register>): (s: string)
    ensures |s| == if b.Some? then 5 else 0
  {
    match b
    case None => ""
    case Some(r) => RegisterText(r) + " + "
  }

  /** `[`, each present base followed by ` + `, the signed offset (also when
      zero), `]`. */
  function MemoryText(m: Memory): (s: string)
    ensures 3 <= |s| && s[0] == '[' && s[|s| - 1] == ']'
    ensures m.base0.None? && m.base1.None? ==> s[1..|s| - 1] == IntToString(m.offset)
  {
    "[" + BaseText(m.base0) + BaseText(m.base1) + IntToString(m.offset) + "]"
  }

  /** The unsigned decimal value; the operand-size bit is not written. */
  function ImmediateText(i: Immediate): (s: string)
    ensures 1 <= |s| && AllDigits(s) && DigitsValue(s) == i.value
    ensures s[0] == '0' ==> i.value == 0
  {
    NatToStringRoundTrip(i.value);
    NatToString(i.value)
  }

  /** An operand's kind shows in its first character: a letter for a
      register, `[` for memory, a digit for an immediate. */
  function ReferenceText(r: Reference): (s: string)
    ensures 1 <= |s|
    ensures r.Reg? <==> IsLowerLetter(s[0])
    ensures r.Mem? <==> s[0] == '['
    ensures r.Imm? <==> IsDigit(s[0])
  {
    match r
    case Reg(register) => RegisterText(register)
    case Mem(memory) => MemoryText(memory)
    case Imm(immediate) => ImmediateText(immediate)
  }

  /** The keyword and a space, when `sizing` places one before this operand. */
  function SizingPrefix(sizing: Option<InstructionSizing>, beforeSource: bool): (s: string)
    ensures s == "" <==> sizing.None? || sizing.value.isSource != beforeSource
  {
    if sizing.Some? && sizing.value.isSource == beforeSource then InstructionSizingText(sizing.value) + " "
    else ""
  }

  /** `mnemonic destination, source`, with the size keyword before the operand
      that `sizing` names. */
  function InstructionText(i: Instruction): (s: string)
    ensures 8 <= |s| && InstructionsText(i.instruction) + " " <= s
  {
    InstructionsText(i.instruction) + " "
      + SizingPrefix(i.sizing, false) + ReferenceText(i.destination) + ", "
      + SizingPrefix(i.sizing, true) + ReferenceText(i.source)
  }
}
