/** Reading the listing back. Each renderer of src/x86_definitions.rs has a
    parser here that undoes it, and a lemma that parsing the rendered text
    gives back what was rendered: the text loses nothing but the width bit
    of an immediate, which the renderer does not write. */
module Rendering {
  import opened Errors
  import opened Decimal
  import opened Tools
  import opened Definitions
  import opened Decoder
  import opened Lib

  function ParseMnemonic(t: string): Option<Instructions>
  {
    if t == "mov" then Some(Move)
    else if t == "add" then Some(Add)
    else if t == "sub" then Some(Subtract)
    else if t == "cmp" then Some(Compare)
    else None
  }

  /** The four mnemonics are distinct. */
  lemma MnemonicRoundTrip(k: Instructions)
    ensures ParseMnemonic(InstructionsText(k)) == Some(k)
  {
  }

  function ParseSize(t: string): Option<InstructionSizingOptions>
  {
    if t == "byte" then Some(Byte) else if t == "word" then Some(Word) else None
  }

  lemma SizeRoundTrip(z: InstructionSizing)
    ensures ParseSize(InstructionSizingText(z)) == Some(z.size)
  {
  }

  /** A register name: the letter of a data register followed by `l`, `h`
      or `x`, or one of the four pointer and index names. */
  function ParseRegister(t: string): Option<Register>
  {
    if |t| != 2 then None
    else if t == "sp" then Some(SP)
    else if t == "bp" then Some(BP)
    else if t == "si" then Some(SI)
    else if t == "di" then Some(DI)
    else
      var row := if t[0] == 'a' then 0 else if t[0] == 'c' then 1 else if t[0] == 'd' then 2 else if t[0] == 'b' then 3 else 4;
      if row == 4 then None
      else if t[1] == 'l' then Some([AL, CL, DL, BL][row])
      else if t[1] == 'h' then Some([AH, CH, DH, BH][row])
      else if t[1] == 'x' then Some([AX, CX, DX, BX][row])
      else None
  }

  /** The sixteen register names are distinct and read back. */
  lemma RegisterRoundTrip(r: Register)
    ensures ParseRegister(RegisterText(r)) == Some(r)
  {
  }

  /** The inside of a memory operand: up to two `reg + ` slots, then the
      signed offset. `bases` holds the registers read so far. */
  function ParseBases(inner: string, bases: seq<Register>): Option<Memory>
    requires |bases| <= 2
    decreases |inner|
  {
    if |bases| < 2 && 5 <= |inner| && inner[2..5] == " + " then
      match ParseRegister(inner[..2])
      case None => None
      case Some(r) => ParseBases(inner[5..], bases + [r])
    else
      match ParseInt(inner)
      case None => None
      case Some(v) =>
        if -0x8000 <= v < 0x8000 then
          Some(Memory(if |bases| > 0 then Some(bases[0]) else None, if |bases| > 1 then Some(bases[1]) else None, v))
        else None
  }

  function ParseMemory(t: string): Option<Memory>
  {
    if 2 <= |t| && t[0] == '[' && t[|t| - 1] == ']' then ParseBases(t[1..|t| - 1], []) else None
  }

  /** The slots are filled in order, so the text of a memory operand gives
      it back. */
  lemma MemoryRoundTrip(m: Memory)
    requires m.base1.Some? ==> m.base0.Some?
    ensures ParseMemory(MemoryText(m)) == Some(m)
  {
    var inner := BaseText(m.base0) + BaseText(m.base1) + IntToString(m.offset);
    var t := MemoryText(m);
    assert t == "[" + inner + "]";
    assert t[0] == '[' && t[|t| - 1] == ']' && t[1..|t| - 1] == inner;
    BasesRoundTrip(m);
  }

  /** The inside of the brackets: the slots in order, then the offset. */
  lemma BasesRoundTrip(m: Memory)
    requires m.base1.Some? ==> m.base0.Some?
    ensures ParseBases(BaseText(m.base0) + BaseText(m.base1) + IntToString(m.offset), []) == Some(m)
  {
    match m.base0
    case None =>
      assert BaseText(m.base0) + BaseText(m.base1) + IntToString(m.offset) == IntToString(m.offset);
      OffsetRoundTrip(m.offset, []);
    case Some(r0) =>
      var after0 := BaseText(m.base1) + IntToString(m.offset);
      assert BaseText(m.base0) + BaseText(m.base1) + IntToString(m.offset) == BaseText(Some(r0)) + after0;
      BaseStep(r0, after0, []);
      assert [] + [r0] == [r0];
      match m.base1
      case None =>
        assert after0 == IntToString(m.offset);
        OffsetRoundTrip(m.offset, [r0]);
      case Some(r1) =>
        BaseStep(r1, IntToString(m.offset), [r0]);
        assert [r0] + [r1] == [r0, r1];
        OffsetRoundTrip(m.offset, [r0, r1]);
  }

  /** After the slots, the offset's text reads back as the offset. */
  lemma OffsetRoundTrip(offset: i16, bases: seq<Register>)
    requires |bases| <= 2
    ensures ParseBases(IntToString(offset), bases) ==
      Some(Memory(if |bases| > 0 then Some(bases[0]) else None, if |bases| > 1 then Some(bases[1]) else None, offset))
  {
    IntToStringRoundTrip(offset);
    OffsetIsNotABase(IntToString(offset), bases);
  }

  /** A register slot is read and the rest parsed after it. */
  lemma BaseStep(r: Register, rest: string, bases: seq<Register>)
    requires |bases| < 2
    ensures ParseBases(BaseText(Some(r)) + rest, bases) == ParseBases(rest, bases + [r])
  {
    var inner := BaseText(Some(r)) + rest;
    assert inner[..2] == RegisterText(r) && inner[2..5] == " + " && inner[5..] == rest;
    RegisterRoundTrip(r);
  }

  /** Rendered offsets hold no spaces, so parsing one as the rest of a
      memory operand reads it as the offset. */
  lemma OffsetIsNotABase(digits: string, bases: seq<Register>)
    requires |bases| <= 2 && 1 <= |digits| && forall k :: 0 <= k < |digits| ==> IsNumeral(digits[k])
    ensures ParseBases(digits, bases) ==
      match ParseInt(digits)
      case None => None
      case Some(v) =>
        if -0x8000 <= v < 0x8000 then
          Some(Memory(if |bases| > 0 then Some(bases[0]) else None, if |bases| > 1 then Some(bases[1]) else None, v))
        else None
  {
    if 5 <= |digits| {
      assert IsNumeral(digits[2]);
      assert digits[2..5][0] == digits[2];
    }
  }

  /** Memory operands with the same text are the same operand. */
  lemma MemoryTextInjective(m1: Memory, m2: Memory)
    requires m1.base1.Some? ==> m1.base0.Some?
    requires m2.base1.Some? ==> m2.base0.Some?
    requires MemoryText(m1) == MemoryText(m2)
    ensures m1 == m2
  {
    MemoryRoundTrip(m1);
    MemoryRoundTrip(m2);
  }

  /** A direct address is printed as a signed number: negative exactly when
      the address is 0x8000 or above, and equal to the address modulo
      0x10000. */
  lemma DirectAddressText(v: u16)
    ensures var t := MemoryText(Memory(None, None, AsI16(v)));
      (t[1] == '-' <==> v >= 0x8000) &&
      ParseInt(t[1..|t| - 1]) == Some(AsI16(v) as int) && AsI16(v) % 0x10000 == v
  {
    var offset := AsI16(v);
    var t := MemoryText(Memory(None, None, offset));
    assert t == "[" + IntToString(offset) + "]";
    assert t[1..|t| - 1] == IntToString(offset);
    IntToStringRoundTrip(offset);
  }

  /** The operand as the text shows it: an immediate's width bit is not
      written, so it reads back clear. */
  function Plain(r: Reference): (p: Reference)
    ensures p.Imm? <==> r.Imm?
    ensures r.Imm? ==> p.immediate.value == r.immediate.value && !p.immediate.isWord
    ensures !r.Imm? ==> p == r
  {
    if r.Imm? then Imm(r.immediate.(isWord := false)) else r
  }

  /** The instruction as its text shows it. */
  function Legible(i: Instruction): Instruction
  {
    i.(source := Plain(i.source), destination := Plain(i.destination))
  }

  /** A memory operand whose second slot is used only after the first; the
      decoder builds no other kind (`WellFormedMemory`). */
  predicate SlotsInOrder(r: Reference)
  {
    r.Mem? ==> (r.memory.base1.Some? ==> r.memory.base0.Some?)
  }

  /** An operand: a bracketed memory operand, an unsigned number, or a
      register name. */
  function ParseReference(t: string): Option<Reference>
  {
    if 1 <= |t| && t[0] == '[' then
      match ParseMemory(t)
      case None => None
      case Some(m) => Some(Mem(m))
    else if 1 <= |t| && IsDigit(t[0]) then
      match ParseInt(t)
      case None => None
      case Some(v) => if 0 <= v < 0x10000 then Some(Imm(Immediate(v, false))) else None
    else
      match ParseRegister(t)
      case None => None
      case Some(r) => Some(Reg(r))
  }

  lemma ReferenceRoundTrip(r: Reference)
    requires SlotsInOrder(r)
    ensures ParseReference(ReferenceText(r)) == Some(Plain(r))
  {
    match r
    case Reg(x) =>
      RegisterRoundTrip(x);
    case Mem(m) =>
      MemoryRoundTrip(m);
      assert MemoryText(m)[0] == '[';
    case Imm(i) =>
      var t := ImmediateText(i);
      assert IsDigit(t[0]);
  }

  /** An operand, after the size keyword when there is one. */
  function ParseOperand(t: string): Option<(Option<InstructionSizingOptions>, Reference)>
  {
    if 5 <= |t| && t[4] == ' ' && ParseSize(t[..4]).Some? then
      match ParseReference(t[5..])
      case None => None
      case Some(r) => Some((ParseSize(t[..4]), r))
    else
      match ParseReference(t)
      case None => None
      case Some(r) => Some((None, r))
  }

  /** The text of one operand of an instruction reads back as the keyword
      `sizing` places before it, if any, and the operand. */
  lemma OperandRoundTrip(sizing: Option<InstructionSizing>, beforeSource: bool, r: Reference)
    requires SlotsInOrder(r)
    ensures var keyword := if sizing.Some? && sizing.value.isSource == beforeSource then Some(sizing.value.size) else None;
      ParseOperand(SizingPrefix(sizing, beforeSource) + ReferenceText(r)) == Some((keyword, Plain(r)))
  {
    if sizing.Some? && sizing.value.isSource == beforeSource {
      KeywordOperandRoundTrip(sizing.value, r);
    } else {
      assert SizingPrefix(sizing, beforeSource) + ReferenceText(r) == ReferenceText(r);
      BareOperandRoundTrip(r);
    }
  }

  lemma KeywordOperandRoundTrip(z: InstructionSizing, r: Reference)
    requires SlotsInOrder(r)
    ensures ParseOperand(InstructionSizingText(z) + " " + ReferenceText(r)) == Some((Some(z.size), Plain(r)))
  {
    var t := InstructionSizingText(z) + " " + ReferenceText(r);
    assert t[..4] == InstructionSizingText(z) && t[4] == ' ' && t[5..] == ReferenceText(r);
    SizeRoundTrip(z);
    ReferenceRoundTrip(r);
  }

  /** No operand text starts like a size keyword. */
  lemma BareOperandRoundTrip(r: Reference)
    requires SlotsInOrder(r)
    ensures ParseOperand(ReferenceText(r)) == Some((None, Plain(r)))
  {
    var text := ReferenceText(r);
    ReferenceRoundTrip(r);
    match r
    case Reg(x) =>
    case Mem(m) => assert text[0] == '[';
    case Imm(i) => assert IsDigit(text[0]);
  }

  predicate NoComma(t: string)
  {
    forall j :: 0 <= j < |t| ==> t[j] != ','
  }

  /** The position of the first comma, or the length when there is none. */
  function CommaIndex(t: string): (k: nat)
    ensures k <= |t| && (k < |t| ==> t[k] == ',') && NoComma(t[..k])
  {
    if t == [] || t[0] == ',' then 0
    else
      var k := 1 + CommaIndex(t[1..]);
      assert t[..k] == [t[0]] + t[1..][..k - 1];
      k
  }

  /** Operand texts hold no comma, so the first comma of a line ends its
      destination. */
  lemma OperandHasNoComma(sizing: Option<InstructionSizing>, beforeSource: bool, r: Reference)
    ensures NoComma(SizingPrefix(sizing, beforeSource) + ReferenceText(r))
  {
    var prefix := SizingPrefix(sizing, beforeSource);
    assert NoComma(prefix);
    match r
    case Reg(x) =>
    case Imm(i) =>
    case Mem(m) => MemoryHasNoComma(m);
    NoCommaConcat(prefix, ReferenceText(r));
  }

  lemma MemoryHasNoComma(m: Memory)
    ensures NoComma(MemoryText(m))
  {
    var b0, b1, digits := BaseText(m.base0), BaseText(m.base1), IntToString(m.offset);
    assert NoComma(b0) && NoComma(b1) && NoComma(digits);
    NoCommaConcat("[", b0);
    NoCommaConcat("[" + b0, b1);
    NoCommaConcat("[" + b0 + b1, digits);
    NoCommaConcat("[" + b0 + b1 + digits, "]");
  }

  lemma NoCommaConcat(a: string, b: string)
    requires NoComma(a) && NoComma(b)
    ensures NoComma(a + b)
  {
    forall j | 0 <= j < |a + b|
      ensures (a + b)[j] != ','
    {
      if j >= |a| {
        assert (a + b)[j] == b[j - |a|];
      }
    }
  }

  lemma CommaIndexAfter(a: string, b: string)
    requires NoComma(a) && 0 < |b| && b[0] == ','
    ensures CommaIndex(a + b) == |a|
  {
    assert (a + b)[|a|] == ',';
  }

  /** A line of the listing: the mnemonic, a space, the destination, a
      comma and a space, the source; at most one operand carries a size
      keyword. */
  function ParseInstruction(line: string): Option<Instruction>
  {
    if |line| < 4 || line[3] != ' ' then None
    else
      var rest := line[4..];
      var k := CommaIndex(rest);
      if |rest| <= k + 1 || rest[k + 1] != ' ' then None
      else
        match (ParseMnemonic(line[..3]), ParseOperand(rest[..k]), ParseOperand(rest[k + 2..]))
        case (Some(mnemonic), Some((destinationSize, destination)), Some((sourceSize, source))) =>
          if destinationSize.Some? && sourceSize.Some? then None
          else
            var sizing :=
              if destinationSize.Some? then Some(InstructionSizing(false, destinationSize.value))
              else if sourceSize.Some? then Some(InstructionSizing(true, sourceSize.value))
              else None;
            Some(Instruction(mnemonic, source, destination, sizing))
        case _ => None
  }

  /** A rendered line gives back its instruction: the mnemonic, the
      destination before the source, and the size keyword where `sizing`
      put it. Only the width bit of an immediate is lost. */
  lemma InstructionRoundTrip(i: Instruction)
    requires SlotsInOrder(i.source) && SlotsInOrder(i.destination)
    ensures ParseInstruction(InstructionText(i)) == Some(Legible(i))
  {
    var destinationPrefix, sourcePrefix := SizingPrefix(i.sizing, false), SizingPrefix(i.sizing, true);
    var destination, source := ReferenceText(i.destination), ReferenceText(i.source);
    var mnemonic := InstructionsText(i.instruction);
    var line := InstructionText(i);
    assert line == mnemonic + " " + destinationPrefix + destination + ", " + sourcePrefix + source;
    OperandHasNoComma(i.sizing, false, i.destination);
    LineFields(mnemonic, destinationPrefix, destination, sourcePrefix, source);
    MnemonicRoundTrip(i.instruction);
    OperandRoundTrip(i.sizing, false, i.destination);
    OperandRoundTrip(i.sizing, true, i.source);
    var keywordBefore := i.sizing.Some? && !i.sizing.value.isSource;
    var keywordAfter := i.sizing.Some? && i.sizing.value.isSource;
    LineParses(line, |destinationPrefix + destination|, i.instruction,
      if keywordBefore then Some(i.sizing.value.size) else None, Plain(i.destination),
      if keywordAfter then Some(i.sizing.value.size) else None, Plain(i.source));
  }

  /** How `ParseInstruction` assembles a line whose fields parse: the
      keyword, if either operand has one, tells the side `sizing` names. */
  lemma LineParses(line: string, k: nat, mnemonic: Instructions,
                   destinationSize: Option<InstructionSizingOptions>, destination: Reference,
                   sourceSize: Option<InstructionSizingOptions>, source: Reference)
    requires 4 <= |line| && line[3] == ' ' && CommaIndex(line[4..]) == k
    requires k + 1 < |line[4..]| && line[4..][k + 1] == ' '
    requires ParseMnemonic(line[..3]) == Some(mnemonic)
    requires ParseOperand(line[4..][..k]) == Some((destinationSize, destination))
    requires ParseOperand(line[4..][k + 2..]) == Some((sourceSize, source))
    requires destinationSize.None? || sourceSize.None?
    ensures ParseInstruction(line) == Some(Instruction(mnemonic, source, destination,
      if destinationSize.Some? then Some(InstructionSizing(false, destinationSize.value))
      else if sourceSize.Some? then Some(InstructionSizing(true, sourceSize.value))
      else None))
  {
  }

  /** Where the fields of a line are, given that the destination holds no
      comma. */
  lemma LineFields(mnemonic: string, destinationPrefix: string, destination: string, sourcePrefix: string, source: string)
    requires |mnemonic| == 3 && NoComma(destinationPrefix + destination)
    ensures var line := mnemonic + " " + destinationPrefix + destination + ", " + sourcePrefix + source;
      var rest, k := line[4..], |destinationPrefix + destination|;
      line[..3] == mnemonic && line[3] == ' ' && CommaIndex(rest) == k && k + 1 < |rest| && rest[k + 1] == ' ' &&
      rest[..k] == destinationPrefix + destination && rest[k + 2..] == sourcePrefix + source
  {
    var line := mnemonic + " " + destinationPrefix + destination + ", " + sourcePrefix + source;
    var first, second := destinationPrefix + destination, sourcePrefix + source;
    assert line[4..] == first + (", " + second);
    CommaIndexAfter(first, ", " + second);
  }

  /** Every line after the header reads back as the instruction decoded at
      that place, in order; only the width bits of immediates are lost. */
  lemma ListingReadsBack(s: seq<bv8>, sizing: Option<InstructionSizing>)
    ensures var decoded, lines := DecodeFrom(s, 0, sizing).instructions, Listing(s, sizing);
      |lines| == |decoded| + 1 && lines[0] == "bits 16" &&
      forall k :: 0 <= k < |decoded| ==> ParseInstruction(lines[k + 1]) == Some(Legible(decoded[k]))
  {
    var decoded := DecodeFrom(s, 0, sizing).instructions;
    DecodedInstructionsWellFormed(s, 0, sizing);
    HeaderAndLinesReadBack(decoded, Listing(s, sizing));
  }

  /** The header followed by the lines of well-formed instructions reads
      back line by line. */
  lemma HeaderAndLinesReadBack(instructions: seq<Instruction>, lines: seq<string>)
    requires forall k :: 0 <= k < |instructions| ==> WellFormedInstruction(instructions[k])
    requires lines == ["bits 16"] + RenderLines(instructions)
    ensures |lines| == |instructions| + 1 && lines[0] == "bits 16"
    ensures forall k :: 0 <= k < |instructions| ==> ParseInstruction(lines[k + 1]) == Some(Legible(instructions[k]))
  {
    forall k | 0 <= k < |instructions|
      ensures ParseInstruction(lines[k + 1]) == Some(Legible(instructions[k]))
    {
      ListedLineReadsBack(instructions, lines, k);
    }
  }

  lemma ListedLineReadsBack(instructions: seq<Instruction>, lines: seq<string>, k: nat)
    requires k < |instructions| && WellFormedInstruction(instructions[k])
    requires lines == ["bits 16"] + RenderLines(instructions)
    ensures ParseInstruction(lines[k + 1]) == Some(Legible(instructions[k]))
  {
    assert lines[k + 1] == RenderLines(instructions)[k];
    LineReadsBack(instructions, k);
  }

  lemma LineReadsBack(instructions: seq<Instruction>, k: nat)
    requires k < |instructions| && WellFormedInstruction(instructions[k])
    ensures ParseInstruction(RenderLines(instructions)[k]) == Some(Legible(instructions[k]))
  {
    RenderLinesAt(instructions, k);
    InstructionRoundTrip(instructions[k]);
  }
}
