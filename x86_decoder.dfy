/** The addressing-mode resolver and the four `mov` extraction routines
    (src/x86_decoder.rs). Each routine reads from the byte cursor; it is a
    method on a `ByteCursor`, proved equal to a function of the bytes and the
    start position, and the properties of the routine are proved about that
    function. The mod/rm chain, written out twice in the source (lines 72-110
    and 138-171), and the immediate read (lines 174-187 and 209-222) are each
    defined once here. */
module Decoder {
  import opened Errors
  import opened Tools
  import opened Definitions

  // ---------------------------------------------------------------------------
  // Register and expression tables

  const ByteDataRegisters: seq<Register> := [AL, CL, DL, BL, AH, CH, DH, BH]
  const WordDataRegisters: seq<Register> := [AX, CX, DX, BX, SP, BP, SI, DI]

  /** The 3-bit code of a register in the 8086 REG field table. */
  function RegisterCode(r: Register): bv8
  {
    match r
    case AL => 0 case CL => 1 case DL => 2 case BL => 3
    case AH => 4 case CH => 5 case DH => 6 case BH => 7
    case AX => 0 case CX => 1 case DX => 2 case BX => 3
    case SP => 4 case BP => 5 case SI => 6 case DI => 7
  }

  predicate IsWordRegister(r: Register)
  {
    r in {AX, CX, DX, BX, SP, BP, SI, DI}
  }

  /** `get_standard_register_encoding`: the register a 3-bit field names under
      the operand-size bit. The array index is in bounds because every caller
      masks the field to three bits. */
  function GetStandardRegisterEncoding(bits: bv8, isWordEncoding: bool): (r: Reference)
    requires bits < 8
    ensures r.Reg?
    ensures RegisterCode(r.register) == bits && IsWordRegister(r.register) == isWordEncoding
  {
    var i := bits as int;
    var register := if isWordEncoding then WordDataRegisters[i] else ByteDataRegisters[i];
    assert register == WordDataRegisters[i] || register == ByteDataRegisters[i];
    Reg(register)
  }

  /** The two tables are injective and disjoint: a register determines the
      field value and the operand-size bit that produce it. */
  lemma RegisterTablesInjective(bits1: bv8, isWord1: bool, bits2: bv8, isWord2: bool)
    requires bits1 < 8 && bits2 < 8
    requires GetStandardRegisterEncoding(bits1, isWord1) == GetStandardRegisterEncoding(bits2, isWord2)
    ensures bits1 == bits2 && isWord1 == isWord2
  {
  }

  const ExpressionRegisters: seq<(Option<Register>, Option<Register>)> := [
    (Some(BX), Some(SI)),
    (Some(BX), Some(DI)),
    (Some(BP), Some(SI)),
    (Some(BP), Some(DI)),
    (Some(SI), None),
    (Some(DI), None),
    (Some(BP), None),
    (Some(BX), None)
  ]

  /** `get_expression_register_encoding`: the address expression an r/m field
      names, with the given offset. The table follows a bit pattern: with bit
      2 clear it adds BX or BP (bit 1) to SI or DI (bit 0); with bit 2 set it
      uses SI, DI, BP or BX alone (bits 1 and 0). */
  function GetExpressionRegisterEncoding(bits: bv8, offset: i16): (r: Reference)
    requires bits < 8
    ensures r.Mem? && r.memory.offset == offset && WellFormedMemory(r.memory)
    ensures bits & 4 == 0 ==>
      r.memory.base0 == Some(if bits & 2 == 0 then BX else BP) &&
      r.memory.base1 == Some(if bits & 1 == 0 then SI else DI)
    ensures bits & 4 != 0 ==>
      r.memory.base0 == Some(if bits & 2 == 0 then (if bits & 1 == 0 then SI else DI)
                             else (if bits & 1 == 0 then BP else BX)) &&
      r.memory.base1 == None
  {
    var i := bits as int;
    var registers := ExpressionRegisters[i];
    assert i == 0 || i == 1 || i == 2 || i == 3 || i == 4 || i == 5 || i == 6 || i == 7;
    Mem(Memory(registers.0, registers.1, offset))
  }

  // ---------------------------------------------------------------------------
  // Fields of the second byte, and the casts of the source

  /** `byte2 >> 6`: the addressing mode. */
  function Mode(byte2: bv8): (m: bv8)
    ensures m < 4
  {
    byte2 >> 6
  }

  /** `byte2 >> 3 & 0x07`: the register field. */
  function RegBits(byte2: bv8): (b: bv8)
    ensures b < 8
  {
    (byte2 >> 3) & 0x07
  }

  /** `byte2 & 0x07`: the register-or-memory field. */
  function RmBits(byte2: bv8): (b: bv8)
    ensures b < 8
  {
    byte2 & 0x07
  }

  /** The three fields split the byte: nothing is lost or read twice. */
  lemma ModRegRmPartition(byte2: bv8)
    ensures byte2 == (Mode(byte2) << 6) | (RegBits(byte2) << 3) | RmBits(byte2)
  {
  }

  /** `u16 as i16`: the same 16 bits read in two's complement. */
  function AsI16(v: u16): (r: i16)
    ensures r % 0x10000 == v
    ensures r < 0 <==> v >= 0x8000
  {
    if v < 0x8000 then v else v - 0x10000
  }

  /** `(byte as i8).into()`: a byte sign-extended to an `i16`. */
  function SignExtend(b: bv8): (r: i16)
    ensures -128 <= r < 128 && r % 256 == b as int
  {
    if b < 0x80 then b as int else b as int - 0x100
  }

  /** How many displacement bytes follow the second byte, by the 8086 table of
      MOD values: one for MOD 01, two for MOD 10 and for direct addressing
      (MOD 00 with R/M 110), none otherwise. */
  function DisplacementLength(byte2: bv8): nat
  {
    var mode, rm := Mode(byte2), RmBits(byte2);
    if mode == 1 then 1 else if mode == 2 || (mode == 0 && rm == 6) then 2 else 0
  }

  /** How many bytes an immediate takes under the operand-size bit. */
  function ImmediateLength(isWordEncoding: bool): nat
  {
    if isWordEncoding then 2 else 1
  }

  // ---------------------------------------------------------------------------
  // The shared steps of the routines, as functions of the stream

  /** The r/m operand of the second byte `byte2`, reading the displacement
      that starts at `pos` (x86_decoder.rs:72-110, 138-171). How many bytes
      it takes and when it fails; the operand itself is described by
      `ResolveRmOperand`. */
  function ResolveRm(s: seq<bv8>, pos: nat, byte1: bv8, byte2: bv8, isWordEncoding: bool): (st: Step<Reference>)
    requires pos <= |s|
    ensures st.result.Ok? <==> pos + DisplacementLength(byte2) <= |s|
    ensures st.result.Ok? ==> st.next == pos + DisplacementLength(byte2)
    ensures st.result.Err? ==> st.result.error.byte1 == byte1 && st.next == |s|
  {
    var mode, rm := Mode(byte2), RmBits(byte2);
    if mode == 3 then
      Step(Ok(GetStandardRegisterEncoding(rm, isWordEncoding)), pos)
    else if mode == 0 && rm == 6 then
      var address := ReadU16(s, pos, byte1, "Missing bytes for direct address");
      if address.result.Err? then address.PropagateFailure()
      else Step(Ok(Mem(Memory(None, None, AsI16(address.result.value)))), address.next)
    else if mode == 0 then
      Step(Ok(GetExpressionRegisterEncoding(rm, 0)), pos)
    else if mode == 1 then
      var offset := ReadU8(s, pos, byte1, "Missing byte for u8 offset!");
      if offset.result.Err? then offset.PropagateFailure()
      else Step(Ok(GetExpressionRegisterEncoding(rm, SignExtend(offset.result.value))), offset.next)
    else
      var offset := ReadU16(s, pos, byte1, "Missing bytes for u16 offset!");
      if offset.result.Err? then offset.PropagateFailure()
      else Step(Ok(GetExpressionRegisterEncoding(rm, AsI16(offset.result.value))), offset.next)
  }

  /** The operand by addressing mode: a register exactly in mode 3; otherwise
      an addressable memory operand. Mode 0 with r/m 6 is the 16-bit direct
      address without bases; every other memory mode takes the bases of the
      expression-table row for r/m, with offset zero, the sign-extended byte
      or the 16-bit displacement. */
  lemma ResolveRmOperand(s: seq<bv8>, pos: nat, byte1: bv8, byte2: bv8, isWordEncoding: bool)
    requires pos <= |s|
    ensures var st := ResolveRm(s, pos, byte1, byte2, isWordEncoding);
      st.result.Ok? ==>
        var v := st.result.value;
        (v.Reg? <==> Mode(byte2) == 3) &&
        (Mode(byte2) == 3 ==> v == GetStandardRegisterEncoding(RmBits(byte2), isWordEncoding)) &&
        (Mode(byte2) != 3 ==> v.Mem? && WellFormedMemory(v.memory)) &&
        (Mode(byte2) == 0 && RmBits(byte2) == 6 ==>
          v.memory.base0.None? && v.memory.base1.None? &&
          v.memory.offset % 0x10000 == LittleEndian(s[pos], s[pos + 1])) &&
        (Mode(byte2) == 0 && RmBits(byte2) != 6 ==> v == GetExpressionRegisterEncoding(RmBits(byte2), 0)) &&
        ((Mode(byte2) == 1 || Mode(byte2) == 2) ==>
          v == GetExpressionRegisterEncoding(RmBits(byte2), v.memory.offset)) &&
        (Mode(byte2) == 1 ==>
          v.memory.base0.Some? && -128 <= v.memory.offset < 128 && v.memory.offset % 256 == s[pos] as int) &&
        (Mode(byte2) == 2 ==>
          v.memory.base0.Some? && v.memory.offset % 0x10000 == LittleEndian(s[pos], s[pos + 1]))
  {
  }

  /** The immediate at `pos`: one byte, or a little-endian word when the
      operand-size bit is set (x86_decoder.rs:174-191, 209-226). */
  function ReadImmediate(s: seq<bv8>, pos: nat, byte1: bv8, isWordEncoding: bool): (st: Step<Immediate>)
    requires pos <= |s|
    ensures st.result.Ok? <==> pos + ImmediateLength(isWordEncoding) <= |s|
    ensures st.result.Ok? ==> st.next == pos + ImmediateLength(isWordEncoding)
    ensures st.result.Ok? ==> st.result.value.isWord == isWordEncoding
    ensures st.result.Ok? ==>
      st.result.value.value == (if isWordEncoding then LittleEndian(s[pos], s[pos + 1]) else s[pos] as int)
    ensures st.result.Err? ==> st.result.error.byte1 == byte1 && st.next == |s|
  {
    if isWordEncoding then
      var immediate := ReadU16(s, pos, byte1, "Missing bytes for u16 immediate!");
      if immediate.result.Err? then immediate.PropagateFailure()
      else Step(Ok(Immediate(immediate.result.value, isWordEncoding)), immediate.next)
    else
      var immediate := ReadU8(s, pos, byte1, "Missing bytes for u16 immediate!");
      if immediate.result.Err? then immediate.PropagateFailure()
      else Step(Ok(Immediate(immediate.result.value as int, isWordEncoding)), immediate.next)
  }

  // ---------------------------------------------------------------------------
  // The four routines, as functions of the stream. `pos` is the position just
  // after the opcode byte `byte1`; `sizing` is the size annotation the built
  // instruction carries. Each function states how many bytes its form takes
  // and when it fails; the lemma after it states the operands it builds.

  /** `extract_register_or_memory_to_or_from_register` (opcodes 0x88-0x8B). */
  function RegisterOrMemoryToOrFromRegister(s: seq<bv8>, pos: nat, byte1: bv8, sizing: Option<InstructionSizing>): (st: Step<Instruction>)
    requires pos <= |s|
    ensures st.result.Ok? <==> pos < |s| && pos + 1 + DisplacementLength(s[pos]) <= |s|
    ensures st.result.Ok? ==> st.next == pos + 1 + DisplacementLength(s[pos])
    ensures st.result.Err? ==> st.result.error.byte1 == byte1 && st.next == |s|
  {
    var second := ReadU8(s, pos, byte1, "missing second byte!");
    if second.result.Err? then second.PropagateFailure()
    else
      var byte2 := second.result.value;
      var isWordEncoding := byte1 & 0x1 == 0x1;
      var regOrMem := ResolveRm(s, second.next, byte1, byte2, isWordEncoding);
      if regOrMem.result.Err? then regOrMem.PropagateFailure()
      else
        var reg := GetStandardRegisterEncoding(RegBits(byte2), isWordEncoding);
        var (source, destination) :=
          if byte1 & 0x02 == 0x02 then (regOrMem.result.value, reg) else (reg, regOrMem.result.value);
        Step(Ok(Instruction(Move, source, destination, sizing)), regOrMem.next)
  }

  /** A `mov` between the register of the reg field and the operand of the
      mod and r/m fields (the one `ResolveRm` reads after the second byte,
      described by `ResolveRmOperand`), both sized by bit 0; bit 1 set makes
      the register the destination. */
  lemma RegisterOrMemoryOperands(s: seq<bv8>, pos: nat, byte1: bv8, sizing: Option<InstructionSizing>)
    requires pos <= |s|
    ensures var st := RegisterOrMemoryToOrFromRegister(s, pos, byte1, sizing);
      st.result.Ok? ==>
        var i, isWord := st.result.value, byte1 & 1 == 1;
        var reg := GetStandardRegisterEncoding(RegBits(s[pos]), isWord);
        var regOrMem := if byte1 & 2 == 2 then i.source else i.destination;
        i.instruction == Move && i.sizing == sizing &&
        (if byte1 & 2 == 2 then i.destination == reg else i.source == reg) &&
        regOrMem == ResolveRm(s, pos + 1, byte1, s[pos], isWord).result.value &&
        (Mode(s[pos]) == 3 ==> regOrMem == GetStandardRegisterEncoding(RmBits(s[pos]), isWord)) &&
        (Mode(s[pos]) != 3 ==> regOrMem.Mem? && WellFormedMemory(regOrMem.memory))
  {
    if pos < |s| {
      ResolveRmOperand(s, pos + 1, byte1, s[pos], byte1 & 1 == 1);
    }
  }

  /** `extract_immediate_to_register_or_memory` (opcodes 0xC6, 0xC7). */
  function ImmediateToRegisterOrMemory(s: seq<bv8>, pos: nat, byte1: bv8, sizing: Option<InstructionSizing>): (st: Step<Instruction>)
    requires pos <= |s|
    ensures st.result.Ok? <==>
      pos < |s| && pos + 1 + DisplacementLength(s[pos]) + ImmediateLength(byte1 & 1 == 1) <= |s|
    ensures st.result.Ok? ==>
      st.next == pos + 1 + DisplacementLength(s[pos]) + ImmediateLength(byte1 & 1 == 1)
    ensures st.result.Err? ==> st.result.error.byte1 == byte1 && st.next == |s|
  {
    var second := ReadU8(s, pos, byte1, "missing second byte!");
    if second.result.Err? then second.PropagateFailure()
    else
      var byte2 := second.result.value;
      var isWordEncoding := byte1 & 0x1 == 0x1;
      var regOrMem := ResolveRm(s, second.next, byte1, byte2, isWordEncoding);
      if regOrMem.result.Err? then regOrMem.PropagateFailure()
      else
        var immediate := ReadImmediate(s, regOrMem.next, byte1, isWordEncoding);
        if immediate.result.Err? then immediate.PropagateFailure()
        else Step(Ok(Instruction(Move, Imm(immediate.result.value), regOrMem.result.value, sizing)), immediate.next)
  }

  /** A `mov` of the immediate after the displacement into the operand of the
      mod and r/m fields (the one `ResolveRm` reads after the second byte),
      both sized by bit 0. */
  lemma ImmediateToRegisterOrMemoryOperands(s: seq<bv8>, pos: nat, byte1: bv8, sizing: Option<InstructionSizing>)
    requires pos <= |s|
    ensures var st := ImmediateToRegisterOrMemory(s, pos, byte1, sizing);
      st.result.Ok? ==>
        var i := st.result.value;
        var isWord, k := byte1 & 1 == 1, pos + 1 + DisplacementLength(s[pos]);
        i.instruction == Move && i.sizing == sizing &&
        i.source.Imm? && i.source.immediate.isWord == isWord &&
        i.source.immediate.value == (if isWord then LittleEndian(s[k], s[k + 1]) else s[k] as int) &&
        (!isWord ==> i.source.immediate.value < 256) &&
        i.destination == ResolveRm(s, pos + 1, byte1, s[pos], isWord).result.value &&
        (Mode(s[pos]) == 3 ==> i.destination == GetStandardRegisterEncoding(RmBits(s[pos]), isWord)) &&
        (Mode(s[pos]) != 3 ==> i.destination.Mem? && WellFormedMemory(i.destination.memory))
  {
    if pos < |s| {
      ResolveRmOperand(s, pos + 1, byte1, s[pos], byte1 & 1 == 1);
    }
  }

  /** `extract_immediate_to_register` (opcodes 0xB0-0xBF): the register is in
      the low three bits of `byte1` and the operand-size bit is bit 3. */
  function ImmediateToRegister(s: seq<bv8>, pos: nat, byte1: bv8, sizing: Option<InstructionSizing>): (st: Step<Instruction>)
    requires pos <= |s|
    ensures st.result.Ok? <==> pos + ImmediateLength(byte1 & 8 == 8) <= |s|
    ensures st.result.Ok? ==> st.next == pos + ImmediateLength(byte1 & 8 == 8)
    ensures st.result.Err? ==> st.result.error.byte1 == byte1 && st.next == |s|
  {
    var isWordEncoding := byte1 & 0x8 == 0x8;
    var reg := GetStandardRegisterEncoding(byte1 & 0x07, isWordEncoding);
    var immediate := ReadImmediate(s, pos, byte1, isWordEncoding);
    if immediate.result.Err? then immediate.PropagateFailure()
    else Step(Ok(Instruction(Move, Imm(immediate.result.value), reg, sizing)), immediate.next)
  }

  /** A `mov` of the immediate into the register of the opcode's low bits,
      both sized by bit 3. */
  lemma ImmediateToRegisterOperands(s: seq<bv8>, pos: nat, byte1: bv8, sizing: Option<InstructionSizing>)
    requires pos <= |s|
    ensures var st := ImmediateToRegister(s, pos, byte1, sizing);
      st.result.Ok? ==>
        var i, isWord := st.result.value, byte1 & 8 == 8;
        i.instruction == Move && i.sizing == sizing &&
        i.destination.Reg? &&
        RegisterCode(i.destination.register) == byte1 & 7 &&
        IsWordRegister(i.destination.register) == isWord &&
        i.source.Imm? && i.source.immediate.isWord == isWord &&
        i.source.immediate.value == (if isWord then LittleEndian(s[pos], s[pos + 1]) else s[pos] as int)
  {
  }

  /** `extract_accumulator_to_memory_or_memory_to_accumulator` (opcodes
      0xA0-0xA3). */
  function AccumulatorToMemoryOrMemoryToAccumulator(s: seq<bv8>, pos: nat, byte1: bv8, sizing: Option<InstructionSizing>): (st: Step<Instruction>)
    requires pos <= |s|
    ensures st.result.Ok? <==> pos + 2 <= |s|
    ensures st.result.Ok? ==> st.next == pos + 2
    ensures st.result.Err? ==> st.result.error.byte1 == byte1 && st.next == |s|
  {
    var address := ReadU16(s, pos, byte1, "Missing bytes for direct address");
    if address.result.Err? then address.PropagateFailure()
    else
      var memory := Mem(Memory(None, None, AsI16(address.result.value)));
      var isWordEncoding := byte1 & 0x1 == 0x1;
      var accumulator := if isWordEncoding then Reg(AX) else Reg(AL);
      var isAccumulatorToMemory := byte1 & 0x02 == 0x02;
      var (source, destination) :=
        if isAccumulatorToMemory then (accumulator, memory) else (memory, accumulator);
      Step(Ok(Instruction(Move, source, destination, sizing)), address.next)
  }

  /** A `mov` between AL or AX (bit 0) and the 16-bit direct address; bit 1
      set stores the accumulator, clear loads it. */
  lemma AccumulatorOperands(s: seq<bv8>, pos: nat, byte1: bv8, sizing: Option<InstructionSizing>)
    requires pos <= |s|
    ensures var st := AccumulatorToMemoryOrMemoryToAccumulator(s, pos, byte1, sizing);
      st.result.Ok? ==>
        var i := st.result.value;
        var accumulator := Reg(if byte1 & 1 == 1 then AX else AL);
        var memory := if byte1 & 2 == 2 then i.destination else i.source;
        i.instruction == Move && i.sizing == sizing &&
        (if byte1 & 2 == 2 then i.source == accumulator else i.destination == accumulator) &&
        memory.Mem? && memory.memory.base0.None? && memory.memory.base1.None? &&
        memory.memory.offset % 0x10000 == LittleEndian(s[pos], s[pos + 1])
  {
  }

  // ---------------------------------------------------------------------------
  // Properties relating several decodes

  /** Flipping the direction bit of a 0x88-0x8B opcode swaps source and
      destination and changes nothing else: not the bytes consumed, not
      whether the decode fails. */
  lemma DirectionBitSwaps(s: seq<bv8>, pos: nat, byte1: bv8, sizing: Option<InstructionSizing>)
    requires pos <= |s|
    ensures
      var toReg := RegisterOrMemoryToOrFromRegister(s, pos, byte1 | 2, sizing);
      var fromReg := RegisterOrMemoryToOrFromRegister(s, pos, byte1 & 0xFD, sizing);
      toReg.next == fromReg.next && toReg.result.Ok? == fromReg.result.Ok? &&
      (toReg.result.Ok? ==>
        toReg.result.value ==
          fromReg.result.value.(source := fromReg.result.value.destination,
                                destination := fromReg.result.value.source))
  {
  }

  /** In the immediate-to-register-or-memory form the reg field of the second
      byte is never looked at: any value there decodes alike. */
  lemma ImmediateIgnoresRegBits(s: seq<bv8>, pos: nat, byte1: bv8, sizing: Option<InstructionSizing>, reg: bv8)
    requires pos < |s| && reg < 8
    ensures
      var t := s[pos := (s[pos] & 0xC7) | (reg << 3)];
      ImmediateToRegisterOrMemory(t, pos, byte1, sizing) == ImmediateToRegisterOrMemory(s, pos, byte1, sizing)
  {
    var t := s[pos := (s[pos] & 0xC7) | (reg << 3)];
    assert Mode(t[pos]) == Mode(s[pos]) && RmBits(t[pos]) == RmBits(s[pos]);
    assert AgreeFrom(s, t, pos + 1);
    ImmediateToRegisterOrMemoryReadsFields(s, t, pos, byte1, sizing);
  }

  /** The immediate-to-register-or-memory form depends on the second byte
      only through its mod and r/m fields. */
  lemma ImmediateToRegisterOrMemoryReadsFields(s: seq<bv8>, t: seq<bv8>, pos: nat, byte1: bv8, sizing: Option<InstructionSizing>)
    requires pos < |s| && AgreeFrom(s, t, pos + 1)
    requires Mode(s[pos]) == Mode(t[pos]) && RmBits(s[pos]) == RmBits(t[pos])
    ensures ImmediateToRegisterOrMemory(t, pos, byte1, sizing) == ImmediateToRegisterOrMemory(s, pos, byte1, sizing)
  {
    var isWord := byte1 & 1 == 1;
    ResolveRmReadsFields(s, t, pos + 1, byte1, s[pos], t[pos], isWord);
    var rm := ResolveRm(s, pos + 1, byte1, s[pos], isWord);
    if rm.result.Ok? {
      ReadImmediateReadsFrom(s, t, rm.next, byte1, isWord);
    }
    ImmediateToRegisterOrMemoryFromParts(s, t, pos, byte1, sizing);
  }

  /** The form is determined by its opcode, its r/m operand and its
      immediate. */
  lemma ImmediateToRegisterOrMemoryFromParts(s: seq<bv8>, t: seq<bv8>, pos: nat, byte1: bv8, sizing: Option<InstructionSizing>)
    requires pos < |s| && pos < |t|
    requires var w := byte1 & 1 == 1;
      var rm := ResolveRm(s, pos + 1, byte1, s[pos], w);
      ResolveRm(t, pos + 1, byte1, t[pos], w) == rm &&
      (rm.result.Ok? ==> ReadImmediate(t, rm.next, byte1, w) == ReadImmediate(s, rm.next, byte1, w))
    ensures ImmediateToRegisterOrMemory(t, pos, byte1, sizing) == ImmediateToRegisterOrMemory(s, pos, byte1, sizing)
  {
  }

  /** Streams that agree from `pos` on. */
  predicate AgreeFrom(s: seq<bv8>, t: seq<bv8>, pos: nat)
  {
    |s| == |t| && forall j :: pos <= j < |s| ==> s[j] == t[j]
  }

  /** The r/m operand depends on the second byte only through its mod and r/m
      fields, and on the stream only from `pos` on. */
  lemma ResolveRmReadsFields(s: seq<bv8>, t: seq<bv8>, pos: nat, byte1: bv8, byte2: bv8, other: bv8, isWordEncoding: bool)
    requires pos <= |s| && AgreeFrom(s, t, pos)
    requires Mode(byte2) == Mode(other) && RmBits(byte2) == RmBits(other)
    ensures ResolveRm(s, pos, byte1, byte2, isWordEncoding) == ResolveRm(t, pos, byte1, other, isWordEncoding)
  {
    assert ReadU8(s, pos, byte1, "Missing byte for u8 offset!") == ReadU8(t, pos, byte1, "Missing byte for u8 offset!");
  }

  /** The immediate depends on the stream only from `pos` on. */
  lemma ReadImmediateReadsFrom(s: seq<bv8>, t: seq<bv8>, pos: nat, byte1: bv8, isWordEncoding: bool)
    requires pos <= |s| && AgreeFrom(s, t, pos)
    ensures ReadImmediate(s, pos, byte1, isWordEncoding) == ReadImmediate(t, pos, byte1, isWordEncoding)
  {
    if pos < |s| {
      assert s[pos] == t[pos];
    }
    if pos + 1 < |s| {
      assert s[pos + 1] == t[pos + 1];
    }
  }

  // ---------------------------------------------------------------------------
  // A decode that succeeds reads only bytes the stream has: more input after
  // them leaves it unchanged.

  lemma ResolveRmExtends(s: seq<bv8>, t: seq<bv8>, pos: nat, byte1: bv8, byte2: bv8, isWordEncoding: bool)
    requires pos <= |s| && Extends(s, t) && ResolveRm(s, pos, byte1, byte2, isWordEncoding).result.Ok?
    ensures ResolveRm(t, pos, byte1, byte2, isWordEncoding) == ResolveRm(s, pos, byte1, byte2, isWordEncoding)
  {
    var mode, rm := Mode(byte2), RmBits(byte2);
    if mode == 0 && rm == 6 {
      ReadU16Extends(s, t, pos, byte1, "Missing bytes for direct address");
    } else if mode == 1 {
      ReadU8Extends(s, t, pos, byte1, "Missing byte for u8 offset!");
    } else if mode == 2 {
      ReadU16Extends(s, t, pos, byte1, "Missing bytes for u16 offset!");
    }
  }

  lemma ReadImmediateExtends(s: seq<bv8>, t: seq<bv8>, pos: nat, byte1: bv8, isWordEncoding: bool)
    requires pos <= |s| && Extends(s, t) && ReadImmediate(s, pos, byte1, isWordEncoding).result.Ok?
    ensures ReadImmediate(t, pos, byte1, isWordEncoding) == ReadImmediate(s, pos, byte1, isWordEncoding)
  {
    if isWordEncoding {
      ReadU16Extends(s, t, pos, byte1, "Missing bytes for u16 immediate!");
    } else {
      ReadU8Extends(s, t, pos, byte1, "Missing bytes for u16 immediate!");
    }
  }

  lemma RegisterOrMemoryExtends(s: seq<bv8>, t: seq<bv8>, pos: nat, byte1: bv8, sizing: Option<InstructionSizing>)
    requires pos <= |s| && Extends(s, t) && RegisterOrMemoryToOrFromRegister(s, pos, byte1, sizing).result.Ok?
    ensures RegisterOrMemoryToOrFromRegister(t, pos, byte1, sizing) == RegisterOrMemoryToOrFromRegister(s, pos, byte1, sizing)
  {
    ReadU8Extends(s, t, pos, byte1, "missing second byte!");
    ResolveRmExtends(s, t, pos + 1, byte1, s[pos], byte1 & 1 == 1);
  }

  lemma ImmediateToRegisterOrMemoryExtends(s: seq<bv8>, t: seq<bv8>, pos: nat, byte1: bv8, sizing: Option<InstructionSizing>)
    requires pos <= |s| && Extends(s, t) && ImmediateToRegisterOrMemory(s, pos, byte1, sizing).result.Ok?
    ensures ImmediateToRegisterOrMemory(t, pos, byte1, sizing) == ImmediateToRegisterOrMemory(s, pos, byte1, sizing)
  {
    var isWord := byte1 & 1 == 1;
    ReadU8Extends(s, t, pos, byte1, "missing second byte!");
    assert t[pos] == s[pos];
    ResolveRmExtends(s, t, pos + 1, byte1, s[pos], isWord);
    var rm := ResolveRm(s, pos + 1, byte1, s[pos], isWord);
    ReadImmediateExtends(s, t, rm.next, byte1, isWord);
  }

  lemma ImmediateToRegisterExtends(s: seq<bv8>, t: seq<bv8>, pos: nat, byte1: bv8, sizing: Option<InstructionSizing>)
    requires pos <= |s| && Extends(s, t) && ImmediateToRegister(s, pos, byte1, sizing).result.Ok?
    ensures ImmediateToRegister(t, pos, byte1, sizing) == ImmediateToRegister(s, pos, byte1, sizing)
  {
    ReadImmediateExtends(s, t, pos, byte1, byte1 & 8 == 8);
  }

  lemma AccumulatorExtends(s: seq<bv8>, t: seq<bv8>, pos: nat, byte1: bv8, sizing: Option<InstructionSizing>)
    requires pos <= |s| && Extends(s, t) && AccumulatorToMemoryOrMemoryToAccumulator(s, pos, byte1, sizing).result.Ok?
    ensures AccumulatorToMemoryOrMemoryToAccumulator(t, pos, byte1, sizing) == AccumulatorToMemoryOrMemoryToAccumulator(s, pos, byte1, sizing)
  {
    ReadU16Extends(s, t, pos, byte1, "Missing bytes for direct address");
  }

  // ---------------------------------------------------------------------------
  // The routines as the source runs them, on the shared cursor

  method DecodeRm(c: ByteCursor, byte1: bv8, byte2: bv8, isWordEncoding: bool) returns (r: Result<Reference>)
    requires c.Valid()
    modifies c
    ensures c.Valid()
    ensures Step(r, c.pos) == ResolveRm(c.bytes, old(c.pos), byte1, byte2, isWordEncoding)
  {
    var mode, rm := Mode(byte2), RmBits(byte2);
    if mode == 3 {
      r := Ok(GetStandardRegisterEncoding(rm, isWordEncoding));
    } else if mode == 0 && rm == 6 {
      var address := c.GetU16(byte1, "Missing bytes for direct address");
      if address.Err? {
        return Err(address.error);
      }
      r := Ok(Mem(Memory(None, None, AsI16(address.value))));
    } else if mode == 0 {
      r := Ok(GetExpressionRegisterEncoding(rm, 0));
    } else if mode == 1 {
      var offset := c.GetU8(byte1, "Missing byte for u8 offset!");
      if offset.Err? {
        return Err(offset.error);
      }
      r := Ok(GetExpressionRegisterEncoding(rm, SignExtend(offset.value)));
    } else {
      var offset := c.GetU16(byte1, "Missing bytes for u16 offset!");
      if offset.Err? {
        return Err(offset.error);
      }
      r := Ok(GetExpressionRegisterEncoding(rm, AsI16(offset.value)));
    }
  }

  method GetImmediate(c: ByteCursor, byte1: bv8, isWordEncoding: bool) returns (r: Result<Immediate>)
    requires c.Valid()
    modifies c
    ensures c.Valid()
    ensures Step(r, c.pos) == ReadImmediate(c.bytes, old(c.pos), byte1, isWordEncoding)
  {
    var immediate: u16;
    if isWordEncoding {
      var word := c.GetU16(byte1, "Missing bytes for u16 immediate!");
      if word.Err? {
        return Err(word.error);
      }
      immediate := word.value;
    } else {
      var byte := c.GetU8(byte1, "Missing bytes for u16 immediate!");
      if byte.Err? {
        return Err(byte.error);
      }
      immediate := byte.value as int;
    }
    r := Ok(Immediate(immediate, isWordEncoding));
  }

  method ExtractRegisterOrMemoryToOrFromRegister(c: ByteCursor, byte1: bv8, sizing: Option<InstructionSizing>)
    returns (r: Result<Instruction>)
    requires c.Valid()
    modifies c
    ensures c.Valid()
    ensures Step(r, c.pos) == RegisterOrMemoryToOrFromRegister(c.bytes, old(c.pos), byte1, sizing)
  {
    var byte2 := c.GetU8(byte1, "missing second byte!");
    if byte2.Err? {
      return Err(byte2.error);
    }
    var isWordEncoding := byte1 & 0x1 == 0x1;
    var regOrMem := DecodeRm(c, byte1, byte2.value, isWordEncoding);
    if regOrMem.Err? {
      return Err(regOrMem.error);
    }
    var reg := GetStandardRegisterEncoding(RegBits(byte2.value), isWordEncoding);
    var source, destination;
    if byte1 & 0x02 == 0x02 {
      source, destination := regOrMem.value, reg;
    } else {
      source, destination := reg, regOrMem.value;
    }
    r := Ok(Instruction(Move, source, destination, sizing));
  }

  method ExtractImmediateToRegisterOrMemory(c: ByteCursor, byte1: bv8, sizing: Option<InstructionSizing>)
    returns (r: Result<Instruction>)
    requires c.Valid()
    modifies c
    ensures c.Valid()
    ensures Step(r, c.pos) == ImmediateToRegisterOrMemory(c.bytes, old(c.pos), byte1, sizing)
  {
    var byte2 := c.GetU8(byte1, "missing second byte!");
    if byte2.Err? {
      return Err(byte2.error);
    }
    var isWordEncoding := byte1 & 0x1 == 0x1;
    var regOrMem := DecodeRm(c, byte1, byte2.value, isWordEncoding);
    if regOrMem.Err? {
      return Err(regOrMem.error);
    }
    var immediate := GetImmediate(c, byte1, isWordEncoding);
    if immediate.Err? {
      return Err(immediate.error);
    }
    r := Ok(Instruction(Move, Imm(immediate.value), regOrMem.value, sizing));
  }

  method ExtractImmediateToRegister(c: ByteCursor, byte1: bv8, sizing: Option<InstructionSizing>)
    returns (r: Result<Instruction>)
    requires c.Valid()
    modifies c
    ensures c.Valid()
    ensures Step(r, c.pos) == ImmediateToRegister(c.bytes, old(c.pos), byte1, sizing)
  {
    var isWordEncoding := byte1 & 0x8 == 0x8;
    var reg := GetStandardRegisterEncoding(byte1 & 0x07, isWordEncoding);
    var immediate := GetImmediate(c, byte1, isWordEncoding);
    if immediate.Err? {
      return Err(immediate.error);
    }
    r := Ok(Instruction(Move, Imm(immediate.value), reg, sizing));
  }

  method ExtractAccumulatorToMemoryOrMemoryToAccumulator(c: ByteCursor, byte1: bv8, sizing: Option<InstructionSizing>)
    returns (r: Result<Instruction>)
    requires c.Valid()
    modifies c
    ensures c.Valid()
    ensures Step(r, c.pos) == AccumulatorToMemoryOrMemoryToAccumulator(c.bytes, old(c.pos), byte1, sizing)
  {
    var address := c.GetU16(byte1, "Missing bytes for direct address");
    if address.Err? {
      return Err(address.error);
    }
    var memory := Mem(Memory(None, None, AsI16(address.value)));
    var isWordEncoding := byte1 & 0x1 == 0x1;
    var accumulator := if isWordEncoding then Reg(AX) else Reg(AL);
    var source, destination;
    if byte1 & 0x02 == 0x02 {
      source, destination := accumulator, memory;
    } else {
      source, destination := memory, accumulator;
    }
    r := Ok(Instruction(Move, source, destination, sizing));
  }
}
