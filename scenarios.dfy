/** The text of the instructions in the examples below, each worked out in
    a context that holds only the renderers. */
module RenderedExamples {
  import opened Errors
  import opened Definitions

  lemma RegisterToRegisterText()
    ensures InstructionText(Instruction(Move, Reg(BX), Reg(CX), None)) == "mov cx, bx"
  {
  }

  lemma ImmediateToByteRegisterText()
    ensures InstructionText(Instruction(Move, Imm(Immediate(5, false)), Reg(AL), None)) == "mov al, 5"
  {
  }

  lemma ImmediateToDirectAddressText(sizing: Option<InstructionSizing>)
    requires sizing == None || sizing == Some(InstructionSizing(false, Byte))
    ensures InstructionText(Instruction(Move, Imm(Immediate(7, false)), Mem(Memory(None, None, 0)), sizing)) ==
      if sizing.None? then "mov [0], 7" else "mov byte [0], 7"
  {
  }

  lemma MemoryToRegisterText()
    ensures InstructionText(Instruction(Move, Mem(Memory(Some(BX), Some(SI), 0)), Reg(AX), None)) == "mov ax, [bx + si + 0]"
  {
  }
}

/** Whole-input examples of the disassembler: machine code in, listing out.
    Each walks the dispatcher to the routine the opcode selects. */
module Scenarios {
  import opened Errors
  import opened Tools
  import opened Definitions
  import opened Decoder
  import opened Lib
  import opened RenderedExamples

  /** A register-to-register move; the direction bit is clear, so the REG
      field names the source. */
  lemma RegisterToRegister()
    ensures Listing([0x89, 0xD9], None) == ["bits 16", "mov cx, bx"]
    ensures DecodeFrom([0x89, 0xD9], 0, None).error.None?
  {
    var s: seq<bv8> := [0x89, 0xD9];
    var i := Instruction(Move, Reg(BX), Reg(CX), None);
    DispatchByOpcodeRange(s, 0, None);
    assert RegisterOrMemoryToOrFromRegister(s, 1, 0x89, None) == Step(Ok(i), 2);
    SingleInstructionListing(s, i, None);
    RegisterToRegisterText();
  }

  /** An 8-bit immediate into AL. */
  lemma ImmediateToByteRegister()
    ensures Listing([0xB0, 0x05], None) == ["bits 16", "mov al, 5"]
  {
    var s: seq<bv8> := [0xB0, 0x05];
    var i := Instruction(Move, Imm(Immediate(5, false)), Reg(AL), None);
    DispatchByOpcodeRange(s, 0, None);
    assert ImmediateToRegister(s, 1, 0xB0, None) == Step(Ok(i), 2);
    SingleInstructionListing(s, i, None);
    ImmediateToByteRegisterText();
  }

  /** An immediate into a direct address; the size keyword appears only
      when the caller asks for one. */
  lemma ImmediateToDirectAddress(sizing: Option<InstructionSizing>)
    requires sizing == None || sizing == Some(InstructionSizing(false, Byte))
    ensures Listing([0xC6, 0x06, 0x00, 0x00, 0x07], sizing) ==
      ["bits 16", if sizing.None? then "mov [0], 7" else "mov byte [0], 7"]
  {
    var s: seq<bv8> := [0xC6, 0x06, 0x00, 0x00, 0x07];
    var i := Instruction(Move, Imm(Immediate(7, false)), Mem(Memory(None, None, 0)), sizing);
    DispatchByOpcodeRange(s, 0, sizing);
    assert ImmediateToRegisterOrMemory(s, 1, 0xC6, sizing) == Step(Ok(i), 5);
    SingleInstructionListing(s, i, sizing);
    ImmediateToDirectAddressText(sizing);
  }

  /** A byte matching no opcode: only the header, and a failure naming it. */
  lemma UnknownOpcode()
    ensures Listing([0xFF], None) == ["bits 16"]
    ensures DecodeFrom([0xFF], 0, None).error == Some(Failed(0xFF, "Byte matched no known opcodes!"))
  {
  }

  /** A memory source through BX + SI with no displacement; the offset is
      still written. */
  lemma MemoryToRegister()
    ensures Listing([0x8B, 0x00], None) == ["bits 16", "mov ax, [bx + si + 0]"]
  {
    var s: seq<bv8> := [0x8B, 0x00];
    var i := Instruction(Move, Mem(Memory(Some(BX), Some(SI), 0)), Reg(AX), None);
    DispatchByOpcodeRange(s, 0, None);
    assert RegisterOrMemoryToOrFromRegister(s, 1, 0x8B, None) == Step(Ok(i), 2);
    SingleInstructionListing(s, i, None);
    MemoryToRegisterText();
  }
}
