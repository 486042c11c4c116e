/** The opcode dispatcher and the decode loop (src/lib.rs). The output file
    becomes the sequence of lines written to it; the message the source
    prints to standard error becomes the returned failure. */
module Lib {
  import opened Errors
  import opened Tools
  import opened Definitions
  import opened Decoder

  /** The opcode bytes of the four `mov` forms, as ranges of the 8086
      opcode table. */
  predicate KnownOpcode(b: bv8)
  {
    (0x88 <= b <= 0x8B) || (0xC6 <= b <= 0xC7) || (0xB0 <= b <= 0xBF) || (0xA0 <= b <= 0xA3)
  }

  /** The four mask tests of the dispatcher never overlap, so their order
      does not matter, and together they accept exactly the known opcodes. */
  lemma OpcodePatternsDisjoint(b: bv8)
    ensures !(b & 0xFC == 0x88 && b & 0xFE == 0xC6) && !(b & 0xFC == 0x88 && b & 0xF0 == 0xB0)
    ensures !(b & 0xFC == 0x88 && b & 0xFC == 0xA0) && !(b & 0xFE == 0xC6 && b & 0xF0 == 0xB0)
    ensures !(b & 0xFE == 0xC6 && b & 0xFC == 0xA0) && !(b & 0xF0 == 0xB0 && b & 0xFC == 0xA0)
    ensures (b & 0xFC == 0x88 || b & 0xFE == 0xC6 || b & 0xF0 == 0xB0 || b & 0xFC == 0xA0) <==> KnownOpcode(b)
  {
  }

  /** A routine's outcome as the dispatcher returns it: `Some` on success. */
  function Lift(st: Step<Instruction>): (r: Step<Option<Instruction>>)
    ensures r.next == st.next
    ensures r.result.Ok? <==> st.result.Ok?
    ensures r.result.Ok? ==> r.result.value == Some(st.result.value)
    ensures r.result.Err? ==> r.result.error == st.result.error
  {
    match st.result
    case Ok(i) => Step(Ok(Some(i)), st.next)
    case Err(e) => Step(Err(e), st.next)
  }

  /** Every memory operand of the instruction can be addressed by the 8086. */
  predicate WellFormedInstruction(i: Instruction)
  {
    (i.source.Mem? ==> WellFormedMemory(i.source.memory)) &&
    (i.destination.Mem? ==> WellFormedMemory(i.destination.memory))
  }

  /** `extract_instruction`, as a function of the stream: reads the opcode
      byte at `pos` and hands the rest to the routine whose pattern it
      matches, in the source's order. */
  function InstructionAt(s: seq<bv8>, pos: nat, sizing: Option<InstructionSizing>): (st: Step<Option<Instruction>>)
    requires pos <= |s|
    ensures pos <= st.next <= |s|
    ensures st.result == Ok(None) <==> pos == |s|
    ensures pos == |s| ==> st.next == pos
    ensures st.result.Ok? && st.result.value.Some? ==> pos + 2 <= st.next <= pos + 6
    ensures st.result.Err? ==> pos < |s| && st.result.error.byte1 == s[pos]
  {
    if pos == |s| then Step(Ok(None), pos)
    else
      var byte1 := s[pos];
      if byte1 & 0xFC == 0x88 then Lift(RegisterOrMemoryToOrFromRegister(s, pos + 1, byte1, sizing))
      else if byte1 & 0xFE == 0xC6 then Lift(ImmediateToRegisterOrMemory(s, pos + 1, byte1, sizing))
      else if byte1 & 0xF0 == 0xB0 then Lift(ImmediateToRegister(s, pos + 1, byte1, sizing))
      else if byte1 & 0xFC == 0xA0 then Lift(AccumulatorToMemoryOrMemoryToAccumulator(s, pos + 1, byte1, sizing))
      else Step(Err(Failed(byte1, "Byte matched no known opcodes!")), pos + 1)
  }

  /** Which routine decodes an instruction depends only on the range its
      opcode byte falls in; a byte outside the four ranges fails at once,
      naming that byte, having consumed only it. */
  lemma DispatchByOpcodeRange(s: seq<bv8>, pos: nat, sizing: Option<InstructionSizing>)
    requires pos < |s|
    ensures var st, byte1 := InstructionAt(s, pos, sizing), s[pos];
      (0x88 <= byte1 <= 0x8B ==> st == Lift(RegisterOrMemoryToOrFromRegister(s, pos + 1, byte1, sizing))) &&
      (0xC6 <= byte1 <= 0xC7 ==> st == Lift(ImmediateToRegisterOrMemory(s, pos + 1, byte1, sizing))) &&
      (0xB0 <= byte1 <= 0xBF ==> st == Lift(ImmediateToRegister(s, pos + 1, byte1, sizing))) &&
      (0xA0 <= byte1 <= 0xA3 ==> st == Lift(AccumulatorToMemoryOrMemoryToAccumulator(s, pos + 1, byte1, sizing))) &&
      (!KnownOpcode(byte1) ==> st == Step(Err(Failed(byte1, "Byte matched no known opcodes!")), pos + 1))
  {
  }

  /** Every instruction the dispatcher decodes has addressable memory
      operands. */
  lemma InstructionAtWellFormed(s: seq<bv8>, pos: nat, sizing: Option<InstructionSizing>)
    requires pos <= |s|
    ensures var st := InstructionAt(s, pos, sizing);
      st.result.Ok? && st.result.value.Some? ==> WellFormedInstruction(st.result.value.value)
  {
    if pos < |s| {
      var byte1 := s[pos];
      var st := InstructionAt(s, pos, sizing);
      RoutinesWellFormed(s, pos + 1, byte1, sizing);
      if byte1 & 0xFC == 0x88 {
        assert st == Lift(RegisterOrMemoryToOrFromRegister(s, pos + 1, byte1, sizing));
      } else if byte1 & 0xFE == 0xC6 {
        assert st == Lift(ImmediateToRegisterOrMemory(s, pos + 1, byte1, sizing));
      } else if byte1 & 0xF0 == 0xB0 {
        assert st == Lift(ImmediateToRegister(s, pos + 1, byte1, sizing));
      } else if byte1 & 0xFC == 0xA0 {
        assert st == Lift(AccumulatorToMemoryOrMemoryToAccumulator(s, pos + 1, byte1, sizing));
      } else {
        assert st.result.Err?;
      }
    } else {
      assert InstructionAt(s, pos, sizing).result == Ok(None);
    }
  }

  /** Each of the four routines builds only addressable memory operands. */
  lemma RoutinesWellFormed(s: seq<bv8>, pos: nat, byte1: bv8, sizing: Option<InstructionSizing>)
    requires pos <= |s|
    ensures var st := RegisterOrMemoryToOrFromRegister(s, pos, byte1, sizing);
      st.result.Ok? ==> WellFormedInstruction(st.result.value)
    ensures var st := ImmediateToRegisterOrMemory(s, pos, byte1, sizing);
      st.result.Ok? ==> WellFormedInstruction(st.result.value)
    ensures var st := ImmediateToRegister(s, pos, byte1, sizing);
      st.result.Ok? ==> WellFormedInstruction(st.result.value)
    ensures var st := AccumulatorToMemoryOrMemoryToAccumulator(s, pos, byte1, sizing);
      st.result.Ok? ==> WellFormedInstruction(st.result.value)
  {
    RegisterOrMemoryOperands(s, pos, byte1, sizing);
    ImmediateToRegisterOrMemoryOperands(s, pos, byte1, sizing);
    ImmediateToRegisterOperands(s, pos, byte1, sizing);
    AccumulatorOperands(s, pos, byte1, sizing);
  }

  /** What the decode loop produces from `pos` on: the instructions decoded,
      in order, and the failure that stopped it, if one did. */
  datatype Decoding = Decoding(instructions: seq<Instruction>, error: Option<Failed>)

  /** The decode loop as a function: decode until the stream ends or a
      decode fails. */
  function DecodeFrom(s: seq<bv8>, pos: nat, sizing: Option<InstructionSizing>): (d: Decoding)
    requires pos <= |s|
    ensures 2 * |d.instructions| <= |s| - pos
    ensures d.error.None? ==> |s| - pos <= 6 * |d.instructions|
    decreases |s| - pos
  {
    var st := InstructionAt(s, pos, sizing);
    match st.result
    case Err(e) => Decoding([], Some(e))
    case Ok(None) => Decoding([], None)
    case Ok(Some(i)) =>
      var rest := DecodeFrom(s, st.next, sizing);
      Decoding([i] + rest.instructions, rest.error)
  }

  /** Every memory operand the decoder builds is one the 8086 can address:
      bases from BX, BP, SI and DI, never repeated. */
  lemma {:induction false} DecodedInstructionsWellFormed(s: seq<bv8>, pos: nat, sizing: Option<InstructionSizing>)
    requires pos <= |s|
    ensures forall k :: 0 <= k < |DecodeFrom(s, pos, sizing).instructions| ==>
      WellFormedInstruction(DecodeFrom(s, pos, sizing).instructions[k])
    decreases |s| - pos
  {
    var st := InstructionAt(s, pos, sizing);
    DecodeStep(s, pos, sizing, st.result, st.next);
    InstructionAtWellFormed(s, pos, sizing);
    if st.result.Ok? && st.result.value.Some? {
      DecodedInstructionsWellFormed(s, st.next, sizing);
    }
  }

  /** An instruction decoded from a stream decodes alike from any longer
      stream: the decode reads only the bytes it consumes. */
  lemma InstructionAtExtends(s: seq<bv8>, t: seq<bv8>, pos: nat, sizing: Option<InstructionSizing>)
    requires pos <= |s| && Extends(s, t)
    requires InstructionAt(s, pos, sizing).result.Ok? && InstructionAt(s, pos, sizing).result.value.Some?
    ensures InstructionAt(t, pos, sizing) == InstructionAt(s, pos, sizing)
  {
    var byte1, st := s[pos], InstructionAt(s, pos, sizing);
    assert t[pos] == t[..|s|][pos] == byte1;
    if byte1 & 0xFC == 0x88 {
      assert st == Lift(RegisterOrMemoryToOrFromRegister(s, pos + 1, byte1, sizing));
      RegisterOrMemoryExtends(s, t, pos + 1, byte1, sizing);
    } else if byte1 & 0xFE == 0xC6 {
      assert st == Lift(ImmediateToRegisterOrMemory(s, pos + 1, byte1, sizing));
      ImmediateToRegisterOrMemoryExtends(s, t, pos + 1, byte1, sizing);
    } else if byte1 & 0xF0 == 0xB0 {
      assert st == Lift(ImmediateToRegister(s, pos + 1, byte1, sizing));
      ImmediateToRegisterExtends(s, t, pos + 1, byte1, sizing);
    } else if byte1 & 0xFC == 0xA0 {
      assert st == Lift(AccumulatorToMemoryOrMemoryToAccumulator(s, pos + 1, byte1, sizing));
      AccumulatorExtends(s, t, pos + 1, byte1, sizing);
    }
  }

  /** Decoding a stream `t` that continues a stream `s` which decodes
      without failure: first the instructions of `s`, then what decoding
      yields from where `s` ended. No instruction straddles the join. */
  lemma {:induction false} DecodeExtends(s: seq<bv8>, t: seq<bv8>, pos: nat, sizing: Option<InstructionSizing>)
    requires pos <= |s| && Extends(s, t) && DecodeFrom(s, pos, sizing).error.None?
    ensures var tail := DecodeFrom(t, |s|, sizing);
      DecodeFrom(t, pos, sizing) == Decoding(DecodeFrom(s, pos, sizing).instructions + tail.instructions, tail.error)
    decreases |s| - pos
  {
    var st := InstructionAt(s, pos, sizing);
    DecodeStep(s, pos, sizing, st.result, st.next);
    if pos < |s| {
      DecodeExtends(s, t, st.next, sizing);
      DecodeExtendsStep(s, t, pos, sizing);
    } else {
      assert DecodeFrom(s, pos, sizing).instructions == [];
    }
  }

  /** The inductive step of `DecodeExtends`: one instruction read from `s`. */
  lemma DecodeExtendsStep(s: seq<bv8>, t: seq<bv8>, pos: nat, sizing: Option<InstructionSizing>)
    requires pos < |s| && Extends(s, t)
    requires var st := InstructionAt(s, pos, sizing);
      st.result.Ok? && st.result.value.Some? &&
      DecodeFrom(t, st.next, sizing) ==
        Decoding(DecodeFrom(s, st.next, sizing).instructions + DecodeFrom(t, |s|, sizing).instructions,
                 DecodeFrom(t, |s|, sizing).error)
    ensures var tail := DecodeFrom(t, |s|, sizing);
      DecodeFrom(t, pos, sizing) == Decoding(DecodeFrom(s, pos, sizing).instructions + tail.instructions, tail.error)
  {
    var st := InstructionAt(s, pos, sizing);
    InstructionAtExtends(s, t, pos, sizing);
    DecodeStep(s, pos, sizing, st.result, st.next);
    DecodeStep(t, pos, sizing, st.result, st.next);
    AppendAssoc([st.result.value.value], DecodeFrom(s, st.next, sizing).instructions, DecodeFrom(t, |s|, sizing).instructions);
  }

  lemma AppendAssoc<T>(a: seq<T>, b: seq<T>, c: seq<T>)
    ensures a + (b + c) == (a + b) + c
  {
  }

  /** One rendered line per instruction, in order. */
  function RenderLines(instructions: seq<Instruction>): (lines: seq<string>)
    ensures |lines| == |instructions|
  {
    if instructions == [] then [] else [InstructionText(instructions[0])] + RenderLines(instructions[1..])
  }

  lemma RenderLinesCons(i: Instruction, instructions: seq<Instruction>)
    ensures RenderLines([i] + instructions) == [InstructionText(i)] + RenderLines(instructions)
  {
    assert ([i] + instructions)[1..] == instructions;
  }

  lemma {:induction false} RenderLinesAt(instructions: seq<Instruction>, k: nat)
    requires k < |instructions|
    ensures RenderLines(instructions)[k] == InstructionText(instructions[k])
  {
    if k > 0 {
      RenderLinesAt(instructions[1..], k - 1);
    }
  }

  lemma {:induction false} RenderLinesAppend(xs: seq<Instruction>, ys: seq<Instruction>)
    ensures RenderLines(xs + ys) == RenderLines(xs) + RenderLines(ys)
  {
    if xs != [] {
      assert (xs + ys)[1..] == xs[1..] + ys;
      RenderLinesAppend(xs[1..], ys);
      AppendAssoc([InstructionText(xs[0])], RenderLines(xs[1..]), RenderLines(ys));
    } else {
      assert xs + ys == ys;
    }
  }

  /** The whole output file for an input. */
  function Listing(s: seq<bv8>, sizing: Option<InstructionSizing>): (lines: seq<string>)
    ensures |lines| == |DecodeFrom(s, 0, sizing).instructions| + 1 && lines[0] == "bits 16"
  {
    ["bits 16"] + RenderLines(DecodeFrom(s, 0, sizing).instructions)
  }

  /** An input that is exactly one instruction lists as the header and that
      instruction's line. */
  lemma SingleInstructionListing(s: seq<bv8>, i: Instruction, sizing: Option<InstructionSizing>)
    requires 0 < |s| && InstructionAt(s, 0, sizing) == Step(Ok(Some(i)), |s|)
    ensures Listing(s, sizing) == ["bits 16", InstructionText(i)]
    ensures DecodeFrom(s, 0, sizing).error.None?
  {
    DecodeStep(s, 0, sizing, Ok(Some(i)), |s|);
    var st := InstructionAt(s, |s|, sizing);
    DecodeStep(s, |s|, sizing, st.result, st.next);
    RenderLinesCons(i, []);
  }

  /** An empty input yields the header line alone, and no failure. */
  lemma EmptyListing(sizing: Option<InstructionSizing>)
    ensures Listing([], sizing) == ["bits 16"]
    ensures DecodeFrom([], 0, sizing).error.None?
  {
  }

  /** Appending machine code to an input that decodes cleanly appends lines
      to its listing: the lines of `a` stay as they were, and the lines for
      the new bytes follow. */
  lemma ListingAppend(a: seq<bv8>, b: seq<bv8>, sizing: Option<InstructionSizing>)
    requires DecodeFrom(a, 0, sizing).error.None?
    ensures Listing(a + b, sizing) == Listing(a, sizing) + RenderLines(DecodeFrom(a + b, |a|, sizing).instructions)
    ensures DecodeFrom(a + b, 0, sizing).error == DecodeFrom(a + b, |a|, sizing).error
  {
    assert (a + b)[..|a|] == a;
    DecodeExtends(a, a + b, 0, sizing);
    var head, tail := DecodeFrom(a, 0, sizing).instructions, DecodeFrom(a + b, |a|, sizing).instructions;
    RenderLinesAppend(head, tail);
    AppendAssoc(["bits 16"], RenderLines(head), RenderLines(tail));
  }

  /** A byte outside the four opcode ranges ends the decode: everything
      before it is listed, nothing after it is read, and the failure names
      that byte. */
  lemma UnknownOpcodeStops(a: seq<bv8>, x: bv8, c: seq<bv8>, sizing: Option<InstructionSizing>)
    requires !KnownOpcode(x) && DecodeFrom(a, 0, sizing).error.None?
    ensures Listing(a + [x] + c, sizing) == Listing(a, sizing)
    ensures DecodeFrom(a + [x] + c, 0, sizing).error == Some(Failed(x, "Byte matched no known opcodes!"))
  {
    var t := a + [x] + c;
    assert t == a + ([x] + c);
    ListingAppend(a, [x] + c, sizing);
    DispatchByOpcodeRange(t, |a|, sizing);
    var st := InstructionAt(t, |a|, sizing);
    DecodeStep(t, |a|, sizing, st.result, st.next);
    assert Listing(a, sizing) + [] == Listing(a, sizing);
  }

  /** `extract_instruction` on the shared cursor. */
  method ExtractInstruction(c: ByteCursor, sizing: Option<InstructionSizing>) returns (r: Result<Option<Instruction>>)
    requires c.Valid()
    modifies c
    ensures c.Valid()
    ensures Step(r, c.pos) == InstructionAt(c.bytes, old(c.pos), sizing)
  {
    var next := c.Next();
    if next.None? {
      return Ok(None);
    }
    var byte1 := next.value;
    ghost var s, pos := c.bytes, c.pos;
    var decoded: Result<Instruction>;
    if byte1 & 0xFC == 0x88 {
      decoded := ExtractRegisterOrMemoryToOrFromRegister(c, byte1, sizing);
      assert Step(decoded, c.pos) == RegisterOrMemoryToOrFromRegister(s, pos, byte1, sizing);
    } else if byte1 & 0xFE == 0xC6 {
      decoded := ExtractImmediateToRegisterOrMemory(c, byte1, sizing);
      assert Step(decoded, c.pos) == ImmediateToRegisterOrMemory(s, pos, byte1, sizing);
    } else if byte1 & 0xF0 == 0xB0 {
      decoded := ExtractImmediateToRegister(c, byte1, sizing);
      assert Step(decoded, c.pos) == ImmediateToRegister(s, pos, byte1, sizing);
    } else if byte1 & 0xFC == 0xA0 {
      decoded := ExtractAccumulatorToMemoryOrMemoryToAccumulator(c, byte1, sizing);
      assert Step(decoded, c.pos) == AccumulatorToMemoryOrMemoryToAccumulator(s, pos, byte1, sizing);
    } else {
      return Err(Failed(byte1, "Byte matched no known opcodes!"));
    }
    match decoded {
      case Ok(i) => r := Ok(Some(i));
      case Err(e) => r := Err(e);
    }
    assert Step(r, c.pos) == Lift(Step(decoded, c.pos));
  }

  /** `decode_instructions`: writes `bits 16`, then one line per decoded
      instruction; stops at the end of the input or at the first failure,
      keeping the lines already written. */
  method DecodeInstructions(sourceFile: seq<bv8>, sizing: Option<InstructionSizing>)
    returns (lines: seq<string>, error: Option<Failed>)
    ensures lines == Listing(sourceFile, sizing)
    ensures error == DecodeFrom(sourceFile, 0, sizing).error
  {
    var c := new ByteCursor(sourceFile);
    lines := ["bits 16"];
    while true
      invariant c.Valid() && c.bytes == sourceFile
      invariant lines + RenderLines(DecodeFrom(sourceFile, c.pos, sizing).instructions) == Listing(sourceFile, sizing)
      invariant DecodeFrom(sourceFile, c.pos, sizing).error == DecodeFrom(sourceFile, 0, sizing).error
      decreases |sourceFile| - c.pos
    {
      ghost var before := c.pos;
      var readInstruction := ExtractInstruction(c, sizing);
      DecodeStep(sourceFile, before, sizing, readInstruction, c.pos);
      if readInstruction.Err? || readInstruction.value.None? {
        error := if readInstruction.Err? then Some(readInstruction.error) else None;
        return;
      }
      var instruction := readInstruction.value.value;
      ghost var rest := RenderLines(DecodeFrom(sourceFile, c.pos, sizing).instructions);
      RenderLinesCons(instruction, DecodeFrom(sourceFile, c.pos, sizing).instructions);
      AppendAssoc(lines, [InstructionText(instruction)], rest);
      lines := lines + [InstructionText(instruction)];
    }
  }

  /** One turn of the decode loop: what the next decode means for the rest
      of the output. */
  lemma DecodeStep(s: seq<bv8>, pos: nat, sizing: Option<InstructionSizing>, r: Result<Option<Instruction>>, next: nat)
    requires pos <= |s| && Step(r, next) == InstructionAt(s, pos, sizing)
    ensures next <= |s|
    ensures r.Ok? && r.value.Some? ==>
      pos < next &&
      DecodeFrom(s, pos, sizing) ==
        Decoding([r.value.value] + DecodeFrom(s, next, sizing).instructions, DecodeFrom(s, next, sizing).error)
    ensures r.Err? ==> DecodeFrom(s, pos, sizing) == Decoding([], Some(r.error))
    ensures r == Ok(None) ==> DecodeFrom(s, pos, sizing) == Decoding([], None)
  {
  }

}
