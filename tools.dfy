/** The byte cursor (src/tools.rs): a forward-only reader over the machine
    code. The source advances a shared `IntoIter<u8>`; here the iterator is a
    `ByteCursor` object holding the bytes and the index of the next one, and
    each reading method is proved equal to a function over (bytes, position)
    that the rest of the model reasons about. */
module Tools {
  import opened Errors

  /** Rust's `u16`. */
  type u16 = x: int | 0 <= x < 0x10000

  /** What a read yields: its outcome and where the cursor stands afterwards
      (after a failure too). */
  datatype Step<+T> = Step(result: Result<T>, next: nat) {

    /** Carries a failure over to a read of another type, like Rust's `?`. */
    function PropagateFailure<U>(): (st: Step<U>)
      requires result.Err?
      ensures st.result.Err? && st.result.error == result.error && st.next == next
    {
      Step(Err(result.error), next)
    }
  }

  /** `get_u8_displacement_from_iterator`: the next byte, or a failure naming
      the opcode byte `byte1` when the stream is exhausted. */
  function ReadU8(s: seq<bv8>, pos: nat, byte1: bv8, message: string): (st: Step<bv8>)
    requires pos <= |s|
    ensures st.result.Ok? <==> pos < |s|
    ensures st.result.Ok? ==> st.result.value == s[pos] && st.next == pos + 1
    ensures st.result.Err? ==> st.result.error == Failed(byte1, message) && st.next == pos
  {
    if pos < |s| then Step(Ok(s[pos]), pos + 1)
    else Step(Err(Failed(byte1, message)), pos)
  }

  /** `get_u16_displacement_from_iterator`: two reads, low byte first, joined
      by a shift and an add on `u16`. The sum equals lo + 256 * hi, so the
      16-bit add never overflows. */
  function ReadU16(s: seq<bv8>, pos: nat, byte1: bv8, message: string): (st: Step<u16>)
    requires pos <= |s|
    ensures st.result.Ok? <==> pos + 2 <= |s|
    ensures st.result.Ok? ==> st.next == pos + 2
    ensures st.result.Ok? ==> st.result.value == LittleEndian(s[pos], s[pos + 1])
    ensures st.result.Err? ==> st.result.error == Failed(byte1, message) && st.next == |s|
  {
    var lo := ReadU8(s, pos, byte1, message);
    if lo.result.Err? then lo.PropagateFailure()
    else
      var hi := ReadU8(s, lo.next, byte1, message);
      if hi.result.Err? then hi.PropagateFailure()
      else Step(Ok(JoinU16(lo.result.value, hi.result.value)), hi.next)
  }

  /** The value of a little-endian pair of bytes, in plain arithmetic. */
  function LittleEndian(lo: bv8, hi: bv8): int
  {
    lo as int + 256 * hi as int
  }

  /** `((hi as u16) << 8) + lo`: the high byte shifted into place, then the
      low byte added, each on 16 bits (what would leave the word is dropped).
      No bit is lost and the add cannot carry out of the word. */
  function JoinU16(lo: bv8, hi: bv8): (r: u16)
    ensures r == LittleEndian(lo, hi)
  {
    var high, low := hi as int, lo as int;
    assert 0 <= high < 0x100 && 0 <= low < 0x100;
    Wrap16(Wrap16(high * 0x100) + low)
  }

  /** Arithmetic on `u16`: what does not fit in 16 bits is dropped. */
  function Wrap16(x: nat): (r: u16)
    ensures x < 0x10000 ==> r == x
  {
    x % 0x10000
  }

  /** `t` continues the stream `s`: every byte of `s` is still there, at the
      same index. */
  predicate Extends(s: seq<bv8>, t: seq<bv8>)
  {
    |s| <= |t| && t[..|s|] == s
  }

  /** A read that succeeds only looks at bytes the stream already has, so
      more input after them changes nothing. */
  lemma ReadU8Extends(s: seq<bv8>, t: seq<bv8>, pos: nat, byte1: bv8, message: string)
    requires pos <= |s| && Extends(s, t) && ReadU8(s, pos, byte1, message).result.Ok?
    ensures ReadU8(t, pos, byte1, message) == ReadU8(s, pos, byte1, message)
  {
    assert t[pos] == t[..|s|][pos];
  }

  lemma ReadU16Extends(s: seq<bv8>, t: seq<bv8>, pos: nat, byte1: bv8, message: string)
    requires pos <= |s| && Extends(s, t) && ReadU16(s, pos, byte1, message).result.Ok?
    ensures ReadU16(t, pos, byte1, message) == ReadU16(s, pos, byte1, message)
  {
    ReadU8Extends(s, t, pos, byte1, message);
    ReadU8Extends(s, t, pos + 1, byte1, message);
  }

  /** The two unit tests of src/tools.rs. */
  lemma ReadU16UnitTests()
    ensures ReadU16([0x0C, 0x03], 0, 0x00, "").result == Ok(0x030C)
    ensures ReadU16([0x87, 0x13], 0, 0x00, "").result == Ok(0x1387)
  {
  }

  /** The machine-code iterator: the bytes never change, the position only
      moves forward. */
  class ByteCursor {
    const bytes: seq<bv8>
    var pos: nat

    ghost predicate Valid()
      reads this
    {
      pos <= |bytes|
    }

    constructor (input: seq<bv8>)
      ensures Valid() && bytes == input && pos == 0
    {
      bytes := input;
      pos := 0;
    }

    /** `Iterator::next`: the byte under the cursor, if any, consuming it. */
    method Next() returns (b: Option<bv8>)
      requires Valid()
      modifies this
      ensures Valid()
      ensures old(pos) < |bytes| ==> b == Some(bytes[old(pos)]) && pos == old(pos) + 1
      ensures old(pos) == |bytes| ==> b == None && pos == old(pos)
    {
      if pos < |bytes| {
        b := Some(bytes[pos]);
        pos := pos + 1;
      } else {
        b := None;
      }
    }

    method GetU8(byte1: bv8, message: string) returns (r: Result<bv8>)
      requires Valid()
      modifies this
      ensures Valid()
      ensures Step(r, pos) == ReadU8(bytes, old(pos), byte1, message)
    {
      var b := Next();
      match b
      case Some(value) => r := Ok(value);
      case None => r := Err(Failed(byte1, message));
    }

    method GetU16(byte1: bv8, message: string) returns (r: Result<u16>)
      requires Valid()
      modifies this
      ensures Valid()
      ensures Step(r, pos) == ReadU16(bytes, old(pos), byte1, message)
    {
      var lo := GetU8(byte1, message);
      if lo.Err? {
        return Err(lo.error);
      }
      var hi := GetU8(byte1, message);
      if hi.Err? {
        return Err(hi.error);
      }
      r := Ok(JoinU16(lo.value, hi.value));
    }
  }
}
