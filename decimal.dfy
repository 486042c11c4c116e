/** Decimal text of integers, as Rust's `to_string` writes the `u16` of an
    immediate and the `i16` of a memory offset (src/x86_definitions.rs:120,
    :181): digits most significant first, no leading zeros, a '-' before a
    negative value. Beside each renderer sits the parser that undoes it. */
module Decimal {
  import opened Errors

  predicate IsDigit(c: char)
  {
    '0' <= c <= '9'
  }

  predicate AllDigits(s: string)
  {
    forall i :: 0 <= i < |s| ==> IsDigit(s[i])
  }

  /** Characters that can occur in a rendered integer. */
  predicate IsNumeral(c: char)
  {
    IsDigit(c) || c == '-'
  }

  function DigitChar(d: nat): (c: char)
    requires d < 10
    ensures IsDigit(c) && c as int - '0' as int == d
  {
    "0123456789"[d]
  }

  /** Decimal text of a non-negative integer. */
  function NatToString(n: nat): (s: string)
    ensures 1 <= |s| && AllDigits(s)
    ensures s[0] == '0' ==> n == 0
    decreases n
  {
    if n < 10 then [DigitChar(n)] else NatToString(n / 10) + [DigitChar(n % 10)]
  }

  /** Decimal text of an integer, with a minus sign when negative; like
      `NatToString`, no leading zero, and never `-0`. */
  function IntToString(i: int): (s: string)
    ensures 1 <= |s|
    ensures forall k :: 0 <= k < |s| ==> IsNumeral(s[k])
    ensures s[0] == '-' <==> i < 0
    ensures s[0] == '0' ==> i == 0
    ensures s[0] == '-' ==> 2 <= |s| && AllDigits(s[1..]) && s[1] != '0'
  {
    if i < 0 then
      var digits := NatToString(-i);
      assert ("-" + digits)[1..] == digits;
      "-" + digits
    else NatToString(i)
  }

  /** The value of a string of digits. */
  function DigitsValue(s: string): nat
    requires AllDigits(s)
  {
    if s == [] then 0 else DigitsValue(s[..|s| - 1]) * 10 + (s[|s| - 1] as int - '0' as int)
  }

  /** Reads back what `IntToString` writes: an optional minus sign and
      digits without a leading zero (`0` alone is allowed, `-0` is not);
      anything else is refused. */
  function ParseInt(s: string): Option<int>
  {
    if 2 <= |s| && s[0] == '-' && AllDigits(s[1..]) && s[1] != '0' then Some(0 - DigitsValue(s[1..]))
    else if 1 <= |s| && AllDigits(s) && (s[0] == '0' ==> |s| == 1) then Some(DigitsValue(s))
    else None
  }

  lemma {:induction false} NatToStringRoundTrip(n: nat)
    ensures DigitsValue(NatToString(n)) == n
    decreases n
  {
    if n >= 10 {
      var s := NatToString(n);
      assert s[..|s| - 1] == NatToString(n / 10);
      NatToStringRoundTrip(n / 10);
    }
  }

  lemma IntToStringRoundTrip(i: int)
    ensures ParseInt(IntToString(i)) == Some(i)
  {
    if i < 0 {
      NegativeRoundTrip(-i);
    } else {
      var s := NatToString(i);
      assert s[0] != '-';
      NatToStringRoundTrip(i);
    }
  }

  /** A minus sign and the digits of a positive value read back as its
      negation. */
  lemma NegativeRoundTrip(n: nat)
    requires 0 < n
    ensures ParseInt("-" + NatToString(n)) == Some(0 - n as int)
  {
    var digits := NatToString(n);
    var s := "-" + digits;
    assert s[1..] == digits;
    NatToStringRoundTrip(n);
  }

  /** The parser takes only the canonical text: no padded digits, no `-0`. */
  lemma ParseIntRefusesLeadingZeros()
    ensures ParseInt("0300") == None && ParseInt("-0128") == None && ParseInt("-0") == None
    ensures ParseInt("0") == Some(0) && ParseInt("-128") == Some(-128)
  {
    assert DigitsValue("128") == 128 by {
      assert "128"[..2] == "12" && "12"[..1] == "1" && "1"[..0] == "";
    }
  }

  /** Distinct integers are written differently. */
  lemma IntToStringInjective(i: int, j: int)
    requires IntToString(i) == IntToString(j)
    ensures i == j
  {
    IntToStringRoundTrip(i);
    IntToStringRoundTrip(j);
  }
}
