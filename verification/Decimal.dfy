/** Decimal numbers as text: what fmt's %d prints, and what strconv.Atoi and strconv.ParseInt with base ten and 64
    bits read. A sign is optional, there must be a digit, and a number that does not fit into 64 bits is an error. */
module Decimal {
  import opened Bytes

  const MIN_INT64: int := -0x8000_0000_0000_0000
  const MAX_INT64: int := 0x7fff_ffff_ffff_ffff

  function DigitChar(d: int): char
    requires 0 <= d < 10
  {
    '0' + d as char
  }

  predicate IsDigit(c: char) { '0' <= c <= '9' }

  function DigitValue(c: char): int
    requires IsDigit(c)
  {
    c as int - '0' as int
  }

  function NatToString(n: nat): (s: string)
    ensures s != "" && forall i :: 0 <= i < |s| ==> IsDigit(s[i])
  {
    if n < 10 then [DigitChar(n)] else NatToString(n / 10) + [DigitChar(n % 10)]
  }

  /** %d */
  function IntToString(n: int): string {
    if n < 0 then "-" + NatToString(-n) else NatToString(n)
  }

  function StringToNat(s: string): Option<nat> {
    if s == "" then Some(0)
    else if !IsDigit(s[|s| - 1]) then None
    else match StringToNat(s[..|s| - 1])
         case None => None
         case Some(v) => Some(v * 10 + DigitValue(s[|s| - 1]))
  }

  function InInt64(n: int): Option<int> { if MIN_INT64 <= n <= MAX_INT64 then Some(n) else None }

  /** strconv.Atoi: an optional sign, at least one digit, and the result within 64 bits. */
  function Atoi(s: string): Option<int> {
    var negative := s != "" && s[0] == '-';
    var digits := if s != "" && (s[0] == '-' || s[0] == '+') then s[1..] else s;
    if digits == "" then None
    else match StringToNat(digits)
         case None => None
         case Some(v) => InInt64(if negative then 0 - v else v)
  }

  lemma {:induction false} NatRoundTrip(n: nat)
    ensures StringToNat(NatToString(n)) == Some(n)
  {
    if n < 10 {
      assert StringToNat("") == Some(0);
    } else {
      NatRoundTrip(n / 10);
      assert NatToString(n)[..|NatToString(n)| - 1] == NatToString(n / 10);
    }
  }

  /** What was printed is read back, or refused when it has more than 64 bits. */
  lemma IntIsReadBack(n: int)
    ensures Atoi(IntToString(n)) == InInt64(n)
  {
    if n < 0 {
      NatRoundTrip(-n);
      assert IntToString(n)[1..] == NatToString(-n);
    } else {
      NatRoundTrip(n);
      assert IsDigit(NatToString(n)[0]);
    }
  }

  /** Reading back what was printed. */
  lemma IntRoundTrip(n: int)
    requires MIN_INT64 <= n <= MAX_INT64
    ensures Atoi(IntToString(n)) == Some(n)
  {
    IntIsReadBack(n);
  }
}
