/** The characters that texts are made of: which are white space, as code points and in UTF-8 (unicode.IsSpace); which are
    escaped and how (internal/deck/encode.go); and the digits of decimal numbers (strconv, fmt). */
module TextFormat {
  import opened Bytes
  import opened Decimal
  import opened Words
  import opened FossilText

  // ----- white space -----

  /** A code point in UTF-8. */
  function Utf8(c: int): string
    requires 0 <= c < 0x11_0000
  {
    if c < 0x80 then [c as char]
    else if c < 0x800 then [(0xC0 + c / 64) as char, (0x80 + c % 64) as char]
    else if c < 0x1_0000 then [(0xE0 + c / 4096) as char, (0x80 + c / 64 % 64) as char, (0x80 + c % 64) as char]
    else [(0xF0 + c / 0x4_0000) as char, (0x80 + c / 4096 % 64) as char, (0x80 + c / 64 % 64) as char, (0x80 + c % 64) as char]
  }

  /** unicode.IsSpace */
  predicate WhiteSpace(c: int) {
    || 9 <= c <= 13 || c == 0x20 || c == 0x85 || c == 0xA0 || c == 0x1680 || 0x2000 <= c <= 0x200A
    || c == 0x2028 || c == 0x2029 || c == 0x202F || c == 0x205F || c == 0x3000
  }

  /** Just these code points are taken for white space. */
  lemma SpaceIsWhiteSpace(c: int)
    requires 0 <= c < 0x11_0000
    ensures IsSpace(Utf8(c)) <==> WhiteSpace(c)
  {
    hide IsSpace, WhiteSpace;
    if c < 0x80 {
      SpaceOfOne(c);
    } else if c < 0x800 {
      SpaceOfTwo(c / 64, c % 64);
    } else if c < 0x1_0000 {
      SpaceOfThree(c / 4096, c / 64 % 64, c % 64);
      assert c == c / 4096 * 4096 + c / 64 % 64 * 64 + c % 64;
    } else {
      NoSpaceOfFour(Utf8(c), c);
    }
  }

  lemma SpaceOfOne(c: int)
    requires 0 <= c < 0x80
    ensures IsSpace([c as char]) <==> WhiteSpace(c)
  {
  }

  lemma NoSpaceOfFour(s: string, c: int)
    requires |s| == 4 && 0x1_0000 <= c
    ensures !IsSpace(s) && !WhiteSpace(c)
  {
  }

  lemma SpaceOfTwo(a: int, b: int)
    requires 2 <= a < 32 && 0 <= b < 64
    ensures IsSpace([(0xC0 + a) as char, (0x80 + b) as char]) <==> WhiteSpace(a * 64 + b)
  {
  }

  lemma SpaceOfThree(a: int, b: int, c: int)
    requires 0 <= a < 16 && 0 <= b < 64 && 0 <= c < 64 && a * 4096 + b * 64 + c >= 0x800
    ensures IsSpace([(0xE0 + a) as char, (0x80 + b) as char, (0x80 + c) as char]) <==> WhiteSpace(a * 4096 + b * 64 + c)
  {
    if a == 1 || a == 2 || a == 3 { }
  }

  // ----- escapes -----

  /** Every character is escaped on its own. */
  lemma {:induction false} EncodedConcat(s: string, t: string)
    ensures Encoded(s + t) == Encoded(s) + Encoded(t)
    decreases |t|
  {
    hide Escape;
    if t == "" {
      assert s + t == s;
    } else {
      var init := t[..|t| - 1];
      assert (s + t)[..|s + t| - 1] == s + init;
      EncodedConcat(s, init);
    }
  }

  /** A blank, a newline and a backslash are escaped; nothing else is. */
  lemma EncodedCharacters(c: char)
    ensures Encoded([c]) == if c == ' ' then "\\s" else if c == '\n' then "\\n" else if c == '\\' then "\\\\" else [c]
  {
    assert [c][..0] == "";
  }

  /** Decoding takes each escape for its character, and a backslash that starts none for itself. */
  lemma DecodedCharacters(c: char, rest: string)
    ensures Decoded("\\s" + rest) == " " + Decoded(rest) && Decoded("\\n" + rest) == "\n" + Decoded(rest)
    ensures Decoded("\\\\" + rest) == "\\" + Decoded(rest) && Decoded("\\") == "\\"
    ensures c != '\\' ==> Decoded([c] + rest) == [c] + Decoded(rest)
    ensures c != 's' && c != 'n' && c != '\\' ==> Decoded("\\" + ([c] + rest)) == "\\" + Decoded([c] + rest)
  {
    assert ("\\s" + rest)[2..] == rest && ("\\n" + rest)[2..] == rest && ("\\\\" + rest)[2..] == rest;
    assert ([c] + rest)[1..] == rest && ("\\" + ([c] + rest))[1..] == [c] + rest;
    assert "\\"[1..] == "";
  }

  // ----- numbers -----

  lemma DigitsAre(d: nat)
    requires d < 10
    ensures NatToString(d) == ["0123456789"[d]] && DigitChar(d) == "0123456789"[d]
  {
  }

  /** Numbers are printed in decimal, the most significant digit first, without leading zeros. */
  lemma NumbersAreDecimal(n: nat, d: nat)
    requires n > 0 && d < 10
    ensures NatToString(10 * n + d) == NatToString(n) + ["0123456789"[d]]
    ensures IntToString(n) == NatToString(n) && IntToString(0 - n) == "-" + NatToString(n)
  {
    assert (10 * n + d) / 10 == n && (10 * n + d) % 10 == d;
    DigitsAre(d);
  }

  /** What is read as a number: an optional sign and digits, and no more than 64 bits. */
  lemma NumbersAreRead(n: nat)
    ensures var digits := NatToString(n);
            && Atoi(digits) == Atoi("+" + digits) == (if n < 0x8000_0000_0000_0000 then Some(n) else None)
            && Atoi("-" + digits) == (if n <= 0x8000_0000_0000_0000 then Some(0 - n) else None)
            && Atoi("00" + digits) == Atoi(digits)
    ensures Atoi("") == Atoi("+") == Atoi("-") == None
  {
    NatRoundTrip(n);
    var digits := NatToString(n);
    assert IsDigit(digits[0]);
    assert ("+" + digits)[1..] == digits && ("-" + digits)[1..] == digits;
    LeadingZeros(digits);
  }

  lemma {:induction false} LeadingZeros(digits: string)
    requires forall i :: 0 <= i < |digits| ==> IsDigit(digits[i])
    ensures StringToNat("00" + digits) == StringToNat(digits)
  {
    if digits == "" {
      assert "00" + digits == "00" && "00"[..1] == "0" && "0"[..0] == "";
      assert StringToNat("0") == Some(0);
    } else {
      var init := digits[..|digits| - 1];
      assert ("00" + digits)[..|"00" + digits| - 1] == "00" + init;
      LeadingZeros(init);
    }
  }

  /** Anything else is not. */
  lemma OthersAreRefused(s: string, i: nat)
    requires i < |s| && !IsDigit(s[i]) && (i == 0 ==> s[0] != '+' && s[0] != '-')
    ensures Atoi(s) == None
  {
    if s[0] == '-' || s[0] == '+' {
      assert s[1..][i - 1] == s[i];
      NoNumber(s[1..], i - 1);
    } else {
      NoNumber(s, i);
    }
  }

  lemma {:induction false} NoNumber(s: string, i: nat)
    requires i < |s| && !IsDigit(s[i])
    ensures StringToNat(s) == None
    decreases |s|
  {
    if i < |s| - 1 { NoNumber(s[..|s| - 1], i); }
  }
}
