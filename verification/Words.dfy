/** White space and words (strings.Fields, strings.TrimSpace). Text is a string of bytes, one character each, in UTF-8 as
    far as it is text. */
module Words {
  import opened Decimal

  // ----- white space -----

  predicate IsAsciiSpace(c: char) {
    c == ' ' || c == '\t' || c == '\n' || c == '\r' || c as int == 11 || c as int == 12
  }

  /** U+0085 and U+00A0. */
  predicate IsSpaceOfTwo(a: char, b: char) { a == '\U{C2}' && (b == '\U{85}' || b == '\U{A0}') }

  /** U+1680, U+2000 to U+200A, U+2028, U+2029, U+202F, U+205F and U+3000. */
  predicate IsSpaceOfThree(a: char, b: char, c: char) {
    || (a == '\U{E1}' && b == '\U{9A}' && c == '\U{80}')
    || (a == '\U{E2}' && b == '\U{80}' && ('\U{80}' <= c <= '\U{8A}' || c == '\U{A8}' || c == '\U{A9}' || c == '\U{AF}'))
    || (a == '\U{E2}' && b == '\U{81}' && c == '\U{9F}')
    || (a == '\U{E3}' && b == '\U{80}' && c == '\U{80}')
  }

  /** How many bytes of white space stand at an index: those of one character, or none. The first byte of such a
      character continues no other one, so that it is white space wherever it stands. */
  function SpaceAt(s: string, i: nat): nat {
    if i >= |s| then 0
    else if IsAsciiSpace(s[i]) then 1
    else if i + 2 <= |s| && IsSpaceOfTwo(s[i], s[i + 1]) then 2
    else if i + 3 <= |s| && IsSpaceOfThree(s[i], s[i + 1], s[i + 2]) then 3
    else 0
  }

  /** How many bytes the white space at the end of a text has: those of its last character, or none. */
  function SpaceBefore(s: string): nat {
    if s == "" then 0
    else if IsAsciiSpace(s[|s| - 1]) then 1
    else if |s| >= 2 && SpaceAt(s, |s| - 2) == 2 then 2
    else if |s| >= 3 && SpaceAt(s, |s| - 3) == 3 then 3
    else 0
  }

  ghost predicate NoSpace(s: string) { forall i: nat :: i < |s| ==> SpaceAt(s, i) == 0 }

  ghost predicate Token(s: string) { s != "" && NoSpace(s) }

  ghost predicate StartsWithSpace(s: string) { SpaceAt(s, 0) > 0 }

  /** One character of white space. */
  ghost predicate IsSpace(s: string) { s != "" && SpaceAt(s, 0) == |s| }

  /** White space in a text is white space with more behind it. */
  lemma SpaceInFront(s: string, r: string, i: nat)
    requires i < |s|
    ensures SpaceAt(s, i) > 0 ==> SpaceAt(s + r, i) == SpaceAt(s, i)
    ensures StartsWithSpace(r) ==> SpaceAt(s + r, i) == SpaceAt(s, i)
  {
  }

  lemma SpaceFurther(s: string, r: string, i: nat)
    ensures SpaceAt(s + r, |s| + i) == SpaceAt(r, i)
  {
  }

  // ----- fields -----

  /** Where the text ends or white space comes. */
  function WordEnd(s: string, i: nat): (k: nat)
    requires i <= |s|
    ensures i <= k <= |s| && (k < |s| ==> SpaceAt(s, k) > 0) && forall j: nat :: i <= j < k ==> SpaceAt(s, j) == 0
    decreases |s| - i
  {
    if i == |s| || SpaceAt(s, i) > 0 then i else WordEnd(s, i + 1)
  }

  /** strings.Fields */
  function Fields(s: string): seq<string>
    decreases |s|
  {
    if s == "" then []
    else if SpaceAt(s, 0) > 0 then Fields(s[SpaceAt(s, 0)..])
    else [s[..WordEnd(s, 0)]] + Fields(s[WordEnd(s, 0)..])
  }

  /** Every field is a word. */
  lemma {:induction false} FieldsAreTokens(s: string)
    ensures forall f :: f in Fields(s) ==> Token(f)
    decreases |s|
  {
    if s != "" {
      if SpaceAt(s, 0) > 0 {
        FieldsAreTokens(s[SpaceAt(s, 0)..]);
      } else {
        var k := WordEnd(s, 0);
        assert s == s[..k] + s[k..];
        forall i: nat | i < k ensures SpaceAt(s[..k], i) == 0 { SpaceInFront(s[..k], s[k..], i); }
        FieldsAreTokens(s[k..]);
      }
    }
  }

  lemma WordEndInFront(s: string, r: string)
    requires StartsWithSpace(r)
    ensures WordEnd(s + r, 0) == WordEnd(s, 0)
  {
    var k := WordEnd(s, 0);
    forall j: nat | j < |s| ensures SpaceAt(s + r, j) == SpaceAt(s, j) { SpaceInFront(s, r, j); }
    SpaceFurther(s, r, 0);
    if k < |s| { assert SpaceAt(s + r, k) > 0; } else { assert SpaceAt(s + r, k) > 0; }
    assert forall j: nat :: j < k ==> SpaceAt(s + r, j) == 0;
  }

  /** White space splits a text into two with the same words. */
  lemma {:induction false} FieldsOfTwo(s: string, r: string)
    requires StartsWithSpace(r)
    ensures Fields(s + r) == Fields(s) + Fields(r)
    decreases |s|
  {
    hide SpaceAt;
    if s == "" {
      assert s + r == r;
    } else {
      SpaceInFront(s, r, 0);
      WordEndInFront(s, r);
      var n := if SpaceAt(s, 0) > 0 then SpaceAt(s, 0) else WordEnd(s, 0);
      SpaceFits(s);
      assert (s + r)[n..] == s[n..] + r && (s + r)[..n] == s[..n];
      FieldsOfTwo(s[n..], r);
    }
  }

  lemma SpaceFits(s: string)
    ensures SpaceAt(s, 0) <= |s|
  {
  }

  lemma FieldsOfToken(t: string)
    requires Token(t)
    ensures Fields(t) == [t]
  {
    assert SpaceAt(t, 0) == 0 && WordEnd(t, 0) == |t|;
    assert t[..|t|] == t && t[|t|..] == "";
  }

  lemma FieldsOfSpace(space: string, s: string)
    requires IsSpace(space)
    ensures Fields(space + s) == Fields(s) && StartsWithSpace(space + s)
  {
    SpaceInFront(space, s, 0);
    assert (space + s)[|space|..] == s;
  }

  /** Behind white space, a word is one more field. */
  lemma NextField(s: string, space: string, t: string)
    requires IsSpace(space) && Token(t)
    ensures Fields(s + space + t) == Fields(s) + [t]
  {
    hide IsSpace, Token, Fields, StartsWithSpace;
    FieldsOfSpace(space, t);
    FieldsOfTwo(s, space + t);
    FieldsOfToken(t);
    assert s + space + t == s + (space + t);
  }

  lemma BlankIsSpace()
    ensures IsSpace(" ")
  {
  }

  // ----- lines -----

  /** A word that is left out when empty. */
  function Optional(s: string): seq<string> { if s == "" then [] else [s] }

  /** A first word followed by others, each after a space. */
  function Line(first: string, others: seq<string>): string {
    if others == [] then first else Line(first, others[..|others| - 1]) + " " + others[|others| - 1]
  }

  /** Splitting a line gives back its words. */
  lemma {:induction false} FieldsOfLine(first: string, others: seq<string>)
    requires Token(first) && forall o :: o in others ==> Token(o)
    ensures Fields(Line(first, others)) == [first] + others
  {
    hide Token, Fields;
    if others == [] {
      FieldsOfToken(first);
    } else {
      var init, last := others[..|others| - 1], others[|others| - 1];
      FieldsOfLine(first, init);
      BlankIsSpace();
      NextField(Line(first, init), " ", last);
      assert others == init + [last];
    }
  }

  lemma TokenShape(t: string)
    requires Token(t)
    ensures forall i :: 0 <= i < |t| ==> !IsAsciiSpace(t[i])
  {
    forall i: nat | i < |t| ensures !IsAsciiSpace(t[i]) { assert SpaceAt(t, i) == 0; }
  }

  /** What a line of words looks like. */
  lemma {:induction false} LineShape(first: string, others: seq<string>)
    requires Token(first) && forall o :: o in others ==> Token(o)
    ensures var l := Line(first, others);
            l != "" && l[0] == first[0] && !IsAsciiSpace(l[|l| - 1]) && forall i :: 0 <= i < |l| ==> l[i] != '\n'
  {
    TokenShape(first);
    hide NoSpace;
    if others != [] {
      assert others[|others| - 1] in others;
      TokenShape(others[|others| - 1]);
      LineShape(first, others[..|others| - 1]);
    }
  }

  lemma AsciiIsToken(s: string)
    requires s != "" && forall i :: 0 <= i < |s| ==> '!' <= s[i] <= '~'
    ensures Token(s)
  {
  }

  lemma IntIsToken(n: int)
    ensures Token(IntToString(n))
  {
    AsciiIsToken(IntToString(n));
  }

  /** Behind a blank, or at the start of a text, a word is one more field. */
  lemma WordIsField(s: string, t: string)
    requires Token(t)
    ensures Fields((if s == "" then "" else s + " ") + t) == Fields(s) + [t]
  {
    hide Token;
    if s == "" {
      FieldsOfToken(t);
      assert "" + t == t;
    } else {
      BlankIsSpace();
      NextField(s, " ", t);
    }
  }
}
