/** Fossil's escaping of text (internal/deck/encode.go). Text is a string of bytes, one character each. Blanks, newlines
    and backslashes are escaped, other white space is not; it is found in escaped text just where it was before. */
module FossilText {
  import opened Bytes
  import opened Words

  // ----- escaping -----

  function Escape(c: char): string {
    match c
    case ' ' => "\\s"
    case '\n' => "\\n"
    case '\\' => "\\\\"
    case _ => [c]
  }

  function Encoded(s: string): string {
    if s == "" then "" else Encoded(s[..|s| - 1]) + Escape(s[|s| - 1])
  }

  /** The character that an escape stands for. */
  function Unescape(c: char): Option<char> {
    match c
    case 's' => Some(' ')
    case 'n' => Some('\n')
    case '\\' => Some('\\')
    case _ => None
  }

  /** A backslash that starts no escape stands for itself. */
  function Decoded(s: string): string {
    if s == "" then ""
    else if s[0] == '\\' && |s| > 1 && Unescape(s[1]).Some? then [Unescape(s[1]).value] + Decoded(s[2..])
    else [s[0]] + Decoded(s[1..])
  }

  method FossilEncode(s: string) returns (b: string)
    ensures b == Encoded(s)
  {
    b := "";
    for i := 0 to |s|
      invariant b == Encoded(s[..i])
    {
      assert s[..i + 1][..i] == s[..i];
      b := b + Escape(s[i]);
    }
    assert s[..|s|] == s;
  }

  method FossilDecode(s: string) returns (b: string)
    ensures b == Decoded(s)
  {
    hide Decoded;
    b := "";
    var i := 0;
    DecodedEnds();
    assert s[0..] == s;
    while i < |s|
      invariant 0 <= i <= |s| && b + Decoded(s[i..]) == Decoded(s)
    {
      DecodedFrom(s, i, b);
      if s[i] == '\\' && i + 1 < |s| {
        var c := Unescape(s[i + 1]);
        if c.Some? {
          b := b + [c.value];
          i := i + 1;
        } else {
          b := b + [s[i]];
        }
      } else {
        b := b + [s[i]];
      }
      i := i + 1;
    }
    assert s[|s|..] == "";
  }

  lemma DecodedEnds()
    ensures Decoded("") == ""
  {
  }

  lemma DecodedFrom(s: string, i: nat, b: string)
    requires i < |s|
    ensures b + Decoded(s[i..]) ==
            if s[i] == '\\' && i + 1 < |s| && Unescape(s[i + 1]).Some? then b + [Unescape(s[i + 1]).value] + Decoded(s[i + 2..])
            else b + [s[i]] + Decoded(s[i + 1..])
  {
    assert s[i..][1..] == s[i + 1..];
    if i + 1 < |s| { assert s[i..][2..] == s[i + 2..]; }
  }

  lemma DecodeEscape(c: char, rest: string)
    ensures Decoded(Escape(c) + rest) == [c] + Decoded(rest)
  {
    var e := Escape(c);
    if |e| == 2 {
      assert (e + rest)[2..] == rest;
    } else {
      assert (e + rest)[1..] == rest;
    }
  }

  lemma {:induction false} DecodeEncoded(s: string, rest: string)
    ensures Decoded(Encoded(s) + rest) == s + Decoded(rest)
    decreases |s|
  {
    hide Decoded, Escape;
    if s == "" {
      assert Encoded(s) + rest == rest;
      assert s + Decoded(rest) == Decoded(rest);
    } else {
      var init, c := s[..|s| - 1], s[|s| - 1];
      assert Encoded(s) + rest == Encoded(init) + (Escape(c) + rest);
      DecodeEncoded(init, Escape(c) + rest);
      DecodeEscape(c, rest);
      assert init + ([c] + Decoded(rest)) == s + Decoded(rest);
    }
  }

  /** Decoding gives back whatever was encoded. */
  lemma DecodeUndoesEncode(s: string)
    ensures Decoded(Encoded(s)) == s
  {
    DecodeEncoded(s, "");
    assert Encoded(s) + "" == Encoded(s);
  }

  // ----- escaped text as a word -----

  /** Text that escaping turns into one word: not empty, and no white space but blanks and newlines. */
  ghost predicate Escapable(s: string) { s != "" && OnlyBlanks(s) }

  ghost predicate OnlyBlanks(s: string) {
    forall i: nat :: i < |s| ==> s[i] == ' ' || s[i] == '\n' || SpaceAt(s, i) == 0
  }

  lemma {:induction false} EncodedFirst(c: char, s: string)
    ensures Encoded([c] + s) == Escape(c) + Encoded(s)
    decreases |s|
  {
    hide Escape;
    if s == "" {
      assert [c] + s == [c] && [c][..0] == "";
    } else {
      var init, last := s[..|s| - 1], s[|s| - 1];
      EncodedFirst(c, init);
      EncodedLast([c] + init, last);
      EncodedLast(init, last);
      assert [c] + s == [c] + init + [last] && s == init + [last];
    }
  }

  lemma EncodedLast(s: string, c: char)
    ensures Encoded(s + [c]) == Encoded(s) + Escape(c)
  {
    assert (s + [c])[..|s|] == s;
  }

  lemma EncodedNext(s: string)
    requires s != ""
    ensures Encoded(s) == Escape(s[0]) + Encoded(s[1..])
  {
    EncodedFirst(s[0], s[1..]);
    assert [s[0]] + s[1..] == s;
  }

  ghost predicate Unescaped(c: char) { c != ' ' && c != '\n' && c != '\\' }

  lemma EncodedStart(s: string)
    ensures s == "" ==> Encoded(s) == ""
    ensures s != "" ==> Encoded(s) != "" && Encoded(s)[0] == if Unescaped(s[0]) then s[0] else '\\'
    ensures s != "" && Unescaped(s[0]) ==> Encoded(s)[1..] == Encoded(s[1..])
  {
    if s != "" { EncodedNext(s); }
  }

  /** White space is kept or escaped. */
  lemma EncodedSpace(s: string)
    ensures SpaceAt(Encoded(s), 0) > 0 ==> s != "" && SpaceAt(s, 0) > 0 && s[0] != ' ' && s[0] != '\n'
  {
    hide Encoded;
    EncodedStart(s);
    if |s| > 0 { EncodedStart(s[1..]); }
    if |s| > 1 { EncodedStart(s[2..]); }
  }

  lemma NoSpaceFirst(c: char, s: string)
    requires SpaceAt([c] + s, 0) == 0 && NoSpace(s)
    ensures NoSpace([c] + s)
  {
    forall i: nat | i < |[c] + s| ensures SpaceAt([c] + s, i) == 0 {
      if i > 0 { SpaceFurther([c], s, i - 1); }
    }
  }

  lemma RestOnlyBlanks(s: string, k: nat)
    requires OnlyBlanks(s) && k <= |s|
    ensures OnlyBlanks(s[k..])
  {
    assert s == s[..k] + s[k..];
    forall i: nat | i < |s[k..]| ensures s[k..][i] == ' ' || s[k..][i] == '\n' || SpaceAt(s[k..], i) == 0 {
      SpaceFurther(s[..k], s[k..], i);
      assert s[k + i] == s[k..][i];
    }
  }

  /** Escaping leaves only the other white space in a text. */
  lemma {:induction false} EncodedIsToken(s: string)
    requires OnlyBlanks(s)
    ensures NoSpace(Encoded(s)) && (s != "" <==> Encoded(s) != "")
  {
    if s != "" {
      var rest := Encoded(s[1..]);
      RestOnlyBlanks(s, 1);
      EncodedIsToken(s[1..]);
      EncodedNext(s);
      EncodedSpace(s);
      var e := Escape(s[0]);
      if |e| == 2 {
        NoSpaceFirst(e[1], rest);
        assert e + rest == [e[0]] + ([e[1]] + rest);
        NoSpaceFirst(e[0], [e[1]] + rest);
      } else {
        assert e == [s[0]];
        NoSpaceFirst(s[0], rest);
      }
    }
  }

  lemma EscapedIsToken(s: string)
    requires Escapable(s)
    ensures Token(Encoded(s)) && Decoded(Encoded(s)) == s
  {
    EncodedIsToken(s);
    DecodeUndoesEncode(s);
  }

  predicate StartsEscape(s: string) { |s| > 1 && s[0] == '\\' && Unescape(s[1]).Some? }

  lemma DecodedStart(s: string)
    ensures s == "" ==> Decoded(s) == ""
    ensures s != "" ==> Decoded(s) != ""
    ensures s != "" && !StartsEscape(s) ==> Decoded(s)[0] == s[0] && Decoded(s)[1..] == Decoded(s[1..])
    ensures StartsEscape(s) ==> Decoded(s)[0] == Unescape(s[1]).value && Decoded(s)[1..] == Decoded(s[2..])
  {
  }

  /** Unescaping brings in no white space but blanks and newlines. */
  lemma DecodedSpace(s: string)
    ensures SpaceAt(Decoded(s), 0) > 0 ==> s != "" && (SpaceAt(s, 0) > 0 || Decoded(s)[0] == ' ' || Decoded(s)[0] == '\n')
  {
    hide Decoded;
    DecodedStart(s);
    if |s| > 0 { DecodedStart(s[1..]); }
    if |s| > 1 { DecodedStart(s[2..]); }
  }

  lemma RestNoSpace(s: string, k: nat)
    requires NoSpace(s) && k <= |s|
    ensures NoSpace(s[k..])
  {
    assert s == s[..k] + s[k..];
    forall i: nat | i < |s[k..]| ensures SpaceAt(s[k..], i) == 0 { SpaceFurther(s[..k], s[k..], i); }
  }

  lemma OnlyBlanksFirst(c: char, s: string)
    requires OnlyBlanks(s) && (c == ' ' || c == '\n' || SpaceAt([c] + s, 0) == 0)
    ensures OnlyBlanks([c] + s)
  {
    forall i: nat | i < |[c] + s| ensures ([c] + s)[i] == ' ' || ([c] + s)[i] == '\n' || SpaceAt([c] + s, i) == 0 {
      if i > 0 { SpaceFurther([c], s, i - 1); }
    }
  }

  lemma {:induction false} DecodedOnlyBlanks(s: string)
    requires NoSpace(s)
    ensures OnlyBlanks(Decoded(s))
    decreases |s|
  {
    hide NoSpace;
    DecodedStart(s);
    if s != "" {
      var k := if StartsEscape(s) then 2 else 1;
      RestNoSpace(s, k);
      DecodedOnlyBlanks(s[k..]);
      DecodedSpace(s);
      NoSpaceStart(s);
      hide Decoded;
      assert Decoded(s) == [Decoded(s)[0]] + Decoded(s[k..]);
      OnlyBlanksFirst(Decoded(s)[0], Decoded(s[k..]));
    }
  }

  lemma NoSpaceStart(s: string)
    requires NoSpace(s) && s != ""
    ensures SpaceAt(s, 0) == 0
  {
  }

  /** Unescaping a word gives text that can be escaped to a word. */
  lemma DecodedIsEscapable(s: string)
    requires Token(s)
    ensures Escapable(Decoded(s))
  {
    DecodedOnlyBlanks(s);
    DecodedStart(s);
  }

  /** Text without anything to escape. */
  ghost predicate Verbatim(s: string) { forall i :: 0 <= i < |s| ==> Unescaped(s[i]) }

  lemma {:induction false} VerbatimIsItself(s: string)
    requires Verbatim(s)
    ensures Encoded(s) == s && Decoded(s) == s
  {
    if s != "" {
      VerbatimIsItself(s[1..]);
      EncodedNext(s);
      DecodedStart(s);
      assert s == [s[0]] + s[1..] && Decoded(s) == [Decoded(s)[0]] + Decoded(s)[1..];
    }
  }
}
