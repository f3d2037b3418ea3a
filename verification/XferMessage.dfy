/** Messages of the sync protocol: sequences of cards (internal/xfer/message.go, internal/xfer/decode.go:
    `DecodeCard`). */
module XferMessage {
  import opened FossilText
  import opened Words
  import opened Reading
  import opened XferCards
  import opened XferEncode

  // ----- lines -----

  /** strings.TrimRight of newlines and carriage returns. */
  function TrimRight(s: string): string {
    if s != "" && (s[|s| - 1] == '\n' || s[|s| - 1] == '\r') then TrimRight(s[..|s| - 1]) else s
  }

  // ----- cards -----

  datatype Next = End | Next(outcome: Outcome)

  /** The next card of an input: empty lines and comments are skipped. */
  function NextCard(s: string, z: Zlib): (n: Next)
    ensures n.Next? && n.outcome.Got? ==> |n.outcome.rest| < |s| && IsEnd(n.outcome.rest, s)
    decreases |s|
  {
    var k := FirstNewline(s);
    var line, after := TrimRight(s[..k]), if k == |s| then "" else s[k + 1..];
    if line == "" || line[0] == '#' then
      if k == |s| then End else NextCard(after, z)
    else
      var fields := Fields(line);
      if fields == [] then Next(Malformed)
      else
        var o := ParseFields(fields[0], fields[1..], after, z);
        Next(o)
  }

  /** One card, or the end of the input. */
  method DecodeCard(r: Reader, z: Zlib) returns (n: Next)
    requires r.Valid()
    modifies r
    ensures r.Valid() && n == NextCard(old(r.Rest()), z)
    ensures n.Next? && n.outcome.Got? ==> r.Rest() == n.outcome.rest
  {
    while true
      invariant r.Valid() && NextCard(r.Rest(), z) == NextCard(old(r.Rest()), z)
      decreases |r.Rest()|
    {
      ghost var s := r.Rest();
      var line, eof := r.ReadString();
      line := TrimRight(line);
      if eof && line == "" {
        return End;
      }
      if line == "" || line[0] == '#' {
        if eof {
          return End;
        }
        continue;
      }
      var fields := Fields(line);
      if fields == [] {
        return Next(Malformed);
      }
      var o := ParseFields(fields[0], fields[1..], r.Rest(), z);
      if o.Got? {
        r.SkipTo(o.rest);
      }
      return Next(o);
    }
  }

  // ----- messages -----

  datatype Decoding = Cards(cards: seq<Card>) | BadCard(index: nat) | Crash

  /** The cards of an input, after those that have been read already. */
  function DecodingFrom(s: string, z: Zlib, before: seq<Card>): Decoding
    decreases |s|
  {
    match NextCard(s, z)
    case End => Cards(before)
    case Next(Malformed) => BadCard(|before|)
    case Next(Panics) => Crash
    case Next(Got(card, rest)) => DecodingFrom(rest, z, before + [card])
  }

  ghost function Wires(cards: seq<Card>, z: Zlib): string {
    if cards == [] then "" else Wires(cards[..|cards| - 1], z) + Wire(cards[|cards| - 1], z)
  }

  method EncodeUncompressed(cards: seq<Card>, z: Zlib) returns (buf: string)
    requires forall c :: c in cards ==> Printable(c)
    ensures buf == Wires(cards, z)
  {
    hide Wire;
    var w := new Buffer();
    for i := 0 to |cards|
      invariant fresh(w) && w.buf == Wires(cards[..i], z)
    {
      assert cards[..i + 1][..i] == cards[..i];
      EncodeCard(w, cards[i], z);
    }
    assert cards[..|cards|] == cards;
    buf := w.buf;
  }

  method DecodeUncompressed(data: string, z: Zlib) returns (d: Decoding)
    ensures d == DecodingFrom(data, z, [])
  {
    var r := new Reader(data);
    var cards: seq<Card> := [];
    while true
      invariant r.Valid() && fresh(r) && DecodingFrom(r.Rest(), z, cards) == DecodingFrom(data, z, [])
      decreases |r.Rest()|
    {
      var n := DecodeCard(r, z);
      match n {
        case End => return Cards(cards);
        case Next(Malformed) => return BadCard(|cards|);
        case Next(Panics) => return Crash;
        case Next(Got(card, _)) => cards := cards + [card];
      }
    }
  }

  // ----- round trip -----

  /** The line of a printed card falls into its words again, unless it is a comment. */
  lemma LineIsNext(c: Card, rest: string, z: Zlib)
    requires Plain(c)
    ensures NextCard(Wire(c, z) + rest, z) ==
            if Commented(c) then NextCard(Body(c, z) + rest, z)
            else Next(ParseFields(Command(c), Args(c, z), Body(c, z) + rest, z))
  {
    hide Fields, Line, ParseFields, Args, Body, Command, Plain, Commented;
    var line := Line(Command(c), Args(c, z));
    var s := Wire(c, z) + rest;
    ArgsAreTokens(c, z);
    LineShape(Command(c), Args(c, z));
    assert s == line + "\n" + (Body(c, z) + rest);
    NewlineAfter(line, Body(c, z) + rest);
    assert s[..|line|] == line && s[|line| + 1..] == Body(c, z) + rest;
    FieldsOfLine(Command(c), Args(c, z));
    assert ([Command(c)] + Args(c, z))[1..] == Args(c, z);
  }

  /** A printed card is the next card, whatever follows: its payload, or the lack of a newline after it, does not
      disturb the one behind it. */
  lemma NextIsPrinted(c: Card, rest: string, z: Zlib)
    requires WellFormed(c, z)
    ensures NextCard(Wire(c, z) + rest, z) == Next(Got(c, rest))
  {
    hide NextCard, Wire, ParseFields, Plain;
    LineIsNext(c, rest, z);
    ParsePrinted(c, rest, z);
  }

  lemma {:induction false} WiresPrepend(c: Card, cards: seq<Card>, z: Zlib)
    ensures Wires([c] + cards, z) == Wire(c, z) + Wires(cards, z)
  {
    hide Wire;
    if cards == [] {
      assert [c] + cards == [c] && [c][..0] == [];
    } else {
      assert ([c] + cards)[..|cards|] == [c] + cards[..|cards| - 1];
      WiresPrepend(c, cards[..|cards| - 1], z);
    }
  }

  lemma {:induction false} DecodePrinted(cards: seq<Card>, before: seq<Card>, z: Zlib)
    requires forall c :: c in cards ==> WellFormed(c, z)
    ensures DecodingFrom(Wires(cards, z), z, before) == Cards(before + cards)
    decreases |cards|
  {
    hide Wire, WellFormed, NextCard;
    if cards == [] {
      NothingIsNext(z);
      assert before + cards == before;
    } else {
      var c, others := cards[0], cards[1..];
      assert cards == [c] + others && c in cards && forall d :: d in others ==> d in cards;
      WiresPrepend(c, others, z);
      NextIsPrinted(c, Wires(others, z), z);
      DecodePrinted(others, before + [c], z);
      assert before + [c] + others == before + cards;
    }
  }

  lemma NothingIsNext(z: Zlib)
    ensures NextCard("", z) == End
  {
  }

  /** Decoding gives back every message of well-formed cards. */
  lemma MessageRoundTrip(cards: seq<Card>, z: Zlib)
    requires forall c :: c in cards ==> WellFormed(c, z)
    ensures DecodingFrom(Wires(cards, z), z, []) == Cards(cards)
  {
    DecodePrinted(cards, [], z);
    assert [] + cards == cards;
  }

  lemma EmptyErrorFields()
    ensures Fields("error ") == ["error"]
  {
    assert "error" + " " == "error ";
    AsciiIsToken("error");
    FieldsOfToken("error");
    BlankIsSpace();
    FieldsOfTwo("error", " ");
    FieldsOfSpace(" ", "");
    assert " " + "" == " ";
  }

  lemma EmptyErrorIsMalformed(rest: string, z: Zlib)
    ensures ParseFields("error", [], rest, z) == Malformed
  {
    LaterWords();
  }

  lemma EmptyErrorIsPrinted(z: Zlib)
    ensures Wires([ErrorCard("")], z) == "error \n"
  {
    var c := ErrorCard("");
    assert [c][..0] == [] && Line("error", [""]) == Line("error", []) + " " + "";
    assert Args(c, z) == [""];
    assert Wire(c, z) == "error" + " " + "" + "\n" + "";
  }

  /** An error card without text cannot be sent: the line then has no second word. */
  lemma EmptyErrorIsLost(z: Zlib)
    ensures DecodingFrom(Wires([ErrorCard("")], z), z, []) == BadCard(0)
  {
    hide Fields, ParseFields, FirstNewline, Wires;
    EmptyErrorIsPrinted(z);
    var s, line := "error \n", "error ";
    assert s == line + "\n" + "";
    NewlineAfter(line, "");
    assert s[..6] == line && s[7..] == "";
    EmptyErrorFields();
    assert ["error"][1..] == [];
    EmptyErrorIsMalformed("", z);
  }

  lemma SpacedFields(first: string, a: string, space: string, b: string)
    requires Token(first) && Token(a) && IsSpace(space) && Token(b)
    ensures Fields(first + " " + (a + space + b)) == [first, a, b]
  {
    BlankIsSpace();
    hide Token, IsSpace, Fields;
    FieldsOfToken(first);
    NextField(first, " ", a);
    NextField(first + " " + a, space, b);
    assert first + " " + a + space + b == first + " " + (a + space + b);
  }

  lemma SpacedErrorIsPrinted(message: string, z: Zlib)
    requires Verbatim(message)
    ensures Wires([ErrorCard(message)], z) == "error " + message + "\n"
  {
    var c := ErrorCard(message);
    VerbatimIsItself(message);
    hide Encoded, Verbatim;
    assert [c][..0] == [] && Args(c, z) == [message];
    ErrorLine(message);
    assert Wire(c, z) == "error " + message + "\n" + "";
    hide Wire;
    assert Wires([c], z) == "" + Wire(c, z);
  }

  lemma ErrorLine(message: string)
    ensures Line("error", [message]) == "error " + message
  {
    assert [message][..0] == [] && "error" + " " == "error ";
  }

  /** A line whose words the parser refuses. */
  lemma RefusedLine(line: string, z: Zlib)
    requires line != "" && line[0] != '#' && NoNewlineIn(line) && line[|line| - 1] != '\r'
    requires Fields(line) != [] && ParseFields(Fields(line)[0], Fields(line)[1..], "", z) == Malformed
    ensures DecodingFrom(line + "\n", z, []) == BadCard(0)
  {
    hide Fields, ParseFields, FirstNewline;
    var s := line + "\n";
    assert s == line + "\n" + "";
    NewlineAfter(line, "");
    assert s[..|line|] == line && s[|line| + 1..] == "";
    assert line[|line| - 1] != '\n';
  }

  ghost predicate NoNewlineIn(line: string) { forall i :: 0 <= i < |line| ==> line[i] != '\n' }

  /** Nor can one with white space that is not escaped: the line then has three words. */
  lemma SpacedErrorIsLost(a: string, space: string, b: string, z: Zlib)
    requires Token(a) && IsSpace(space) && Token(b) && Verbatim(a + space + b)
    ensures DecodingFrom(Wires([ErrorCard(a + space + b)], z), z, []) == BadCard(0)
  {
    var message := a + space + b;
    var line := "error " + message;
    AsciiIsToken("error");
    assert "error" + " " == "error ";
    SpacedFields("error", a, space, b);
    TwoWordsAreMalformed(a, b, "", z);
    SpacedErrorIsPrinted(message, z);
    ErrorLineEnds(a, space, b);
    hide Fields, ParseFields, Wires, Token, IsSpace, Verbatim, NoNewlineIn, DecodingFrom;
    assert ["error", a, b][1..] == [a, b];
    RefusedLine(line, z);
  }

  lemma ErrorLineEnds(a: string, space: string, b: string)
    requires Token(b) && Verbatim(a + space + b)
    ensures var line := "error " + (a + space + b); NoNewlineIn(line) && line[|line| - 1] != '\r' && line[0] != '#'
  {
    var message := a + space + b;
    var line := "error " + message;
    TokenShape(b);
    hide Token;
    assert line[|line| - 1] == b[|b| - 1];
    forall i | 0 <= i < |line| ensures line[i] != '\n' {
      if i >= 6 { assert line[i] == message[i - 6]; }
    }
  }

  lemma TwoWordsAreMalformed(a: string, b: string, rest: string, z: Zlib)
    ensures ParseFields("error", [a, b], rest, z) == Malformed
  {
    LaterWords();
  }

  /** For example a no-break space, U+00A0. */
  lemma NoBreakSpaceIsLost(z: Zlib)
    ensures DecodingFrom(Wires([ErrorCard("a\U{C2}\U{A0}b")], z), z, []) == BadCard(0)
  {
    AsciiIsToken("a");
    AsciiIsToken("b");
    assert "a" + "\U{C2}\U{A0}" + "b" == "a\U{C2}\U{A0}b";
    hide DecodingFrom, Wires;
    SpacedErrorIsLost("a", "\U{C2}\U{A0}", "b", z);
  }
}
