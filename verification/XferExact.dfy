/** Which cards and messages can be read back, and which messages make the reader panic. */
module XferExact {
  import opened Bytes
  import opened Decimal
  import opened FossilText
  import opened Words
  import opened Reading
  import opened XferCards
  import opened XferEncode
  import opened XferMessage

  // ----- parsed cards -----

  lemma AtoiIsInRange(s: string)
    ensures Atoi(s).Some? ==> InRange(Atoi(s).value)
  {
  }

  lemma TakenFits(rest: string, size: int)
    ensures TakePayload(rest, size).Taken? ==> |TakePayload(rest, size).content| == size && Allocatable(size)
    ensures TakePayloadLine(rest, size).Taken? ==> |TakePayloadLine(rest, size).content| == size && Allocatable(size)
  {
  }

  lemma NothingIsBlank()
    ensures NoSpace("")
  {
  }

  /** Whatever is parsed out of words is plain. */
  lemma ParsedIsPlain(cmd: string, args: seq<string>, rest: string, z: Zlib)
    requires Token(cmd) && forall a :: a in args ==> Token(a)
    requires ParseFields(cmd, args, rest, z).Got?
    ensures Plain(ParseFields(cmd, args, rest, z).card)
  {
    NothingIsBlank();
    hide KindOf, Atoi, Decoded, Escapable, NoSpace, TakePayload, TakePayloadLine, Inflate, IsEnd;
    forall s ensures Atoi(s).Some? ==> InRange(Atoi(s).value) { AtoiIsInRange(s); }
    forall s: string, n: int
      ensures TakePayload(s, n).Taken? ==> |TakePayload(s, n).content| == n && Allocatable(n)
      ensures TakePayloadLine(s, n).Taken? ==> |TakePayloadLine(s, n).content| == n && Allocatable(n)
    {
      TakenFits(s, n);
    }
    forall a | Token(a) ensures Escapable(Decoded(a)) { DecodedIsEscapable(a); }
    forall i | 0 <= i < |args| ensures Token(args[i]) && NoSpace(args[i]) { assert args[i] in args; }
  }

  lemma {:induction false} NextIsPlain(s: string, z: Zlib)
    ensures var n := NextCard(s, z); n.Next? && n.outcome.Got? ==> Plain(n.outcome.card)
    decreases |s|
  {
    hide Fields, ParseFields, Plain;
    var k := FirstNewline(s);
    var line, after := TrimRight(s[..k]), if k == |s| then "" else s[k + 1..];
    if line == "" || line[0] == '#' {
      if k < |s| { NextIsPlain(after, z); }
    } else {
      FieldsAreTokens(line);
      var fields := Fields(line);
      if fields != [] && ParseFields(fields[0], fields[1..], after, z).Got? {
        assert fields[0] in fields && forall a :: a in fields[1..] ==> a in fields;
        ParsedIsPlain(fields[0], fields[1..], after, z);
      }
    }
  }

  // ----- one card -----

  /** A compressed file is read back only if decompression gives its content, of the size that it names. */
  lemma CFileAgain(c: Card, rest: string, z: Zlib)
    requires c.CFileCard? && Plain(c)
    ensures var o := ParseFields(Command(c), Args(c, z), Body(c, z) + rest, z);
            o.Got? ==> o.rest == rest && (o.card == c ==> WellFormed(c, z))
  {
    LastWords();
    hide KindOf, LaterKindOf, LastKindOf, Atoi, IntToString, Token, NoSpace, Inflate, TakePayload, IsEnd;
    var data := z.compress(c.content);
    IntIsReadBack(|c.content|);
    IntIsReadBack(|data|);
    AllocatableNumber(|data|);
    if Allocatable(|data|) { PayloadTaken(data, rest); }
    NoBufferFor(data + rest, |data|);
  }

  lemma AllocatableNumber(n: nat)
    ensures Allocatable(n) ==> InInt64(n) == Some(n)
    ensures InInt64(n).Some? ==> InInt64(n).value == n
  {
  }

  lemma NoBufferFor(rest: string, size: int)
    ensures TakePayload(rest, size) == NoBuffer <==> !Allocatable(size)
  {
  }

  /** What a plain card that was printed is read as: nothing, or a card that ends where the printed one does. */
  lemma PlainIsAligned(c: Card, rest: string, z: Zlib)
    requires Plain(c)
    ensures var n := NextCard(Wire(c, z) + rest, z);
            if Commented(c) then n == NextCard(rest, z)
            else n.Next? && (n.outcome.Got? ==> n.outcome.rest == rest && (n.outcome.card == c ==> WellFormed(c, z)))
  {
    hide NextCard, Wire, ParseFields, Plain, Inflate, Args, Command;
    LineIsNext(c, rest, z);
    if Commented(c) {
      assert Body(c, z) + rest == rest;
    } else if c.CFileCard? {
      CFileAgain(c, rest, z);
    } else {
      ParsePrinted(c, rest, z);
    }
  }

  /** A printed card is read back, with everything behind it left, exactly when it is well-formed. */
  lemma NextExactly(c: Card, rest: string, z: Zlib)
    ensures NextCard(Wire(c, z) + rest, z) == Next(Got(c, rest)) <==> WellFormed(c, z)
  {
    hide NextCard, Wire, Plain, WellFormed;
    if WellFormed(c, z) {
      NextIsPrinted(c, rest, z);
    }
    if NextCard(Wire(c, z) + rest, z) == Next(Got(c, rest)) {
      NextIsPlain(Wire(c, z) + rest, z);
      PlainIsAligned(c, rest, z);
      NextIsShorter(rest, z);
    }
  }

  lemma NextIsShorter(s: string, z: Zlib)
    ensures var n := NextCard(s, z); n.Next? && n.outcome.Got? ==> |n.outcome.rest| < |s|
  {
  }

  // ----- messages -----

  ghost predicate AllPlain(cards: seq<Card>) { forall c :: c in cards ==> Plain(c) }

  /** All cards of a decoded message are plain, and those read first come first. */
  lemma {:induction false} DecodedIsPlain(s: string, z: Zlib, before: seq<Card>)
    ensures var d := DecodingFrom(s, z, before);
            d.Cards? ==> before <= d.cards && (AllPlain(before) ==> AllPlain(d.cards))
    decreases |s|
  {
    hide NextCard, Plain;
    NextIsPlain(s, z);
    match NextCard(s, z)
    case Next(Got(card, rest)) =>
      NextIsShorter(s, z);
      DecodedIsPlain(rest, z, before + [card]);
    case _ =>
  }

  /** Printed plain cards are read as no more cards than were printed. */
  lemma {:induction false} NoMoreThanPrinted(cards: seq<Card>, z: Zlib, before: seq<Card>)
    requires AllPlain(cards)
    ensures var d := DecodingFrom(Wires(cards, z), z, before); d.Cards? ==> |d.cards| <= |before| + |cards|
    decreases |cards|
  {
    hide NextCard, Wire, Plain, WellFormed, Commented;
    if cards == [] {
      NothingIsNext(z);
    } else {
      var c, others := cards[0], cards[1..];
      assert cards == [c] + others;
      WiresPrepend(c, others, z);
      PlainIsAligned(c, Wires(others, z), z);
      NoMoreThanPrinted(others, z, before);
      match NextCard(Wires(cards, z), z)
      case Next(Got(d, rest)) => NoMoreThanPrinted(others, z, before + [d]);
      case _ =>
    }
  }

  lemma {:induction false} OnlyWellFormed(cards: seq<Card>, z: Zlib, before: seq<Card>)
    requires AllPlain(cards) && DecodingFrom(Wires(cards, z), z, before) == Cards(before + cards)
    ensures forall c :: c in cards ==> WellFormed(c, z)
    decreases |cards|
  {
    hide NextCard, Wire, Plain, WellFormed, Commented;
    if cards != [] {
      var c, others := cards[0], cards[1..];
      assert cards == [c] + others;
      WiresPrepend(c, others, z);
      PlainIsAligned(c, Wires(others, z), z);
      if Commented(c) {
        SameNext(Wires(cards, z), Wires(others, z), z, before);
        NoMoreThanPrinted(others, z, before);
        assert false;
      }
      var d := NextCard(Wires(cards, z), z).outcome.card;
      DecodedIsPlain(Wires(others, z), z, before + [d]);
      assert (before + [d])[|before|] == (before + cards)[|before|];
      assert before + [c] + others == before + cards;
      OnlyWellFormed(others, z, before + [c]);
    }
  }

  lemma SameNext(s: string, t: string, z: Zlib, before: seq<Card>)
    requires NextCard(s, z) == NextCard(t, z)
    ensures DecodingFrom(s, z, before) == DecodingFrom(t, z, before)
  {
  }

  /** A message is read back exactly when all its cards are well-formed. */
  lemma MessageExactly(cards: seq<Card>, z: Zlib)
    ensures DecodingFrom(Wires(cards, z), z, []) == Cards(cards) <==> forall c :: c in cards ==> WellFormed(c, z)
  {
    hide DecodingFrom, WellFormed, Plain;
    if forall c :: c in cards ==> WellFormed(c, z) {
      MessageRoundTrip(cards, z);
    }
    if DecodingFrom(Wires(cards, z), z, []) == Cards(cards) {
      DecodedIsPlain(Wires(cards, z), z, []);
      assert [] + cards == cards;
      OnlyWellFormed(cards, z, []);
    }
  }

  /** The printers refuse no card that can be read back. */
  lemma WellFormedIsPrintable(c: Card, z: Zlib)
    requires WellFormed(c, z)
    ensures Printable(c)
  {
  }

  // ----- panics -----

  /** The payload size that a line announces, if a buffer is allocated for it unchecked. */
  function UncheckedSize(cmd: string, args: seq<string>): Option<int> {
    match KindOf(cmd)
    case File => if 2 <= |args| <= 3 then Atoi(args[|args| - 1]) else None
    case CFile => if 3 <= |args| <= 4 && Atoi(args[|args| - 2]).Some? then Atoi(args[|args| - 1]) else None
    case Config => if |args| == 2 then Atoi(args[1]) else None
    case UVFile =>
      if |args| == 5 && Atoi(args[1]).Some? && Atoi(args[4]).Some? && !OmitsContent(Atoi(args[4]).value) then Atoi(args[3]) else None
    case _ => None
  }

  lemma LinePanicsExactly(cmd: string, args: seq<string>, rest: string, z: Zlib)
    ensures ParseFields(cmd, args, rest, z) == Panics <==>
            UncheckedSize(cmd, args).Some? && !Allocatable(UncheckedSize(cmd, args).value)
  {
    hide KindOf, Atoi, Decoded, Inflate, IsEnd;
    forall s: string, n: int
      ensures TakePayload(s, n) == NoBuffer <==> !Allocatable(n)
      ensures TakePayloadLine(s, n) == NoBuffer <==> !Allocatable(n)
    {
      NoBufferFor(s, n);
    }
    hide TakePayload, TakePayloadLine;
  }

  /** The words of the next line that is neither empty nor a comment. */
  ghost function NextWords(s: string): Option<seq<string>>
    decreases |s|
  {
    var k := FirstNewline(s);
    var line := TrimRight(s[..k]);
    if line != "" && line[0] != '#' then Some(Fields(line))
    else if k == |s| then None
    else NextWords(s[k + 1..])
  }

  /** The next line announces a payload that no buffer can hold. */
  ghost predicate AnnouncesTooMuch(s: string) {
    && NextWords(s).Some? && NextWords(s).value != []
    && var words := NextWords(s).value;
       UncheckedSize(words[0], words[1..]).Some? && !Allocatable(UncheckedSize(words[0], words[1..]).value)
  }

  lemma {:induction false} NextPanicsExactly(s: string, z: Zlib)
    ensures NextCard(s, z) == Next(Panics) <==> AnnouncesTooMuch(s)
    decreases |s|
  {
    hide Fields, ParseFields, UncheckedSize, Allocatable;
    var k := FirstNewline(s);
    var line, after := TrimRight(s[..k]), if k == |s| then "" else s[k + 1..];
    if line == "" || line[0] == '#' {
      if k < |s| { NextPanicsExactly(after, z); }
    } else if Fields(line) != [] {
      LinePanicsExactly(Fields(line)[0], Fields(line)[1..], after, z);
    }
  }

  /** What is left of an input behind its first k cards, if it has as many. */
  ghost function Behind(s: string, z: Zlib, k: nat): Option<string> {
    if k == 0 then Some(s)
    else match NextCard(s, z)
         case Next(Got(_, rest)) => Behind(rest, z, k - 1)
         case _ => None
  }

  /** Behind some whole cards, a line announces a payload that no buffer can hold: a negative size, or one beyond the
      largest allocation. */
  ghost predicate MeetsTooMuch(s: string, z: Zlib) {
    exists k: nat :: Behind(s, z, k).Some? && AnnouncesTooMuch(Behind(s, z, k).value)
  }

  lemma MeetsNext(s: string, z: Zlib)
    ensures MeetsTooMuch(s, z) <==>
            var n := NextCard(s, z);
            AnnouncesTooMuch(s) || (n.Next? && n.outcome.Got? && MeetsTooMuch(n.outcome.rest, z))
  {
    hide NextCard, AnnouncesTooMuch;
    assert Behind(s, z, 0) == Some(s);
    if MeetsTooMuch(s, z) {
      var k: nat :| Behind(s, z, k).Some? && AnnouncesTooMuch(Behind(s, z, k).value);
      if k > 0 {
        assert Behind(NextCard(s, z).outcome.rest, z, k - 1) == Behind(s, z, k);
      }
    }
    var n := NextCard(s, z);
    if n.Next? && n.outcome.Got? && MeetsTooMuch(n.outcome.rest, z) {
      var k: nat :| Behind(n.outcome.rest, z, k).Some? && AnnouncesTooMuch(Behind(n.outcome.rest, z, k).value);
      assert Behind(s, z, k + 1) == Behind(n.outcome.rest, z, k);
    }
  }

  /** Decoding panics exactly then. */
  lemma {:induction false} CrashExactly(s: string, z: Zlib, before: seq<Card>)
    ensures DecodingFrom(s, z, before) == Crash <==> MeetsTooMuch(s, z)
    decreases |s|
  {
    hide NextCard, AnnouncesTooMuch, MeetsTooMuch;
    NextPanicsExactly(s, z);
    NextIsShorter(s, z);
    MeetsNext(s, z);
    match NextCard(s, z)
    case Next(Got(card, rest)) => CrashExactly(rest, z, before + [card]);
    case _ =>
  }
}
