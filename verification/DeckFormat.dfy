/** The format of manifests as it stands in their text: the letters and what stands behind each, which cards are refused,
    how the type is inferred, and the checksum (internal/deck/marshal.go, internal/deck/parse.go, internal/deck/zcard.go). */
module DeckFormat {
  import opened Bytes
  import opened Decimal
  import opened Words
  import opened Reading
  import opened FossilText
  import opened Sorting
  import opened DeckCards
  import opened DeckText

  // ----- cards -----

  const ORDER: string := "ABCDEFGHIJ" + "KLMNPQRTU"

  /** The letters, in ascending order. */
  lemma LettersInOrder(n: nat)
    requires n < LETTERS
    ensures |ORDER| == LETTERS && Letter(n) == ORDER[n] && (n > 0 ==> ORDER[n - 1] < ORDER[n] < 'W')
  {
    assert n < 10 ==> ORDER[n] == "ABCDEFGHIJ"[n];
    assert n >= 10 ==> ORDER[n] == "KLMNPQRTU"[n - 10];
  }

  /** A manifest with cards of one letter only. */
  ghost predicate Only(d: Deck, n: nat, clock: Clock) {
    n < LETTERS && forall m: nat :: m < LETTERS && m != n ==> Texts(d, m, clock) == []
  }

  lemma {:induction false} OnlyCards(d: Deck, n: nat, upTo: nat, clock: Clock)
    requires Only(d, n, clock) && upTo <= LETTERS
    ensures Cards(d, upTo, clock) == if n < upTo then CardLines(Letter(n), Texts(d, n, clock)) else ""
  {
    hide Texts;
    if upTo > 0 {
      OnlyCards(d, n, upTo - 1, clock);
      if n < upTo - 1 { assert CardLines(Letter(upTo - 1), Texts(d, upTo - 1, clock)) == ""; }
    }
  }

  lemma OneText(d: Deck, n: nat, clock: Clock, line: string)
    requires Only(d, n, clock) && |Texts(d, n, clock)| == 1 && line == CardLine(Letter(n), Texts(d, n, clock)[0])
    ensures Cards(d, LETTERS, clock) == line
  {
    hide Texts;
    OnlyCards(d, n, LETTERS, clock);
    var texts := Texts(d, n, clock);
    assert texts[..0] == [];
  }

  /** Cards of one word, each under its own letter. */
  lemma WordCards(s: string, clock: Clock)
    requires s != ""
    ensures Cards(EMPTY.(B := s), LETTERS, clock) == "B " + s + "\n"
    ensures Cards(EMPTY.(G := s), LETTERS, clock) == "G " + s + "\n"
    ensures Cards(EMPTY.(I := s), LETTERS, clock) == "I " + s + "\n"
    ensures Cards(EMPTY.(K := s), LETTERS, clock) == "K " + s + "\n"
  {
    EscapedIsText(s);
    hide Cards, Encoded;
    OneText(EMPTY.(B := s), 1, clock, "B " + s + "\n");
    OneText(EMPTY.(G := s), 6, clock, "G " + s + "\n");
    OneText(EMPTY.(I := s), 8, clock, "I " + s + "\n");
    OneText(EMPTY.(K := s), 10, clock, "K " + s + "\n");
  }

  /** More of them. */
  lemma MoreWordCards(s: string, clock: Clock)
    requires s != ""
    ensures Cards(EMPTY.(M := [s]), LETTERS, clock) == "M " + s + "\n"
    ensures Cards(EMPTY.(N := s), LETTERS, clock) == "N " + s + "\n"
    ensures Cards(EMPTY.(P := [s]), LETTERS, clock) == "P " + s + "\n"
    ensures Cards(EMPTY.(R := s), LETTERS, clock) == "R " + s + "\n"
  {
    EscapedIsText(s);
    hide Cards, Encoded;
    OneText(EMPTY.(M := [s]), 12, clock, "M " + s + "\n");
    OneText(EMPTY.(N := s), 13, clock, "N " + s + "\n");
    OneText(EMPTY.(P := [s]), 14, clock, "P " + s + "\n");
    OneText(EMPTY.(R := s), 16, clock, "R " + s + "\n");
  }

  /** Cards of escaped text. */
  lemma EscapedCards(s: string, clock: Clock)
    requires s != ""
    ensures Cards(EMPTY.(C := s), LETTERS, clock) == "C " + Encoded(s) + "\n"
    ensures Cards(EMPTY.(H := s), LETTERS, clock) == "H " + Encoded(s) + "\n"
    ensures Cards(EMPTY.(L := s), LETTERS, clock) == "L " + Encoded(s) + "\n"
    ensures Cards(EMPTY.(U := s), LETTERS, clock) == "U " + Encoded(s) + "\n"
  {
    EscapedIsText(s);
    hide Cards, Encoded;
    OneText(EMPTY.(C := s), 2, clock, "C " + Encoded(s) + "\n");
    OneText(EMPTY.(H := s), 7, clock, "H " + Encoded(s) + "\n");
    OneText(EMPTY.(L := s), 11, clock, "L " + Encoded(s) + "\n");
    OneText(EMPTY.(U := s), 18, clock, "U " + Encoded(s) + "\n");
  }

  lemma EscapedIsText(s: string)
    ensures Encoded("") == "" && (s != "" ==> Encoded(s) != "")
  {
    EncodedShape(s);
  }

  lemma AttachmentCards(a: AttachmentCard, clock: Clock)
    requires a.source != ""
    ensures Cards(EMPTY.(A := Some(a)), LETTERS, clock) == "A " + (Encoded(a.filename) + " " + a.target + " " + a.source) + "\n"
  {
    EscapedIsText("");
    hide Cards, Encoded;
    Appended(Encoded(a.filename) + " " + a.target, a.source);
    OneText(EMPTY.(A := Some(a)), 0, clock, "A " + (Encoded(a.filename) + " " + a.target + " " + a.source) + "\n");
  }

  lemma TimeCards(t: int, e: EventCard, clock: Clock)
    ensures Cards(EMPTY.(D := Some(t)), LETTERS, clock) == "D " + clock.millis(t) + "\n"
    ensures Cards(EMPTY.(E := Some(e)), LETTERS, clock) == "E " + (clock.seconds(e.date) + " " + e.uuid) + "\n"
  {
    EscapedIsText("");
    hide Cards, Encoded;
    OneText(EMPTY.(D := Some(t)), 3, clock, "D " + clock.millis(t) + "\n");
    OneText(EMPTY.(E := Some(e)), 4, clock, "E " + (clock.seconds(e.date) + " " + e.uuid) + "\n");
  }

  lemma FileCards(f: FileCard, clock: Clock)
    requires f.uuid != "" && f.perm != "" && f.oldName != ""
    ensures Cards(EMPTY.(F := [f]), LETTERS, clock) == "F " + (Encoded(f.name) + " " + f.uuid + " " + f.perm + " " + Encoded(f.oldName)) + "\n"
  {
    EscapedIsText("");
    hide Cards, Encoded;
    FileInFull(f);
    OneText(EMPTY.(F := [f]), 5, clock, "F " + (Encoded(f.name) + " " + f.uuid + " " + f.perm + " " + Encoded(f.oldName)) + "\n");
  }

  lemma TicketCards(j: TicketField, clock: Clock)
    requires j.value != ""
    ensures Cards(EMPTY.(J := [j]), LETTERS, clock) == "J " + (Encoded(j.name) + " " + j.value) + "\n"
  {
    EscapedIsText("");
    hide Cards, Encoded;
    Appended(Encoded(j.name), j.value);
    OneText(EMPTY.(J := [j]), 9, clock, "J " + (Encoded(j.name) + " " + j.value) + "\n");
  }

  lemma PickCards(q: CherryPick, clock: Clock)
    requires q.baseline != ""
    ensures Cards(EMPTY.(Q := [q]), LETTERS, clock) == "Q " + ((if q.isBackout then "-" else "+") + q.target + " " + q.baseline) + "\n"
  {
    EscapedIsText("");
    hide Cards, Encoded;
    Appended((if q.isBackout then "-" else "+") + q.target, q.baseline);
    OneText(EMPTY.(Q := [q]), 15, clock, "Q " + ((if q.isBackout then "-" else "+") + q.target + " " + q.baseline) + "\n");
  }

  lemma TagCards(g: TagCard, clock: Clock)
    requires g.value != "" && g.tagType < '\U{80}'
    ensures Cards(EMPTY.(T := [g]), LETTERS, clock) == "T " + ([g.tagType] + g.name + " " + g.uuid + " " + g.value) + "\n"
  {
    EscapedIsText("");
    hide Cards, Encoded;
    Appended([g.tagType] + g.name + " " + g.uuid, g.value);
    OneText(EMPTY.(T := [g]), 17, clock, "T " + ([g.tagType] + g.name + " " + g.uuid + " " + g.value) + "\n");
  }

  lemma Appended(s: string, last: string)
    ensures last != "" ==> s + Opt(last) == s + " " + last
    ensures last == "" ==> s + Opt(last) == s
  {
  }

  /** A file card's optional parts, each behind a blank. */
  lemma FileInFull(f: FileCard)
    ensures f.uuid != "" && f.perm != "" && f.oldName != "" ==>
              FileText(f) == Encoded(f.name) + " " + f.uuid + " " + f.perm + " " + Encoded(f.oldName)
    ensures f.uuid != "" && f.perm != "" && f.oldName == "" ==> FileText(f) == Encoded(f.name) + " " + f.uuid + " " + f.perm
    ensures f.uuid != "" && f.perm == "" && f.oldName == "" ==> FileText(f) == Encoded(f.name) + " " + f.uuid
    ensures f.uuid == "" && f.oldName == "" ==> FileText(f) == Encoded(f.name)
  {
    hide Encoded;
    Appended(Encoded(f.name) + " " + f.uuid, f.perm);
    var name, uuid, perm := Encoded(f.name), f.uuid, Opt(f.perm);
    assert name + (" " + uuid + perm) == name + " " + uuid + perm;
  }

  /** Files are printed by name, members by themselves, and tags by type, name and what they are set on. */
  lemma SortedByKeys(s: Deck, d: Deck, i: nat, j: nat)
    requires SortedFrom(s, d) && i < j
    ensures j < |s.F| ==> AtMost(s.F[i].name, s.F[j].name)
    ensures j < |s.M| ==> AtMost(s.M[i], s.M[j])
    ensures j < |s.T| ==> AtMost(RuneText(s.T[i].tagType) + s.T[i].name + s.T[i].uuid, RuneText(s.T[j].tagType) + s.T[j].name + s.T[j].uuid)
  {
    hide AtMost;
  }

  // ----- what is refused -----

  lemma {:induction false} SplitsAtBlanks(s: string, n: nat)
    ensures |SplitN(s, n)| == 1 <==> n == 0 || ' ' !in s
  {
    if n > 0 && Blank(s) == |s| { assert ' ' !in s; }
  }

  /** Which cards are refused: those of unknown letters, attachments and events without a blank, times that the clock
      cannot parse, files without a word, cherry picks of less than two characters, and tags of less than two or without
      a blank behind the first. */
  lemma RefusedExactly(d: Deck, card: char, args: string, clock: Clock)
    ensures ParseCard(d, card, args, clock) == None <==>
            || !IsLetter(card)
            || (card == 'A' && ' ' !in args)
            || (card == 'D' && clock.parse(TrimSpace(args)) == None)
            || (card == 'E' && (' ' !in args || clock.parse(TrimSpace(args[..Blank(args)])) == None))
            || (card == 'F' && Fields(args) == [])
            || (card == 'Q' && |args| < 2)
            || (card == 'T' && (|args| < 2 || ' ' !in args[1..]))
  {
    RefusedParts(d, args, clock);
    RefusedTimes(d, args, clock);
    RefusedLetters(d, card, args, clock);
    hide ParseCard, TrimSpace, Fields, Decoded, ParseA, ParseD, ParseE, ParseT, Blank;
    if card == 'F' { RefusedWords(d, args); }
    if card == 'Q' { RefusedPicks(d, args); }
    hide ParseF, ParseQ;
  }

  /** The cards with parsers of their own; the others are never refused. */
  lemma RefusedLetters(d: Deck, card: char, args: string, clock: Clock)
    ensures var r := ParseCard(d, card, args, clock);
            match card
            case 'A' => r == ParseA(d, args) case 'D' => r == ParseD(d, args, clock) case 'E' => r == ParseE(d, args, clock)
            case 'F' => r == ParseF(d, args) case 'J' => r == ParseJ(d, args) && r.Some?
            case 'Q' => r == ParseQ(d, args) case 'T' => r == ParseT(d, args)
            case _ => r == None <==> !IsLetter(card)
  {
    hide TrimSpace, Fields, Decoded, SplitN, Blank;
  }

  lemma RefusedWords(d: Deck, args: string)
    ensures ParseF(d, args) == None <==> Fields(args) == []
  {
    hide Fields, Decoded;
  }

  lemma RefusedPicks(d: Deck, args: string)
    ensures ParseQ(d, args) == None <==> |args| < 2
  {
    hide SplitN;
  }

  predicate IsLetter(c: char) { ('A' <= c <= 'N') || c == 'P' || c == 'Q' || c == 'R' || c == 'T' || c == 'U' }

  lemma RefusedParts(d: Deck, args: string, clock: Clock)
    ensures ParseA(d, args) == None <==> ' ' !in args
    ensures ParseT(d, args) == None <==> |args| < 2 || ' ' !in args[1..]
  {
    SplitsAtBlanks(args, 2);
    if |args| > 0 { SplitsAtBlanks(args[1..], 2); }
    hide SplitN, Decoded;
  }

  lemma RefusedTimes(d: Deck, args: string, clock: Clock)
    ensures ParseD(d, args, clock) == None <==> clock.parse(TrimSpace(args)) == None
    ensures ParseE(d, args, clock) == None <==> ' ' !in args || clock.parse(TrimSpace(args[..Blank(args)])) == None
  {
    SplitsAtBlanks(args, 1);
    hide TrimSpace;
    if Blank(args) < |args| { assert SplitN(args, 1) == [args[..Blank(args)], args[Blank(args) + 1..]]; }
  }

  /** Lines whose letters descend are refused. */
  lemma DescendingIsRefused(x: char, text: string, y: char, rest: string, d: Deck, last: char, clock: Clock)
    requires OneLine(text) && y < x && last <= x && x != '\n' && x != 'W' && y != '\n'
    ensures ParseBody(CardLine(x, text) + ([y] + rest), d, last, clock) == Invalid
  {
    hide ParseCard, TrimSpace, Atoi;
    OneCard(x, text, [y] + rest, d, last, clock);
    var s := [y] + rest;
    var k := FirstNewline(s);
    assert k > 0 && s[..k][0] == y;
  }

  // ----- the type -----

  /** A manifest's type: the first of these cards decides. */
  lemma TypeExactly(d: Deck)
    ensures var cluster, forum := d.M != [], d.G != "" || d.H != "" || d.I != "";
            var attachment, ticket, wiki, event := d.A.Some?, d.K != "", d.L != "", d.E.Some?;
            var checkin := d.F != [] || d.R != "" || d.T == [];
            && (InferType(d) == Cluster <==> cluster)
            && (InferType(d) == ForumPost <==> forum && !cluster)
            && (InferType(d) == Attachment <==> attachment && !cluster && !forum)
            && (InferType(d) == Ticket <==> ticket && !cluster && !forum && !attachment)
            && (InferType(d) == Wiki <==> wiki && !cluster && !forum && !attachment && !ticket)
            && (InferType(d) == Event <==> event && !cluster && !forum && !attachment && !ticket && !wiki)
            && (InferType(d) == Checkin <==> checkin && !cluster && !forum && !attachment && !ticket && !wiki && !event)
            && (InferType(d) == Control <==> !checkin && !cluster && !forum && !attachment && !ticket && !wiki && !event)
  {
  }

  // ----- the checksum -----

  /** A text is looked at exactly when it ends with the checksum of what stands before. */
  lemma ChecksumExactly(data: string, md5: string -> string)
    ensures VerifyZ(data, md5) <==>
            exists body :: |md5(body)| == 32 && data == body + "Z " + md5(body) + "\n"
  {
    if VerifyZ(data, md5) {
      var body, tail := data[..|data| - 35], data[|data| - 35..];
      assert tail == "Z " + tail[2..34] + "\n";
      assert data == body + tail;
    }
    if body :| |md5(body)| == 32 && data == body + "Z " + md5(body) + "\n" {
      var tail := "Z " + md5(body) + "\n";
      assert data == body + tail && data[..|data| - 35] == body && data[|data| - 35..] == tail;
    }
  }

  // ----- trimming -----

  /** White space of any kind around a text is cut off. */
  lemma SpaceIsTrimmed(s: string, space: string)
    requires IsSpace(space)
    ensures TrimSpace(space + s) == TrimSpace(s) && TrimEnd(s + space) == TrimEnd(s)
  {
    var front, back := space + s, s + space;
    SpaceInFront(space, s, 0);
    assert front[|space|..] == s;
    SpaceAtEnd(s, space);
    assert back[..|s|] == s;
  }

  lemma SpaceAtEnd(s: string, space: string)
    requires IsSpace(space)
    ensures SpaceBefore(s + space) == |space|
  {
    SpaceFurther(s, space, 0);
    assert |space| <= 3;
    assert forall i :: 0 <= i < |space| ==> (s + space)[|s| + i] == space[i];
    if |space| == 3 { SpaceFurther(s, space, 1); }
  }
}
