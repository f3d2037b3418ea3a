/** Manifests as text: how each card is printed and parsed (internal/deck/marshal.go, internal/deck/parse.go). The text of
    a card is what stands between its letter and the newline; a parser puts a card on top of a manifest read so far. */
module DeckCards {
  import opened Bytes
  import opened FossilText
  import opened Words

  datatype Kind = Checkin | Wiki | Ticket | Event | Cluster | ForumPost | Attachment | Control

  datatype AttachmentCard = AttachmentCard(filename: string, target: string, source: string)
  datatype EventCard = EventCard(date: int, uuid: string)
  datatype FileCard = FileCard(name: string, uuid: string, perm: string, oldName: string)
  datatype TicketField = TicketField(name: string, value: string)
  datatype CherryPick = CherryPick(isBackout: bool, target: string, baseline: string)
  datatype TagCard = TagCard(tagType: char, name: string, uuid: string, value: string)

  /** A manifest: one field per card letter, empty when the card is absent. */
  datatype Deck = Deck(
    kind: Kind, A: Option<AttachmentCard>, B: string, C: string, D: Option<int>, E: Option<EventCard>,
    F: seq<FileCard>, G: string, H: string, I: string, J: seq<TicketField>, K: string, L: string, M: seq<string>,
    N: string, P: seq<string>, Q: seq<CherryPick>, R: string, T: seq<TagCard>, U: string, W: string)

  const EMPTY: Deck := Deck(Checkin, None, "", "", None, None, [], "", "", "", [], "", "", [], "", [], [], "", [], "", "")

  /** The printing of times, to the millisecond and to the second, and the parsing of both. */
  datatype Clock = Clock(millis: int -> string, seconds: int -> string, parse: string -> Option<int>)

  function InferType(d: Deck): Kind {
    if d.M != [] then Cluster
    else if d.G != "" || d.H != "" || d.I != "" then ForumPost
    else if d.A.Some? then Attachment
    else if d.K != "" then Ticket
    else if d.L != "" then Wiki
    else if d.E.Some? then Event
    else if d.F != [] || d.R != "" then Checkin
    else if d.T != [] then Control
    else Checkin
  }

  // ----- splitting -----

  /** Where the first blank is, or the end. */
  function Blank(s: string): (k: nat)
    ensures k <= |s| && (forall i :: 0 <= i < k ==> s[i] != ' ') && (k < |s| ==> s[k] == ' ')
  {
    if s == "" || s[0] == ' ' then 0 else 1 + Blank(s[1..])
  }

  /** strings.SplitN at blanks, into at most n + 1 parts. */
  function SplitN(s: string, n: nat): (parts: seq<string>)
    ensures parts != []
  {
    if n == 0 || Blank(s) == |s| then [s] else [s[..Blank(s)]] + SplitN(s[Blank(s) + 1..], n - 1)
  }

  function TrimLeft(s: string): string {
    if SpaceAt(s, 0) > 0 then TrimLeft(s[SpaceAt(s, 0)..]) else s
  }

  function TrimEnd(s: string): string {
    if SpaceBefore(s) > 0 then TrimEnd(s[..|s| - SpaceBefore(s)]) else s
  }

  function TrimSpace(s: string): string { TrimEnd(TrimLeft(s)) }

  ghost predicate NoBlank(s: string) { forall i :: 0 <= i < |s| ==> s[i] != ' ' }

  ghost predicate OneLine(s: string) { forall i :: 0 <= i < |s| ==> s[i] != '\n' }

  /** Text without white space around it. */
  ghost predicate Trimmed(s: string) { OneLine(s) && SpaceAt(s, 0) == 0 && SpaceBefore(s) == 0 }

  // ----- printing -----

  function Opt(s: string): string { if s == "" then "" else " " + s }

  function FileText(f: FileCard): string {
    Encoded(f.name) + (if f.uuid == "" then "" else " " + f.uuid + Opt(f.perm)) + (if f.oldName == "" then "" else " " + Encoded(f.oldName))
  }

  const LETTERS: nat := 19

  /** The card letters, in the order in which the cards are printed. */
  function Letter(n: nat): char
    requires n < LETTERS
  {
    match n
    case 0 => 'A' case 1 => 'B' case 2 => 'C' case 3 => 'D' case 4 => 'E' case 5 => 'F' case 6 => 'G' case 7 => 'H'
    case 8 => 'I' case 9 => 'J' case 10 => 'K' case 11 => 'L' case 12 => 'M' case 13 => 'N' case 14 => 'P' case 15 => 'Q'
    case 16 => 'R' case 17 => 'T' case _ => 'U'
  }

  /** The arguments of the cards of one letter, in the order in which they are printed. */
  function Texts(d: Deck, n: nat, clock: Clock): seq<string>
    requires n < LETTERS
  {
    match n
    case 0 => if d.A.None? then [] else [Encoded(d.A.value.filename) + " " + d.A.value.target + Opt(d.A.value.source)]
    case 1 => Optional(d.B)
    case 2 => Optional(Encoded(d.C))
    case 3 => if d.D.None? then [] else [clock.millis(d.D.value)]
    case 4 => if d.E.None? then [] else [clock.seconds(d.E.value.date) + " " + d.E.value.uuid]
    case 5 => seq(|d.F|, i requires 0 <= i < |d.F| => FileText(d.F[i]))
    case 6 => Optional(d.G)
    case 7 => Optional(Encoded(d.H))
    case 8 => Optional(d.I)
    case 9 => seq(|d.J|, i requires 0 <= i < |d.J| => Encoded(d.J[i].name) + Opt(d.J[i].value))
    case 10 => Optional(d.K)
    case 11 => Optional(Encoded(d.L))
    case 12 => d.M
    case 13 => Optional(d.N)
    case 14 => if d.P == [] then [] else [Line(d.P[0], d.P[1..])]
    case 15 => seq(|d.Q|, i requires 0 <= i < |d.Q| => PickText(d.Q[i]))
    case 16 => Optional(d.R)
    case 17 => seq(|d.T|, i requires 0 <= i < |d.T| => TagText(d.T[i]))
    case _ => Optional(Encoded(d.U))
  }

  // ----- parsing -----

  function ParseA(d: Deck, args: string): Option<Deck> {
    var parts := SplitN(args, 2);
    if |parts| < 2 then None
    else Some(d.(A := Some(AttachmentCard(Decoded(parts[0]), parts[1], if |parts| == 3 then parts[2] else ""))))
  }

  function ParseD(d: Deck, args: string, clock: Clock): Option<Deck> {
    match clock.parse(TrimSpace(args))
    case None => None
    case Some(t) => Some(d.(D := Some(t)))
  }

  function ParseE(d: Deck, args: string, clock: Clock): Option<Deck> {
    var parts := SplitN(args, 1);
    if |parts| != 2 then None
    else match clock.parse(TrimSpace(parts[0]))
         case None => None
         case Some(t) => Some(d.(E := Some(EventCard(t, parts[1]))))
  }

  function ParseF(d: Deck, args: string): Option<Deck> {
    var parts := Fields(args);
    if parts == [] then None
    else Some(d.(F := d.F + [FileCard(Decoded(parts[0]), if |parts| >= 2 then parts[1] else "", if |parts| >= 3 then parts[2] else "",
                                      if |parts| >= 4 then Decoded(parts[3]) else "")]))
  }

  function ParseJ(d: Deck, args: string): Option<Deck> {
    var parts := SplitN(args, 1);
    Some(d.(J := d.J + [TicketField(Decoded(parts[0]), if |parts| == 2 then parts[1] else "")]))
  }

  function ParseQ(d: Deck, args: string): Option<Deck> {
    if |args| < 2 then None
    else
      var parts := SplitN(args[1..], 1);
      Some(d.(Q := d.Q + [CherryPick(args[0] == '-', parts[0], if |parts| == 2 then parts[1] else "")]))
  }

  function ParseT(d: Deck, args: string): Option<Deck> {
    if |args| < 2 then None
    else
      var parts := SplitN(args[1..], 2);
      if |parts| < 2 then None
      else Some(d.(T := d.T + [TagCard(args[0], parts[0], parts[1], if |parts| == 3 then parts[2] else "")]))
  }

  /** One card. */
  function ParseCard(d: Deck, card: char, args: string, clock: Clock): Option<Deck> {
    match card
    case 'A' => ParseA(d, args)
    case 'B' => Some(d.(B := TrimSpace(args)))
    case 'C' => Some(d.(C := Decoded(args)))
    case 'D' => ParseD(d, args, clock)
    case 'E' => ParseE(d, args, clock)
    case 'F' => ParseF(d, args)
    case 'G' => Some(d.(G := TrimSpace(args)))
    case 'H' => Some(d.(H := Decoded(args)))
    case 'I' => Some(d.(I := TrimSpace(args)))
    case 'J' => ParseJ(d, args)
    case 'K' => Some(d.(K := TrimSpace(args)))
    case 'L' => Some(d.(L := Decoded(args)))
    case 'M' => Some(d.(M := d.M + [TrimSpace(args)]))
    case 'N' => Some(d.(N := TrimSpace(args)))
    case 'P' => Some(d.(P := Fields(args)))
    case 'Q' => ParseQ(d, args)
    case 'R' => Some(d.(R := TrimSpace(args)))
    case 'T' => ParseT(d, args)
    case 'U' => Some(d.(U := Decoded(args)))
    case _ => None
  }

  /** The cards of one letter, one after the other. */
  ghost function ParseAll(d: Deck, card: char, texts: seq<string>, clock: Clock): Option<Deck> {
    if texts == [] then Some(d)
    else match ParseAll(d, card, texts[..|texts| - 1], clock)
         case None => None
         case Some(e) => ParseCard(e, card, texts[|texts| - 1], clock)
  }

  // ----- round trip of the cards of one letter -----

  /** Clocks print one word, and parse it back. */
  ghost predicate Tells(clock: Clock, t: int, text: string) {
    Token(text) && clock.parse(text) == Some(t)
  }

  ghost predicate GoodFile(f: FileCard) {
    && Escapable(f.name) && NoSpace(f.uuid) && NoSpace(f.perm) && (f.perm != "" ==> f.uuid != "")
    && (f.oldName != "" ==> f.uuid != "" && f.perm != "" && Escapable(f.oldName))
  }

  ghost predicate PlainPick(q: CherryPick) { NoBlank(q.target) && OneLine(q.target) && OneLine(q.baseline) }

  ghost predicate GoodPick(q: CherryPick) { PlainPick(q) && (q.target != "" || q.baseline != "") }

  ghost predicate GoodTag(t: TagCard) {
    t.tagType != '\n' && NoBlank(t.name) && OneLine(t.name) && NoBlank(t.uuid) && OneLine(t.uuid) && OneLine(t.value)
  }

  /** Tag types outside ASCII are printed as two bytes, of which one is read back. */
  ghost predicate AsciiTags(d: Deck) { forall t :: t in d.T ==> t.tagType < '\U{80}' }

  /** What every parsed manifest is like, whatever its text. */
  ghost predicate Shaped(d: Deck) {
    && (d.A.Some? ==> NoBlank(d.A.value.target) && OneLine(d.A.value.target) && OneLine(d.A.value.source))
    && Trimmed(d.B) && Trimmed(d.G) && Trimmed(d.I) && Trimmed(d.K) && Trimmed(d.N) && Trimmed(d.R)
    && (d.E.Some? ==> OneLine(d.E.value.uuid))
    && (forall f :: f in d.F ==> GoodFile(f))
    && (forall j :: j in d.J ==> OneLine(j.value))
    && (forall m :: m in d.M ==> Trimmed(m))
    && (forall p :: p in d.P ==> Token(p))
    && (forall q :: q in d.Q ==> PlainPick(q))
    && (forall t :: t in d.T ==> GoodTag(t))
    && Allocatable(|d.W|)
  }

  /** What else the cards of a letter need: their times are told by the clock, and no cherry pick is empty. */
  ghost predicate LetterOk(d: Deck, n: nat, clock: Clock) {
    && (n == 3 && d.D.Some? ==> Tells(clock, d.D.value, clock.millis(d.D.value)))
    && (n == 4 && d.E.Some? ==> Tells(clock, d.E.value.date, clock.seconds(d.E.value.date)))
    && (n == 15 ==> forall q :: q in d.Q ==> GoodPick(q))
  }

  /** What a manifest must be to be printed so that it can be read back. */
  ghost predicate WellFormed(d: Deck, clock: Clock) {
    Shaped(d) && AsciiTags(d) && forall n: nat :: n < LETTERS ==> LetterOk(d, n, clock)
  }

  lemma {:induction false} BlankAt(head: string, tail: string)
    requires NoBlank(head)
    ensures Blank(head + " " + tail) == |head| && Blank(head) == |head|
  {
    if head != "" {
      assert (head + " " + tail)[1..] == head[1..] + " " + tail;
      BlankAt(head[1..], tail);
    }
  }

  lemma SplitHead(head: string, tail: string, n: nat)
    requires NoBlank(head)
    ensures n > 0 ==> SplitN(head + " " + tail, n) == [head] + SplitN(tail, n - 1)
    ensures SplitN(head, n) == [head]
  {
    BlankAt(head, tail);
    var s := head + " " + tail;
    assert s[|head| + 1..] == tail && s[..|head|] == head;
  }

  /** An optional last part. */
  lemma SplitOpt(head: string, last: string, n: nat)
    requires NoBlank(head) && n > 0
    ensures SplitN(head + Opt(last), n) == if last == "" then [head] else [head] + SplitN(last, n - 1)
  {
    if last == "" {
      assert head + "" == head;
      SplitHead(head, "", n);
    } else {
      assert head + (" " + last) == head + " " + last;
      SplitHead(head, last, n);
    }
  }

  lemma TrimOfTrimmed(s: string)
    requires Trimmed(s)
    ensures TrimSpace(s) == s
  {
  }

  lemma WordIsTrimmed(s: string)
    requires NoSpace(s)
    ensures Trimmed(s) && NoBlank(s) && OneLine(s)
  {
    assert forall i: nat :: i < |s| ==> SpaceAt(s, i) == 0;
    if s != "" {
      TokenShape(s);
      if |s| >= 2 { assert SpaceAt(s, |s| - 2) == 0; }
      if |s| >= 3 { assert SpaceAt(s, |s| - 3) == 0; }
      assert SpaceAt(s, 0) == 0;
    }
  }

  lemma {:induction false} EncodedShape(s: string)
    ensures NoBlank(Encoded(s)) && OneLine(Encoded(s)) && (s == "" <==> Encoded(s) == "")
  {
    if s != "" { EncodedShape(s[..|s| - 1]); }
  }

  lemma EncodedText(s: string)
    ensures NoBlank(Encoded(s)) && OneLine(Encoded(s)) && (s == "" <==> Encoded(s) == "") && Decoded(Encoded(s)) == s
  {
    EncodedShape(s);
    DecodeUndoesEncode(s);
  }

  /** The file card's words. */
  lemma FileRoundTrip(d: Deck, f: FileCard)
    requires GoodFile(f)
    ensures ParseF(d, FileText(f)) == Some(d.(F := d.F + [f])) && OneLine(FileText(f))
  {
    EncodedIsToken(f.name);
    DecodeUndoesEncode(f.name);
    var name := Encoded(f.name);
    var words := if f.uuid == "" then [] else if f.perm == "" then [f.uuid] else if f.oldName == "" then [f.uuid, f.perm] else [f.uuid, f.perm, Encoded(f.oldName)];
    if f.oldName != "" {
      EncodedIsToken(f.oldName);
      DecodeUndoesEncode(f.oldName);
    }
    hide Encoded, Decoded, Fields, Line;
    FileWords(f, name, words);
    FieldsOfLine(name, words);
    LineShape(name, words);
  }

  lemma FileWords(f: FileCard, name: string, words: seq<string>)
    requires GoodFile(f) && name == Encoded(f.name)
    requires words == if f.uuid == "" then [] else if f.perm == "" then [f.uuid] else if f.oldName == "" then [f.uuid, f.perm] else [f.uuid, f.perm, Encoded(f.oldName)]
    ensures FileText(f) == Line(name, words)
  {
    hide Encoded;
    if f.uuid != "" {
      assert Line(name, [f.uuid]) == name + " " + f.uuid by { assert [f.uuid][..0] == []; }
      if f.perm != "" {
        assert [f.uuid, f.perm][..1] == [f.uuid];
        if f.oldName != "" {
          assert [f.uuid, f.perm, Encoded(f.oldName)][..2] == [f.uuid, f.perm];
        }
      }
    }
  }

  lemma SplitThree(a: string, b: string, c: string)
    requires NoBlank(a) && NoBlank(b)
    ensures SplitN(a + " " + b + Opt(c), 2) == [a, b] + Optional(c)
  {
    assert a + " " + b + Opt(c) == a + " " + (b + Opt(c));
    SplitHead(a, b + Opt(c), 2);
    SplitOpt(b, c, 1);
  }

  lemma SpacedFile(a: string, space: string, b: string, uuid: string)
    requires Token(a) && Verbatim(a + space + b) && Verbatim(a) && uuid != ""
    ensures FileText(FileCard(a + space + b, uuid, "", "")) == a + space + b + " " + uuid && Decoded(a) == a
  {
    VerbatimIsItself(a + space + b);
    VerbatimIsItself(a);
    hide Encoded, Decoded, Verbatim, Token;
  }

  lemma SpacedFields(a: string, space: string, b: string, uuid: string)
    requires Token(a) && IsSpace(space) && Token(b) && Token(uuid)
    ensures Fields(a + space + b + " " + uuid) == [a, b, uuid]
  {
    hide Fields, Token, IsSpace;
    FieldsOfToken(a);
    NextField(a, space, b);
    BlankIsSpace();
    NextField(a + space + b, " ", uuid);
  }

  lemma VerbatimStart(a: string, b: string)
    requires Verbatim(a + b)
    ensures Verbatim(a)
  {
    assert forall i :: 0 <= i < |a| ==> a[i] == (a + b)[i];
  }

  /** A file name in which white space stands that is not escaped falls into two words: the second is read as the
      content's name, and that as the permissions. */
  lemma SpaceSplitsName(d: Deck, a: string, space: string, b: string, uuid: string)
    requires Token(a) && IsSpace(space) && Token(b) && Token(uuid) && Verbatim(a + space + b)
    ensures FileText(FileCard(a + space + b, uuid, "", "")) == a + space + b + " " + uuid
    ensures ParseF(d, a + space + b + " " + uuid) == Some(d.(F := d.F + [FileCard(a, b, uuid, "")]))
  {
    assert a + space + b == a + (space + b);
    VerbatimStart(a, space + b);
    SpacedFile(a, space, b, uuid);
    SpacedFields(a, space, b, uuid);
    hide Fields, Decoded, FileText, IsSpace, Verbatim;
  }

  lemma AttachmentRoundTrip(d: Deck, a: AttachmentCard)
    requires NoBlank(a.target) && OneLine(a.target) && OneLine(a.source)
    ensures var text := Encoded(a.filename) + " " + a.target + Opt(a.source);
            ParseA(d, text) == Some(d.(A := Some(a))) && OneLine(text)
  {
    EncodedText(a.filename);
    SplitThree(Encoded(a.filename), a.target, a.source);
    hide Encoded, Decoded, SplitN, OneLine, NoBlank;
  }

  lemma EventRoundTrip(d: Deck, e: EventCard, text: string, clock: Clock)
    requires Tells(clock, e.date, text) && OneLine(e.uuid)
    ensures ParseE(d, text + " " + e.uuid, clock) == Some(d.(E := Some(e))) && OneLine(text + " " + e.uuid)
  {
    WordIsTrimmed(text);
    SplitHead(text, e.uuid, 1);
    TrimOfTrimmed(text);
    hide TrimSpace, SplitN;
  }

  lemma TicketRoundTrip(d: Deck, j: TicketField)
    requires OneLine(j.value)
    ensures ParseJ(d, Encoded(j.name) + Opt(j.value)) == Some(d.(J := d.J + [j])) && OneLine(Encoded(j.name) + Opt(j.value))
  {
    EncodedText(j.name);
    hide Encoded, Decoded;
    SplitOpt(Encoded(j.name), j.value, 1);
  }

  function PickText(q: CherryPick): string { (if q.isBackout then "-" else "+") + q.target + Opt(q.baseline) }

  lemma PickRoundTrip(d: Deck, q: CherryPick)
    requires GoodPick(q)
    ensures ParseQ(d, PickText(q)) == Some(d.(Q := d.Q + [q])) && OneLine(PickText(q))
  {
    assert PickText(q)[1..] == q.target + Opt(q.baseline);
    SplitOpt(q.target, q.baseline, 1);
  }

  /** A byte as %c prints it: as the character of that number, in UTF-8. */
  function RuneText(c: char): string {
    if c < '\U{80}' then [c] else [(0xC0 + c as int / 64) as char, (0x80 + c as int % 64) as char]
  }

  function TagText(t: TagCard): string { RuneText(t.tagType) + t.name + " " + t.uuid + Opt(t.value) }

  /** What is read back of a tag: of a type outside ASCII the second byte becomes part of the name. */
  ghost function ReadBack(t: TagCard): TagCard {
    if t.tagType < '\U{80}' then t else t.(tagType := RuneText(t.tagType)[0], name := [RuneText(t.tagType)[1]] + t.name)
  }

  lemma TagRoundTrip(d: Deck, t: TagCard)
    requires GoodTag(t)
    ensures ParseT(d, TagText(t)) == Some(d.(T := d.T + [ReadBack(t)])) && OneLine(TagText(t)) && GoodTag(ReadBack(t))
  {
    var r := ReadBack(t);
    TagTextRead(t);
    assert OneLine(TagText(t)) && GoodTag(r);
    SplitThree(r.name, r.uuid, r.value);
    hide SplitN, OneLine, NoBlank, Opt, ReadBack, TagText;
  }

  lemma TagTextRead(t: TagCard)
    ensures var r, text := ReadBack(t), TagText(t);
            |text| >= 2 && text[0] == r.tagType && text[1..] == r.name + " " + r.uuid + Opt(r.value)
  {
    hide Opt;
  }
}
