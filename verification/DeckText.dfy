/** Whole manifests (internal/deck/marshal.go: `Marshal`; internal/deck/parse.go: `Parse`;
    internal/deck/zcard.go: `VerifyZ`). */
module DeckText {
  import opened Bytes
  import opened Decimal
  import opened Words
  import opened Reading
  import opened Sorting
  import opened DeckCards
  import opened DeckRoundTrip

  // ----- printing -----

  function CardLine(letter: char, text: string): string { [letter] + " " + text + "\n" }

  ghost function CardLines(letter: char, texts: seq<string>): string {
    if texts == [] then "" else CardLines(letter, texts[..|texts| - 1]) + CardLine(letter, texts[|texts| - 1])
  }

  /** The cards of the first so many letters. */
  ghost function Cards(d: Deck, n: nat, clock: Clock): string
    requires n <= LETTERS
  {
    if n == 0 then "" else Cards(d, n - 1, clock) + CardLines(Letter(n - 1), Texts(d, n - 1, clock))
  }

  /** The last card carries its text bare, behind its length. */
  function WikiText(w: string): string { if w == "" then "" else "W " + IntToString(|w|) + "\n" + w + "\n" }

  ghost function Printed(d: Deck, clock: Clock, md5: string -> string): string {
    var body := Cards(d, LETTERS, clock) + WikiText(d.W);
    body + "Z " + md5(body) + "\n"
  }

  /** The manifest that is printed for another: files, members and tags sorted. */
  ghost predicate SortedFrom(s: Deck, d: Deck) {
    && s == d.(F := s.F, M := s.M, T := s.T)
    && multiset(s.F) == multiset(d.F) && Ordered(s.F, (f: FileCard) => f.name)
    && multiset(s.M) == multiset(d.M) && Ordered(s.M, (m: string) => m)
    && multiset(s.T) == multiset(d.T) && Ordered(s.T, (t: TagCard) => RuneText(t.tagType) + t.name + t.uuid)
  }

  lemma SortingKeepsForm(s: Deck, d: Deck, clock: Clock)
    requires SortedFrom(s, d)
    ensures WellFormed(s, clock) <==> WellFormed(d, clock)
  {
    hide GoodFile, GoodTag, GoodPick, PlainPick, Trimmed, Tells, Ordered;
    forall f ensures f in s.F <==> f in d.F { assert f in multiset(s.F) <==> f in multiset(d.F); }
    forall m ensures m in s.M <==> m in d.M { assert m in multiset(s.M) <==> m in multiset(d.M); }
    forall t ensures t in s.T <==> t in d.T { assert t in multiset(s.T) <==> t in multiset(d.T); }
    forall n: nat ensures LetterOk(s, n, clock) <==> LetterOk(d, n, clock) { }
  }

  /** When no two files share a name, and no two tags all but the value, there is only one manifest to be printed. */
  lemma SortingIsDetermined(s: Deck, t: Deck, d: Deck)
    requires SortedFrom(s, d) && SortedFrom(t, d)
    requires TellsApart(d.F, (f: FileCard) => f.name) && TellsApart(d.T, (t: TagCard) => RuneText(t.tagType) + t.name + t.uuid)
    ensures s == t
  {
    forall f | f in s.F ensures f in d.F { assert f in multiset(s.F); }
    forall t | t in s.T ensures t in d.T { assert t in multiset(s.T); }
    hide Ordered;
    SortIsUnique(s.F, t.F, (f: FileCard) => f.name);
    SortIsUnique(s.M, t.M, (m: string) => m);
    SortIsUnique(s.T, t.T, (t: TagCard) => RuneText(t.tagType) + t.name + t.uuid);
  }

  /** Prints the cards in the order of their letters, each list sorted, and the checksum. */
  method Marshal(d: Deck, clock: Clock, md5: string -> string) returns (data: string)
    ensures exists s :: SortedFrom(s, d) && data == Printed(s, clock, md5)
  {
    hide Texts, Ordered, IntToString, Letter;
    var files := SortBy(d.F, (f: FileCard) => f.name);
    var members := SortBy(d.M, (m: string) => m);
    var tags := SortBy(d.T, (t: TagCard) => RuneText(t.tagType) + t.name + t.uuid);
    var sorted := d.(F := files, M := members, T := tags);
    var b := "";
    for n := 0 to LETTERS
      invariant b == Cards(sorted, n, clock)
    {
      var texts := Texts(sorted, n, clock);
      ghost var before := b;
      for i := 0 to |texts|
        invariant b == before + CardLines(Letter(n), texts[..i])
      {
        assert texts[..i + 1][..i] == texts[..i];
        b := b + CardLine(Letter(n), texts[i]);
      }
      assert texts[..|texts|] == texts;
    }
    b := b + WikiText(sorted.W);
    data := b + "Z " + md5(b) + "\n";
    assert SortedFrom(sorted, d) && data == Printed(sorted, clock, md5);
  }

  // ----- parsing -----

  datatype Parsing = Parsed(deck: Deck) | Invalid | Crash

  datatype LineResult = Read(deck: Deck, last: char, rest: string) | Refused | Panics

  /** The wiki text behind its line: its size, and a newline after it if there is one. */
  function ReadWiki(line: string, after: string, d: Deck): (r: LineResult)
    ensures r.Read? ==> |r.rest| <= |after|
  {
    if |line| < 2 then Panics // there is no argument to cut off
    else match Atoi(TrimSpace(line[2..]))
         case None => Refused
         case Some(size) =>
           if !Allocatable(size) then Panics
           else if |after| < size then Refused
           else Read(d.(W := after[..size]), 'W', if |after| == size then "" else after[size + 1..])
  }

  /** The next line, read on top of the cards before it; the last letter read orders them. */
  function ReadOne(s: string, d: Deck, last: char, clock: Clock): (r: LineResult)
    requires s != ""
    ensures r.Read? ==> |r.rest| < |s|
  {
    var k := FirstNewline(s);
    var line, after := s[..k], if k == |s| then "" else s[k + 1..];
    if line == "" then Read(d, last, after)
    else if line[0] < last then Refused
    else if line[0] == 'W' then ReadWiki(line, after, d)
    else if |line| < 2 || line[1] != ' ' then Refused
    else match ParseCard(d, line[0], line[2..], clock)
         case None => Refused
         case Some(e) => Read(e, line[0], after)
  }

  /** All the lines of a text. */
  function ParseBody(s: string, d: Deck, last: char, clock: Clock): Parsing
    decreases |s|
  {
    if s == "" then Parsed(d)
    else match ReadOne(s, d, last, clock)
         case Refused => Invalid
         case Panics => Crash
         case Read(e, letter, rest) => ParseBody(rest, e, letter, clock)
  }

  /** The last 35 bytes are a checksum card for the rest. */
  predicate VerifyZ(data: string, md5: string -> string) {
    && |data| >= 35
    && var tail := data[|data| - 35..];
       tail[0] == 'Z' && tail[1] == ' ' && tail[34] == '\n' && md5(data[..|data| - 35]) == tail[2..34]
  }

  function ParseText(data: string, clock: Clock, md5: string -> string): Parsing {
    if !VerifyZ(data, md5) then Invalid
    else match ParseBody(data[..|data| - 35], EMPTY, 0 as char, clock)
         case Parsed(d) => Parsed(d.(kind := InferType(d)))
         case other => other
  }

  /** The loop over the lines of the body. */
  method Parse(data: string, clock: Clock, md5: string -> string) returns (r: Parsing)
    ensures r == ParseText(data, clock, md5)
  {
    hide TrimSpace, Atoi, ParseCard;
    if !VerifyZ(data, md5) {
      return Invalid;
    }
    var reader := new Reader(data[..|data| - 35]);
    var d, lastCard := EMPTY, 0 as char;
    while reader.pos < |reader.data|
      invariant reader.Valid() && fresh(reader)
      invariant ParseBody(reader.Rest(), d, lastCard, clock) == ParseBody(data[..|data| - 35], EMPTY, 0 as char, clock)
      decreases |reader.Rest()|
    {
      var line, eof := reader.ReadString();
      if line == "" {
        continue;
      }
      var card := line[0];
      if card < lastCard {
        return Invalid;
      }
      if card == 'W' {
        if |line| < 2 {
          return Crash;
        }
        var size := Atoi(TrimSpace(line[2..]));
        if size.None? {
          return Invalid;
        }
        if !Allocatable(size.value) {
          return Crash;
        }
        var after := reader.Rest();
        if |after| < size.value {
          return Invalid;
        }
        d := d.(W := after[..size.value]);
        lastCard := card;
        reader.SkipTo(if |after| == size.value then "" else after[size.value + 1..]);
        continue;
      }
      lastCard := card;
      if |line| < 2 || line[1] != ' ' {
        return Invalid;
      }
      var e := ParseCard(d, card, line[2..], clock);
      if e.None? {
        return Invalid;
      }
      d := e.value;
    }
    return Parsed(d.(kind := InferType(d)));
  }

  // ----- round trip -----

  /** One card line. */
  lemma OneCard(letter: char, text: string, rest: string, d: Deck, last: char, clock: Clock)
    requires OneLine(text) && last <= letter && letter != '\n' && letter != 'W'
    ensures ParseBody(CardLine(letter, text) + rest, d, last, clock) ==
            match ParseCard(d, letter, text, clock)
            case None => Invalid
            case Some(e) => ParseBody(rest, e, letter, clock)
  {
    hide ParseCard, TrimSpace, Atoi;
    var line := [letter] + " " + text;
    var s := CardLine(letter, text) + rest;
    assert s == line + "\n" + rest;
    NewlineAfter(line, rest);
    assert s[..|line|] == line && s[|line| + 1..] == rest && line[2..] == text;
  }

  /** The cards of one letter. */
  lemma {:induction false} OneLetter(letter: char, texts: seq<string>, rest: string, d: Deck, last: char, clock: Clock)
    requires AllOnOneLine(texts) && last <= letter && letter != '\n' && letter != 'W'
    ensures ParseBody(CardLines(letter, texts) + rest, d, last, clock) ==
            match ParseAll(d, letter, texts, clock)
            case None => Invalid
            case Some(e) => ParseBody(rest, e, if texts == [] then last else letter, clock)
    decreases |texts|
  {
    hide ParseBody, ParseCard, CardLine;
    if texts == [] {
      assert CardLines(letter, texts) + rest == rest;
    } else {
      var init, text := texts[..|texts| - 1], texts[|texts| - 1];
      assert CardLines(letter, texts) + rest == CardLines(letter, init) + (CardLine(letter, text) + rest);
      OneLetter(letter, init, CardLine(letter, text) + rest, d, last, clock);
      match ParseAll(d, letter, init, clock)
      case None =>
      case Some(e) => OneCard(letter, text, rest, e, if init == [] then last else letter, clock);
    }
  }

  lemma LettersAscend(n: nat)
    requires n < LETTERS
    ensures Letter(n) < 'W' && Letter(n) != '\n' && (n + 1 < LETTERS ==> Letter(n) < Letter(n + 1))
  {
  }

  /** What the cards of the first so many letters are read as. */
  ghost function Reread(d: Deck, n: nat, clock: Clock): Option<Deck>
    requires n <= LETTERS
  {
    if n == 0 then Some(EMPTY)
    else match Reread(d, n - 1, clock)
         case None => None
         case Some(e) => ParseAll(e, Letter(n - 1), Texts(d, n - 1, clock), clock)
  }

  /** No card spans two lines. */
  ghost predicate Aligned(d: Deck, clock: Clock) {
    forall n: nat :: n < LETTERS ==> AllOnOneLine(Texts(d, n, clock))
  }

  /** The cards of the first so many letters. */
  lemma {:induction false} FirstLetters(d: Deck, n: nat, rest: string, clock: Clock) returns (last: char)
    requires n <= LETTERS && Aligned(d, clock)
    ensures ParseBody(Cards(d, n, clock) + rest, EMPTY, 0 as char, clock) ==
            match Reread(d, n, clock)
            case None => Invalid
            case Some(e) => ParseBody(rest, e, last, clock)
    ensures if n == 0 then last == 0 as char else last <= Letter(n - 1)
  {
    hide ParseBody, Texts, Letter, ParseAll, AllOnOneLine;
    if n == 0 {
      assert Cards(d, 0, clock) + rest == rest;
      last := 0 as char;
    } else {
      var letter, texts := Letter(n - 1), Texts(d, n - 1, clock);
      assert Cards(d, n, clock) + rest == Cards(d, n - 1, clock) + (CardLines(letter, texts) + rest);
      last := FirstLetters(d, n - 1, CardLines(letter, texts) + rest, clock);
      LettersAscend(n - 1);
      if n > 1 { LettersAscend(n - 2); }
      match Reread(d, n - 1, clock)
      case None =>
      case Some(e) => OneLetter(letter, texts, rest, e, last, clock);
      last := if texts == [] then last else letter;
    }
  }

  lemma {:induction false} RereadIs(d: Deck, n: nat, clock: Clock)
    requires n <= LETTERS && Shaped(d) && forall m: nat :: m < LETTERS ==> LetterOk(d, m, clock)
    ensures Reread(d, n, clock) == Some(Upto(WithTagsRead(d), n)) && Aligned(d, clock)
  {
    hide Upto, Texts, Letter, ParseAll, AllOnOneLine, Shaped, LetterOk, WithTagsRead;
    NothingYet(WithTagsRead(d));
    forall m: nat | m < LETTERS ensures AllOnOneLine(Texts(d, m, clock)) { LetterIsRead(d, m, clock); }
    if n > 0 {
      RereadIs(d, n - 1, clock);
      LetterIsRead(d, n - 1, clock);
    }
  }

  lemma NothingYet(d: Deck)
    ensures Upto(d, 0) == EMPTY
  {
  }

  lemma WholeDeck(d: Deck)
    ensures Upto(d, LETTERS).(W := d.W) == d.(kind := Checkin) && (d.W == "" ==> Upto(d, LETTERS) == d.(kind := Checkin))
  {
  }

  lemma WikiStep(d: Deck, digits: string, w: string, last: char, clock: Clock)
    requires last <= 'W' && OneLine(digits) && Atoi(TrimSpace(digits)) == Some(|w|) && Allocatable(|w|)
    ensures ParseBody("W " + digits + "\n" + (w + "\n"), d, last, clock) == Parsed(d.(W := w))
  {
    hide ParseCard, TrimSpace, Atoi;
    var line, after := "W " + digits, w + "\n";
    var s := line + "\n" + after;
    NewlineAfter(line, after);
    assert s[..|line|] == line && s[|line| + 1..] == after && line[2..] == digits;
    assert after[..|w|] == w && after[|w| + 1..] == "";
  }

  lemma TheWikiText(d: Deck, w: string, last: char, clock: Clock)
    requires last <= 'W' && Allocatable(|w|)
    ensures ParseBody(WikiText(w), d, last, clock) == Parsed(if w == "" then d else d.(W := w))
  {
    if w != "" {
      hide ParseBody, IntToString, Atoi, TrimSpace;
      WikiLine(|w|);
      WikiStep(d, IntToString(|w|), w, last, clock);
      assert WikiText(w) == "W " + IntToString(|w|) + "\n" + (w + "\n");
    }
  }

  lemma WikiLine(n: nat)
    requires Allocatable(n)
    ensures Atoi(TrimSpace(IntToString(n))) == Some(n)
    ensures forall i :: 0 <= i < |IntToString(n)| ==> IntToString(n)[i] != '\n'
  {
    IntRoundTrip(n);
    IntIsToken(n);
    WordIsTrimmed(IntToString(n));
    TrimOfTrimmed(IntToString(n));
  }

  /** Whatever is printed bears its checksum; the reader gets to the cards, and then to the wiki text. */
  lemma PrintedIsRead(d: Deck, clock: Clock, md5: string -> string)
    requires Aligned(d, clock) && Allocatable(|d.W|) && forall s :: |md5(s)| == 32
    ensures ParseText(Printed(d, clock, md5), clock, md5) ==
            match Reread(d, LETTERS, clock)
            case None => Invalid
            case Some(e) => var f := if d.W == "" then e else e.(W := d.W); Parsed(f.(kind := InferType(f)))
  {
    hide ParseBody, Cards, WikiText, Reread, Aligned;
    var body := Cards(d, LETTERS, clock) + WikiText(d.W);
    var data := Printed(d, clock, md5);
    assert data == body + ("Z " + md5(body) + "\n") && |"Z " + md5(body) + "\n"| == 35;
    assert data[..|data| - 35] == body;
    var tail := data[|data| - 35..];
    assert tail == "Z " + md5(body) + "\n" && tail[2..34] == md5(body);
    var last := FirstLetters(d, LETTERS, WikiText(d.W), clock);
    LettersAscend(LETTERS - 1);
    match Reread(d, LETTERS, clock)
    case None =>
    case Some(e) => TheWikiText(e, d.W, last, clock);
  }

  /** What a printed manifest is read as: itself, with its type inferred, but for tags of types outside ASCII. */
  lemma ManifestIsRead(d: Deck, clock: Clock, md5: string -> string)
    requires Shaped(d) && (forall n: nat :: n < LETTERS ==> LetterOk(d, n, clock)) && forall s :: |md5(s)| == 32
    ensures var r := WithTagsRead(d); ParseText(Printed(d, clock, md5), clock, md5) == Parsed(r.(kind := InferType(r)))
  {
    assert Allocatable(|d.W|);
    hide ParseText, Printed, LetterOk, Upto, Reread, Aligned, Shaped, WithTagsRead;
    var r := WithTagsRead(d);
    RereadIs(d, LETTERS, clock);
    PrintedIsRead(d, clock, md5);
    OnlyTagsChange(d);
    WholeDeck(r);
    assert InferType(r.(kind := Checkin)) == InferType(r);
  }

  /** A printed manifest is parsed back, with its type inferred. */
  lemma ManifestRoundTrip(d: Deck, clock: Clock, md5: string -> string)
    requires WellFormed(d, clock) && forall s :: |md5(s)| == 32
    ensures ParseText(Printed(d, clock, md5), clock, md5) == Parsed(d.(kind := InferType(d)))
  {
    hide ParseText, Printed, LetterOk, Shaped, WithTagsRead, AsciiTags;
    ManifestIsRead(d, clock, md5);
    TagsReadExactly(d);
  }
}
