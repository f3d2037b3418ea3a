/** Which manifests can be read back, and which texts make the parser panic. */
module DeckExact {
  import opened Bytes
  import opened Decimal
  import opened FossilText
  import opened Words
  import opened Reading
  import opened DeckCards
  import opened DeckRoundTrip
  import opened DeckText

  // ----- what every parsed manifest is like -----

  lemma {:induction false} SplitParts(s: string, n: nat)
    requires OneLine(s)
    ensures var parts := SplitN(s, n);
            && |parts| <= n + 1 && (forall i :: 0 <= i < |parts| ==> OneLine(parts[i]))
            && forall i :: 0 <= i < |parts| && i < n ==> NoBlank(parts[i])
    decreases n
  {
    var k := Blank(s);
    if n > 0 && k < |s| {
      SplitParts(s[k + 1..], n - 1);
      var more := SplitN(s[k + 1..], n - 1);
      assert forall i :: 0 < i < |more| + 1 ==> ([s[..k]] + more)[i] == more[i - 1];
    }
  }

  lemma {:induction false} TrimLeftIsTrimmed(s: string)
    requires OneLine(s)
    ensures OneLine(TrimLeft(s)) && SpaceAt(TrimLeft(s), 0) == 0
    decreases |s|
  {
    if SpaceAt(s, 0) > 0 { TrimLeftIsTrimmed(s[SpaceAt(s, 0)..]); }
  }

  lemma {:induction false} TrimEndIsTrimmed(s: string)
    requires OneLine(s) && SpaceAt(s, 0) == 0
    ensures Trimmed(TrimEnd(s))
    decreases |s|
  {
    var n := SpaceBefore(s);
    if n > 0 {
      assert s == s[..|s| - n] + s[|s| - n..];
      if n < |s| { SpaceInFront(s[..|s| - n], s[|s| - n..], 0); }
      TrimEndIsTrimmed(s[..|s| - n]);
    }
  }

  lemma TrimIsTrimmed(s: string)
    requires OneLine(s)
    ensures Trimmed(TrimSpace(s))
  {
    TrimLeftIsTrimmed(s);
    TrimEndIsTrimmed(TrimLeft(s));
  }

  lemma ParsedFileIsGood(d: Deck, args: string)
    requires ParseF(d, args).Some?
    ensures var e := ParseF(d, args).value;
            exists f :: GoodFile(f) && e == d.(F := d.F + [f])
  {
    hide Fields, Decoded, Escapable;
    FieldsAreTokens(args);
    var parts := Fields(args);
    forall i | 0 <= i < |parts| ensures Token(parts[i]) && Escapable(Decoded(parts[i])) {
      assert parts[i] in parts;
      DecodedIsEscapable(parts[i]);
    }
    var f := ParseF(d, args).value.F[|d.F|];
    assert GoodFile(f);
  }

  lemma SplitCardKeepsShape(d: Deck, card: char, args: string, clock: Clock)
    requires Shaped(d) && OneLine(args) && card in {'A', 'E', 'J'} && ParseCard(d, card, args, clock).Some?
    ensures Shaped(ParseCard(d, card, args, clock).value)
  {
    hide Decoded, SplitN, TrimSpace, NoBlank, GoodFile, Trimmed, Token;
    SplitParts(args, 1);
    SplitParts(args, 2);
  }

  lemma MarkedCardKeepsShape(d: Deck, card: char, args: string, clock: Clock)
    requires Shaped(d) && OneLine(args) && card in {'Q', 'T'} && ParseCard(d, card, args, clock).Some?
    ensures Shaped(ParseCard(d, card, args, clock).value)
  {
    hide Decoded, SplitN, TrimSpace, NoBlank, GoodFile, Trimmed, Token;
    SplitParts(args[1..], 1);
    SplitParts(args[1..], 2);
  }

  lemma WordCardKeepsShape(d: Deck, card: char, args: string, clock: Clock)
    requires Shaped(d) && Trimmed(TrimSpace(args)) && card in {'B', 'G', 'I', 'K', 'M', 'N', 'R'}
    ensures ParseCard(d, card, args, clock).Some? && Shaped(ParseCard(d, card, args, clock).value)
  {
    hide Decoded, TrimSpace, OneLine, NoBlank, GoodFile, GoodTag, PlainPick, Trimmed, Token;
  }

  lemma TextCardKeepsShape(d: Deck, card: char, args: string, clock: Clock)
    requires Shaped(d) && card !in {'A', 'B', 'E', 'F', 'G', 'I', 'J', 'K', 'M', 'N', 'P', 'Q', 'R', 'T'}
    requires ParseCard(d, card, args, clock).Some?
    ensures Shaped(ParseCard(d, card, args, clock).value)
  {
    hide Decoded, TrimSpace, OneLine, NoBlank, GoodFile, GoodTag, PlainPick, Trimmed, Token;
  }

  lemma ListCardKeepsShape(d: Deck, card: char, args: string, clock: Clock)
    requires Shaped(d) && card in {'F', 'P'} && ParseCard(d, card, args, clock).Some?
    ensures Shaped(ParseCard(d, card, args, clock).value)
  {
    hide Fields, Decoded, OneLine, NoBlank, GoodFile, GoodTag, PlainPick, Trimmed, Token;
    if card == 'F' {
      ParsedFileIsGood(d, args);
    } else {
      FieldsAreTokens(args);
    }
  }

  /** Reading a card keeps a manifest in shape. */
  lemma CardKeepsShape(d: Deck, card: char, args: string, clock: Clock)
    requires Shaped(d) && OneLine(args) && ParseCard(d, card, args, clock).Some?
    ensures Shaped(ParseCard(d, card, args, clock).value)
  {
    hide Shaped, ParseCard, TrimSpace, Trimmed;
    if card in {'A', 'E', 'J'} {
      SplitCardKeepsShape(d, card, args, clock);
    } else if card in {'Q', 'T'} {
      MarkedCardKeepsShape(d, card, args, clock);
    } else if card in {'F', 'P'} {
      ListCardKeepsShape(d, card, args, clock);
    } else if card in {'B', 'G', 'I', 'K', 'M', 'N', 'R'} {
      TrimIsTrimmed(args);
      WordCardKeepsShape(d, card, args, clock);
    } else {
      TextCardKeepsShape(d, card, args, clock);
    }
  }

  lemma LineKeepsShape(s: string, d: Deck, last: char, clock: Clock)
    requires s != "" && Shaped(d) && ReadOne(s, d, last, clock).Read?
    ensures Shaped(ReadOne(s, d, last, clock).deck)
  {
    hide ParseCard, Atoi, TrimSpace, Shaped;
    var k := FirstNewline(s);
    var line, after := s[..k], if k == |s| then "" else s[k + 1..];
    if line != "" && line[0] == 'W' {
      WikiKeepsShape(d, ReadWiki(line, after, d).deck.W);
    } else if line != "" {
      CardKeepsShape(d, line[0], line[2..], clock);
    }
  }

  /** Whatever is parsed is in shape. */
  lemma {:induction false} BodyKeepsShape(s: string, d: Deck, last: char, clock: Clock)
    requires Shaped(d) && ParseBody(s, d, last, clock).Parsed?
    ensures Shaped(ParseBody(s, d, last, clock).deck)
    decreases |s|
  {
    hide ReadOne, Shaped;
    if s != "" {
      LineKeepsShape(s, d, last, clock);
      LineIsUsedUp(s, d, last, clock);
      var r := ReadOne(s, d, last, clock);
      BodyKeepsShape(r.rest, r.deck, r.last, clock);
    }
  }

  lemma LineIsUsedUp(s: string, d: Deck, last: char, clock: Clock)
    requires s != ""
    ensures ReadOne(s, d, last, clock).Read? ==> |ReadOne(s, d, last, clock).rest| < |s|
  {
  }

  lemma WikiKeepsShape(d: Deck, w: string)
    requires Shaped(d) && Allocatable(|w|)
    ensures Shaped(d.(W := w))
  {
  }

  lemma EmptyIsShaped()
    ensures Shaped(EMPTY)
  {
  }

  lemma KindIsNoShape(d: Deck, kind: Kind)
    ensures Shaped(d.(kind := kind)) <==> Shaped(d)
  {
  }

  lemma ParsedIsShaped(data: string, clock: Clock, md5: string -> string)
    requires ParseText(data, clock, md5).Parsed?
    ensures Shaped(ParseText(data, clock, md5).deck)
  {
    hide Shaped, ParseBody, InferType;
    EmptyIsShaped();
    var body := data[..|data| - 35];
    BodyKeepsShape(body, EMPTY, 0 as char, clock);
    var d := ParseBody(body, EMPTY, 0 as char, clock).deck;
    KindIsNoShape(d, InferType(d));
  }

  // ----- where the printed cards are -----

  /** Clocks print times as single words. */
  ghost predicate PrintsWords(clock: Clock) {
    (forall t :: Token(clock.millis(t))) && forall t :: Token(clock.seconds(t))
  }

  lemma PrintsAWord(clock: Clock, t: int)
    requires PrintsWords(clock)
    ensures Token(clock.millis(t))
  {
  }

  lemma ShapedIsAligned(d: Deck, clock: Clock)
    requires Shaped(d) && PrintsWords(clock)
    ensures Aligned(d, clock)
  {
    forall n: nat | n < LETTERS ensures AllOnOneLine(Texts(d, n, clock)) {
      if LetterOk(d, n, clock) {
        LetterIsRead(d, n, clock);
      } else {
        TimesOnOneLine(d, n, clock);
      }
    }
  }

  lemma TimesOnOneLine(d: Deck, n: nat, clock: Clock)
    requires Shaped(d) && PrintsWords(clock) && n in {3, 4, 15}
    ensures AllOnOneLine(Texts(d, n, clock))
  {
    hide GoodFile, GoodTag, Trimmed, Encoded;
    if n == 3 && d.D.Some? {
      PrintsAWord(clock, d.D.value);
      WordIsTrimmed(clock.millis(d.D.value));
    }
    if n == 4 && d.E.Some? { WordIsTrimmed(clock.seconds(d.E.value.date)); }
    if n == 15 {
      forall i | 0 <= i < |d.Q| ensures OneLine(PickText(d.Q[i])) { assert d.Q[i] in d.Q; }
    }
  }

  // ----- times and cherry picks are read back only if they are good -----

  lemma {:induction false} LettersKeepOthers(d: Deck, card: char, texts: seq<string>, clock: Clock)
    requires ParseAll(d, card, texts, clock).Some?
    ensures var e := ParseAll(d, card, texts, clock).value;
            (card != 'D' ==> e.D == d.D) && (card != 'E' ==> e.E == d.E)
  {
    hide SplitN, Fields, Decoded, TrimSpace;
    if texts != [] { LettersKeepOthers(d, card, texts[..|texts| - 1], clock); }
  }

  lemma {:induction false} TimesReread(d: Deck, n: nat, clock: Clock)
    requires n <= LETTERS && Reread(d, n, clock).Some? && PrintsWords(clock)
    ensures var e := Reread(d, n, clock).value;
            && (n > 3 && d.D.Some? ==> e.D == clock.parse(clock.millis(d.D.value)))
            && (n > 4 && d.E.Some? ==> e.E.Some? && clock.parse(clock.seconds(d.E.value.date)) == Some(e.E.value.date))
  {
    hide ParseAll, Texts;
    if n > 0 {
      TimesReread(d, n - 1, clock);
      var before, texts := Reread(d, n - 1, clock).value, Texts(d, n - 1, clock);
      LettersKeepOthers(before, Letter(n - 1), texts, clock);
      if n == 4 && d.D.Some? {
        DateReread(d, before, clock);
      } else if n == 5 && d.E.Some? {
        EventReread(d, before, clock);
      }
    }
  }

  lemma DateReread(d: Deck, before: Deck, clock: Clock)
    requires d.D.Some? && PrintsWords(clock) && ParseAll(before, 'D', Texts(d, 3, clock), clock).Some?
    ensures ParseAll(before, 'D', Texts(d, 3, clock), clock).value.D == clock.parse(clock.millis(d.D.value))
  {
    SingleText(before, 'D', Texts(d, 3, clock), clock);
    PrintsAWord(clock, d.D.value);
    WordIsTrimmed(clock.millis(d.D.value));
    TrimOfTrimmed(clock.millis(d.D.value));
    hide TrimSpace, ParseAll;
  }

  lemma EventReread(d: Deck, before: Deck, clock: Clock)
    requires d.E.Some? && PrintsWords(clock) && ParseAll(before, 'E', Texts(d, 4, clock), clock).Some?
    ensures var e := ParseAll(before, 'E', Texts(d, 4, clock), clock).value;
            e.E.Some? && clock.parse(clock.seconds(d.E.value.date)) == Some(e.E.value.date)
  {
    SingleText(before, 'E', Texts(d, 4, clock), clock);
    var text := clock.seconds(d.E.value.date);
    WordIsTrimmed(text);
    SplitHead(text, d.E.value.uuid, 1);
    TrimOfTrimmed(text);
    hide TrimSpace, ParseAll, SplitN;
  }

  /** A cherry pick without target and baseline is refused. */
  lemma {:induction false} PicksReread(d: Deck, texts: seq<string>, clock: Clock)
    requires ParseAll(d, 'Q', texts, clock).Some?
    ensures forall i :: 0 <= i < |texts| ==> |texts[i]| >= 2
  {
    hide SplitN;
    if texts != [] { PicksReread(d, texts[..|texts| - 1], clock); }
  }

  lemma {:induction false} RereadGrows(d: Deck, n: nat, m: nat, clock: Clock)
    requires n <= m <= LETTERS && Reread(d, m, clock).Some?
    ensures Reread(d, n, clock).Some?
    decreases m
  {
    hide ParseAll, Texts;
    if n < m { RereadGrows(d, n, m - 1, clock); }
  }

  lemma RereadMeansOk(d: Deck, n: nat, clock: Clock)
    requires Shaped(d) && PrintsWords(clock) && n < LETTERS && Reread(d, LETTERS, clock).Some?
    requires var e := Reread(d, LETTERS, clock).value; e.D == d.D && e.E == d.E
    ensures LetterOk(d, n, clock)
  {
    TimesReread(d, LETTERS, clock);
    if n == 15 {
      RereadGrows(d, 16, LETTERS, clock);
      PicksReread(Reread(d, 15, clock).value, Texts(d, 15, clock), clock);
      forall q | q in d.Q ensures GoodPick(q) {
        var i :| 0 <= i < |d.Q| && d.Q[i] == q;
        assert Texts(d, 15, clock)[i] == PickText(q);
      }
    }
  }

  /** A printed manifest is read back exactly when it is well-formed. */
  lemma ManifestExactly(d: Deck, clock: Clock, md5: string -> string)
    requires PrintsWords(clock) && forall s :: |md5(s)| == 32
    ensures ParseText(Printed(d, clock, md5), clock, md5) == Parsed(d.(kind := InferType(d))) <==> WellFormed(d, clock)
  {
    hide ParseText, Printed, Shaped, LetterOk, Reread, Aligned, PrintsWords, InferType, AsciiTags, WithTagsRead;
    if WellFormed(d, clock) {
      ManifestRoundTrip(d, clock, md5);
    }
    if ParseText(Printed(d, clock, md5), clock, md5) == Parsed(d.(kind := InferType(d))) {
      ParsedIsShaped(Printed(d, clock, md5), clock, md5);
      KindIsNoShape(d, InferType(d));
      ShapedIsAligned(d, clock);
      ShapedFits(d);
      PrintedIsRead(d, clock, md5);
      forall n: nat | n < LETTERS ensures LetterOk(d, n, clock) { RereadMeansOk(d, n, clock); }
      ManifestIsRead(d, clock, md5);
      OnlyTagsChange(d);
      TagsReadExactly(d);
      assert WithTagsRead(d).T == d.T;
    }
  }

  lemma ShapedFits(d: Deck)
    requires Shaped(d)
    ensures Allocatable(|d.W|)
  {
  }

  /** What `Marshal` prints is read back, sorted, exactly when the manifest that was given to it is well-formed. */
  lemma MarshalExactly(d: Deck, sorted: Deck, clock: Clock, md5: string -> string)
    requires SortedFrom(sorted, d) && PrintsWords(clock) && forall s :: |md5(s)| == 32
    ensures ParseText(Printed(sorted, clock, md5), clock, md5) == Parsed(sorted.(kind := InferType(sorted)))
       <==> WellFormed(d, clock)
  {
    hide ParseText, Printed, WellFormed, SortedFrom, InferType, PrintsWords;
    ManifestExactly(sorted, clock, md5);
    SortingKeepsForm(sorted, d, clock);
  }

  // ----- what is lost -----

  /** The manifest of one file. */
  function OneFile(name: string, uuid: string, perm: string): Deck { EMPTY.(F := [FileCard(name, uuid, perm, "")]) }

  lemma OneFileTexts(name: string, uuid: string, n: nat, clock: Clock)
    requires n < LETTERS
    ensures Texts(OneFile(name, uuid, ""), n, clock) == if n == 5 then [FileText(FileCard(name, uuid, "", ""))] else []
  {
    assert Encoded("") == "";
    hide Encoded, FileText;
  }

  lemma {:induction false} OneFileReread(name: string, uuid: string, text: string, read: Deck, n: nat, clock: Clock)
    requires n <= LETTERS && text == FileText(FileCard(name, uuid, "", "")) && ParseF(EMPTY, text) == Some(read)
    ensures Reread(OneFile(name, uuid, ""), n, clock) == Some(if n <= 5 then EMPTY else read)
  {
    hide Texts, ParseCard, ParseF, FileText;
    if n > 0 {
      OneFileReread(name, uuid, text, read, n - 1, clock);
      OneFileTexts(name, uuid, n - 1, clock);
      if n == 6 {
        SingleText(EMPTY, 'F', [text], clock);
        FileCardIsF(EMPTY, text, clock);
      }
    }
  }

  lemma FileCardIsF(d: Deck, args: string, clock: Clock)
    ensures ParseCard(d, 'F', args, clock) == ParseF(d, args)
  {
  }

  /** White space that is not escaped loses a manifest: one whose file has it in its name is read as another, where the
      rest of the name has become the content's name, and that the permissions. */
  lemma SpacedIsMisread(a: string, space: string, b: string, uuid: string, clock: Clock, md5: string -> string)
    requires Token(a) && IsSpace(space) && Token(b) && Token(uuid) && Verbatim(a + space + b) && forall s :: |md5(s)| == 32
    ensures ParseText(Printed(OneFile(a + space + b, uuid, ""), clock, md5), clock, md5) == Parsed(OneFile(a, b, uuid))
  {
    var d, text := OneFile(a + space + b, uuid, ""), a + space + b + " " + uuid;
    SpaceSplitsName(EMPTY, a, space, b, uuid);
    SpacedOnOneLine(a, space, b, uuid);
    assert [] + [FileCard(a, b, uuid, "")] == [FileCard(a, b, uuid, "")];
    hide ParseText, Printed, Texts, Reread, FileText, ParseF, OneLine, Token;
    forall n: nat | n < LETTERS ensures AllOnOneLine(Texts(d, n, clock)) { OneFileTexts(a + space + b, uuid, n, clock); }
    OneFileReread(a + space + b, uuid, text, OneFile(a, b, uuid), LETTERS, clock);
    PrintedIsRead(d, clock, md5);
  }

  lemma SpacedOnOneLine(a: string, space: string, b: string, uuid: string)
    requires Verbatim(a + space + b) && Token(uuid)
    ensures OneLine(a + space + b + " " + uuid)
  {
    TokenShape(uuid);
    hide Token;
    assert forall i :: 0 <= i < |a + space + b| ==> (a + space + b)[i] != '\n';
  }

  /** For example a tab, or the ideographic space U+3000. */
  lemma TwoMisreadNames(clock: Clock, md5: string -> string)
    requires forall s :: |md5(s)| == 32
    ensures ParseText(Printed(OneFile("a\tb", "12", ""), clock, md5), clock, md5) == Parsed(OneFile("a", "b", "12"))
    ensures ParseText(Printed(OneFile("a\U{E3}\U{80}\U{80}b", "12", ""), clock, md5), clock, md5) == Parsed(OneFile("a", "b", "12"))
  {
    hide ParseText, Printed;
    AsciiIsToken("a");
    AsciiIsToken("b");
    AsciiIsToken("12");
    assert "a" + "\t" + "b" == "a\tb" && "a" + "\U{E3}\U{80}\U{80}" + "b" == "a\U{E3}\U{80}\U{80}b";
    SpacedIsMisread("a", "\t", "b", "12", clock, md5);
    SpacedIsMisread("a", "\U{E3}\U{80}\U{80}", "b", "12", clock, md5);
  }

  /** The manifest of one tag, and what is read of it. */
  function OneTag(t: TagCard): Deck { EMPTY.(kind := Control, T := [t]) }

  lemma OneTagIsRead(t: TagCard, clock: Clock, md5: string -> string)
    requires GoodTag(t) && forall s :: |md5(s)| == 32
    ensures ParseText(Printed(OneTag(t), clock, md5), clock, md5) == Parsed(OneTag(ReadBack(t)))
  {
    hide ParseText, Printed, ReadBack, Shaped, LetterOk;
    OneTagIsShaped(t, clock);
    ManifestIsRead(OneTag(t), clock, md5);
    assert WithTagsRead(OneTag(t)).T == [ReadBack(t)];
  }

  lemma OneTagIsShaped(t: TagCard, clock: Clock)
    requires GoodTag(t)
    ensures Shaped(OneTag(t)) && forall n: nat :: n < LETTERS ==> LetterOk(OneTag(t), n, clock)
  {
    hide GoodTag;
  }

  /** A tag of the type 0xE9 is read as one of the type 0xC3, with another name. */
  lemma HighTypeIsMisread(clock: Clock, md5: string -> string)
    requires forall s :: |md5(s)| == 32
    ensures ParseText(Printed(OneTag(TagCard('\U{E9}', "x", "12", "")), clock, md5), clock, md5)
         == Parsed(OneTag(TagCard('\U{C3}', "\U{A9}x", "12", "")))
  {
    var t := TagCard('\U{E9}', "x", "12", "");
    assert RuneText(t.tagType) == "\U{C3}\U{A9}" && [RuneText(t.tagType)[1]] + t.name == "\U{A9}x";
    assert ReadBack(t) == TagCard('\U{C3}', "\U{A9}x", "12", "");
    assert GoodTag(t);
    hide ParseText, Printed, OneTag, ReadBack, GoodTag;
    OneTagIsRead(t, clock, md5);
  }

  // ----- panics -----

  /** The next line is a wiki card in its place, without an argument or with a size that no buffer can have. */
  ghost predicate AnnouncesTooMuch(s: string, last: char) {
    && FirstNewline(s) > 0 && last <= s[0] == 'W'
    && var line := s[..FirstNewline(s)];
       |line| < 2 || (Atoi(TrimSpace(line[2..])).Some? && !Allocatable(Atoi(TrimSpace(line[2..])).value))
  }

  lemma LinePanicsExactly(s: string, d: Deck, last: char, clock: Clock)
    requires s != ""
    ensures ReadOne(s, d, last, clock) == Panics <==> AnnouncesTooMuch(s, last)
  {
    hide ParseCard, Atoi, TrimSpace;
  }

  /** What is left behind the first k lines, and the last letter read, if they are all read. */
  ghost function Behind(s: string, d: Deck, last: char, clock: Clock, k: nat): Option<(string, char)>
    decreases k
  {
    if k == 0 then Some((s, last))
    else if s == "" then None
    else match ReadOne(s, d, last, clock)
         case Read(e, letter, rest) => Behind(rest, e, letter, clock, k - 1)
         case _ => None
  }

  /** Behind some lines that are all read, there is such a line. */
  ghost predicate MeetsTooMuch(s: string, d: Deck, last: char, clock: Clock) {
    exists k: nat :: Behind(s, d, last, clock, k).Some?
                     && AnnouncesTooMuch(Behind(s, d, last, clock, k).value.0, Behind(s, d, last, clock, k).value.1)
  }

  lemma MeetsNext(s: string, d: Deck, last: char, clock: Clock)
    ensures MeetsTooMuch(s, d, last, clock) <==>
            AnnouncesTooMuch(s, last)
            || (s != "" && ReadOne(s, d, last, clock).Read?
                && var r := ReadOne(s, d, last, clock); MeetsTooMuch(r.rest, r.deck, r.last, clock))
  {
    hide ReadOne, AnnouncesTooMuch;
    assert Behind(s, d, last, clock, 0) == Some((s, last));
    if MeetsTooMuch(s, d, last, clock) {
      var k: nat :| Behind(s, d, last, clock, k).Some?
                    && AnnouncesTooMuch(Behind(s, d, last, clock, k).value.0, Behind(s, d, last, clock, k).value.1);
      if k > 0 {
        var r := ReadOne(s, d, last, clock);
        assert Behind(r.rest, r.deck, r.last, clock, k - 1) == Behind(s, d, last, clock, k);
      }
    }
    if s != "" && ReadOne(s, d, last, clock).Read? {
      var r := ReadOne(s, d, last, clock);
      if MeetsTooMuch(r.rest, r.deck, r.last, clock) {
        var k: nat :| Behind(r.rest, r.deck, r.last, clock, k).Some?
                      && AnnouncesTooMuch(Behind(r.rest, r.deck, r.last, clock, k).value.0, Behind(r.rest, r.deck, r.last, clock, k).value.1);
        assert Behind(s, d, last, clock, k + 1) == Behind(r.rest, r.deck, r.last, clock, k);
      }
    }
  }

  lemma {:induction false} BodyCrashesExactly(s: string, d: Deck, last: char, clock: Clock)
    ensures ParseBody(s, d, last, clock) == Crash <==> MeetsTooMuch(s, d, last, clock)
    decreases |s|
  {
    hide ReadOne, AnnouncesTooMuch, MeetsTooMuch;
    MeetsNext(s, d, last, clock);
    if s == "" {
      NothingAnnounced(last);
    } else {
      LinePanicsExactly(s, d, last, clock);
      LineIsUsedUp(s, d, last, clock);
      var r := ReadOne(s, d, last, clock);
      if r.Read? { BodyCrashesExactly(r.rest, r.deck, r.last, clock); }
    }
  }

  lemma NothingAnnounced(last: char)
    ensures !AnnouncesTooMuch("", last)
  {
  }

  /** Parsing panics exactly when the checksum is right and the reader gets to a wiki card without an argument, or with
      a size that is negative or beyond the largest allocation. */
  lemma CrashExactly(data: string, clock: Clock, md5: string -> string)
    ensures ParseText(data, clock, md5) == Crash <==>
            VerifyZ(data, md5) && MeetsTooMuch(data[..|data| - 35], EMPTY, 0 as char, clock)
  {
    hide ParseBody, MeetsTooMuch;
    if VerifyZ(data, md5) {
      BodyCrashesExactly(data[..|data| - 35], EMPTY, 0 as char, clock);
    }
  }
}
