/** Cards in their order: printing and parsing the cards of all letters. What has been read up to a letter is the part of
    the manifest that the letters before it make up; the cards of the letter add their own part, and nothing else. */
module DeckRoundTrip {
  import opened Bytes
  import opened FossilText
  import opened Words
  import opened DeckCards

  /** The part of a manifest that the first so many letters make up. */
  ghost function Upto(d: Deck, n: nat): Deck {
    Deck(Checkin, if n > 0 then d.A else None, if n > 1 then d.B else "", if n > 2 then d.C else "", if n > 3 then d.D else None,
         if n > 4 then d.E else None, if n > 5 then d.F else [], if n > 6 then d.G else "", if n > 7 then d.H else "",
         if n > 8 then d.I else "", if n > 9 then d.J else [], if n > 10 then d.K else "", if n > 11 then d.L else "",
         if n > 12 then d.M else [], if n > 13 then d.N else "", if n > 14 then d.P else [], if n > 15 then d.Q else [],
         if n > 16 then d.R else "", if n > 17 then d.T else [], if n > 18 then d.U else "", "")
  }

  ghost predicate AllOnOneLine(texts: seq<string>) {
    forall i :: 0 <= i < |texts| ==> OneLine(texts[i])
  }

  lemma {:induction false} FilesRoundTrip(d: Deck, acc: Deck, k: nat, clock: Clock)
    requires k <= |d.F| && acc.F == [] && forall f :: f in d.F ==> GoodFile(f)
    ensures var texts := Texts(d, 5, clock)[..k];
            ParseAll(acc, 'F', texts, clock) == Some(acc.(F := d.F[..k])) && AllOnOneLine(texts)
  {
    hide GoodFile, ParseF, FileText;
    if k > 0 {
      FilesRoundTrip(d, acc, k - 1, clock);
      assert d.F[k - 1] in d.F;
      FileRoundTrip(acc.(F := d.F[..k - 1]), d.F[k - 1]);
      assert Texts(d, 5, clock)[..k][..k - 1] == Texts(d, 5, clock)[..k - 1];
      assert d.F[..k] == d.F[..k - 1] + [d.F[k - 1]];
    } else {
      assert acc.(F := d.F[..0]) == acc;
    }
  }

  lemma {:induction false} TicketsRoundTrip(d: Deck, acc: Deck, k: nat, clock: Clock)
    requires k <= |d.J| && acc.J == [] && forall j :: j in d.J ==> OneLine(j.value)
    ensures var texts := Texts(d, 9, clock)[..k];
            ParseAll(acc, 'J', texts, clock) == Some(acc.(J := d.J[..k])) && AllOnOneLine(texts)
  {
    hide ParseJ, Encoded, Opt;
    if k > 0 {
      TicketsRoundTrip(d, acc, k - 1, clock);
      assert d.J[k - 1] in d.J;
      TicketRoundTrip(acc.(J := d.J[..k - 1]), d.J[k - 1]);
      assert Texts(d, 9, clock)[..k][..k - 1] == Texts(d, 9, clock)[..k - 1];
      assert d.J[..k] == d.J[..k - 1] + [d.J[k - 1]];
    } else {
      assert acc.(J := d.J[..0]) == acc;
    }
  }

  lemma {:induction false} MembersRoundTrip(d: Deck, acc: Deck, k: nat, clock: Clock)
    requires k <= |d.M| && acc.M == [] && forall m :: m in d.M ==> Trimmed(m)
    ensures var texts := Texts(d, 12, clock)[..k];
            ParseAll(acc, 'M', texts, clock) == Some(acc.(M := d.M[..k])) && AllOnOneLine(texts)
  {
    hide TrimSpace, Trimmed;
    if k > 0 {
      MembersRoundTrip(d, acc, k - 1, clock);
      assert d.M[k - 1] in d.M;
      TrimOfTrimmed(d.M[k - 1]);
      TrimmedIsLine(d.M[k - 1]);
      assert Texts(d, 12, clock)[..k][..k - 1] == Texts(d, 12, clock)[..k - 1];
      assert d.M[..k] == d.M[..k - 1] + [d.M[k - 1]];
    } else {
      assert acc.(M := d.M[..0]) == acc;
    }
  }

  lemma {:induction false} PicksRoundTrip(d: Deck, acc: Deck, k: nat, clock: Clock)
    requires k <= |d.Q| && acc.Q == [] && forall q :: q in d.Q ==> GoodPick(q)
    ensures var texts := Texts(d, 15, clock)[..k];
            ParseAll(acc, 'Q', texts, clock) == Some(acc.(Q := d.Q[..k])) && AllOnOneLine(texts)
  {
    hide GoodPick, ParseQ, PickText;
    if k > 0 {
      PicksRoundTrip(d, acc, k - 1, clock);
      assert d.Q[k - 1] in d.Q;
      PickRoundTrip(acc.(Q := d.Q[..k - 1]), d.Q[k - 1]);
      assert Texts(d, 15, clock)[..k][..k - 1] == Texts(d, 15, clock)[..k - 1];
      assert d.Q[..k] == d.Q[..k - 1] + [d.Q[k - 1]];
    } else {
      assert acc.(Q := d.Q[..0]) == acc;
    }
  }

  /** What is read back of a manifest: all of it but the tags of types outside ASCII. */
  ghost function WithTagsRead(d: Deck): Deck {
    d.(T := seq(|d.T|, i requires 0 <= i < |d.T| => ReadBack(d.T[i])))
  }

  lemma {:induction false} TagsRoundTrip(d: Deck, acc: Deck, k: nat, clock: Clock)
    requires k <= |d.T| && acc.T == [] && forall t :: t in d.T ==> GoodTag(t)
    ensures var texts := Texts(d, 17, clock)[..k];
            ParseAll(acc, 'T', texts, clock) == Some(acc.(T := WithTagsRead(d).T[..k])) && AllOnOneLine(texts)
  {
    hide GoodTag, ParseT, TagText, ReadBack;
    var ts := WithTagsRead(d).T;
    if k > 0 {
      TagsRoundTrip(d, acc, k - 1, clock);
      assert d.T[k - 1] in d.T;
      TagRoundTrip(acc.(T := ts[..k - 1]), d.T[k - 1]);
      assert Texts(d, 17, clock)[..k][..k - 1] == Texts(d, 17, clock)[..k - 1];
      assert ts[..k] == ts[..k - 1] + [ts[k - 1]];
    } else {
      assert acc.(T := ts[..0]) == acc;
    }
  }

  lemma TrimmedIsLine(s: string)
    requires Trimmed(s)
    ensures OneLine(s)
  {
  }

  lemma SingleText(acc: Deck, card: char, texts: seq<string>, clock: Clock)
    requires |texts| <= 1
    ensures ParseAll(acc, card, texts, clock) == if texts == [] then Some(acc) else ParseCard(acc, card, texts[0], clock)
  {
    if texts != [] {
      assert texts == [texts[0]];
    }
  }

  /** Cards that hold one trimmed word. */
  lemma WordRoundTrip(d: Deck, n: nat, clock: Clock)
    requires Shaped(d) && LetterOk(d, n, clock) && n in {1, 6, 8, 10, 13, 16}
    ensures ParseAll(Upto(d, n), Letter(n), Texts(d, n, clock), clock) == Some(Upto(d, n + 1)) && AllOnOneLine(Texts(d, n, clock))
  {
    hide Encoded, Decoded, TrimSpace, GoodFile, GoodPick, GoodTag, Tells, ParseAll, Trimmed;
    forall s | Trimmed(s) ensures TrimSpace(s) == s && OneLine(s) { TrimOfTrimmed(s); TrimmedIsLine(s); }
    SingleText(Upto(d, n), Letter(n), Texts(d, n, clock), clock);
  }

  /** Cards that hold one escaped text. */
  lemma EscapedRoundTrip(d: Deck, n: nat, clock: Clock)
    requires Shaped(d) && LetterOk(d, n, clock) && n in {2, 7, 11, 18}
    ensures ParseAll(Upto(d, n), Letter(n), Texts(d, n, clock), clock) == Some(Upto(d, n + 1)) && AllOnOneLine(Texts(d, n, clock))
  {
    hide Encoded, Decoded, TrimSpace, GoodFile, GoodPick, GoodTag, Tells, ParseAll, Trimmed;
    forall s ensures OneLine(Encoded(s)) && (s == "" <==> Encoded(s) == "") && Decoded(Encoded(s)) == s { EncodedText(s); }
    SingleText(Upto(d, n), Letter(n), Texts(d, n, clock), clock);
  }

  lemma TheAttachment(d: Deck, clock: Clock)
    requires Shaped(d) && LetterOk(d, 0, clock)
    ensures ParseAll(Upto(d, 0), 'A', Texts(d, 0, clock), clock) == Some(Upto(d, 1)) && AllOnOneLine(Texts(d, 0, clock))
  {
    hide Encoded, Decoded, ParseAll, ParseA, Opt, OneLine, NoBlank, Trimmed, Tells, GoodFile, GoodPick, GoodTag;
    SingleText(Upto(d, 0), 'A', Texts(d, 0, clock), clock);
    if d.A.Some? {
      AttachmentRoundTrip(Upto(d, 0), d.A.value);
    }
  }

  lemma TheDate(d: Deck, clock: Clock)
    requires Shaped(d) && LetterOk(d, 3, clock)
    ensures ParseAll(Upto(d, 3), 'D', Texts(d, 3, clock), clock) == Some(Upto(d, 4)) && AllOnOneLine(Texts(d, 3, clock))
  {
    hide Encoded, Decoded, ParseAll, TrimSpace, GoodFile, GoodPick, GoodTag;
    SingleText(Upto(d, 3), 'D', Texts(d, 3, clock), clock);
    if d.D.Some? {
      WordIsTrimmed(clock.millis(d.D.value));
      TrimOfTrimmed(clock.millis(d.D.value));
    }
  }

  lemma TheEvent(d: Deck, clock: Clock)
    requires Shaped(d) && LetterOk(d, 4, clock)
    ensures ParseAll(Upto(d, 4), 'E', Texts(d, 4, clock), clock) == Some(Upto(d, 5)) && AllOnOneLine(Texts(d, 4, clock))
  {
    hide Encoded, Decoded, ParseAll, ParseE, Tells, OneLine, Trimmed, GoodFile, GoodPick, GoodTag;
    SingleText(Upto(d, 4), 'E', Texts(d, 4, clock), clock);
    if d.E.Some? {
      EventRoundTrip(Upto(d, 4), d.E.value, clock.seconds(d.E.value.date), clock);
    }
  }

  lemma TheParents(d: Deck, clock: Clock)
    requires Shaped(d) && LetterOk(d, 14, clock)
    ensures ParseAll(Upto(d, 14), 'P', Texts(d, 14, clock), clock) == Some(Upto(d, 15)) && AllOnOneLine(Texts(d, 14, clock))
  {
    hide Encoded, Decoded, ParseAll, Fields, Line, NoSpace, Tells, Trimmed, GoodFile, GoodPick, GoodTag;
    SingleText(Upto(d, 14), 'P', Texts(d, 14, clock), clock);
    if d.P != [] {
      assert d.P[0] in d.P && forall p :: p in d.P[1..] ==> p in d.P;
      FieldsOfLine(d.P[0], d.P[1..]);
      LineShape(d.P[0], d.P[1..]);
      assert d.P == [d.P[0]] + d.P[1..];
    }
  }

  /** The cards of one letter are parsed back, and none spans two lines. */
  lemma LetterRoundTrip(d: Deck, n: nat, clock: Clock)
    requires Shaped(d) && LetterOk(d, n, clock) && n < LETTERS && n != 17
    ensures ParseAll(Upto(d, n), Letter(n), Texts(d, n, clock), clock) == Some(Upto(d, n + 1)) && AllOnOneLine(Texts(d, n, clock))
  {
    if n in {1, 6, 8, 10, 13, 16} {
      WordRoundTrip(d, n, clock);
    } else if n in {2, 7, 11, 18} {
      EscapedRoundTrip(d, n, clock);
    } else if n == 0 {
      TheAttachment(d, clock);
    } else if n == 3 {
      TheDate(d, clock);
    } else if n == 4 {
      TheEvent(d, clock);
    } else if n == 14 {
      TheParents(d, clock);
    } else {
      ListRoundTrip(d, n, clock);
    }
  }

  lemma ListRoundTrip(d: Deck, n: nat, clock: Clock)
    requires Shaped(d) && LetterOk(d, n, clock) && n in {5, 9, 12, 15}
    ensures ParseAll(Upto(d, n), Letter(n), Texts(d, n, clock), clock) == Some(Upto(d, n + 1)) && AllOnOneLine(Texts(d, n, clock))
  {
    hide ParseAll, GoodFile, GoodPick, GoodTag, Trimmed, Encoded, Opt, FileText, PickText, TagText;
    var acc, texts := Upto(d, n), Texts(d, n, clock);
    assert texts[..|texts|] == texts;
    if n == 5 {
      FilesRoundTrip(d, acc, |d.F|, clock);
      assert d.F[..|d.F|] == d.F;
    } else if n == 9 {
      TicketsRoundTrip(d, acc, |d.J|, clock);
      assert d.J[..|d.J|] == d.J;
    } else if n == 12 {
      MembersRoundTrip(d, acc, |d.M|, clock);
      assert d.M[..|d.M|] == d.M;
    } else {
      PicksRoundTrip(d, acc, |d.Q|, clock);
      assert d.Q[..|d.Q|] == d.Q;
    }
  }

  lemma TagsKeepShape(d: Deck)
    requires Shaped(d)
    ensures Shaped(WithTagsRead(d))
  {
    hide GoodFile, GoodPick, GoodTag, PlainPick, Trimmed, ReadBack;
    var r := WithTagsRead(d);
    forall t | t in r.T ensures GoodTag(t) {
      var i :| 0 <= i < |r.T| && r.T[i] == t;
      assert d.T[i] in d.T;
      TagRoundTrip(EMPTY, d.T[i]);
    }
  }

  lemma SameButTags(d: Deck, r: Deck, n: nat, clock: Clock)
    requires r == d.(T := r.T) && n < LETTERS
    ensures n <= 17 ==> Upto(r, n) == Upto(d, n)
    ensures n != 17 ==> Texts(r, n, clock) == Texts(d, n, clock)
    ensures LetterOk(d, n, clock) ==> LetterOk(r, n, clock)
  {
    hide GoodPick, Tells;
  }

  /** What the cards of one letter are read as. */
  lemma LetterIsRead(d: Deck, n: nat, clock: Clock)
    requires Shaped(d) && LetterOk(d, n, clock) && n < LETTERS
    ensures var r := WithTagsRead(d);
            ParseAll(Upto(r, n), Letter(n), Texts(d, n, clock), clock) == Some(Upto(r, n + 1)) && AllOnOneLine(Texts(d, n, clock))
  {
    var r := WithTagsRead(d);
    if n == 17 {
      TheTags(d, clock);
    } else {
      hide ParseAll, Upto, Texts, Shaped, LetterOk, AllOnOneLine, WithTagsRead;
      TagsKeepShape(d);
      assert r == d.(T := r.T) by { OnlyTagsChange(d); }
      SameButTags(d, r, n, clock);
      LetterRoundTrip(r, n, clock);
    }
  }

  lemma OnlyTagsChange(d: Deck)
    ensures WithTagsRead(d) == d.(T := WithTagsRead(d).T)
  {
  }

  lemma TheTags(d: Deck, clock: Clock)
    requires Shaped(d)
    ensures var r := WithTagsRead(d);
            ParseAll(Upto(r, 17), 'T', Texts(d, 17, clock), clock) == Some(Upto(r, 18)) && AllOnOneLine(Texts(d, 17, clock))
  {
    hide ParseAll, GoodFile, GoodPick, GoodTag, Trimmed, TagText, ReadBack;
    var r, texts := WithTagsRead(d), Texts(d, 17, clock);
    assert texts[..|texts|] == texts && r.T[..|d.T|] == r.T;
    TagsRoundTrip(d, Upto(r, 17), |d.T|, clock);
  }

  lemma ReadBackExactly(t: TagCard)
    ensures ReadBack(t) == t <==> t.tagType < '\U{80}'
  {
    assert |ReadBack(t).name| == |t.name| + if t.tagType < '\U{80}' then 0 else 1;
  }

  /** Nothing is changed exactly if all tag types are in ASCII. */
  lemma TagsReadExactly(d: Deck)
    ensures WithTagsRead(d) == d <==> AsciiTags(d)
  {
    hide ReadBack;
    var r := WithTagsRead(d);
    forall i | 0 <= i < |d.T| ensures r.T[i] == d.T[i] <==> d.T[i].tagType < '\U{80}' { ReadBackExactly(d.T[i]); }
    if AsciiTags(d) {
      assert r.T == d.T;
    }
  }
}
