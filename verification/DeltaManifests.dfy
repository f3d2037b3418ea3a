/** A baseline and what differs from it (internal/manifest/manifest.go, files.go), as texts. */
module DeltaManifests {
  import opened Words
  import opened DeckCards
  import opened DeckText
  import DeckExact

  type Uuid = string

  datatype Entry = Entry(uuid: Uuid, perm: string)

  type Listing = map<string, Entry>

  ghost predicate DistinctNames(files: seq<FileCard>) {
    forall i, j :: 0 <= i < j < |files| ==> files[i].name != files[j].name
  }

  /** Files of a full manifest: named once, with contents. */
  ghost predicate FullFiles(files: seq<FileCard>) {
    DistinctNames(files) && forall f :: f in files ==> f.uuid != ""
  }

  ghost predicate Names(files: seq<FileCard>, name: string) {
    exists f :: f in files && f.name == name
  }

  /** A listing of exactly these files. */
  ghost predicate Lists(listing: Listing, files: seq<FileCard>) {
    && (forall f :: f in files ==> f.name in listing && listing[f.name] == Entry(f.uuid, f.perm))
    && forall n :: n in listing ==> Names(files, n)
  }

  /** What a delta manifest stands for: its own files, and those of the baseline that it does not name. A file without
      a uuid is one that is gone. */
  ghost predicate Overlays(listing: Listing, base: Listing, files: seq<FileCard>) {
    && (forall f :: f in files ==> if f.uuid == "" then f.name !in listing else f.name in listing && listing[f.name] == Entry(f.uuid, f.perm))
    && (forall n :: !Names(files, n) ==> (n in listing <==> n in base) && (n in base ==> listing[n] == base[n]))
  }

  /** The same names and contents. */
  ghost predicate SameContents(listing: Listing, files: seq<FileCard>) {
    && (forall f :: f in files ==> f.name in listing && listing[f.name].uuid == f.uuid)
    && forall n :: n in listing ==> Names(files, n)
  }

  method ListFull(files: seq<FileCard>) returns (listing: Listing)
    requires DistinctNames(files)
    ensures Lists(listing, files)
  {
    listing := map[];
    for i := 0 to |files|
      invariant Lists(listing, files[..i])
    {
      assert files[..i + 1] == files[..i] + [files[i]];
      assert forall f :: f in files[..i] ==> f.name != files[i].name;
      listing := listing[files[i].name := Entry(files[i].uuid, files[i].perm)];
      assert files[i] in files[..i + 1];
    }
    assert files[..|files|] == files;
  }

  method Overlay(base: Listing, files: seq<FileCard>) returns (listing: Listing)
    requires DistinctNames(files)
    ensures Overlays(listing, base, files)
  {
    listing := base;
    for i := 0 to |files|
      invariant Overlays(listing, base, files[..i])
    {
      assert files[..i + 1] == files[..i] + [files[i]];
      assert forall f :: f in files[..i] ==> f.name != files[i].name;
      assert files[i] in files[..i + 1];
      if files[i].uuid == "" {
        listing := listing - {files[i].name};
      } else {
        listing := listing[files[i].name := Entry(files[i].uuid, files[i].perm)];
      }
    }
    assert files[..|files|] == files;
  }

  /** The cards by which the files differ from a baseline, comparing contents only. */
  ghost predicate IsDifference(cards: seq<FileCard>, full: seq<FileCard>, base: Listing) {
    && DistinctNames(cards)
    && (forall f :: f in full ==> (f in cards <==> !(f.name in base && base[f.name].uuid == f.uuid)))
    && (forall n :: n in base && !Names(full, n) ==> FileCard(n, "", "", "") in cards)
    && forall c :: c in cards ==> c in full || (c == FileCard(c.name, "", "", "") && c.name in base && !Names(full, c.name))
  }

  method Difference(full: seq<FileCard>, base: Listing) returns (cards: seq<FileCard>)
    requires FullFiles(full)
    ensures IsDifference(cards, full, base)
  {
    cards := [];
    for i := 0 to |full|
      invariant DistinctNames(cards) && forall c :: c in cards ==> c in full[..i]
      invariant forall f :: f in full[..i] ==> (f in cards <==> !(f.name in base && base[f.name].uuid == f.uuid))
    {
      assert full[..i + 1] == full[..i] + [full[i]];
      assert forall f :: f in full[..i] ==> f.name != full[i].name;
      if full[i].name !in base || base[full[i].name].uuid != full[i].uuid {
        assert forall k :: 0 <= k < |cards| ==> cards[k] in cards;
        cards := cards + [full[i]];
      }
    }
    assert full[..|full|] == full;
    var currentFiles := set f | f in full :: f.name;
    var left := base.Keys - currentFiles;
    ghost var gone, changed := left, cards;
    while left != {}
      invariant left <= gone && DistinctNames(cards)
      invariant forall c :: c in cards <==> c in changed || (c == FileCard(c.name, "", "", "") && c.name in gone && c.name !in left)
      decreases left
    {
      var n :| n in left;
      left := left - {n};
      assert forall k :: 0 <= k < |cards| ==> cards[k] in cards && cards[k].name != n;
      cards := cards + [FileCard(n, "", "", "")];
    }
    assert forall n :: n in gone <==> n in base && !Names(full, n);
  }

  lemma {:induction false} DistinctCards(cards: seq<FileCard>)
    requires DistinctNames(cards)
    ensures |set c | c in cards| == |cards|
  {
    if cards != [] {
      var n := |cards| - 1;
      DistinctCards(cards[..n]);
      assert forall c :: c in cards[..n] ==> c.name != cards[n].name;
      assert (set c | c in cards) == (set c | c in cards[..n]) + {cards[n]};
    }
  }

  /** There is only one number of cards by which files differ from a baseline. */
  lemma DifferenceHasOneSize(cards: seq<FileCard>, other: seq<FileCard>, full: seq<FileCard>, base: Listing)
    requires IsDifference(cards, full, base) && IsDifference(other, full, base)
    ensures |cards| == |other|
  {
    DistinctCards(cards);
    DistinctCards(other);
    assert (set c | c in cards) == set c | c in other;
  }

  /** The difference stands for the full list as to names and contents, and as to permissions exactly when no
      file has kept its content but not its permissions. */
  lemma DifferenceStandsFor(cards: seq<FileCard>, full: seq<FileCard>, base: Listing, listing: Listing)
    requires FullFiles(full) && IsDifference(cards, full, base) && Overlays(listing, base, cards)
    ensures SameContents(listing, full)
    ensures Lists(listing, full) <==> PermsKept(full, base)
  {
    forall f | f in full ensures f.name in listing && listing[f.name].uuid == f.uuid {
      if f !in cards { assert !Names(cards, f.name) by { NotNamed(cards, full, base, f); } }
    }
    forall f | f in full
      ensures listing[f.name].perm == f.perm <==> (f.name in base && base[f.name].uuid == f.uuid ==> base[f.name].perm == f.perm)
    {
      if f !in cards { assert !Names(cards, f.name) by { NotNamed(cards, full, base, f); } }
    }
    forall n | n in listing ensures Names(full, n) {
      if Names(cards, n) {
        var c :| c in cards && c.name == n;
        assert c in full;
      }
    }
  }

  lemma NotNamed(cards: seq<FileCard>, full: seq<FileCard>, base: Listing, f: FileCard)
    requires DistinctNames(full) && IsDifference(cards, full, base) && f in full && f !in cards
    ensures !Names(cards, f.name)
  {
    forall c | c in cards && c in full ensures c.name != f.name {
      var i :| 0 <= i < |full| && full[i] == c;
      var j :| 0 <= j < |full| && full[j] == f;
    }
  }

  ghost predicate PermsKept(full: seq<FileCard>, base: Listing) {
    forall f :: f in full && f.name in base && base[f.name].uuid == f.uuid ==> base[f.name].perm == f.perm
  }

  /** A delta manifest can lose a permission: a file that only became executable is not among the differences. */
  lemma PermissionIsLost(f: FileCard, base: Listing)
    requires f == FileCard("tool", "1234", "x", "") && base == map["tool" := Entry("1234", "")]
    ensures IsDifference([], [f], base) && Overlays(base, base, []) && SameContents(base, [f])
    ensures !Lists(base, [f]) && !PermsKept([f], base)
  {
    assert f in [f];
  }

  lemma ListsIsUnique(a: Listing, b: Listing, files: seq<FileCard>)
    requires Lists(a, files) && Lists(b, files)
    ensures a == b
  {
    forall n | n in a ensures n in b && a[n] == b[n] {
      var f :| f in files && f.name == n;
    }
    forall n | n in b ensures n in a {
      var f :| f in files && f.name == n;
    }
  }

  // ----- the checkins of a repository -----

  ghost predicate IsFull(checkins: map<Uuid, Deck>, u: Uuid) {
    u in checkins && checkins[u].B == ""
  }

  /** Every baseline is a full manifest. */
  ghost predicate AllSound(checkins: map<Uuid, Deck>) {
    && (forall u :: u in checkins ==> u != "" && DistinctNames(checkins[u].F))
    && (forall u :: IsFull(checkins, u) ==> FullFiles(checkins[u].F))
    && forall u :: u in checkins && checkins[u].B != "" ==> IsFull(checkins, checkins[u].B)
  }

  /** What the files of a checkin are. */
  ghost predicate Listed(checkins: map<Uuid, Deck>, u: Uuid, listing: Listing) {
    u in checkins
    && if checkins[u].B == "" then Lists(listing, checkins[u].F)
       else
         checkins[u].B in checkins
         && exists base :: Lists(base, checkins[checkins[u].B].F) && Overlays(listing, base, checkins[u].F)
  }

  /** No file of a delta manifest has changed its permissions alone against the baseline. */
  ghost predicate PermsSafe(checkins: map<Uuid, Deck>, u: Uuid, files: seq<FileCard>)
    requires u in checkins
  {
    checkins[u].B == ""
    || (checkins[u].B in checkins
        && exists base :: Lists(base, checkins[checkins[u].B].F) && PermsKept(files, base))
  }

  /** The baseline of a delta on a checkin: its own, or the checkin itself. */
  ghost function BaselineFor(checkins: map<Uuid, Deck>, parent: Uuid): Uuid
    requires parent in checkins
  {
    if checkins[parent].B == "" then parent else checkins[parent].B
  }

  /** A delta is used exactly when the files differ from the baseline by fewer cards than there are files. */
  ghost predicate IsWorthIt(checkins: map<Uuid, Deck>, parent: Uuid, files: seq<FileCard>, B: Uuid) {
    && parent in checkins && BaselineFor(checkins, parent) in checkins
    && (B == "" || B == BaselineFor(checkins, parent))
    && forall base, cards :: Lists(base, checkins[BaselineFor(checkins, parent)].F) && IsDifference(cards, files, base) ==>
         (B != "" <==> |cards| < |files|)
  }

  /** A deck that stands for a list of files: all of them, or the difference from a full manifest. */
  ghost predicate StandsFor(checkins: map<Uuid, Deck>, d: Deck, files: seq<FileCard>) {
    FullFiles(files)
    && if d.B == "" then multiset(d.F) == multiset(files)
       else
         IsFull(checkins, d.B)
         && exists base :: Lists(base, checkins[d.B].F) && IsDifference(d.F, files, base)
  }

  lemma {:induction false} TwoPlaces(files: seq<FileCard>, f: FileCard) returns (i: nat, j: nat)
    requires multiset(files)[f] >= 2
    ensures i < j < |files| && files[i] == files[j] == f
  {
    var n := |files| - 1;
    assert files == files[..n] + [files[n]];
    if files[n] == f {
      assert f in multiset(files[..n]);
      j := n;
      i :| 0 <= i < n && files[i] == f;
    } else {
      i, j := TwoPlaces(files[..n], f);
    }
  }

  lemma InMultiset(a: seq<FileCard>, b: seq<FileCard>)
    requires multiset(a) == multiset(b)
    ensures forall f :: f in a <==> f in b
  {
    forall f ensures f in a <==> f in b { assert f in multiset(a) <==> f in multiset(b); }
  }

  lemma {:induction false} AtTwoPlaces(files: seq<FileCard>, i: nat, j: nat)
    requires i < j < |files| && files[i] == files[j]
    ensures multiset(files)[files[i]] >= 2
  {
    assert files == files[..j] + ([files[j]] + files[j + 1..]);
    assert files[i] in files[..j];
  }

  /** The order of files does not matter. */
  lemma DistinctInAnyOrder(a: seq<FileCard>, b: seq<FileCard>)
    requires multiset(a) == multiset(b) && DistinctNames(a)
    ensures DistinctNames(b)
  {
    InMultiset(a, b);
    forall i, j | 0 <= i < j < |b| ensures b[i].name != b[j].name {
      if b[i] == b[j] {
        AtTwoPlaces(b, i, j);
        var p, q := TwoPlaces(a, b[i]);
      } else {
        assert b[i] in a && b[j] in a;
        var p :| 0 <= p < |a| && a[p] == b[i];
        var q :| 0 <= q < |a| && a[q] == b[j];
      }
    }
  }

  lemma StandsInAnyOrder(checkins: map<Uuid, Deck>, d: Deck, s: Deck, files: seq<FileCard>)
    requires StandsFor(checkins, d, files) && s.B == d.B && multiset(s.F) == multiset(d.F)
    ensures StandsFor(checkins, s, files)
  {
    if d.B != "" {
      var base :| Lists(base, checkins[d.B].F) && IsDifference(d.F, files, base);
      InMultiset(d.F, s.F);
      DistinctInAnyOrder(d.F, s.F);
      assert IsDifference(s.F, files, base);
    }
  }

  lemma ListsInAnyOrder(listing: Listing, a: seq<FileCard>, b: seq<FileCard>)
    requires multiset(a) == multiset(b)
    ensures Lists(listing, a) <==> Lists(listing, b)
    ensures SameContents(listing, a) <==> SameContents(listing, b)
  {
    InMultiset(a, b);
    forall n ensures Names(a, n) <==> Names(b, n) { }
  }

  lemma FullLists(before: map<Uuid, Deck>, u: Uuid, d: Deck, files: seq<FileCard>, listing: Listing)
    requires StandsFor(before, d, files) && d.B == "" && Listed(before[u := d], u, listing)
    ensures Lists(listing, files) && SameContents(listing, files) && PermsSafe(before[u := d], u, files)
  {
    ListsInAnyOrder(listing, d.F, files);
  }

  lemma DeltaLists(before: map<Uuid, Deck>, u: Uuid, d: Deck, files: seq<FileCard>, listing: Listing)
    requires StandsFor(before, d, files) && d.B != "" && (u in before ==> before[u] == d) && Listed(before[u := d], u, listing)
    ensures SameContents(listing, files) && (Lists(listing, files) <==> PermsSafe(before[u := d], u, files))
  {
    hide IsDifference, Overlays, PermsKept, SameContents, FullFiles, Lists;
    var after := before[u := d];
    assert after[d.B] == before[d.B];
    var base :| Lists(base, before[d.B].F) && IsDifference(d.F, files, base);
    var base' :| Lists(base', after[d.B].F) && Overlays(listing, base', d.F);
    ListsIsUnique(base, base', before[d.B].F);
    DifferenceStandsFor(d.F, files, base, listing);
    if PermsSafe(after, u, files) {
      var b :| Lists(b, after[d.B].F) && PermsKept(files, b);
      ListsIsUnique(base, b, before[d.B].F);
    }
  }

  lemma CommitIsSound(before: map<Uuid, Deck>, u: Uuid, d: Deck, files: seq<FileCard>)
    requires AllSound(before) && StandsFor(before, d, files) && u != "" && (u in before ==> before[u] == d)
    ensures AllSound(before[u := d])
    ensures forall v, listing :: Listed(before, v, listing) ==> Listed(before[u := d], v, listing)
  {
    hide Lists, Overlays;
    if d.B == "" {
      DistinctInAnyOrder(files, d.F);
      InMultiset(d.F, files);
    }
  }

  /** Committing such a deck keeps all other listings, and lists the files. */
  lemma CommitLists(before: map<Uuid, Deck>, u: Uuid, d: Deck, files: seq<FileCard>)
    requires AllSound(before) && StandsFor(before, d, files) && u != "" && (u in before ==> before[u] == d)
    ensures AllSound(before[u := d])
    ensures forall v, listing :: Listed(before, v, listing) ==> Listed(before[u := d], v, listing)
    ensures forall listing :: Listed(before[u := d], u, listing) ==>
              SameContents(listing, files) && (Lists(listing, files) <==> PermsSafe(before[u := d], u, files))
  {
    hide AllSound, StandsFor, Listed, SameContents, Lists, PermsSafe;
    CommitIsSound(before, u, d, files);
    forall listing | Listed(before[u := d], u, listing)
      ensures SameContents(listing, files) && (Lists(listing, files) <==> PermsSafe(before[u := d], u, files))
    {
      if d.B == "" {
        FullLists(before, u, d, files, listing);
      } else {
        DeltaLists(before, u, d, files, listing);
      }
    }
  }

  lemma HaveOneSize(cards: seq<FileCard>, full: seq<FileCard>, base: Listing, files: seq<FileCard>)
    requires IsDifference(cards, full, base) && Lists(base, files)
    ensures forall b, other :: Lists(b, files) && IsDifference(other, full, b) ==> |other| == |cards|
  {
    forall b, other | Lists(b, files) && IsDifference(other, full, b) ensures |other| == |cards| {
      ListsIsUnique(b, base, files);
      DifferenceHasOneSize(cards, other, full, base);
    }
  }

  /** What the manifests of a repository are read as. */
  ghost function Decks(texts: map<Uuid, string>, clock: Clock, md5: string -> string): map<Uuid, Deck> {
    map u | u in texts && ParseText(texts[u], clock, md5).Parsed? :: ParseText(texts[u], clock, md5).deck
  }

  /** One more manifest is one more deck. */
  lemma OneMoreDeck(texts: map<Uuid, string>, u: Uuid, text: string, clock: Clock, md5: string -> string)
    requires ParseText(text, clock, md5).Parsed?
    ensures Decks(texts[u := text], clock, md5) == Decks(texts, clock, md5)[u := ParseText(text, clock, md5).deck]
  {
    hide ParseText;
  }

  /** A card for a file that differs is good if the files and those of the baseline are. */
  lemma DifferenceIsGood(cards: seq<FileCard>, full: seq<FileCard>, base: Listing, files: seq<FileCard>)
    requires IsDifference(cards, full, base) && Lists(base, files)
    requires (forall f :: f in full ==> GoodFile(f)) && forall f :: f in files ==> GoodFile(f)
    ensures forall c :: c in cards ==> GoodFile(c)
  {
    forall c | c in cards ensures GoodFile(c) {
      if c !in full {
        var f :| f in files && f.name == c.name;
      }
    }
  }

  /** Other files and another baseline keep a manifest well-formed. */
  lemma OtherFilesAreFine(d: Deck, baseline: string, files: seq<FileCard>, clock: Clock)
    requires WellFormed(d, clock) && Trimmed(baseline) && forall f :: f in files ==> GoodFile(f)
    ensures WellFormed(d.(B := baseline, F := files), clock)
  {
    hide GoodFile, GoodTag, GoodPick, PlainPick, Tells, Trimmed;
    var e := d.(B := baseline, F := files);
    assert forall n: nat :: n < LETTERS ==> LetterOk(d, n, clock) ==> LetterOk(e, n, clock);
  }

  /** The manifests of a repository, as texts under their names. */
  class Manifests {
    const uuidOf: string -> Uuid
    const clock: Clock
    const md5: string -> string
    var texts: map<Uuid, string>

    ghost function Checkins(): map<Uuid, Deck>
      reads this
    {
      Decks(texts, clock, md5)
    }

    ghost predicate Valid()
      reads this
    {
      && AllSound(Checkins())
      && (forall u :: u in texts ==> ParseText(texts[u], clock, md5).Parsed?)
      && forall u :: u in texts ==> uuidOf(texts[u]) == u
    }

    constructor (uuidOf: string -> Uuid, clock: Clock, md5: string -> string)
      ensures Valid() && texts == map[] && this.uuidOf == uuidOf && this.clock == clock && this.md5 == md5
    {
      this.uuidOf, this.clock, this.md5, texts := uuidOf, clock, md5, map[];
    }

    /** The manifest of a checkin, read from its text. */
    method GetManifest(u: Uuid) returns (d: Deck)
      requires Valid() && u in texts
      ensures u in Checkins() && d == Checkins()[u]
    {
      hide ParseText;
      var r := Parse(texts[u], clock, md5);
      d := r.deck;
    }

    method ListFiles(u: Uuid) returns (listing: Listing)
      requires Valid() && u in texts
      ensures Listed(Checkins(), u, listing)
    {
      hide ParseText;
      var d := GetManifest(u);
      if d.B == "" {
        listing := ListFull(d.F);
        return;
      }
      var baseline := GetManifest(d.B);
      var base := ListFull(baseline.F);
      listing := Overlay(base, d.F);
    }

    /** The difference from the parent's baseline, or from the parent, if it has fewer cards. */
    method ApplyDelta(d: Deck, parent: Uuid) returns (r: Deck)
      requires Valid() && FullFiles(d.F) && d.B == "" && parent in texts
      requires WellFormed(d, clock) && forall s :: Token(uuidOf(s))
      ensures StandsFor(Checkins(), r, d.F) && r == d.(B := r.B, F := r.F) && WellFormed(r, clock)
      ensures IsWorthIt(Checkins(), parent, d.F, r.B) && (r.B != "" ==> |r.F| < |d.F|) && (r.B == "" ==> r == d)
    {
      hide ParseText, WellFormed, Token;
      var p := GetManifest(parent);
      var baseline := p.B;
      if baseline == "" {
        baseline := parent;
      }
      var b := GetManifest(baseline);
      var baseFiles := ListFull(b.F);
      var cards := Difference(d.F, baseFiles);
      HaveOneSize(cards, d.F, baseFiles, b.F);
      hide IsDifference, Lists;
      r := d;
      if |cards| < |d.F| {
        r := d.(B := baseline, F := cards);
        GoodFilesOf(d, clock);
        assert baseline == uuidOf(texts[baseline]) && Token(baseline);
        NameIsTrimmed(baseline);
        DeckExact.ParsedIsShaped(texts[baseline], clock, md5);
        GoodFilesOfShaped(b);
        DifferenceIsGood(cards, d.F, baseFiles, b.F);
        OtherFilesAreFine(d, baseline, cards, clock);
      }
    }

    /** Commits the files: marshals the manifest, full or as a difference, and stores its text. Whoever lists the new
        checkin sees the same names and contents, and the same permissions exactly when the manifest is full or no file
        has changed its permissions alone against the baseline; all earlier checkins are listed as before. The manifest
        must be one that can be read back. */
    method Checkin(files: seq<FileCard>, parent: Uuid, delta: bool, other: Deck) returns (u: Uuid)
      requires Valid() && FullFiles(files) && (parent == "" || parent in texts)
      requires WellFormed(other.(B := "", F := files), clock)
      requires (forall s :: Token(uuidOf(s))) && (forall s, t :: uuidOf(s) == uuidOf(t) ==> s == t) && forall s :: |md5(s)| == 32
      modifies this
      ensures Valid() && u in Checkins() && texts == old(texts)[u := texts[u]] && (u in old(texts) ==> texts == old(texts))
      ensures ListsCommitted(old(Checkins()), Checkins(), u, files)
      ensures StoredFrom(old(Checkins()), Checkins()[u], files, parent, delta, other)
    {
      hide Listed, SameContents, Lists, PermsSafe, FullFiles, AllSound, IsWorthIt, OtherCards, ParseText, Printed, WellFormed, SortedFrom, Token, StandsFor, Decks;
      var d := other.(B := "", F := files);
      FullStandsFor(Checkins(), d, files);
      if delta && parent != "" {
        d := ApplyDelta(d, parent);
      }
      var data := Marshal(d, clock, md5);
      ghost var s :| SortedFrom(s, d) && data == Printed(s, clock, md5);
      u := uuidOf(data);
      assert Token(u);
      ReadsAs(texts, s, d, data, files, clock, md5);
      NameIsTrimmed(u);
      OthersAreKept(s, d, other);
      OneMoreDeck(texts, u, data, clock, md5);
      StoredAlready(texts, u, clock, md5);
      CommitLists(Checkins(), u, s.(kind := InferType(s)), files);
      texts := texts[u := data];
    }
  }

  /** Nothing differs but the baseline, the files, the order of members and tags, and the inferred type. */
  ghost predicate OtherCards(d: Deck, other: Deck) {
    && d == other.(kind := InferType(d), B := d.B, F := d.F, M := d.M, T := d.T)
    && multiset(d.M) == multiset(other.M) && multiset(d.T) == multiset(other.T)
  }

  /** The new checkin lists the files: their names and contents, and their permissions exactly when these are safe. All
      earlier listings stay. */
  ghost predicate ListsCommitted(before: map<Uuid, Deck>, after: map<Uuid, Deck>, u: Uuid, files: seq<FileCard>) {
    && u in after
    && (forall listing :: Listed(after, u, listing) ==> SameContents(listing, files) && (Lists(listing, files) <==> PermsSafe(after, u, files)))
    && forall v, listing :: Listed(before, v, listing) ==> Listed(after, v, listing)
  }

  /** The stored manifest has the other cards that were given, and is a difference only if that was asked for and is worth it. */
  ghost predicate StoredFrom(before: map<Uuid, Deck>, d: Deck, files: seq<FileCard>, parent: Uuid, delta: bool, other: Deck) {
    OtherCards(d, other) && if delta && parent != "" then IsWorthIt(before, parent, files, d.B) else d.B == ""
  }

  lemma OthersAreKept(s: Deck, d: Deck, other: Deck)
    requires SortedFrom(s, d) && d == other.(B := d.B, F := d.F)
    ensures OtherCards(s.(kind := InferType(s)), other)
  {
  }

  /** The marshalled text is read as a deck that stands for the same files. */
  lemma ReadsAs(texts: map<Uuid, string>, s: Deck, d: Deck, data: string, files: seq<FileCard>, clock: Clock, md5: string -> string)
    requires SortedFrom(s, d) && data == Printed(s, clock, md5) && WellFormed(d, clock) && forall t :: |md5(t)| == 32
    requires StandsFor(Decks(texts, clock, md5), d, files)
    ensures ParseText(data, clock, md5) == Parsed(s.(kind := InferType(s)))
    ensures StandsFor(Decks(texts, clock, md5), s.(kind := InferType(s)), files) && s.B == d.B
  {
    hide ParseText, Printed, WellFormed, SortedFrom, StandsFor, Decks;
    SortingKeepsForm(s, d, clock);
    ManifestRoundTrip(s, clock, md5);
    SortedFiles(s, d);
    StandsInAnyOrder(Decks(texts, clock, md5), d, s.(kind := InferType(s)), files);
  }

  lemma StoredAlready(texts: map<Uuid, string>, u: Uuid, clock: Clock, md5: string -> string)
    ensures u in Decks(texts, clock, md5) <==> u in texts && ParseText(texts[u], clock, md5).Parsed?
    ensures u in Decks(texts, clock, md5) ==> Decks(texts, clock, md5)[u] == ParseText(texts[u], clock, md5).deck
  {
    hide ParseText;
  }

  lemma FullStandsFor(checkins: map<Uuid, Deck>, d: Deck, files: seq<FileCard>)
    requires FullFiles(files) && d.B == "" && d.F == files
    ensures StandsFor(checkins, d, files)
  {
  }

  lemma SortedFiles(s: Deck, d: Deck)
    requires SortedFrom(s, d)
    ensures s.B == d.B && multiset(s.F) == multiset(d.F)
  {
  }

  lemma GoodFilesOf(d: Deck, clock: Clock)
    requires WellFormed(d, clock)
    ensures forall f :: f in d.F ==> GoodFile(f)
  {
  }

  lemma GoodFilesOfShaped(d: Deck)
    requires Shaped(d)
    ensures forall f :: f in d.F ==> GoodFile(f)
  {
  }

  lemma NameIsTrimmed(u: Uuid)
    requires Token(u)
    ensures Trimmed(u) && u != ""
  {
    WordIsTrimmed(u);
  }
}
