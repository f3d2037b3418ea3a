/** Artifacts that no store takes: storing a new one parses it as a manifest (internal/sync/client.go:
    `storeReceivedFile`), and that can panic (internal/deck/parse.go: `Parse`). */
module ArtifactPanics {
  import opened Bytes
  import opened Reading
  import opened SyncStore
  import opened DeckCards
  import opened DeckText
  import opened DeckExact

  /** The bytes of a content as text. */
  function TextOf(content: Slice): string { seq(|content|, i requires 0 <= i < |content| => content[i] as char) }

  /** On which contents the manifest parser panics: what `Contents.panics` stands for. */
  function PanicsOn(clock: Clock, md5: string -> string): Slice -> bool {
    (content: Slice) => ParseText(TextOf(content), clock, md5) == Crash
  }

  /** Those with a right checksum whose parsing gets to a wiki card without an argument, or with a size that is negative
      or beyond the largest allocation. */
  lemma PanicsExactly(content: Slice, clock: Clock, md5: string -> string)
    ensures PanicsOn(clock, md5)(content) <==>
            var text := TextOf(content);
            VerifyZ(text, md5) && MeetsTooMuch(text[..|text| - 35], EMPTY, 0 as char, clock)
  {
    hide ParseText, TextOf, VerifyZ, MeetsTooMuch;
    CrashExactly(TextOf(content), clock, md5);
  }

  /** For example a wiki card without anything, and its checksum. */
  function BareWiki(md5: string -> string): string { "W\n" + "Z " + md5("W\n") + "\n" }

  lemma BareWikiPanics(clock: Clock, md5: string -> string)
    requires |md5("W\n")| == 32
    ensures ParseText(BareWiki(md5), clock, md5) == Crash
  {
    var body, z := "W\n", "Z " + md5("W\n") + "\n";
    var data := BareWiki(md5);
    assert data == body + z && data[..|data| - 35] == body && data[|data| - 35..] == z;
    assert z[2..34] == md5("W\n");
    assert body == "W" + "\n" + "";
    NewlineAfter("W", "");
    assert body[..1] == "W";
    BodyCrashesAtOnce(body, clock);
  }

  lemma BodyCrashesAtOnce(body: string, clock: Clock)
    requires body != "" && FirstNewline(body) == 1 && body[0] == 'W'
    ensures ParseBody(body, EMPTY, 0 as char, clock) == Crash
  {
    assert body[..1] == ['W'];
  }

  /** No store takes such an artifact, although it bears its name; sessions that carry it do not get on. */
  method BareWikiIsNotStored(repo: Repo, u: Uuid, content: Slice, clock: Clock, md5: string -> string) returns (r: StoreResult)
    requires repo.Valid() && repo.contents.panics == PanicsOn(clock, md5) && |md5("W\n")| == 32
    requires TextOf(content) == BareWiki(md5)
    requires repo.contents.valid(u) && repo.contents.of(u, content) == u && u !in repo.blob
    modifies repo
    ensures r == Crashed && repo.blob == old(repo.blob)
  {
    hide ParseText, TextOf, BareWiki;
    BareWikiPanics(clock, md5);
    r := repo.StoreReceivedFile(u, "", content);
  }
}
