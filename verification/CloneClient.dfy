/** The client's side of a clone (internal/sync/clone.go: `buildRequest`, `processResponse`, `handleFile`). The session
    keeps a cursor and a cookie, which it hands back to the server, and the artifacts that it knows by name only. */
module CloneClient {
  import opened Bytes
  import opened SyncStore
  import opened CloneServer

  /** Whole contents that bear their names, and on which the manifest parser does not panic. */
  ghost predicate GoodFiles(files: seq<Card>, h: Contents) {
    forall f :: f in files ==>
      f.FileCard? && f.deltaSrc == "" && h.valid(f.uuid) && h.of(f.uuid, f.content) == f.uuid && !h.panics(f.content)
  }

  /** The artifacts after storing whole files one by one: what is there stays. */
  ghost function WithFiles(blob: map<Uuid, Option<Slice>>, files: seq<Card>): map<Uuid, Option<Slice>>
    requires forall f :: f in files ==> f.FileCard?
  {
    if files == [] then blob
    else
      var b, f := WithFiles(blob, files[..|files| - 1]), files[|files| - 1];
      if f.uuid in b && b[f.uuid].Some? then b else b[f.uuid := Some(f.content)]
  }

  class CloneSession {
    const repo: Repo
    var phantoms: set<Uuid>
    var seqno: int
    var cookie: string
    var projectCode: string
    var serverCode: string
    var blobsRecvd: nat

    constructor (repo: Repo)
      ensures this.repo == repo && phantoms == {} && seqno == 1 && cookie == "" && blobsRecvd == 0
    {
      this.repo, phantoms, seqno, cookie, projectCode, serverCode, blobsRecvd := repo, {}, 1, "", "", "", 0;
    }

    /** The cookie is echoed, the cursor follows the first round; once the cursor is zero no clone is asked for. */
    method BuildRequest(cycle: nat) returns (cards: seq<Card>)
      ensures CloneCard in cards <==> seqno > 0
      ensures CloneSeqNoCard(seqno) in cards <==> seqno > 0 && cycle > 0
      ensures forall c :: c in cards && c.CloneSeqNoCard? ==> c.seqNo == seqno
      ensures CookieCard(cookie) in cards <==> cookie != ""
      ensures forall c :: c in cards && c.CookieCard? ==> c.value == cookie
      ensures forall u :: GimmeCard(u) in cards <==> u in phantoms && seqno <= 1
      ensures PullCard in cards <==> seqno <= 0 && projectCode != "" && serverCode != ""
      ensures forall c :: c in cards ==> c.CookieCard? || c.CloneCard? || c.CloneSeqNoCard? || c.PullCard? || c.GimmeCard?
    {
      cards := [];
      if cookie != "" {
        cards := cards + [CookieCard(cookie)];
      }
      if seqno > 0 {
        cards := cards + [CloneCard];
        if cycle > 0 {
          cards := cards + [CloneSeqNoCard(seqno)];
        }
      } else if projectCode != "" && serverCode != "" {
        cards := cards + [PullCard];
      }
      if seqno <= 1 {
        ghost var head := cards;
        var left := phantoms;
        while left != {}
          invariant left <= phantoms
          invariant forall c :: c in cards <==> c in head || (c.GimmeCard? && c.uuid in phantoms && c.uuid !in left)
          decreases left
        {
          var u :| u in left;
          left := left - {u};
          cards := cards + [GimmeCard(u)];
        }
      }
    }

    /** A file whose delta source is missing becomes a phantom, and so does the source. */
    method HandleFile(uuid: Uuid, deltaSrc: Uuid, payload: Slice) returns (ok: bool)
      requires repo.Valid()
      modifies repo, this`phantoms
      ensures repo.Valid() && repo.Kept()
      ensures ok ==> uuid in repo.blob
      ensures !ok ==> repo.blob == old(repo.blob) && phantoms == old(phantoms)
      ensures repo.contents.valid(uuid) && deltaSrc != "" && deltaSrc !in old(repo.blob) ==>
                (ok && phantoms == old(phantoms) + {uuid, deltaSrc}
                 && repo.blob == if uuid in old(repo.blob) then old(repo.blob) else old(repo.blob)[uuid := None])
      ensures deltaSrc == "" && repo.contents.valid(uuid) && repo.contents.of(uuid, payload) == uuid
              && (uuid in old(repo.blob) || !repo.contents.panics(payload)) ==>
                (ok && phantoms == old(phantoms) - {uuid}
                 && repo.blob == WithFiles(old(repo.blob), [FileCard(uuid, deltaSrc, payload)]))
    {
      var r := repo.StoreReceivedFile(uuid, deltaSrc, payload);
      if r == Stored {
        phantoms := phantoms - {uuid};
        WithFilesUnfolds(old(repo.blob), [], FileCard(uuid, deltaSrc, payload));
        return true;
      }
      if r != DeltaSourceMissing {
        return false;
      }
      repo.StorePhantom(uuid);
      phantoms := phantoms + {uuid};
      if deltaSrc != "" {
        var exists_ := repo.Exists(deltaSrc);
        if !exists_ {
          phantoms := phantoms + {deltaSrc};
        }
      }
      return true;
    }

    method ProcessCard(c: Card) returns (ok: bool)
      requires repo.Valid()
      modifies this`phantoms, this`seqno, this`cookie, this`projectCode, this`serverCode, repo
      ensures repo.Valid() && repo.Kept()
      ensures !c.FileCard? ==> ok && phantoms == old(phantoms) && repo.blob == old(repo.blob)
      ensures c.FileCard? && GoodFiles([c], repo.contents) ==>
                ok && phantoms <= old(phantoms) && repo.blob == WithFiles(old(repo.blob), [c])
      ensures seqno == if c.CloneSeqNoCard? then c.seqNo else old(seqno)
      ensures cookie == if c.CookieCard? then c.value else old(cookie)
      ensures projectCode == if c.PushCard? && old(projectCode) == "" then c.projectCode else old(projectCode)
      ensures serverCode == if c.PushCard? && old(serverCode) == "" then c.serverCode else old(serverCode)
    {
      ok := true;
      match c {
        case PushCard(server, project) =>
          if project != "" && projectCode == "" {
            projectCode := project;
          }
          if server != "" && serverCode == "" {
            serverCode := server;
          }
        case FileCard(uuid, deltaSrc, content) =>
          assert c in [c];
          ok := HandleFile(uuid, deltaSrc, content);
        case CloneSeqNoCard(n) => seqno := n;
        case CookieCard(value) => cookie := value;
        case _ =>
      }
    }

    /** All cards of a response. Good files are all stored, and counted; the cursor and the cookie are those that
        the response carries. */
    method ProcessResponse(cards: seq<Card>) returns (ok: bool, done: bool)
      requires repo.Valid()
      modifies this, repo
      ensures repo.Valid() && repo.Kept()
      ensures GoodFiles(FilesIn(cards), repo.contents) ==>
                (ok && phantoms <= old(phantoms) && (done <==> FilesIn(cards) == [])
                 && blobsRecvd == old(blobsRecvd) + |FilesIn(cards)|
                 && repo.blob == WithFiles(old(repo.blob), FilesIn(cards)))
      ensures ok ==> Carries(cards, old(seqno), seqno, old(cookie), cookie)
      ensures ok ==> NamesCodes(cards, old(projectCode), projectCode, old(serverCode), serverCode)
    {
      hide FilesIn, WithFiles, Carries, GoodFiles, NamesCodes;
      var filesRecvd := 0;
      NoCards(repo.blob, seqno, cookie, projectCode, serverCode);
      for i := 0 to |cards|
        invariant repo.Valid() && repo.Kept()
        invariant blobsRecvd == old(blobsRecvd) && Carries(cards[..i], old(seqno), seqno, old(cookie), cookie)
        invariant NamesCodes(cards[..i], old(projectCode), projectCode, old(serverCode), serverCode)
        invariant filesRecvd == |FilesIn(cards[..i])|
        invariant GoodFiles(FilesIn(cards[..i]), repo.contents) ==>
                    phantoms <= old(phantoms) && repo.blob == WithFiles(old(repo.blob), FilesIn(cards[..i]))
      {
        assert cards[..i + 1] == cards[..i] + [cards[i]];
        FilesInGrows(cards[..i], cards[i]);
        CarriesNext(cards[..i], cards[i], old(seqno), seqno, old(cookie), cookie);
        NamesNext(cards[..i], cards[i], old(projectCode), projectCode, old(serverCode), serverCode);
        if cards[i].FileCard? {
          GoodNext(old(repo.blob), FilesIn(cards[..i]), cards[i], repo.contents);
        }
        ok := ProcessCard(cards[i]);
        if !ok {
          PrefixIsGood(cards, i + 1, repo.contents);
          return false, false;
        }
        if cards[i].FileCard? {
          filesRecvd := filesRecvd + 1;
        }
      }
      assert cards[..|cards|] == cards;
      blobsRecvd := blobsRecvd + filesRecvd;
      return true, filesRecvd == 0;
    }
  }

  /** The cursor and the cookie are those of the last cards that carry them, and stay if there are none. */
  ghost predicate Carries(cards: seq<Card>, seqno: int, seqno': int, cookie: string, cookie': string) {
    && (if exists c :: c in cards && c.CloneSeqNoCard?
        then exists i :: 0 <= i < |cards| && cards[i] == CloneSeqNoCard(seqno') && forall j :: i < j < |cards| ==> !cards[j].CloneSeqNoCard?
        else seqno' == seqno)
    && (if exists c :: c in cards && c.CookieCard?
        then exists i :: 0 <= i < |cards| && cards[i] == CookieCard(cookie') && forall j :: i < j < |cards| ==> !cards[j].CookieCard?
        else cookie' == cookie)
  }

  lemma CarriesNext(cards: seq<Card>, c: Card, seqno: int, seqno': int, cookie: string, cookie': string)
    requires Carries(cards, seqno, seqno', cookie, cookie')
    ensures Carries(cards + [c], seqno, if c.CloneSeqNoCard? then c.seqNo else seqno', cookie, if c.CookieCard? then c.value else cookie')
  {
    var all, n := cards + [c], |cards|;
    assert forall d :: d in all <==> d in cards || d == c;
    assert all[n] == c;
    if !c.CloneSeqNoCard? && exists d :: d in cards && d.CloneSeqNoCard? {
      var i :| 0 <= i < n && cards[i] == CloneSeqNoCard(seqno') && forall j :: i < j < n ==> !cards[j].CloneSeqNoCard?;
      assert all[i] == CloneSeqNoCard(seqno') && forall j :: i < j < |all| ==> !all[j].CloneSeqNoCard?;
    }
    if !c.CookieCard? && exists d :: d in cards && d.CookieCard? {
      var i :| 0 <= i < n && cards[i] == CookieCard(cookie') && forall j :: i < j < n ==> !cards[j].CookieCard?;
      assert all[i] == CookieCard(cookie') && forall j :: i < j < |all| ==> !all[j].CookieCard?;
    }
  }

  /** The codes, once known, stay; else they are the first ones that the response names. */
  ghost predicate NamesCodes(cards: seq<Card>, projectCode: string, projectCode': string, serverCode: string, serverCode': string) {
    && projectCode' == (if projectCode != "" then projectCode else FirstProject(cards))
    && serverCode' == if serverCode != "" then serverCode else FirstServer(cards)
  }

  ghost function FirstProject(cards: seq<Card>): string {
    if cards == [] then ""
    else
      var first := FirstProject(cards[..|cards| - 1]);
      if first == "" && cards[|cards| - 1].PushCard? then cards[|cards| - 1].projectCode else first
  }

  ghost function FirstServer(cards: seq<Card>): string {
    if cards == [] then ""
    else
      var first := FirstServer(cards[..|cards| - 1]);
      if first == "" && cards[|cards| - 1].PushCard? then cards[|cards| - 1].serverCode else first
  }

  /** What stands before others that are first. */
  lemma {:induction false} FirstIsFirst(cards: seq<Card>, i: nat)
    requires i < |cards| && cards[i].PushCard?
    ensures cards[i].projectCode != "" && (forall j :: 0 <= j < i && cards[j].PushCard? ==> cards[j].projectCode == "") ==>
              FirstProject(cards) == cards[i].projectCode
    ensures cards[i].serverCode != "" && (forall j :: 0 <= j < i && cards[j].PushCard? ==> cards[j].serverCode == "") ==>
              FirstServer(cards) == cards[i].serverCode
    decreases |cards|
  {
    var init := cards[..|cards| - 1];
    if i < |init| {
      FirstIsFirst(init, i);
    } else {
      if forall j :: 0 <= j < i && cards[j].PushCard? ==> cards[j].projectCode == "" { NoProjectYet(init); }
      if forall j :: 0 <= j < i && cards[j].PushCard? ==> cards[j].serverCode == "" { NoServerYet(init); }
    }
  }

  lemma {:induction false} NoProjectYet(cards: seq<Card>)
    requires forall j :: 0 <= j < |cards| && cards[j].PushCard? ==> cards[j].projectCode == ""
    ensures FirstProject(cards) == ""
  {
    if cards != [] { NoProjectYet(cards[..|cards| - 1]); }
  }

  lemma {:induction false} NoServerYet(cards: seq<Card>)
    requires forall j :: 0 <= j < |cards| && cards[j].PushCard? ==> cards[j].serverCode == ""
    ensures FirstServer(cards) == ""
  {
    if cards != [] { NoServerYet(cards[..|cards| - 1]); }
  }

  lemma NamesNext(cards: seq<Card>, c: Card, projectCode: string, projectCode': string, serverCode: string, serverCode': string)
    requires NamesCodes(cards, projectCode, projectCode', serverCode, serverCode')
    ensures NamesCodes(cards + [c], projectCode, if c.PushCard? && projectCode' == "" then c.projectCode else projectCode',
                       serverCode, if c.PushCard? && serverCode' == "" then c.serverCode else serverCode')
  {
    assert (cards + [c])[..|cards|] == cards;
  }

  lemma WithFilesUnfolds(blob: map<Uuid, Option<Slice>>, files: seq<Card>, f: Card)
    requires f.FileCard? && forall g :: g in files ==> g.FileCard?
    ensures forall g :: g in files + [f] ==> g.FileCard?
    ensures WithFiles(blob, files + [f]) == WithFiles(WithFiles(blob, files), [f])
    ensures WithFiles(blob, [f]) == if f.uuid in blob && blob[f.uuid].Some? then blob else blob[f.uuid := Some(f.content)]
  {
    assert (files + [f])[..|files|] == files;
    assert [f][..0] == [];
  }

  lemma GoodNext(blob: map<Uuid, Option<Slice>>, files: seq<Card>, f: Card, h: Contents)
    requires f.FileCard? && forall g :: g in files ==> g.FileCard?
    ensures forall g :: g in files + [f] ==> g.FileCard?
    ensures GoodFiles(files + [f], h) <==> GoodFiles(files, h) && GoodFiles([f], h)
    ensures WithFiles(blob, files + [f]) == WithFiles(WithFiles(blob, files), [f])
  {
    assert forall g :: g in files + [f] <==> g in files || g == f;
    WithFilesUnfolds(blob, files, f);
  }

  lemma {:induction false} PrefixIsGood(cards: seq<Card>, i: nat, h: Contents)
    requires i <= |cards|
    ensures GoodFiles(FilesIn(cards), h) ==> GoodFiles(FilesIn(cards[..i]), h)
    decreases |cards|
  {
    if i < |cards| {
      var init := cards[..|cards| - 1];
      assert init[..i] == cards[..i];
      PrefixIsGood(init, i, h);
      assert forall f :: f in FilesIn(init) ==> f in FilesIn(cards);
    } else {
      assert cards[..i] == cards;
    }
  }

  lemma NoCards(blob: map<Uuid, Option<Slice>>, seqno: int, cookie: string, projectCode: string, serverCode: string)
    ensures NamesCodes([], projectCode, projectCode, serverCode, serverCode)
    ensures FilesIn([]) == [] && WithFiles(blob, []) == blob && Carries([], seqno, seqno, cookie, cookie)
  {
  }
}
