/** The server's side of a clone round (internal/sync/handler.go: `parseCloneCap`, `handleControlCard`,
    `emitCloneBatch`). */
module CloneServer {
  import opened Bytes
  import opened Decimal
  import opened SyncStore

  type Rid = nat

  const DEFAULT_CLONE_BATCH_SIZE: nat := 200
  const CLONE_CAP_PREFIX: string := "lf-clone-cap:"

  /** A row of the blob table; a phantom has no content. */
  datatype Row = Row(uuid: Uuid, content: Option<Slice>, isPrivate: bool)

  type Table = t: map<Rid, Row> | forall r: Rid :: r in t ==> 0 < r <= MAX_INT64

  datatype Card =
    | CookieCard(value: string)
    | CloneCard
    | CloneSeqNoCard(seqNo: int)
    | PushCard(serverCode: string, projectCode: string)
    | PullCard
    | IGotCard(uuid: Uuid)
    | GimmeCard(uuid: Uuid)
    | FileCard(uuid: Uuid, deltaSrc: Uuid, content: Slice)
    | ErrorCard

  // ----- the snapshot bound travels as a cookie -----

  function CloneCap(rid: Rid): string { CLONE_CAP_PREFIX + IntToString(rid) }

  function ParseCloneCap(v: string): Option<Rid> {
    if !(CLONE_CAP_PREFIX <= v) then None
    else match Atoi(v[|CLONE_CAP_PREFIX|..])
         case None => None
         case Some(rid) => if rid < 0 then None else Some(rid)
  }

  /** The echoed cookie gives the bound back. */
  lemma CapRoundTrip(rid: Rid)
    requires rid <= MAX_INT64
    ensures ParseCloneCap(CloneCap(rid)) == Some(rid) && CloneCap(rid) == "lf-clone-cap:" + IntToString(rid)
  {
    IntRoundTrip(rid);
    assert CloneCap(rid)[|CLONE_CAP_PREFIX|..] == IntToString(rid);
  }

  // ----- the cards of a message -----

  /** The file cards of a message, in order. */
  ghost function FilesIn(cards: seq<Card>): (files: seq<Card>)
    ensures forall f :: f in files ==> f.FileCard? && f in cards
  {
    if cards == [] then []
    else FilesIn(cards[..|cards| - 1]) + if cards[|cards| - 1].FileCard? then [cards[|cards| - 1]] else []
  }

  /** All of them. */
  lemma {:induction false} FilesAreAll(cards: seq<Card>, f: Card)
    requires f.FileCard?
    ensures multiset(FilesIn(cards))[f] == multiset(cards)[f]
  {
    if cards != [] {
      var init, last := cards[..|cards| - 1], cards[|cards| - 1];
      assert cards == init + [last];
      FilesAreAll(init, f);
    }
  }

  lemma FilesInGrows(cards: seq<Card>, c: Card)
    ensures FilesIn(cards + [c]) == if c.FileCard? then FilesIn(cards) + [c] else FilesIn(cards)
  {
    assert (cards + [c])[..|cards|] == cards;
  }

  // ----- the rows a clone delivers -----

  ghost predicate Public(t: Table, r: Rid) {
    r in t && t[r].content.Some? && !t[r].isPrivate
  }

  ghost predicate Ascending(rids: seq<Rid>) {
    forall i, j :: 0 <= i < j < |rids| ==> rids[i] < rids[j]
  }

  ghost predicate AllPublic(t: Table, rids: seq<Rid>) {
    forall i :: 0 <= i < |rids| ==> Public(t, rids[i])
  }

  ghost function FileAt(t: Table, r: Rid): Card
    requires Public(t, r)
  {
    FileCard(t[r].uuid, "", t[r].content.value)
  }

  ghost function FilesAt(t: Table, rids: seq<Rid>): (cards: seq<Card>)
    requires AllPublic(t, rids)
    ensures |cards| == |rids| && forall f :: f in cards ==> f.FileCard?
  {
    seq(|rids|, i requires 0 <= i < |rids| => FileAt(t, rids[i]))
  }

  /** The largest rid of a real blob, or zero. */
  ghost predicate IsMaxRid(t: Table, m: Rid) {
    && (m == 0 || (m in t && t[m].content.Some?))
    && forall r: Rid :: r in t && t[r].content.Some? ==> r <= m
  }

  /** A batch from beyond a cursor up to a bound: ascending, without gaps, and `more` exactly when it is full
      and something is left. */
  ghost predicate IsBatch(t: Table, lo: int, hi: Rid, batch: seq<Rid>, more: bool): (b: bool)
    ensures b ==> AllPublic(t, batch) && (more ==> batch != [])
  {
    && Ascending(batch) && AllPublic(t, batch)
    && (forall i :: 0 <= i < |batch| ==> lo < batch[i] <= hi)
    && |batch| <= DEFAULT_CLONE_BATCH_SIZE && (more ==> |batch| == DEFAULT_CLONE_BATCH_SIZE)
    && (more ==> exists r: Rid :: batch[|batch| - 1] < r <= hi && Public(t, r))
    && forall r: Rid :: lo < r <= (if more then batch[|batch| - 1] else hi) && Public(t, r) ==> r in batch
  }

  /** The rids of the real rows in (lo, hi], in order. */
  method SelectRids(t: Table, lo: int, hi: Rid) returns (rids: seq<Rid>)
    ensures Ascending(rids)
    ensures forall r: Rid :: r in rids <==> r in t && t[r].content.Some? && lo < r <= hi
  {
    rids := [];
    var left := set r | r in t && t[r].content.Some? && lo < r <= hi;
    ghost var all := left;
    while left != {}
      invariant left <= all && Ascending(rids)
      invariant forall r: Rid :: r in rids <==> r in all && r !in left
      invariant forall r, q: Rid :: r in rids && q in left ==> r < q
      decreases left
    {
      var r := Smallest(left);
      assert forall i :: 0 <= i < |rids| ==> rids[i] in rids;
      left := left - {r};
      rids := rids + [r];
    }
  }

  method Smallest(s: set<Rid>) returns (m: Rid)
    requires s != {}
    ensures m in s && forall r :: r in s ==> m <= r
  {
    m :| m in s;
    var left := s - {m};
    while left != {}
      invariant m in s && left <= s && forall r :: r in s && r !in left ==> m <= r
      decreases left
    {
      var r :| r in left;
      left := left - {r};
      if r < m {
        m := r;
      }
    }
  }

  /** SELECT COALESCE(MAX(rid), 0) over the real blobs. */
  method MaxRid(t: Table) returns (m: Rid)
    ensures IsMaxRid(t, m)
  {
    m := 0;
    var left := set r | r in t && t[r].content.Some?;
    ghost var all := left;
    assert forall r: Rid :: r in t && t[r].content.Some? ==> r in all;
    while left != {}
      invariant left <= all && (m == 0 || m in all)
      invariant forall r :: r in all && r !in left ==> r <= m
      decreases left
    {
      var r :| r in left;
      left := left - {r};
      if r > m {
        m := r;
      }
    }
  }

  /** The last cursor that a request carries; zero when it carries none. */
  ghost function LastSeqNo(req: seq<Card>): int {
    if req == [] then 0
    else match req[|req| - 1]
         case CloneSeqNoCard(seqNo) => seqNo
         case _ => LastSeqNo(req[..|req| - 1])
  }

  /** The last bound among its cookies; other cookies do not matter. */
  ghost function LastCap(req: seq<Card>): Rid {
    if req == [] then 0
    else match req[|req| - 1]
         case CookieCard(value) => if ParseCloneCap(value).Some? then ParseCloneCap(value).value else LastCap(req[..|req| - 1])
         case _ => LastCap(req[..|req| - 1])
  }

  /** The cursor and the bound that the control cards of a request set. */
  ghost predicate AsksFor(req: seq<Card>, seqNo: int, snapMax: Rid) { seqNo == LastSeqNo(req) && snapMax == LastCap(req) }

  /** They come from some card, if there is one. */
  lemma {:induction false} AskedInRequest(req: seq<Card>)
    ensures CloneSeqNoCard(LastSeqNo(req)) in req || (LastSeqNo(req) == 0 && forall c :: c in req ==> !c.CloneSeqNoCard?)
    ensures (exists c :: c in req && c.CookieCard? && ParseCloneCap(c.value) == Some(LastCap(req)))
         || (LastCap(req) == 0 && forall c :: c in req && c.CookieCard? ==> ParseCloneCap(c.value) == None)
  {
    hide ParseCloneCap;
    if req != [] {
      var init, last := req[..|req| - 1], req[|req| - 1];
      assert req == init + [last];
      AskedInRequest(init);
      assert last in req;
    }
  }

  /** What the session goes on with: the files of a batch, the cursor, and on a fresh session the bound. */
  ghost predicate Steers(t: Table, seqNo: int, snapMax: Rid, resp: seq<Card>, cap: Rid, batch: seq<Rid>, more: bool) {
    && (if snapMax == 0 then IsMaxRid(t, cap) else cap == snapMax)
    && IsBatch(t, seqNo, cap, batch, more)
    && CloneSeqNoCard(if more then batch[|batch| - 1] else 0) in resp
    && (forall c :: c in resp && c.CloneSeqNoCard? ==> c == CloneSeqNoCard(if more then batch[|batch| - 1] else 0))
    && (forall c :: c in resp && c.CookieCard? ==> c == CookieCard(CloneCap(cap)))
    && (CookieCard(CloneCap(cap)) in resp <==> snapMax == 0)
  }

  /** How a clone request is answered. */
  ghost predicate AnswersClone(t: Table, seqNo: int, snapMax: Rid, resp: seq<Card>, cap: Rid, batch: seq<Rid>, more: bool) {
    Steers(t, seqNo, snapMax, resp, cap, batch, more) && FilesIn(resp) == FilesAt(t, batch)
  }

  /** No files, and nothing that moves the session. */
  ghost predicate AnswersNothing(resp: seq<Card>) { Uncontrolled(resp) && FilesIn(resp) == [] }

  ghost predicate Uncontrolled(resp: seq<Card>) {
    forall c :: c in resp ==> !c.CloneSeqNoCard? && !c.CookieCard?
  }

  /** The files sent for single requests: each was asked for and is a public artifact, and each public artifact that
      was asked for is there. */
  ghost predicate AnswersGimmes(t: Table, req: seq<Card>, files: seq<Card>) {
    && (forall f :: f in files ==> f.FileCard? && GimmeCard(f.uuid) in req && exists r: Rid :: Public(t, r) && f == FileAt(t, r))
    && (forall u :: GimmeCard(u) in req && Offered(t, u) ==> exists f :: f in files && f.FileCard? && f.uuid == u)
  }

  /** An artifact that is there and public. */
  ghost predicate Offered(t: Table, u: Uuid) {
    (exists r: Rid :: r in t && t[r].uuid == u) && forall r: Rid :: r in t && t[r].uuid == u ==> Public(t, r)
  }

  /** An artifact that is known by its name only, and public. */
  ghost predicate Missing(t: Table, u: Uuid) {
    (exists r: Rid :: r in t && t[r].uuid == u) && forall r: Rid :: r in t && t[r].uuid == u ==> t[r].content == None && !t[r].isPrivate
  }

  /** There is an error if one was asked for that is missing, and only then. */
  ghost predicate ErrorsTold(t: Table, req: seq<Card>, resp: seq<Card>) {
    && ((exists u :: GimmeCard(u) in req && Missing(t, u)) ==> ErrorCard in resp)
    && (ErrorCard in resp ==> exists r: Rid :: r in t && GimmeCard(t[r].uuid) in req && t[r].content == None && !t[r].isPrivate)
  }

  /** What there is besides: the codes of the repository for a clone, and announcements of all that is public for a pull. */
  ghost predicate Announces(t: Table, serverCode: string, projectCode: string, clone: bool, pull: bool, resp: seq<Card>) {
    && (forall c :: c in resp && c.PushCard? ==> c == PushCard(serverCode, projectCode))
    && (PushCard(serverCode, projectCode) in resp <==> clone && projectCode != "")
    && (forall u :: IGotCard(u) in resp <==> pull && exists r: Rid :: Public(t, r) && t[r].uuid == u)
    && forall c :: c in resp ==> !c.CloneCard? && !c.PullCard? && !c.GimmeCard?
  }

  lemma ErrorsNext(t: Table, req: seq<Card>, resp: seq<Card>, c: Card, resp': seq<Card>)
    requires ErrorsTold(t, req, resp) && (ErrorCard in resp ==> ErrorCard in resp')
    requires c.GimmeCard? && Missing(t, c.uuid) ==> ErrorCard in resp'
    requires ErrorCard in resp' && ErrorCard !in resp ==>
               c.GimmeCard? && exists r: Rid :: r in t && t[r].uuid == c.uuid && t[r].content == None && !t[r].isPrivate
    ensures ErrorsTold(t, req + [c], resp')
  {
    hide Missing;
    assert forall d :: d in req + [c] <==> d in req || d == c;
    if ErrorCard in resp' && ErrorCard !in resp {
      var r: Rid :| r in t && t[r].uuid == c.uuid && t[r].content == None && !t[r].isPrivate;
      assert GimmeCard(t[r].uuid) in req + [c];
    }
  }

  lemma GimmeAnswered(t: Table, req: seq<Card>, files: seq<Card>, u: Uuid, answer: seq<Card>)
    requires AnswersGimmes(t, req, files)
    requires forall f :: f in answer ==> f.FileCard? && f.uuid == u && exists r: Rid :: Public(t, r) && f == FileAt(t, r)
    requires Offered(t, u) ==> answer != []
    ensures AnswersGimmes(t, req + [GimmeCard(u)], files + answer)
  {
    hide Offered, Public;
    forall v | GimmeCard(v) in req + [GimmeCard(u)] && Offered(t, v) ensures exists f :: f in files + answer && f.FileCard? && f.uuid == v {
      if v == u {
        assert answer[0] in files + answer;
      } else {
        var f :| f in files && f.FileCard? && f.uuid == v;
        assert f in files + answer;
      }
    }
  }

  lemma OtherAnswered(t: Table, req: seq<Card>, files: seq<Card>, c: Card)
    requires AnswersGimmes(t, req, files) && !c.GimmeCard?
    ensures AnswersGimmes(t, req + [c], files)
  {
  }

  /** The public ones among the first rows. */
  ghost predicate Scanned(t: Table, rids: seq<Rid>, i: nat, batch: seq<Rid>)
    requires i <= |rids|
    ensures Scanned(t, rids, i, batch) ==> AllPublic(t, batch)
  {
    Ascending(batch) && AllPublic(t, batch) && forall r :: r in batch <==> r in rids[..i] && Public(t, r)
  }

  lemma ScansNext(t: Table, rids: seq<Rid>, i: nat, batch: seq<Rid>)
    requires Ascending(rids) && i < |rids| && Scanned(t, rids, i, batch) && rids[i] in t && t[rids[i]].content.Some?
    ensures t[rids[i]].isPrivate ==> Scanned(t, rids, i + 1, batch)
    ensures !t[rids[i]].isPrivate ==> Scanned(t, rids, i + 1, batch + [rids[i]])
    ensures !t[rids[i]].isPrivate ==> FilesAt(t, batch + [rids[i]]) == FilesAt(t, batch) + [FileAt(t, rids[i])]
  {
    assert rids[..i + 1] == rids[..i] + [rids[i]];
    assert forall k :: 0 <= k < |batch| ==> batch[k] in batch;
    assert forall r: Rid :: r in batch ==> r < rids[i];
  }

  lemma NothingScanned(t: Table, rids: seq<Rid>)
    ensures Scanned(t, rids, 0, []) && FilesAt(t, []) == []
  {
  }

  lemma BatchIsComplete(t: Table, lo: int, hi: Rid, rids: seq<Rid>, i: nat, batch: seq<Rid>, more: bool)
    requires Ascending(rids) && forall r: Rid :: r in rids <==> r in t && t[r].content.Some? && lo < r <= hi
    requires i <= |rids| && Scanned(t, rids, i, batch)
    requires |batch| <= DEFAULT_CLONE_BATCH_SIZE
    requires if more then |batch| == DEFAULT_CLONE_BATCH_SIZE && i < |rids| && !t[rids[i]].isPrivate else i == |rids|
    ensures IsBatch(t, lo, hi, batch, more)
  {
    assert forall k :: 0 <= k < |batch| ==> batch[k] in batch;
    if more {
      var last := batch[|batch| - 1];
      var j :| 0 <= j < i && rids[j] == last;
      assert rids[i] in rids && rids[j] < rids[i];
      assert Public(t, rids[i]);
      forall r: Rid | lo < r <= last && Public(t, r) ensures r in batch {
        var k :| 0 <= k < |rids| && rids[k] == r;
        assert r in rids[..i];
      }
    } else {
      assert rids[..i] == rids;
    }
  }

  /** How a batch extends a response: by the cookie of a fresh session, the files, and the cursor. */
  ghost predicate Extends(t: Table, before: seq<Card>, seqNo: int, snapMax: Rid, resp: seq<Card>, cap: Rid, batch: seq<Rid>, more: bool) {
    && (if snapMax == 0 then IsMaxRid(t, cap) else cap == snapMax)
    && IsBatch(t, seqNo, cap, batch, more) && FilesIn(resp) == FilesIn(before) + FilesAt(t, batch)
    && (forall c :: c in before ==> c in resp)
    && CloneSeqNoCard(if more then batch[|batch| - 1] else 0) in resp
    && (snapMax == 0 ==> CookieCard(CloneCap(cap)) in resp)
    && forall c :: c in resp ==> c in before || c.FileCard? || c == CloneSeqNoCard(if more then batch[|batch| - 1] else 0)
                                 || (snapMax == 0 && c == CookieCard(CloneCap(cap)))
  }

  /** The cookie, the files and the cursor make up the extension. */
  lemma BatchExtends(t: Table, before: seq<Card>, seqNo: int, snapMax: Rid, head: seq<Card>, body: seq<Card>, cap: Rid, batch: seq<Rid>,
                     more: bool, cursor: int)
    requires head == if snapMax == 0 then before + [CookieCard(CloneCap(cap))] else before
    requires if snapMax == 0 then IsMaxRid(t, cap) else cap == snapMax
    requires IsBatch(t, seqNo, cap, batch, more) && FilesIn(body) == FilesIn(head) + FilesAt(t, batch)
    requires (forall c :: c in head ==> c in body) && forall c :: c in body ==> c in head || c.FileCard?
    requires cursor == if more then batch[|batch| - 1] else 0
    ensures Extends(t, before, seqNo, snapMax, body + [CloneSeqNoCard(cursor)], cap, batch, more)
  {
    hide FilesIn, IsBatch, IsMaxRid, CloneCap, FilesAt, AllPublic;
    FilesInGrows(body, CloneSeqNoCard(cursor));
    FilesInGrows(before, CookieCard(CloneCap(cap)));
    assert forall c :: c in body + [CloneSeqNoCard(cursor)] <==> c in body || c == CloneSeqNoCard(cursor);
    assert CloneSeqNoCard(cursor) in body + [CloneSeqNoCard(cursor)];
    assert CookieCard(CloneCap(cap)) in before + [CookieCard(CloneCap(cap))];
  }

  lemma ExtensionSteers(t: Table, before: seq<Card>, seqNo: int, snapMax: Rid, resp: seq<Card>, cap: Rid, batch: seq<Rid>, more: bool)
    requires Extends(t, before, seqNo, snapMax, resp, cap, batch, more) && Uncontrolled(before)
    ensures Steers(t, seqNo, snapMax, resp, cap, batch, more)
    ensures FilesIn(before) == [] ==> AnswersClone(t, seqNo, snapMax, resp, cap, batch, more)
  {
    hide FilesIn, IsBatch, IsMaxRid, CloneCap, FilesAt, AllPublic;
    assert [] + FilesAt(t, batch) == FilesAt(t, batch);
  }

  /** One request against the tables as they stand. */
  class Handler {
    const table: Table
    const serverCode: string
    const projectCode: string
    var resp: seq<Card>
    var pullOK: bool
    var cloneMode: bool
    var cloneSeq: int
    var cloneSnapMax: Rid

    constructor (table: Table, serverCode: string, projectCode: string)
      ensures this.table == table && resp == [] && !pullOK && !cloneMode && cloneSeq == 0 && cloneSnapMax == 0
    {
      this.table, this.serverCode, this.projectCode := table, serverCode, projectCode;
      resp, pullOK, cloneMode, cloneSeq, cloneSnapMax := [], false, false, 0, 0;
    }

    method HandleControlCard(c: Card, ghost before: seq<Card>)
      requires AsksFor(before, cloneSeq, cloneSnapMax)
      modifies this`pullOK, this`cloneMode, this`cloneSeq, this`cloneSnapMax
      ensures AsksFor(before + [c], cloneSeq, cloneSnapMax)
      ensures (cloneMode <==> old(cloneMode) || c.CloneCard?) && (pullOK <==> old(pullOK) || c.PullCard?)
    {
      match c {
        case PullCard => pullOK := true;
        case CloneCard => cloneMode := true;
        case CloneSeqNoCard(seqNo) => cloneSeq := seqNo;
        case CookieCard(value) =>
          var rid := ParseCloneCap(value);
          if rid.Some? {
            cloneSnapMax := rid.value;
          }
        case _ =>
      }
      assert (before + [c])[..|before|] == before;
    }

    /** The whole content of a public artifact, an error for a phantom, and nothing otherwise. */
    method HandleGimme(uuid: Uuid) returns (ghost answer: seq<Card>)
      modifies this`resp
      ensures Uncontrolled(old(resp)) ==> Uncontrolled(resp)
      ensures FilesIn(resp) == old(FilesIn(resp)) + answer
      ensures forall f :: f in answer ==> f.FileCard? && f.uuid == uuid && exists r: Rid :: Public(table, r) && f == FileAt(table, r)
      ensures Offered(table, uuid) ==> answer != []
      ensures resp == old(resp) + answer || (answer == [] && resp == old(resp) + [ErrorCard])
      ensures Missing(table, uuid) ==> resp == old(resp) + [ErrorCard]
      ensures resp == old(resp) + [ErrorCard] ==>
                exists r: Rid :: r in table && table[r].uuid == uuid && table[r].content == None && !table[r].isPrivate
    {
      answer := [];
      assert resp + [] == resp;
      if exists r: Rid :: r in table && table[r].uuid == uuid {
        var r: Rid :| r in table && table[r].uuid == uuid;
        if table[r].isPrivate {
          return;
        }
        if table[r].content == None {
          FilesInGrows(resp, ErrorCard);
          resp := resp + [ErrorCard];
          return;
        }
        answer := [FileAt(table, r)];
        FilesInGrows(resp, FileAt(table, r));
        resp := resp + [FileCard(uuid, "", table[r].content.value)];
      }
    }

    /** Every real public artifact, for a client that has announced none. */
    method EmitIGots()
      modifies this`resp
      ensures FilesIn(resp) == old(FilesIn(resp))
      ensures forall c :: c in resp <==> c in old(resp) || (c.IGotCard? && exists r: Rid :: Public(table, r) && table[r].uuid == c.uuid)
    {
      hide FilesIn;
      ghost var before := resp;
      var all := set r | r in table && table[r].content.Some? && !table[r].isPrivate;
      var left := all;
      while left != {}
        invariant FilesIn(resp) == FilesIn(before) && left <= all
        invariant forall c :: c in resp <==> c in before || (c.IGotCard? && exists r: Rid :: r in all && r !in left && table[r].uuid == c.uuid)
        decreases left
      {
        var r :| r in left;
        left := left - {r};
        FilesInGrows(resp, IGotCard(table[r].uuid));
        assert forall c :: c in resp + [IGotCard(table[r].uuid)] <==> c in resp || c == IGotCard(table[r].uuid);
        resp := resp + [IGotCard(table[r].uuid)];
      }
      assert forall r: Rid :: r in all <==> Public(table, r);
    }

    /** Sends the rows one by one, skipping private ones, until the batch is full. */
    method SendRows(rids: seq<Rid>, lo: int, hi: Rid) returns (lastSentRid: Rid, more: bool, ghost batch: seq<Rid>)
      requires Ascending(rids) && forall r: Rid :: r in rids <==> r in table && table[r].content.Some? && lo < r <= hi
      modifies this`resp
      ensures IsBatch(table, lo, hi, batch, more)
      ensures FilesIn(resp) == old(FilesIn(resp)) + FilesAt(table, batch)
      ensures more ==> lastSentRid == batch[|batch| - 1]
      ensures forall c :: c in old(resp) ==> c in resp
      ensures forall c :: c in resp ==> c in old(resp) || c.FileCard?
    {
      hide FilesIn, IsBatch, Ascending, AllPublic, FilesAt, Scanned;
      batch := [];
      var count, i := 0, 0;
      lastSentRid, more := 0, false;
      NothingScanned(table, rids);
      while i < |rids|
        invariant i <= |rids| && count == |batch| <= DEFAULT_CLONE_BATCH_SIZE && !more
        invariant Scanned(table, rids, i, batch) && FilesIn(resp) == old(FilesIn(resp)) + FilesAt(table, batch)
        invariant batch != [] ==> lastSentRid == batch[|batch| - 1]
        invariant forall c :: c in old(resp) ==> c in resp
        invariant forall c :: c in resp ==> c in old(resp) || c.FileCard?
      {
        var rid := rids[i];
        assert rid in rids;
        ScansNext(table, rids, i, batch);
        if table[rid].isPrivate {
          i := i + 1;
          continue;
        }
        if count >= DEFAULT_CLONE_BATCH_SIZE {
          more := true;
          break;
        }
        FilesInGrows(resp, FileAt(table, rid));
        resp := resp + [FileCard(table[rid].uuid, "", table[rid].content.value)];
        batch := batch + [rid];
        lastSentRid := rid;
        count := count + 1;
        i := i + 1;
      }
      BatchIsComplete(table, lo, hi, rids, i, batch, more);
      assert more ==> |batch| == DEFAULT_CLONE_BATCH_SIZE;
    }

    /** The next batch: the public rows beyond the cursor and within the snapshot, which the first round of a
        session takes and returns as a cookie; then the cursor, or zero when nothing is left. */
    method EmitCloneBatch() returns (ghost batch: seq<Rid>, ghost more: bool)
      modifies this`resp, this`cloneSnapMax
      ensures Extends(table, old(resp), cloneSeq, old(cloneSnapMax), resp, cloneSnapMax, batch, more)
    {
      hide FilesIn, IsBatch, IsMaxRid, Ascending, Extends, CloneCap, FilesAt, AllPublic;
      ghost var before, snapMax := resp, cloneSnapMax;
      if cloneSnapMax == 0 {
        var maxRid := MaxRid(table);
        cloneSnapMax := maxRid;
        resp := resp + [CookieCard(CloneCap(maxRid))];
      }
      ghost var head := resp;
      var rids := SelectRids(table, cloneSeq, cloneSnapMax);
      var lastSentRid, hasMore;
      lastSentRid, hasMore, batch := SendRows(rids, cloneSeq, cloneSnapMax);
      more := hasMore;
      ghost var body := resp;
      var cursor := if hasMore then lastSentRid else 0;
      resp := resp + [CloneSeqNoCard(cursor)];
      BatchExtends(table, before, cloneSeq, snapMax, head, body, cloneSnapMax, batch, more, cursor);
    }

    /** What is asked for by name, card by card. */
    method ProcessDataCards(req: seq<Card>) returns (ghost others: seq<Card>)
      requires Uncontrolled(resp) && FilesIn(resp) == [] && ErrorsTold(table, [], resp)
      requires Announces(table, serverCode, projectCode, cloneMode, false, resp)
      modifies this`resp
      ensures Uncontrolled(resp) && FilesIn(resp) == others && AnswersGimmes(table, req, others) && (NoGimmes(req) ==> others == [])
      ensures ErrorsTold(table, req, resp) && Announces(table, serverCode, projectCode, cloneMode, false, resp)
    {
      hide FilesIn, AnswersGimmes, ErrorsTold, Missing, Offered;
      NothingAsked(table);
      others := [];
      for i := 0 to |req|
        invariant Uncontrolled(resp) && FilesIn(resp) == others && AnswersGimmes(table, req[..i], others)
        invariant NoGimmes(req) ==> others == []
        invariant ErrorsTold(table, req[..i], resp) && Announces(table, serverCode, projectCode, cloneMode, false, resp)
      {
        assert req[..i + 1] == req[..i] + [req[i]];
        ghost var before := resp;
        if req[i].GimmeCard? {
          ghost var answer := HandleGimme(req[i].uuid);
          GimmeAnswered(table, req[..i], others, req[i].uuid, answer);
          AnswerAnnounces(table, serverCode, projectCode, cloneMode, before, answer, resp);
          ErrorsNext(table, req[..i], before, req[i], resp);
          others := others + answer;
        } else {
          OtherAnswered(table, req[..i], others, req[i]);
          ErrorsNext(table, req[..i], before, req[i], resp);
        }
      }
      assert req[..|req|] == req;
    }

    /** One request. What it asks for by name is sent first; a clone request is then answered by a batch. */
    method Process(req: seq<Card>)
      returns (ghost seqNo: int, ghost snapMax: Rid, ghost batch: seq<Rid>, ghost more: bool, ghost others: seq<Card>)
      requires resp == [] && !pullOK && !cloneMode && cloneSeq == 0 && cloneSnapMax == 0
      modifies this
      ensures AsksFor(req, seqNo, snapMax) && AnswersGimmes(table, req, others)
      ensures CloneCard in req ==> Steers(table, seqNo, snapMax, resp, cloneSnapMax, batch, more)
                                   && AllPublic(table, batch) && FilesIn(resp) == others + FilesAt(table, batch)
      ensures CloneCard !in req ==> Uncontrolled(resp) && FilesIn(resp) == others
      ensures NoGimmes(req) && CloneCard in req ==> AnswersClone(table, seqNo, snapMax, resp, cloneSnapMax, batch, more)
      ensures NoGimmes(req) && CloneCard !in req ==> AnswersNothing(resp)
      ensures ErrorsTold(table, req, resp)
      ensures NoneHad(req) ==> Announces(table, serverCode, projectCode, CloneCard in req, PullCard in req, resp)
    {
      hide AsksFor, AnswersClone, FilesIn, AnswersGimmes, Extends, Steers, ErrorsTold, AllPublic, FilesAt, Public;
      NothingAsked(table);
      for i := 0 to |req|
        invariant resp == [] && AsksFor(req[..i], cloneSeq, cloneSnapMax)
        invariant (cloneMode <==> CloneCard in req[..i]) && (pullOK <==> PullCard in req[..i])
      {
        assert req[..i + 1] == req[..i] + [req[i]];
        HandleControlCard(req[i], req[..i]);
      }
      assert req[..|req|] == req;
      seqNo, snapMax, batch, more := cloneSeq, cloneSnapMax, [], false;
      if cloneMode && projectCode != "" {
        FilesInGrows([], PushCard(serverCode, projectCode));
        resp := resp + [PushCard(serverCode, projectCode)];
      }
      SameErrors(table, [], [], resp);
      others := ProcessDataCards(req);
      ghost var told := resp;
      if pullOK {
        EmitIGots();
      }
      SameErrors(table, req, told, resp);
      hide Announces;
      if cloneMode {
        ghost var before := resp;
        batch, more := EmitCloneBatch();
        ExtensionSteers(table, before, seqNo, snapMax, resp, cloneSnapMax, batch, more);
        ExtensionFiles(table, before, seqNo, snapMax, resp, cloneSnapMax, batch, more);
        ExtensionAnnounces(table, serverCode, projectCode, cloneMode, pullOK, before, seqNo, snapMax, resp, cloneSnapMax, batch, more);
        SameErrors(table, req, before, resp);
      }
    }
  }

  lemma AnswerAnnounces(t: Table, serverCode: string, projectCode: string, clone: bool, before: seq<Card>, answer: seq<Card>, resp: seq<Card>)
    requires Announces(t, serverCode, projectCode, clone, false, before) && forall f :: f in answer ==> f.FileCard?
    requires resp == before + answer || (answer == [] && resp == before + [ErrorCard])
    ensures Announces(t, serverCode, projectCode, clone, false, resp)
    ensures (ErrorCard in before ==> ErrorCard in resp) && (ErrorCard in resp && ErrorCard !in before ==> resp == before + [ErrorCard])
  {
  }

  lemma ExtensionFiles(t: Table, before: seq<Card>, seqNo: int, snapMax: Rid, resp: seq<Card>, cap: Rid, batch: seq<Rid>, more: bool)
    requires Extends(t, before, seqNo, snapMax, resp, cap, batch, more)
    ensures AllPublic(t, batch) && FilesIn(resp) == FilesIn(before) + FilesAt(t, batch)
  {
  }

  lemma SameErrors(t: Table, req: seq<Card>, resp: seq<Card>, resp': seq<Card>)
    requires ErrorsTold(t, req, resp) && (ErrorCard in resp' <==> ErrorCard in resp)
    ensures ErrorsTold(t, req, resp')
  {
  }

  lemma ExtensionAnnounces(t: Table, serverCode: string, projectCode: string, clone: bool, pull: bool, before: seq<Card>, seqNo: int,
                           snapMax: Rid, resp: seq<Card>, cap: Rid, batch: seq<Rid>, more: bool)
    requires Extends(t, before, seqNo, snapMax, resp, cap, batch, more) && Announces(t, serverCode, projectCode, clone, pull, before)
    ensures Announces(t, serverCode, projectCode, clone, pull, resp) && (ErrorCard in resp <==> ErrorCard in before)
  {
    hide FilesIn, IsBatch, IsMaxRid, CloneCap, FilesAt, AllPublic, Public;
  }

  lemma NothingAsked(t: Table)
    ensures ErrorsTold(t, [], []) && AsksFor([], 0, 0) && FilesIn([]) == [] && AnswersGimmes(t, [], [])
  {
  }

  /** The client announces nothing of its own, as a clone never does. */
  ghost predicate NoneHad(req: seq<Card>) {
    forall c :: c in req ==> !c.IGotCard? && !c.FileCard?
  }

  ghost predicate NoGimmes(req: seq<Card>) {
    forall c :: c in req ==> !c.GimmeCard?
  }
}
