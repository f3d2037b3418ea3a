/** The clone loop against a server that others keep writing to (internal/sync/clone.go: `run`). */
module CloneLoop {
  import opened Bytes
  import opened Decimal
  import opened SyncStore
  import opened CloneServer
  import opened CloneClient
  import SyncClient
  import SyncLoop

  const MAX_ROUNDS: nat := SyncClient.MAX_ROUNDS

  // ----- a server while others write to it -----

  /** Contents bear their names, the manifest parser panics on none, and no name occurs twice. */
  ghost predicate Sound(t: Table, h: Contents) {
    && (forall r: Rid :: r in t && t[r].content.Some? ==>
          h.valid(t[r].uuid) && h.of(t[r].uuid, t[r].content.value) == t[r].uuid && !h.panics(t[r].content.value))
    && forall r, q: Rid :: r in t && q in t && t[r].uuid == t[q].uuid ==> r == q
  }

  /** What writers do between two rounds: new rows get rids beyond all others, a phantom may be filled, and a
      real row stays as it is. */
  ghost predicate Grows(a: Table, b: Table) {
    && (forall r: Rid :: r in a ==> r in b && b[r].uuid == a[r].uuid && (a[r].content.Some? ==> b[r] == a[r]))
    && forall r, q: Rid :: r in b && r !in a && q in a ==> q < r
  }

  /** The tables that the rounds of a session meet. */
  ghost predicate Hub(tables: seq<Table>, h: Contents) {
    && |tables| == MAX_ROUNDS
    && (forall i :: 0 <= i < |tables| ==> Sound(tables[i], h))
    && forall i, j :: 0 <= i && j == i + 1 < |tables| ==> Grows(tables[i], tables[j])
  }

  lemma {:induction false} GrowsThroughout(tables: seq<Table>, h: Contents, i: nat, j: nat)
    requires Hub(tables, h) && i <= j < |tables|
    ensures Grows(tables[i], tables[j])
    decreases j - i
  {
    if i < j {
      GrowsThroughout(tables, h, i, j - 1);
      var k := j - 1;
      assert Grows(tables[k], tables[j]);
    }
  }

  lemma GrowthKeepsPublic(a: Table, b: Table, rids: seq<Rid>)
    requires Grows(a, b) && AllPublic(a, rids)
    ensures AllPublic(b, rids) && FilesAt(b, rids) == FilesAt(a, rids)
  {
    assert forall i :: 0 <= i < |rids| ==> Public(a, rids[i]);
  }

  lemma GrowthIsPublic(a: Table, b: Table)
    requires Grows(a, b)
    ensures forall r: Rid :: Public(a, r) ==> Public(b, r)
  {
  }

  // ----- how far a clone has come -----

  /** All public rows of the opening table up to a rid have come. */
  ghost predicate Covered(t: Table, upTo: int, got: seq<Rid>) {
    forall r: Rid :: r <= upTo && Public(t, r) ==> r in got
  }

  ghost predicate Within(got: seq<Rid>, cap: Rid) {
    forall i :: 0 <= i < |got| ==> got[i] <= cap
  }

  /** The session after some rounds of a clone: either all has come, or whole batches have and more is to come. */
  ghost predicate Progress(opening: Table, now: Table, rounds: nat, cap: Rid, got: seq<Rid>, seqno: int, cookie: string) {
    && IsMaxRid(opening, cap) && cap <= MAX_INT64 && cookie == CloneCap(cap)
    && Ascending(got) && AllPublic(now, got) && Within(got, cap)
    && if seqno == 0 then
         && Covered(opening, cap, got)
         && |got| <= DEFAULT_CLONE_BATCH_SIZE * rounds
         && (rounds > 1 ==> |got| > DEFAULT_CLONE_BATCH_SIZE * (rounds - 1))
       else
         && got != [] && seqno == got[|got| - 1] && |got| == DEFAULT_CLONE_BATCH_SIZE * rounds
         && Covered(opening, seqno, got) && exists r: Rid :: seqno < r <= cap && Public(now, r)
  }

  lemma ProgressGrows(opening: Table, a: Table, b: Table, rounds: nat, cap: Rid, got: seq<Rid>, seqno: int, cookie: string)
    requires Grows(a, b) && Progress(opening, a, rounds, cap, got, seqno, cookie)
    ensures Progress(opening, b, rounds, cap, got, seqno, cookie)
  {
    GrowthKeepsPublic(a, b, got);
    assert forall r: Rid :: Public(a, r) ==> Public(b, r);
  }

  /** The first batch. */
  lemma FirstBatch(t: Table, resp: seq<Card>, cap: Rid, batch: seq<Rid>, more: bool, seqno: int, cookie: string)
    requires AnswersClone(t, 0, 0, resp, cap, batch, more) && Carries(resp, 1, seqno, "", cookie)
    ensures Progress(t, t, 1, cap, batch, seqno, cookie)
  {
    assert forall i :: 0 <= i < |batch| ==> Public(t, batch[i]);
  }

  /** Every further batch. */
  lemma NextBatch(opening: Table, now: Table, rounds: nat, cap: Rid, got: seq<Rid>, seqno: int, cookie: string,
                  resp: seq<Card>, cap': Rid, batch: seq<Rid>, more: bool, seqno': int, cookie': string)
    requires Grows(opening, now) && rounds > 0 && seqno != 0
    requires Progress(opening, now, rounds, cap, got, seqno, cookie)
    requires AnswersClone(now, seqno, cap, resp, cap', batch, more) && Carries(resp, seqno, seqno', cookie, cookie')
    ensures AllPublic(now, got + batch) && FilesAt(now, got + batch) == FilesAt(now, got) + FilesAt(now, batch)
    ensures Progress(opening, now, rounds + 1, cap, got + batch, seqno', cookie') && batch != []
  {
    hide FilesIn, FilesAt, CloneCap, Public, IsMaxRid;
    FilesAtConcat(now, got, batch);
    assert forall r: Rid :: Public(opening, r) ==> Public(now, r) by { GrowthIsPublic(opening, now); }
  }

  lemma FilesAtConcat(t: Table, a: seq<Rid>, b: seq<Rid>)
    requires AllPublic(t, a) && AllPublic(t, b)
    ensures AllPublic(t, a + b) && FilesAt(t, a + b) == FilesAt(t, a) + FilesAt(t, b)
  {
    hide Public;
  }

  /** What the server reads off the requests of a session. */
  lemma SessionAsks(req: seq<Card>, seqno: int, cap: Rid, seqNo: int, snapMax: Rid)
    requires AsksFor(req, seqNo, snapMax) && 0 < cap <= MAX_INT64 && seqno != 0
    requires CloneSeqNoCard(seqno) in req && forall c :: c in req && c.CloneSeqNoCard? ==> c.seqNo == seqno
    requires CookieCard(CloneCap(cap)) in req && forall c :: c in req && c.CookieCard? ==> c.value == CloneCap(cap)
    ensures seqNo == seqno && snapMax == cap
  {
    CapRoundTrip(cap);
    AskedInRequest(req);
  }

  lemma {:induction false} WithFilesConcat(blob: map<Uuid, Option<Slice>>, a: seq<Card>, b: seq<Card>)
    requires (forall f :: f in a ==> f.FileCard?) && forall f :: f in b ==> f.FileCard?
    ensures forall f :: f in a + b ==> f.FileCard?
    ensures WithFiles(blob, a + b) == WithFiles(WithFiles(blob, a), b)
    decreases b
  {
    if b == [] {
      assert a + b == a;
    } else {
      var init, f := b[..|b| - 1], b[|b| - 1];
      assert b == init + [f] && a + b == (a + init) + [f];
      WithFilesConcat(blob, a, init);
      WithFilesUnfolds(blob, a + init, f);
      WithFilesUnfolds(WithFiles(blob, a), init, f);
    }
  }

  /** A store that holds exactly the contents of some rows. */
  ghost predicate Holds(blob: map<Uuid, Option<Slice>>, t: Table, rids: seq<Rid>)
    requires AllPublic(t, rids)
  {
    && (forall i :: 0 <= i < |rids| ==> t[rids[i]].uuid in blob && blob[t[rids[i]].uuid] == t[rids[i]].content)
    && forall u :: u in blob ==> exists i :: 0 <= i < |rids| && t[rids[i]].uuid == u
  }

  lemma {:induction false} FilesFillAStore(t: Table, h: Contents, rids: seq<Rid>)
    requires Sound(t, h) && Ascending(rids) && AllPublic(t, rids)
    ensures Holds(WithFiles(map[], FilesAt(t, rids)), t, rids)
  {
    hide Holds;
    if rids == [] {
      HoldsNothing(t);
      assert rids == [];
    } else {
      var init, r := rids[..|rids| - 1], rids[|rids| - 1];
      FilesFillAStore(t, h, init);
      assert Public(t, r);
      assert FilesAt(t, rids) == FilesAt(t, init) + [FileAt(t, r)];
      WithFilesUnfolds(map[], FilesAt(t, init), FileAt(t, r));
      HoldsOneMore(t, h, init, r, WithFiles(map[], FilesAt(t, init)));
      assert rids == init + [r];
    }
  }

  lemma HoldsNothing(t: Table)
    ensures Holds(map[], t, [])
  {
  }

  lemma HoldsOneMore(t: Table, h: Contents, rids: seq<Rid>, r: Rid, blob: map<Uuid, Option<Slice>>)
    requires Sound(t, h) && AllPublic(t, rids) && Public(t, r) && Holds(blob, t, rids) && r !in rids
    ensures AllPublic(t, rids + [r]) && Holds(WithFiles(blob, [FileAt(t, r)]), t, rids + [r])
  {
    WithFilesUnfolds(blob, [], FileAt(t, r));
    assert forall i :: 0 <= i < |rids| ==> Public(t, rids[i]) && rids[i] in rids;
    var more := rids + [r];
    assert more[|rids|] == r;
    assert forall i :: 0 <= i < |rids| ==> more[i] == rids[i];
    assert t[r].uuid !in blob;
  }

  // ----- counting -----

  ghost function PublicRows(t: Table): set<Rid> { set r | r in t && Public(t, r) }

  ghost function SetOf(rids: seq<Rid>): set<Rid> { set r: Rid | r in rids }

  lemma AscendingSplit(rids: seq<Rid>)
    requires Ascending(rids) && rids != []
    ensures Ascending(rids[..|rids| - 1]) && rids[|rids| - 1] !in rids[..|rids| - 1]
  {
  }

  lemma {:induction false} AscendingCount(rids: seq<Rid>)
    requires Ascending(rids)
    ensures |SetOf(rids)| == |rids|
  {
    hide Ascending;
    if rids != [] {
      var init, r := rids[..|rids| - 1], rids[|rids| - 1];
      AscendingSplit(rids);
      AscendingCount(init);
      assert rids == init + [r];
      assert SetOf(rids) == SetOf(init) + {r};
    }
  }

  /** Rounds of a clone of so many artifacts: full batches, and one more to see that nothing is left. */
  function RoundsFor(k: nat): nat { (if k == 0 then 1 else (k + DEFAULT_CLONE_BATCH_SIZE - 1) / DEFAULT_CLONE_BATCH_SIZE) + 1 }

  /** No phantom of the opening table has been filled by the end. */
  ghost predicate NoFills(tables: seq<Table>)
    requires |tables| == MAX_ROUNDS
  {
    forall r: Rid :: r in tables[0] && r in tables[MAX_ROUNDS - 1] ==> tables[MAX_ROUNDS - 1][r] == tables[0][r]
  }

  datatype Outcome = Cloned | TooManyRounds

  /** What a clone brings: rows of the opening table, in rid order and each once, all the public ones if it
      succeeds. */
  ghost predicate Delivers(tables: seq<Table>, got: seq<Rid>, outcome: Outcome)
    requires |tables| == MAX_ROUNDS
  {
    && Ascending(got) && AllPublic(tables[MAX_ROUNDS - 1], got)
    && (forall r :: r in got ==> r in tables[0])
    && (outcome == Cloned ==> forall r: Rid :: Public(tables[0], r) ==> r in got)
  }

  lemma ProgressDelivers(tables: seq<Table>, h: Contents, cycle: nat, rounds: nat, cap: Rid, got: seq<Rid>, seqno: int, cookie: string)
    requires Hub(tables, h) && cycle < MAX_ROUNDS && Progress(tables[0], tables[cycle], rounds, cap, got, seqno, cookie)
    ensures Delivers(tables, got, if seqno == 0 then Cloned else TooManyRounds)
    ensures FilesAt(tables[cycle], got) == FilesAt(tables[MAX_ROUNDS - 1], got)
  {
    GrowsThroughout(tables, h, 0, cycle);
    GrowsThroughout(tables, h, cycle, MAX_ROUNDS - 1);
    GrowthKeepsPublic(tables[cycle], tables[MAX_ROUNDS - 1], got);
    forall r | r in got ensures r in tables[0] {
      var i :| 0 <= i < |got| && got[i] == r;
      assert Public(tables[cycle], got[i]) && r <= cap;
    }
  }

  lemma CountOfDelivery(tables: seq<Table>, h: Contents, got: seq<Rid>, outcome: Outcome)
    requires Hub(tables, h) && Delivers(tables, got, outcome) && NoFills(tables)
    ensures |got| <= |PublicRows(tables[0])|
    ensures outcome == Cloned ==> |got| == |PublicRows(tables[0])|
  {
    var rows := SetOf(got);
    AscendingCount(got);
    forall r | r in rows ensures r in PublicRows(tables[0]) {
      var i :| 0 <= i < |got| && got[i] == r;
      assert Public(tables[MAX_ROUNDS - 1], got[i]);
    }
    SyncLoop.Subset(rows, PublicRows(tables[0]));
    if outcome == Cloned {
      assert rows == PublicRows(tables[0]);
    }
  }

  /** Session and store before a round: nothing yet, or the files of whole batches. */
  ghost predicate Position(tables: seq<Table>, cycle: nat, cap: Rid, got: seq<Rid>, seqno: int, cookie: string, blob: map<Uuid, Option<Slice>>)
    requires cycle <= |tables|
  {
    if cycle == 0 then got == [] && seqno == 1 && cookie == "" && blob == map[]
    else
      && Progress(tables[0], tables[cycle - 1], cycle, cap, got, seqno, cookie)
      && blob == WithFiles(map[], FilesAt(tables[cycle - 1], got))
  }

  /** A clone round takes the position to the next. */
  lemma CloneRound(tables: seq<Table>, h: Contents, cycle: nat, cap: Rid, got: seq<Rid>, seqno: int, cookie: string, blob: map<Uuid, Option<Slice>>,
                   req: seq<Card>, seqNo: int, snapMax: Rid, resp: seq<Card>, cap': Rid, batch: seq<Rid>, more: bool,
                   seqno': int, cookie': string)
    requires Hub(tables, h) && cycle < |tables| && Position(tables, cycle, cap, got, seqno, cookie, blob) && seqno > 0
    requires Requests(req, cycle, seqno, cookie) && AsksFor(req, seqNo, snapMax)
    requires AnswersClone(tables[cycle], seqNo, snapMax, resp, cap', batch, more)
    requires Carries(resp, seqno, seqno', cookie, cookie')
    ensures |FilesIn(resp)| == |batch| && (cycle > 0 ==> batch != [])
    ensures Position(tables, cycle + 1, if cycle == 0 then cap' else cap, got + batch, seqno', cookie', WithFiles(blob, FilesIn(resp)))
  {
    hide Hub, Progress, Carries, Requests, AsksFor, IsBatch, GoodFiles, WithFiles, FilesIn, FilesAt, Grows, Sound;
    var now := tables[cycle];
    if cycle == 0 {
      FirstAsks(req, seqno, cookie, seqNo, snapMax);
      FirstBatch(now, resp, cap', batch, more, seqno', cookie');
      assert [] + batch == batch;
    } else {
      LaterAsks(tables, cycle, cap, got, seqno, cookie, req, seqNo, snapMax);
      GrowsThroughout(tables, h, 0, cycle);
      GrowsThroughout(tables, h, cycle - 1, cycle);
      ProgressGrows(tables[0], tables[cycle - 1], now, cycle, cap, got, seqno, cookie);
      ProgressIsPublic(tables[0], tables[cycle - 1], cycle, cap, got, seqno, cookie);
      GrowthKeepsPublic(tables[cycle - 1], now, got);
      NextBatch(tables[0], now, cycle, cap, got, seqno, cookie, resp, cap', batch, more, seqno', cookie');
      WithFilesConcat(map[], FilesAt(now, got), FilesAt(now, batch));
    }
  }

  lemma AnswerIsGood(tables: seq<Table>, h: Contents, cycle: nat, seqNo: int, snapMax: Rid, resp: seq<Card>, cap: Rid, batch: seq<Rid>, more: bool)
    requires Hub(tables, h) && cycle < |tables| && AnswersClone(tables[cycle], seqNo, snapMax, resp, cap, batch, more)
    ensures GoodFiles(FilesIn(resp), h)
  {
  }

  lemma ProgressIsPublic(opening: Table, now: Table, rounds: nat, cap: Rid, got: seq<Rid>, seqno: int, cookie: string)
    requires Progress(opening, now, rounds, cap, got, seqno, cookie)
    ensures AllPublic(now, got) && Ascending(got) && seqno >= 0
  {
    if seqno != 0 { assert Public(now, got[|got| - 1]); }
  }

  /** The cards of a request that steer the server. */
  ghost predicate Requests(req: seq<Card>, cycle: nat, seqno: int, cookie: string) {
    && (CloneCard in req <==> seqno > 0)
    && (CloneSeqNoCard(seqno) in req <==> seqno > 0 && cycle > 0)
    && (forall c :: c in req && c.CloneSeqNoCard? ==> c.seqNo == seqno)
    && (CookieCard(cookie) in req <==> cookie != "")
    && (forall c :: c in req && c.CookieCard? ==> c.value == cookie)
  }

  lemma FirstAsks(req: seq<Card>, seqno: int, cookie: string, seqNo: int, snapMax: Rid)
    requires Requests(req, 0, seqno, cookie) && AsksFor(req, seqNo, snapMax) && cookie == ""
    ensures seqNo == 0 && snapMax == 0
  {
    AskedInRequest(req);
  }

  lemma LaterAsks(tables: seq<Table>, cycle: nat, cap: Rid, got: seq<Rid>, seqno: int, cookie: string, req: seq<Card>, seqNo: int, snapMax: Rid)
    requires 0 < cycle <= |tables| && Progress(tables[0], tables[cycle - 1], cycle, cap, got, seqno, cookie) && seqno > 0
    requires Requests(req, cycle, seqno, cookie) && AsksFor(req, seqNo, snapMax)
    ensures seqNo == seqno && snapMax == cap
  {
    SessionAsks(req, seqno, cap, seqNo, snapMax);
  }

  /** One exchange of the session: a clone round, or, once the cursor is back at zero, a round without files. */
  method Exchange(s: CloneSession, tables: seq<Table>, cycle: nat, ghost cap: Rid, ghost got: seq<Rid>, serverCode: string, projectCode: string)
    returns (ok: bool, done: bool, ghost cap': Rid, ghost batch: seq<Rid>)
    requires s.repo.Valid() && s.phantoms == {} && Hub(tables, s.repo.contents) && cycle < |tables|
    requires Position(tables, cycle, cap, got, s.seqno, s.cookie, s.repo.blob)
    modifies s, s.repo
    ensures s.repo.Valid() && s.phantoms == {} && ok
    ensures s.blobsRecvd == old(s.blobsRecvd) + |batch| && (done <==> batch == [])
    ensures old(s.seqno) != 0 ==> Position(tables, cycle + 1, cap', got + batch, s.seqno, s.cookie, s.repo.blob)
    ensures old(s.seqno) == 0 ==> Position(tables, cycle, cap, got, s.seqno, s.cookie, s.repo.blob)
    ensures old(s.seqno) == 0 ==> s.seqno == 0 && done && cycle > 0
    ensures old(s.seqno) != 0 && cycle > 0 ==> !done
  {
    hide Hub, Position, Carries, AsksFor, AnswersClone, GoodFiles, WithFiles, FilesIn;
    ghost var seqno, cookie, blob := s.seqno, s.cookie, s.repo.blob;
    SeqnoIsNatural(tables, cycle, cap, got, seqno, cookie, blob);
    var req := s.BuildRequest(cycle);
    assert Requests(req, cycle, seqno, cookie);
    var handler := new Handler(tables[cycle], serverCode, projectCode);
    ghost var seqNo, snapMax, more;
    ghost var others;
    seqNo, snapMax, batch, more, others := handler.Process(req);
    cap' := if cycle == 0 then handler.cloneSnapMax else cap;
    ok, done := s.ProcessResponse(handler.resp);
    if seqno > 0 {
      AnswerIsGood(tables, s.repo.contents, cycle, seqNo, snapMax, handler.resp, handler.cloneSnapMax, batch, more);
      CloneRound(tables, s.repo.contents, cycle, cap, got, seqno, cookie, blob, req, seqNo, snapMax, handler.resp,
                 handler.cloneSnapMax, batch, more, s.seqno, s.cookie);
    } else {
      batch := [];
      NothingCarried(handler.resp, seqno, s.seqno, cookie, s.cookie, blob, s.repo.contents);
    }
  }

  lemma SeqnoIsNatural(tables: seq<Table>, cycle: nat, cap: Rid, got: seq<Rid>, seqno: int, cookie: string, blob: map<Uuid, Option<Slice>>)
    requires cycle <= |tables| && Position(tables, cycle, cap, got, seqno, cookie, blob)
    ensures seqno >= 0 && (cycle == 0 ==> seqno != 0)
  {
    if cycle > 0 { ProgressIsPublic(tables[0], tables[cycle - 1], cycle, cap, got, seqno, cookie); }
  }

  lemma NothingCarried(resp: seq<Card>, seqno: int, seqno': int, cookie: string, cookie': string, blob: map<Uuid, Option<Slice>>, h: Contents)
    requires AnswersNothing(resp)
    ensures FilesIn(resp) == [] && GoodFiles(FilesIn(resp), h) && WithFiles(blob, FilesIn(resp)) == blob
    ensures Carries(resp, seqno, seqno', cookie, cookie') ==> seqno' == seqno && cookie' == cookie
  {
  }

  lemma RoundsOf(tables: seq<Table>, cycle: nat, cap: Rid, got: seq<Rid>, seqno: int, cookie: string, blob: map<Uuid, Option<Slice>>)
    requires 0 < cycle <= |tables| && Position(tables, cycle, cap, got, seqno, cookie, blob)
    ensures seqno == 0 ==> RoundsFor(|got|) == cycle + 1
    ensures seqno != 0 ==> RoundsFor(|got|) == cycle + 1
  {
  }

  /** The clone loop. Whatever others write between the rounds, it brings every public artifact that the opening
      table has, each once and in rid order, and nothing that came later; without filled phantoms it succeeds
      exactly when there are at most 19,800 of them. */
  method Clone(tables: seq<Table>, contents: Contents, serverCode: string, projectCode: string)
    returns (repo: Repo, outcome: Outcome, rounds: nat, recvd: nat, ghost got: seq<Rid>)
    requires |tables| == MAX_ROUNDS && Hub(tables, contents)
    ensures Delivers(tables, got, outcome)
    ensures repo.Valid() && Holds(repo.blob, tables[MAX_ROUNDS - 1], got) && recvd == |got|
    ensures outcome == Cloned ==> rounds == RoundsFor(|got|) <= MAX_ROUNDS
    ensures outcome != Cloned ==> RoundsFor(|got|) > MAX_ROUNDS
    ensures NoFills(tables) ==> (outcome == Cloned <==> |PublicRows(tables[0])| <= 19_800)
    ensures NoFills(tables) && outcome == Cloned ==> rounds == RoundsFor(|PublicRows(tables[0])|)
  {
    hide Hub, Position, Delivers, Holds, NoFills;
    repo := new Repo(contents);
    var s := new CloneSession(repo);
    var cycle := 0;
    got := [];
    rounds := 0;
    ghost var cap: Rid := 0;
    StartsEmpty(tables);
    while true
      invariant repo.Valid() && s.repo == repo && repo.contents == contents && fresh(s) && fresh(repo)
      invariant s.phantoms == {} && s.blobsRecvd == |got| && cycle <= MAX_ROUNDS
      invariant Position(tables, cycle, cap, got, s.seqno, s.cookie, repo.blob)
      decreases MAX_ROUNDS - cycle
    {
      if cycle >= MAX_ROUNDS {
        outcome := TooManyRounds;
        break;
      }
      ghost var seqno := s.seqno;
      var ok, done;
      ghost var cap', batch;
      ok, done, cap', batch := Exchange(s, tables, cycle, cap, got, serverCode, projectCode);
      if !ok {
        assert false; // every content bears its name
      }
      rounds := cycle + 1;
      if seqno != 0 {
        got, cap := got + batch, cap';
      }
      if cycle >= 1 && done {
        if s.seqno > 0 || s.phantoms != {} {
          assert false; // every file came whole, so that no phantom waits for its source
        }
        outcome := Cloned;
        break;
      }
      cycle := cycle + 1;
    }
    recvd := s.blobsRecvd;
    RoundsOf(tables, cycle, cap, got, s.seqno, s.cookie, repo.blob);
    PositionDelivers(tables, contents, cycle, cap, got, s.seqno, s.cookie, repo.blob, outcome);
    if NoFills(tables) {
      CountOfDelivery(tables, contents, got, outcome);
    }
  }

  lemma StartsEmpty(tables: seq<Table>)
    ensures Position(tables, 0, 0, [], 1, "", map[])
  {
  }

  lemma PositionDelivers(tables: seq<Table>, h: Contents, cycle: nat, cap: Rid, got: seq<Rid>, seqno: int, cookie: string,
                         blob: map<Uuid, Option<Slice>>, outcome: Outcome)
    requires Hub(tables, h) && 0 < cycle <= MAX_ROUNDS && Position(tables, cycle, cap, got, seqno, cookie, blob)
    requires outcome == Cloned ==> seqno == 0
    ensures Delivers(tables, got, outcome) && Holds(blob, tables[MAX_ROUNDS - 1], got)
  {
    hide Holds, WithFiles, FilesAt, Sound, Grows;
    ProgressIsPublic(tables[0], tables[cycle - 1], cycle, cap, got, seqno, cookie);
    ProgressDelivers(tables, h, cycle - 1, cycle, cap, got, seqno, cookie);
    FilesFillAStore(tables[MAX_ROUNDS - 1], h, got);
  }
}
