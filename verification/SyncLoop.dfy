/** The sync round loop (internal/sync/session.go: `Sync`), client and server together. */
module SyncLoop {
  import opened SyncStore
  import opened SyncServer
  import opened SyncClient

  /** What still has to travel. */
  ghost function Missing(o: Opts, client: set<Uuid>, server: set<Uuid>): set<Uuid> {
    (if o.push then client - server else {}) + (if o.pull then server - client else {})
  }

  /** What client and server know of each other between two rounds. */
  ghost predicate Linked(o: Opts, v: View, server: set<Uuid>, unsent: set<Uuid>) {
    && v.keys == v.has
    && v.unclustered <= v.has && v.has - v.unclustered <= server
    && v.remoteHas <= server
    && v.phantoms <= server - v.has && v.pendingSend <= v.has - server
    && (!o.pull ==> v.phantoms == {} && v.remoteHas == {})
    && unsent <= v.unclustered && unsent !! v.remoteHas
  }

  /** Twice the distance, plus one when nothing is under way: then the next round only finds out. */
  ghost function Measure(o: Opts, v: View, server: set<Uuid>): nat {
    2 * |Missing(o, v.has, server)| + if v.phantoms == {} && v.pendingSend == {} then 1 else 0
  }

  /** A pull without push can only end when the client has nothing of its own. */
  ghost predicate Hopeful(o: Opts, client: set<Uuid>, server: set<Uuid>) {
    o.push || client <= server
  }

  /** The cards of one round: the request drawn up from the view, the answer to it, and the view after it. */
  ghost predicate Round(o: Opts, v: View, server: set<Uuid>, req: seq<Card>, resp: seq<Card>, v': View, server': set<Uuid>) {
    && (PushCard in req <==> o.push) && (PullCard in req <==> o.pull)
    && Announced(req) == v.unclustered * v.has - v.remoteHas
    && Carried(req) <= v.pendingSend
    && (!o.push ==> Carried(req) == {}) && (o.push && v.pendingSend != {} ==> Carried(req) != {})
    && Requested(req) <= v.phantoms
    && (o.pull && v.phantoms != {} ==> Requested(req) != {})
    && Answered(req, resp, server, server')
    && var after := After(v.(pendingSend := v.pendingSend - Carried(req)), o.pull, resp);
       v' == after.(phantoms := v'.phantoms) && v'.phantoms <= after.phantoms && (v.phantoms == {} ==> v'.phantoms == after.phantoms)
  }

  /** The round was quiet: nothing came, nothing was asked for, nothing is under way. */
  ghost predicate Quiet(resp: seq<Card>, v': View) {
    Carried(resp) == {} && Requested(resp) == {} && v'.phantoms == {} && v'.pendingSend == {}
  }

  lemma RoundKeepsLink(o: Opts, v: View, server: set<Uuid>, unsent: set<Uuid>, req: seq<Card>, resp: seq<Card>, v': View, server': set<Uuid>)
    requires (o.push || o.pull) && Linked(o, v, server, unsent) && Round(o, v, server, req, resp, v', server')
    ensures Linked(o, v', server', unsent)
    ensures v.has <= v'.has <= v.has + (if o.pull then server else {})
    ensures NewIsUnclustered(v.has, v.unclustered, v'.has, v'.unclustered)
    ensures server <= server' <= server + (if o.push then v.has else {})
  {
  }

  /** A quiet round means that the stores agree, in every direction that was asked for. */
  lemma QuietMeansEqual(o: Opts, v: View, server: set<Uuid>, unsent: set<Uuid>, req: seq<Card>, resp: seq<Card>, v': View, server': set<Uuid>)
    requires (o.push || o.pull) && Linked(o, v, server, unsent) && Round(o, v, server, req, resp, v', server')
    requires Quiet(resp, v')
    ensures v'.has <= server' && (o.pull ==> server' <= v'.has)
    ensures unsent != {} ==> Announced(req) != {}
  {
    assert Requested(req) <= server';
    assert Requested(req) == Carried(resp);
    forall u | u in v.has ensures u in server' {
      if u in Announced(req) { assert u !in Requested(resp); }
    }
  }

  lemma Subset<T>(a: set<T>, b: set<T>)
    requires a <= b
    ensures |a| <= |b| && (a != b ==> |a| < |b|)
  {
    var c := b - a;
    assert b == a + c && a !! c;
    assert |b| == |a| + |c|;
    assert a != b ==> c != {};
  }

  lemma MissingShrinks(o: Opts, v: View, server: set<Uuid>, unsent: set<Uuid>, req: seq<Card>, resp: seq<Card>, v': View, server': set<Uuid>)
    requires (o.push || o.pull) && Linked(o, v, server, unsent) && Round(o, v, server, req, resp, v', server')
    ensures Missing(o, v'.has, server') <= Missing(o, v.has, server) - Carried(req) - Requested(req)
    ensures Hopeful(o, v.has, server) ==> Hopeful(o, v'.has, server')
  {
    hide Announced, Requested, Carried;
  }

  /** When something is under way, some of it arrives. */
  lemma SomethingArrives(o: Opts, v: View, server: set<Uuid>, unsent: set<Uuid>, req: seq<Card>, resp: seq<Card>, v': View, server': set<Uuid>)
    requires (o.push || o.pull) && Linked(o, v, server, unsent) && Round(o, v, server, req, resp, v', server')
    requires Hopeful(o, v.has, server) && (v.phantoms != {} || v.pendingSend != {})
    ensures |Missing(o, v'.has, server')| < |Missing(o, v.has, server)|
  {
    hide Announced, Requested, Carried;
    MissingShrinks(o, v, server, unsent, req, resp, v', server');
    var before, after := Missing(o, v.has, server), Missing(o, v'.has, server');
    var u :| u in Carried(req) + Requested(req);
    assert u in before && u !in after;
    Subset(after, before);
  }

  /** When nothing is under way, the round finds out what is missing. */
  lemma MissingIsDiscovered(o: Opts, v: View, server: set<Uuid>, unsent: set<Uuid>, req: seq<Card>, resp: seq<Card>, v': View, server': set<Uuid>)
    requires (o.push || o.pull) && Linked(o, v, server, unsent) && Round(o, v, server, req, resp, v', server')
    requires v.phantoms == {} && v.pendingSend == {}
    ensures v'.has == v.has && server' == server
    ensures Carried(resp) == {} && v'.pendingSend == Requested(resp)
  {
    hide Announced, Requested, Carried;
  }

  /** Every round that is not quiet brings the stores closer. */
  lemma OtherRoundsProgress(o: Opts, v: View, server: set<Uuid>, unsent: set<Uuid>, req: seq<Card>, resp: seq<Card>, v': View, server': set<Uuid>)
    requires (o.push || o.pull) && Linked(o, v, server, unsent) && Round(o, v, server, req, resp, v', server')
    requires Hopeful(o, v.has, server) && !Quiet(resp, v')
    ensures Hopeful(o, v'.has, server') && Measure(o, v', server') < Measure(o, v, server)
  {
    hide Round, Linked, Missing, Hopeful, Announced, Requested, Carried;
    MissingShrinks(o, v, server, unsent, req, resp, v', server');
    if v.phantoms == {} && v.pendingSend == {} {
      MissingIsDiscovered(o, v, server, unsent, req, resp, v', server');
    } else {
      SomethingArrives(o, v, server, unsent, req, resp, v', server');
    }
  }

  /** The session's opening position. */
  ghost predicate Opening(client: Repo, server: Repo)
    reads client, server
  {
    && client.Valid() && server.Valid() && client.contents == server.contents
    && client.phantom == {} && server.phantom == {} && client.Harmless() && server.Harmless()
    && client.Has() - client.unclustered <= server.Has()
    && client.unsent <= client.unclustered
  }

  /** One exchange: request, answer, response. */
  method Exchange(s: Session, server: Repo) returns (done: bool, ghost req: seq<Card>, ghost resp: seq<Card>)
    requires s.repo.Valid() && server.Valid() && s.repo != server && s.repo.contents == server.contents
    requires s.maxSend > 0 && s.phantomAge.Keys <= s.phantoms && server.phantom == {}
    requires s.repo.Harmless() && server.Harmless()
    requires Linked(s.opts, s.Now(), server.Has(), s.repo.unsent)
    modifies s, s.repo, server
    ensures s.repo.Valid() && server.Valid() && s.repo.Kept() && server.Kept()
    ensures s.maxSend > 0 && s.phantomAge.Keys <= s.phantoms && server.phantom == {}
    ensures s.repo.Harmless() && server.Harmless()
    ensures Round(s.opts, old(s.Now()), old(server.Has()), req, resp, s.Now(), server.Has())
    ensures s.repo.unsent == if Quiet(resp, s.Now()) && Announced(req) != {} then {} else old(s.repo.unsent)
    ensures done ==> s.repo.unsent == {}
    ensures server.unsent == old(server.unsent)
    ensures NewIsUnclustered(old(server.Has()), old(server.unclustered), server.Has(), server.unclustered)
    ensures done <==> Quiet(resp, s.Now()) && (Announced(req) != {} || old(s.repo.unsent) == {})
  {
    hide Announced, Requested, Carried, GoodFiles, FromStore, Linked, Round, After, AfterCards, Answered, Quiet;
    hide NewIsUnclustered, Undelivered, Older, FileCards;
    ghost var v, before, unsent := s.Now(), server.Has(), s.repo.unsent;
    LinkedMeans(s.opts, v, before, unsent);
    var r := s.BuildRequest();
    req := r;
    ghost var asked := s.Now();
    assert asked == v.(pendingSend := v.pendingSend - Carried(req));
    StoreIsGood(req, s.repo);
    var h := new Handler(server);
    var crashed := h.Process(r);
    resp := h.resp;
    StoreIsGood(resp, server);
    OrderDoesNotMatter(asked, s.opts.pull, resp);
    assert s.Now() == asked;
    ghost var aged := s.phantomAge;
    var ok;
    ok, done := s.ProcessResponse(h.resp);
    MakesRound(s.opts, v, before, req, resp, s.Now(), server.Has());
    IsQuiet(resp, s.Now());
  }

  lemma LinkedMeans(o: Opts, v: View, server: set<Uuid>, unsent: set<Uuid>)
    requires Linked(o, v, server, unsent)
    ensures v.keys == v.has && v.pendingSend <= v.has
  {
  }

  lemma IsQuiet(resp: seq<Card>, v: View)
    ensures Quiet(resp, v) <==> Carried(resp) == {} && Requested(resp) == {} && v.phantoms == {} && v.pendingSend == {}
  {
  }

  /** What request, answer and response guarantee makes a round. */
  lemma MakesRound(o: Opts, v: View, server: set<Uuid>, req: seq<Card>, resp: seq<Card>, v': View, server': set<Uuid>)
    requires (PushCard in req <==> o.push) && (PullCard in req <==> o.pull)
    requires Announced(req) == v.unclustered * v.has - v.remoteHas && Carried(req) <= v.pendingSend * v.has
    requires (!o.push ==> Carried(req) == {}) && (o.push && v.pendingSend != {} ==> Carried(req) != {})
    requires Requested(req) <= v.phantoms && (o.pull && v.phantoms != {} ==> Requested(req) != {})
    requires Answered(req, resp, server, server')
    requires var after := After(v.(pendingSend := v.pendingSend - Carried(req)), o.pull, resp);
             v' == after.(phantoms := v'.phantoms) && v'.phantoms <= after.phantoms && (v.phantoms == {} ==> v'.phantoms == after.phantoms)
    ensures Round(o, v, server, req, resp, v', server')
  {
    hide Announced, Requested, Carried, After, Answered;
  }

  /** The bounds that hold throughout the session: what each side has by now. */
  ghost predicate Between(o: Opts, client0: set<Uuid>, server0: set<Uuid>, client: set<Uuid>, server: set<Uuid>) {
    && client0 <= client <= client0 + (if o.pull then server0 else {})
    && server0 <= server <= server0 + (if o.push then client0 else {})
  }

  lemma StaysBetween(o: Opts, c0: set<Uuid>, s0: set<Uuid>, c1: set<Uuid>, s1: set<Uuid>, c2: set<Uuid>, s2: set<Uuid>)
    requires Between(o, c0, s0, c1, s1) && Between(o, c1, s1, c2, s2) && (o.push || o.pull)
    ensures Between(o, c0, s0, c2, s2)
    ensures Hopeful(o, c0, s0) <==> Hopeful(o, c2, s2)
  {
  }

  /** A session that has something under way, or nothing missing, is not at measure zero. */
  lemma MeasureIsPositive(o: Opts, v: View, server: set<Uuid>, unsent: set<Uuid>)
    requires Linked(o, v, server, unsent) && Hopeful(o, v.has, server)
    ensures Measure(o, v, server) > 0
  {
    if v.phantoms != {} {
      var u :| u in v.phantoms;
      assert u in Missing(o, v.has, server);
    } else if v.pendingSend != {} {
      var u :| u in v.pendingSend;
      assert u in Missing(o, v.has, server);
    }
  }

  /** The whole session. It succeeds within two rounds per missing artifact and one more, and then exactly
      the missing artifacts have travelled, in the directions asked for. A pull without push never
      succeeds when the client has artifacts that the server lacks. */
  method Sync(client: Repo, server: Repo, o: Opts) returns (ok: bool, rounds: nat)
    requires Opening(client, server) && (o.push || o.pull) && client != server
    modifies client, server
    ensures client.Valid() && server.Valid() && client.Kept() && server.Kept()
    ensures ok ==> client.Has() == old(client.Has()) + (if o.pull then old(server.Has()) else {})
    ensures ok ==> server.Has() == old(server.Has()) + (if o.push then old(client.Has()) else {})
    ensures rounds <= MAX_ROUNDS && (!ok ==> rounds == MAX_ROUNDS)
    ensures ok ==> rounds <= 2 * |Missing(o, old(client.Has()), old(server.Has()))| + 1
    ensures ok ==> Hopeful(o, old(client.Has()), old(server.Has()))
    ensures ok ==> client.unsent == {}
    ensures NewIsUnclustered(old(client.Has()), old(client.unclustered), client.Has(), client.unclustered)
    ensures NewIsUnclustered(old(server.Has()), old(server.unclustered), server.Has(), server.unclustered)
    ensures server.unsent == old(server.unsent)
    ensures !ok ==> client.unsent == {} || client.unsent == old(client.unsent)
    ensures ok && o.push && o.pull && CollisionFree(client.contents) ==> client.blob == server.blob
    ensures !ok && Hopeful(o, old(client.Has()), old(server.Has())) ==>
              MAX_ROUNDS < 2 * |Missing(o, old(client.Has()), old(server.Has()))| + 1
  {
    hide Round, Linked, Measure, Missing, Hopeful, Between, Quiet, NewIsUnclustered;
    var s := new Session(client, o);
    ghost var c0, s0, u0, su0 := client.Has(), server.Has(), client.unclustered, server.unclustered;
    SameIsUnclustered(c0, u0);
    SameIsUnclustered(s0, su0);
    client.WithoutPhantoms();
    SessionOpens(o, s.Now(), s0, client.unsent);
    var cycle := 0;
    while true
      invariant s.repo == client && s.opts == o && fresh(s)
      invariant client.Valid() && server.Valid() && client.Kept() && server.Kept()
      invariant s.maxSend > 0 && s.phantomAge.Keys <= s.phantoms && server.phantom == {}
      invariant client.Harmless() && server.Harmless()
      invariant Linked(o, s.Now(), server.Has(), client.unsent)
      invariant client.unsent == {} || client.unsent == old(client.unsent)
      invariant NewIsUnclustered(c0, u0, client.Has(), client.unclustered)
      invariant NewIsUnclustered(s0, su0, server.Has(), server.unclustered) && server.unsent == old(server.unsent)
      invariant Between(o, c0, s0, s.Now().has, server.Has())
      invariant cycle <= MAX_ROUNDS
      invariant Hopeful(o, c0, s0) <==> Hopeful(o, s.Now().has, server.Has())
      invariant Hopeful(o, c0, s0) ==> cycle + Measure(o, s.Now(), server.Has()) <= 2 * |Missing(o, c0, s0)| + 1
      decreases MAX_ROUNDS - cycle
    {
      if cycle >= MAX_ROUNDS {
        if Hopeful(o, c0, s0) {
          MeasureIsPositive(o, s.Now(), server.Has(), client.unsent);
        }
        return false, cycle;
      }
      ghost var v, sv, unsent, su := s.Now(), server.Has(), client.unsent, server.unclustered;
      var done;
      ghost var req, resp;
      done, req, resp := Exchange(s, server);
      ghost var v', sv' := s.Now(), server.Has();
      RoundKeepsLink(o, v, sv, unsent, req, resp, v', sv');
      NewerIsUnclustered(c0, u0, v.has, v.unclustered, v'.has, v'.unclustered);
      NewerIsUnclustered(s0, su0, sv, su, sv', server.unclustered);
      RoundStaysBetween(o, v, sv, unsent, req, resp, v', sv');
      StaysBetween(o, c0, s0, v.has, sv, v'.has, sv');
      UnsentMayBeCleared(o, v', sv', unsent, client.unsent);
      cycle := cycle + 1;
      if Quiet(resp, v') {
        QuietMeansEqual(o, v, sv, unsent, req, resp, v', sv');
      }
      KeysAreReal(o, v', sv', unsent);
      if done {
        QuietMeansHopeful(o, c0, s0, v'.has, sv');
        MeasureOfHopeful(o, v, sv, unsent, c0, s0);
        if o.push && o.pull && CollisionFree(client.contents) {
          EqualStores(client, server);
        }
        return true, cycle;
      }
      if Hopeful(o, v.has, sv) {
        OtherRoundsProgress(o, v, sv, unsent, req, resp, v', sv');
      }
    }
  }

  /** No two contents share a name. */
  ghost predicate CollisionFree(h: Contents) {
    forall u, c, d :: h.of(u, c) == u && h.of(u, d) == u ==> c == d
  }

  lemma EqualStores(a: Repo, b: Repo)
    requires a.Valid() && b.Valid() && a.contents == b.contents && CollisionFree(a.contents)
    requires a.blob.Keys == a.Has() == b.Has() && b.phantom == {}
    ensures a.blob == b.blob
  {
    b.WithoutPhantoms();
    forall u | u in a.blob ensures a.blob[u] == b.blob[u] {
      assert u in a.Has() && u in b.Has();
    }
  }

  lemma SessionOpens(o: Opts, v: View, server: set<Uuid>, unsent: set<Uuid>)
    requires v.keys == v.has && v.unclustered <= v.keys && v.has - v.unclustered <= server && unsent <= v.unclustered
    requires v.remoteHas == v.phantoms == v.pendingSend == {}
    ensures Linked(o, v, server, unsent) && Between(o, v.has, server, v.has, server)
    ensures Measure(o, v, server) <= 2 * |Missing(o, v.has, server)| + 1
  {
  }

  lemma RoundStaysBetween(o: Opts, v: View, server: set<Uuid>, unsent: set<Uuid>, req: seq<Card>, resp: seq<Card>, v': View, server': set<Uuid>)
    requires (o.push || o.pull) && Linked(o, v, server, unsent) && Round(o, v, server, req, resp, v', server')
    ensures Between(o, v.has, server, v'.has, server')
  {
    RoundKeepsLink(o, v, server, unsent, req, resp, v', server');
  }

  lemma KeysAreReal(o: Opts, v: View, server: set<Uuid>, unsent: set<Uuid>)
    requires Linked(o, v, server, unsent)
    ensures v.keys == v.has
  {
  }

  lemma UnsentMayBeCleared(o: Opts, v: View, server: set<Uuid>, unsent: set<Uuid>, unsent': set<Uuid>)
    requires Linked(o, v, server, unsent) && unsent' <= unsent
    ensures Linked(o, v, server, unsent')
  {
  }

  lemma QuietMeansHopeful(o: Opts, c0: set<Uuid>, s0: set<Uuid>, client: set<Uuid>, server: set<Uuid>)
    requires Between(o, c0, s0, client, server) && (o.push || o.pull)
    requires client <= server && (o.pull ==> server <= client)
    ensures Hopeful(o, c0, s0)
    ensures client == c0 + (if o.pull then s0 else {}) && server == s0 + (if o.push then c0 else {})
  {
  }

  lemma MeasureOfHopeful(o: Opts, v: View, server: set<Uuid>, unsent: set<Uuid>, c0: set<Uuid>, s0: set<Uuid>)
    requires Linked(o, v, server, unsent) && Hopeful(o, c0, s0)
    requires Hopeful(o, c0, s0) <==> Hopeful(o, v.has, server)
    ensures Measure(o, v, server) > 0
  {
    MeasureIsPositive(o, v, server, unsent);
  }
}
