/** The server's side of one sync round (internal/sync/handler.go): file cards first, so that what they bring is there
    when the other cards are looked at, then the announcements and requests, then everything the client may lack. */
module SyncServer {
  import opened Bytes
  import opened SyncStore

  /** The cards that decide which artifacts travel. */
  datatype Card =
    | PushCard
    | PullCard
    | IGotCard(uuid: Uuid)
    | GimmeCard(uuid: Uuid)
    | FileCard(uuid: Uuid, deltaSrc: Uuid, content: Slice)
    | ErrorCard

  ghost function Announced(cards: seq<Card>): set<Uuid> { set c | c in cards && c.IGotCard? :: c.uuid }

  ghost function Requested(cards: seq<Card>): set<Uuid> { set c | c in cards && c.GimmeCard? :: c.uuid }

  ghost function Carried(cards: seq<Card>): set<Uuid> { set c | c in cards && c.FileCard? :: c.uuid }

  ghost predicate NoControl(cards: seq<Card>) { PushCard !in cards && PullCard !in cards }

  /** Every file card carries a whole content that bears its name, and on which the manifest parser does not panic. */
  ghost predicate GoodFiles(cards: seq<Card>, h: Contents) {
    forall c :: c in cards && c.FileCard? ==>
      c.deltaSrc == "" && h.valid(c.uuid) && h.of(c.uuid, c.content) == c.uuid && !h.panics(c.content)
  }

  /** Every file card carries a whole content of a store. */
  ghost predicate FromStore(cards: seq<Card>, blob: map<Uuid, Option<Slice>>) {
    forall c :: c in cards && c.FileCard? ==> c.deltaSrc == "" && c.uuid in blob && blob[c.uuid] == Some(c.content)
  }

  lemma StoreIsGood(cards: seq<Card>, repo: Repo)
    requires FromStore(cards, repo.blob) && repo.Valid() && repo.Harmless()
    ensures GoodFiles(cards, repo.contents)
  {
    forall c | c in cards && c.FileCard? ensures c.uuid in repo.Has() { }
  }

  lemma CardSetsGrow(cards: seq<Card>, c: Card)
    ensures Announced(cards + [c]) == Announced(cards) + if c.IGotCard? then {c.uuid} else {}
    ensures Requested(cards + [c]) == Requested(cards) + if c.GimmeCard? then {c.uuid} else {}
    ensures Carried(cards + [c]) == Carried(cards) + if c.FileCard? then {c.uuid} else {}
    ensures NoControl(cards + [c]) <==> NoControl(cards) && !c.PushCard? && !c.PullCard?
  {
    var more := cards + [c];
    assert forall d :: d in more <==> d in cards || d == c;
  }

  lemma OnlyErrors(cards: seq<Card>, blob: map<Uuid, Option<Slice>>)
    requires forall c :: c in cards ==> c == ErrorCard
    ensures Announced(cards) == Requested(cards) == Carried(cards) == {} && FromStore(cards, blob)
  {
  }

  lemma AnswerGrows(cards: seq<Card>, c: Card, blob: map<Uuid, Option<Slice>>)
    requires FromStore(cards, blob) && (c.FileCard? ==> c.deltaSrc == "" && c.uuid in blob && blob[c.uuid] == Some(c.content))
    ensures FromStore(cards + [c], blob)
    ensures Announced(cards + [c]) == Announced(cards) + if c.IGotCard? then {c.uuid} else {}
    ensures Requested(cards + [c]) == Requested(cards) + if c.GimmeCard? then {c.uuid} else {}
    ensures Carried(cards + [c]) == Carried(cards) + if c.FileCard? then {c.uuid} else {}
  {
    CardSetsGrow(cards, c);
    assert forall d :: d in cards + [c] <==> d in cards || d == c;
  }

  lemma OneCard(c: Card)
    ensures Announced([c]) == if c.IGotCard? then {c.uuid} else {}
    ensures Requested([c]) == if c.GimmeCard? then {c.uuid} else {}
    ensures Carried([c]) == if c.FileCard? then {c.uuid} else {}
  {
    assert [c] == [] + [c];
    CardSetsGrow([], c);
  }

  /** What is new is unclustered. */
  ghost predicate NewIsUnclustered(had: set<Uuid>, unclustered0: set<Uuid>, has: set<Uuid>, unclustered: set<Uuid>) {
    had <= has && unclustered == unclustered0 + (has - had)
  }

  lemma SameIsUnclustered(has: set<Uuid>, unclustered: set<Uuid>)
    ensures NewIsUnclustered(has, unclustered, has, unclustered)
  {
  }

  lemma NothingCarried(has: set<Uuid>, unclustered: set<Uuid>)
    ensures Carried([]) == {} && NewIsUnclustered(has, unclustered, has, unclustered)
  {
  }

  lemma NewerIsUnclustered(h0: set<Uuid>, u0: set<Uuid>, h1: set<Uuid>, u1: set<Uuid>, h2: set<Uuid>, u2: set<Uuid>)
    requires NewIsUnclustered(h0, u0, h1, u1) && NewIsUnclustered(h1, u1, h2, u2)
    ensures NewIsUnclustered(h0, u0, h2, u2)
  {
  }

  class Handler {
    const repo: Repo
    var resp: seq<Card>
    var pushOK: bool
    var pullOK: bool
    var filesRecvd: nat
    var remoteHas: set<Uuid>

    constructor (repo: Repo)
      ensures this.repo == repo && resp == [] && !pushOK && !pullOK && remoteHas == {}
    {
      this.repo, resp, pushOK, pullOK, filesRecvd, remoteHas := repo, [], false, false, 0, {};
    }

    method HandleControlCard(c: Card)
      modifies this`pushOK, this`pullOK
      ensures pushOK == (old(pushOK) || c.PushCard?) && pullOK == (old(pullOK) || c.PullCard?)
    {
      if c.PushCard? {
        pushOK := true;
      } else if c.PullCard? {
        pullOK := true;
      }
    }

    /** A file card: refused without a push card, or when it cannot be stored; a panic ends the request. */
    method HandleFile(uuid: Uuid, deltaSrc: Uuid, payload: Slice) returns (crashed: bool)
      requires repo.Valid()
      modifies this`resp, this`filesRecvd, repo
      ensures repo.Valid() && repo.Kept() && repo.unsent == old(repo.unsent)
      ensures crashed <==> pushOK && old(Crashes(uuid, deltaSrc, payload))
      ensures !pushOK || !old(Accepted(uuid, deltaSrc, payload)) ==>
                repo.Has() == old(repo.Has()) && repo.blob == old(repo.blob) && repo.unclustered == old(repo.unclustered)
                && resp == if crashed then old(resp) else old(resp) + [ErrorCard]
      ensures pushOK && old(Accepted(uuid, deltaSrc, payload)) ==>
                repo.Has() == old(repo.Has()) + {uuid} && repo.blob.Keys == old(repo.blob.Keys) + {uuid} && resp == old(resp)
                && NewIsUnclustered(old(repo.Has()), old(repo.unclustered), repo.Has(), repo.unclustered)
                && (uuid !in old(repo.Has()) ==> repo.blob[uuid] == Some(old(repo.Resolved(deltaSrc, payload)).value))
                && forall u :: u in old(repo.blob) && u != uuid ==> repo.blob[u] == old(repo.blob[u])
    {
      if !pushOK {
        resp := resp + [ErrorCard];
        return false;
      }
      var r := repo.StoreReceivedFile(uuid, deltaSrc, payload);
      if r == Crashed {
        return true;
      }
      if r != Stored {
        resp := resp + [ErrorCard];
        return false;
      }
      var exists_ := repo.Exists(uuid);
      if !exists_ {
        assert false; // a stored artifact is there
      }
      filesRecvd := filesRecvd + 1;
      return false;
    }

    /** The content resolves and bears the name, and, if it is new, the parser does not panic on it. */
    ghost predicate Accepted(uuid: Uuid, deltaSrc: Uuid, payload: Slice)
      reads this, repo
    {
      repo.Bears(uuid, deltaSrc, payload)
      && (uuid in repo.blob || !repo.contents.panics(repo.Resolved(deltaSrc, payload).value))
    }

    /** The parser panics on a new content, or the allocation for a delta's target does. */
    ghost predicate Crashes(uuid: Uuid, deltaSrc: Uuid, payload: Slice)
      reads this, repo
    {
      repo.contents.valid(uuid) && (repo.Resolved(deltaSrc, payload) == Err(Crashed)
                                    || (repo.Bears(uuid, deltaSrc, payload) && !Accepted(uuid, deltaSrc, payload)))
    }

    method HandleIGot(uuid: Uuid)
      modifies this`resp, this`remoteHas
      ensures uuid in repo.blob ==> resp == old(resp) && remoteHas == old(remoteHas) + {uuid}
      ensures uuid !in repo.blob ==> remoteHas == old(remoteHas)
      ensures uuid !in repo.blob ==> resp == if pushOK || pullOK then old(resp) + [GimmeCard(uuid)] else old(resp)
    {
      var exists_ := repo.Exists(uuid);
      if exists_ {
        remoteHas := remoteHas + {uuid};
        return;
      }
      if !pushOK && !pullOK {
        return;
      }
      resp := resp + [GimmeCard(uuid)];
    }

    method HandleGimme(uuid: Uuid)
      modifies this`resp
      ensures resp == if uuid !in repo.blob then old(resp)
                      else if repo.blob[uuid] == None then old(resp) + [ErrorCard]
                      else old(resp) + [FileCard(uuid, "", repo.blob[uuid].value)]
    {
      var exists_ := repo.Exists(uuid);
      if !exists_ {
        return;
      }
      var data := repo.Expand(uuid);
      if data == None {
        resp := resp + [ErrorCard];
        return;
      }
      resp := resp + [FileCard(uuid, "", data.value)];
    }

    /** Every real artifact that the client did not announce. */
    method EmitIGots()
      modifies this`resp
      ensures Announced(resp) == old(Announced(resp)) + (repo.Has() - remoteHas)
      ensures Requested(resp) == old(Requested(resp)) && Carried(resp) == old(Carried(resp))
      ensures forall c :: c in resp && c.FileCard? ==> c in old(resp)
    {
      var left := set u | u in repo.blob && repo.blob[u].Some? && u !in remoteHas;
      assert left == repo.Has() - remoteHas;
      while left != {}
        invariant left <= repo.Has() - remoteHas
        invariant Announced(resp) == old(Announced(resp)) + (repo.Has() - remoteHas - left)
        invariant Requested(resp) == old(Requested(resp)) && Carried(resp) == old(Carried(resp))
        invariant forall c :: c in resp && c.FileCard? ==> c in old(resp)
        decreases left
      {
        var u :| u in left;
        left := left - {u};
        CardSetsGrow(resp, IGotCard(u));
        resp := resp + [IGotCard(u)];
      }
    }

    method ProcessControlCards(req: seq<Card>)
      requires !pushOK && !pullOK
      modifies this`pushOK, this`pullOK
      ensures pushOK == (PushCard in req) && pullOK == (PullCard in req)
    {
      for i := 0 to |req|
        invariant pushOK == (PushCard in req[..i]) && pullOK == (PullCard in req[..i])
      {
        HandleControlCard(req[i]);
      }
      assert req[..|req|] == req;
    }

    /** The file cards come first, so that an announcement in the same request finds them stored. */
    method ProcessFileCards(req: seq<Card>) returns (crashed: bool)
      requires repo.Valid() && resp == []
      modifies this`resp, this`filesRecvd, repo
      ensures repo.Valid() && repo.Kept() && repo.unsent == old(repo.unsent)
      ensures forall c :: c in resp ==> c == ErrorCard
      ensures GoodFiles(req, repo.contents) ==> !crashed
      ensures GoodFiles(req, repo.contents) && old(repo.Harmless()) ==> repo.Harmless()
      ensures old(repo.phantom) == {} && GoodFiles(req, repo.contents) ==>
                repo.phantom == {} && repo.Has() == old(repo.Has()) + (if pushOK then Carried(req) else {})
                && NewIsUnclustered(old(repo.Has()), old(repo.unclustered), repo.Has(), repo.unclustered)
    {
      hide Carried, NewIsUnclustered;
      repo.WithoutPhantoms();
      NothingCarried(repo.Has(), repo.unclustered);
      for i := 0 to |req|
        invariant repo.Valid() && repo.Kept() && repo.unsent == old(repo.unsent)
        invariant forall c :: c in resp ==> c == ErrorCard
        invariant GoodFiles(req, repo.contents) && old(repo.Harmless()) ==> repo.Harmless()
        invariant old(repo.phantom) == {} && GoodFiles(req, repo.contents) ==>
                    repo.blob.Keys == repo.Has() == old(repo.Has()) + (if pushOK then Carried(req[..i]) else {})
                    && NewIsUnclustered(old(repo.Has()), old(repo.unclustered), repo.Has(), repo.unclustered)
      {
        CardSetsGrow(req[..i], req[i]);
        assert req[..i + 1] == req[..i] + [req[i]];
        if req[i].FileCard? {
          ghost var has, unclustered := repo.Has(), repo.unclustered;
          crashed := HandleFile(req[i].uuid, req[i].deltaSrc, req[i].content);
          if crashed {
            return;
          }
          if old(repo.phantom) == {} && GoodFiles(req, repo.contents) {
            SameIsUnclustered(has, unclustered);
            NewerIsUnclustered(old(repo.Has()), old(repo.unclustered), has, unclustered, repo.Has(), repo.unclustered);
          }
        }
      }
      assert req[..|req|] == req;
      repo.WithoutPhantoms();
      crashed := false;
    }

    method HandleDataCard(c: Card)
      requires repo.Valid() && FromStore(resp, repo.blob)
      modifies this`resp, this`remoteHas
      ensures Announced(resp) == old(Announced(resp)) && FromStore(resp, repo.blob)
      ensures remoteHas == old(remoteHas) + Announced([c]) * repo.blob.Keys
      ensures Requested(resp) == old(Requested(resp)) + if pushOK || pullOK then Announced([c]) - repo.blob.Keys else {}
      ensures Carried(resp) == old(Carried(resp)) + Requested([c]) * repo.Has()
    {
      hide Announced, Requested, Carried, FromStore;
      OneCard(c);
      match c
      case IGotCard(u) =>
        AnswerGrows(resp, GimmeCard(u), repo.blob);
        HandleIGot(u);
      case GimmeCard(u) =>
        AnswerGrows(resp, ErrorCard, repo.blob);
        if u in repo.blob && repo.blob[u].Some? { AnswerGrows(resp, FileCard(u, "", repo.blob[u].value), repo.blob); }
        HandleGimme(u);
      case _ =>
    }

    method ProcessOtherCards(req: seq<Card>)
      requires repo.Valid() && remoteHas == {} && forall c :: c in resp ==> c == ErrorCard
      modifies this`resp, this`remoteHas
      ensures Announced(resp) == {} && FromStore(resp, repo.blob)
      ensures remoteHas == Announced(req) * repo.blob.Keys
      ensures Requested(resp) == if pushOK || pullOK then Announced(req) - repo.blob.Keys else {}
      ensures Carried(resp) == Requested(req) * repo.Has()
    {
      hide Announced, Requested, Carried, FromStore;
      OnlyErrors(resp, repo.blob);
      OnlyErrors([], repo.blob);
      for i := 0 to |req|
        invariant Announced(resp) == {} && FromStore(resp, repo.blob)
        invariant remoteHas == Announced(req[..i]) * repo.blob.Keys
        invariant Requested(resp) == if pushOK || pullOK then Announced(req[..i]) - repo.blob.Keys else {}
        invariant Carried(resp) == Requested(req[..i]) * repo.Has()
      {
        CardSetsGrow(req[..i], req[i]);
        OneCard(req[i]);
        assert req[..i + 1] == req[..i] + [req[i]];
        HandleDataCard(req[i]);
      }
      assert req[..|req|] == req;
    }

    /** One request: control cards, then files, then the other data cards, then what the server has. A panic leaves the
        files that came before it stored, and gives no answer. */
    method Process(req: seq<Card>) returns (crashed: bool)
      requires repo.Valid() && resp == [] && !pushOK && !pullOK && remoteHas == {}
      modifies this, repo
      ensures repo.Valid() && repo.Kept() && repo.unsent == old(repo.unsent)
      ensures !crashed ==> FromStore(resp, repo.blob)
      ensures GoodFiles(req, repo.contents) ==> !crashed
      ensures GoodFiles(req, repo.contents) && old(repo.Harmless()) ==> repo.Harmless()
      ensures old(repo.phantom) == {} && GoodFiles(req, repo.contents) ==>
                repo.phantom == {} && Answered(req, resp, old(repo.Has()), repo.Has())
                && NewIsUnclustered(old(repo.Has()), old(repo.unclustered), repo.Has(), repo.unclustered)
    {
      ProcessControlCards(req);
      crashed := ProcessFileCards(req);
      if crashed {
        return;
      }
      repo.WithoutPhantoms();
      ProcessOtherCards(req);
      if pullOK {
        EmitIGots();
      }
    }
  }

  /** What one request does to a server without phantoms, and what it is answered. */
  ghost predicate Answered(req: seq<Card>, resp: seq<Card>, before: set<Uuid>, after: set<Uuid>) {
    && after == before + (if PushCard in req then Carried(req) else {})
    && Requested(resp) == (if PushCard in req || PullCard in req then Announced(req) - after else {})
    && Carried(resp) == Requested(req) * after
    && Announced(resp) == (if PullCard in req then after - Announced(req) else {})
  }
}
