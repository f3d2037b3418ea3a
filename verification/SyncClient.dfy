/** The client's side of sync (internal/sync/session.go, internal/sync/client.go): what the session knows of the server,
    the cards of the next request, and what a response changes, down to the decision that nothing is left to be done. */
module SyncClient {
  import opened Bytes
  import opened SyncStore
  import opened SyncServer

  const DEFAULT_MAX_SEND: int := 250_000
  const MAX_ROUNDS: nat := 100
  const MAX_GIMME_BASE: nat := 200

  datatype Opts = Opts(push: bool, pull: bool, maxSend: int)

  /** What the client knows and has, between two cards. */
  datatype View = View(remoteHas: set<Uuid>, phantoms: set<Uuid>, pendingSend: set<Uuid>,
                       keys: set<Uuid>, has: set<Uuid>, unclustered: set<Uuid>)

  /** The view after one card. A file that is stored while pulling promotes the phantom rows of the store. */
  ghost function AfterCard(v: View, pull: bool, c: Card): View {
    match c
    case FileCard(u, _, _) =>
      var keys, has := v.keys + {u}, v.has + {u};
      v.(keys := keys, has := has, unclustered := if u in v.has then v.unclustered else v.unclustered + {u},
         phantoms := v.phantoms + (if pull then keys - has - v.remoteHas else {}) - {u})
    case IGotCard(u) =>
      v.(remoteHas := v.remoteHas + {u}, phantoms := if pull && u !in v.keys then v.phantoms + {u} else v.phantoms)
    case GimmeCard(u) => v.(pendingSend := v.pendingSend + {u})
    case _ => v
  }

  /** The view after the cards of a response. */
  ghost function AfterCards(v: View, pull: bool, cards: seq<Card>): View {
    if cards == [] then v else AfterCard(AfterCards(v, pull, cards[..|cards| - 1]), pull, cards[|cards| - 1])
  }

  /** Without phantom rows the order of the cards does not matter. */
  ghost function After(v: View, pull: bool, cards: seq<Card>): View {
    View(v.remoteHas + Announced(cards),
         v.phantoms + (if pull then Announced(cards) - v.keys else {}) - Carried(cards),
         v.pendingSend + Requested(cards),
         v.keys + Carried(cards), v.has + Carried(cards), v.unclustered + (Carried(cards) - v.has))
  }

  lemma {:induction false} OrderDoesNotMatter(v: View, pull: bool, cards: seq<Card>)
    requires v.keys == v.has
    ensures AfterCards(v, pull, cards) == After(v, pull, cards)
  {
    if cards != [] {
      var init, c := cards[..|cards| - 1], cards[|cards| - 1];
      assert cards == init + [c];
      OrderDoesNotMatter(v, pull, init);
      OneMoreCard(v, pull, init, c);
    }
  }

  lemma OneMoreCard(v: View, pull: bool, cards: seq<Card>, c: Card)
    requires v.keys == v.has
    ensures After(v, pull, cards + [c]) == AfterCard(After(v, pull, cards), pull, c)
  {
    CardSetsGrow(cards, c);
    hide Announced, Requested, Carried;
    assert v.keys + Carried(cards + [c]) - (v.has + Carried(cards + [c])) == {};
  }

  function AgeOf(ages: map<Uuid, nat>, u: Uuid): nat { if u in ages then ages[u] else 0 }

  /** The phantoms that have not been waited for three rounds. */
  ghost function Undelivered(phantoms: set<Uuid>, ages: map<Uuid, nat>): set<Uuid> {
    set u | u in phantoms && AgeOf(ages, u) + 1 < 3
  }

  ghost function Older(phantoms: set<Uuid>, ages: map<Uuid, nat>): map<Uuid, nat> {
    map u | u in phantoms :: AgeOf(ages, u) + 1
  }

  /** An artifact that is asked for in vain is asked for in three rounds. */
  lemma ThreeRounds(u: Uuid)
    ensures Undelivered({u}, map[]) == {u} && Older({u}, map[]) == map[u := 1]
    ensures Undelivered({u}, map[u := 1]) == {u} && Older({u}, map[u := 1]) == map[u := 2]
    ensures Undelivered({u}, map[u := 2]) == {}
  {
    assert Older({u}, map[]).Keys == {u} && Older({u}, map[u := 1]).Keys == {u};
  }

  /** How many of the cards are files. */
  ghost function FileCards(cards: seq<Card>): nat {
    if cards == [] then 0 else FileCards(cards[..|cards| - 1]) + if cards[|cards| - 1].FileCard? then 1 else 0
  }

  /** Twice the files of the last round, and 200 at least. */
  function GimmeLimit(filesRecvdLastRound: nat): (limit: nat)
    ensures limit >= 200 && limit >= 2 * filesRecvdLastRound && (limit == 200 || limit == 2 * filesRecvdLastRound)
  {
    if filesRecvdLastRound * 2 > MAX_GIMME_BASE then filesRecvdLastRound * 2 else MAX_GIMME_BASE
  }

  /** The content bytes of the file cards. */
  ghost function PayloadBytes(cards: seq<Card>): nat {
    if cards == [] then 0
    else PayloadBytes(cards[..|cards| - 1]) + if cards[|cards| - 1].FileCard? then |cards[|cards| - 1].content| else 0
  }

  lemma NothingInCards(blob: map<Uuid, Option<Slice>>)
    ensures Announced([]) == Requested([]) == Carried([]) == {} && NoControl([]) && FromStore([], blob)
  {
  }

  lemma NoBytes()
    ensures PayloadBytes([]) == 0
  {
  }

  /** The gimmes so far, and the phantoms still to be asked for. */
  ghost predicate Asking(cards: seq<Card>, phantoms: set<Uuid>, left: set<Uuid>) {
    && left <= phantoms && Requested(cards) == phantoms - left && |cards| == |phantoms - left|
    && Announced(cards) == Carried(cards) == {} && NoControl(cards)
  }

  lemma NothingAsked(phantoms: set<Uuid>)
    ensures Asking([], phantoms, phantoms)
  {
  }

  lemma AskOne(cards: seq<Card>, phantoms: set<Uuid>, left: set<Uuid>, u: Uuid)
    requires Asking(cards, phantoms, left) && u in left
    ensures Asking(cards + [GimmeCard(u)], phantoms, left - {u})
  {
    hide Announced, Requested, Carried, NoControl;
    CardSetsGrow(cards, GimmeCard(u));
    assert phantoms - (left - {u}) == (phantoms - left) + {u};
  }

  lemma AllAsked(cards: seq<Card>, phantoms: set<Uuid>, left: set<Uuid>)
    requires Asking(cards, phantoms, left)
    ensures Announced(cards) == Carried(cards) == {} && NoControl(cards) && Requested(cards) <= phantoms
    ensures |Requested(cards)| == |cards| <= |phantoms| && (left == {} ==> |cards| == |phantoms|)
    ensures cards == [] ==> left == phantoms
    ensures cards != [] ==> Requested(cards) != {}
  {
    hide Announced, Requested, Carried, NoControl;
    assert phantoms == (phantoms - left) + left;
    assert |phantoms| == |phantoms - left| + |left|;
    assert left == {} ==> phantoms - left == phantoms;
    assert phantoms - left == {} ==> left == phantoms;
  }

  ghost function Real(blob: map<Uuid, Option<Slice>>): set<Uuid> { set u | u in blob && blob[u].Some? }

  /** The files sent so far, what is still queued, and what of it has not been looked at. */
  ghost predicate Sending(cards: seq<Card>, queued: set<Uuid>, pending: set<Uuid>, left: set<Uuid>, blob: map<Uuid, Option<Slice>>, maxSend: int) {
    && left <= pending <= queued && pending == queued - Carried(cards) && Carried(cards) <= queued * Real(blob)
    && pending - left !! Real(blob) && Announced(cards) == Requested(cards) == {} && NoControl(cards) && FromStore(cards, blob)
    && (cards != [] ==> PayloadBytes(cards[..|cards| - 1]) < maxSend) && (cards == [] <==> Carried(cards) == {})
  }

  lemma NothingSent(queued: set<Uuid>, blob: map<Uuid, Option<Slice>>, maxSend: int)
    ensures Sending([], queued, queued, queued, blob, maxSend) && PayloadBytes([]) == 0
  {
  }

  lemma SendOne(cards: seq<Card>, queued: set<Uuid>, pending: set<Uuid>, left: set<Uuid>, blob: map<Uuid, Option<Slice>>, maxSend: int,
                u: Uuid, data: Slice)
    requires Sending(cards, queued, pending, left, blob, maxSend) && u in left && u in blob && blob[u] == Some(data)
    requires PayloadBytes(cards) < maxSend
    ensures Sending(cards + [FileCard(u, "", data)], queued, pending - {u}, left - {u}, blob, maxSend)
    ensures PayloadBytes(cards + [FileCard(u, "", data)]) == PayloadBytes(cards) + |data|
  {
    var c := FileCard(u, "", data);
    assert (cards + [c])[..|cards|] == cards;
    assert forall d :: d in cards + [c] <==> d in cards || d == c;
    CardSetsGrow(cards, c);
    hide Announced, Requested, Carried, NoControl, PayloadBytes;
  }

  lemma AllSent(cards: seq<Card>, queued: set<Uuid>, pending: set<Uuid>, left: set<Uuid>, blob: map<Uuid, Option<Slice>>, maxSend: int)
    requires Sending(cards, queued, pending, left, blob, maxSend) && (left == {} || PayloadBytes(cards) >= maxSend > 0)
    ensures Announced(cards) == Requested(cards) == {} && NoControl(cards) && FromStore(cards, blob)
    ensures Carried(cards) <= queued * Real(blob) && pending == queued - Carried(cards)
    ensures queued != {} && queued <= Real(blob) ==> Carried(cards) != {}
    ensures cards != [] ==> PayloadBytes(cards[..|cards| - 1]) < maxSend
    ensures pending * Real(blob) != {} ==> PayloadBytes(cards) >= maxSend
  {
    hide Announced, Requested, Carried, NoControl, FromStore, PayloadBytes;
    NoBytes();
  }

  class Session {
    const repo: Repo
    const opts: Opts
    var remoteHas: set<Uuid>
    var phantoms: set<Uuid>
    var pendingSend: set<Uuid>
    var phantomAge: map<Uuid, nat>   // rounds requested without delivery
    var filesRecvdLastRound: nat
    var igotSentThisRound: nat
    var maxSend: int

    constructor (repo: Repo, opts: Opts)
      ensures this.repo == repo && this.opts == opts && maxSend == (if opts.maxSend <= 0 then 250_000 else opts.maxSend)
      ensures filesRecvdLastRound == 0 && igotSentThisRound == 0
      ensures remoteHas == {} && phantoms == {} && pendingSend == {} && phantomAge == map[]
    {
      this.repo, this.opts := repo, opts;
      maxSend := if opts.maxSend <= 0 then DEFAULT_MAX_SEND else opts.maxSend;
      remoteHas, phantoms, pendingSend, phantomAge := {}, {}, {}, map[];
      filesRecvdLastRound, igotSentThisRound := 0, 0;
    }

    /** What `sendUnclustered` announces: artifacts outside clusters that the server has not announced. */
    ghost function ToAnnounce(): set<Uuid>
      reads this, repo
    {
      repo.unclustered * repo.Has() - remoteHas
    }

    method SendUnclustered() returns (cards: seq<Card>)
      requires repo.Valid()
      ensures Announced(cards) == ToAnnounce() && Requested(cards) == Carried(cards) == {}
      ensures NoControl(cards)
      ensures cards == [] <==> ToAnnounce() == {}
    {
      cards := [];
      var left := set u | u in repo.unclustered && u in repo.blob && repo.blob[u].Some? && u !in remoteHas;
      assert left == ToAnnounce();
      while left != {}
        invariant left <= ToAnnounce() && (cards == [] <==> left == ToAnnounce())
        invariant Announced(cards) == ToAnnounce() - left && Requested(cards) == Carried(cards) == {}
        invariant NoControl(cards)
        decreases left
      {
        var u :| u in left;
        left := left - {u};
        CardSetsGrow(cards, IGotCard(u));
        cards := cards + [IGotCard(u)];
      }
    }

    /** Queued files, until the byte budget is used up: no file is added beyond it, and none that is there stays
        queued within it. */
    method BuildFileCards() returns (cards: seq<Card>)
      requires repo.Valid() && maxSend > 0
      modifies this`pendingSend
      ensures Announced(cards) == Requested(cards) == {} && NoControl(cards)
      ensures FromStore(cards, repo.blob)
      ensures Carried(cards) <= old(pendingSend) * repo.Has() && pendingSend == old(pendingSend) - Carried(cards)
      ensures !opts.push ==> Carried(cards) == {}
      ensures opts.push && old(pendingSend) != {} && old(pendingSend) <= repo.Has() ==> Carried(cards) != {}
      ensures cards != [] ==> PayloadBytes(cards[..|cards| - 1]) < maxSend
      ensures opts.push && pendingSend * repo.Has() != {} ==> PayloadBytes(cards) >= maxSend
    {
      hide PayloadBytes, Announced, Requested, Carried, FromStore, NoControl;
      cards := [];
      NothingInCards(repo.blob);
      if !opts.push {
        return;
      }
      var budget := maxSend;
      hide Sending;
      ghost var queued := pendingSend;
      assert Real(repo.blob) == repo.Has();
      NothingSent(queued, repo.blob, maxSend);
      var left := pendingSend;
      while left != {}
        invariant left <= pendingSend && budget == maxSend - PayloadBytes(cards) && queued == old(pendingSend)
        invariant Sending(cards, queued, pendingSend, left, repo.blob, maxSend)
        decreases left
      {
        if budget <= 0 {
          break;
        }
        var u :| u in left;
        var data := repo.Expand(u);
        if data == None {
          left := left - {u};
          continue; // not there, or a phantom
        }
        SendOne(cards, queued, pendingSend, left, repo.blob, maxSend, u, data.value);
        left := left - {u};
        cards := cards + [FileCard(u, "", data.value)];
        budget := budget - |data.value|;
        pendingSend := pendingSend - {u};
      }
      AllSent(cards, queued, pendingSend, left, repo.blob, maxSend);
    }

    /** Requests for announced artifacts, up to the round's limit: twice the files of the last round, but at least
        the base limit. */
    method BuildGimmeCards() returns (cards: seq<Card>)
      ensures Announced(cards) == Carried(cards) == {} && NoControl(cards)
      ensures Requested(cards) <= phantoms
      ensures opts.pull ==> |Requested(cards)| == |cards| ==
                            if |phantoms| <= GimmeLimit(filesRecvdLastRound) then |phantoms| else GimmeLimit(filesRecvdLastRound)
      ensures !opts.pull ==> Requested(cards) == {}
      ensures opts.pull && phantoms != {} ==> Requested(cards) != {}
    {
      cards := [];
      if !opts.pull {
        return;
      }
      var maxGimme := GimmeLimit(filesRecvdLastRound);
      hide Asking, GimmeLimit;
      NothingAsked(phantoms);
      var count := 0;
      var left := phantoms;
      while left != {}
        invariant Asking(cards, phantoms, left) && count == |cards| <= maxGimme
        decreases left
      {
        if count >= maxGimme {
          break;
        }
        var u :| u in left;
        AskOne(cards, phantoms, left, u);
        left := left - {u};
        cards := cards + [GimmeCard(u)];
        count := count + 1;
      }
      AllAsked(cards, phantoms, left);
    }

    method BuildRequest() returns (req: seq<Card>)
      requires repo.Valid() && maxSend > 0
      modifies this`pendingSend, this`igotSentThisRound
      ensures (PushCard in req) == opts.push && (PullCard in req) == opts.pull
      ensures Announced(req) == ToAnnounce() && (igotSentThisRound == 0 <==> ToAnnounce() == {})
      ensures FromStore(req, repo.blob)
      ensures Carried(req) <= old(pendingSend) * repo.Has() && pendingSend == old(pendingSend) - Carried(req)
      ensures !opts.push ==> Carried(req) == {}
      ensures opts.push && old(pendingSend) != {} && old(pendingSend) <= repo.Has() ==> Carried(req) != {}
      ensures Requested(req) <= phantoms
      ensures !opts.pull ==> Requested(req) == {}
      ensures opts.pull && phantoms != {} ==> Requested(req) != {}
    {
      hide Announced, Requested, Carried, FromStore, NoControl;
      var control := BuildControlCards();
      var igots := SendUnclustered();
      igotSentThisRound := |igots|;
      var files := BuildFileCards();
      var gimmes := BuildGimmeCards();
      ConcatCards(control, igots, repo.blob);
      ConcatCards(control + igots, files, repo.blob);
      ConcatCards(control + igots + files, gimmes, repo.blob);
      req := control + igots + files + gimmes;
    }

    method BuildControlCards() returns (cards: seq<Card>)
      ensures (PushCard in cards) == opts.push && (PullCard in cards) == opts.pull
      ensures Announced(cards) == Requested(cards) == Carried(cards) == {}
    {
      cards := [];
      if opts.push {
        cards := cards + [PushCard];
      }
      if opts.pull {
        cards := cards + [PullCard];
      }
    }

    /** `loadDBPhantoms`: what the store knows by name only, and the server has not announced, is asked for, too. */
    method LoadDBPhantoms()
      modifies this`phantoms
      ensures phantoms == old(phantoms) + if opts.pull then repo.phantom - remoteHas else {}
    {
      if opts.pull {
        phantoms := phantoms + (repo.phantom - remoteHas);
      }
    }

    /** One card of a response; fails when a file cannot be stored, with an error or a panic. */
    method HandleCard(c: Card) returns (ok: bool)
      requires repo.Valid()
      modifies this`remoteHas, this`phantoms, this`pendingSend, repo
      ensures repo.Valid() && repo.Kept() && repo.unsent == old(repo.unsent)
      ensures c.FileCard? && GoodFiles([c], repo.contents) ==> ok
      ensures !c.FileCard? ==> ok
      ensures GoodFiles([c], repo.contents) && old(repo.Harmless()) ==> repo.Harmless()
      ensures ok ==> Now() == AfterCard(old(Now()), opts.pull, c)
    {
      assert c in [c];
      match c {
        case FileCard(u, deltaSrc, content) =>
          var r := repo.StoreReceivedFile(u, deltaSrc, content);
          if r != Stored {
            return false;
          }
          repo.PhantomsAreKeys();
          LoadDBPhantoms();
          phantoms := phantoms - {u};
        case IGotCard(u) =>
          remoteHas := remoteHas + {u};
          var exists_ := repo.Exists(u);
          if !exists_ && opts.pull {
            phantoms := phantoms + {u};
          }
        case GimmeCard(u) =>
          pendingSend := pendingSend + {u};
        case _ =>
      }
      return true;
    }

    ghost function Now(): View
      reads this, repo
    {
      View(remoteHas, phantoms, pendingSend, repo.blob.Keys, repo.Has(), repo.unclustered)
    }

    /** The loop over the cards of a response. */
    method HandleCards(resp: seq<Card>) returns (ok: bool, filesRecvd: nat, filesSent: nat)
      requires repo.Valid()
      modifies this`remoteHas, this`phantoms, this`pendingSend, repo
      ensures repo.Valid() && repo.Kept() && repo.unsent == old(repo.unsent)
      ensures GoodFiles(resp, repo.contents) ==> ok
      ensures GoodFiles(resp, repo.contents) && old(repo.Harmless()) ==> repo.Harmless()
      ensures ok ==> Now() == AfterCards(old(Now()), opts.pull, resp)
      ensures ok ==> (filesRecvd == 0 <==> Carried(resp) == {}) && (filesSent == 0 <==> Requested(resp) == {})
      ensures ok ==> filesRecvd == FileCards(resp)
    {
      hide AfterCard, Announced, Requested, Carried, GoodFiles;
      filesRecvd, filesSent, ok := 0, 0, true;
      NothingInCards(repo.blob);
      for i := 0 to |resp|
        invariant ok && repo.Valid() && repo.Kept() && repo.unsent == old(repo.unsent)
        invariant GoodFiles(resp, repo.contents) && old(repo.Harmless()) ==> repo.Harmless()
        invariant Now() == AfterCards(old(Now()), opts.pull, resp[..i])
        invariant (filesRecvd == 0 <==> Carried(resp[..i]) == {}) && (filesSent == 0 <==> Requested(resp[..i]) == {})
        invariant filesRecvd == FileCards(resp[..i])
      {
        assert resp[..i + 1] == resp[..i] + [resp[i]];
        ConcatSets(resp[..i], [resp[i]]);
        assert resp[..i + 1][..i] == resp[..i];
        OneCard(resp[i]);
        GoodFilesOne(resp, i, repo.contents);
        ok := HandleCard(resp[i]);
        if !ok {
          return;
        }
        if resp[i].FileCard? {
          filesRecvd := filesRecvd + 1;
        } else if resp[i].GimmeCard? {
          filesSent := filesSent + 1;
        }
      }
      assert resp[..|resp|] == resp;
    }

    /** Phantoms that were not delivered grow older; after three rounds they are given up. */
    method AgePhantoms()
      modifies this`phantoms, this`phantomAge
      ensures phantoms == Undelivered(old(phantoms), old(phantomAge)) && phantomAge == Older(phantoms, old(phantomAge))
      ensures phantoms <= old(phantoms) && phantomAge.Keys <= phantoms
      ensures old(phantomAge) == map[] ==> phantoms == old(phantoms)
    {
      var left := phantoms;
      while left != {}
        invariant left <= old(phantoms)
        invariant forall u :: u in phantoms <==> u in old(phantoms) && (u in left || AgeOf(old(phantomAge), u) + 1 < 3)
        invariant forall u :: u in left || u !in old(phantoms) ==> AgeOf(phantomAge, u) == AgeOf(old(phantomAge), u)
        invariant forall u :: u in phantoms - left ==> u in phantomAge && phantomAge[u] == AgeOf(old(phantomAge), u) + 1
        decreases left
      {
        var u :| u in left;
        left := left - {u};
        phantomAge := phantomAge[u := 1 + if u in phantomAge then phantomAge[u] else 0];
        if phantomAge[u] >= 3 {
          phantoms := phantoms - {u};
          phantomAge := phantomAge - {u};
        }
      }
      phantomAge := map u | u in phantomAge && u in phantoms :: phantomAge[u];
    }

    /** Something came, was asked for, or is still to come or to go. */
    ghost predicate UnderWay(resp: seq<Card>)
      reads this
    {
      Carried(resp) != {} || Requested(resp) != {} || phantoms != {} || pendingSend != {}
    }

    /** All cards of a response, then ageing, then the decision whether anything is left to do. */
    method ProcessResponse(resp: seq<Card>) returns (ok: bool, done: bool)
      requires repo.Valid()
      modifies this`remoteHas, this`phantoms, this`pendingSend, this`phantomAge, this`filesRecvdLastRound, repo
      ensures repo.Valid() && repo.Kept()
      ensures GoodFiles(resp, repo.contents) ==> ok
      ensures GoodFiles(resp, repo.contents) && old(repo.Harmless()) ==> repo.Harmless()
      ensures ok ==> var after := AfterCards(old(Now()), opts.pull, resp);
                     && phantoms <= after.phantoms && phantomAge.Keys <= phantoms
                     && (old(phantomAge) == map[] ==> phantoms == after.phantoms)
                     && Now() == after.(phantoms := phantoms)
                     && phantoms == Undelivered(after.phantoms, old(phantomAge)) && phantomAge == Older(phantoms, old(phantomAge))
      ensures ok ==> filesRecvdLastRound == FileCards(resp)
      ensures ok ==> repo.unsent == if UnderWay(resp) || igotSentThisRound == 0 then old(repo.unsent) else {}
      ensures ok ==> (done <==> !UnderWay(resp) && (igotSentThisRound > 0 || old(repo.unsent) == {}))
      ensures done ==> ok && repo.unsent == {}
      ensures !ok ==> repo.unsent == old(repo.unsent)
    {
      done := false;
      var filesRecvd, filesSent;
      ok, filesRecvd, filesSent := HandleCards(resp);
      if !ok {
        return;
      }
      filesRecvdLastRound := filesRecvd;
      AgePhantoms();
      if filesRecvd > 0 || filesSent > 0 {
        return;
      }
      if phantoms != {} || pendingSend != {} {
        return;
      }
      if igotSentThisRound > 0 && filesSent == 0 {
        repo.unsent := {};
      }
      if repo.unsent != {} {
        return;
      }
      done := true;
    }
  }

  lemma GoodFilesOne(cards: seq<Card>, i: nat, h: Contents)
    requires i < |cards|
    ensures GoodFiles(cards, h) ==> GoodFiles([cards[i]], h)
  {
  }

  lemma ConcatSets(a: seq<Card>, b: seq<Card>)
    ensures Announced(a + b) == Announced(a) + Announced(b)
    ensures Requested(a + b) == Requested(a) + Requested(b)
    ensures Carried(a + b) == Carried(a) + Carried(b)
  {
  }

  lemma ConcatCards(a: seq<Card>, b: seq<Card>, blob: map<Uuid, Option<Slice>>)
    ensures Announced(a + b) == Announced(a) + Announced(b)
    ensures Requested(a + b) == Requested(a) + Requested(b)
    ensures Carried(a + b) == Carried(a) + Carried(b)
    ensures NoControl(b) ==> (PushCard in a + b <==> PushCard in a) && (PullCard in a + b <==> PullCard in a)
    ensures (Carried(a) == {} || FromStore(a, blob)) && (Carried(b) == {} || FromStore(b, blob)) ==> FromStore(a + b, blob)
  {
    ConcatSets(a, b);
    forall c | c in a && c.FileCard? ensures c.uuid in Carried(a) { }
    forall c | c in b && c.FileCard? ensures c.uuid in Carried(b) { }
  }
}
