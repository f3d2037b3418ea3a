/** The blob and delta tables (internal/blob/blob.go, internal/shun/purge.go, internal/sync/client.go). */
module ContentStore {
  import opened Bytes
  import opened DeltaApply
  import opened DeltaCreate
  import opened ContentChains

  ghost predicate SameContents(blob: Blobs, delta: Deltas, blob': Blobs, delta': Deltas) {
    forall r: Rid :: Expanded(blob', delta', r) == Expanded(blob, delta, r)
  }

  /** Only the representation differs: the same names, and data or none. */
  ghost predicate SameRows(blob: Blobs, blob': Blobs) {
    blob'.Keys == blob.Keys && forall r: Rid :: r in blob ==> blob'[r].uuid == blob[r].uuid && (blob'[r].data.Some? <==> blob[r].data.Some?)
  }

  ghost predicate UniqueNames(blob: Blobs) {
    forall r: Rid, q: Rid :: r in blob && q in blob && blob[r].uuid == blob[q].uuid ==> r == q
  }

  /** Everything with data expands to a content that bears its name. */
  ghost predicate Sound(blob: Blobs, delta: Deltas, hash: Slice -> string) {
    forall r: Rid :: Load(blob, r).Some? ==> Expanded(blob, delta, r).Some? && hash(Expanded(blob, delta, r).value) == blob[r].uuid
  }

  /** Some artifact has the name. */
  ghost predicate Named(blob: Blobs, uuid: string) { exists r: Rid :: r in blob && blob[r].uuid == uuid }

  /** The phantom table lists exactly the rows without data. */
  ghost predicate PhantomsMatch(phantom: set<Rid>, blob: Blobs) { phantom == Phantoms(blob) }

  ghost function Phantoms(blob: Blobs): set<Rid> { set r | r in blob && blob[r].data.None? }

  /** The shunned artifacts, and the artifacts whose delta is based on one. */
  function Shunned(blob: Blobs, shun: set<string>): set<Rid> { set r | r in blob && blob[r].uuid in shun }

  function Dependents(delta: Deltas, dead: set<Rid>): set<Rid> { set r | r in delta && delta[r] in dead }

  datatype PurgeResult = PurgeResult(blobsDeleted: nat, deltasExpanded: nat, privateCleaned: nat)

  class Store {
    const hash: Slice -> string
    var blob: Blobs
    var delta: Deltas
    var phantom: set<Rid>
    var unclustered: set<Rid>
    var privates: set<Rid>
    var shun: set<string>

    ghost predicate Valid()
      reads this
    {
      UniqueNames(blob) && delta.Keys <= blob.Keys
    }

    /** What every way of storing keeps: whatever expanded before expands to the same content. */
    twostate predicate Kept()
      reads this
    {
      forall r: Rid :: old(Expanded(blob, delta, r)).Some? ==> Expanded(blob, delta, r) == old(Expanded(blob, delta, r))
    }

    constructor (hash: Slice -> string)
      ensures Valid() && blob == map[] && delta == map[] && phantom == {} && this.hash == hash
    {
      this.hash, blob, delta, phantom, unclustered, privates, shun := hash, map[], map[], {}, {}, {}, {};
    }

    method Exists(uuid: string) returns (r: Option<Rid>)
      ensures match r
              case Some(rid) => rid in blob && blob[rid].uuid == uuid
              case None => forall q: Rid :: q in blob ==> blob[q].uuid != uuid
    {
      if q: Rid :| q in blob && blob[q].uuid == uuid {
        return Some(q);
      }
      return None;
    }

    /** The rid of the next row: one more than the largest. */
    method NextRid() returns (rid: Rid)
      ensures forall q: Rid :: q in blob ==> q < rid
    {
      rid := 1;
      var left := blob.Keys;
      while left != {}
        invariant left <= blob.Keys && forall q: Rid :: q in blob && q !in left ==> q < rid
        decreases left
      {
        var q: Rid :| q in left;
        left := left - {q};
        if q >= rid {
          rid := q + 1;
        }
      }
    }

    /** Stores a whole content, unless its name is known already, even if only as a phantom's. */
    method StoreWhole(content: Slice) returns (rid: Rid, uuid: string)
      requires Valid() && |content| > 0
      modifies this`blob, this`unclustered
      ensures Valid() && Kept() && uuid == hash(content) && rid in blob && blob[rid].uuid == uuid
      ensures rid in old(blob) ==> blob == old(blob) && unclustered == old(unclustered)
      ensures rid !in old(blob) ==> blob == old(blob)[rid := Row(uuid, Some(content))] && unclustered == old(unclustered) + {rid}
      ensures rid !in old(blob) ==> Expanded(blob, delta, rid) == Some(content) && forall q: Rid :: q in old(blob) ==> q < rid
      ensures old(Sound(blob, delta, hash)) ==> Sound(blob, delta, hash)
      ensures Phantoms(blob) == old(Phantoms(blob))
    {
      uuid := hash(content);
      var known := Exists(uuid);
      if known.Some? {
        return known.value, uuid;
      }
      rid := NextRid();
      blob := blob[rid := Row(uuid, Some(content))];
      GrownKeeps(old(blob), delta, blob, delta);
      ExpandedUnfolds(blob, delta, rid);
      var readBack := Load(blob, rid);
      if readBack.None? || hash(readBack.value) != uuid {
        assert false; // what was written is read back
      }
      unclustered := unclustered + {rid};
    }

    /** Stores a content as a delta against the stored bytes of a source. It expands to the content exactly when
        the delta, applied to what the source expands to, gives that; in particular when the source is whole. */
    method StoreDelta(content: Slice, src: Rid) returns (r: Option<Rid>, uuid: string)
      requires Valid() && |content| > 0
      modifies this`blob, this`delta, this`unclustered
      ensures Valid() && Kept() && uuid == hash(content)
      ensures r.None? ==> blob == old(blob) && delta == old(delta) && unclustered == old(unclustered) && !Named(blob, uuid)
      ensures old(Named(blob, hash(content))) ==> r.Some? && r.value in old(blob)
      ensures old(Load(blob, src)).Some? && |old(Load(blob, src)).value| < SMALL && |content| < SMALL ==> r.Some?
      ensures r.Some? && r.value !in old(blob) ==> (forall q: Rid :: q in old(blob) ==> q < r.value)
      ensures r.Some? ==> unclustered == if r.value in old(blob) then old(unclustered) else old(unclustered) + {r.value}
      ensures r.Some? ==> r.value in blob && blob[r.value].uuid == uuid
      ensures r.Some? && r.value in old(blob) ==> blob == old(blob) && delta == old(delta)
      ensures r.Some? && r.value !in old(blob) ==>
                (blob == old(blob)[r.value := blob[r.value]] && delta == old(delta)[r.value := src] && old(Load(blob, src)).Some?
                 && Expanded(blob, delta, r.value) == Patched(Expanded(blob, delta, src), Load(blob, r.value))
                 && Patched(old(Load(blob, src)), Load(blob, r.value)) == Some(content))
      ensures r.Some? && r.value !in old(blob) && src !in old(delta) ==> Expanded(blob, delta, r.value) == Some(content)
      ensures src !in old(delta) && old(Sound(blob, delta, hash)) ==> Sound(blob, delta, hash)
      ensures Phantoms(blob) == old(Phantoms(blob))
    {
      hide IsGreedy, Expanded, Applied, Sound, UniqueNames, Phantoms, Patched;
      uuid := hash(content);
      var known := Exists(uuid);
      if known.Some? {
        return known, uuid;
      }
      var srcContent := Load(blob, src);
      if srcContent.None? {
        return None, uuid;
      }
      var deltaBytes := Create(srcContent.value, content);
      if |deltaBytes| > MAX_SLICE {
        return None, uuid; // cannot be allocated
      }
      var rid := NextRid();
      DeltaIsIn(blob, delta, rid, uuid, deltaBytes, src, content, hash);
      blob := blob[rid := Row(uuid, Some(deltaBytes))];
      delta := delta[rid := src];
      var rebuilt := Apply(srcContent.value, deltaBytes);
      if rebuilt.Err? || hash(rebuilt.value) != uuid {
        assert false; // the delta rebuilds the content
      }
      unclustered := unclustered + {rid};
      return Some(rid), uuid;
    }

    method StorePhantom(uuid: string) returns (rid: Rid)
      requires Valid() && uuid != ""
      modifies this`blob, this`phantom
      ensures Valid() && Kept() && rid in blob && blob[rid].uuid == uuid
      ensures rid in old(blob) ==> blob == old(blob) && phantom == old(phantom)
      ensures rid !in old(blob) ==> blob == old(blob)[rid := Row(uuid, None)] && phantom == old(phantom) + {rid}
      ensures old(PhantomsMatch(phantom, blob)) ==> PhantomsMatch(phantom, blob)
      ensures old(Sound(blob, delta, hash)) ==> Sound(blob, delta, hash)
    {
      var known := Exists(uuid);
      if known.Some? {
        return known.value;
      }
      rid := NextRid();
      blob := blob[rid := Row(uuid, None)];
      GrownKeeps(old(blob), delta, blob, delta);
      phantom := phantom + {rid};
    }

    /** A received whole content takes the place of a phantom. */
    method FillPhantom(rid: Rid, content: Slice)
      requires Valid() && rid in blob && blob[rid].data.None? && hash(content) == blob[rid].uuid
      modifies this`blob, this`phantom, this`unclustered
      ensures Valid() && Kept()
      ensures blob == old(blob)[rid := old(blob)[rid].(data := Some(content))] && phantom == old(phantom) - {rid}
      ensures unclustered == old(unclustered) + {rid}
      ensures old(PhantomsMatch(phantom, blob)) ==> PhantomsMatch(phantom, blob)
      ensures rid !in delta ==> Expanded(blob, delta, rid) == Some(content)
    {
      blob := blob[rid := blob[rid].(data := Some(content))];
      GrownKeeps(old(blob), delta, blob, delta);
      ExpandedUnfolds(blob, delta, rid);
      phantom := phantom - {rid};
      unclustered := unclustered + {rid};
    }

    /** Replaces every delta based on a doomed artifact by its content, in any order. */
    method UndeltaDependents(toshun: set<Rid>) returns (ok: bool, done: nat)
      modifies this`blob, this`delta
      ensures ok <==> AllExpand(old(blob), old(delta), old(Dependents(delta, toshun)))
      ensures !ok ==> done < |old(Dependents(delta, toshun))|
      ensures ok ==> done == |old(Dependents(delta, toshun))| && delta == old(delta) - old(Dependents(delta, toshun))
      ensures ok ==> SameRows(old(blob), blob) && SameContents(old(blob), old(delta), blob, delta)
    {
      hide Undoing, AllExpand, SameRows, SameContents, Dependents, Expanded;
      var dependents := Dependents(delta, toshun);
      var left := dependents;
      done := 0;
      NothingUndone(blob, delta, dependents);
      while left != {}
        invariant left <= dependents && done == |dependents - left|
        invariant Undoing(old(blob), old(delta), dependents, left, blob, delta)
        decreases left
      {
        var r: Rid :| r in left;
        var expanded := Expand(blob, delta, r);
        if expanded.None? {
          UndoFails(old(blob), old(delta), dependents, left, blob, delta, r);
          assert dependents == (dependents - left) + left && |dependents| == |dependents - left| + |left|;
          return false, done;
        }
        UndoOne(old(blob), old(delta), dependents, left, blob, delta, r, expanded.value);
        blob := blob[r := blob[r].(data := Some(expanded.value))];
        delta := delta - {r};
        assert dependents - (left - {r}) == (dependents - left) + {r};
        left := left - {r};
        done := done + 1;
      }
      AllUndone(old(blob), old(delta), dependents, blob, delta);
      assert dependents - left == dependents;
      return true, done;
    }

    /** Removes the shunned artifacts, after replacing every delta based on one of them by its content. It fails,
        and then changes nothing, exactly when such a delta does not expand; the result then still counts the deltas
        that had been replaced before, and not all of them. */
    method Purge() returns (ok: bool, result: PurgeResult)
      requires Valid()
      modifies this`blob, this`delta, this`privates
      ensures Valid()
      ensures ok <==> AllExpand(old(blob), old(delta), old(Dependents(delta, Shunned(blob, shun))))
      ensures ok ==> Purged(old(blob), old(delta), old(privates), old(Shunned(blob, shun)), blob, delta, privates)
      ensures ok ==> result == PurgeResult(|old(Shunned(blob, shun))|, |old(Dependents(delta, Shunned(blob, shun)))|, |old(privates) - privates|)
      ensures !ok ==> blob == old(blob) && delta == old(delta) && privates == old(privates)
      ensures !ok ==> result == PurgeResult(0, result.deltasExpanded, 0)
                      && result.deltasExpanded < |old(Dependents(delta, Shunned(blob, shun)))|
    {
      hide Expanded, SameRows, SameContents, NoSourceIn, AllExpand, Purged, UniqueNames, Dependents, Load, Patched;
      var savedBlob, savedDelta := blob, delta;
      var toshun := Shunned(blob, shun);
      var done;
      ok, done := UndeltaDependents(toshun);
      if !ok {
        blob, delta := savedBlob, savedDelta; // the transaction is rolled back
        return false, PurgeResult(0, done, 0);
      }
      ghost var blob1, delta1 := blob, delta;
      delta := delta - toshun;
      blob := blob - toshun;
      var cleaned := set r | r in privates && r !in blob;
      privates := privates - cleaned;
      assert cleaned == old(privates) - privates;
      result := PurgeResult(|toshun|, done, |cleaned|);
      PurgeStep(old(blob), old(delta), old(privates), blob1, delta1, toshun, cleaned);
    }
  }

  ghost predicate AllExpand(blob: Blobs, delta: Deltas, rids: set<Rid>) {
    forall r: Rid :: r in rids ==> Expanded(blob, delta, r).Some?
  }

  /** A new row with a delta that gives the content. */
  lemma DeltaIsIn(blob: Blobs, delta: Deltas, rid: Rid, uuid: string, bytes: Slice, src: Rid, content: Slice, hash: Slice -> string)
    requires UniqueNames(blob) && delta.Keys <= blob.Keys && (forall q: Rid :: q in blob ==> q < rid && blob[q].uuid != uuid)
    requires Load(blob, src).Some? && Applied(Load(blob, src).value, bytes) == Ok(content) && hash(content) == uuid
    ensures var blob', delta' := blob[rid := Row(uuid, Some(bytes))], delta[rid := src];
            && UniqueNames(blob') && (forall r: Rid :: Expanded(blob, delta, r).Some? ==> Expanded(blob', delta', r) == Expanded(blob, delta, r))
            && Expanded(blob', delta', rid) == Patched(Expanded(blob', delta', src), Load(blob', rid))
            && Patched(Load(blob, src), Load(blob', rid)) == Some(content)
            && (src !in delta ==> Expanded(blob', delta', rid) == Some(content) && (Sound(blob, delta, hash) ==> Sound(blob', delta', hash)))
            && Phantoms(blob') == Phantoms(blob)
  {
    var blob', delta' := blob[rid := Row(uuid, Some(bytes))], delta[rid := src];
    GrownKeeps(blob, delta, blob', delta');
    ExpandedUnfolds(blob', delta', rid);
    ExpandedUnfolds(blob, delta, src);
    hide Expanded, Applied;
  }

  /** What a purge leaves: the names that are not dead, with their contents, and no delta based on a dead one. */
  ghost predicate Purged(blob0: Blobs, delta0: Deltas, privates0: set<Rid>, dead: set<Rid>,
                         blob: Blobs, delta: Deltas, privates: set<Rid>) {
    && blob.Keys == blob0.Keys - dead && SameRows(blob0 - dead, blob)
    && delta == delta0 - Dependents(delta0, dead) - dead && NoSourceIn(delta, dead)
    && (forall r: Rid :: r in blob ==> Expanded(blob, delta, r) == Expanded(blob0, delta0, r))
    && privates == privates0 * blob.Keys
  }

  /** A purge keeps the names unique, the deltas in the table, and whatever bears its name. */
  lemma PurgedIsSound(blob0: Blobs, delta0: Deltas, privates0: set<Rid>, dead: set<Rid>,
                      blob: Blobs, delta: Deltas, privates: set<Rid>, hash: Slice -> string)
    requires Purged(blob0, delta0, privates0, dead, blob, delta, privates)
    ensures UniqueNames(blob0) ==> UniqueNames(blob)
    ensures Sound(blob0, delta0, hash) ==> Sound(blob, delta, hash)
    ensures forall r: Rid :: r in delta && r in delta0 && delta0[r] in blob0 ==> delta[r] in blob
  {
    hide Expanded, Dependents;
  }

  /** The phantom table is not purged: it stays right exactly when no phantom was shunned. */
  lemma PurgedPhantoms(blob0: Blobs, delta0: Deltas, privates0: set<Rid>, dead: set<Rid>,
                       blob: Blobs, delta: Deltas, privates: set<Rid>, phantom: set<Rid>)
    requires Purged(blob0, delta0, privates0, dead, blob, delta, privates) && PhantomsMatch(phantom, blob0)
    ensures PhantomsMatch(phantom, blob) <==> forall r :: r in phantom ==> r !in dead
  {
    hide Expanded, Dependents;
    assert Phantoms(blob) == Phantoms(blob0) - dead;
  }

  /** For one, when the only artifact is a phantom and shunned. */
  lemma ShunnedPhantomIsLeft(uuid: string, privates: set<Rid>)
    ensures var blob0: Blobs := map[1 := Row(uuid, None)];
            && PhantomsMatch({1}, blob0) && Shunned(blob0, {uuid}) == {1}
            && Purged(blob0, map[], privates, {1}, map[], map[], {}) && !PhantomsMatch({1}, map[])
  {
    hide Expanded;
    var blob0: Blobs := map[1 := Row(uuid, None)];
    var none: Blobs := map[];
    assert 1 in Phantoms(blob0) && 1 in Shunned(blob0, {uuid});
    assert blob0 - {1} == none;
  }

  lemma PurgeStep(blob0: Blobs, delta0: Deltas, privates0: set<Rid>, blob: Blobs, delta: Deltas, dead: set<Rid>,
                  cleaned: set<Rid>)
    requires SameRows(blob0, blob) && SameContents(blob0, delta0, blob, delta)
    requires delta == delta0 - Dependents(delta0, dead) && delta0.Keys <= blob0.Keys
    requires cleaned == set r | r in privates0 && r !in blob - dead
    ensures Purged(blob0, delta0, privates0, dead, blob - dead, delta - dead, privates0 - cleaned)
    ensures (delta - dead).Keys <= (blob - dead).Keys && (UniqueNames(blob0) ==> UniqueNames(blob - dead))
  {
    hide Expanded, Dependents;
    NoneLeft(delta0, dead);
    forall r: Rid | r in blob - dead ensures Expanded(blob - dead, delta - dead, r) == Expanded(blob0, delta0, r) {
      RemovalKeeps(blob, delta, dead, r);
    }
  }

  /** Some of the dependents have become whole; all contents and rows are the same. */
  ghost predicate Undoing(blob0: Blobs, delta0: Deltas, dependents: set<Rid>, left: set<Rid>, blob: Blobs, delta: Deltas) {
    && delta == delta0 - (dependents - left) && AllExpand(blob0, delta0, dependents - left)
    && SameRows(blob0, blob) && SameContents(blob0, delta0, blob, delta)
  }

  lemma NothingUndone(blob: Blobs, delta: Deltas, dependents: set<Rid>)
    ensures Undoing(blob, delta, dependents, dependents, blob, delta)
  {
    assert dependents - dependents == {};
  }

  lemma UndoFails(blob0: Blobs, delta0: Deltas, dependents: set<Rid>, left: set<Rid>, blob: Blobs, delta: Deltas, r: Rid)
    requires Undoing(blob0, delta0, dependents, left, blob, delta) && r in dependents && Expanded(blob, delta, r).None?
    ensures !AllExpand(blob0, delta0, dependents)
  {
    hide Expanded;
  }

  lemma UndoOne(blob0: Blobs, delta0: Deltas, dependents: set<Rid>, left: set<Rid>, blob: Blobs, delta: Deltas, r: Rid, c: Slice)
    requires Undoing(blob0, delta0, dependents, left, blob, delta) && r in left && left <= dependents && Expanded(blob, delta, r) == Some(c)
    ensures r in blob
    ensures Undoing(blob0, delta0, dependents, left - {r}, blob[r := blob[r].(data := Some(c))], delta - {r})
  {
    UndeltaStep(blob0, delta0, blob, delta, r, c);
    hide Expanded, SameRows, SameContents;
    assert dependents - (left - {r}) == (dependents - left) + {r};
  }

  lemma AllUndone(blob0: Blobs, delta0: Deltas, dependents: set<Rid>, blob: Blobs, delta: Deltas)
    requires Undoing(blob0, delta0, dependents, {}, blob, delta)
    ensures AllExpand(blob0, delta0, dependents) && delta == delta0 - dependents
    ensures SameRows(blob0, blob) && SameContents(blob0, delta0, blob, delta)
  {
    assert dependents - {} == dependents;
  }

  lemma UndeltaStep(blob0: Blobs, delta0: Deltas, blob: Blobs, delta: Deltas, x: Rid, c: Slice)
    requires SameRows(blob0, blob) && SameContents(blob0, delta0, blob, delta) && Expanded(blob, delta, x) == Some(c)
    ensures x in blob && Expanded(blob0, delta0, x).Some?
    ensures SameRows(blob0, blob[x := blob[x].(data := Some(c))])
    ensures SameContents(blob0, delta0, blob[x := blob[x].(data := Some(c))], delta - {x})
  {
    hide Expanded;
    ExpandedUnfolds(blob, delta, x);
    forall r: Rid ensures Expanded(blob[x := blob[x].(data := Some(c))], delta - {x}, r) == Expanded(blob, delta, r) {
      UndeltaKeeps(blob, delta, x, c, r);
    }
  }

  lemma NoneLeft(delta: Deltas, dead: set<Rid>)
    ensures NoSourceIn(delta - Dependents(delta, dead), dead)
  {
  }

  lemma GrownKeeps(blob: Blobs, delta: Deltas, blob': Blobs, delta': Deltas)
    requires Grown(blob, delta, blob', delta')
    ensures forall r: Rid :: Expanded(blob, delta, r).Some? ==> Expanded(blob', delta', r) == Expanded(blob, delta, r)
  {
    forall r: Rid | Expanded(blob, delta, r).Some? ensures Expanded(blob', delta', r) == Expanded(blob, delta, r) {
      GrowthKeeps(blob, delta, blob', delta', r);
    }
  }
}
