/** A repository as sync sees it: artifacts by uuid (internal/sync/client.go: `storeReceivedFile`,
    `resolveFileContent`; internal/blob/blob.go: `Exists`, `StorePhantom`), and which of them are only known by name. */
module SyncStore {
  import opened Bytes
  import opened DeltaApply

  type Uuid = string

  /** Which strings are artifact names, which name a content has under the algorithm of a given name, and which contents
      make the manifest parser panic. */
  datatype Contents = Contents(valid: Uuid -> bool, of: (Uuid, Slice) -> Uuid, panics: Slice -> bool)

  datatype StoreResult = Stored | InvalidUuid | DeltaSourceMissing | SourceUnreadable | BadDelta | HashMismatch | Crashed

  class Repo {
    const contents: Contents
    var blob: map<Uuid, Option<Slice>> // None is a blob of size -1
    var phantom: set<Uuid>
    var unclustered: set<Uuid>
    var unsent: set<Uuid>

    /** The artifacts that are really there. */
    ghost function Has(): set<Uuid>
      reads this
    {
      set u | u in blob && blob[u].Some?
    }

    ghost predicate Genuine(u: Uuid, content: Slice) {
      contents.valid(u) && contents.of(u, content) == u
    }

    /** The phantom table is exactly the blobs without content; every other content bears its own name. */
    ghost predicate Valid()
      reads this
    {
      && phantom == (set u | u in blob && blob[u].None?)
      && (forall u :: u in Has() ==> Genuine(u, blob[u].value))
      && unclustered <= blob.Keys && unsent <= blob.Keys
    }

    /** No content makes the manifest parser panic. */
    ghost predicate Harmless()
      reads this
    {
      forall u :: u in Has() ==> !contents.panics(blob[u].value)
    }

    /** Real artifacts neither change nor vanish. */
    twostate predicate Kept()
      reads this
    {
      forall u :: u in old(Has()) ==> u in Has() && blob[u] == old(blob[u])
    }

    lemma PhantomsAreKeys()
      requires Valid()
      ensures phantom == blob.Keys - Has()
    {
    }

    lemma WithoutPhantoms()
      requires Valid()
      ensures phantom == {} <==> blob.Keys == Has()
    {
      if phantom == {} {
        forall u | u in blob ensures u in Has() { assert u !in phantom; }
      }
    }

    constructor (contents: Contents)
      ensures Valid() && blob == map[] && this.contents == contents
    {
      this.contents, blob, phantom, unclustered, unsent := contents, map[], {}, {}, {};
    }

    /** Phantoms count as existing. */
    method Exists(u: Uuid) returns (b: bool)
      ensures b <==> u in blob
    {
      b := u in blob;
    }

    method Expand(u: Uuid) returns (r: Option<Slice>)
      ensures r == if u in blob then blob[u] else None
    {
      r := if u in blob then blob[u] else None;
    }

    method StorePhantom(u: Uuid)
      requires Valid()
      modifies this
      ensures Valid() && Kept() && Has() == old(Has())
      ensures blob == if u in old(blob) then old(blob) else old(blob)[u := None]
      ensures unclustered == old(unclustered) && unsent == old(unsent)
    {
      if u in blob {
        return;
      }
      blob := blob[u := None];
      phantom := phantom + {u};
    }

    /** The content a file card stands for: its payload, or the payload applied to the delta source. */
    method ResolveFileContent(deltaSrc: Uuid, payload: Slice) returns (r: Result<Slice, StoreResult>)
      ensures r == Resolved(deltaSrc, payload)
    {
      if deltaSrc == "" {
        return Ok(payload);
      }
      var exists_ := Exists(deltaSrc);
      if !exists_ {
        return Err(DeltaSourceMissing);
      }
      var base := Expand(deltaSrc);
      if base == None {
        return Err(SourceUnreadable);
      }
      var applied := Apply(base.value, payload);
      if applied.Err? {
        return Err(if applied.error == AllocationPanic then Crashed else BadDelta);
      }
      ghost var cs := AppliedIsMeaning(base.value, payload);
      return Ok(applied.value);
    }

    ghost function Resolved(deltaSrc: Uuid, payload: Slice): (r: Result<Slice, StoreResult>)
      reads this
      ensures r.Err? ==> r.error != Stored
    {
      if deltaSrc == "" then Ok(payload)
      else if deltaSrc !in blob then Err(DeltaSourceMissing)
      else match blob[deltaSrc]
           case None => Err(SourceUnreadable)
           case Some(base) =>
             match Applied(base, payload)
             case Err(e) => Err(if e == AllocationPanic then Crashed else BadDelta)
             case Ok(content) => if |content| <= MAX_SLICE then Ok(content) else Err(BadDelta)
    }

    /** What a file card resolves to: its payload alone, or what some list of copies and insertions builds out of an
        artifact that is really there. It fails for want of the source only when nothing bears its name. */
    lemma ResolvedIsMeaning(deltaSrc: Uuid, payload: Slice) returns (cs: seq<Command>)
      ensures deltaSrc == "" ==> Resolved(deltaSrc, payload) == Ok(payload)
      ensures deltaSrc != "" && Resolved(deltaSrc, payload).Ok? ==>
                deltaSrc in Has() && AllInSource(blob[deltaSrc].value, cs)
                && Resolved(deltaSrc, payload).value == Meaning(blob[deltaSrc].value, cs)
      ensures Resolved(deltaSrc, payload) == Err(DeltaSourceMissing) <==> deltaSrc != "" && deltaSrc !in blob
      ensures Resolved(deltaSrc, payload) == Err(SourceUnreadable) <==> deltaSrc != "" && deltaSrc in blob && deltaSrc !in Has()
    {
      cs := [];
      if deltaSrc != "" && Resolved(deltaSrc, payload).Ok? {
        cs := AppliedIsMeaning(blob[deltaSrc].value, payload);
      }
    }

    /** The content of a file card resolves and bears the name. */
    ghost predicate Bears(u: Uuid, deltaSrc: Uuid, payload: Slice)
      reads this
    {
      contents.valid(u) && Resolved(deltaSrc, payload).Ok? && contents.of(u, Resolved(deltaSrc, payload).value) == u
    }

    /** Storing a received file: refused unless the content bears the name; an artifact that is already
        there stays as it is, a phantom is filled. The content of a new one is parsed as a manifest before it is
        committed; if that panics, or the allocation for a delta's target does, nothing is stored. */
    method StoreReceivedFile(u: Uuid, deltaSrc: Uuid, payload: Slice) returns (r: StoreResult)
      requires Valid()
      modifies this
      ensures Valid() && Kept()
      ensures r == Stored <==> old(Bears(u, deltaSrc, payload))
                               && (u in old(blob) || !contents.panics(old(Resolved(deltaSrc, payload)).value))
      ensures r != Stored ==> r == if !contents.valid(u) then InvalidUuid
                                   else if old(Resolved(deltaSrc, payload)).Err? then old(Resolved(deltaSrc, payload)).error
                                   else if !old(Bears(u, deltaSrc, payload)) then HashMismatch
                                   else Crashed
      ensures r == Stored ==> blob == if u in old(Has()) then old(blob) else old(blob)[u := Some(old(Resolved(deltaSrc, payload)).value)]
      ensures r == Stored ==> unclustered == if u in old(Has()) then old(unclustered) else old(unclustered) + {u}
      ensures r == Stored ==> Has() == old(Has()) + {u} && blob.Keys == old(blob.Keys) + {u}
      ensures r != Stored ==> blob == old(blob) && unclustered == old(unclustered)
      ensures unsent == old(unsent)
    {
      if !contents.valid(u) {
        return InvalidUuid;
      }
      var content := ResolveFileContent(deltaSrc, payload);
      if content.Err? {
        return content.error;
      }
      var computed := contents.of(u, content.value);
      if computed != u {
        return HashMismatch;
      }
      if u in blob {
        if blob[u].Some? {
          return Stored;
        }
        blob := blob[u := Some(content.value)];
        phantom := phantom - {u};
        unclustered := unclustered + {u};
        return Stored;
      }
      if contents.panics(content.value) {
        return Crashed; // the transaction is rolled back
      }
      blob := blob[u := Some(content.value)];
      unclustered := unclustered + {u};
      return Stored;
    }
  }
}
