/** Delta chains (internal/content/content.go): what an artifact expands to, however it is represented. */
module ContentChains {
  import opened Bytes
  import opened DeltaApply

  type Rid = r: int | 0 < r witness 1

  /** A row of the blob table; a phantom has no data. A row with a delta source holds a delta. */
  datatype Row = Row(uuid: string, data: Option<Slice>)

  type Blobs = map<Rid, Row>
  type Deltas = map<Rid, Rid>

  function Load(blob: Blobs, r: Rid): Option<Slice> { if r in blob then blob[r].data else None }

  /** Applying a delta to a base that may be missing. */
  ghost function Patched(base: Option<Slice>, delta: Option<Slice>): (r: Option<Slice>)
    ensures r.Some? ==> base.Some? && delta.Some?
  {
    if base.None? || delta.None? then None
    else match Applied(base.value, delta.value)
         case Err(_) => None
         case Ok(v) => if |v| <= MAX_SLICE then Some(v) else None
  }

  /** The content of an artifact whose delta chain has at most `depth` links. */
  ghost function Unfold(blob: Blobs, delta: Deltas, r: Rid, depth: nat): Option<Slice>
    decreases depth
  {
    if r !in delta then Load(blob, r)
    else if depth == 0 then None
    else Patched(Unfold(blob, delta, delta[r], depth - 1), Load(blob, r))
  }

  ghost predicate Expands(blob: Blobs, delta: Deltas, r: Rid) {
    exists d: nat :: Unfold(blob, delta, r, d).Some?
  }

  /** The content of an artifact, if its chain ends in a whole blob and every delta applies. */
  ghost function Expanded(blob: Blobs, delta: Deltas, r: Rid): Option<Slice> {
    if Expands(blob, delta, r) then var d: nat :| Unfold(blob, delta, r, d).Some?; Unfold(blob, delta, r, d) else None
  }

  lemma {:induction false} DeeperIsSame(blob: Blobs, delta: Deltas, r: Rid, d: nat, e: nat)
    requires d <= e && Unfold(blob, delta, r, d).Some?
    ensures Unfold(blob, delta, r, e) == Unfold(blob, delta, r, d)
    decreases d
  {
    hide Patched;
    if r in delta { DeeperIsSame(blob, delta, delta[r], d - 1, e - 1); }
  }

  lemma ExpandedAtDepth(blob: Blobs, delta: Deltas, r: Rid, d: nat)
    requires Unfold(blob, delta, r, d).Some?
    ensures Expanded(blob, delta, r) == Unfold(blob, delta, r, d)
  {
    hide Unfold;
    var e: nat :| Unfold(blob, delta, r, e).Some? && Expanded(blob, delta, r) == Unfold(blob, delta, r, e);
    DeeperIsSame(blob, delta, r, d, d + e);
    DeeperIsSame(blob, delta, r, e, d + e);
  }

  /** Expansion step by step. */
  lemma ExpandedUnfolds(blob: Blobs, delta: Deltas, r: Rid)
    ensures r !in delta ==> Expanded(blob, delta, r) == Load(blob, r)
    ensures r in delta ==> Expanded(blob, delta, r) == Patched(Expanded(blob, delta, delta[r]), Load(blob, r))
  {
    if r !in delta {
      if Load(blob, r).Some? { ExpandedAtDepth(blob, delta, r, 0); }
    } else {
      if Expanded(blob, delta, r).Some? {
        var d: nat :| Unfold(blob, delta, r, d).Some?;
        ExpandedAtDepth(blob, delta, r, d);
        ExpandedAtDepth(blob, delta, delta[r], d - 1);
      } else if Expanded(blob, delta, delta[r]).Some? {
        var d: nat :| Unfold(blob, delta, delta[r], d).Some?;
        ExpandedAtDepth(blob, delta, delta[r], d);
        if Unfold(blob, delta, r, d + 1).Some? { ExpandedAtDepth(blob, delta, r, d + 1); }
      }
    }
  }

  /** A set of deltas that are all based on each other. */
  ghost predicate Closed(delta: Deltas, c: set<Rid>) {
    forall q: Rid :: q in c ==> q in delta && delta[q] in c
  }

  ghost predicate NoSourceIn(delta: Deltas, dead: set<Rid>) {
    forall q: Rid :: q in delta ==> delta[q] !in dead
  }

  /** Nothing in a closed set of deltas ever reaches a whole blob. */
  lemma {:induction false} CycleNeverExpands(blob: Blobs, delta: Deltas, c: set<Rid>, r: Rid, d: nat)
    requires r in c && Closed(delta, c)
    ensures Unfold(blob, delta, r, d).None?
    decreases d
  {
    if d > 0 { CycleNeverExpands(blob, delta, c, delta[r], d - 1); }
  }

  ghost predicate Link(delta: Deltas, r: Rid, source: Rid) {
    r in delta && delta[r] == source
  }

  /** A chain from the whole blob to the artifact. */
  ghost predicate IsChain(delta: Deltas, chain: seq<Rid>) {
    && chain != [] && chain[0] !in delta
    && forall i, j :: 0 <= i && j == i + 1 < |chain| ==> Link(delta, chain[j], chain[i])
  }

  /** The links of a chain from the artifact down, as they are found. */
  ghost predicate IsWalk(delta: Deltas, walk: seq<Rid>) {
    forall i, j :: 0 <= i && j == i + 1 < |walk| ==> Link(delta, walk[i], walk[j])
  }

  function Reversed(walk: seq<Rid>): seq<Rid> { seq(|walk|, i requires 0 <= i < |walk| => walk[|walk| - 1 - i]) }

  /** A walk that has come to a whole blob is a chain backwards. */
  lemma WalkIsChain(delta: Deltas, walk: seq<Rid>)
    requires IsWalk(delta, walk) && walk != [] && walk[|walk| - 1] !in delta
    ensures IsChain(delta, Reversed(walk)) && Reversed(walk)[|walk| - 1] == walk[0]
  {
    var chain, n := Reversed(walk), |walk|;
    forall i, j | 0 <= i && j == i + 1 < n ensures Link(delta, chain[j], chain[i]) {
      assert chain[j] == walk[n - 1 - j] && chain[i] == walk[n - 1 - i];
      assert Link(delta, walk[n - 1 - j], walk[n - 1 - i]);
    }
  }

  /** A walk that has come back to itself never gets to a whole blob. */
  lemma WalkIsClosed(delta: Deltas, walk: seq<Rid>, current: Rid)
    requires IsWalk(delta, walk + [current]) && current in walk
    ensures Closed(delta, set q | q in walk) && (walk + [current])[0] in walk
  {
    forall q: Rid | q in walk ensures q in delta && delta[q] in walk {
      var i :| 0 <= i < |walk| && walk[i] == q;
      assert Link(delta, (walk + [current])[i], (walk + [current])[i + 1]);
    }
  }

  /** Follows the delta sources to the root, root first; a cycle is an error. */
  method WalkDeltaChain(delta: Deltas, rid: Rid) returns (r: Option<seq<Rid>>)
    ensures match r
            case Some(chain) => IsChain(delta, chain) && chain[|chain| - 1] == rid
            case None => exists c :: rid in c && Closed(delta, c)
  {
    var current := rid;
    var seen: set<Rid> := {};
    var chain: seq<Rid> := [];
    while true
      invariant (forall q: Rid :: q in seen <==> q in chain) && seen <= delta.Keys
      invariant IsWalk(delta, chain + [current]) && (chain + [current])[0] == rid
      decreases delta.Keys - seen
    {
      if current in seen {
        WalkIsClosed(delta, chain, current);
        return None;
      }
      seen := seen + {current};
      chain := chain + [current];
      if current !in delta {
        break;
      }
      current := delta[current];
    }
    WalkIsChain(delta, chain);
    ghost var walk := chain;
    var i, j := 0, |chain| - 1;
    while i < j
      invariant 0 <= i <= j + 1 && i + j == |walk| - 1 && |chain| == |walk|
      invariant forall k :: i <= k <= j ==> chain[k] == walk[k]
      invariant forall k :: 0 <= k < i || j < k < |walk| ==> chain[k] == walk[|walk| - 1 - k]
    {
      chain := chain[i := chain[j]][j := chain[i]];
      i, j := i + 1, j - 1;
    }
    assert chain == Reversed(walk);
    return Some(chain);
  }

  /** Along a chain, the depth of an artifact is its place. */
  lemma {:induction false} ChainDepth(blob: Blobs, delta: Deltas, chain: seq<Rid>, k: nat)
    requires IsChain(delta, chain) && k < |chain|
    ensures Expanded(blob, delta, chain[k]) == Unfold(blob, delta, chain[k], k)
    ensures k > 0 ==> Unfold(blob, delta, chain[k], k) == Patched(Unfold(blob, delta, chain[k - 1], k - 1), Load(blob, chain[k]))
  {
    ExpandedUnfolds(blob, delta, chain[k]);
    if k > 0 {
      var j := k - 1;
      assert Link(delta, chain[k], chain[j]);
      ChainDepth(blob, delta, chain, j);
    }
  }

  /** Once a link fails, everything above it does. */
  lemma {:induction false} BrokenChain(blob: Blobs, delta: Deltas, chain: seq<Rid>, i: nat, k: nat)
    requires IsChain(delta, chain) && i <= k < |chain| && Unfold(blob, delta, chain[i], i).None?
    ensures Expanded(blob, delta, chain[k]).None?
    decreases k
  {
    ChainDepth(blob, delta, chain, k);
    if i < k {
      BrokenChain(blob, delta, chain, i, k - 1);
      ChainDepth(blob, delta, chain, k - 1);
    }
  }

  /** Loads the root and applies the deltas one after the other. */
  method Expand(blob: Blobs, delta: Deltas, rid: Rid) returns (r: Option<Slice>)
    ensures r == Expanded(blob, delta, rid)
  {
    var chain := WalkDeltaChain(delta, rid);
    if chain.None? {
      ghost var c :| rid in c && Closed(delta, c);
      forall d: nat ensures Unfold(blob, delta, rid, d).None? { CycleNeverExpands(blob, delta, c, rid, d); }
      return None;
    }
    var path := chain.value;
    r := Load(blob, path[0]);
    if r.None? {
      BrokenChain(blob, delta, path, 0, |path| - 1);
      return None;
    }
    var content := r.value;
    for i := 1 to |path|
      invariant Unfold(blob, delta, path[i - 1], i - 1) == Some(content)
    {
      ChainDepth(blob, delta, path, i);
      var deltaBytes := Load(blob, path[i]);
      if deltaBytes.None? {
        BrokenChain(blob, delta, path, i, |path| - 1);
        return None;
      }
      var applied := Apply(content, deltaBytes.value);
      if applied.Err? {
        BrokenChain(blob, delta, path, i, |path| - 1);
        return None;
      }
      ghost var cs := AppliedIsMeaning(content, deltaBytes.value);
      content := applied.value;
    }
    ChainDepth(blob, delta, path, |path| - 1);
    return Some(content);
  }

  // ----- changes of representation that leave contents alone -----

  /** Replacing a delta by its expansion changes no content, neither its own nor that of any other artifact. */
  lemma UndeltaKeeps(blob: Blobs, delta: Deltas, x: Rid, c: Slice, r: Rid)
    requires x in blob && Expanded(blob, delta, x) == Some(c)
    ensures Expanded(blob[x := blob[x].(data := Some(c))], delta - {x}, r) == Expanded(blob, delta, r)
  {
    var blob', delta' := blob[x := blob[x].(data := Some(c))], delta - {x};
    if d: nat :| Unfold(blob, delta, r, d).Some? {
      UndeltaForward(blob, delta, x, c, r, d);
      ExpandedAtDepth(blob, delta, r, d);
      ExpandedAtDepth(blob', delta', r, d);
    } else if d: nat :| Unfold(blob', delta', r, d).Some? {
      UndeltaBackward(blob, delta, x, c, r, d);
      ExpandedAtDepth(blob', delta', r, d);
    }
  }

  lemma {:induction false} UndeltaForward(blob: Blobs, delta: Deltas, x: Rid, c: Slice, r: Rid, d: nat)
    requires x in blob && Expanded(blob, delta, x) == Some(c) && Unfold(blob, delta, r, d).Some?
    ensures Unfold(blob[x := blob[x].(data := Some(c))], delta - {x}, r, d) == Unfold(blob, delta, r, d)
    decreases d
  {
    hide Patched;
    if r == x {
      ExpandedAtDepth(blob, delta, r, d);
    } else if r in delta {
      UndeltaForward(blob, delta, x, c, delta[r], d - 1);
    }
  }

  lemma {:induction false} UndeltaBackward(blob: Blobs, delta: Deltas, x: Rid, c: Slice, r: Rid, d: nat)
    requires x in blob && Expanded(blob, delta, x) == Some(c)
    requires Unfold(blob[x := blob[x].(data := Some(c))], delta - {x}, r, d).Some?
    ensures Expanded(blob, delta, r) == Unfold(blob[x := blob[x].(data := Some(c))], delta - {x}, r, d)
    decreases d
  {
    hide Patched, Expanded;
    if r != x {
      ExpandedUnfolds(blob, delta, r);
      if r in delta { UndeltaBackward(blob, delta, x, c, delta[r], d - 1); }
    }
  }

  /** Removing artifacts that no delta is based on changes no other content. */
  lemma RemovalKeeps(blob: Blobs, delta: Deltas, dead: set<Rid>, r: Rid)
    requires r !in dead && NoSourceIn(delta, dead)
    ensures Expanded(blob - dead, delta - dead, r) == Expanded(blob, delta, r)
  {
    forall d: nat ensures Unfold(blob - dead, delta - dead, r, d) == Unfold(blob, delta, r, d) {
      RemovalKeepsDepth(blob, delta, dead, r, d);
    }
    if d: nat :| Unfold(blob, delta, r, d).Some? {
      ExpandedAtDepth(blob, delta, r, d);
      ExpandedAtDepth(blob - dead, delta - dead, r, d);
    }
  }

  lemma {:induction false} RemovalKeepsDepth(blob: Blobs, delta: Deltas, dead: set<Rid>, r: Rid, d: nat)
    requires r !in dead && NoSourceIn(delta, dead)
    ensures Unfold(blob - dead, delta - dead, r, d) == Unfold(blob, delta, r, d)
    decreases d
  {
    hide Patched;
    if r in delta && d > 0 { RemovalKeepsDepth(blob, delta, dead, delta[r], d - 1); }
  }

  /** What storing does: artifacts with data keep their rows; others may come or be filled. */
  ghost predicate Grown(blob: Blobs, delta: Deltas, blob': Blobs, delta': Deltas) {
    forall r: Rid :: Load(blob, r).Some? ==>
      && Load(blob', r) == Load(blob, r)
      && (r in delta' <==> r in delta) && (r in delta ==> delta'[r] == delta[r])
  }

  /** Whatever expands goes on expanding to the same content. */
  lemma GrowthKeeps(blob: Blobs, delta: Deltas, blob': Blobs, delta': Deltas, r: Rid)
    requires Grown(blob, delta, blob', delta') && Expanded(blob, delta, r).Some?
    ensures Expanded(blob', delta', r) == Expanded(blob, delta, r)
  {
    var d: nat :| Unfold(blob, delta, r, d).Some?;
    GrowthKeepsDepth(blob, delta, blob', delta', r, d);
    ExpandedAtDepth(blob, delta, r, d);
    ExpandedAtDepth(blob', delta', r, d);
  }

  lemma {:induction false} GrowthKeepsDepth(blob: Blobs, delta: Deltas, blob': Blobs, delta': Deltas, r: Rid, d: nat)
    requires Grown(blob, delta, blob', delta') && Unfold(blob, delta, r, d).Some?
    ensures Unfold(blob', delta', r, d) == Unfold(blob, delta, r, d)
    decreases d
  {
    hide Patched;
    assert Load(blob, r).Some?;
    if r in delta { GrowthKeepsDepth(blob, delta, blob', delta', delta[r], d - 1); }
  }
}
