/** Runs of checkins and tag changes: the tag index against its definition. */
module TagRuns {
  import opened Bytes
  import opened TagIndex
  import opened TagStore

  datatype Op =
    | CheckinOp(n: Rid, parent: Rid, mergeParents: seq<Rid>, time: int, tags: seq<TagCard>)
    | TagOp(target: Rid, src: Rid, w: Walk)
    | PropagateOp(rid: Rid)

  /** What a repository holds, apart from the index and the leaf table that go with it. */
  datatype State = State(checkins: set<Rid>, prim: Forest, merges: set<(Rid, Rid)>, direct: TagTable, nextRid: Rid)

  ghost function StateOf(repo: Repo): State
    reads repo
  {
    State(repo.checkins, repo.prim, repo.merges, repo.direct, repo.nextRid)
  }

  /** Newer than every row of its tag. */
  predicate Newer(t: TagTable, w: Walk) {
    forall k: Key :: k in t && k.tag == w.tag ==> t[k].mtime < w.mtime
  }

  /** The same, of the rows that there should be. */
  ghost predicate NewerThanAll(s: State, w: Walk) {
    && IsForest(s.prim)
    && forall r: Rid :: var row := Effective(s.prim, s.direct, Key(r, w.tag)); row.Some? ==> row.value.mtime < w.mtime
  }

  /** What can be asked of a repository: a new checkin on checkins that are there, a propagating or cancelling
      tag on one of them, newer than all rows of that tag, or passing on the tags of any checkin again. */
  ghost predicate Enabled(s: State, op: Op) {
    match op
    case CheckinOp(n, parent, mergeParents, _, _) =>
      s.nextRid <= n && n > 0 && (parent == 0 || parent in s.checkins)
      && forall p :: p in mergeParents ==> p == 0 || p in s.checkins
    case TagOp(target, src, w) =>
      target < s.nextRid && src != 0 && w.origid == target && w.kind != Singleton && NewerThanAll(s, w)
    case PropagateOp(_) => true
  }

  /** What an operation makes of the state: a checkin is added below its parents with the rows of its own tag cards, a
      tag sets one row, and passing on again changes nothing. */
  ghost function After(s: State, op: Op): State {
    if !Enabled(s, op) then s
    else
      match op
      case CheckinOp(n, parent, mergeParents, time, tags) =>
        State(s.checkins + {n}, if parent == 0 then s.prim else s.prim[n := parent],
              s.merges + (if parent == 0 then {} else set p | p in mergeParents && p != 0 && p != parent :: (p, n)),
              SelfTagged(s.direct, n, time, Defaulted(tags, parent)), n + 1)
      case TagOp(target, src, w) =>
        s.(direct := s.direct[Key(target, w.tag) := Row(w.kind, src, target, w.value, w.mtime)])
      case PropagateOp(_) => s
  }

  ghost function AfterAll(s: State, ops: seq<Op>): State {
    if ops == [] then s else After(AfterAll(s, ops[..|ops| - 1]), ops[|ops| - 1])
  }

  /** In a right index the newest rows are those of the definition. */
  lemma NewerIsNewer(s: State, t: TagTable, w: Walk)
    requires IsForest(s.prim) && TagRight(s.prim, s.direct, t, w.tag)
    ensures Newer(t, w) <==> NewerThanAll(s, w)
  {
    hide Effective, TagRight;
    forall r: Rid ensures Lookup(t, Key(r, w.tag)) == Effective(s.prim, s.direct, Key(r, w.tag)) {
      RightIsEffective(s.prim, s.direct, t, Key(r, w.tag));
    }
    if Newer(t, w) {
      forall r: Rid, row | Effective(s.prim, s.direct, Key(r, w.tag)) == Some(row) ensures row.mtime < w.mtime {
        assert Lookup(t, Key(r, w.tag)) == Some(row);
      }
    } else {
      var k: Key :| k in t && k.tag == w.tag && t[k].mtime >= w.mtime;
      assert Lookup(t, Key(k.rid, w.tag)) == Some(t[k]);
    }
  }

  /** Whether an operation is to be done. */
  method IsEnabled(repo: Repo, op: Op) returns (enabled: bool)
    requires repo.Valid() && repo.Indexed()
    ensures enabled <==> Enabled(StateOf(repo), op)
  {
    hide TagRight, Effective, NewerThanAll;
    match op {
      case CheckinOp(n, parent, mergeParents, _, _) =>
        enabled := repo.nextRid <= n && n > 0 && (parent == 0 || parent in repo.checkins)
        && forall p :: p in mergeParents ==> p == 0 || p in repo.checkins;
      case TagOp(target, src, w) =>
        NewerIsNewer(StateOf(repo), repo.tagxref, w);
        enabled := target < repo.nextRid && src != 0 && w.origid == target && w.kind != Singleton && Newer(repo.tagxref, w);
      case PropagateOp(_) =>
        enabled := true;
    }
  }

  /** One operation, done as the state says. */
  method Step(repo: Repo, op: Op) returns (ok: bool)
    requires repo.Valid() && repo.Indexed() && repo.LeavesRight()
    modifies repo
    ensures repo.Valid() && repo.LeavesRight() && (ok ==> repo.Indexed())
    ensures ok ==> StateOf(repo) == After(old(StateOf(repo)), op)
    ensures |repo.prim| <= |old(repo.prim)| + 1 && (|old(repo.prim)| + 1 < MAX_ITERATIONS ==> ok)
  {
    hide WalkState, TagRight, LeafTable, LeavesStale, Effective, SelfTagged, Names, RowsOfCards, StartsTrunk;
    var enabled := IsEnabled(repo, op);
    if !enabled {
      return true;
    }
    match op {
      case CheckinOp(n, parent, mergeParents, time, tags) =>
        ok := repo.Checkin(n, parent, mergeParents, time, tags);
      case TagOp(target, src, w) =>
        NewerIsNewer(StateOf(repo), repo.tagxref, w);
        NewerLeavesNothingStale(repo.prim, repo.direct, repo.tagxref, w, target);
        RightIsLocal(repo.prim, repo.direct, repo.tagxref, w.tag);
        ok := repo.ApplyTag(target, src, w);
      case PropagateOp(rid) =>
        ok := PropagateAgain(repo, rid);
    }
  }

  /** Any run of such operations, the others being refused. The state becomes what the operations make of it. The index
      ends up equal to its definition: each checkin's own row, or else what it inherits along its primary parents; and
      the leaf table is exactly the checkins without children. */
  method Run(repo: Repo, ops: seq<Op>) returns (ok: bool)
    requires repo.Valid() && repo.Indexed() && repo.LeavesRight()
    modifies repo
    ensures repo.Valid() && repo.LeavesRight() && (ok ==> repo.Indexed())
    ensures ok ==> StateOf(repo) == AfterAll(old(StateOf(repo)), ops)
    ensures ok ==> forall k: Key :: Lookup(repo.tagxref, k) == Effective(repo.prim, repo.direct, k)
    ensures old(|repo.prim|) + |ops| < 1_000_000 ==> ok
  {
    hide TagRight, LeafTable, Effective, After;
    for i := 0 to |ops|
      invariant repo.Valid() && repo.Indexed() && repo.LeavesRight()
      invariant |repo.prim| <= old(|repo.prim|) + i
      invariant StateOf(repo) == AfterAll(old(StateOf(repo)), ops[..i])
    {
      assert ops[..i + 1][..i] == ops[..i];
      ok := Step(repo, ops[i]);
      if !ok {
        return;
      }
    }
    assert ops[..|ops|] == ops;
    forall k: Key ensures Lookup(repo.tagxref, k) == Effective(repo.prim, repo.direct, k) {
      RightIsEffective(repo.prim, repo.direct, repo.tagxref, k);
    }
    return true;
  }

  /** Between operations, passing on all the tags of a checkin again changes nothing. */
  method PropagateAgain(repo: Repo, rid: Rid) returns (ok: bool)
    requires repo.Valid() && repo.Indexed()
    modifies repo`tagxref
    ensures |repo.prim| < MAX_ITERATIONS ==> ok
    ensures ok ==> repo.Indexed() && repo.tagxref == old(repo.tagxref)
  {
    hide WalkState, TagRight, Inherit, Lookup;
    forall tag ensures WalkState(repo.prim, repo.direct, repo.tagxref, tag, Children(repo.prim, {rid}), Inherit(Lookup(repo.tagxref, Key(rid, tag)))) {
      RightIsWalkable(repo.prim, repo.direct, repo.tagxref, tag, rid);
    }
    ok := repo.PropagateAll(rid);
  }

  lemma RightIsWalkable(prim: Forest, direct: TagTable, t: TagTable, tag: string, rid: Rid)
    requires TagRight(prim, direct, t, tag)
    ensures WalkState(prim, direct, t, tag, Children(prim, {rid}), Inherit(Lookup(t, Key(rid, tag))))
  {
  }

  lemma RightIsLocal(prim: Forest, direct: TagTable, t: TagTable, tag: string)
    requires TagRight(prim, direct, t, tag)
    ensures forall r: Rid :: LocalAt(prim, direct, t, Key(r, tag))
  {
  }
}
