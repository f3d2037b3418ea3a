/** Keeping tagxref up to date (internal/tag, internal/manifest). */
module TagStore {
  import opened Bytes
  import opened TagIndex

  const MAX_ITERATIONS: nat := 1_000_000

  datatype QueueItem = QueueItem(rid: Rid, mtime: int)

  ghost function Rids(queue: seq<QueueItem>): set<Rid> {
    set i | 0 <= i < |queue| :: queue[i].rid
  }

  /** heap.Pop: an item of least mtime, and the others. */
  method PopMin(queue: seq<QueueItem>) returns (item: QueueItem, rest: seq<QueueItem>)
    requires |queue| > 0
    ensures exists i :: 0 <= i < |queue| && item == queue[i] && rest == queue[..i] + queue[i + 1..]
    ensures forall other :: other in queue ==> item.mtime <= other.mtime
    ensures |rest| == |queue| - 1 && item.rid in Rids(queue) && Rids(queue) == Rids(rest) + {item.rid}
  {
    var best := 0;
    for i := 1 to |queue|
      invariant 0 <= best < |queue|
      invariant forall j :: 0 <= j < i ==> queue[best].mtime <= queue[j].mtime
    {
      if queue[i].mtime < queue[best].mtime {
        best := i;
      }
    }
    item, rest := queue[best], queue[..best] + queue[best + 1..];
    RidsWithout(queue, best);
  }

  lemma RidsWithout(queue: seq<QueueItem>, i: nat)
    requires i < |queue|
    ensures Rids(queue) == Rids(queue[..i] + queue[i + 1..]) + {queue[i].rid}
  {
    var rest := queue[..i] + queue[i + 1..];
    forall r | r in Rids(queue) ensures r in Rids(rest) + {queue[i].rid} {
      var j :| 0 <= j < |queue| && queue[j].rid == r;
      if j < i { assert rest[j] == queue[j]; } else if j > i { assert rest[j - 1] == queue[j]; }
    }
    forall r | r in Rids(rest) ensures r in Rids(queue) {
      var j :| 0 <= j < |rest| && rest[j].rid == r;
      assert rest[j] == if j < i then queue[j] else queue[j + 1];
    }
  }

  lemma RidsPush(queue: seq<QueueItem>, item: QueueItem)
    ensures Rids(queue + [item]) == Rids(queue) + {item.rid}
  {
    var more := queue + [item];
    assert more[|queue|] == item;
    forall r | r in Rids(queue) ensures r in Rids(more) {
      var j :| 0 <= j < |queue| && queue[j].rid == r;
      assert more[j] == queue[j];
    }
  }

  datatype ChildRow = ChildRow(cid: Rid, mtime: int, doit: bool)

  /** The children from the i-th row on. */
  ghost function Rest(rows: seq<ChildRow>, i: nat): set<Rid> {
    set j | i <= j < |rows| :: rows[j].cid
  }

  lemma RestPush(rows: seq<ChildRow>, row: ChildRow)
    ensures Rest(rows + [row], 0) == Rest(rows, 0) + {row.cid}
  {
    var more := rows + [row];
    assert more[|rows|] == row;
    forall r | r in Rest(rows, 0) ensures r in Rest(more, 0) {
      var j :| 0 <= j < |rows| && rows[j].cid == r;
      assert more[j] == rows[j];
    }
  }

  lemma RestSplit(rows: seq<ChildRow>, i: nat)
    requires i < |rows| && forall i, j :: 0 <= i < j < |rows| ==> rows[i].cid != rows[j].cid
    ensures Rest(rows, i) == Rest(rows, i + 1) + {rows[i].cid} && rows[i].cid !in Rest(rows, i + 1)
    ensures rows[i].cid in Rest(rows, 0)
  {
  }

  /** Visiting one child leaves the rows of the children after it alone. */
  lemma OthersKeepTheirRows(w: Walk, t: TagTable, rows: seq<ChildRow>, i: nat)
    requires i < |rows| && forall i, j :: 0 <= i < j < |rows| ==> rows[i].cid != rows[j].cid
    ensures forall j :: i < j < |rows| ==>
      Lookup(Visit(w, t, rows[i].cid), Key(rows[j].cid, w.tag)) == Lookup(t, Key(rows[j].cid, w.tag))
  {
  }

  /** Parents are checkins, and every checkin is below `next`. */
  ghost predicate Graph(checkins: set<Rid>, prim: Forest, merges: set<(Rid, Rid)>, next: Rid) {
    && (forall c :: c in prim ==> c < next && prim[c] in checkins)
    && (forall e :: e in merges ==> e.0 in checkins && e.1 in checkins)
    && (forall c :: c in checkins ==> 0 < c < next)
  }

  ghost predicate HasChild(prim: Forest, merges: set<(Rid, Rid)>, c: Rid) {
    (exists d :: d in prim && prim[d] == c) || (exists e :: e in merges && e.0 == c)
  }

  /** Exactly the checkins that no checkin names as a parent. */
  ghost predicate LeafTable(checkins: set<Rid>, prim: Forest, merges: set<(Rid, Rid)>, leaf: set<Rid>) {
    forall c :: c in leaf <==> c in checkins && !HasChild(prim, merges, c)
  }

  ghost function PrimAfter(prim: Forest, n: Rid, parents: seq<Rid>): Forest {
    if parents == [] then prim else prim[n := parents[0]]
  }

  ghost function MergesAfter(merges: set<(Rid, Rid)>, n: Rid, parents: seq<Rid>): set<(Rid, Rid)> {
    merges + set i | 1 <= i < |parents| :: (parents[i], n)
  }

  lemma ChildAfterCheckin(prim: Forest, merges: set<(Rid, Rid)>, n: Rid, parents: seq<Rid>, c: Rid)
    requires n !in prim
    ensures HasChild(PrimAfter(prim, n, parents), MergesAfter(merges, n, parents), c) <==> HasChild(prim, merges, c) || c in parents
  {
    var prim', merges' := PrimAfter(prim, n, parents), MergesAfter(merges, n, parents);
    if c in parents {
      var i :| 0 <= i < |parents| && parents[i] == c;
      if i == 0 { assert n in prim' && prim'[n] == c; } else { assert (parents[i], n) in merges'; }
    }
    if d :| d in prim && prim[d] == c {
      assert d in prim' && prim'[d] == c;
    }
    if e :| e in merges && e.0 == c {
      assert e in merges';
    }
    if d :| d in prim' && prim'[d] == c {
      assert d == n || (d in prim && prim[d] == c);
    }
  }

  lemma LeavesAfterCheckin(checkins: set<Rid>, prim: Forest, merges: set<(Rid, Rid)>, leaf: set<Rid>, n: Rid, parents: seq<Rid>)
    requires LeafTable(checkins, prim, merges, leaf) && n !in prim && n !in parents && !HasChild(prim, merges, n)
    ensures LeafTable(checkins + {n}, PrimAfter(prim, n, parents), MergesAfter(merges, n, parents), leaf + {n} - (set p | p in parents))
  {
    hide HasChild;
    forall c ensures HasChild(PrimAfter(prim, n, parents), MergesAfter(merges, n, parents), c) <==> HasChild(prim, merges, c) || c in parents {
      ChildAfterCheckin(prim, merges, n, parents, c);
    }
  }

  class Repo {
    var checkins: set<Rid>
    var prim: Forest                // plink rows with isprim = 1, by child
    var plinkMtime: map<Rid, int>   // their mtime
    var merges: set<(Rid, Rid)>     // plink rows with isprim = 0, as (parent, child)
    var leaf: set<Rid>
    var tagxref: TagTable
    ghost var direct: TagTable      // the row last set on each checkin itself

    var nextRid: Rid                // larger than every rid in use

    ghost predicate Linked()
      reads this
    {
      IsForest(prim) && DirectRows(direct) && plinkMtime.Keys == prim.Keys
    }

    ghost predicate Valid()
      reads this
    {
      && Linked()
      && (forall k :: k in direct ==> k.rid < nextRid)
      && Graph(checkins, prim, merges, nextRid)
    }

    /** The leaf table is exactly the checkins that no checkin names as a parent. */
    ghost predicate LeavesRight()
      reads this
    {
      LeafTable(checkins, prim, merges, leaf)
    }

    /** The tag index equals its definition. */
    ghost predicate Indexed()
      reads this
    {
      forall tag :: TagRight(prim, direct, tagxref, tag)
    }

    /** The children query: the primary children of `pid`, in no particular order, each with the test
        whether the walk goes there. */
    method QueryChildren(w: Walk, pid: Rid) returns (rows: seq<ChildRow>)
      requires Linked()
      ensures Rest(rows, 0) == Children(prim, {pid})
      ensures forall i, j :: 0 <= i < j < |rows| ==> rows[i].cid != rows[j].cid
      ensures forall i :: 0 <= i < |rows| ==> rows[i].doit == DoIt(w, Lookup(tagxref, Key(rows[i].cid, w.tag)))
    {
      rows := [];
      var left := set c | c in prim && prim[c] == pid;
      assert left == Children(prim, {pid});
      while left != {}
        invariant left <= Children(prim, {pid}) && Rest(rows, 0) == Children(prim, {pid}) - left
        invariant forall i, j :: 0 <= i < j < |rows| ==> rows[i].cid != rows[j].cid
        invariant forall i :: 0 <= i < |rows| ==> rows[i].doit == DoIt(w, Lookup(tagxref, Key(rows[i].cid, w.tag)))
        decreases left
      {
        var c :| c in left;
        left := left - {c};
        var row := if Key(c, w.tag) in tagxref then Some(tagxref[Key(c, w.tag)]) else None;
        assert forall i :: 0 <= i < |rows| ==> rows[i].cid in Rest(rows, 0);
        RestPush(rows, ChildRow(c, plinkMtime[c], DoIt(w, row)));
        rows := rows + [ChildRow(c, plinkMtime[c], DoIt(w, row))];
      }
    }

    /** The walk below `pid`. It settles every checkin below, unless it meets rows that are as recent as
        the one it passes on; then it changes nothing. */
    method Propagate(w: Walk, pid: Rid, ghost was: Option<Row>) returns (ok: bool)
      requires Linked() && w.kind != Singleton && Inheritable(was)
      requires Inherit(Lookup(tagxref, Key(pid, w.tag))) == w.Passed()
      requires WalkState(prim, direct, tagxref, w.tag, Children(prim, {pid}), was)
      modifies this`tagxref
      ensures forall k: Key :: k.tag != w.tag ==> Lookup(tagxref, k) == old(Lookup(tagxref, k))
      ensures |prim| < MAX_ITERATIONS ==> ok
      ensures ok && Overrides(w, was) ==> TagRight(prim, direct, tagxref, w.tag)
      ensures ok && Stuck(prim, direct, old(tagxref), w, pid, was) ==> tagxref == old(tagxref)
    {
      hide Walking, Visit, DoIt, Lookup, WalkState, TagRight, Stuck, Overrides, Inherit, Children;
      var queue := [QueueItem(pid, 0)];
      var visited: set<Rid> := {};
      var iterations := 0;
      assert Rids(queue) == {pid} by { assert queue[0].rid == pid; }
      ghost var p := Progress(tagxref, tagxref, {pid}, {}, {}, {});
      WalkBegins(prim, direct, w, pid, was, tagxref);
      while |queue| > 0
        invariant p == Progress(old(tagxref), tagxref, Rids(queue), visited, p.pushed, {})
        invariant Walking(prim, direct, w, pid, was, p)
        invariant iterations <= MAX_ITERATIONS && iterations + |queue| == 1 + |p.pushed|
        decreases MAX_ITERATIONS - iterations
      {
        iterations := iterations + 1;
        if iterations > MAX_ITERATIONS {
          WalkKeeps(prim, direct, w, pid, was, p);
          CardinalityMonotone(p.pushed, prim.Keys);
          return false;
        }
        var item, rest := PopMin(queue);
        var currentRid := item.rid;
        queue := rest;
        if currentRid in visited {
          WalkPopsAgain(prim, direct, w, pid, was, p, Rids(queue), currentRid);
          p := p.(queued := Rids(queue));
          continue;
        }
        WalkPops(prim, direct, w, pid, was, p, Rids(queue), currentRid);
        visited := visited + {currentRid};
        var rows := QueryChildren(w, currentRid);
        p := p.(queued := Rids(queue), visited := visited, todo := Rest(rows, 0));
        for i := 0 to |rows|
          invariant p == Progress(old(tagxref), tagxref, Rids(queue), visited, p.pushed, Rest(rows, i))
          invariant Walking(prim, direct, w, pid, was, p)
          invariant iterations + |queue| == 1 + |p.pushed|
          invariant forall j :: i <= j < |rows| ==> rows[j].doit == DoIt(w, Lookup(tagxref, Key(rows[j].cid, w.tag)))
        {
          var c := rows[i].cid;
          RestSplit(rows, i);
          assert Rest(rows, i + 1) == p.todo - {c};
          if rows[i].doit {
            WalkVisits(prim, direct, w, pid, was, p, c);
            WalkPushes(prim, direct, w, pid, was, p, c);
            RidsPush(queue, QueueItem(c, rows[i].mtime));
            OthersKeepTheirRows(w, tagxref, rows, i);
            tagxref := Visit(w, tagxref, c);
            queue := queue + [QueueItem(c, rows[i].mtime)];
            assert Rids(queue) == p.queued + {c};
            p := p.(t := tagxref, queued := p.queued + {c}, pushed := p.pushed + {c}, todo := p.todo - {c});
          } else {
            WalkSkips(prim, direct, w, pid, was, p, c);
            p := p.(todo := p.todo - {c});
          }
        }
      }
      WalkKeeps(prim, direct, w, pid, was, p);
      assert Rids(queue) == {};
      return true;
    }

    /** `ApplyTag`: the row of the target itself, then the walk below it, in one transaction. */
    method ApplyTag(target: Rid, src: Rid, w: Walk) returns (ok: bool)
      requires Linked() && src != 0 && w.origid == target
      requires forall r: Rid :: r != target ==> LocalAt(prim, direct, tagxref, Key(r, w.tag))
      modifies this`tagxref, this`direct
      ensures Linked()
      ensures |prim| < MAX_ITERATIONS ==> ok
      ensures !ok ==> tagxref == old(tagxref) && direct == old(direct)
      ensures ok ==> direct == old(direct)[Key(target, w.tag) := Row(w.kind, src, target, w.value, w.mtime)]
      ensures ok ==> forall k: Key :: k.tag != w.tag ==> Lookup(tagxref, k) == old(Lookup(tagxref, k))
      ensures ok ==> (TagRight(prim, direct, tagxref, w.tag) <==> !LeavesStale(prim, old(direct), old(tagxref), w, target))
      ensures ok && old(Indexed()) ==> (Indexed() <==> !LeavesStale(prim, old(direct), old(tagxref), w, target))
      ensures old(Valid()) && target < nextRid ==> Valid()
    {
      hide TagRight, WalkState, LeavesStale, Overrides, Stuck, LocalAt, Graph;
      var k, row := Key(target, w.tag), Row(w.kind, src, target, w.value, w.mtime);
      var before := tagxref;
      ghost var was := Inherit(Lookup(tagxref, k));
      DirectOpensWalk(prim, direct, tagxref, target, w.tag, row);
      StaleExactly(prim, direct, tagxref, w, target, row);
      ghost var directBefore := direct;
      tagxref := tagxref[k := row];
      direct := direct[k := row];
      ok := true;
      if w.kind == Propagating || w.kind == Cancel {
        ok := Propagate(w, target, was);
        if !ok {
          tagxref := before;
          direct := directBefore;
          return;
        }
      }
      OtherTagsKept(prim, directBefore, direct, before, tagxref, k, row);
    }

    /** `PropagateAll`: passes on every tag of `rid` again. Nothing but missing inherited rows of its
        children can be filled in. */
    method PropagateAll(rid: Rid) returns (ok: bool)
      requires Linked()
      requires forall tag :: WalkState(prim, direct, tagxref, tag, Children(prim, {rid}), Inherit(Lookup(tagxref, Key(rid, tag))))
      modifies this`tagxref
      ensures |prim| < MAX_ITERATIONS ==> ok
      ensures ok ==> Indexed()
      ensures ok && old(Indexed()) ==> tagxref == old(tagxref)
    {
      hide WalkState, TagRight, Inherit, Lookup;
      var entries := set k | k in tagxref && k.rid == rid;
      ghost var start := tagxref;
      var left := entries;
      NothingToPassElsewhere(prim, direct, tagxref, rid, entries);
      while left != {}
        invariant left <= entries
        invariant forall k: Key :: Key(rid, k.tag) in left ==> Lookup(tagxref, k) == Lookup(start, k)
        invariant forall tag :: Key(rid, tag) !in left ==> TagRight(prim, direct, tagxref, tag)
        decreases left
      {
        var k :| k in left;
        assert k == Key(rid, k.tag);
        left := left - {k};
        SameTagRows(prim, direct, start, tagxref, k.tag);
        assert k in tagxref by { RowStillThere(tagxref, start, k); }
        var row := tagxref[k];
        var kind := if row.tagtype == Singleton then Cancel else row.tagtype;
        var w := Walk(k.tag, kind, row.origid, row.mtime, row.value);
        RowPassesItself(tagxref, k, w);
        ghost var before := tagxref;
        ok := Propagate(w, rid, w.Passed());
        if !ok {
          return;
        }
        forall tag | tag != k.tag
          ensures TagRight(prim, direct, before, tag) ==> TagRight(prim, direct, tagxref, tag)
        {
          SameTagRows(prim, direct, before, tagxref, tag);
        }
      }
      if forall tag :: TagRight(prim, direct, start, tag) {
        RightIsUnique(prim, direct, start, tagxref);
      }
      return true;
    }

    /** A repository before its first checkin. */
    constructor ()
      ensures Valid() && Indexed() && LeavesRight() && checkins == {}
    {
      checkins, prim, plinkMtime, merges, leaf, tagxref, direct, nextRid := {}, map[], map[], {}, {}, map[], map[], 1;
      new;
      forall tag ensures TagRight(prim, direct, tagxref, tag) {
        forall r: Rid ensures LocalAt(prim, direct, tagxref, Key(r, tag)) {
        }
      }
    }

    /** `collectParents`: the primary parent, then the other parents, without zeros and repetitions. */
    static method CollectParents(parent: Rid, mergeParents: seq<Rid>) returns (parents: seq<Rid>)
      ensures parent == 0 ==> parents == []
      ensures parent != 0 ==> parents != [] && parents[0] == parent
      ensures parent != 0 ==> forall p :: p in parents <==> p == parent || (p in mergeParents && p != 0)
      ensures forall i, j :: 0 <= i < j < |parents| ==> parents[i] != parents[j]
    {
      if parent == 0 {
        return [];
      }
      var seen := {parent};
      parents := [parent];
      for i := 0 to |mergeParents|
        invariant parents != [] && parents[0] == parent && seen == set p | p in parents
        invariant forall p :: p in parents <==> p == parent || (p in mergeParents[..i] && p != 0)
        invariant forall i, j :: 0 <= i < j < |parents| ==> parents[i] != parents[j]
      {
        var mp := mergeParents[i];
        if mp == 0 || mp in seen {
          continue;
        }
        seen := seen + {mp};
        parents := parents + [mp];
      }
    }

    /** `markLeafAndEvent`: the plink rows and the leaf table of the new checkin n. */
    method MarkLeaf(n: Rid, parents: seq<Rid>, mtime: int)
      requires Valid() && LeavesRight() && nextRid <= n && n > 0
      requires forall i :: 0 <= i < |parents| ==> parents[i] in checkins
      modifies this`checkins, this`prim, this`plinkMtime, this`merges, this`leaf, this`nextRid
      ensures Valid() && LeavesRight() && nextRid == n + 1
      ensures checkins == old(checkins) + {n} && leaf == old(leaf) + {n} - (set p | p in parents)
      ensures prim == PrimAfter(old(prim), n, parents) && merges == MergesAfter(old(merges), n, parents)
      ensures plinkMtime == if parents == [] then old(plinkMtime) else old(plinkMtime)[n := mtime]
    {
      hide Graph, LeafTable, PrimAfter, MergesAfter;
      GraphAfterCheckin(checkins, prim, merges, leaf, nextRid, n, parents);
      NoParents(prim, merges, n);
      checkins, nextRid := checkins + {n}, n + 1;
      leaf := leaf + {n};
      for i := 0 to |parents|
        invariant prim == PrimAfter(old(prim), n, parents[..i]) && merges == MergesAfter(old(merges), n, parents[..i])
        invariant plinkMtime == if i == 0 then old(plinkMtime) else old(plinkMtime)[n := mtime]
        invariant leaf == old(leaf) + {n} - (set p | p in parents[..i])
        invariant checkins == old(checkins) + {n} && nextRid == n + 1
      {
        NextParent(old(prim), old(merges), n, parents, i);
        if i == 0 {
          prim, plinkMtime := prim[n := parents[i]], plinkMtime[n := mtime];
        } else {
          merges := merges + {(parents[i], n)};
        }
        leaf := leaf - {parents[i]};
      }
      assert parents[..|parents|] == parents;
    }

    /** The inline tags of the new checkin n, which has no children yet. */
    method InlineTags(n: Rid, time: int, cards: seq<TagCard>) returns (ok: bool)
      requires Linked() && 0 < n < nextRid && (forall k :: k in direct ==> k.rid < nextRid)
      requires forall c :: c in prim ==> prim[c] != n
      requires forall tag :: WalkState(prim, direct, tagxref, tag, {n}, None)
      modifies this`tagxref, this`direct
      ensures Linked() && (forall k :: k in direct ==> k.rid < nextRid)
      ensures |prim| < MAX_ITERATIONS ==> ok
      ensures ok ==> forall tag :: WalkState(prim, direct, tagxref, tag, {n}, None)
      ensures ok ==> direct == SelfTagged(old(direct), n, time, cards)
    {
      hide WalkState, TagRight, LeavesStale, Lookup;
      ok := true;
      for i := 0 to |cards|
        invariant Linked() && (forall k :: k in direct ==> k.rid < nextRid)
        invariant ok && forall tag :: WalkState(prim, direct, tagxref, tag, {n}, None)
        invariant direct == SelfTagged(old(direct), n, time, cards[..i])
      {
        assert cards[..i + 1][..i] == cards[..i];
        if !cards[i].self {
          continue;
        }
        var w := Walk(cards[i].name, cards[i].kind, n, time, cards[i].value);
        InlineTagApplies(prim, direct, tagxref, n, w);
        ghost var t, d := tagxref, direct;
        ok := ApplyTag(n, n, w);
        if !ok {
          return;
        }
        InlineTagKeeps(prim, d, direct, t, tagxref, n, w, Row(w.kind, n, n, w.value, w.mtime));
      }
      assert cards[..|cards|] == cards;
    }

    /** The tag steps of `Checkin`, after the manifest was stored as artifact n: parents and leaves, then
        the inline tags, then what the primary parent passes on. The new checkin has the row of the last card of each
        tag, and inherits the other tags; no other checkin's rows change. */
    method Checkin(n: Rid, parent: Rid, mergeParents: seq<Rid>, time: int, tags: seq<TagCard>) returns (ok: bool)
      requires Valid() && Indexed() && LeavesRight() && nextRid <= n && n > 0
      requires parent == 0 || parent in checkins
      requires forall p :: p in mergeParents ==> p == 0 || p in checkins
      modifies this
      ensures Valid() && LeavesRight() && checkins == old(checkins) + {n} && nextRid == n + 1
      ensures |old(prim)| + 1 < MAX_ITERATIONS ==> ok
      ensures ok ==> Indexed()
      ensures ok ==> direct == SelfTagged(old(direct), n, time, Defaulted(tags, parent))
      ensures ok ==> RowsOfCards(tagxref, n, time, if tags == [] && parent == 0 then DEFAULT_TAGS else tags)
      ensures ok ==> forall tag :: !Names(if tags == [] && parent == 0 then DEFAULT_TAGS else tags, tag) ==>
                Lookup(tagxref, Key(n, tag)) == if parent == 0 then None else Inherit(Lookup(tagxref, Key(parent, tag)))
      ensures ok ==> forall k: Key :: k.rid != n ==> Lookup(tagxref, k) == old(Lookup(tagxref, k))
      ensures ok && tags == [] && parent == 0 ==> StartsTrunk(tagxref, n, time)
      ensures prim == if parent == 0 then old(prim) else old(prim)[n := parent]
      ensures plinkMtime == if parent == 0 then old(plinkMtime) else old(plinkMtime)[n := time]
      ensures merges == old(merges) +
                        if parent == 0 then {} else set p | p in mergeParents && p != 0 && p != parent :: (p, n)
    {
      hide WalkState, TagRight, LeafTable, LeavesStale, Lookup, SelfTagged, RowsOfCards, Names, StartsTrunk;
      assert n !in prim && forall c :: c in prim ==> prim[c] != n;
      hide Graph;
      var parents := CollectParents(parent, mergeParents);
      MergesOfParents(merges, n, parent, mergeParents, parents);
      ghost var prim0, direct0, t0 := prim, direct, tagxref;
      OpensInheritance(prim, if parent == 0 then prim else prim[n := parent], direct, tagxref, n);
      MarkLeaf(n, parents, time);
      var cards := tags;
      if |tags| > 0 {
      } else if parent == 0 {
        cards := DEFAULT_TAGS;
      }
      ok := InlineTags(n, time, cards);
      if !ok {
        return;
      }
      InheritanceIsOpen(prim, direct, tagxref, n, parent);
      if parent > 0 {
        ok := PropagateAll(parent);
      }
      if ok {
        TagsOfCheckin(prim0, direct0, t0, prim, direct, tagxref, n, parent, time, cards);
      }
    }
  }

  lemma MergesOfParents(merges: set<(Rid, Rid)>, n: Rid, parent: Rid, mergeParents: seq<Rid>, parents: seq<Rid>)
    requires parent == 0 ==> parents == []
    requires parent != 0 ==> parents != [] && parents[0] == parent
    requires parent != 0 ==> forall p :: p in parents <==> p == parent || (p in mergeParents && p != 0)
    requires forall i, j :: 0 <= i < j < |parents| ==> parents[i] != parents[j]
    ensures MergesAfter(merges, n, parents) ==
            merges + if parent == 0 then {} else set p | p in mergeParents && p != 0 && p != parent :: (p, n)
  {
    if parent != 0 {
      forall p | p in mergeParents && p != 0 && p != parent ensures exists i :: 1 <= i < |parents| && parents[i] == p {
        var i :| 0 <= i < |parents| && parents[i] == p;
        assert i != 0;
      }
      forall i | 1 <= i < |parents| ensures parents[i] in mergeParents && parents[i] != 0 && parents[i] != parent {
        assert parents[i] in parents;
      }
      var more := set p | p in mergeParents && p != 0 && p != parent :: (p, n);
      forall i | 1 <= i < |parents| ensures (parents[i], n) in more {
      }
      forall e | e in more ensures e in MergesAfter(merges, n, parents) {
        var i :| 1 <= i < |parents| && parents[i] == e.0;
        assert e == (parents[i], n);
      }
    }
  }

  lemma NoParents(prim: Forest, merges: set<(Rid, Rid)>, n: Rid)
    ensures PrimAfter(prim, n, []) == prim && MergesAfter(merges, n, []) == merges
  {
  }

  lemma NextParent(prim: Forest, merges: set<(Rid, Rid)>, n: Rid, parents: seq<Rid>, i: nat)
    requires i < |parents|
    ensures PrimAfter(prim, n, parents[..i + 1]) ==
            if i == 0 then PrimAfter(prim, n, parents[..i])[n := parents[i]] else PrimAfter(prim, n, parents[..i])
    ensures MergesAfter(merges, n, parents[..i + 1]) ==
            MergesAfter(merges, n, parents[..i]) + if i == 0 then {} else {(parents[i], n)}
  {
    var before, after := parents[..i], parents[..i + 1];
    assert forall j :: 0 <= j < i ==> before[j] == after[j];
    forall e | e in MergesAfter(merges, n, after)
      ensures e in MergesAfter(merges, n, before) + if i == 0 then {} else {(parents[i], n)}
    {
    }
    forall e | e in MergesAfter(merges, n, before) ensures e in MergesAfter(merges, n, after) {
      if e !in merges {
        var j :| 1 <= j < |before| && e == (before[j], n);
        assert e == (after[j], n);
      }
    }
  }

  lemma GraphAfterCheckin(checkins: set<Rid>, prim: Forest, merges: set<(Rid, Rid)>, leaf: set<Rid>, next: Rid, n: Rid, parents: seq<Rid>)
    requires Graph(checkins, prim, merges, next) && LeafTable(checkins, prim, merges, leaf) && IsForest(prim) && next <= n && 0 < n
    requires forall i :: 0 <= i < |parents| ==> parents[i] in checkins
    ensures var prim', merges' := PrimAfter(prim, n, parents), MergesAfter(merges, n, parents);
            && IsForest(prim') && Graph(checkins + {n}, prim', merges', n + 1)
            && LeafTable(checkins + {n}, prim', merges', leaf + {n} - (set p | p in parents))
            && prim'.Keys == if parents == [] then prim.Keys else prim.Keys + {n}
  {
    LeavesAfterCheckin(checkins, prim, merges, leaf, n, parents);
  }

  datatype TagCard = TagCard(kind: TagType, name: string, self: bool, value: string)

  /** The tags of an initial checkin that brings none of its own. */
  const DEFAULT_TAGS: seq<TagCard> :=
    [TagCard(Propagating, "branch", true, "trunk"), TagCard(Singleton, "sym-trunk", true, "")]

  ghost function Defaulted(tags: seq<TagCard>, parent: Rid): seq<TagCard> {
    if tags == [] && parent == 0 then DEFAULT_TAGS else tags
  }

  /** The rows that inline tags set on the checkin n itself, later cards winning. */
  ghost function SelfTagged(direct: TagTable, n: Rid, time: int, cards: seq<TagCard>): TagTable {
    if cards == [] then direct
    else
      var before, c := SelfTagged(direct, n, time, cards[..|cards| - 1]), cards[|cards| - 1];
      if c.self then before[Key(n, c.name) := Row(c.kind, n, n, c.value, time)] else before
  }

  /** The last card that tags the checkin itself with its name. */
  ghost predicate LastOfName(cards: seq<TagCard>, i: nat) {
    i < |cards| && cards[i].self && forall j :: i < j < |cards| && cards[j].self ==> cards[j].name != cards[i].name
  }

  /** Some card tags the checkin itself so. */
  ghost predicate Names(cards: seq<TagCard>, tag: string) {
    exists i :: 0 <= i < |cards| && cards[i].self && cards[i].name == tag
  }

  /** The last card of each tag has its row, with the card's kind and value. */
  ghost predicate RowsOfCards(t: TagTable, n: Rid, time: int, cards: seq<TagCard>) {
    forall i: nat :: LastOfName(cards, i) ==>
      Lookup(t, Key(n, cards[i].name)) == Some(Row(cards[i].kind, n, n, cards[i].value, time))
  }

  ghost predicate StartsTrunk(t: TagTable, n: Rid, time: int) {
    && Lookup(t, Key(n, "branch")) == Some(Row(Propagating, n, n, "trunk", time))
    && Lookup(t, Key(n, "sym-trunk")) == Some(Row(Singleton, n, n, "", time))
  }

  /** The last card of a tag sets its row. */
  lemma {:induction false} LastCardWins(direct: TagTable, n: Rid, time: int, cards: seq<TagCard>, i: nat)
    requires LastOfName(cards, i)
    ensures var k := Key(n, cards[i].name);
            var after := SelfTagged(direct, n, time, cards);
            k in after && after[k] == Row(cards[i].kind, n, n, cards[i].value, time)
    decreases |cards|
  {
    if i < |cards| - 1 { LastCardWins(direct, n, time, cards[..|cards| - 1], i); }
  }

  /** No card sets any other row. */
  lemma {:induction false} OnlyCardsSetRows(direct: TagTable, n: Rid, time: int, cards: seq<TagCard>, k: Key)
    requires k.rid != n || !Names(cards, k.tag)
    ensures Lookup(SelfTagged(direct, n, time, cards), k) == Lookup(direct, k)
    decreases |cards|
  {
    if cards != [] {
      var init := cards[..|cards| - 1];
      if Names(init, k.tag) {
        var i :| 0 <= i < |init| && init[i].self && init[i].name == k.tag;
        assert cards[i].self && cards[i].name == k.tag;
      }
      OnlyCardsSetRows(direct, n, time, init, k);
    }
  }

  /** A new checkin without children changes nothing for the others. */
  lemma {:induction false} OthersInheritAsBefore(prim: Forest, direct: TagTable, prim': Forest, direct': TagTable, n: Rid, k: Key)
    requires IsForest(prim) && IsForest(prim') && k.rid != n && forall c :: c in prim ==> prim[c] != n
    requires forall c :: c != n ==> (c in prim' <==> c in prim) && (c in prim ==> prim'[c] == prim[c])
    requires forall k: Key :: k.rid != n ==> Lookup(direct', k) == Lookup(direct, k)
    ensures Effective(prim', direct', k) == Effective(prim, direct, k)
    decreases k.rid
  {
    assert Lookup(direct', k) == Lookup(direct, k);
    if k !in direct && k.rid in prim {
      OthersInheritAsBefore(prim, direct, prim', direct', n, Key(prim[k.rid], k.tag));
    }
  }

  /** What a checkin finds of its tags in a right index. */
  lemma TagsOfCheckin(prim: Forest, direct: TagTable, t: TagTable, prim': Forest, direct': TagTable, t': TagTable,
                      n: Rid, parent: Rid, time: int, cards: seq<TagCard>)
    requires IsForest(prim) && IsForest(prim') && n !in prim && forall c :: c in prim ==> prim[c] != n
    requires forall k :: k in direct ==> k.rid < n
    requires prim' == if parent == 0 then prim else prim[n := parent]
    requires direct' == SelfTagged(direct, n, time, cards)
    requires forall tag :: TagRight(prim, direct, t, tag) && TagRight(prim', direct', t', tag)
    ensures RowsOfCards(t', n, time, cards)
    ensures forall tag :: !Names(cards, tag) ==>
              Lookup(t', Key(n, tag)) == if parent == 0 then None else Inherit(Lookup(t', Key(parent, tag)))
    ensures forall k: Key :: k.rid != n ==> Lookup(t', k) == Lookup(t, k)
    ensures cards == DEFAULT_TAGS ==> StartsTrunk(t', n, time)
  {
    forall k: Key | k.rid != n ensures Lookup(direct', k) == Lookup(direct, k) {
      OnlyCardsSetRows(direct, n, time, cards, k);
    }
    hide Names, SelfTagged;
    forall k: Key | k.rid != n ensures Lookup(t', k) == Lookup(t, k) {
      assert TagRight(prim, direct, t, k.tag) && TagRight(prim', direct', t', k.tag);
      RightIsEffective(prim, direct, t, k);
      RightIsEffective(prim', direct', t', k);
      OthersInheritAsBefore(prim, direct, prim', direct', n, k);
    }
    forall i: nat | LastOfName(cards, i)
      ensures Lookup(t', Key(n, cards[i].name)) == Some(Row(cards[i].kind, n, n, cards[i].value, time))
    {
      LastCardWins(direct, n, time, cards, i);
      assert TagRight(prim', direct', t', cards[i].name);
      assert LocalAt(prim', direct', t', Key(n, cards[i].name));
    }
    forall tag | !Names(cards, tag)
      ensures Lookup(t', Key(n, tag)) == if parent == 0 then None else Inherit(Lookup(t', Key(parent, tag)))
    {
      OnlyCardsSetRows(direct, n, time, cards, Key(n, tag));
      assert TagRight(prim', direct', t', tag);
      assert LocalAt(prim', direct', t', Key(n, tag));
      assert Key(n, tag) !in direct';
    }
    if cards == DEFAULT_TAGS {
      assert LastOfName(cards, 0) && LastOfName(cards, 1);
    }
  }

  /** A new checkin without children has no rows yet; the others are as right as before. */
  lemma OpensInheritance(prim: Forest, prim': Forest, direct: TagTable, t: TagTable, n: Rid)
    requires forall tag :: TagRight(prim, direct, t, tag)
    requires n !in prim && (forall c :: c in prim ==> prim[c] != n) && (forall tag :: Key(n, tag) !in direct)
    requires prim' == prim || (n in prim' && prim' == prim[n := prim'[n]])
    ensures forall tag :: WalkState(prim', direct, t, tag, {n}, None)
  {
    forall tag ensures WalkState(prim', direct, t, tag, {n}, None) {
      assert TagRight(prim, direct, t, tag);
      forall r: Rid ensures if r in {n} then Unvisited(prim', direct, t, Key(r, tag), None) else LocalAt(prim', direct, t, Key(r, tag)) {
        assert LocalAt(prim, direct, t, Key(r, tag));
      }
    }
  }

  lemma InlineTagApplies(prim: Forest, direct: TagTable, t: TagTable, n: Rid, w: Walk)
    requires WalkState(prim, direct, t, w.tag, {n}, None)
    ensures forall r: Rid :: r != n ==> LocalAt(prim, direct, t, Key(r, w.tag))
  {
    forall r: Rid | r != n ensures LocalAt(prim, direct, t, Key(r, w.tag)) {
      assert if r in {n} then Unvisited(prim, direct, t, Key(r, w.tag), None) else LocalAt(prim, direct, t, Key(r, w.tag));
    }
  }

  lemma InlineTagKeeps(prim: Forest, direct: TagTable, direct': TagTable, t: TagTable, t': TagTable, n: Rid, w: Walk, row: Row)
    requires forall tag :: WalkState(prim, direct, t, tag, {n}, None)
    requires forall c :: c in prim ==> prim[c] != n
    requires direct' == direct[Key(n, w.tag) := row]
    requires forall k: Key :: k.tag != w.tag ==> Lookup(t', k) == Lookup(t, k)
    requires TagRight(prim, direct', t', w.tag) <==> !LeavesStale(prim, direct, t, w, n)
    ensures forall tag :: WalkState(prim, direct', t', tag, {n}, None)
  {
    forall tag ensures WalkState(prim, direct', t', tag, {n}, None) {
      assert WalkState(prim, direct, t, tag, {n}, None);
      forall r: Rid ensures if r in {n} then Unvisited(prim, direct', t', Key(r, tag), None) else LocalAt(prim, direct', t', Key(r, tag)) {
        assert if r in {n} then Unvisited(prim, direct, t, Key(r, tag), None) else LocalAt(prim, direct, t, Key(r, tag));
        assert tag == w.tag ==> LocalAt(prim, direct', t', Key(r, tag));
      }
    }
  }

  lemma InheritanceIsOpen(prim: Forest, direct: TagTable, t: TagTable, n: Rid, parent: Rid)
    requires forall tag :: WalkState(prim, direct, t, tag, {n}, None)
    requires n in prim <==> parent != 0
    requires parent != 0 ==> prim[n] == parent
    ensures parent == 0 ==> forall tag :: TagRight(prim, direct, t, tag)
    ensures parent != 0 ==>
      forall tag :: WalkState(prim, direct, t, tag, Children(prim, {parent}), Inherit(Lookup(t, Key(parent, tag))))
  {
    forall tag
      ensures parent == 0 ==> TagRight(prim, direct, t, tag)
      ensures parent != 0 ==> WalkState(prim, direct, t, tag, Children(prim, {parent}), Inherit(Lookup(t, Key(parent, tag))))
    {
      assert WalkState(prim, direct, t, tag, {n}, None);
      forall r: Rid
        ensures parent == 0 ==> LocalAt(prim, direct, t, Key(r, tag))
        ensures parent != 0 ==>
          if r in Children(prim, {parent}) then Unvisited(prim, direct, t, Key(r, tag), Inherit(Lookup(t, Key(parent, tag))))
          else LocalAt(prim, direct, t, Key(r, tag))
      {
        assert if r in {n} then Unvisited(prim, direct, t, Key(r, tag), None) else LocalAt(prim, direct, t, Key(r, tag));
      }
    }
  }

  /** Setting a row concerns its own tag only. */
  lemma OtherTagsKept(prim: Forest, direct: TagTable, direct': TagTable, t: TagTable, t': TagTable, k: Key, row: Row)
    requires direct' == direct[k := row]
    requires forall o: Key :: o.tag != k.tag ==> Lookup(t', o) == Lookup(t, o)
    ensures forall tag :: tag != k.tag && TagRight(prim, direct, t, tag) ==> TagRight(prim, direct', t', tag)
  {
    forall tag | tag != k.tag && TagRight(prim, direct, t, tag) ensures TagRight(prim, direct', t', tag) {
      forall r: Rid ensures LocalAt(prim, direct', t', Key(r, tag)) {
        assert LocalAt(prim, direct, t, Key(r, tag));
      }
    }
  }

  lemma NothingToPassElsewhere(prim: Forest, direct: TagTable, t: TagTable, rid: Rid, entries: set<Key>)
    requires entries == set k | k in t && k.rid == rid
    requires forall tag :: WalkState(prim, direct, t, tag, Children(prim, {rid}), Inherit(Lookup(t, Key(rid, tag))))
    ensures forall tag :: Key(rid, tag) !in entries ==> TagRight(prim, direct, t, tag)
  {
    hide WalkState, TagRight;
    forall tag | Key(rid, tag) !in entries ensures TagRight(prim, direct, t, tag) {
      assert WalkState(prim, direct, t, tag, Children(prim, {rid}), Inherit(Lookup(t, Key(rid, tag))));
      NothingToPass(prim, direct, t, rid, tag);
    }
  }

  lemma RowStillThere(t: TagTable, start: TagTable, k: Key)
    requires Lookup(t, k) == Lookup(start, k) && k in start
    ensures k in t && t[k] == start[k]
  {
  }

  /** What a row passes on is what its children inherit. */
  lemma RowPassesItself(t: TagTable, k: Key, w: Walk)
    requires k in t && w.tag == k.tag && w.origid == t[k].origid && w.mtime == t[k].mtime && w.value == t[k].value
    requires w.kind == (if t[k].tagtype == Singleton then Cancel else t[k].tagtype)
    ensures Inherit(Lookup(t, k)) == w.Passed() && Inheritable(w.Passed()) && Overrides(w, w.Passed())
  {
  }

  lemma WalkPushes(prim: Forest, direct: TagTable, w: Walk, pid: Rid, was: Option<Row>, p: Progress, c: Rid)
    requires Walking(prim, direct, w, pid, was, p) && c in p.todo
    ensures c !in p.pushed
  {
  }

  /** What a walk gives at any time, and at its end. */
  lemma WalkKeeps(prim: Forest, direct: TagTable, w: Walk, pid: Rid, was: Option<Row>, p: Progress)
    requires Walking(prim, direct, w, pid, was, p)
    ensures p.pushed <= prim.Keys
    ensures forall k: Key :: k.tag != w.tag ==> Lookup(p.t, k) == Lookup(p.t0, k)
    ensures p.queued == {} && p.todo == {} && Overrides(w, was) ==> TagRight(prim, direct, p.t, w.tag)
    ensures Stuck(prim, direct, p.t0, w, pid, was) ==> p.t == p.t0
  {
  }

  lemma {:induction false} CardinalityMonotone<T>(a: set<T>, b: set<T>)
    requires a <= b
    ensures |a| <= |b|
    decreases a
  {
    if a != {} {
      var x :| x in a;
      CardinalityMonotone(a - {x}, b - {x});
    }
  }
}
