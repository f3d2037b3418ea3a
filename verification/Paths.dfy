/** Breadth-first search in the checkin graph (internal/path/path.go). Links are followed in both directions, over all
    parents or only the primary ones, and never onto a skipped checkin. */
module Paths {
  import opened Bytes

  type Rid = r: int | 0 < r witness 1

  /** A row of plink: a parent, a child, and whether the parent is the primary one. */
  datatype Plink = Plink(pid: Rid, cid: Rid, isprim: bool)

  /** A node of the search, reached from another. */
  datatype PathNode = PathNode(rid: Rid, from: Option<PathNode>, depth: nat)

  /** The rows that a query looks at. */
  predicate Counts(row: Plink, directOnly: bool) { row.isprim || !directOnly }

  ghost predicate Adjacent(plink: seq<Plink>, directOnly: bool, a: Rid, b: Rid) {
    exists row :: row in plink && Counts(row, directOnly) && ((row.pid == a && row.cid == b) || (row.cid == a && row.pid == b))
  }

  /** A walk along edges that, after its first node, avoids the skipped ones. */
  ghost predicate IsPath(plink: seq<Plink>, directOnly: bool, skip: set<Rid>, p: seq<Rid>, from: Rid, to: Rid) {
    && p != [] && p[0] == from && p[|p| - 1] == to
    && (forall i :: 0 < i < |p| ==> p[i] !in skip)
    && forall i, j :: 0 <= i && j == i + 1 < |p| ==> Adjacent(plink, directOnly, p[i], p[j])
  }

  ghost predicate IsShortest(plink: seq<Plink>, directOnly: bool, skip: set<Rid>, p: seq<Rid>, from: Rid, to: Rid) {
    && IsPath(plink, directOnly, skip, p, from, to)
    && forall q :: IsPath(plink, directOnly, skip, q, from, to) ==> |p| <= |q|
  }

  /** The nodes on the way to a node. */
  ghost function PathOf(n: PathNode): (p: seq<Rid>)
    ensures p != [] && p[|p| - 1] == n.rid
  {
    match n.from
    case None => [n.rid]
    case Some(m) => PathOf(m) + [n.rid]
  }

  /** The children of a checkin, then its parents. */
  method Neighbors(plink: seq<Plink>, directOnly: bool, rid: Rid) returns (result: seq<Rid>)
    ensures forall b: Rid :: b in result <==> Adjacent(plink, directOnly, rid, b)
  {
    result := [];
    for i := 0 to |plink|
      invariant forall b: Rid :: b in result <==> exists row :: row in plink[..i] && Counts(row, directOnly) && row.pid == rid && row.cid == b
    {
      assert plink[..i + 1] == plink[..i] + [plink[i]];
      if Counts(plink[i], directOnly) && plink[i].pid == rid {
        result := result + [plink[i].cid];
      }
    }
    assert plink[..|plink|] == plink;
    ghost var children := result;
    for i := 0 to |plink|
      invariant forall b: Rid :: b in result <==> b in children || exists row :: row in plink[..i] && Counts(row, directOnly) && row.cid == rid && row.pid == b
    {
      assert plink[..i + 1] == plink[..i] + [plink[i]];
      if Counts(plink[i], directOnly) && plink[i].cid == rid {
        result := result + [plink[i].pid];
      }
    }
  }

  /** The path in forward order. */
  method Reconstruct(end: PathNode) returns (out: seq<PathNode>)
    ensures |out| == |PathOf(end)| && forall i :: 0 <= i < |out| ==> out[i] == PathNode(PathOf(end)[i], None, i)
  {
    var rev: seq<PathNode> := [];
    var n := Some(end);
    while n.Some?
      invariant forall i :: 0 <= i < |rev| ==> i < |PathOf(end)| && rev[i].rid == PathOf(end)[|PathOf(end)| - 1 - i]
      invariant |PathOf(end)| == |rev| + match n case None => 0 case Some(m) => |PathOf(m)|
      invariant n.Some? ==> PathOf(n.value) == PathOf(end)[..|PathOf(n.value)|]
      decreases n
    {
      rev := rev + [n.value];
      n := n.value.from;
    }
    out := [];
    for i := 0 to |rev|
      invariant |out| == i && forall k :: 0 <= k < i ==> out[k] == PathNode(PathOf(end)[k], None, k)
    {
      out := out + [PathNode(rev[|rev| - 1 - i].rid, None, i)];
    }
  }

  // ----- the search -----

  /** What the search knows: the depth of every node found so far, and which of them have been expanded. */
  ghost predicate Explored(plink: seq<Plink>, directOnly: bool, skip: set<Rid>, dist: map<Rid, nat>, done: set<Rid>) {
    forall x: Rid, y: Rid :: x in done && Adjacent(plink, directOnly, x, y) && y !in skip && x in dist ==>
      y in dist && dist[y] <= dist[x] + 1
  }

  /** Until everything up to some depth is expanded, a walk either leads to a node found at no greater depth, or
      is longer than that. */
  lemma {:induction false} WalksAreFound(plink: seq<Plink>, directOnly: bool, skip: set<Rid>, dist: map<Rid, nat>, done: set<Rid>,
                                         depth: nat, p: seq<Rid>, from: Rid, to: Rid)
    requires Explored(plink, directOnly, skip, dist, done) && from in dist && dist[from] == 0
    requires forall x: Rid :: x in dist && x !in done ==> depth <= dist[x]
    requires IsPath(plink, directOnly, skip, p, from, to)
    ensures (to in dist && dist[to] < |p|) || depth + 1 < |p|
    decreases |p|
  {
    if |p| > 1 {
      var k := |p| - 2;
      var init := p[..k + 1];
      assert Adjacent(plink, directOnly, p[k], p[k + 1]) by { var j := k + 1; }
      WalksAreFound(plink, directOnly, skip, dist, done, depth, init, from, p[k]);
    }
  }

  /** A node of the queue carries a path as long as its depth. */
  ghost predicate IsNode(plink: seq<Plink>, directOnly: bool, skip: set<Rid>, from: Rid, dist: map<Rid, nat>, n: PathNode) {
    && n.rid in dist && dist[n.rid] == n.depth && |PathOf(n)| == n.depth + 1
    && IsPath(plink, directOnly, skip, PathOf(n), from, n.rid)
  }

  ghost predicate Queued(queue: seq<PathNode>, x: Rid) {
    exists n :: n in queue && n.rid == x
  }

  ghost predicate InOrder(queue: seq<PathNode>) {
    forall i, j :: 0 <= i < j < |queue| ==> queue[i].depth <= queue[j].depth && queue[i].rid != queue[j].rid
  }

  /** The search at some depth: the queue holds what is found but neither expanded nor just being expanded, in
      order of depth. */
  ghost predicate Searching(plink: seq<Plink>, directOnly: bool, skip: set<Rid>, from: Rid, depth: nat,
                            queue: seq<PathNode>, dist: map<Rid, nat>, done: set<Rid>, busy: set<Rid>) {
    && from in dist && dist[from] == 0 && InOrder(queue) && Explored(plink, directOnly, skip, dist, done)
    && (forall n :: n in queue ==> IsNode(plink, directOnly, skip, from, dist, n) && depth <= n.depth && n.rid !in done && n.rid !in busy)
    && (forall x: Rid :: x in dist ==> dist[x] <= depth + 1 && (x in done || x in busy || Queued(queue, x)))
    && (forall x: Rid :: x in done ==> x in dist && dist[x] <= depth)
    && (forall x: Rid :: x in busy ==> x in dist && dist[x] == depth && x !in done)
  }

  lemma Start(plink: seq<Plink>, directOnly: bool, skip: set<Rid>, from: Rid)
    ensures Searching(plink, directOnly, skip, from, 0, [PathNode(from, None, 0)], map[from := 0], {}, {})
  {
    assert PathNode(from, None, 0) in [PathNode(from, None, 0)];
  }

  lemma Behind(queue: seq<PathNode>)
    requires InOrder(queue) && queue != []
    ensures InOrder(queue[1..])
    ensures forall n :: n in queue[1..] ==> n in queue && queue[0].depth <= n.depth && n.rid != queue[0].rid
    ensures forall n :: n in queue ==> n == queue[0] || n in queue[1..]
  {
  }

  lemma QueuedBehind(queue: seq<PathNode>, x: Rid)
    requires InOrder(queue) && queue != []
    ensures Queued(queue, x) ==> x == queue[0].rid || Queued(queue[1..], x)
  {
    Behind(queue);
  }

  lemma NodeIsFound(plink: seq<Plink>, directOnly: bool, skip: set<Rid>, from: Rid, dist: map<Rid, nat>, n: PathNode)
    requires IsNode(plink, directOnly, skip, from, dist, n)
    ensures n.rid in dist && dist[n.rid] == n.depth
  {
  }

  /** The head of the queue leaves it to be expanded. */
  lemma Pop(plink: seq<Plink>, directOnly: bool, skip: set<Rid>, from: Rid, depth: nat,
            queue: seq<PathNode>, dist: map<Rid, nat>, done: set<Rid>)
    requires Searching(plink, directOnly, skip, from, depth, queue, dist, done, {}) && queue != []
    ensures Searching(plink, directOnly, skip, from, queue[0].depth, queue[1..], dist, done, {queue[0].rid})
    ensures IsNode(plink, directOnly, skip, from, dist, queue[0]) && queue[0].rid !in done
  {
    hide IsNode, Explored, InOrder, Queued;
    assert queue[0] in queue;
    Behind(queue);
    NodeIsFound(plink, directOnly, skip, from, dist, queue[0]);
    forall x: Rid | x in dist && x !in done && x != queue[0].rid ensures Queued(queue[1..], x) {
      QueuedBehind(queue, x);
    }
  }

  lemma OneMore(queue: seq<PathNode>, node: PathNode)
    requires InOrder(queue) && forall n :: n in queue ==> n.depth <= node.depth && n.rid != node.rid
    ensures InOrder(queue + [node])
    ensures forall n :: n in queue + [node] <==> n in queue || n == node
    ensures forall x :: Queued(queue, x) || x == node.rid ==> Queued(queue + [node], x)
  {
    assert forall i :: 0 <= i < |queue| ==> queue[i] in queue;
    assert forall n :: n in queue + [node] <==> n in queue || n == node;
  }

  /** The path to a neighbour. */
  lemma NodeGrows(plink: seq<Plink>, directOnly: bool, skip: set<Rid>, from: Rid, dist: map<Rid, nat>, cur: PathNode, nid: Rid)
    requires IsNode(plink, directOnly, skip, from, dist, cur) && Adjacent(plink, directOnly, cur.rid, nid) && nid !in skip
    ensures IsNode(plink, directOnly, skip, from, dist[nid := cur.depth + 1], PathNode(nid, Some(cur), cur.depth + 1))
  {
    hide IsPath, Adjacent;
    PathGrows(plink, directOnly, skip, PathOf(cur), from, cur.rid, nid);
    assert PathOf(PathNode(nid, Some(cur), cur.depth + 1)) == PathOf(cur) + [nid];
  }

  lemma NodeStays(plink: seq<Plink>, directOnly: bool, skip: set<Rid>, from: Rid, dist: map<Rid, nat>, n: PathNode, nid: Rid, d: nat)
    requires IsNode(plink, directOnly, skip, from, dist, n) && nid !in dist
    ensures IsNode(plink, directOnly, skip, from, dist[nid := d], n) && n.rid in dist && dist[n.rid] == n.depth
  {
  }

  /** A neighbour that was not visited joins the queue, one deeper. */
  lemma Push(plink: seq<Plink>, directOnly: bool, skip: set<Rid>, from: Rid, depth: nat,
             queue: seq<PathNode>, dist: map<Rid, nat>, done: set<Rid>, cur: PathNode, nid: Rid)
    requires Searching(plink, directOnly, skip, from, depth, queue, dist, done, {cur.rid})
    requires IsNode(plink, directOnly, skip, from, dist, cur) && cur.depth == depth
    requires Adjacent(plink, directOnly, cur.rid, nid) && nid !in skip && nid !in dist
    ensures IsNode(plink, directOnly, skip, from, dist[nid := depth + 1], PathNode(nid, Some(cur), depth + 1))
    ensures Searching(plink, directOnly, skip, from, depth, queue + [PathNode(nid, Some(cur), depth + 1)], dist[nid := depth + 1], done, {cur.rid})
    ensures IsNode(plink, directOnly, skip, from, dist[nid := depth + 1], cur)
  {
    hide IsPath, PathOf, Adjacent, InOrder, Queued, IsNode;
    var node, dist' := PathNode(nid, Some(cur), depth + 1), dist[nid := depth + 1];
    NodeGrows(plink, directOnly, skip, from, dist, cur, nid);
    NodeStays(plink, directOnly, skip, from, dist, cur, nid, depth + 1);
    forall n | n in queue ensures IsNode(plink, directOnly, skip, from, dist', n) && n.rid in dist && dist[n.rid] == n.depth {
      NodeStays(plink, directOnly, skip, from, dist, n, nid, depth + 1);
    }
    OneMore(queue, node);
  }

  lemma PathGrows(plink: seq<Plink>, directOnly: bool, skip: set<Rid>, p: seq<Rid>, from: Rid, mid: Rid, to: Rid)
    requires IsPath(plink, directOnly, skip, p, from, mid) && Adjacent(plink, directOnly, mid, to) && to !in skip
    ensures IsPath(plink, directOnly, skip, p + [to], from, to)
  {
    hide Adjacent;
  }

  /** All neighbours have been seen to. */
  lemma Finish(plink: seq<Plink>, directOnly: bool, skip: set<Rid>, from: Rid, depth: nat,
               queue: seq<PathNode>, dist: map<Rid, nat>, done: set<Rid>, rid: Rid)
    requires Searching(plink, directOnly, skip, from, depth, queue, dist, done, {rid})
    requires forall y: Rid :: Adjacent(plink, directOnly, rid, y) ==> y in dist || y in skip
    ensures Searching(plink, directOnly, skip, from, depth, queue, dist, done + {rid}, {})
    ensures rid in dist && rid !in done
  {
    hide IsPath, PathOf, Adjacent;
  }

  /** The target is found at the least depth. */
  lemma FoundIsShortest(plink: seq<Plink>, directOnly: bool, skip: set<Rid>, from: Rid, depth: nat,
                        queue: seq<PathNode>, dist: map<Rid, nat>, done: set<Rid>, busy: set<Rid>, p: seq<Rid>, to: Rid)
    requires Searching(plink, directOnly, skip, from, depth, queue, dist, done, busy) && to !in dist
    requires IsPath(plink, directOnly, skip, p, from, to) && |p| == depth + 2
    ensures IsShortest(plink, directOnly, skip, p, from, to)
  {
    forall q | IsPath(plink, directOnly, skip, q, from, to) ensures |p| <= |q| {
      WalksAreFound(plink, directOnly, skip, dist, done, depth, q, from, to);
    }
  }

  /** Nothing is left to expand: there is no path. */
  lemma NoPathIsLeft(plink: seq<Plink>, directOnly: bool, skip: set<Rid>, from: Rid, depth: nat,
                     dist: map<Rid, nat>, done: set<Rid>, to: Rid)
    requires Searching(plink, directOnly, skip, from, depth, [], dist, done, {}) && to !in dist
    ensures forall q :: !IsPath(plink, directOnly, skip, q, from, to)
  {
    forall q ensures !IsPath(plink, directOnly, skip, q, from, to) {
      if IsPath(plink, directOnly, skip, q, from, to) {
        WalksAreFound(plink, directOnly, skip, dist, done, |q|, q, from, to);
      }
    }
  }

  /** All rids that the graph mentions. */
  ghost function Mentioned(plink: seq<Plink>): set<Rid> {
    (set row | row in plink :: row.pid) + (set row | row in plink :: row.cid)
  }

  /** The shortest path, or none if there is none. */
  method Shortest(plink: seq<Plink>, from: Rid, to: Rid, directOnly: bool, skip: set<Rid>) returns (r: Option<seq<PathNode>>)
    ensures match r
            case None => forall q :: !IsPath(plink, directOnly, skip, q, from, to)
            case Some(out) =>
              && IsShortest(plink, directOnly, if from == to then {} else skip, Rids(out), from, to)
              && forall i :: 0 <= i < |out| ==> out[i].depth == i
  {
    hide IsPath, IsShortest, Adjacent, Searching, IsNode;
    if from == to {
      SelfIsShortest(plink, directOnly, from);
      return Some([PathNode(from, None, 0)]);
    }
    var visited := {from} + skip;
    var queue := [PathNode(from, None, 0)];
    ghost var depth, dist: map<Rid, nat>, done: set<Rid> := 0, map[from := 0], {};
    Start(plink, directOnly, skip, from);
    while |queue| > 0
      invariant Searching(plink, directOnly, skip, from, depth, queue, dist, done, {})
      invariant visited == dist.Keys + skip && to !in dist && done <= dist.Keys <= Mentioned(plink) + {from}
      decreases Mentioned(plink) + {from} - done
    {
      var cur := queue[0];
      Pop(plink, directOnly, skip, from, depth, queue, dist, done);
      queue := queue[1..];
      depth := cur.depth;
      var neighbors := Neighbors(plink, directOnly, cur.rid);
      for i := 0 to |neighbors|
        invariant Searching(plink, directOnly, skip, from, depth, queue, dist, done, {cur.rid})
        invariant IsNode(plink, directOnly, skip, from, dist, cur)
        invariant visited == dist.Keys + skip && to !in dist && done <= dist.Keys <= Mentioned(plink) + {from}
        invariant forall y: Rid :: y in neighbors[..i] ==> y in dist || y in skip
      {
        var nid := neighbors[i];
        assert nid in neighbors;
        if nid in visited {
          continue;
        }
        visited := visited + {nid};
        var node := PathNode(nid, Some(cur), cur.depth + 1);
        Push(plink, directOnly, skip, from, depth, queue, dist, done, cur, nid);
        if nid == to {
          NodePath(plink, directOnly, skip, from, dist[nid := depth + 1], node);
          FoundIsShortest(plink, directOnly, skip, from, depth, queue, dist, done, {cur.rid}, PathOf(node), to);
          var out := Reconstruct(node);
          assert Rids(out) == PathOf(node);
          return Some(out);
        }
        queue := queue + [node];
        dist := dist[nid := depth + 1];
        AdjacentIsMentioned(plink, directOnly, cur.rid, nid);
      }
      assert neighbors[..|neighbors|] == neighbors;
      Finish(plink, directOnly, skip, from, depth, queue, dist, done, cur.rid);
      done := done + {cur.rid};
    }
    NoPathIsLeft(plink, directOnly, skip, from, depth, dist, done, to);
    return None;
  }

  function Rids(out: seq<PathNode>): seq<Rid> { seq(|out|, i requires 0 <= i < |out| => out[i].rid) }

  lemma NodePath(plink: seq<Plink>, directOnly: bool, skip: set<Rid>, from: Rid, dist: map<Rid, nat>, n: PathNode)
    requires IsNode(plink, directOnly, skip, from, dist, n)
    ensures IsPath(plink, directOnly, skip, PathOf(n), from, n.rid) && |PathOf(n)| == n.depth + 1
  {
  }

  lemma SelfIsShortest(plink: seq<Plink>, directOnly: bool, from: Rid)
    ensures IsShortest(plink, directOnly, {}, Rids([PathNode(from, None, 0)]), from, from)
  {
  }

  lemma AdjacentIsMentioned(plink: seq<Plink>, directOnly: bool, a: Rid, b: Rid)
    requires Adjacent(plink, directOnly, a, b)
    ensures b in Mentioned(plink)
  {
  }
}
