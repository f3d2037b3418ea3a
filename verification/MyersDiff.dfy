/** The O(nd) difference algorithm (internal/diff/diff.go: `myers`, `backtrack`). */
module MyersDiff {
  import opened Lcs
  import opened EditGraph
  import opened EditScript

  // ----- what the search records -----

  // Round d of the search visits the diagonals -d, -d + 2, .., d. A diagonal of round d is named here by the
  // deletions and insertions that lead to it, (del, ins) with del + ins == d; it is the diagonal x - y == del - ins.

  /** Where the run of equal lines starting at (x, x - k) ends. */
  ghost function Snake(src: seq<Line>, dst: seq<Line>, x: nat, k: int): (end: nat)
    requires k <= x
    ensures x <= end
    decreases |src| - x
  {
    if Eq(src, dst, x, x - k) then Snake(src, dst, x + 1, k) else x
  }

  /** Where a round enters a diagonal: right from the one below or down from the one above. */
  ghost function Start(src: seq<Line>, dst: seq<Line>, del: nat, ins: nat): (x: nat)
    ensures del - ins <= x
    decreases del + ins, 0
  {
    if del == 0 && ins == 0 then 0
    else if del == 0 then Far(src, dst, del, ins - 1)
    else if ins == 0 then Far(src, dst, del - 1, ins) + 1
    else Max(Far(src, dst, del - 1, ins) + 1, Far(src, dst, del, ins - 1))
  }

  /** The x that is recorded for the diagonal. */
  ghost function Far(src: seq<Line>, dst: seq<Line>, del: nat, ins: nat): (x: nat)
    ensures del - ins <= x
    decreases del + ins, 1
  {
    Snake(src, dst, Start(src, dst, del, ins), del - ins)
  }

  lemma StartUnfolds(src: seq<Line>, dst: seq<Line>, del: nat, ins: nat)
    ensures del == 0 && ins == 0 ==> Start(src, dst, del, ins) == 0
    ensures del == 0 && ins > 0 ==> Start(src, dst, del, ins) == Far(src, dst, del, ins - 1)
    ensures del > 0 && ins == 0 ==> Start(src, dst, del, ins) == Far(src, dst, del - 1, ins) + 1
    ensures del > 0 && ins > 0 ==>
      Start(src, dst, del, ins) == Max(Far(src, dst, del - 1, ins) + 1, Far(src, dst, del, ins - 1))
  {
  }

  lemma FarUnfolds(src: seq<Line>, dst: seq<Line>, del: nat, ins: nat)
    ensures Far(src, dst, del, ins) == Snake(src, dst, Start(src, dst, del, ins), del - ins)
  {
  }

  lemma SnakeUnfolds(src: seq<Line>, dst: seq<Line>, x: nat, k: int)
    requires k <= x
    ensures Snake(src, dst, x, k) == if Eq(src, dst, x, x - k) then Snake(src, dst, x + 1, k) else x
  {
  }

  lemma {:induction false} SnakeIsFree(src: seq<Line>, dst: seq<Line>, x: nat, k: int)
    requires k <= x
    ensures !Eq(src, dst, Snake(src, dst, x, k), Snake(src, dst, x, k) - k)
    ensures Dist(src, dst, Snake(src, dst, x, k), Snake(src, dst, x, k) - k) <= Dist(src, dst, x, x - k)
    decreases |src| - x
  {
    hide Dist;
    var y := x - k;
    if Eq(src, dst, x, y) {
      SnakeIsFree(src, dst, x + 1, k);
      DistUnfolds(src, dst, x + 1, y + 1);
    }
  }

  /** Every step of the run joins equal lines. */
  lemma {:induction false} SnakeMatches(src: seq<Line>, dst: seq<Line>, x: nat, k: int, i: nat)
    requires k <= x <= i < Snake(src, dst, x, k)
    ensures Eq(src, dst, i, i - k)
    decreases i - x
  {
    if x < i { SnakeMatches(src, dst, x + 1, k, i); }
  }

  /** The recorded point can be reached with del + ins edits. */
  lemma {:induction false} FarIsReached(src: seq<Line>, dst: seq<Line>, del: nat, ins: nat)
    ensures Dist(src, dst, Far(src, dst, del, ins), Far(src, dst, del, ins) - (del - ins)) <= del + ins
    decreases del + ins
  {
    hide Far, Start, Dist, Snake, Eq;
    StartUnfolds(src, dst, del, ins);
    FarUnfolds(src, dst, del, ins);
    var x := Start(src, dst, del, ins);
    var y := x - (del - ins);
    SnakeIsFree(src, dst, x, del - ins);
    if del == 0 && ins == 0 {
      DistUnfolds(src, dst, 0, 0);
    } else if ins > 0 && x == Far(src, dst, del, ins - 1) {
      FarIsReached(src, dst, del, ins - 1);
      DistSteps(src, dst, x, y - 1);
    } else {
      FarIsReached(src, dst, del - 1, ins);
      DistSteps(src, dst, x - 1, y);
    }
  }

  /** A diagonal gets at least as far as one move from its neighbours, and stops only where lines differ. */
  lemma FarAdvances(src: seq<Line>, dst: seq<Line>, del: nat, ins: nat)
    ensures del > 0 ==> Far(src, dst, del - 1, ins) + 1 <= Far(src, dst, del, ins)
    ensures ins > 0 ==> Far(src, dst, del, ins - 1) <= Far(src, dst, del, ins)
    ensures !Eq(src, dst, Far(src, dst, del, ins), Far(src, dst, del, ins) - (del - ins))
  {
    hide Far, Snake, Start, Dist, Eq;
    StartUnfolds(src, dst, del, ins);
    FarUnfolds(src, dst, del, ins);
    SnakeIsFree(src, dst, Start(src, dst, del, ins), del - ins);
  }

  /** No point of the diagonal that del + ins edits reach lies further out: the furthest-reaching invariant. */
  lemma {:induction false} FarIsFurthest(src: seq<Line>, dst: seq<Line>, del: nat, ins: nat, x: nat, y: nat)
    requires x - y == del - ins && Dist(src, dst, x, y) <= del + ins
    ensures x <= Far(src, dst, del, ins)
    decreases del + ins, x
  {
    hide Far, Dist, Eq;
    DistUnfolds(src, dst, x, y);
    FarAdvances(src, dst, del, ins);
    if x > 0 && y > 0 && Eq(src, dst, x - 1, y - 1) {
      FarIsFurthest(src, dst, del, ins, x - 1, y - 1);
      assert Far(src, dst, del, ins) == x - 1 ==> y - 1 == x - 1 - (del - ins);
    } else if x > 0 && Dist(src, dst, x - 1, y) < Dist(src, dst, x, y) {
      var del', ins' := DistSplits(src, dst, x - 1, y);
      FarIsFurthest(src, dst, del - 1, ins, x - 1, y);
    } else if y > 0 {
      var del', ins' := DistSplits(src, dst, x, y - 1);
      FarIsFurthest(src, dst, del, ins - 1, x, y - 1);
    }
  }

  /** The first recorded point past both edges is the far corner, and its round is its distance. */
  lemma FirstArrivalIsCorner(src: seq<Line>, dst: seq<Line>, del: nat, ins: nat)
    requires del + ins <= Dist(src, dst, |src|, |dst|)
    requires |src| <= Far(src, dst, del, ins) && |dst| <= Far(src, dst, del, ins) - (del - ins)
    ensures Far(src, dst, del, ins) == |src| && del - ins == |src| - |dst|
    ensures del + ins == Dist(src, dst, |src|, |dst|)
  {
    hide Far, Dist;
    var x := Far(src, dst, del, ins);
    var y := x - (del - ins);
    FarIsReached(src, dst, del, ins);
    DistCorner(src, dst, x, y);
  }

  /** Round Dist(|src|, |dst|) records the far corner on one of its diagonals. */
  lemma ArrivesInTime(src: seq<Line>, dst: seq<Line>) returns (del: nat, ins: nat)
    ensures del + ins == Dist(src, dst, |src|, |dst|) <= |src| + |dst|
    ensures del - ins == |src| - |dst| && |src| <= Far(src, dst, del, ins)
  {
    hide Far, Dist;
    del, ins := DistSplits(src, dst, |src|, |dst|);
    FarIsFurthest(src, dst, del, ins, |src|, |dst|);
  }

  // ----- the array v and its snapshots -----

  ghost predicate Sized(src: seq<Line>, dst: seq<Line>, v: seq<int>) {
    |v| == 2 * (|src| + |dst|) + 1 > 1
  }

  /** v holds what was recorded for the diagonal. */
  ghost predicate Entry(src: seq<Line>, dst: seq<Line>, v: seq<int>, del: nat, ins: nat) {
    && Sized(src, dst, v)
    && del + ins <= |src| + |dst|
    && v[del - ins + |src| + |dst|] == Far(src, dst, del, ins)
  }

  /** The entries of v that round d wrote for fewer than `written` deletions. */
  ghost predicate Recorded(src: seq<Line>, dst: seq<Line>, v: seq<int>, d: int, written: int) {
    forall del: nat, ins: nat :: del + ins == d && del < written ==> Entry(src, dst, v, del, ins)
  }

  /** The contents of v when round d starts, as kept in the trace. */
  ghost predicate Snapshot(src: seq<Line>, dst: seq<Line>, v: seq<int>, d: nat) {
    && Sized(src, dst, v)
    && (d == 0 ==> v[|src| + |dst| + 1] == 0)
    && Recorded(src, dst, v, d - 1, d)
  }

  ghost predicate Trace(src: seq<Line>, dst: seq<Line>, trace: seq<seq<int>>) {
    forall d :: 0 <= d < |trace| ==> Snapshot(src, dst, trace[d], d)
  }

  /** The test the code makes on v: step down from the diagonal above, or right from the one below. */
  ghost predicate TestsDown(src: seq<Line>, dst: seq<Line>, v: seq<int>, del: nat, ins: nat)
    requires Sized(src, dst, v) && del + ins <= |src| + |dst|
  {
    var k, max := del - ins, |src| + |dst|;
    del == 0 || (ins != 0 && v[k - 1 + max] < v[k + 1 + max])
  }

  /** The test picks the move that Start stands for, and names the entry of the round before. */
  lemma TestPicksStart(src: seq<Line>, dst: seq<Line>, v: seq<int>, del: nat, ins: nat)
    requires Snapshot(src, dst, v, del + ins) && del + ins <= |src| + |dst|
    ensures Sized(src, dst, v)
    ensures TestsDown(src, dst, v, del, ins) ==>
      && v[del - ins + 1 + |src| + |dst|] == Start(src, dst, del, ins)
      && (del + ins > 0 ==> ins > 0 && v[del - ins + 1 + |src| + |dst|] == Far(src, dst, del, ins - 1))
    ensures !TestsDown(src, dst, v, del, ins) ==>
      del > 0 && v[del - ins - 1 + |src| + |dst|] + 1 == Start(src, dst, del, ins) == Far(src, dst, del - 1, ins) + 1
  {
    hide Far, Start;
    StartUnfolds(src, dst, del, ins);
    if del > 0 { assert Entry(src, dst, v, del - 1, ins); }
    if ins > 0 { assert Entry(src, dst, v, del, ins - 1); }
  }

  /** What the inner loop of round d knows of v before it records the diagonal with `del` deletions. */
  ghost predicate RoundState(src: seq<Line>, dst: seq<Line>, v: seq<int>, d: nat, del: nat) {
    && d <= |src| + |dst|
    && Sized(src, dst, v)
    && (d == 0 && del == 0 ==> v[|src| + |dst| + 1] == 0)
    && Recorded(src, dst, v, d - 1, d) && Recorded(src, dst, v, d, del)
  }

  lemma RoundStateIsSnapshot(src: seq<Line>, dst: seq<Line>, v: seq<int>, d: nat, del: nat)
    requires RoundState(src, dst, v, d, del) && del <= d
    ensures Snapshot(src, dst, v, d)
  {
    hide Recorded;
  }

  lemma RoundCloses(src: seq<Line>, dst: seq<Line>, v: seq<int>, d: nat)
    requires RoundState(src, dst, v, d, d + 1)
    ensures Snapshot(src, dst, v, d + 1)
  {
    hide Entry;
  }

  /** Recording a diagonal disturbs neither the round before nor what this round wrote already. */
  lemma RecordNext(src: seq<Line>, dst: seq<Line>, v: seq<int>, w: seq<int>, del: nat, ins: nat)
    requires RoundState(src, dst, v, del + ins, del)
    requires w == v[del - ins + |src| + |dst| := Far(src, dst, del, ins)]
    ensures RoundState(src, dst, w, del + ins, del + 1)
  {
    hide Far;
    var d := del + ins;
    var e := d - 1;
    forall del': nat, ins': nat | del' + ins' == e && del' < d ensures Entry(src, dst, w, del', ins') {
      assert Entry(src, dst, v, del', ins');
      if del' < del { assert del' - ins' < del - ins; } else { assert del' - ins' > del - ins; }
    }
    forall del': nat, ins': nat | del' + ins' == d && del' < del + 1 ensures Entry(src, dst, w, del', ins') {
      if del' < del { assert Entry(src, dst, v, del', ins'); }
    }
  }

  lemma TraceGrows(src: seq<Line>, dst: seq<Line>, trace: seq<seq<int>>, v: seq<int>)
    requires Trace(src, dst, trace) && Snapshot(src, dst, v, |trace|)
    ensures Trace(src, dst, trace + [v])
  {
    hide Snapshot;
  }

  // ----- rebuilding the script -----

  ghost function Reversed(s: seq<EditOp>): seq<EditOp> {
    seq(|s|, i requires 0 <= i < |s| => s[|s| - 1 - i])
  }

  /** `ops`, built backwards, is a script with e edits for the suffixes starting at (x, y). */
  ghost predicate Rebuilds(ops: seq<EditOp>, src: seq<Line>, dst: seq<Line>, x: nat, y: nat, e: int) {
    && x <= |src| && y <= |dst|
    && Transforms(Reversed(ops), src[x..], dst[y..])
    && Edits(Reversed(ops)) == e
  }

  lemma RebuildStarts(src: seq<Line>, dst: seq<Line>)
    ensures Rebuilds([], src, dst, |src|, |dst|, 0)
  {
  }

  lemma RebuildEnds(ops: seq<EditOp>, src: seq<Line>, dst: seq<Line>, e: int)
    requires Rebuilds(ops, src, dst, 0, 0, e)
    ensures Transforms(Reversed(ops), src, dst) && Edits(Reversed(ops)) == e
  {
    assert src[0..] == src && dst[0..] == dst;
  }

  lemma RebuildGrows(ops: seq<EditOp>, op: EditOp, src: seq<Line>, dst: seq<Line>, x: nat, y: nat, e: int)
    requires Rebuilds(ops, src, dst, x, y, e)
    requires op.kind != Insert ==> x > 0 && op.text == src[x - 1]
    requires op.kind != Delete ==> y > 0 && op.text == dst[y - 1]
    ensures Rebuilds(ops + [op], src, dst, if op.kind == Insert then x else x - 1,
                     if op.kind == Delete then y else y - 1, if op.kind == Equal then e else e + 1)
  {
    var r := [op] + Reversed(ops);
    assert Reversed(ops + [op]) == r;
    assert r[0] == op && r[1..] == Reversed(ops);
    if op.kind != Insert { assert src[x - 1..] == [op.text] + src[x..]; }
    if op.kind != Delete { assert dst[y - 1..] == [op.text] + dst[y..]; }
  }

  // ----- the code -----

  method Myers(src: seq<Line>, dst: seq<Line>) returns (ops: seq<EditOp>)
    ensures Transforms(ops, src, dst)
    ensures Edits(ops) == Dist(src, dst, |src|, |dst|)
  {
    var n, m := |src|, |dst|;
    if n == 0 && m == 0 {
      return [];
    }
    if n == 0 {
      ops := AllOps(dst, Insert);
      OneSided(ops, src, dst);
      return;
    }
    if m == 0 {
      ops := AllOps(src, Delete);
      OneSided(ops, src, dst);
      return;
    }
    ops := Search(src, dst);
  }

  /** The two one-sided cases: every line inserted, or every line deleted. */
  method AllOps(lines: seq<Line>, kind: OpKind) returns (ops: seq<EditOp>)
    requires kind != Equal
    ensures Side(ops, kind) == []
    ensures forall other :: other != kind ==> Side(ops, other) == lines
    ensures Edits(ops) == |lines|
  {
    ops := [];
    for i := 0 to |lines|
      invariant Side(ops, kind) == [] && Edits(ops) == i
      invariant forall other :: other != kind ==> Side(ops, other) == lines[..i]
    {
      hide Side, Count;
      var op := EditOp(kind, lines[i]);
      forall other ensures Side(ops + [op], other) == Side(ops, other) + if kind == other then [] else [lines[i]] {
        OneMoreOp(ops, op, other);
      }
      OneMoreEdit(ops, op);
      assert lines[..i + 1] == lines[..i] + [lines[i]];
      ops := ops + [op];
    }
    assert lines[..|lines|] == lines;
  }

  lemma OneMoreOp(ops: seq<EditOp>, op: EditOp, other: OpKind)
    ensures Side(ops + [op], other) == Side(ops, other) + if op.kind == other then [] else [op.text]
  {
    SideConcat(ops, [op], other);
    assert Side([op][1..], other) == [];
  }

  lemma OneMoreEdit(ops: seq<EditOp>, op: EditOp)
    requires op.kind != Equal
    ensures Edits(ops + [op]) == Edits(ops) + 1
  {
    CountConcat(ops, [op], Insert);
    CountConcat(ops, [op], Delete);
  }

  lemma OneSided(ops: seq<EditOp>, src: seq<Line>, dst: seq<Line>)
    requires src == [] || dst == []
    requires if dst == [] then Side(ops, Insert) == src && Side(ops, Delete) == []
             else Side(ops, Insert) == [] && Side(ops, Delete) == dst
    requires Edits(ops) == |src| + |dst|
    ensures Transforms(ops, src, dst) && Edits(ops) == Dist(src, dst, |src|, |dst|)
  {
  }

  /** The rounds of `myers`, once both sides are known to have lines. */
  method Search(src: seq<Line>, dst: seq<Line>) returns (ops: seq<EditOp>)
    requires |src| > 0 && |dst| > 0
    ensures Transforms(ops, src, dst)
    ensures Edits(ops) == Dist(src, dst, |src|, |dst|)
  {
    hide Far, Start, Snake, Dist, Trace, Recorded, Transforms, Edits;
    var n, m := |src|, |dst|;
    var max := n + m;
    var v := new int[2 * max + 1](_ => 0);
    v[1 + max] := 0;
    var trace: seq<seq<int>> := [];
    ghost var bestDel, bestIns := ArrivesInTime(src, dst);
    SearchStarts(src, dst, v[..]);

    for d := 0 to max + 1
      invariant d <= bestDel + bestIns
      invariant |trace| == d && Trace(src, dst, trace)
      invariant Snapshot(src, dst, v[..], d)
    {
      TraceGrows(src, dst, trace, v[..]);
      trace := trace + [v[..]];
      var k := -d;
      ghost var del, ins := 0, d;
      RoundStarts(src, dst, v[..], d);
      while k <= d
        invariant 0 <= del <= d + 1 && del + ins == d && k == del - ins
        invariant RoundState(src, dst, v[..], d, del)
        invariant d == bestDel + bestIns ==> del <= bestDel
        decreases d - k
      {
        RoundStateIsSnapshot(src, dst, v[..], d, del);
        TestPicksStart(src, dst, v[..], del, ins);
        FarUnfolds(src, dst, del, ins);
        var x: int;
        if k == -d || (k != d && v[k - 1 + max] < v[k + 1 + max]) {
          x := v[k + 1 + max];
        } else {
          x := v[k - 1 + max] + 1;
        }
        ghost var before := v[..];
        var y := x - k;
        while x < n && y < m && src[x] == dst[y]
          invariant 0 <= x && y == x - k >= 0 && v[..] == before
          invariant Snake(src, dst, x, k) == Far(src, dst, del, ins)
          decreases n - x
        {
          SnakeUnfolds(src, dst, x, k);
          x, y := x + 1, y + 1;
        }
        SnakeUnfolds(src, dst, x, k);
        assert d == bestDel + bestIns && del == bestDel ==> x >= n && y >= m;
        v[k + max] := x;
        RecordNext(src, dst, before, v[..], del, ins);
        if x >= n && y >= m {
          FirstArrivalIsCorner(src, dst, del, ins);
          ops := Backtrack(trace, src, dst, del, ins);
          return;
        }
        k, del, ins := k + 2, del + 1, ins - 1;
      }
      RoundCloses(src, dst, v[..], d);
    }
    assert false; // so the panic after the loop is never reached
  }

  lemma SearchStarts(src: seq<Line>, dst: seq<Line>, v: seq<int>)
    requires Sized(src, dst, v) && v[|src| + |dst| + 1] == 0
    ensures Trace(src, dst, []) && Snapshot(src, dst, v, 0)
  {
  }

  lemma RoundStarts(src: seq<Line>, dst: seq<Line>, v: seq<int>, d: nat)
    requires Snapshot(src, dst, v, d) && d <= |src| + |dst|
    ensures RoundState(src, dst, v, d, 0)
  {
    hide Entry;
  }

  lemma TraceHolds(src: seq<Line>, dst: seq<Line>, trace: seq<seq<int>>, d: nat)
    requires Trace(src, dst, trace) && d < |trace|
    ensures Snapshot(src, dst, trace[d], d) && Sized(src, dst, trace[d])
  {
    hide Recorded;
  }

  /** The diagonal that the test names is the one the round came from, and its entry is where that round stopped. */
  lemma PreviousPoint(src: seq<Line>, dst: seq<Line>, v: seq<int>, del: nat, ins: nat, prevK: int)
    requires Snapshot(src, dst, v, del + ins) && Sized(src, dst, v) && del + ins <= |src| + |dst|
    requires prevK == del - ins + if TestsDown(src, dst, v, del, ins) then 1 else -1
    ensures 0 <= prevK + |src| + |dst| < |v|
    ensures var prevX := v[prevK + |src| + |dst|];
            if prevK > del - ins then
              prevX == Start(src, dst, del, ins) && (del + ins > 0 ==> ins > 0 && prevX == Far(src, dst, del, ins - 1))
            else
              del > 0 && prevX + 1 == Start(src, dst, del, ins) && prevX == Far(src, dst, del - 1, ins)
  {
    hide Far, Start, Snapshot;
    TestPicksStart(src, dst, v, del, ins);
  }

  /** The diagonal moves of one round, backwards. */
  method BackAlongSnake(built: seq<EditOp>, src: seq<Line>, dst: seq<Line>, fromX: nat, fromY: nat, prevX: int, prevY: int,
                        ghost start: nat, ghost e: nat)
    returns (ops: seq<EditOp>, x: nat, y: nat)
    requires fromX <= |src| && fromY <= |dst| && fromX - fromY <= start <= fromX == Snake(src, dst, start, fromX - fromY)
    requires (prevX == start && prevY == start - (fromX - fromY) - 1) || (prevX == start - 1 && prevY == start - (fromX - fromY))
    requires Rebuilds(built, src, dst, fromX, fromY, e)
    ensures x == start && x - y == fromX - fromY
    ensures Rebuilds(ops, src, dst, x, y, e)
  {
    hide Snake, Rebuilds;
    ops, x, y := built, fromX, fromY;
    while x > prevX && y > prevY
      invariant start <= x <= fromX && y <= |dst| && x - y == fromX - fromY
      invariant Rebuilds(ops, src, dst, x, y, e)
      decreases x
    {
      SnakeMatches(src, dst, start, fromX - fromY, x - 1);
      x, y := x - 1, y - 1;
      RebuildGrows(ops, EditOp(Equal, src[x]), src, dst, x + 1, y + 1, e);
      ops := ops + [EditOp(Equal, src[x])];
    }
  }

  method Backtrack(trace: seq<seq<int>>, src: seq<Line>, dst: seq<Line>, ghost lastDel: nat, ghost lastIns: nat)
    returns (ops: seq<EditOp>)
    requires Trace(src, dst, trace) && |trace| == lastDel + lastIns + 1 <= |src| + |dst| + 1
    requires lastDel - lastIns == |src| - |dst| && Far(src, dst, lastDel, lastIns) == |src|
    ensures Transforms(ops, src, dst) && Edits(ops) == |trace| - 1
  {
    hide Far, Start, Snake, Dist, Snapshot, Trace, Transforms, Edits, Rebuilds, Reversed;
    var n, m := |src|, |dst|;
    var max := n + m;
    var x, y := n, m;
    ops := [];
    RebuildStarts(src, dst);
    var d := |trace| - 1;
    ghost var del: int, ins: int := lastDel, lastIns;
    while d >= 0
      invariant -1 <= d < |trace| && 0 <= x <= n && 0 <= y <= m
      invariant d >= 0 ==> 0 <= del && 0 <= ins && del + ins == d && del - ins == x - y && Far(src, dst, del, ins) == x
      invariant d < 0 ==> x == 0 && y == 0
      invariant Rebuilds(ops, src, dst, x, y, |trace| - 1 - if d < 0 then 0 else d)
    {
      var v := trace[d];
      TraceHolds(src, dst, trace, d);
      var k := x - y;
      var prevK: int;
      if k == -d || (k != d && v[k - 1 + max] < v[k + 1 + max]) {
        prevK := k + 1;
      } else {
        prevK := k - 1;
      }
      PreviousPoint(src, dst, v, del, ins, prevK);
      var prevX := v[prevK + max];
      var prevY := prevX - prevK;
      ghost var start := Start(src, dst, del, ins);
      FarUnfolds(src, dst, del, ins);
      StartUnfolds(src, dst, del, ins);
      ops, x, y := BackAlongSnake(ops, src, dst, x, y, prevX, prevY, start, |trace| - 1 - d);
      if d > 0 {
        if x == prevX {
          y := y - 1;
          RebuildGrows(ops, EditOp(Insert, dst[y]), src, dst, x, y + 1, |trace| - 1 - d);
          ops := ops + [EditOp(Insert, dst[y])];
          ins := ins - 1;
        } else {
          x := x - 1;
          RebuildGrows(ops, EditOp(Delete, src[x]), src, dst, x + 1, y, |trace| - 1 - d);
          ops := ops + [EditOp(Delete, src[x])];
          del := del - 1;
        }
      }
      d := d - 1;
    }
    RebuildEnds(ops, src, dst, |trace| - 1);
    ops := ReverseInPlace(ops);
    var rebuilt := CheckPostcondition(ops, src, dst);
  }

  /** The swap loop of `backtrack`. */
  method ReverseInPlace(built: seq<EditOp>) returns (ops: seq<EditOp>)
    ensures ops == Reversed(built)
  {
    ops := built;
    var i, j := 0, |ops| - 1;
    while i < j
      invariant |ops| == |built| && 0 <= i <= |built| && j == |built| - 1 - i
      invariant forall p :: i <= p <= j ==> ops[p] == built[p]
      invariant forall p :: (0 <= p < i || j < p < |built|) && p < |built| ==> ops[p] == Reversed(built)[p]
    {
      ops := ops[i := ops[j]][j := ops[i]];
      i, j := i + 1, j - 1;
    }
  }

  /** The final loop of `backtrack`; its two panics are the two assertions. */
  method CheckPostcondition(ops: seq<EditOp>, ghost src: seq<Line>, dst: seq<Line>) returns (ri: nat)
    requires Transforms(ops, src, dst)
    ensures ri == |dst|
  {
    ri := 0;
    for i := 0 to |ops|
      invariant 0 <= ri <= |dst| && DstOf(ops[i..]) == dst[ri..]
    {
      assert ops[i..][0] == ops[i] && ops[i..][1..] == ops[i + 1..];
      if ops[i].kind == Equal || ops[i].kind == Insert {
        assert dst[ri..] == [ops[i].text] + DstOf(ops[i + 1..]);
        assert ri < |dst| && ops[i].text == dst[ri];
        ri := ri + 1;
      }
    }
    assert ri == |dst|;
  }

  /** The script is minimal among all scripts from src to dst, and its size is given by the longest
      common subsequence. */
  lemma MyersIsOptimal(src: seq<Line>, dst: seq<Line>, ops: seq<EditOp>)
    requires Transforms(ops, src, dst) && Edits(ops) == Dist(src, dst, |src|, |dst|)
    ensures Edits(ops) == |src| + |dst| - 2 * Len(src, dst, |src|, |dst|)
    ensures forall other :: Transforms(other, src, dst) ==> Edits(ops) <= Edits(other)
    ensures forall ms :: CommonMatching(src, dst, ms) ==> |ms| <= Count(ops, Equal)
  {
    DistIsLcs(src, dst, |src|, |dst|);
    forall other | Transforms(other, src, dst) ensures Edits(ops) <= Edits(other) {
      NoScriptIsShorter(other, src, dst);
    }
    forall ms | CommonMatching(src, dst, ms) ensures |ms| <= Count(ops, Equal) {
      LenBounds(src, dst, ms, |src|, |dst|);
      SideLength(ops);
    }
  }
}
