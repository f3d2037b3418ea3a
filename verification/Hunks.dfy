/** Grouping an edit script into hunks with context (internal/diff/diff.go: `findChanges`,
    `mergeAdjacentChanges`, `buildHunks`). */
module Hunks {
  import opened Lcs
  import opened EditScript

  datatype Hunk = Hunk(srcStart: nat, srcCount: nat, dstStart: nat, dstCount: nat, ops: seq<EditOp>)

  datatype Range = Range(start: nat, end: nat)

  // ----- what a list of hunks means, without reference to how it was built -----

  /** The hunk stands where its numbers say, in both files; lines are numbered from 1. */
  ghost predicate Placed(h: Hunk, src: seq<Line>, dst: seq<Line>) {
    && 1 <= h.srcStart && h.srcStart - 1 + h.srcCount <= |src|
    && 1 <= h.dstStart && h.dstStart - 1 + h.dstCount <= |dst|
    && src[h.srcStart - 1..h.srcStart - 1 + h.srcCount] == SrcOf(h.ops)
    && dst[h.dstStart - 1..h.dstStart - 1 + h.dstCount] == DstOf(h.ops)
  }

  /** For one, the first line is number 1 in both. */
  lemma NumberedFromOne(b: Line, c: Line)
    ensures Placed(Hunk(1, 1, 1, 1, [EditOp(Delete, b), EditOp(Insert, c)]), [b], [c])
    ensures !Placed(Hunk(0, 1, 0, 1, [EditOp(Delete, b), EditOp(Insert, c)]), [b], [c])
  {
    var ops := [EditOp(Delete, b), EditOp(Insert, c)];
    var last := ops[1..];
    assert last == [EditOp(Insert, c)] && last[1..] == [];
    assert Side(last, Insert) == [] && Side(last, Delete) == [c];
    assert SrcOf(ops) == [b] + [] && DstOf(ops) == [] + [c];
    assert [b][0..1] == [b] && [c][0..1] == [c];
  }

  /** Ascending, with at least one untouched line between neighbours. */
  ghost predicate Apart(hs: seq<Hunk>) {
    forall i, j :: 0 <= i < j < |hs| ==>
      hs[i].srcStart + hs[i].srcCount < hs[j].srcStart && hs[i].dstStart + hs[i].dstCount < hs[j].dstStart
  }

  /** The hunks can be laid over src one after the other, starting at line `pos`. */
  ghost predicate Fits(src: seq<Line>, hs: seq<Hunk>, pos: nat) {
    if hs == [] then pos <= |src|
    else pos < hs[0].srcStart && hs[0].srcStart - 1 + hs[0].srcCount <= |src|
         && Fits(src, hs[1..], hs[0].srcStart - 1 + hs[0].srcCount)
  }

  /** Laying the hunks over src from line `pos` on. */
  ghost function Patched(src: seq<Line>, hs: seq<Hunk>, pos: nat): seq<Line>
    requires Fits(src, hs, pos)
  {
    if hs == [] then src[pos..]
    else src[pos..hs[0].srcStart - 1] + DstOf(hs[0].ops) + Patched(src, hs[1..], hs[0].srcStart - 1 + hs[0].srcCount)
  }

  ghost predicate AllEqual(ops: seq<EditOp>, lo: int, hi: int) {
    forall i :: lo <= i < hi && 0 <= i < |ops| ==> ops[i].kind == Equal
  }

  /** The run + 1 operations from p on are all equal. */
  ghost predicate LongRun(ops: seq<EditOp>, p: int, run: nat) { AllEqual(ops, p, p + run + 1) }

  /** The hunk's changes run from `first` to `last`, with exactly c lines of context on a side unless
      the script ends there, and nowhere more than 2c untouched lines in a row. */
  ghost predicate ContextAround(ops: seq<EditOp>, c: nat, atStart: bool, atEnd: bool, first: nat, last: nat) {
    && first <= last < |ops|
    && ops[first].kind != Equal && ops[last].kind != Equal
    && AllEqual(ops, 0, first) && AllEqual(ops, last + 1, |ops|)
    && (if atStart then first <= c else first == c)
    && (if atEnd then |ops| - 1 - last <= c else |ops| - 1 - last == c)
    && (forall p :: first <= p && p + 2 * c <= last ==> !LongRun(ops, p, 2 * c))
  }

  ghost predicate InContext(ops: seq<EditOp>, c: nat, atStart: bool, atEnd: bool) {
    exists first, last :: ContextAround(ops, c, atStart, atEnd, first, last)
  }

  ghost predicate AtStart(h: Hunk) { h.srcStart == 1 && h.dstStart == 1 }

  ghost predicate AtEnd(h: Hunk, src: seq<Line>, dst: seq<Line>) {
    h.srcStart - 1 + h.srcCount == |src| && h.dstStart - 1 + h.dstCount == |dst|
  }

  /** What a list of hunks has to be for the script: well placed, apart, a complete patch, and in
      exactly c lines of context. */
  ghost predicate RightHunks(ops: seq<EditOp>, hunks: seq<Hunk>, c: nat) {
    && (forall h :: h in hunks ==> Placed(h, SrcOf(ops), DstOf(ops)))
    && Apart(hunks)
    && Fits(SrcOf(ops), hunks, 0) && Patched(SrcOf(ops), hunks, 0) == DstOf(ops)
    && (forall h :: h in hunks ==> InContext(h.ops, c, AtStart(h), AtEnd(h, SrcOf(ops), DstOf(ops))))
  }

  // ----- the code -----

  ghost function GapStart(rs: seq<Range>, r: nat): nat
    requires r <= |rs|
  {
    if r == 0 then 0 else rs[r - 1].end
  }

  ghost function GapEnd(rs: seq<Range>, r: nat, n: nat): nat
    requires r <= |rs|
  {
    if r == |rs| then n else rs[r].start
  }

  /** The ranges are nonempty, ascending and not touching, and everything between them is equal. */
  ghost predicate Changes(ops: seq<EditOp>, rs: seq<Range>, n: nat) {
    && n <= |ops|
    && (forall r :: 0 <= r < |rs| ==> rs[r].start < rs[r].end <= n)
    && (forall r :: 0 < r < |rs| ==> rs[r - 1].end < rs[r].start)
    && (forall r :: 0 <= r <= |rs| ==> AllEqual(ops, GapStart(rs, r), GapEnd(rs, r, n)))
  }

  /** Each range begins and ends with a change, and holds no run of more than `run` equal operations. */
  ghost predicate Tight(ops: seq<EditOp>, rs: seq<Range>, run: nat) {
    forall r :: 0 <= r < |rs| ==>
      && rs[r].start < rs[r].end <= |ops|
      && ops[rs[r].start].kind != Equal && ops[rs[r].end - 1].kind != Equal
      && forall p :: rs[r].start <= p && p + run < rs[r].end ==> !LongRun(ops, p, run)
  }

  lemma ChangesAppend(ops: seq<EditOp>, rs: seq<Range>, n: nat, run: nat)
    requires Changes(ops, rs, n) && Tight(ops, rs, run) && n < |ops|
    requires ops[n].kind != Equal && (rs == [] || rs[|rs| - 1].end < n)
    ensures Changes(ops, rs + [Range(n, n + 1)], n + 1) && Tight(ops, rs + [Range(n, n + 1)], run)
  {
    var rs' := rs + [Range(n, n + 1)];
    forall r | 0 <= r <= |rs'| ensures AllEqual(ops, GapStart(rs', r), GapEnd(rs', r, n + 1)) {
      if r <= |rs| { assert GapStart(rs', r) == GapStart(rs, r) && GapEnd(rs', r, n + 1) == GapEnd(rs, r, n); }
    }
    assert run == 0 ==> !LongRun(ops, n, run);
  }

  lemma ChangesExtend(ops: seq<EditOp>, rs: seq<Range>, n: nat)
    requires Changes(ops, rs, n) && Tight(ops, rs, 0) && n < |ops|
    requires ops[n].kind != Equal && rs != [] && rs[|rs| - 1].end == n
    ensures var rs' := rs[|rs| - 1 := Range(rs[|rs| - 1].start, n + 1)];
            Changes(ops, rs', n + 1) && Tight(ops, rs', 0)
  {
    var rs' := rs[|rs| - 1 := Range(rs[|rs| - 1].start, n + 1)];
    forall r | 0 <= r <= |rs'| ensures AllEqual(ops, GapStart(rs', r), GapEnd(rs', r, n + 1)) {
      if r < |rs| { assert GapStart(rs', r) == GapStart(rs, r) && GapEnd(rs', r, n + 1) == GapEnd(rs, r, n); }
    }
    assert !LongRun(ops, n, 0);
  }

  lemma ChangesSkip(ops: seq<EditOp>, rs: seq<Range>, n: nat)
    requires Changes(ops, rs, n) && n < |ops| && ops[n].kind == Equal
    ensures Changes(ops, rs, n + 1)
  {
    forall r | 0 <= r <= |rs| ensures AllEqual(ops, GapStart(rs, r), GapEnd(rs, r, n + 1)) {
      assert AllEqual(ops, GapStart(rs, r), GapEnd(rs, r, n));
    }
  }

  method FindChanges(ops: seq<EditOp>) returns (changes: seq<Range>)
    ensures Changes(ops, changes, |ops|) && Tight(ops, changes, 0)
  {
    changes := [];
    for i := 0 to |ops|
      invariant Changes(ops, changes, i) && Tight(ops, changes, 0)
    {
      if ops[i].kind != Equal {
        if |changes| == 0 || i > changes[|changes| - 1].end {
          ChangesAppend(ops, changes, i, 0);
          changes := changes + [Range(i, i + 1)];
        } else {
          ChangesExtend(ops, changes, i);
          var last := changes[|changes| - 1];
          changes := changes[|changes| - 1 := Range(last.start, i + 1)];
        }
      } else {
        ChangesSkip(ops, changes, i);
      }
    }
  }

  /** Neighbouring ranges are more than 2c operations apart. */
  ghost predicate WideGaps(rs: seq<Range>, c: nat) {
    forall r :: 0 < r < |rs| ==> rs[r - 1].end + 2 * c < rs[r].start
  }

  lemma MergeAppend(ops: seq<EditOp>, changes: seq<Range>, rs: seq<Range>, j: nat, c: nat)
    requires Changes(ops, changes, |ops|) && Tight(ops, changes, 0) && 0 < j < |changes|
    requires Changes(ops, rs, changes[j - 1].end) && Tight(ops, rs, 2 * c)
    requires rs != [] && rs[|rs| - 1].end == changes[j - 1].end
    ensures Changes(ops, rs + [changes[j]], changes[j].end) && Tight(ops, rs + [changes[j]], 2 * c)
  {
    var rs' := rs + [changes[j]];
    assert AllEqual(ops, GapStart(changes, j), GapEnd(changes, j, |ops|));
    forall r | 0 <= r <= |rs'| ensures AllEqual(ops, GapStart(rs', r), GapEnd(rs', r, changes[j].end)) {
      if r < |rs| { assert GapStart(rs', r) == GapStart(rs, r) && GapEnd(rs', r, changes[j].end) == GapEnd(rs, r, changes[j - 1].end); }
    }
    forall p | changes[j].start <= p && p + 2 * c < changes[j].end ensures !LongRun(ops, p, 2 * c) {
      assert !LongRun(ops, p, 0);
    }
  }

  /** Bridging a gap of at most 2c equal operations leaves no run of more than 2c of them. */
  lemma BridgeHasNoLongRun(ops: seq<EditOp>, last: Range, next: Range, c: nat, p: nat)
    requires last.start < last.end < next.start < next.end <= |ops|
    requires Tight(ops, [last], 2 * c) && Tight(ops, [next], 0) && next.start - last.end <= 2 * c
    requires last.start <= p && p + 2 * c < next.end
    ensures !LongRun(ops, p, 2 * c)
  {
    assert [last][0] == last && [next][0] == next;
    if p + 2 * c < last.end {
    } else if p < last.end {
      assert ops[last.end - 1].kind != Equal;
    } else if p <= next.start {
      assert ops[next.start].kind != Equal;
    } else {
      assert !LongRun(ops, p, 0);
    }
  }

  lemma MergeExtend(ops: seq<EditOp>, changes: seq<Range>, rs: seq<Range>, j: nat, c: nat)
    requires Changes(ops, changes, |ops|) && Tight(ops, changes, 0) && 0 < j < |changes|
    requires Changes(ops, rs, changes[j - 1].end) && Tight(ops, rs, 2 * c)
    requires rs != [] && rs[|rs| - 1].end == changes[j - 1].end
    requires changes[j].start - rs[|rs| - 1].end <= 2 * c
    ensures var rs' := rs[|rs| - 1 := Range(rs[|rs| - 1].start, changes[j].end)];
            Changes(ops, rs', changes[j].end) && Tight(ops, rs', 2 * c)
  {
    hide LongRun, AllEqual;
    var last, next := rs[|rs| - 1], changes[j];
    var rs' := rs[|rs| - 1 := Range(last.start, next.end)];
    forall r | 0 <= r <= |rs'| ensures AllEqual(ops, GapStart(rs', r), GapEnd(rs', r, next.end)) {
      if r < |rs| {
        assert GapStart(rs', r) == GapStart(rs, r) && GapEnd(rs', r, next.end) == GapEnd(rs, r, changes[j - 1].end);
      } else {
        NothingBetween(ops, GapStart(rs', r), GapEnd(rs', r, next.end));
      }
    }
    forall p | last.start <= p && p + 2 * c < next.end ensures !LongRun(ops, p, 2 * c) {
      BridgeHasNoLongRun(ops, last, next, c, p);
    }
  }

  lemma NothingBetween(ops: seq<EditOp>, lo: int, hi: int)
    requires hi <= lo
    ensures AllEqual(ops, lo, hi)
  {
  }

  method MergeAdjacentChanges(ops: seq<EditOp>, changes: seq<Range>, c: nat) returns (merged: seq<Range>)
    requires Changes(ops, changes, |ops|) && Tight(ops, changes, 0)
    ensures Changes(ops, merged, |ops|) && Tight(ops, merged, 2 * c) && WideGaps(merged, c)
  {
    if |changes| == 0 {
      return [];
    }
    merged := [changes[0]];
    assert AllEqual(ops, GapStart(changes, 0), GapEnd(changes, 0, |ops|));
    forall p | changes[0].start <= p && p + 2 * c < changes[0].end ensures !LongRun(ops, p, 2 * c) {
      assert !LongRun(ops, p, 0);
    }
    for j := 1 to |changes|
      invariant |merged| > 0 && merged[|merged| - 1].end == changes[j - 1].end
      invariant Changes(ops, merged, changes[j - 1].end) && Tight(ops, merged, 2 * c) && WideGaps(merged, c)
    {
      var prev := merged[|merged| - 1];
      if changes[j].start - prev.end <= 2 * c {
        MergeExtend(ops, changes, merged, j, c);
        merged := merged[|merged| - 1 := Range(prev.start, changes[j].end)];
      } else {
        MergeAppend(ops, changes, merged, j, c);
        merged := merged + [changes[j]];
      }
    }
    assert AllEqual(ops, GapStart(changes, |changes|), GapEnd(changes, |changes|, |ops|));
    forall r | 0 <= r <= |merged| ensures AllEqual(ops, GapStart(merged, r), GapEnd(merged, r, |ops|)) {
      assert AllEqual(ops, GapStart(merged, r), GapEnd(merged, r, changes[|changes| - 1].end));
    }
  }

  /** The hunk that covers the operations of the cut. */
  ghost function HunkAt(ops: seq<EditOp>, cut: Range): Hunk
    requires cut.start <= cut.end <= |ops|
  {
    var before, inside := ops[..cut.start], ops[cut.start..cut.end];
    Hunk(|SrcOf(before)| + 1, |SrcOf(inside)|, |DstOf(before)| + 1, |DstOf(inside)|, inside)
  }

  ghost predicate Cuts(ops: seq<EditOp>, cuts: seq<Range>) {
    && (forall r :: 0 <= r < |cuts| ==> cuts[r].start < cuts[r].end <= |ops|)
    && (forall q, r :: 0 <= q < r < |cuts| ==> cuts[q].end < cuts[r].start)
    && (forall r :: 0 <= r <= |cuts| ==> AllEqual(ops, GapStart(cuts, r), GapEnd(cuts, r, |ops|)))
  }

  lemma SideSplit(ops: seq<EditOp>, i: nat, j: nat, skipped: OpKind)
    requires i <= j <= |ops|
    ensures Side(ops[..j], skipped) == Side(ops[..i], skipped) + Side(ops[i..j], skipped)
    ensures Side(ops, skipped) == Side(ops[..j], skipped) + Side(ops[j..], skipped)
    ensures Side(ops[i..], skipped) == Side(ops[i..j], skipped) + Side(ops[j..], skipped)
  {
    assert ops[..j] == ops[..i] + ops[i..j] && ops == ops[..j] + ops[j..] && ops[i..] == ops[i..j] + ops[j..];
    SideConcat(ops[..i], ops[i..j], skipped);
    SideConcat(ops[..j], ops[j..], skipped);
    SideConcat(ops[i..j], ops[j..], skipped);
  }

  /** A stretch of equal operations reads what it writes. */
  lemma {:induction false} EqualStretch(ops: seq<EditOp>)
    requires AllEqual(ops, 0, |ops|)
    ensures SrcOf(ops) == DstOf(ops) && |SrcOf(ops)| == |ops|
  {
    if ops != [] {
      assert ops[0].kind == Equal && AllEqual(ops[1..], 0, |ops[1..]|);
      EqualStretch(ops[1..]);
    }
  }

  lemma HunkIsPlaced(ops: seq<EditOp>, cut: Range)
    requires cut.start <= cut.end <= |ops|
    ensures Placed(HunkAt(ops, cut), SrcOf(ops), DstOf(ops))
  {
    SideSplit(ops, cut.start, cut.end, Insert);
    SideSplit(ops, cut.start, cut.end, Delete);
  }

  lemma LinesBetween(ops: seq<EditOp>, a: Range, to: nat, skipped: OpKind)
    requires a.start <= a.end < to <= |ops| && ops[to - 1].kind == Equal && skipped != Equal
    ensures |Side(ops[..a.start], skipped)| + |Side(ops[a.start..a.end], skipped)| < |Side(ops[..to], skipped)|
  {
    SideSplit(ops, a.start, a.end, skipped);
    SideSplit(ops, a.end, to - 1, skipped);
    SideSplit(ops, to - 1, to, skipped);
    assert ops[to - 1..to] == [ops[to - 1]] && [ops[to - 1]][1..] == [];
  }

  /** An equal operation between two cuts keeps the hunks apart in both files. */
  lemma HunksApart(ops: seq<EditOp>, a: Range, b: Range)
    requires a.start <= a.end < b.start <= b.end <= |ops| && ops[b.start - 1].kind == Equal
    ensures var h, k := HunkAt(ops, a), HunkAt(ops, b);
            h.srcStart + h.srcCount < k.srcStart && h.dstStart + h.dstCount < k.dstStart
  {
    hide Side;
    LinesBetween(ops, a, b.start, Insert);
    LinesBetween(ops, a, b.start, Delete);
  }

  ghost function HunksAt(ops: seq<EditOp>, cuts: seq<Range>): (hs: seq<Hunk>)
    requires Cuts(ops, cuts)
  {
    seq(|cuts|, i requires 0 <= i < |cuts| => HunkAt(ops, cuts[i]))
  }

  lemma AllApart(ops: seq<EditOp>, cuts: seq<Range>)
    requires Cuts(ops, cuts)
    ensures Apart(HunksAt(ops, cuts))
  {
    var hs := HunksAt(ops, cuts);
    forall i, j | 0 <= i < j < |hs|
      ensures hs[i].srcStart + hs[i].srcCount < hs[j].srcStart && hs[i].dstStart + hs[i].dstCount < hs[j].dstStart
    {
      assert AllEqual(ops, GapStart(cuts, j), GapEnd(cuts, j, |ops|)) && cuts[j - 1].end < cuts[j].start;
      HunksApart(ops, cuts[i], cuts[j]);
    }
  }

  /** Laying the hunks from the r-th on over the rest of src gives the rest of dst. */
  lemma {:induction false} PatchFrom(ops: seq<EditOp>, cuts: seq<Range>, r: nat)
    requires Cuts(ops, cuts) && r <= |cuts|
    ensures var from, hs := GapStart(cuts, r), HunksAt(ops, cuts)[r..];
            && Fits(SrcOf(ops), hs, |SrcOf(ops[..from])|)
            && Patched(SrcOf(ops), hs, |SrcOf(ops[..from])|) == DstOf(ops[from..])
    decreases |cuts| - r
  {
    hide Side;
    var from, hs := GapStart(cuts, r), HunksAt(ops, cuts)[r..];
    assert AllEqual(ops, from, GapEnd(cuts, r, |ops|));
    if r == |cuts| {
      SideSplit(ops, from, |ops|, Insert);
      EqualStretch(ops[from..]);
      assert ops[..|ops|] == ops && ops[from..|ops|] == ops[from..];
    } else {
      PatchFrom(ops, cuts, r + 1);
      var rest := HunksAt(ops, cuts)[r + 1..];
      assert hs[0] == HunkAt(ops, cuts[r]) && hs[1..] == rest;
      PatchStep(ops, from, cuts[r], hs);
    }
  }

  lemma PatchStep(ops: seq<EditOp>, from: nat, cut: Range, hs: seq<Hunk>)
    requires from <= cut.start <= cut.end <= |ops| && AllEqual(ops, from, cut.start)
    requires hs != [] && hs[0] == HunkAt(ops, cut)
    requires var end := |SrcOf(ops[..cut.end])|;
             Fits(SrcOf(ops), hs[1..], end) && Patched(SrcOf(ops), hs[1..], end) == DstOf(ops[cut.end..])
    ensures var pos := |SrcOf(ops[..from])|;
            Fits(SrcOf(ops), hs, pos) && Patched(SrcOf(ops), hs, pos) == DstOf(ops[from..])
  {
    hide Side;
    var gap, inside := ops[from..cut.start], ops[cut.start..cut.end];
    SideSplit(ops, from, cut.start, Insert);
    SideSplit(ops, from, cut.start, Delete);
    SideSplit(ops, cut.start, cut.end, Insert);
    SideSplit(ops, cut.start, cut.end, Delete);
    EqualStretch(gap);
    var pos := |SrcOf(ops[..from])|;
    assert SrcOf(ops)[pos..hs[0].srcStart - 1] == SrcOf(gap);
    assert DstOf(ops[from..]) == DstOf(gap) + DstOf(inside) + DstOf(ops[cut.end..]);
  }

  /** A range widened by c operations on either side, as far as the script goes. */
  ghost function Widened(r: Range, c: nat, n: nat): Range {
    Range(if r.start < c then 0 else r.start - c, if r.end + c > n then n else r.end + c)
  }

  ghost function WidenedAll(rs: seq<Range>, c: nat, n: nat): seq<Range> {
    seq(|rs|, r requires 0 <= r < |rs| => Widened(rs[r], c, n))
  }

  lemma {:induction false} EndsAscend(rs: seq<Range>, q: nat, r: nat)
    requires q < r < |rs|
    requires forall i :: 0 <= i < |rs| ==> rs[i].start < rs[i].end
    requires forall i :: 0 < i < |rs| ==> rs[i - 1].end < rs[i].start
    ensures rs[q].end < rs[r].start
    decreases r
  {
    if q < r - 1 { EndsAscend(rs, q, r - 1); }
  }

  lemma WideningKeepsOrder(rs: seq<Range>, c: nat, n: nat)
    requires forall r :: 0 <= r < |rs| ==> rs[r].start < rs[r].end <= n
    requires WideGaps(rs, c)
    ensures var cuts := WidenedAll(rs, c, n);
            && (forall r :: 0 <= r < |cuts| ==> cuts[r].start < cuts[r].end <= n)
            && (forall q, r :: 0 <= q < r < |cuts| ==> cuts[q].end < cuts[r].start)
  {
    var cuts := WidenedAll(rs, c, n);
    forall r | 0 < r < |cuts| ensures cuts[r - 1].end < cuts[r].start {
      assert rs[r - 1].end + 2 * c < rs[r].start;
    }
    forall q, r | 0 <= q < r < |cuts| ensures cuts[q].end < cuts[r].start {
      EndsAscend(cuts, q, r);
    }
  }

  lemma WideningCuts(ops: seq<EditOp>, rs: seq<Range>, c: nat)
    requires Changes(ops, rs, |ops|) && WideGaps(rs, c)
    ensures Cuts(ops, WidenedAll(rs, c, |ops|))
  {
    WideningKeepsOrder(rs, c, |ops|);
    var cuts := WidenedAll(rs, c, |ops|);
    forall r | 0 <= r <= |cuts| ensures AllEqual(ops, GapStart(cuts, r), GapEnd(cuts, r, |ops|)) {
      assert AllEqual(ops, GapStart(rs, r), GapEnd(rs, r, |ops|));
      if r > 0 { assert rs[r - 1].end <= cuts[r - 1].end; }
      if r < |rs| { assert cuts[r].start <= rs[r].start; }
    }
  }

  /** Every operation shows up in one file at least. */
  lemma {:induction false} SidesCover(ops: seq<EditOp>)
    ensures |ops| <= |SrcOf(ops)| + |DstOf(ops)|
  {
    if ops != [] { SidesCover(ops[1..]); }
  }

  lemma AtStartMeans(ops: seq<EditOp>, cut: Range)
    requires cut.start <= cut.end <= |ops|
    ensures AtStart(HunkAt(ops, cut)) <==> cut.start == 0
  {
    SidesCover(ops[..cut.start]);
  }

  lemma AtEndMeans(ops: seq<EditOp>, cut: Range)
    requires cut.start <= cut.end <= |ops|
    ensures AtEnd(HunkAt(ops, cut), SrcOf(ops), DstOf(ops)) <==> cut.end == |ops|
  {
    SideSplit(ops, cut.start, cut.end, Insert);
    SideSplit(ops, cut.start, cut.end, Delete);
    SidesCover(ops[cut.end..]);
  }

  lemma ContextIsExact(ops: seq<EditOp>, rs: seq<Range>, c: nat, r: nat)
    requires Changes(ops, rs, |ops|) && Tight(ops, rs, 2 * c) && WideGaps(rs, c) && r < |rs|
    ensures Widened(rs[r], c, |ops|).start < Widened(rs[r], c, |ops|).end <= |ops|
    ensures var h := HunkAt(ops, Widened(rs[r], c, |ops|));
            InContext(h.ops, c, AtStart(h), AtEnd(h, SrcOf(ops), DstOf(ops)))
  {
    hide Side;
    var cut := Widened(rs[r], c, |ops|);
    var h := HunkAt(ops, cut);
    var first, last := rs[r].start - cut.start, rs[r].end - 1 - cut.start;
    AtStartMeans(ops, cut);
    AtEndMeans(ops, cut);
    RangeIsFramed(ops, rs, c, r);
    forall p | first <= p && p + 2 * c <= last ensures !LongRun(h.ops, p, 2 * c) {
      assert !LongRun(ops, p + cut.start, 2 * c);
      var i :| p + cut.start <= i < p + cut.start + 2 * c + 1 && 0 <= i < |ops| && ops[i].kind != Equal;
      assert h.ops[i - cut.start] == ops[i];
    }
    assert ContextAround(h.ops, c, AtStart(h), AtEnd(h, SrcOf(ops), DstOf(ops)), first, last);
  }

  lemma RangeIsFramed(ops: seq<EditOp>, rs: seq<Range>, c: nat, r: nat)
    requires Changes(ops, rs, |ops|) && Tight(ops, rs, 2 * c) && WideGaps(rs, c) && r < |rs|
    ensures var cut := Widened(rs[r], c, |ops|);
            && cut.start <= rs[r].start < rs[r].end <= cut.end <= |ops|
            && AllEqual(ops[cut.start..cut.end], 0, rs[r].start - cut.start)
            && AllEqual(ops[cut.start..cut.end], rs[r].end - cut.start, cut.end - cut.start)
            && ops[rs[r].start].kind != Equal && ops[rs[r].end - 1].kind != Equal
  {
    assert AllEqual(ops, GapStart(rs, r), GapEnd(rs, r, |ops|));
    assert AllEqual(ops, GapStart(rs, r + 1), GapEnd(rs, r + 1, |ops|));
    assert r > 0 ==> rs[r - 1].end + 2 * c < rs[r].start;
    assert r + 1 < |rs| ==> rs[r].end + 2 * c < rs[r + 1].start;
  }

  lemma HunksAreRight(ops: seq<EditOp>, merged: seq<Range>, c: nat, hunks: seq<Hunk>)
    requires Changes(ops, merged, |ops|) && Tight(ops, merged, 2 * c) && WideGaps(merged, c)
    requires Cuts(ops, WidenedAll(merged, c, |ops|)) && hunks == HunksAt(ops, WidenedAll(merged, c, |ops|))
    ensures RightHunks(ops, hunks, c)
  {
    hide Side, InContext, Patched, Placed;
    var cuts := WidenedAll(merged, c, |ops|);
    AllApart(ops, cuts);
    PatchFrom(ops, cuts, 0);
    assert |SrcOf(ops[..0])| == 0 by { SideSplit(ops, 0, 0, Insert); }
    assert ops[0..] == ops && hunks[0..] == hunks;
    forall h | h in hunks
      ensures Placed(h, SrcOf(ops), DstOf(ops))
      ensures InContext(h.ops, c, AtStart(h), AtEnd(h, SrcOf(ops), DstOf(ops)))
    {
      var i :| 0 <= i < |hunks| && h == hunks[i];
      HunkIsPlaced(ops, cuts[i]);
      ContextIsExact(ops, merged, c, i);
    }
  }

  ghost predicate Positions(ops: seq<EditOp>, srcPos: seq<nat>, dstPos: seq<nat>) {
    && |srcPos| == |dstPos| <= |ops|
    && forall p :: 0 <= p < |srcPos| ==> srcPos[p] == |SrcOf(ops[..p])| && dstPos[p] == |DstOf(ops[..p])|
  }

  method BuildHunks(ops: seq<EditOp>, contextLines: nat) returns (hunks: seq<Hunk>)
    ensures RightHunks(ops, hunks, contextLines)
  {
    hide Side, Placed, InContext, Tight, Changes, Cuts, RightHunks;
    var changes := FindChanges(ops);
    if |changes| == 0 {
      NoChanges(ops);
      return [];
    }
    var merged := MergeAdjacentChanges(ops, changes, contextLines);
    var srcPos, dstPos := LinePositions(ops);
    ghost var cuts := WidenedAll(merged, contextLines, |ops|);
    WideningCuts(ops, merged, contextLines);
    hunks := [];
    for i := 0 to |merged|
      invariant hunks == HunksAt(ops, cuts)[..i]
    {
      RangeIsFramed(ops, merged, contextLines, i);
      var start := merged[i].start - contextLines;
      if start < 0 {
        start := 0;
      }
      var end := merged[i].end + contextLines;
      if end > |ops| {
        end := |ops|;
      }
      assert cuts[i] == Range(start, end);
      var srcCount, dstCount := CountLines(ops[start..end]);
      hunks := hunks + [Hunk(srcPos[start] + 1, srcCount, dstPos[start] + 1, dstCount, ops[start..end])];
    }
    HunksAreRight(ops, merged, contextLines, hunks);
  }

  lemma NoChanges(ops: seq<EditOp>)
    requires Changes(ops, [], |ops|)
    ensures forall c: nat :: RightHunks(ops, [], c)
  {
    assert AllEqual(ops, GapStart([], 0), GapEnd([], 0, |ops|));
    EqualStretch(ops);
  }

  /** The loop that records where each operation stands in the two files. */
  method LinePositions(ops: seq<EditOp>) returns (srcPos: seq<nat>, dstPos: seq<nat>)
    ensures Positions(ops, srcPos, dstPos) && |srcPos| == |ops|
  {
    srcPos, dstPos := [], [];
    var si, di := 0, 0;
    for i := 0 to |ops|
      invariant si == |SrcOf(ops[..i])| && di == |DstOf(ops[..i])|
      invariant Positions(ops, srcPos, dstPos) && |srcPos| == i
    {
      srcPos, dstPos := srcPos + [si], dstPos + [di];
      NextPosition(ops, i);
      match ops[i].kind
      case Equal => si, di := si + 1, di + 1;
      case Delete => si := si + 1;
      case Insert => di := di + 1;
    }
  }

  lemma NextPosition(ops: seq<EditOp>, i: nat)
    requires i < |ops|
    ensures |SrcOf(ops[..i + 1])| == |SrcOf(ops[..i])| + if ops[i].kind == Insert then 0 else 1
    ensures |DstOf(ops[..i + 1])| == |DstOf(ops[..i])| + if ops[i].kind == Delete then 0 else 1
  {
    SideSplit(ops, i, i + 1, Insert);
    SideSplit(ops, i, i + 1, Delete);
    assert ops[i..i + 1] == [ops[i]] && [ops[i]][1..] == [];
  }

  method CountLines(ops: seq<EditOp>) returns (srcCount: nat, dstCount: nat)
    ensures srcCount == |SrcOf(ops)| && dstCount == |DstOf(ops)|
  {
    srcCount, dstCount := 0, 0;
    for i := 0 to |ops|
      invariant srcCount == |SrcOf(ops[..i])| && dstCount == |DstOf(ops[..i])|
    {
      NextPosition(ops, i);
      match ops[i].kind
      case Equal => srcCount, dstCount := srcCount + 1, dstCount + 1;
      case Delete => srcCount := srcCount + 1;
      case Insert => dstCount := dstCount + 1;
    }
    assert ops[..|ops|] == ops;
  }
}
