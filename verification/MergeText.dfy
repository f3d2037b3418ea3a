/** Three-way merge of texts (internal/merge/threeway.go: `merge3`, `ThreeWayText.Merge`). */
module MergeText {
  import opened Bytes
  import opened Lcs
  import opened MergeAlign

  datatype Conflict = Conflict(startLine: nat, endLine: nat, local: string, remote: string, base: string)

  function Join(lines: seq<Line>): string {
    if lines == [] then "" else Join(lines[..|lines| - 1]) + lines[|lines| - 1]
  }

  predicate HunksOverlap(a: Hunk, b: Hunk) { a.baseStart < b.baseEnd && b.baseStart < a.baseEnd }

  ghost predicate NoOverlaps(ls: seq<Hunk>, rs: seq<Hunk>) {
    forall i, j :: 0 <= i < |ls| && 0 <= j < |rs| ==> !HunksOverlap(ls[i], rs[j])
  }

  /** A remote insertion in front of lines that local replaced. */
  predicate Undercuts(r: Hunk, l: Hunk) { r.baseStart == r.baseEnd == l.baseStart < l.baseEnd }

  /** Both sides' changes can be applied to the base, and will be. */
  ghost predicate Compatible(ls: seq<Hunk>, rs: seq<Hunk>) {
    NoOverlaps(ls, rs) && forall i, j :: 0 <= i < |ls| && 0 <= j < |rs| ==> !Undercuts(rs[j], ls[i])
  }

  /** No change of one side touches or overlaps one of the other. */
  ghost predicate Separated(ls: seq<Hunk>, rs: seq<Hunk>) {
    forall i, j :: 0 <= i < |ls| && 0 <= j < |rs| ==> ls[i].baseEnd < rs[j].baseStart || rs[j].baseEnd < ls[i].baseStart
  }

  lemma SeparatedIsCompatible(base: seq<Line>, ls: seq<Hunk>, rs: seq<Hunk>)
    requires Ordered(base, ls, |base|) && Ordered(base, rs, |base|) && Separated(ls, rs)
    ensures Compatible(ls, rs) && Compatible(rs, ls) && TiesAgree(ls, rs)
  {
    HunksAreWithin(base, ls);
    HunksAreWithin(base, rs);
    hide Ordered;
  }

  // ----- both lists applied -----

  /** Where hunks of both sides insert at one place, local's comes first. */
  ghost predicate LocalFirst(ms: seq<Hunk>, ls: seq<Hunk>, rs: seq<Hunk>) {
    forall p, q :: 0 <= p < q < |ms| && ms[p].baseStart == ms[q].baseEnd ==> ms[p] in ls && ms[q] in rs
  }

  /** All the hunks of two lists, in order. */
  ghost predicate IsMerge(base: seq<Line>, ms: seq<Hunk>, ls: seq<Hunk>, rs: seq<Hunk>) {
    InOrder(base, ms, |base|) && multiset(ms) == multiset(ls) + multiset(rs) && LocalFirst(ms, ls, rs)
  }

  /** The text with the hunks of both sides applied to the base. */
  ghost predicate MergesTo(base: seq<Line>, ls: seq<Hunk>, rs: seq<Hunk>, result: seq<Line>) {
    exists ms :: IsMerge(base, ms, ls, rs) && result == Replay(base, ms, |base|)
  }

  /** Two sides insert the same wherever they both insert at one place. */
  ghost predicate TiesAgree(ls: seq<Hunk>, rs: seq<Hunk>) {
    forall i, j :: 0 <= i < |ls| && 0 <= j < |rs| && ls[i].baseStart == ls[i].baseEnd == rs[j].baseStart == rs[j].baseEnd ==> ls[i] == rs[j]
  }

  /** No two hunks insert at one place. */
  ghost predicate NoTies(ls: seq<Hunk>) {
    forall a, b :: a in ls && b in ls && a.baseEnd <= b.baseStart && b.baseEnd <= a.baseStart ==> a == b
  }

  lemma ApartIsNoTies(base: seq<Line>, ls: seq<Hunk>)
    requires Ordered(base, ls, |base|)
    ensures NoTies(ls)
  {
  }

  lemma LastIsSame(base: seq<Line>, ms: seq<Hunk>, ns: seq<Hunk>, ls: seq<Hunk>, rs: seq<Hunk>)
    requires InOrder(base, ms, |base|) && InOrder(base, ns, |base|) && ms != [] && ns != []
    requires LocalFirst(ms, ls, rs) && LocalFirst(ns, ls, rs) && NoTies(ls)
    requires ms[|ms| - 1] in ns && ns[|ns| - 1] in ms
    ensures ms[|ms| - 1] == ns[|ns| - 1]
  {
    var m, n := ms[|ms| - 1], ns[|ns| - 1];
    var i :| 0 <= i < |ns| && ns[i] == m;
    var j :| 0 <= j < |ms| && ms[j] == n;
    if i < |ns| - 1 && j < |ms| - 1 {
      assert m.baseEnd <= n.baseStart && n.baseEnd <= m.baseStart;
      assert m in ls && n in ls;
    }
  }

  lemma InOrderInit(base: seq<Line>, ms: seq<Hunk>, ls: seq<Hunk>, rs: seq<Hunk>)
    requires InOrder(base, ms, |base|) && LocalFirst(ms, ls, rs) && ms != []
    ensures InOrder(base, ms[..|ms| - 1], |base|) && LocalFirst(ms[..|ms| - 1], ls, rs)
  {
  }

  lemma WithoutLast(ms: seq<Hunk>)
    requires ms != []
    ensures multiset(ms[..|ms| - 1]) == multiset(ms) - multiset{ms[|ms| - 1]} && ms[|ms| - 1] in multiset(ms)
  {
    assert ms == ms[..|ms| - 1] + [ms[|ms| - 1]];
  }

  /** There is only one way to put hunks in order. */
  lemma {:induction false} OrderIsUnique(base: seq<Line>, ms: seq<Hunk>, ns: seq<Hunk>, ls: seq<Hunk>, rs: seq<Hunk>)
    requires InOrder(base, ms, |base|) && InOrder(base, ns, |base|) && multiset(ms) == multiset(ns)
    requires LocalFirst(ms, ls, rs) && LocalFirst(ns, ls, rs) && NoTies(ls)
    ensures ms == ns
    decreases |ms|
  {
    hide InOrder, LocalFirst, NoTies;
    assert |multiset(ms)| == |ms| && |multiset(ns)| == |ns|;
    if ms != [] {
      WithoutLast(ms);
      WithoutLast(ns);
      LastIsSame(base, ms, ns, ls, rs);
      InOrderInit(base, ms, ls, rs);
      InOrderInit(base, ns, ls, rs);
      var us, vs := ms[..|ms| - 1], ns[..|ns| - 1];
      assert multiset(us) == multiset(vs);
      OrderIsUnique(base, us, vs, ls, rs);
      SameEnds(ms, ns);
    }
  }

  lemma SameEnds(ms: seq<Hunk>, ns: seq<Hunk>)
    requires |ms| == |ns| > 0 && ms[..|ms| - 1] == ns[..|ns| - 1] && ms[|ms| - 1] == ns[|ns| - 1]
    ensures ms == ns
  {
    assert ms == ms[..|ms| - 1] + [ms[|ms| - 1]] && ns == ns[..|ns| - 1] + [ns[|ns| - 1]];
  }

  /** Two sides merge to one text only. */
  lemma MergeIsUnique(base: seq<Line>, ls: seq<Hunk>, rs: seq<Hunk>, result: seq<Line>, other: seq<Line>)
    requires NoTies(ls) && MergesTo(base, ls, rs, result) && MergesTo(base, ls, rs, other)
    ensures other == result
  {
    var ms: seq<Hunk> :| IsMerge(base, ms, ls, rs) && result == Replay(base, ms, |base|);
    var ns :| IsMerge(base, ns, ls, rs) && other == Replay(base, ns, |base|);
    OrderIsUnique(base, ms, ns, ls, rs);
  }

  /** They merge to the same with the sides swapped, if they insert the same wherever both insert at one place. */
  lemma MergeIsSymmetric(base: seq<Line>, ls: seq<Hunk>, rs: seq<Hunk>, result: seq<Line>)
    requires MergesTo(base, ls, rs, result) && TiesAgree(ls, rs)
    ensures MergesTo(base, rs, ls, result)
  {
    var ms: seq<Hunk> :| IsMerge(base, ms, ls, rs) && result == Replay(base, ms, |base|);
    forall p, q | 0 <= p < q < |ms| && ms[p].baseStart == ms[q].baseEnd ensures ms[p] in rs && ms[q] in ls {
      var i :| 0 <= i < |ls| && ls[i] == ms[p];
      var j :| 0 <= j < |rs| && rs[j] == ms[q];
    }
    assert IsMerge(base, ms, rs, ls);
  }

  /** Merging with no change at all gives the other side. */
  lemma MergeWithNothing(base: seq<Line>, ls: seq<Hunk>, result: seq<Line>)
    requires Ordered(base, ls, |base|)
    ensures MergesTo(base, ls, [], result) <==> result == Replay(base, ls, |base|)
    ensures MergesTo(base, [], ls, result) <==> result == Replay(base, ls, |base|)
  {
    assert LocalFirst(ls, ls, []) && LocalFirst(ls, [], ls) by { HunksAreWithin(base, ls); }
    assert IsMerge(base, ls, ls, []) && IsMerge(base, ls, [], ls);
    var whole := Replay(base, ls, |base|);
    assert MergesTo(base, ls, [], whole) && MergesTo(base, [], ls, whole);
    ApartIsNoTies(base, ls);
    hide MergesTo;
    if MergesTo(base, ls, [], result) { MergeIsUnique(base, ls, [], whole, result); }
    if MergesTo(base, [], ls, result) { MergeIsUnique(base, [], ls, whole, result); }
  }

  lemma InOrderDoNotOverlap(base: seq<Line>, ms: seq<Hunk>, p: nat, q: nat)
    requires InOrder(base, ms, |base|) && p < |ms| && q < |ms| && p != q
    ensures !HunksOverlap(ms[p], ms[q])
  {
  }

  /** Hunks that are both applied do not overlap. */
  lemma MergedDoNotOverlap(base: seq<Line>, ms: seq<Hunk>, ls: seq<Hunk>, rs: seq<Hunk>, i: nat, j: nat)
    requires IsMerge(base, ms, ls, rs) && i < |ls| && j < |rs|
    ensures !HunksOverlap(ls[i], rs[j])
  {
    hide InOrder;
    var l, r := ls[i], rs[j];
    assert l in multiset(ls) && r in multiset(rs);
    if l == r {
      var p, q := TwoPlaces(ms, l);
      InOrderDoNotOverlap(base, ms, p, q);
    } else {
      assert l in multiset(ms) && r in multiset(ms);
      var p: nat :| 0 <= p < |ms| && ms[p] == l;
      var q: nat :| 0 <= q < |ms| && ms[q] == r;
      InOrderDoNotOverlap(base, ms, p, q);
    }
  }

  lemma OverlapHasNoMerge(base: seq<Line>, ls: seq<Hunk>, rs: seq<Hunk>, i: nat, j: nat, result: seq<Line>)
    requires i < |ls| && j < |rs| && HunksOverlap(ls[i], rs[j])
    ensures !MergesTo(base, ls, rs, result)
  {
    if ms :| IsMerge(base, ms, ls, rs) && result == Replay(base, ms, |base|) {
      MergedDoNotOverlap(base, ms, ls, rs, i, j);
    }
  }

  lemma {:induction false} TwoPlaces(ms: seq<Hunk>, h: Hunk) returns (p: nat, q: nat)
    requires multiset(ms)[h] >= 2
    ensures p < q < |ms| && ms[p] == ms[q] == h
  {
    WithoutLast(ms);
    if ms[|ms| - 1] == h {
      assert h in multiset(ms[..|ms| - 1]);
      q := |ms| - 1;
      p :| 0 <= p < q && ms[p] == h;
    } else {
      p, q := TwoPlaces(ms[..|ms| - 1], h);
    }
  }

  // ----- undercut changes -----

  /** Local's hunk, or, if remote inserts in front of it, only its insertion: the base lines stay. */
  ghost function Restored(l: Hunk, rs: seq<Hunk>): Hunk {
    if exists r :: r in rs && Undercuts(r, l) then l.(baseEnd := l.baseStart) else l
  }

  ghost function AllRestored(ls: seq<Hunk>, rs: seq<Hunk>): (ks: seq<Hunk>)
    ensures |ks| == |ls|
  {
    seq(|ls|, i requires 0 <= i < |ls| => Restored(ls[i], rs))
  }

  lemma CompatibleIsKept(ls: seq<Hunk>, rs: seq<Hunk>)
    requires Compatible(ls, rs)
    ensures AllRestored(ls, rs) == ls
  {
  }

  /** How many lines hunks add. */
  ghost function Gain(hs: seq<Hunk>): int {
    if hs == [] then 0
    else var h := hs[|hs| - 1]; Gain(hs[..|hs| - 1]) + |h.lines| - (h.baseEnd - h.baseStart)
  }

  lemma {:induction false} GainOfReplay(base: seq<Line>, hs: seq<Hunk>, to: nat)
    requires InOrder(base, hs, to)
    ensures |Replay(base, hs, to)| == to + Gain(hs)
    decreases |hs|
  {
    if hs != [] { GainOfReplay(base, hs[..|hs| - 1], hs[|hs| - 1].baseStart); }
  }

  lemma {:induction false} GainOfConcat(as_: seq<Hunk>, bs: seq<Hunk>)
    ensures Gain(as_ + bs) == Gain(as_) + Gain(bs)
    decreases |bs|
  {
    if bs == [] {
      assert as_ + bs == as_;
    } else {
      assert (as_ + bs)[..|as_ + bs| - 1] == as_ + bs[..|bs| - 1];
      GainOfConcat(as_, bs[..|bs| - 1]);
    }
  }

  /** The gain does not depend on the order. */
  lemma {:induction false} GainOfSame(ms: seq<Hunk>, ns: seq<Hunk>)
    requires multiset(ms) == multiset(ns)
    ensures Gain(ms) == Gain(ns)
    decreases |ms|
  {
    assert |multiset(ms)| == |ms| && |multiset(ns)| == |ns|;
    if ms != [] {
      var m := ms[|ms| - 1];
      WithoutLast(ms);
      assert m in multiset(ns);
      var k :| 0 <= k < |ns| && ns[k] == m;
      assert ns == ns[..k] + ([m] + ns[k + 1..]);
      GainOfConcat(ns[..k], [m] + ns[k + 1..]);
      GainOfConcat([m], ns[k + 1..]);
      GainOfConcat(ns[..k], ns[k + 1..]);
      GainOfSame(ms[..|ms| - 1], ns[..k] + ns[k + 1..]);
      GainOfOne(m);
    }
  }

  lemma GainOfOne(h: Hunk)
    ensures Gain([h]) == |h.lines| - (h.baseEnd - h.baseStart)
  {
    assert [h][..0] == [];
  }

  lemma MergedLength(base: seq<Line>, ls: seq<Hunk>, rs: seq<Hunk>, result: seq<Line>)
    requires MergesTo(base, ls, rs, result)
    ensures |result| == |base| + Gain(ls) + Gain(rs)
  {
    var ms: seq<Hunk> :| IsMerge(base, ms, ls, rs) && result == Replay(base, ms, |base|);
    GainOfReplay(base, ms, |base|);
    assert multiset(ms) == multiset(ls + rs);
    GainOfSame(ms, ls + rs);
    GainOfConcat(ls, rs);
  }

  /** Restoring keeps lines that would be gone. */
  lemma {:induction false} RestoringGains(ls: seq<Hunk>, rs: seq<Hunk>)
    ensures Gain(AllRestored(ls, rs)) >= Gain(ls)
    ensures AllRestored(ls, rs) != ls ==> Gain(AllRestored(ls, rs)) > Gain(ls)
  {
    if ls != [] {
      var init := ls[..|ls| - 1];
      assert AllRestored(ls, rs)[..|ls| - 1] == AllRestored(init, rs);
      RestoringGains(init, rs);
      if AllRestored(init, rs) == init && Restored(ls[|ls| - 1], rs) == ls[|ls| - 1] {
        assert AllRestored(ls, rs) == ls;
      }
    }
  }

  /** A merge that restores undercut lines, when nothing overlaps, applies both lists exactly when they are compatible. */
  lemma CompatibleExactly(base: seq<Line>, ls: seq<Hunk>, rs: seq<Hunk>, result: seq<Line>)
    requires NoOverlaps(ls, rs) ==> MergesTo(base, AllRestored(ls, rs), rs, result)
    ensures MergesTo(base, ls, rs, result) <==> Compatible(ls, rs)
  {
    hide MergesTo;
    if !NoOverlaps(ls, rs) {
      var i, j :| 0 <= i < |ls| && 0 <= j < |rs| && HunksOverlap(ls[i], rs[j]);
      OverlapHasNoMerge(base, ls, rs, i, j, result);
    } else if Compatible(ls, rs) {
      CompatibleIsKept(ls, rs);
    } else if MergesTo(base, ls, rs, result) {
      var i, j :| 0 <= i < |ls| && 0 <= j < |rs| && Undercuts(rs[j], ls[i]);
      assert rs[j] in rs && AllRestored(ls, rs)[i] != ls[i];
      MergedLength(base, ls, rs, result);
      MergedLength(base, AllRestored(ls, rs), rs, result);
      RestoringGains(ls, rs);
    }
  }

  // ----- overlapping changes -----

  ghost predicate Meets(h: Hunk, others: seq<Hunk>) { exists j :: 0 <= j < |others| && HunksOverlap(h, others[j]) }

  /** Every change overlaps at most one of the other side, and none if it is undercut. */
  ghost predicate Tidy(ls: seq<Hunk>, rs: seq<Hunk>) {
    && (forall i, j, k :: 0 <= i < |ls| && 0 <= j < |rs| && 0 <= k < |rs| && HunksOverlap(ls[i], rs[j]) && HunksOverlap(ls[i], rs[k]) ==> j == k)
    && (forall i, j, k :: 0 <= i < |ls| && 0 <= j < |rs| && 0 <= k < |ls| && HunksOverlap(ls[i], rs[j]) && HunksOverlap(ls[k], rs[j]) ==> i == k)
    && forall i, j :: 0 <= i < |ls| && 0 <= j < |rs| && Undercuts(rs[j], ls[i]) ==> !Meets(ls[i], rs)
  }

  /** Lines with a newline behind the last one. */
  ghost function Closed(lines: seq<Line>): seq<Line> { lines + NeedsNewline(lines) }

  /** Both versions between markers. */
  ghost function Marked(ls: seq<Line>, rs: seq<Line>): seq<Line> {
    ["<<<<<<< LOCAL\n"] + Closed(ls) + ["=======\n"] + Closed(rs) + [">>>>>>> REMOTE\n"]
  }

  /** What two overlapping changes become: one change of all that they cover, to their lines if these are the same, and
      to both versions between markers if not. */
  ghost function Block(l: Hunk, r: Hunk): Hunk {
    Hunk(Min(l.baseStart, r.baseStart), Max(l.baseEnd, r.baseEnd), if l.lines == r.lines then l.lines else Marked(l.lines, r.lines))
  }

  /** The conflict of two overlapping changes; its lines are counted from one. */
  ghost function ConflictAt(base: seq<Line>, l: Hunk, r: Hunk): Conflict
    requires HunksOverlap(l, r) && l.baseEnd <= |base| && r.baseEnd <= |base|
  {
    var start, end := Min(l.baseStart, r.baseStart), Max(l.baseEnd, r.baseEnd);
    Conflict(start + 1, end, Join(l.lines), Join(r.lines), Join(base[start..end]))
  }

  ghost function PartnerOf(l: Hunk, rs: seq<Hunk>): Hunk
    requires Meets(l, rs)
  {
    var j :| 0 <= j < |rs| && HunksOverlap(l, rs[j]); rs[j]
  }

  ghost function Settled(l: Hunk, rs: seq<Hunk>): Hunk {
    if Meets(l, rs) then Block(l, PartnerOf(l, rs)) else Restored(l, rs)
  }

  /** Local's changes, those that overlap a remote one together with it. */
  ghost function AllSettled(ls: seq<Hunk>, rs: seq<Hunk>): (ks: seq<Hunk>)
    ensures |ks| == |ls|
  {
    seq(|ls|, i requires 0 <= i < |ls| => Settled(ls[i], rs))
  }

  /** Remote's other changes. */
  ghost function Others(rs: seq<Hunk>, ls: seq<Hunk>): seq<Hunk> {
    if rs == [] then []
    else
      var r := rs[|rs| - 1];
      Others(rs[..|rs| - 1], ls) + if Meets(r, ls) then [] else [r]
  }

  /** The conflicts of all overlapping changes with different lines, in order. */
  ghost function ConflictsOf(base: seq<Line>, ls: seq<Hunk>, rs: seq<Hunk>): seq<Conflict>
    requires AllWithin(base, ls) && AllWithin(base, rs)
  {
    if ls == [] then []
    else
      var l := ls[|ls| - 1];
      ConflictsOf(base, ls[..|ls| - 1], rs)
      + if Meets(l, rs) && l.lines != PartnerOf(l, rs).lines then [ConflictAt(base, l, PartnerOf(l, rs))] else []
  }

  ghost predicate AllWithin(base: seq<Line>, hs: seq<Hunk>) { forall i :: 0 <= i < |hs| ==> hs[i].baseEnd <= |base| }

  /** The first overlapping pair. */
  ghost predicate FirstClash(ls: seq<Hunk>, rs: seq<Hunk>, i: nat, j: nat) {
    && i < |ls| && j < |rs| && HunksOverlap(ls[i], rs[j])
    && (forall p, q :: 0 <= p < i && 0 <= q < |rs| ==> !HunksOverlap(ls[p], rs[q]))
    && forall q :: 0 <= q < j ==> !HunksOverlap(ls[i], rs[q])
  }

  ghost predicate NoUndercuts(ls: seq<Hunk>, rs: seq<Hunk>) {
    forall i, j :: 0 <= i < |ls| && 0 <= j < |rs| ==> !Undercuts(rs[j], ls[i])
  }

  /** Settled changes merge to one text only. */
  lemma SettledIsUnique(base: seq<Line>, ls: seq<Hunk>, rs: seq<Hunk>, result: seq<Line>, other: seq<Line>)
    requires Ordered(base, ls, |base|) && Ordered(base, rs, |base|)
    requires MergesTo(base, AllSettled(ls, rs), Others(rs, ls), result) && MergesTo(base, AllSettled(ls, rs), Others(rs, ls), other)
    ensures other == result
  {
    SettledHasNoTies(base, ls, rs);
    MergeIsUnique(base, AllSettled(ls, rs), Others(rs, ls), result, other);
  }

  lemma SettledHasNoTies(base: seq<Line>, ls: seq<Hunk>, rs: seq<Hunk>)
    requires Ordered(base, ls, |base|) && Ordered(base, rs, |base|)
    ensures NoTies(AllSettled(ls, rs))
  {
    hide Ordered, Settled;
    var ks := AllSettled(ls, rs);
    forall a, b | a in ks && b in ks && a.baseEnd <= b.baseStart && b.baseEnd <= a.baseStart ensures a == b {
      var i: nat :| 0 <= i < |ks| && ks[i] == a;
      var k: nat :| 0 <= k < |ks| && ks[k] == b;
      SettledOnce(base, ls, rs, i, k);
    }
  }

  lemma SettledOnce(base: seq<Line>, ls: seq<Hunk>, rs: seq<Hunk>, i: nat, k: nat)
    requires Ordered(base, ls, |base|) && i < |ls| && k < |ls|
    ensures var a, b := Settled(ls[i], rs), Settled(ls[k], rs); a.baseEnd <= b.baseStart && b.baseEnd <= a.baseStart ==> i == k
  {
    StartsDiffer(base, ls, i, k);
    HunksAreWithin(base, ls);
    hide Ordered, Settled;
    SettledCovers(ls[i], rs);
    SettledCovers(ls[k], rs);
  }

  lemma StartsDiffer(base: seq<Line>, ls: seq<Hunk>, i: nat, k: nat)
    requires Ordered(base, ls, |base|) && i < |ls| && k < |ls|
    ensures ls[i].baseStart == ls[k].baseStart ==> i == k
  {
    HunksAreWithin(base, ls);
  }

  /** What a change settles to starts where it does, or covers lines. */
  lemma SettledCovers(l: Hunk, rs: seq<Hunk>)
    requires l.baseStart <= l.baseEnd
    ensures var k := Settled(l, rs); k.baseStart < k.baseEnd || k.baseStart == k.baseEnd == l.baseStart
  {
  }

  lemma OnePair(base: seq<Line>, l: Hunk, r: Hunk)
    requires HunksOverlap(l, r) && l.baseEnd <= |base| && r.baseEnd <= |base|
    ensures Tidy([l], [r]) && AllSettled([l], [r]) == [Block(l, r)] && Others([r], [l]) == []
    ensures AllWithin(base, [l]) && AllWithin(base, [r])
    ensures ConflictsOf(base, [l], [r]) == if l.lines == r.lines then [] else [ConflictAt(base, l, r)]
  {
    hide Marked, Join, ConflictAt;
    assert HunksOverlap([l][0], [r][0]) && HunksOverlap([r][0], [l][0]);
    assert Meets(l, [r]) && PartnerOf(l, [r]) == r && Meets(r, [l]);
    assert [l][..0] == [] && [r][..0] == [];
    assert ConflictsOf(base, [l][..0], [r]) == [];
  }

  /** Two overlapping changes: the lines that one of them covers give way once, to their lines if these are the same, and
      else to both versions between markers, with one conflict. */
  lemma TwoOverlapping(base: seq<Line>, l: Hunk, r: Hunk, start: nat, end: nat, result: seq<Line>)
    requires HunksOverlap(l, r) && l.baseStart <= l.baseEnd <= |base| && r.baseStart <= r.baseEnd <= |base|
    requires start == Min(l.baseStart, r.baseStart) && end == Max(l.baseEnd, r.baseEnd)
    ensures start <= end <= |base| && Tidy([l], [r]) && AllWithin(base, [l]) && AllWithin(base, [r])
    ensures ConflictsOf(base, [l], [r]) ==
            if l.lines == r.lines then [] else [Conflict(start + 1, end, Join(l.lines), Join(r.lines), Join(base[start..end]))]
    ensures MergesTo(base, AllSettled([l], [r]), Others([r], [l]), result) <==>
            result == base[..start] + (if l.lines == r.lines then l.lines else Marked(l.lines, r.lines)) + base[end..]
  {
    hide Marked, Settled, Join, Others, Meets, Tidy, ConflictsOf, AllSettled, MergesTo, AllWithin;
    OnePair(base, l, r);
    var k := Hunk(start, end, if l.lines == r.lines then l.lines else Marked(l.lines, r.lines));
    assert Block(l, r) == k && start <= end;
    hide Block, HunksOverlap, Min, Max;
    OneBlock(base, k, result);
  }

  lemma OneBlock(base: seq<Line>, k: Hunk, result: seq<Line>)
    requires k.baseStart <= k.baseEnd <= |base|
    ensures MergesTo(base, [k], [], result) <==> result == base[..k.baseStart] + k.lines + base[k.baseEnd..]
  {
    hide MergesTo;
    OneHunk(base, k);
    MergeWithNothing(base, [k], result);
    assert base[k.baseEnd..|base|] == base[k.baseEnd..];
  }

  /** The markers; a last line without a newline gets one. */
  lemma MarkersInFull()
    ensures Marked(["X\n"], ["Y"]) == ["<<<<<<< LOCAL\n", "X\n", "=======\n", "Y", "\n", ">>>>>>> REMOTE\n"]
    ensures Marked(["X"], ["Y\n"]) == ["<<<<<<< LOCAL\n", "X", "\n", "=======\n", "Y\n", ">>>>>>> REMOTE\n"]
    ensures Marked([], []) == ["<<<<<<< LOCAL\n", "=======\n", ">>>>>>> REMOTE\n"]
  {
  }

  lemma OneHunk(base: seq<Line>, k: Hunk)
    requires k.baseStart <= k.baseEnd <= |base|
    ensures Ordered(base, [k], |base|) && Replay(base, [k], |base|) == base[..k.baseStart] + k.lines + base[k.baseEnd..|base|]
  {
    assert [k][..0] == [];
  }

  /** If nothing overlaps there is nothing to settle. */
  lemma NothingOverlaps(base: seq<Line>, ls: seq<Hunk>, rs: seq<Hunk>)
    requires NoOverlaps(ls, rs) && AllWithin(base, ls) && AllWithin(base, rs)
    ensures Tidy(ls, rs) && AllSettled(ls, rs) == AllRestored(ls, rs) && Others(rs, ls) == rs && ConflictsOf(base, ls, rs) == []
  {
    OthersAreAll(rs, ls);
    NoConflicts(base, ls, rs);
    hide Restored, Others, ConflictsOf, AllWithin;
    assert forall i :: 0 <= i < |ls| ==> !Meets(ls[i], rs);
    assert Tidy(ls, rs);
    hide HunksOverlap, NoOverlaps, Tidy, Meets;
    assert forall i :: 0 <= i < |ls| ==> Settled(ls[i], rs) == Restored(ls[i], rs);
  }

  lemma {:induction false} OthersAreAll(rs: seq<Hunk>, ls: seq<Hunk>)
    requires NoOverlaps(ls, rs)
    ensures Others(rs, ls) == rs
  {
    if rs != [] {
      OthersAreAll(rs[..|rs| - 1], ls);
      assert rs == rs[..|rs| - 1] + [rs[|rs| - 1]];
    }
  }

  lemma {:induction false} NoConflicts(base: seq<Line>, ls: seq<Hunk>, rs: seq<Hunk>)
    requires NoOverlaps(ls, rs) && AllWithin(base, ls) && AllWithin(base, rs)
    ensures ConflictsOf(base, ls, rs) == []
  {
    if ls != [] { NoConflicts(base, ls[..|ls| - 1], rs); }
  }

  lemma ReplayTwo(base: seq<Line>, l: Hunk, r: Hunk)
    requires l.baseStart == l.baseEnd == r.baseStart == r.baseEnd <= |base|
    ensures InOrder(base, [l] + [r], |base|)
    ensures Replay(base, [l] + [r], |base|) == base[..l.baseStart] + l.lines + r.lines + base[l.baseStart..]
  {
    hide Replay, InOrder;
    var at := l.baseStart;
    OneInsertion(base, l);
    InsertionFollows(base, [l], at, base[..at] + l.lines, r);
    ReplayFurther(base, [l] + [r], at, |base|);
    assert base[at..|base|] == base[at..];
  }

  lemma OneInsertion(base: seq<Line>, h: Hunk)
    requires h.baseStart == h.baseEnd <= |base|
    ensures InOrder(base, [h], h.baseStart) && Replay(base, [h], h.baseStart) == base[..h.baseStart] + h.lines
  {
    assert [h][..0] == [];
    assert base[h.baseEnd..h.baseEnd] == [];
  }

  lemma InsertionFollows(base: seq<Line>, ms: seq<Hunk>, at: nat, result: seq<Line>, h: Hunk)
    requires InOrder(base, ms, at) && result == Replay(base, ms, at) && at == h.baseStart == h.baseEnd <= |base|
    ensures InOrder(base, ms + [h], at) && Replay(base, ms + [h], at) == result + h.lines
  {
    hide Replay, InOrder;
    HunkFollows(base, ms, at, result, h);
    assert result + base[at..at] == result;
  }

  /** Two insertions at one place both stand in the merge, local's first, even if they are the same. */
  lemma TwoInsertions(base: seq<Line>, l: Hunk, r: Hunk, result: seq<Line>)
    requires l.baseStart == l.baseEnd == r.baseStart == r.baseEnd <= |base|
    ensures MergesTo(base, [l], [r], result) <==> result == base[..l.baseStart] + l.lines + r.lines + base[l.baseStart..]
  {
    ReplayTwo(base, l, r);
    hide Replay, InOrder;
    assert multiset([l] + [r]) == multiset([l]) + multiset([r]);
    assert IsMerge(base, [l] + [r], [l], [r]);
    var merged := Replay(base, [l] + [r], |base|);
    assert MergesTo(base, [l], [r], merged);
    if MergesTo(base, [l], [r], result) { MergeIsUnique(base, [l], [r], merged, result); }
  }

  /** Local replaces the second of three lines, and remote inserts another in front of it: without a conflict, both new
      lines are there, and the replaced one is back. */
  lemma UndercutLineIsBack(result: seq<Line>)
    ensures var base, ls, rs := ["a\n", "b\n", "c\n"], [Hunk(1, 2, ["X\n"])], [Hunk(1, 1, ["Y\n"])];
            && NoOverlaps(ls, rs) && !Compatible(ls, rs)
            && (MergesTo(base, AllRestored(ls, rs), rs, result) <==> result == ["a\n", "X\n", "Y\n", "b\n", "c\n"])
  {
    hide MergesTo;
    var base, l, r := ["a\n", "b\n", "c\n"], Hunk(1, 2, ["X\n"]), Hunk(1, 1, ["Y\n"]);
    assert Undercuts([r][0], [l][0]) && r in [r];
    var k := Hunk(1, 1, ["X\n"]);
    assert AllRestored([l], [r]) == [k];
    TwoInsertions(base, k, r, result);
    assert base[..1] + k.lines + r.lines + base[1..] == ["a\n", "X\n", "Y\n", "b\n", "c\n"];
  }

  // ----- the merge loop -----

  /** No change taken so far overlaps one that is not. */
  ghost predicate InStep(ls: seq<Hunk>, rs: seq<Hunk>, li: nat, ri: nat)
    requires li <= |ls| && ri <= |rs|
  {
    && (forall i, j :: 0 <= i < li && ri <= j < |rs| ==> !HunksOverlap(ls[i], rs[j]))
    && forall i, j :: li <= i < |ls| && 0 <= j < ri ==> !HunksOverlap(ls[i], rs[j])
  }

  /** All others lie beyond. */
  ghost predicate Beyond(ls: seq<Hunk>, rs: seq<Hunk>, li: nat, ri: nat, at: nat)
    requires li <= |ls| && ri <= |rs|
  {
    && (forall k :: li <= k < |ls| ==> at <= ls[k].baseStart) && (forall k :: ri <= k < |rs| ==> at <= rs[k].baseStart)
    && forall j, i :: 0 <= j < ri && li <= i < |ls| ==> rs[j].baseStart < ls[i].baseStart
  }

  /** The changes taken so far, settled and applied to the base so far; all others lie beyond. */
  ghost predicate MergedSoFar(base: seq<Line>, ls: seq<Hunk>, rs: seq<Hunk>, li: nat, ri: nat, ms: seq<Hunk>, at: nat, result: seq<Line>)
    requires li <= |ls| && ri <= |rs|
  {
    && InOrder(base, ms, at) && result == Replay(base, ms, at) && LocalFirst(ms, AllSettled(ls, rs), Others(rs, ls))
    && multiset(ms) == multiset(AllSettled(ls, rs)[..li]) + multiset(Others(rs[..ri], ls))
    && InStep(ls, rs, li, ri) && Beyond(ls, rs, li, ri, at)
  }

  /** Remote inserts next, in front of the lines of the last local hunk, which lie behind already. */
  ghost predicate Pending(ls: seq<Hunk>, rs: seq<Hunk>, li: nat, ri: nat, at: nat, bi: nat) {
    && 0 < li <= |ls| && ri < |rs| && Undercuts(rs[ri], ls[li - 1])
    && at == ls[li - 1].baseStart && bi == ls[li - 1].baseEnd
  }

  /** A local change that starts first and does not overlap the next remote one overlaps none, unless it is undercut. */
  lemma LocalMeetsNone(base: seq<Line>, ls: seq<Hunk>, rs: seq<Hunk>, li: nat, ri: nat)
    requires Ordered(base, ls, |base|) && Ordered(base, rs, |base|) && li < |ls| && ri <= |rs| && InStep(ls, rs, li, ri)
    requires ri < |rs| ==> ls[li].baseStart <= rs[ri].baseStart && !HunksOverlap(ls[li], rs[ri]) && !Undercuts(rs[ri], ls[li])
    ensures !Meets(ls[li], rs)
  {
    HunksAreWithin(base, ls);
    HunksAreWithin(base, rs);
    forall j | 0 <= j < |rs| ensures !HunksOverlap(ls[li], rs[j]) {
      if j > ri { assert rs[ri].baseEnd < rs[j].baseStart; }
    }
  }

  /** And so for a remote one. */
  lemma RemoteMeetsNone(base: seq<Line>, ls: seq<Hunk>, rs: seq<Hunk>, li: nat, ri: nat)
    requires Ordered(base, ls, |base|) && Ordered(base, rs, |base|) && li <= |ls| && ri < |rs| && InStep(ls, rs, li, ri)
    requires li < |ls| ==> rs[ri].baseStart < ls[li].baseStart && !HunksOverlap(ls[li], rs[ri])
    ensures !Meets(rs[ri], ls)
  {
    HunksAreWithin(base, ls);
    HunksAreWithin(base, rs);
    forall i | 0 <= i < |ls| ensures !HunksOverlap(rs[ri], ls[i]) {
      if i > li { assert ls[li].baseEnd < ls[i].baseStart; }
      assert i < li ==> !HunksOverlap(ls[i], rs[ri]);
    }
  }

  lemma TidyLocalMeetsNone(base: seq<Line>, ls: seq<Hunk>, rs: seq<Hunk>, li: nat, ri: nat)
    requires Ordered(base, ls, |base|) && Ordered(base, rs, |base|) && Tidy(ls, rs) && li < |ls| && ri <= |rs| && InStep(ls, rs, li, ri)
    requires ri < |rs| ==> ls[li].baseStart <= rs[ri].baseStart && !HunksOverlap(ls[li], rs[ri])
    ensures !Meets(ls[li], rs)
  {
    hide Ordered, InStep, Meets;
    if !(ri < |rs| && Undercuts(rs[ri], ls[li])) { LocalMeetsNone(base, ls, rs, li, ri); }
  }

  lemma UndercutIsNext(base: seq<Line>, ls: seq<Hunk>, rs: seq<Hunk>, li: nat, ri: nat)
    requires Ordered(base, ls, |base|) && Ordered(base, rs, |base|) && li < |ls| && ri <= |rs|
    requires ri < |rs| ==> ls[li].baseStart <= rs[ri].baseStart
    requires forall j :: 0 <= j < ri ==> rs[j].baseStart < ls[li].baseStart
    ensures Restored(ls[li], rs) == if ri < |rs| && Undercuts(rs[ri], ls[li]) then ls[li].(baseEnd := ls[li].baseStart) else ls[li]
  {
    if ri < |rs| && Undercuts(rs[ri], ls[li]) { assert rs[ri] in rs; }
    if r :| r in rs && Undercuts(r, ls[li]) {
      var j :| 0 <= j < |rs| && rs[j] == r;
      assert j == ri;
    }
  }

  /** What lies beyond a local hunk that starts first. */
  lemma BeyondLocal(base: seq<Line>, ls: seq<Hunk>, rs: seq<Hunk>, li: nat, ri: nat, at: nat)
    requires Ordered(base, ls, |base|) && Ordered(base, rs, |base|) && li < |ls| && ri <= |rs| && !Meets(ls[li], rs)
    requires ri < |rs| ==> ls[li].baseStart <= rs[ri].baseStart
    requires InStep(ls, rs, li, ri) && Beyond(ls, rs, li, ri, at)
    ensures InStep(ls, rs, li + 1, ri) && Beyond(ls, rs, li + 1, ri, Restored(ls[li], rs).baseEnd)
  {
    HunksAreWithin(base, ls);
    HunksAreWithin(base, rs);
    UndercutIsNext(base, ls, rs, li, ri);
    forall k | ri <= k < |rs| ensures Restored(ls[li], rs).baseEnd <= rs[k].baseStart && !HunksOverlap(ls[li], rs[k]) {
      assert rs[ri].baseStart <= rs[k].baseStart;
      assert !HunksOverlap(ls[li], rs[k]);
    }
  }

  lemma BeyondRemote(base: seq<Line>, ls: seq<Hunk>, rs: seq<Hunk>, li: nat, ri: nat, at: nat)
    requires Ordered(base, ls, |base|) && Ordered(base, rs, |base|) && li <= |ls| && ri < |rs| && !Meets(rs[ri], ls)
    requires li < |ls| ==> rs[ri].baseStart < ls[li].baseStart
    requires InStep(ls, rs, li, ri) && Beyond(ls, rs, li, ri, at)
    ensures InStep(ls, rs, li, ri + 1) && Beyond(ls, rs, li, ri + 1, rs[ri].baseEnd)
  {
    HunksAreWithin(base, ls);
    HunksAreWithin(base, rs);
    forall k | li <= k < |ls| ensures rs[ri].baseEnd <= ls[k].baseStart && rs[ri].baseStart < ls[k].baseStart && !HunksOverlap(ls[k], rs[ri]) {
      assert ls[li].baseStart <= ls[k].baseStart;
      assert !HunksOverlap(rs[ri], ls[k]);
    }
  }

  /** What lies beyond two changes that overlap each other only. */
  lemma BeyondBoth(base: seq<Line>, ls: seq<Hunk>, rs: seq<Hunk>, li: nat, ri: nat, at: nat)
    requires Ordered(base, ls, |base|) && Ordered(base, rs, |base|) && Tidy(ls, rs) && li < |ls| && ri < |rs|
    requires HunksOverlap(ls[li], rs[ri]) && InStep(ls, rs, li, ri) && Beyond(ls, rs, li, ri, at)
    ensures InStep(ls, rs, li + 1, ri + 1) && Beyond(ls, rs, li + 1, ri + 1, Max(ls[li].baseEnd, rs[ri].baseEnd))
  {
    HunksAreWithin(base, ls);
    HunksAreWithin(base, rs);
    forall k | li < k < |ls| ensures rs[ri].baseEnd <= ls[k].baseStart && rs[ri].baseStart < ls[k].baseStart && !HunksOverlap(ls[k], rs[ri]) {
      assert ls[li].baseEnd < ls[k].baseStart;
      assert !HunksOverlap(ls[k], rs[ri]);
    }
    forall k | ri < k < |rs| ensures ls[li].baseEnd <= rs[k].baseStart && !HunksOverlap(ls[li], rs[k]) {
      assert rs[ri].baseEnd < rs[k].baseStart;
      assert !HunksOverlap(ls[li], rs[k]);
    }
    hide Tidy, HunksOverlap;
    assert InStep(ls, rs, li + 1, ri + 1);
  }

  lemma OneMoreLocal(ms: seq<Hunk>, ls: seq<Hunk>, us: seq<Hunk>, li: nat)
    requires li < |ls| && multiset(ms) == multiset(ls[..li]) + multiset(us)
    ensures multiset(ms + [ls[li]]) == multiset(ls[..li + 1]) + multiset(us)
  {
    assert ls[..li + 1] == ls[..li] + [ls[li]];
  }

  /** The next remote change is another one, if it overlaps none. */
  lemma OthersNext(rs: seq<Hunk>, ls: seq<Hunk>, ri: nat)
    requires ri < |rs|
    ensures Others(rs[..ri + 1], ls) == Others(rs[..ri], ls) + if Meets(rs[ri], ls) then [] else [rs[ri]]
  {
    assert rs[..ri + 1][..ri] == rs[..ri];
  }

  lemma HunkFollows(base: seq<Line>, ms: seq<Hunk>, at: nat, result: seq<Line>, h: Hunk)
    requires InOrder(base, ms, at) && result == Replay(base, ms, at) && at <= h.baseStart <= h.baseEnd <= |base|
    ensures InOrder(base, ms + [h], h.baseEnd)
    ensures Replay(base, ms + [h], h.baseEnd) == result + base[at..h.baseStart] + h.lines
  {
    hide Replay, InOrder;
    ReplayFurther(base, ms, at, h.baseStart);
    ReplayHunk(base, ms, h);
  }

  /** A hunk taken is one of either side. */
  lemma TakenFrom(ms: seq<Hunk>, ks: seq<Hunk>, us: seq<Hunk>, li: nat, p: nat)
    requires li <= |ks| && multiset(ms) == multiset(ks[..li]) + multiset(us) && p < |ms|
    ensures (exists i :: 0 <= i < li && ks[i] == ms[p]) || ms[p] in us
  {
    assert ms[p] in multiset(ms);
    if ms[p] in multiset(ks[..li]) {
      var i :| 0 <= i < li && ks[..li][i] == ms[p];
      assert ks[i] == ms[p];
    }
  }

  lemma {:induction false} OthersAreOf(rs: seq<Hunk>, ls: seq<Hunk>, r: Hunk)
    requires r in Others(rs, ls)
    ensures r in rs && !Meets(r, ls)
  {
    if r in Others(rs[..|rs| - 1], ls) { OthersAreOf(rs[..|rs| - 1], ls, r); }
  }

  /** A local change settles where it starts, or covers lines. */
  lemma SettledStarts(l: Hunk, rs: seq<Hunk>)
    ensures Settled(l, rs).baseStart == l.baseStart || Settled(l, rs).baseStart < l.baseEnd
    ensures Settled(l, rs).baseStart <= l.baseStart
  {
  }

  /** A local hunk ties with none taken before it. */
  lemma LocalFirstLocal(base: seq<Line>, ls: seq<Hunk>, rs: seq<Hunk>, li: nat, ri: nat, ms: seq<Hunk>, at: nat, result: seq<Line>)
    requires Ordered(base, ls, |base|) && li < |ls| && ri <= |rs| && MergedSoFar(base, ls, rs, li, ri, ms, at, result)
    requires Settled(ls[li], rs).baseStart >= at && Settled(ls[li], rs).baseEnd >= ls[li].baseStart
    ensures LocalFirst(ms + [Settled(ls[li], rs)], AllSettled(ls, rs), Others(rs, ls))
  {
    hide Replay, Others, Settled, InStep;
    HunksAreWithin(base, ls);
    var ks, us, k := AllSettled(ls, rs), Others(rs[..ri], ls), Settled(ls[li], rs);
    forall i | 0 <= i < li ensures ks[i].baseStart <= ls[i].baseEnd < ls[li].baseStart {
      SettledStarts(ls[i], rs);
    }
    forall p | 0 <= p < |ms| ensures ms[p].baseStart != k.baseEnd {
      assert ms[p].baseEnd <= at <= k.baseStart;
      TakenFrom(ms, ks, us, li, p);
      if ms[p] in us {
        OthersAreOf(rs[..ri], ls, ms[p]);
        var j :| 0 <= j < ri && rs[j] == ms[p];
      }
    }
  }

  /** A remote hunk ties with local ones only. */
  lemma LocalFirstRemote(base: seq<Line>, ls: seq<Hunk>, rs: seq<Hunk>, li: nat, ri: nat, ms: seq<Hunk>, at: nat, result: seq<Line>)
    requires Ordered(base, rs, |base|) && li <= |ls| && ri < |rs| && MergedSoFar(base, ls, rs, li, ri, ms, at, result)
    requires !Meets(rs[ri], ls)
    ensures LocalFirst(ms + [rs[ri]], AllSettled(ls, rs), Others(rs, ls))
  {
    hide Replay, Settled, InStep;
    HunksAreWithin(base, rs);
    var ks, us, r := AllSettled(ls, rs), Others(rs[..ri], ls), rs[ri];
    IsAnother(rs, ls, ri);
    hide Others;
    assert forall j :: 0 <= j < ri ==> rs[j].baseStart <= rs[j].baseEnd < r.baseStart;
    forall p | 0 <= p < |ms| && ms[p] in us ensures ms[p].baseStart < r.baseStart {
      OthersAreOf(rs[..ri], ls, ms[p]);
      var j :| 0 <= j < ri && rs[j] == ms[p];
    }
    forall p | 0 <= p < |ms| && ms[p].baseStart == r.baseEnd ensures ms[p] in ks {
      TakenFrom(ms, ks, us, li, p);
    }
  }

  lemma {:induction false} IsAnother(rs: seq<Hunk>, ls: seq<Hunk>, ri: nat)
    requires ri < |rs| && !Meets(rs[ri], ls)
    ensures rs[ri] in Others(rs, ls)
  {
    if ri < |rs| - 1 { IsAnother(rs[..|rs| - 1], ls, ri); }
  }

  /** The next local hunk, if it starts first and overlaps none, follows; remote's next one may undercut it. */
  lemma TakeLocal(base: seq<Line>, ls: seq<Hunk>, rs: seq<Hunk>, li: nat, ri: nat, ms: seq<Hunk>, at: nat, result: seq<Line>)
    requires Ordered(base, ls, |base|) && Ordered(base, rs, |base|) && li < |ls| && ri <= |rs| && !Meets(ls[li], rs)
    requires MergedSoFar(base, ls, rs, li, ri, ms, at, result) && (ri < |rs| ==> ls[li].baseStart <= rs[ri].baseStart)
    ensures at <= ls[li].baseStart
    ensures var k := Settled(ls[li], rs);
            && MergedSoFar(base, ls, rs, li + 1, ri, ms + [k], k.baseEnd, result + base[at..ls[li].baseStart] + ls[li].lines)
            && (k.baseEnd == ls[li].baseEnd || Pending(ls, rs, li + 1, ri, k.baseEnd, ls[li].baseEnd))
  {
    hide Replay, InOrder, Ordered, LocalFirst, Restored, Others, Meets, InStep;
    HunksAreWithin(base, ls);
    var ks, k := AllSettled(ls, rs), Settled(ls[li], rs);
    assert k == Restored(ls[li], rs);
    UndercutIsNext(base, ls, rs, li, ri);
    BeyondLocal(base, ls, rs, li, ri, at);
    LocalFirstLocal(base, ls, rs, li, ri, ms, at, result);
    assert ks[li] == k;
    HunkFollows(base, ms, at, result, k);
    OneMoreLocal(ms, ks, Others(rs[..ri], ls), li);
  }

  /** The next remote hunk, if it starts first and overlaps none, follows. */
  lemma TakeRemote(base: seq<Line>, ls: seq<Hunk>, rs: seq<Hunk>, li: nat, ri: nat, ms: seq<Hunk>, at: nat, result: seq<Line>)
    requires Ordered(base, ls, |base|) && Ordered(base, rs, |base|) && li <= |ls| && ri < |rs| && !Meets(rs[ri], ls)
    requires MergedSoFar(base, ls, rs, li, ri, ms, at, result) && (li < |ls| ==> rs[ri].baseStart < ls[li].baseStart)
    ensures at <= rs[ri].baseStart
    ensures MergedSoFar(base, ls, rs, li, ri + 1, ms + [rs[ri]], rs[ri].baseEnd, result + base[at..rs[ri].baseStart] + rs[ri].lines)
  {
    HunksAreWithin(base, rs);
    hide Replay, InOrder, Ordered, LocalFirst, Settled, Others, Meets, InStep;
    LocalFirstRemote(base, ls, rs, li, ri, ms, at, result);
    BeyondRemote(base, ls, rs, li, ri, at);
    HunkFollows(base, ms, at, result, rs[ri]);
    OthersNext(rs, ls, ri);
  }

  /** Two overlapping changes follow as one. */
  lemma TakeBoth(base: seq<Line>, ls: seq<Hunk>, rs: seq<Hunk>, li: nat, ri: nat, ms: seq<Hunk>, at: nat, result: seq<Line>)
    requires Ordered(base, ls, |base|) && Ordered(base, rs, |base|) && Tidy(ls, rs) && li < |ls| && ri < |rs|
    requires HunksOverlap(ls[li], rs[ri]) && MergedSoFar(base, ls, rs, li, ri, ms, at, result)
    ensures var k := Block(ls[li], rs[ri]);
            && Settled(ls[li], rs) == k && at <= k.baseStart < k.baseEnd
            && MergedSoFar(base, ls, rs, li + 1, ri + 1, ms + [k], k.baseEnd, result + base[at..k.baseStart] + k.lines)
  {
    HunksAreWithin(base, ls);
    HunksAreWithin(base, rs);
    var ks, k := AllSettled(ls, rs), Block(ls[li], rs[ri]);
    PartnersMeet(ls, rs, li, ri);
    hide Replay, InOrder, Ordered, LocalFirst, Settled, Others, Meets, InStep, Tidy, Marked;
    assert ks[li] == k;
    LocalFirstLocal(base, ls, rs, li, ri, ms, at, result);
    BeyondBoth(base, ls, rs, li, ri, at);
    HunkFollows(base, ms, at, result, k);
    OneMoreLocal(ms, ks, Others(rs[..ri], ls), li);
    OthersNext(rs, ls, ri);
  }

  lemma PartnersMeet(ls: seq<Hunk>, rs: seq<Hunk>, i: nat, j: nat)
    requires Tidy(ls, rs) && i < |ls| && j < |rs| && HunksOverlap(ls[i], rs[j])
    ensures Meets(ls[i], rs) && Meets(rs[j], ls) && PartnerOf(ls[i], rs) == rs[j] && Settled(ls[i], rs) == Block(ls[i], rs[j])
  {
    assert HunksOverlap(rs[j], ls[i]);
    var k :| 0 <= k < |rs| && HunksOverlap(ls[i], rs[k]) && PartnerOf(ls[i], rs) == rs[k];
  }

  method SameHunkContent(a: Hunk, b: Hunk) returns (same: bool)
    ensures same <==> a.lines == b.lines
  {
    if |a.lines| != |b.lines| {
      return false;
    }
    for i := 0 to |a.lines|
      invariant forall k :: 0 <= k < i ==> a.lines[k] == b.lines[k]
    {
      if a.lines[i] != b.lines[i] {
        return false;
      }
    }
    return true;
  }

  function NeedsNewline(lines: seq<Line>): seq<Line> {
    if lines != [] && !(lines[|lines| - 1] != "" && lines[|lines| - 1][|lines[|lines| - 1]| - 1] == '\n') then ["\n"] else []
  }

  predicate StandsAt(lines: seq<Line>, text: seq<Line>, p: int) {
    0 <= p <= |text| - |lines| && text[p..p + |lines|] == lines
  }

  /** The lines stand in the text. */
  ghost predicate Stands(lines: seq<Line>, text: seq<Line>) { exists p :: StandsAt(lines, text, p) }

  lemma StandsWithin(lines: seq<Line>, before: seq<Line>, text: seq<Line>, after: seq<Line>)
    requires Stands(lines, text)
    ensures Stands(lines, before + text + after)
  {
    var p :| StandsAt(lines, text, p);
    var all := before + text + after;
    assert all[|before| + p..|before| + p + |lines|] == text[p..p + |lines|];
    assert StandsAt(lines, all, |before| + p);
  }

  lemma StandsAlone(lines: seq<Line>)
    ensures Stands(lines, lines)
  {
    assert StandsAt(lines, lines, 0);
  }

  /** The lines and the conflict of two overlapping changes, when the text has come to a line. */
  ghost predicate IsHandled(base: seq<Line>, l: Hunk, r: Hunk, bi: nat, lines: seq<Line>, conflict: Option<Conflict>)
    requires l.baseEnd <= |base| && r.baseEnd <= |base| && HunksOverlap(l, r)
  {
    && conflict == (if l.lines == r.lines then None else Some(ConflictAt(base, l, r).(startLine := bi + 1)))
    && lines == Block(l, r).lines && Stands(l.lines, lines) && Stands(r.lines, lines)
  }

  /** Overlapping changes are taken once if they are the same, and marked as a conflict otherwise. */
  method HandleOverlappingHunks(base: seq<Line>, lh: Hunk, rh: Hunk, bi: nat) returns (lines: seq<Line>, conflict: Option<Conflict>)
    requires lh.baseEnd <= |base| && rh.baseEnd <= |base| && HunksOverlap(lh, rh)
    ensures IsHandled(base, lh, rh, bi, lines, conflict)
  {
    hide Join, Stands;
    var same := SameHunkContent(lh, rh);
    StandsAlone(lh.lines);
    if same {
      return lh.lines, None;
    }
    var start, end := Min(lh.baseStart, rh.baseStart), Max(lh.baseEnd, rh.baseEnd);
    var covered := if start < end then Join(base[start..end]) else "";
    conflict := Some(Conflict(bi + 1, Max(lh.baseEnd, rh.baseEnd), Join(lh.lines), Join(rh.lines), covered));
    var head, mark := ["<<<<<<< LOCAL\n"], ["=======\n"];
    lines := head + lh.lines + NeedsNewline(lh.lines) + mark + rh.lines + NeedsNewline(rh.lines) + [">>>>>>> REMOTE\n"];
    IsMarked(head, lh.lines, NeedsNewline(lh.lines), mark, rh.lines, NeedsNewline(rh.lines), [">>>>>>> REMOTE\n"]);
    hide NeedsNewline;
    BothStand(head, lh.lines, NeedsNewline(lh.lines) + mark, rh.lines, NeedsNewline(rh.lines) + [">>>>>>> REMOTE\n"], lines);
  }

  lemma IsMarked(head: seq<Line>, ls: seq<Line>, lsEnd: seq<Line>, mark: seq<Line>, rs: seq<Line>, rsEnd: seq<Line>, end: seq<Line>)
    ensures head + ls + lsEnd + mark + rs + rsEnd + end == head + (ls + lsEnd) + mark + (rs + rsEnd) + end
  {
  }

  lemma BothStand(head: seq<Line>, ls: seq<Line>, middle: seq<Line>, rs: seq<Line>, end: seq<Line>, lines: seq<Line>)
    requires lines == head + ls + middle + rs + end
    ensures Stands(ls, lines) && Stands(rs, lines)
  {
    hide Stands;
    StandsAlone(ls);
    StandsAlone(rs);
    StandsWithin(ls, head, ls, middle + rs + end);
    assert head + ls + (middle + rs + end) == lines;
    StandsWithin(rs, head + ls + middle, rs, end);
  }

  /** A conflict reported for two overlapping changes with different lines. */
  ghost predicate Justified(c: Conflict, base: seq<Line>, ls: seq<Hunk>, rs: seq<Hunk>)
    requires AllWithin(base, ls) && AllWithin(base, rs)
  {
    exists i, j :: 0 <= i < |ls| && 0 <= j < |rs| && HunksOverlap(ls[i], rs[j]) && ls[i].lines != rs[j].lines
      && c == ConflictAt(base, ls[i], rs[j]).(startLine := c.startLine)
  }

  /** The hunks taken so far all stand in the text. */
  ghost predicate AllStand(hs: seq<Hunk>, n: nat, text: seq<Line>)
    requires n <= |hs|
  {
    forall i :: 0 <= i < n ==> Stands(hs[i].lines, text)
  }

  lemma AllStandFurther(hs: seq<Hunk>, n: nat, text: seq<Line>, more: seq<Line>)
    requires n <= |hs| && AllStand(hs, n, text)
    ensures AllStand(hs, n, text + more)
  {
    hide Stands;
    forall i | 0 <= i < n ensures Stands(hs[i].lines, text + more) {
      StandsWithin(hs[i].lines, [], text, more);
      assert [] + text + more == text + more;
    }
  }

  lemma OneMoreStands(hs: seq<Hunk>, n: nat, text: seq<Line>, more: seq<Line>)
    requires n < |hs| && AllStand(hs, n, text) && Stands(hs[n].lines, more)
    ensures AllStand(hs, n + 1, text + more)
  {
    AllStandFurther(hs, n, text, more);
    hide Stands;
    StandsWithin(hs[n].lines, text, more, []);
    assert text + more + [] == text + more;
  }

  /** Until the first overlapping pair nothing taken overlaps anything, and the text has not gone beyond a change. */
  ghost predicate NoClashYet(ls: seq<Hunk>, rs: seq<Hunk>, li: nat, ri: nat, bi: nat)
    requires li <= |ls| && ri <= |rs|
  {
    && (forall i, j :: 0 <= i < li && 0 <= j < |rs| ==> !HunksOverlap(ls[i], rs[j]))
    && (forall i, j :: 0 <= i < |ls| && 0 <= j < ri ==> !HunksOverlap(ls[i], rs[j]))
    && (forall k :: li <= k < |ls| ==> bi <= ls[k].baseStart) && forall k :: ri <= k < |rs| ==> bi <= rs[k].baseStart
  }

  /** The conflict of the first overlapping pair is the first one reported. */
  ghost predicate FirstReported(base: seq<Line>, ls: seq<Hunk>, rs: seq<Hunk>, conflicts: seq<Conflict>)
    requires AllWithin(base, ls) && AllWithin(base, rs)
  {
    forall i: nat, j: nat :: FirstClash(ls, rs, i, j) && ls[i].lines != rs[j].lines ==> conflicts != [] && conflicts[0] == ConflictAt(base, ls[i], rs[j])
  }

  lemma NoClashLocal(base: seq<Line>, ls: seq<Hunk>, rs: seq<Hunk>, li: nat, ri: nat, bi: nat)
    requires Ordered(base, ls, |base|) && Ordered(base, rs, |base|) && NoUndercuts(ls, rs)
    requires li < |ls| && ri <= |rs| && NoClashYet(ls, rs, li, ri, bi)
    requires ri < |rs| ==> ls[li].baseStart <= rs[ri].baseStart && !HunksOverlap(ls[li], rs[ri])
    ensures NoClashYet(ls, rs, li + 1, ri, ls[li].baseEnd)
  {
    LocalMeetsNone(base, ls, rs, li, ri);
    HunksAreWithin(base, ls);
    HunksAreWithin(base, rs);
    assert forall j :: 0 <= j < |rs| ==> !HunksOverlap(ls[li], rs[j]);
    assert forall k :: ri <= k < |rs| ==> rs[ri].baseStart <= rs[k].baseStart && !Undercuts(rs[k], ls[li]);
  }

  lemma NoClashRemote(base: seq<Line>, ls: seq<Hunk>, rs: seq<Hunk>, li: nat, ri: nat, bi: nat)
    requires Ordered(base, ls, |base|) && Ordered(base, rs, |base|) && li <= |ls| && ri < |rs| && NoClashYet(ls, rs, li, ri, bi)
    requires li < |ls| ==> rs[ri].baseStart < ls[li].baseStart && !HunksOverlap(ls[li], rs[ri])
    ensures NoClashYet(ls, rs, li, ri + 1, rs[ri].baseEnd)
  {
    RemoteMeetsNone(base, ls, rs, li, ri);
    HunksAreWithin(base, ls);
    HunksAreWithin(base, rs);
    assert forall i :: 0 <= i < |ls| ==> !HunksOverlap(rs[ri], ls[i]);
    assert forall k :: li <= k < |ls| ==> ls[li].baseStart <= ls[k].baseStart;
  }

  lemma ClashIsFirst(base: seq<Line>, ls: seq<Hunk>, rs: seq<Hunk>, li: nat, ri: nat, bi: nat, conflicts: seq<Conflict>)
    requires AllWithin(base, ls) && AllWithin(base, rs)
    requires li < |ls| && ri < |rs| && NoClashYet(ls, rs, li, ri, bi) && HunksOverlap(ls[li], rs[ri])
    requires conflicts == if ls[li].lines == rs[ri].lines then [] else [ConflictAt(base, ls[li], rs[ri])]
    ensures FirstReported(base, ls, rs, conflicts)
  {
    hide HunksOverlap, ConflictAt;
    forall i: nat, j: nat | FirstClash(ls, rs, i, j) ensures i == li && j == ri {
      assert HunksOverlap(ls[i], rs[j]) && HunksOverlap(ls[li], rs[ri]);
    }
  }

  lemma ClashStarts(ls: seq<Hunk>, rs: seq<Hunk>, li: nat, ri: nat, bi: nat)
    requires li < |ls| && ri < |rs| && NoClashYet(ls, rs, li, ri, bi)
    ensures bi <= ls[li].baseStart && bi <= rs[ri].baseStart
  {
  }

  lemma InStepSoFar(base: seq<Line>, ls: seq<Hunk>, rs: seq<Hunk>, li: nat, ri: nat, ms: seq<Hunk>, at: nat, result: seq<Line>)
    requires li <= |ls| && ri <= |rs| && MergedSoFar(base, ls, rs, li, ri, ms, at, result)
    ensures InStep(ls, rs, li, ri)
  {
  }

  lemma NoClashAtAll(base: seq<Line>, ls: seq<Hunk>, rs: seq<Hunk>, bi: nat, conflicts: seq<Conflict>)
    requires AllWithin(base, ls) && AllWithin(base, rs) && NoClashYet(ls, rs, |ls|, |rs|, bi)
    ensures FirstReported(base, ls, rs, conflicts)
  {
  }

  lemma StillFirst(base: seq<Line>, ls: seq<Hunk>, rs: seq<Hunk>, conflicts: seq<Conflict>, c: Conflict)
    requires AllWithin(base, ls) && AllWithin(base, rs) && FirstReported(base, ls, rs, conflicts)
    ensures conflicts != [] ==> FirstReported(base, ls, rs, conflicts + [c])
    ensures conflicts == [] ==> forall i: nat, j: nat :: FirstClash(ls, rs, i, j) ==> ls[i].lines == rs[j].lines
    ensures FirstReported(base, ls, rs, conflicts + [c])
  {
  }

  lemma OneMoreConflict(base: seq<Line>, ls: seq<Hunk>, rs: seq<Hunk>, li: nat)
    requires AllWithin(base, ls) && AllWithin(base, rs) && li < |ls|
    ensures AllWithin(base, ls[..li]) && AllWithin(base, ls[..li + 1])
    ensures ConflictsOf(base, ls[..li + 1], rs) ==
            ConflictsOf(base, ls[..li], rs)
            + if Meets(ls[li], rs) && ls[li].lines != PartnerOf(ls[li], rs).lines then [ConflictAt(base, ls[li], PartnerOf(ls[li], rs))] else []
  {
    assert ls[..li + 1][..li] == ls[..li];
  }

  // ----- what the loop keeps -----

  /** The base is copied up to the start of the next change. */
  ghost predicate Copied(base: seq<Line>, start: nat, bi: nat, result: seq<Line>, bi': nat, result': seq<Line>) {
    && start <= |base|
    && if bi < start then bi' == start && result' == result + base[bi..start] else bi' == bi && result' == result
  }

  ghost predicate Standing(ls: seq<Hunk>, rs: seq<Hunk>, li: nat, ri: nat, result: seq<Line>)
    requires li <= |ls| && ri <= |rs|
  {
    AllStand(ls, li, result) && AllStand(rs, ri, result)
  }

  ghost predicate Reported(base: seq<Line>, ls: seq<Hunk>, rs: seq<Hunk>, li: nat, ri: nat, bi: nat, conflicts: seq<Conflict>, clashed: bool)
    requires AllWithin(base, ls) && AllWithin(base, rs) && li <= |ls| && ri <= |rs|
  {
    && (forall c :: c in conflicts ==> Justified(c, base, ls, rs))
    && (NoUndercuts(ls, rs) ==> if clashed then FirstReported(base, ls, rs, conflicts) else conflicts == [] && NoClashYet(ls, rs, li, ri, bi))
  }

  ghost predicate Settling(base: seq<Line>, ls: seq<Hunk>, rs: seq<Hunk>, li: nat, ri: nat, bi: nat, ms: seq<Hunk>, at: nat,
                           result: seq<Line>, conflicts: seq<Conflict>)
    requires AllWithin(base, ls) && AllWithin(base, rs) && li <= |ls| && ri <= |rs|
  {
    && AllWithin(base, ls[..li])
    && (Tidy(ls, rs) ==>
          && conflicts == ConflictsOf(base, ls[..li], rs) && MergedSoFar(base, ls, rs, li, ri, ms, at, result)
          && (bi == at || Pending(ls, rs, li, ri, at, bi)))
  }

  lemma StandingFurther(ls: seq<Hunk>, rs: seq<Hunk>, li: nat, ri: nat, result: seq<Line>, more: seq<Line>)
    requires li <= |ls| && ri <= |rs| && Standing(ls, rs, li, ri, result)
    ensures Standing(ls, rs, li, ri, result + more)
    ensures li < |ls| && Stands(ls[li].lines, more) ==> Standing(ls, rs, li + 1, ri, result + more)
    ensures ri < |rs| && Stands(rs[ri].lines, more) ==> Standing(ls, rs, li, ri + 1, result + more)
    ensures li < |ls| && ri < |rs| && Stands(ls[li].lines, more) && Stands(rs[ri].lines, more) ==> Standing(ls, rs, li + 1, ri + 1, result + more)
  {
    hide AllStand, Stands;
    AllStandFurther(ls, li, result, more);
    AllStandFurther(rs, ri, result, more);
    if li < |ls| && Stands(ls[li].lines, more) { OneMoreStands(ls, li, result, more); }
    if ri < |rs| && Stands(rs[ri].lines, more) { OneMoreStands(rs, ri, result, more); }
  }

  lemma ReportBoth(base: seq<Line>, ls: seq<Hunk>, rs: seq<Hunk>, li: nat, ri: nat, bi: nat, bi': nat,
                   conflicts: seq<Conflict>, more: seq<Conflict>, clashed: bool)
    requires AllWithin(base, ls) && AllWithin(base, rs) && li < |ls| && ri < |rs| && HunksOverlap(ls[li], rs[ri])
    requires Reported(base, ls, rs, li, ri, bi, conflicts, clashed) && bi' == Max(bi, Min(ls[li].baseStart, rs[ri].baseStart))
    requires more == if ls[li].lines == rs[ri].lines then [] else [ConflictAt(base, ls[li], rs[ri]).(startLine := bi' + 1)]
    ensures Reported(base, ls, rs, li + 1, ri + 1, Max(ls[li].baseEnd, rs[ri].baseEnd), conflicts + more, true)
  {
    hide Justified, NoUndercuts, FirstReported, NoClashYet, AllWithin;
    if more != [] { IsJustified(more[0], base, ls, rs, li, ri); }
    if NoUndercuts(ls, rs) {
      if !clashed {
        ClashStarts(ls, rs, li, ri, bi);
        assert conflicts + more == more;
        ClashIsFirst(base, ls, rs, li, ri, bi, more);
      } else if more != [] {
        StillFirst(base, ls, rs, conflicts, more[0]);
        assert conflicts + more == conflicts + [more[0]];
      } else {
        assert conflicts + more == conflicts;
      }
    }
  }

  lemma ReportLocal(base: seq<Line>, ls: seq<Hunk>, rs: seq<Hunk>, li: nat, ri: nat, bi: nat, conflicts: seq<Conflict>, clashed: bool)
    requires Ordered(base, ls, |base|) && Ordered(base, rs, |base|) && AllWithin(base, ls) && AllWithin(base, rs) && li < |ls| && ri <= |rs|
    requires ri < |rs| ==> ls[li].baseStart <= rs[ri].baseStart && !HunksOverlap(ls[li], rs[ri])
    requires Reported(base, ls, rs, li, ri, bi, conflicts, clashed)
    ensures Reported(base, ls, rs, li + 1, ri, ls[li].baseEnd, conflicts, clashed)
  {
    hide Justified, NoUndercuts, FirstReported, NoClashYet, AllWithin, Ordered, HunksOverlap;
    if NoUndercuts(ls, rs) && !clashed { NoClashLocal(base, ls, rs, li, ri, bi); }
  }

  lemma ReportRemote(base: seq<Line>, ls: seq<Hunk>, rs: seq<Hunk>, li: nat, ri: nat, bi: nat, conflicts: seq<Conflict>, clashed: bool)
    requires Ordered(base, ls, |base|) && Ordered(base, rs, |base|) && AllWithin(base, ls) && AllWithin(base, rs) && li <= |ls| && ri < |rs|
    requires li < |ls| ==> rs[ri].baseStart < ls[li].baseStart && !HunksOverlap(ls[li], rs[ri])
    requires Reported(base, ls, rs, li, ri, bi, conflicts, clashed)
    ensures Reported(base, ls, rs, li, ri + 1, rs[ri].baseEnd, conflicts, clashed)
  {
    hide Justified, NoUndercuts, FirstReported, NoClashYet, AllWithin, Ordered, HunksOverlap;
    if NoUndercuts(ls, rs) && !clashed { NoClashRemote(base, ls, rs, li, ri, bi); }
  }

  lemma ReportAll(base: seq<Line>, ls: seq<Hunk>, rs: seq<Hunk>, bi: nat, conflicts: seq<Conflict>, clashed: bool)
    requires AllWithin(base, ls) && AllWithin(base, rs) && Reported(base, ls, rs, |ls|, |rs|, bi, conflicts, clashed)
    ensures forall c :: c in conflicts ==> Justified(c, base, ls, rs)
    ensures NoUndercuts(ls, rs) ==> FirstReported(base, ls, rs, conflicts)
  {
    hide Justified, NoUndercuts, FirstReported, NoClashYet, AllWithin;
    if NoUndercuts(ls, rs) && !clashed { NoClashAtAll(base, ls, rs, bi, conflicts); }
  }

  lemma SettleBoth(base: seq<Line>, ls: seq<Hunk>, rs: seq<Hunk>, li: nat, ri: nat, bi: nat, ms: seq<Hunk>, at: nat, result: seq<Line>,
                   bi': nat, result': seq<Line>, conflicts: seq<Conflict>, more: seq<Conflict>)
    requires Ordered(base, ls, |base|) && Ordered(base, rs, |base|) && AllWithin(base, ls) && AllWithin(base, rs)
    requires li < |ls| && ri < |rs| && HunksOverlap(ls[li], rs[ri]) && Settling(base, ls, rs, li, ri, bi, ms, at, result, conflicts)
    requires Copied(base, Min(ls[li].baseStart, rs[ri].baseStart), bi, result, bi', result')
    requires more == if ls[li].lines == rs[ri].lines then [] else [ConflictAt(base, ls[li], rs[ri]).(startLine := bi' + 1)]
    ensures var k := Block(ls[li], rs[ri]);
            Settling(base, ls, rs, li + 1, ri + 1, k.baseEnd, ms + [k], k.baseEnd, result' + k.lines, conflicts + more)
  {
    hide Ordered, AllWithin, Tidy, MergedSoFar, ConflictsOf, Meets, Marked;
    OneMoreConflict(base, ls, rs, li);
    if Tidy(ls, rs) {
      NotPendingBoth(base, ls, rs, li, ri, at, bi);
      TakeBoth(base, ls, rs, li, ri, ms, at, result);
      PartnersMeet(ls, rs, li, ri);
      Copies(base, at, Block(ls[li], rs[ri]).baseStart, result, bi', result');
    }
  }

  lemma Copies(base: seq<Line>, at: nat, start: nat, result: seq<Line>, bi': nat, result': seq<Line>)
    requires at <= start && Copied(base, start, at, result, bi', result')
    ensures bi' == start && result' == result + base[at..start]
  {
    if at == start { assert result + base[at..start] == result; }
  }

  lemma SettleLocal(base: seq<Line>, ls: seq<Hunk>, rs: seq<Hunk>, li: nat, ri: nat, bi: nat, ms: seq<Hunk>, at: nat, result: seq<Line>,
                    bi': nat, result': seq<Line>, conflicts: seq<Conflict>)
    requires Ordered(base, ls, |base|) && Ordered(base, rs, |base|) && AllWithin(base, ls) && AllWithin(base, rs)
    requires li < |ls| && ri <= |rs| && Settling(base, ls, rs, li, ri, bi, ms, at, result, conflicts)
    requires ri < |rs| ==> ls[li].baseStart <= rs[ri].baseStart && !HunksOverlap(ls[li], rs[ri])
    requires Copied(base, ls[li].baseStart, bi, result, bi', result')
    ensures var k := Settled(ls[li], rs);
            Settling(base, ls, rs, li + 1, ri, ls[li].baseEnd, ms + [k], k.baseEnd, result' + ls[li].lines, conflicts)
  {
    hide Ordered, AllWithin, Tidy, MergedSoFar, ConflictsOf, Meets, Settled, HunksOverlap;
    OneMoreConflict(base, ls, rs, li);
    if Tidy(ls, rs) {
      NotPending(base, ls, rs, li, ri, at, result);
      InStepSoFar(base, ls, rs, li, ri, ms, at, result);
      TidyLocalMeetsNone(base, ls, rs, li, ri);
      TakeLocal(base, ls, rs, li, ri, ms, at, result);
      Copies(base, at, ls[li].baseStart, result, bi', result');
    }
  }

  lemma SettleRemote(base: seq<Line>, ls: seq<Hunk>, rs: seq<Hunk>, li: nat, ri: nat, bi: nat, ms: seq<Hunk>, at: nat, result: seq<Line>,
                     bi': nat, result': seq<Line>, conflicts: seq<Conflict>)
    requires Ordered(base, ls, |base|) && Ordered(base, rs, |base|) && AllWithin(base, ls) && AllWithin(base, rs)
    requires li <= |ls| && ri < |rs| && Settling(base, ls, rs, li, ri, bi, ms, at, result, conflicts)
    requires li < |ls| ==> rs[ri].baseStart < ls[li].baseStart && !HunksOverlap(ls[li], rs[ri])
    requires Copied(base, rs[ri].baseStart, bi, result, bi', result')
    ensures Settling(base, ls, rs, li, ri + 1, rs[ri].baseEnd, ms + [rs[ri]], rs[ri].baseEnd, result' + rs[ri].lines, conflicts)
  {
    hide Ordered, AllWithin, Tidy, MergedSoFar, ConflictsOf, HunksOverlap;
    if Tidy(ls, rs) {
      InStepSoFar(base, ls, rs, li, ri, ms, at, result);
      RemoteMeetsNone(base, ls, rs, li, ri);
      TakeRemote(base, ls, rs, li, ri, ms, at, result);
      if bi != at { PendingIsBack(ls, rs, li, ri, at, bi); }
      Copies(base, at, rs[ri].baseStart, result, rs[ri].baseStart, result');
    }
  }

  /** Where a remote insertion is pending, the text stands just there. */
  lemma PendingIsBack(ls: seq<Hunk>, rs: seq<Hunk>, li: nat, ri: nat, at: nat, bi: nat)
    requires li <= |ls| && ri < |rs| && Pending(ls, rs, li, ri, at, bi)
    ensures at == rs[ri].baseStart <= bi
  {
  }

  lemma SettleAll(base: seq<Line>, ls: seq<Hunk>, rs: seq<Hunk>, bi: nat, ms: seq<Hunk>, at: nat, result: seq<Line>, conflicts: seq<Conflict>)
    requires AllWithin(base, ls) && AllWithin(base, rs) && bi <= |base| && Settling(base, ls, rs, |ls|, |rs|, bi, ms, at, result, conflicts)
    ensures Tidy(ls, rs) ==>
              conflicts == ConflictsOf(base, ls, rs) && MergesTo(base, AllSettled(ls, rs), Others(rs, ls), result + base[bi..])
    ensures Tidy(ls, rs) && bi == |base| ==> MergesTo(base, AllSettled(ls, rs), Others(rs, ls), result)
  {
    hide AllWithin, Tidy, MergedSoFar, ConflictsOf, MergesTo, Others;
    assert ls[..|ls|] == ls;
    if Tidy(ls, rs) { AllMerged(base, ls, rs, ms, bi, result); }
  }

  /** All the changes taken so far stand in the text, the conflicts so far are reported, and what is settled so far is merged. */
  ghost predicate Going(base: seq<Line>, ls: seq<Hunk>, rs: seq<Hunk>, li: nat, ri: nat, bi: nat, ms: seq<Hunk>, at: nat,
                        result: seq<Line>, conflicts: seq<Conflict>, clashed: bool)
    requires AllWithin(base, ls) && AllWithin(base, rs) && li <= |ls| && ri <= |rs|
  {
    && Standing(ls, rs, li, ri, result) && Reported(base, ls, rs, li, ri, bi, conflicts, clashed)
    && Settling(base, ls, rs, li, ri, bi, ms, at, result, conflicts)
  }

  lemma StandingCopied(base: seq<Line>, ls: seq<Hunk>, rs: seq<Hunk>, li: nat, ri: nat, start: nat, bi: nat, result: seq<Line>,
                       bi': nat, result': seq<Line>)
    requires li <= |ls| && ri <= |rs| && Standing(ls, rs, li, ri, result) && Copied(base, start, bi, result, bi', result')
    ensures Standing(ls, rs, li, ri, result')
  {
    hide Standing;
    if bi < start { StandingFurther(ls, rs, li, ri, result, base[bi..start]); }
  }

  lemma GoBoth(base: seq<Line>, ls: seq<Hunk>, rs: seq<Hunk>, li: nat, ri: nat, bi: nat, ms: seq<Hunk>, at: nat, result: seq<Line>,
               bi': nat, result': seq<Line>, conflicts: seq<Conflict>, c: Option<Conflict>, clashed: bool, lines: seq<Line>)
    returns (ms': seq<Hunk>, at': nat)
    requires Ordered(base, ls, |base|) && Ordered(base, rs, |base|) && AllWithin(base, ls) && AllWithin(base, rs)
    requires li < |ls| && ri < |rs| && HunksOverlap(ls[li], rs[ri]) && Going(base, ls, rs, li, ri, bi, ms, at, result, conflicts, clashed)
    requires Copied(base, Min(ls[li].baseStart, rs[ri].baseStart), bi, result, bi', result')
    requires ls[li].baseEnd <= |base| && rs[ri].baseEnd <= |base| && IsHandled(base, ls[li], rs[ri], bi', lines, c)
    ensures Going(base, ls, rs, li + 1, ri + 1, Max(ls[li].baseEnd, rs[ri].baseEnd), ms', at', result' + lines,
                  if c.Some? then conflicts + [c.value] else conflicts, true)
  {
    hide Standing, Reported, Settling, Ordered, AllWithin, Stands, HunksOverlap;
    var more := if c.Some? then [c.value] else [];
    assert conflicts + [] == conflicts;
    StandingCopied(base, ls, rs, li, ri, Min(ls[li].baseStart, rs[ri].baseStart), bi, result, bi', result');
    StandingFurther(ls, rs, li, ri, result', lines);
    ReportBoth(base, ls, rs, li, ri, bi, bi', conflicts, more, clashed);
    SettleBoth(base, ls, rs, li, ri, bi, ms, at, result, bi', result', conflicts, more);
    ms', at' := ms + [Block(ls[li], rs[ri])], Block(ls[li], rs[ri]).baseEnd;
  }

  lemma GoLocal(base: seq<Line>, ls: seq<Hunk>, rs: seq<Hunk>, li: nat, ri: nat, bi: nat, ms: seq<Hunk>, at: nat, result: seq<Line>,
                bi': nat, result': seq<Line>, conflicts: seq<Conflict>, clashed: bool)
    returns (ms': seq<Hunk>, at': nat)
    requires Ordered(base, ls, |base|) && Ordered(base, rs, |base|) && AllWithin(base, ls) && AllWithin(base, rs)
    requires li < |ls| && ri <= |rs| && Going(base, ls, rs, li, ri, bi, ms, at, result, conflicts, clashed)
    requires ri < |rs| ==> ls[li].baseStart <= rs[ri].baseStart && !HunksOverlap(ls[li], rs[ri])
    requires Copied(base, ls[li].baseStart, bi, result, bi', result')
    ensures Going(base, ls, rs, li + 1, ri, ls[li].baseEnd, ms', at', result' + ls[li].lines, conflicts, clashed)
  {
    hide Standing, Reported, Settling, Ordered, AllWithin, Stands, HunksOverlap, Settled;
    StandingCopied(base, ls, rs, li, ri, ls[li].baseStart, bi, result, bi', result');
    StandsAlone(ls[li].lines);
    StandingFurther(ls, rs, li, ri, result', ls[li].lines);
    ReportLocal(base, ls, rs, li, ri, bi, conflicts, clashed);
    SettleLocal(base, ls, rs, li, ri, bi, ms, at, result, bi', result', conflicts);
    ms', at' := ms + [Settled(ls[li], rs)], Settled(ls[li], rs).baseEnd;
  }

  lemma GoRemote(base: seq<Line>, ls: seq<Hunk>, rs: seq<Hunk>, li: nat, ri: nat, bi: nat, ms: seq<Hunk>, at: nat, result: seq<Line>,
                 bi': nat, result': seq<Line>, conflicts: seq<Conflict>, clashed: bool)
    returns (ms': seq<Hunk>, at': nat)
    requires Ordered(base, ls, |base|) && Ordered(base, rs, |base|) && AllWithin(base, ls) && AllWithin(base, rs)
    requires li <= |ls| && ri < |rs| && Going(base, ls, rs, li, ri, bi, ms, at, result, conflicts, clashed)
    requires li < |ls| ==> rs[ri].baseStart < ls[li].baseStart && !HunksOverlap(ls[li], rs[ri])
    requires Copied(base, rs[ri].baseStart, bi, result, bi', result')
    ensures Going(base, ls, rs, li, ri + 1, rs[ri].baseEnd, ms', at', result' + rs[ri].lines, conflicts, clashed)
  {
    hide Standing, Reported, Settling, Ordered, AllWithin, Stands, HunksOverlap;
    StandingCopied(base, ls, rs, li, ri, rs[ri].baseStart, bi, result, bi', result');
    StandsAlone(rs[ri].lines);
    StandingFurther(ls, rs, li, ri, result', rs[ri].lines);
    ReportRemote(base, ls, rs, li, ri, bi, conflicts, clashed);
    SettleRemote(base, ls, rs, li, ri, bi, ms, at, result, bi', result', conflicts);
    ms', at' := ms + [rs[ri]], rs[ri].baseEnd;
  }

  /** What is left of the base is copied in the end. */
  lemma GoneThrough(base: seq<Line>, ls: seq<Hunk>, rs: seq<Hunk>, bi: nat, ms: seq<Hunk>, at: nat, result: seq<Line>,
                    result': seq<Line>, conflicts: seq<Conflict>, clashed: bool)
    requires AllWithin(base, ls) && AllWithin(base, rs) && bi <= |base|
    requires Going(base, ls, rs, |ls|, |rs|, bi, ms, at, result, conflicts, clashed)
    requires result' == if bi < |base| then result + base[bi..] else result
    ensures Standing(ls, rs, |ls|, |rs|, result') && forall c :: c in conflicts ==> Justified(c, base, ls, rs)
    ensures NoUndercuts(ls, rs) ==> FirstReported(base, ls, rs, conflicts)
    ensures Tidy(ls, rs) ==> conflicts == ConflictsOf(base, ls, rs) && MergesTo(base, AllSettled(ls, rs), Others(rs, ls), result')
    ensures NoOverlaps(ls, rs) ==> conflicts == [] && MergesTo(base, AllRestored(ls, rs), rs, result')
    ensures MergesTo(base, ls, rs, result') <==> Compatible(ls, rs)
  {
    hide Standing, Reported, Settling, AllWithin, Justified, NoUndercuts, FirstReported, Tidy, ConflictsOf, MergesTo, Others, NoOverlaps, Compatible;
    StandingFurther(ls, rs, |ls|, |rs|, result, base[bi..]);
    ReportAll(base, ls, rs, bi, conflicts, clashed);
    SettleAll(base, ls, rs, bi, ms, at, result, conflicts);
    if NoOverlaps(ls, rs) {
      NothingOverlaps(base, ls, rs);
    }
    CompatibleExactly(base, ls, rs, result');
  }

  lemma NothingYet(base: seq<Line>, ls: seq<Hunk>, rs: seq<Hunk>)
    requires AllWithin(base, ls) && AllWithin(base, rs)
    ensures Going(base, ls, rs, 0, 0, 0, [], 0, [], [], false)
  {
    NothingMerged(base, ls, rs);
    hide AllStand, MergedSoFar, ConflictsOf, Tidy, NoClashYet;
  }

  /** Where the next change starts. */
  ghost function NextStart(ls: seq<Hunk>, rs: seq<Hunk>, li: nat, ri: nat): nat
    requires li <= |ls| && ri <= |rs| && (li < |ls| || ri < |rs|)
  {
    if li == |ls| then rs[ri].baseStart
    else if ri == |rs| then ls[li].baseStart
    else Min(ls[li].baseStart, rs[ri].baseStart)
  }

  /** Copies the base up to where the next change starts. */
  method CopyToNext(base: seq<Line>, ls: seq<Hunk>, rs: seq<Hunk>, li: nat, ri: nat, bi: nat, result: seq<Line>)
    returns (bi': nat, result': seq<Line>)
    requires bi <= |base| && Ordered(base, ls, |base|) && Ordered(base, rs, |base|)
    requires li <= |ls| && ri <= |rs| && (li < |ls| || ri < |rs|)
    ensures bi' <= |base| && Copied(base, NextStart(ls, rs, li, ri), bi, result, bi', result')
  {
    WithinBase(base, ls, rs);
    var nextStart: nat := |base|;
    if li < |ls| && ls[li].baseStart < nextStart {
      nextStart := ls[li].baseStart;
    }
    if ri < |rs| && rs[ri].baseStart < nextStart {
      nextStart := rs[ri].baseStart;
    }
    bi', result' := bi, result;
    if bi < nextStart {
      result' := result + base[bi..nextStart];
      bi' := nextStart;
    }
  }

  /** Two overlapping changes become one, and a conflict if they differ. */
  method TakeOverlapping(base: seq<Line>, ls: seq<Hunk>, rs: seq<Hunk>, li: nat, ri: nat, bi: nat, result: seq<Line>, conflicts: seq<Conflict>,
                         ghost bi0: nat, ghost result0: seq<Line>, ghost ms: seq<Hunk>, ghost at: nat, ghost clashed: bool)
    returns (result': seq<Line>, conflicts': seq<Conflict>, ghost ms': seq<Hunk>, ghost at': nat)
    requires Ordered(base, ls, |base|) && Ordered(base, rs, |base|) && AllWithin(base, ls) && AllWithin(base, rs)
    requires li < |ls| && ri < |rs| && HunksOverlap(ls[li], rs[ri]) && Going(base, ls, rs, li, ri, bi0, ms, at, result0, conflicts, clashed)
    requires Copied(base, Min(ls[li].baseStart, rs[ri].baseStart), bi0, result0, bi, result)
    ensures Going(base, ls, rs, li + 1, ri + 1, Max(ls[li].baseEnd, rs[ri].baseEnd), ms', at', result', conflicts', true)
  {
    WithinBase(base, ls, rs);
    hide Ordered, Going, Copied, AllWithin, IsHandled, HunksOverlap;
    var lines, c := HandleOverlappingHunks(base, ls[li], rs[ri], bi);
    ms', at' := GoBoth(base, ls, rs, li, ri, bi0, ms, at, result0, bi, result, conflicts, c, clashed, lines);
    result', conflicts' := result + lines, conflicts;
    if c.Some? {
      conflicts' := conflicts' + [c.value];
    }
  }

  /** Of two changes that do not overlap, the one that starts first follows. */
  method TakeEarlier(base: seq<Line>, ls: seq<Hunk>, rs: seq<Hunk>, li: nat, ri: nat, bi: nat, result: seq<Line>, ghost conflicts: seq<Conflict>,
                     ghost bi0: nat, ghost result0: seq<Line>, ghost ms: seq<Hunk>, ghost at: nat, ghost clashed: bool)
    returns (li': nat, ri': nat, bi': nat, result': seq<Line>, ghost ms': seq<Hunk>, ghost at': nat)
    requires Ordered(base, ls, |base|) && Ordered(base, rs, |base|) && AllWithin(base, ls) && AllWithin(base, rs)
    requires li <= |ls| && ri <= |rs| && (li < |ls| || ri < |rs|) && (li < |ls| && ri < |rs| ==> !HunksOverlap(ls[li], rs[ri]))
    requires Going(base, ls, rs, li, ri, bi0, ms, at, result0, conflicts, clashed)
    requires Copied(base, NextStart(ls, rs, li, ri), bi0, result0, bi, result)
    ensures li <= li' <= |ls| && ri <= ri' <= |rs| && li' + ri' == li + ri + 1 && bi' <= |base|
    ensures Going(base, ls, rs, li', ri', bi', ms', at', result', conflicts, clashed)
  {
    WithinBase(base, ls, rs);
    hide Ordered, Going, Copied, AllWithin, HunksOverlap;
    if li < |ls| && (ri == |rs| || ls[li].baseStart <= rs[ri].baseStart) {
      ms', at' := GoLocal(base, ls, rs, li, ri, bi0, ms, at, result0, bi, result, conflicts, clashed);
      li', ri', bi', result' := li + 1, ri, ls[li].baseEnd, result + ls[li].lines;
    } else {
      ms', at' := GoRemote(base, ls, rs, li, ri, bi0, ms, at, result0, bi, result, conflicts, clashed);
      li', ri', bi', result' := li, ri + 1, rs[ri].baseEnd, result + rs[ri].lines;
    }
  }

  /** Combines the changes of two sides. All of them end up in the result. If every change overlaps at most one of the
      other side, and none if it is undercut, then the conflicts are exactly those of the overlapping changes with
      different lines, and the result is the base with the changes of both sides applied, overlapping ones as one; except
      that lines which local replaced and remote undercuts are restored behind the two insertions. Whatever overlaps, if
      none is undercut, then the first overlapping changes are a conflict unless their lines are the same. */
  method Merge3(base: seq<Line>, ls: seq<Hunk>, rs: seq<Hunk>) returns (result: seq<Line>, conflicts: seq<Conflict>)
    requires Ordered(base, ls, |base|) && Ordered(base, rs, |base|)
    ensures AllWithin(base, ls) && AllWithin(base, rs)
    ensures Standing(ls, rs, |ls|, |rs|, result)
    ensures forall c :: c in conflicts ==> Justified(c, base, ls, rs)
    ensures NoUndercuts(ls, rs) ==> FirstReported(base, ls, rs, conflicts)
    ensures Tidy(ls, rs) ==> conflicts == ConflictsOf(base, ls, rs) && MergesTo(base, AllSettled(ls, rs), Others(rs, ls), result)
    ensures NoOverlaps(ls, rs) ==> conflicts == [] && MergesTo(base, AllRestored(ls, rs), rs, result)
    ensures MergesTo(base, ls, rs, result) <==> Compatible(ls, rs)
  {
    WithinBase(base, ls, rs);
    hide Ordered, NoOverlaps, Compatible, MergesTo, Standing, Going, Stands, Settled, Justified, Tidy, NoUndercuts;
    hide FirstReported, Others, ConflictsOf, AllWithin, Join, Marked, AllRestored, AllSettled, ConflictAt, HunksOverlap, Block, IsHandled, Copied;
    result, conflicts := [], [];
    ghost var ms: seq<Hunk>, at: nat := [], 0;
    ghost var clashed := false;
    var li: nat, ri: nat, bi: nat := 0, 0, 0;
    NothingYet(base, ls, rs);
    while bi <= |base|
      invariant li <= |ls| && ri <= |rs| && bi <= |base|
      invariant Going(base, ls, rs, li, ri, bi, ms, at, result, conflicts, clashed)
      decreases |ls| - li + |rs| - ri
    {
      ghost var result0, bi0 := result, bi;
      if li == |ls| && ri == |rs| {
        if bi < |base| {
          result := result + base[bi..];
        }
        GoneThrough(base, ls, rs, bi, ms, at, result0, result, conflicts, clashed);
        break;
      }
      bi, result := CopyToNext(base, ls, rs, li, ri, bi, result);
      if li < |ls| && ri < |rs| && HunksOverlap(ls[li], rs[ri]) {
        result, conflicts, ms, at := TakeOverlapping(base, ls, rs, li, ri, bi, result, conflicts, bi0, result0, ms, at, clashed);
        clashed := true;
        bi := Max(ls[li].baseEnd, rs[ri].baseEnd);
        li, ri := li + 1, ri + 1;
        continue;
      }
      li, ri, bi, result, ms, at := TakeEarlier(base, ls, rs, li, ri, bi, result, conflicts, bi0, result0, ms, at, clashed);
    }
  }

  lemma HunksAreWithin(base: seq<Line>, hs: seq<Hunk>)
    requires Ordered(base, hs, |base|)
    ensures forall i :: 0 <= i < |hs| ==> hs[i].baseStart <= hs[i].baseEnd <= |base|
  {
  }

  lemma WithinBase(base: seq<Line>, ls: seq<Hunk>, rs: seq<Hunk>)
    requires Ordered(base, ls, |base|) && Ordered(base, rs, |base|)
    ensures AllWithin(base, ls) && AllWithin(base, rs)
    ensures forall i :: 0 <= i < |ls| ==> ls[i].baseStart <= ls[i].baseEnd <= |base|
    ensures forall j :: 0 <= j < |rs| ==> rs[j].baseStart <= rs[j].baseEnd <= |base|
  {
  }

  lemma NothingMerged(base: seq<Line>, ls: seq<Hunk>, rs: seq<Hunk>)
    requires AllWithin(base, ls) && AllWithin(base, rs)
    ensures MergedSoFar(base, ls, rs, 0, 0, [], 0, []) && AllWithin(base, ls[..0]) && ConflictsOf(base, ls[..0], rs) == []
    ensures AllStand(ls, 0, []) && AllStand(rs, 0, []) && NoClashYet(ls, rs, 0, 0, 0)
  {
  }

  lemma AllMerged(base: seq<Line>, ls: seq<Hunk>, rs: seq<Hunk>, ms: seq<Hunk>, bi: nat, result: seq<Line>)
    requires MergedSoFar(base, ls, rs, |ls|, |rs|, ms, bi, result) && bi <= |base|
    ensures MergesTo(base, AllSettled(ls, rs), Others(rs, ls), result + base[bi..])
    ensures bi == |base| ==> MergesTo(base, AllSettled(ls, rs), Others(rs, ls), result)
  {
    var ks := AllSettled(ls, rs);
    assert ks[..|ls|] == ks && rs[..|rs|] == rs;
    ReplayFurther(base, ms, bi, |base|);
    hide Replay, Settled, Others, LocalFirst, InStep, Beyond;
    assert base[bi..|base|] == base[bi..];
    assert IsMerge(base, ms, ks, Others(rs, ls));
    if bi == |base| { assert result + base[bi..] == result; }
  }

  lemma IsJustified(c: Conflict, base: seq<Line>, ls: seq<Hunk>, rs: seq<Hunk>, i: nat, j: nat)
    requires AllWithin(base, ls) && AllWithin(base, rs) && i < |ls| && j < |rs| && HunksOverlap(ls[i], rs[j])
    requires ls[i].lines != rs[j].lines && c == ConflictAt(base, ls[i], rs[j]).(startLine := c.startLine)
    ensures Justified(c, base, ls, rs)
  {
  }

  /** Local never comes next while a remote insertion is pending. */
  lemma NotPending(base: seq<Line>, ls: seq<Hunk>, rs: seq<Hunk>, li: nat, ri: nat, at: nat, result: seq<Line>)
    requires Ordered(base, ls, |base|) && li < |ls| && (ri < |rs| ==> ls[li].baseStart <= rs[ri].baseStart)
    ensures forall bi :: !Pending(ls, rs, li, ri, at, bi)
  {
  }

  lemma NotPendingBoth(base: seq<Line>, ls: seq<Hunk>, rs: seq<Hunk>, li: nat, ri: nat, at: nat, bi: nat)
    requires Ordered(base, ls, |base|) && li < |ls| && ri < |rs| && HunksOverlap(ls[li], rs[ri])
    ensures !Pending(ls, rs, li, ri, at, bi)
  {
  }

  // ----- texts -----

  /** Where a line ends: one past the newline, or the end of the text. */
  function LineEnd(data: string): (k: nat)
    requires data != ""
    ensures 0 < k <= |data| && (forall i :: 0 <= i < k - 1 ==> data[i] != '\n') && (k < |data| ==> data[k - 1] == '\n')
  {
    if data[0] == '\n' || |data| == 1 then 1 else 1 + LineEnd(data[1..])
  }

  /** strings.SplitAfter at newlines, without an empty last piece. */
  function SplitLines(data: string): seq<Line>
    decreases |data|
  {
    if data == "" then [] else [data[..LineEnd(data)]] + SplitLines(data[LineEnd(data)..])
  }

  lemma JoinUnfolds(lines: seq<Line>, last: Line)
    ensures Join(lines + [last]) == Join(lines) + last && Join([]) == ""
  {
    assert (lines + [last])[..|lines|] == lines;
  }

  lemma {:induction false} JoinPrepend(line: Line, lines: seq<Line>)
    ensures Join([line] + lines) == line + Join(lines)
  {
    hide Join;
    if lines == [] {
      JoinUnfolds([], line);
      assert [line] + lines == [] + [line];
    } else {
      var init, last := lines[..|lines| - 1], lines[|lines| - 1];
      JoinPrepend(line, init);
      JoinUnfolds(init, last);
      JoinUnfolds([line] + init, last);
      assert lines == init + [last] && [line] + lines == [line] + init + [last];
      assert line + Join(init) + last == line + (Join(init) + last);
    }
  }

  /** Every piece is one line, and all but the last have their newline. */
  ghost predicate ArePieces(lines: seq<Line>) {
    && (forall l :: l in lines ==> l != "" && forall i :: 0 <= i < |l| - 1 ==> l[i] != '\n')
    && forall i :: 0 <= i < |lines| - 1 ==> lines[i] != "" && lines[i][|lines[i]| - 1] == '\n'
  }

  /** Splitting loses nothing. */
  lemma {:induction false} SplitJoin(data: string)
    ensures Join(SplitLines(data)) == data && ArePieces(SplitLines(data))
    decreases |data|
  {
    hide Join, SplitLines, LineEnd, ArePieces;
    if data == "" {
      NothingSplit();
    } else {
      SplitUnfolds(data);
      var k := LineEnd(data);
      var l, lines := data[..k], SplitLines(data[k..]);
      SplitJoin(data[k..]);
      JoinPrepend(l, lines);
      OnePieceMore(l, lines);
      assert data == l + data[k..];
    }
  }

  lemma NothingSplit()
    ensures Join(SplitLines("")) == "" && ArePieces(SplitLines(""))
  {
  }

  lemma SplitUnfolds(data: string)
    requires data != ""
    ensures var k := LineEnd(data);
            && 0 < k <= |data| && SplitLines(data) == [data[..k]] + SplitLines(data[k..])
            && (SplitLines(data[k..]) != [] ==> data[k - 1] == '\n') && forall i :: 0 <= i < k - 1 ==> data[..k][i] != '\n'
  {
    var k := LineEnd(data);
    if k == |data| { assert data[k..] == ""; }
  }

  lemma OnePieceMore(l: Line, lines: seq<Line>)
    requires ArePieces(lines) && l != "" && (forall i :: 0 <= i < |l| - 1 ==> l[i] != '\n') && (lines != [] ==> l[|l| - 1] == '\n')
    ensures ArePieces([l] + lines)
  {
    var all := [l] + lines;
    assert forall i :: 0 < i < |all| ==> all[i] == lines[i - 1];
  }

  /** The changes of both sides as hunks on the lines of the base, each leaving a longest common subsequence alone. */
  ghost predicate Sides(base: string, local: string, remote: string, ls: seq<Hunk>, rs: seq<Hunk>) {
    var lines := SplitLines(base);
    && Ordered(lines, ls, |lines|) && Ordered(lines, rs, |lines|)
    && Join(Replay(lines, ls, |lines|)) == local && Join(Replay(lines, rs, |lines|)) == remote
    && Removed(ls) == |lines| - Len(lines, SplitLines(local), |lines|, |SplitLines(local)|)
    && Removed(rs) == |lines| - Len(lines, SplitLines(remote), |lines|, |SplitLines(remote)|)
  }

  /** A side that agrees with the base or with the other side gives way. */
  predicate OneSided(base: string, local: string, remote: string) { local == remote || base == local || base == remote }

  /** The text of both sides' changes, each applied to the lines of the base. */
  ghost predicate TextOf(base: string, ls: seq<Hunk>, rs: seq<Hunk>, content: string) {
    exists merged :: MergesTo(SplitLines(base), ls, rs, merged) && content == Join(merged)
  }

  /** The merge of three texts. When no changes of the two sides overlap there is no conflict, and when they are
      compatible both are applied. When each overlaps one at most, the conflicts are just those with different lines. */
  method Merge(base: string, local: string, remote: string)
    returns (content: string, conflicts: seq<Conflict>, ghost ls: seq<Hunk>, ghost rs: seq<Hunk>)
    ensures local == remote ==> content == local && conflicts == []
    ensures base == local ==> content == remote && conflicts == []
    ensures base == remote ==> content == local && conflicts == []
    ensures !OneSided(base, local, remote) ==> Sides(base, local, remote, ls, rs)
    ensures !OneSided(base, local, remote) ==>
              var lines := SplitLines(base);
              && AllWithin(lines, ls) && AllWithin(lines, rs)
              && (Tidy(ls, rs) ==> conflicts == ConflictsOf(lines, ls, rs) && TextOf(base, AllSettled(ls, rs), Others(rs, ls), content))
              && (NoUndercuts(ls, rs) ==> FirstReported(lines, ls, rs, conflicts))
    ensures !OneSided(base, local, remote) && NoOverlaps(ls, rs) ==> conflicts == [] && TextOf(base, AllRestored(ls, rs), rs, content)
    ensures !OneSided(base, local, remote) && Compatible(ls, rs) ==> conflicts == [] && TextOf(base, ls, rs, content)
  {
    hide Ordered, Replay, Removed, Len, SplitLines, Join, MergesTo, Tidy, ConflictsOf, AllSettled, Others, NoUndercuts, FirstReported, AllWithin;
    ls, rs := [], [];
    if local == remote {
      return local, [], ls, rs;
    }
    if base == local {
      return remote, [], ls, rs;
    }
    if base == remote {
      return local, [], ls, rs;
    }
    var baseLines, localLines, remoteLines := SplitLines(base), SplitLines(local), SplitLines(remote);
    SplitJoin(local);
    SplitJoin(remote);
    var localDiff := DiffLines(baseLines, localLines);
    var remoteDiff := DiffLines(baseLines, remoteLines);
    ls, rs := localDiff, remoteDiff;
    var merged;
    merged, conflicts := Merge3(baseLines, localDiff, remoteDiff);
    content := Join(merged);
    hide NoOverlaps, AllRestored;
  }
}
