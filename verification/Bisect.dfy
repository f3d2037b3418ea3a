/** Binary search through history (internal/bisect/bisect.go). */
module Bisect {
  import opened Bytes
  import opened Decimal
  import opened Words
  import opened Paths
  import opened Forest

  datatype NextResult = Test(rid: Rid) | Complete(firstBad: Rid) | NotSet | NoPath

  /** An index strictly inside a path whose node is not skipped. */
  predicate Testable(p: seq<Rid>, skip: set<int>, i: int) { 0 < i < |p| - 1 && p[i] !in skip }

  function Distance(i: int, j: int): nat { if i < j then j - i else i - j }

  /** What a path leaves to be tested: the testable index nearest to the middle, the later of two equally near. */
  ghost predicate IsNext(p: seq<Rid>, skip: set<int>, bad: Rid, r: NextResult, mid: int) {
    if forall i :: !Testable(p, skip, i) then r == Complete(bad)
    else
      && Testable(p, skip, mid) && r == Test(p[mid])
      && forall i :: Testable(p, skip, i) ==> Distance(|p| / 2, mid) <= Distance(|p| / 2, i) && (Distance(|p| / 2, mid) == Distance(|p| / 2, i) ==> i <= mid)
  }

  /** The number that a word of the log skips. */
  function SkippedBy(word: string): Option<int> {
    if word != "" && word[0] == 's' then Atoi(word[1..]) else None
  }

  ghost function SkippedByAll(words: seq<string>): set<int> {
    set w | w in words && SkippedBy(w).Some? :: SkippedBy(w).value
  }

  class Session {
    var good: Option<Rid>
    var bad: Option<Rid>
    var log: string

    constructor ()
      ensures good == None && bad == None && Skipped() == {}
    {
      good, bad, log := None, None, "";
    }

    /** What the log skips. */
    ghost function Skipped(): set<int>
      reads this
    {
      SkippedByAll(Fields(log))
    }

    /** One more word of the log. */
    method AppendLogEntry(entry: string)
      requires Token(entry)
      modifies this`log
      ensures Fields(log) == old(Fields(log)) + [entry]
      ensures Skipped() == old(Skipped()) + if SkippedBy(entry).Some? then {SkippedBy(entry).value} else {}
    {
      hide Fields, Token, SkippedBy;
      WordIsField(log, entry);
      var cur := log;
      if cur != "" {
        cur := cur + " ";
      }
      log := cur + entry;
    }

    method MarkGood(rid: Rid)
      modifies this
      ensures good == Some(rid) && bad == old(bad) && Skipped() == old(Skipped())
      ensures Fields(log) == old(Fields(log)) + [IntToString(rid)]
    {
      MarksSkipNothing(rid);
      good := Some(rid);
      AppendLogEntry(IntToString(rid));
    }

    method MarkBad(rid: Rid)
      modifies this
      ensures bad == Some(rid) && good == old(good) && Skipped() == old(Skipped())
      ensures Fields(log) == old(Fields(log)) + [IntToString(-(rid as int))]
    {
      MarksSkipNothing(-(rid as int));
      bad := Some(rid);
      AppendLogEntry(IntToString(-(rid as int)));
    }

    method Skip(rid: Rid)
      requires rid <= MAX_INT64
      modifies this
      ensures Skipped() == old(Skipped()) + {rid} && good == old(good) && bad == old(bad)
      ensures Fields(log) == old(Fields(log)) + ["s" + IntToString(rid)]
    {
      SkipIsRead(rid);
      AppendLogEntry("s" + IntToString(rid));
    }

    method ParseSkipSet() returns (skip: set<int>)
      ensures skip == Skipped()
    {
      hide Fields, SkippedBy;
      skip := {};
      var words := Fields(log);
      for i := 0 to |words|
        invariant skip == SkippedByAll(words[..i])
      {
        assert words[..i + 1] == words[..i] + [words[i]];
        var id := SkippedBy(words[i]);
        if id.Some? {
          skip := skip + {id.value};
        }
      }
      assert words[..|words|] == words;
    }

    /** The commit to test next, on the shortest path between the marks. */
    method Next(plink: seq<Plink>) returns (r: NextResult, ghost p: seq<Rid>, ghost mid: int)
      ensures r == NotSet <==> good == None || bad == None
      ensures r == NoPath ==> good.Some? && bad.Some? && forall q :: !IsPath(plink, true, {}, q, good.value, bad.value)
      ensures r.Test? || r.Complete? ==> good.Some? && bad.Some? && IsShortest(plink, true, {}, p, good.value, bad.value)
      ensures r.Test? || r.Complete? ==> IsNext(p, Skipped(), bad.value, r, mid)
    {
      hide IsShortest, IsPath;
      p, mid := [], 0;
      if good == None || bad == None {
        return NotSet, p, mid;
      }
      var skip := ParseSkipSet();
      var found := Shortest(plink, good.value, bad.value, true, {});
      if found.None? {
        return NoPath, p, mid;
      }
      var rids := Rids(found.value);
      p := rids;
      if |rids| <= 2 {
        return Complete(bad.value), p, mid;
      }
      var best := NearestTestable(rids, skip);
      mid := best;
      if best < 0 {
        return Complete(bad.value), p, mid;
      }
      return Test(rids[best]), p, mid;
    }
  }

  /** The words that marks leave in the log are read as skipping nothing, and those that skips leave, as skipping. */
  lemma MarksSkipNothing(n: int)
    ensures Token(IntToString(n)) && SkippedBy(IntToString(n)) == None
  {
    IntIsToken(n);
  }

  lemma SkipIsRead(rid: Rid)
    requires rid <= MAX_INT64
    ensures Token("s" + IntToString(rid)) && SkippedBy("s" + IntToString(rid)) == Some(rid)
  {
    IntIsToken(rid);
    IntRoundTrip(rid);
    assert ("s" + IntToString(rid))[1..] == IntToString(rid);
    hide IntToString, Atoi;
  }

  /** Searches outward from the middle. */
  method NearestTestable(p: seq<Rid>, skip: set<int>) returns (best: int)
    ensures best >= 0 ==> Testable(p, skip, best)
    ensures best < 0 <==> forall i :: !Testable(p, skip, i)
    ensures best >= 0 ==> forall i :: Testable(p, skip, i) ==> Distance(|p| / 2, best) <= Distance(|p| / 2, i)
                                                               && (Distance(|p| / 2, best) == Distance(|p| / 2, i) ==> i <= best)
  {
    var mid := |p| / 2;
    best := -1;
    for d := 0 to |p|
      invariant best == -1
      invariant forall i :: Testable(p, skip, i) ==> d <= Distance(mid, i)
    {
      if Testable(p, skip, mid + d) {
        return mid + d;
      }
      if Testable(p, skip, mid - d) {
        return mid - d;
      }
    }
  }

  // ----- how fast it converges -----

  ghost function Pow2(k: nat): nat { if k == 0 then 1 else 2 * Pow2(k - 1) }

  /** The number of halvings, rounding up, from so many edges to at most one. */
  ghost function Halvings(e: nat): nat { if e <= 1 then 0 else 1 + Halvings((e + 1) / 2) }

  /** It is the logarithm to base two, rounded up. */
  lemma {:induction false} HalvingsIsLog(e: nat, k: nat)
    ensures e <= Pow2(k) <==> Halvings(e) <= k
    decreases e
  {
    if e <= 1 {
      PowIsPositive(k);
    } else if k == 0 {
    } else {
      HalvingsIsLog((e + 1) / 2, k - 1);
    }
  }

  lemma {:induction false} PowIsPositive(k: nat)
    ensures Pow2(k) >= 1
  {
    if k > 0 { PowIsPositive(k - 1); }
  }

  lemma HalvingsGrows(d: nat, e: nat)
    requires d <= e
    ensures Halvings(d) <= Halvings(e)
  {
    HalvingsIsLog(e, Halvings(e));
    HalvingsIsLog(d, Halvings(e));
  }

  /** Every commit strictly between the ends is skipped. */
  ghost predicate AllSkipped(p: seq<Rid>, skip: set<int>) { forall i :: 0 < i < |p| - 1 ==> p[i] in skip }

  /** A commit inside the path is tested, unless all are skipped; without skips it is the middle. */
  lemma NextIsInside(p: seq<Rid>, skip: set<int>, bad: Rid, r: NextResult, mid: int)
    requires IsNext(p, skip, bad, r, mid)
    ensures r.Complete? <==> AllSkipped(p, skip)
    ensures r.Test? ==> 0 < mid < |p| - 1 && r.rid == p[mid] && p[mid] !in skip && (skip == {} ==> mid == |p| / 2)
    ensures r.Test? || r.Complete?
  {
    if r.Complete? {
      forall i | 0 < i < |p| - 1 ensures p[i] in skip { assert !Testable(p, skip, i); }
    } else {
      assert Testable(p, skip, mid);
      if skip == {} { assert Testable(p, skip, |p| / 2); }
    }
  }

  /** Nothing that can be tested lies nearer to the middle, and what lies as near behind it is tested first. */
  lemma NextIsNearest(p: seq<Rid>, skip: set<int>, bad: Rid, r: NextResult, mid: int, d: nat)
    requires IsNext(p, skip, bad, r, mid) && r.Test?
    requires Testable(p, skip, |p| / 2 + d) || Testable(p, skip, |p| / 2 - d)
    ensures |p| / 2 - d <= mid <= |p| / 2 + d
    ensures Testable(p, skip, |p| / 2 + d) && d > 0 ==> mid > |p| / 2 - d
  {
    assert Testable(p, skip, mid);
  }

  /** The answers turn from good to bad at one place of a path. */
  ghost predicate Turns(p: seq<Rid>, isBad: Rid -> bool, t: int) {
    0 < t < |p| && forall i :: 0 <= i < |p| ==> (isBad(p[i]) <==> t <= i)
  }

  /** What is to be tested is neither marked nor skipped. */
  lemma NextIsNew(plink: seq<Plink>, p: seq<Rid>, good: Rid, bad: Rid, skip: set<int>, r: NextResult, mid: int)
    requires IsShortest(plink, true, {}, p, good, bad) && IsNext(p, skip, bad, r, mid) && r.Test?
    ensures r.rid != good && r.rid != bad && r.rid !in skip
  {
    ShortestIsSimple(plink, p, good, bad);
  }

  /** Shortest paths between the same ends are equally long, and in a forest they are the same. */
  lemma SameShortest(plink: seq<Plink>, height: Rid -> nat, p: seq<Rid>, q: seq<Rid>, from: Rid, to: Rid)
    requires IsShortest(plink, true, {}, p, from, to) && IsShortest(plink, true, {}, q, from, to)
    ensures |p| == |q| && p != [] && p[0] == from && p[|p| - 1] == to
    ensures IsForest(plink, height) ==> p == q
  {
    ShortestIsSimple(plink, p, from, to);
    ShortestIsSimple(plink, q, from, to);
    if IsForest(plink, height) {
      SimplePathIsUnique(plink, height, p, q, from, to);
    }
  }

  /** The parts that answers leave. */
  lemma PartIsLeft(plink: seq<Plink>, p: seq<Rid>, from: Rid, to: Rid, mid: nat)
    requires IsShortest(plink, true, {}, p, from, to) && mid < |p|
    ensures IsShortest(plink, true, {}, p[mid..|p|], p[mid], to) && IsShortest(plink, true, {}, p[..mid + 1], from, p[mid])
  {
    PartIsShortest(plink, p, from, to, mid, |p| - 1);
    PartIsShortest(plink, p, from, to, 0, mid);
    assert p[0..mid + 1] == p[..mid + 1];
  }

  /** From the middle, at most half the edges are left either way, rounded up. */
  lemma HalfIsLeft(n: nat)
    requires n > 2
    ensures 1 + Halvings(n - 1 - n / 2) <= Halvings(n - 1) && 1 + Halvings(n / 2) <= Halvings(n - 1)
  {
    HalvingsGrows(n - 1 - n / 2, n / 2);
  }

  /** A shortest path between the marks; in a forest, the part of the first one from lo up to hi. */
  ghost predicate Narrowed(plink: seq<Plink>, height: Rid -> nat, p0: seq<Rid>, p: seq<Rid>, lo: nat, hi: nat, good: Rid, bad: Rid) {
    && IsShortest(plink, true, {}, p, good, bad)
    && lo <= hi < |p0| && (IsForest(plink, height) ==> p == p0[lo..hi + 1])
  }

  /** Either answer narrows the path to one part. */
  lemma PartIsNarrowed(plink: seq<Plink>, height: Rid -> nat, p0: seq<Rid>, p: seq<Rid>, lo: nat, hi: nat, good: Rid, bad: Rid, mid: nat)
    requires Narrowed(plink, height, p0, p, lo, hi, good, bad) && mid < |p|
    ensures Narrowed(plink, height, p0, p[..mid + 1], lo, if lo + mid <= hi then lo + mid else hi, good, p[mid])
    ensures Narrowed(plink, height, p0, p[mid..|p|], if lo + mid <= hi then lo + mid else lo, hi, p[mid], bad)
  {
    hide IsShortest, IsForest;
    PartIsLeft(plink, p, good, bad, mid);
    PartOfPart(p0, p, lo, hi, mid);
  }

  lemma PartOfPart(p0: seq<Rid>, q: seq<Rid>, lo: nat, hi: nat, mid: nat)
    requires lo <= hi < |p0| && mid < |q|
    ensures q == p0[lo..hi + 1] ==> lo + mid <= hi && q[..mid + 1] == p0[lo..lo + mid + 1] && q[mid..|q|] == p0[lo + mid..hi + 1]
  {
  }

  /** Whichever shortest path the session finds, it is one that is narrowed as far, and as long. */
  lemma FoundIsNarrowed(plink: seq<Plink>, height: Rid -> nat, p0: seq<Rid>, p: seq<Rid>, q: seq<Rid>, lo: nat, hi: nat, good: Rid, bad: Rid)
    requires Narrowed(plink, height, p0, p, lo, hi, good, bad) && IsShortest(plink, true, {}, q, good, bad)
    ensures Narrowed(plink, height, p0, q, lo, hi, good, bad) && |q| == |p| && q != [] && q[0] == good && q[|q| - 1] == bad
  {
    hide IsShortest, IsForest;
    SameShortest(plink, height, p, q, good, bad);
    SameShortest(plink, height, q, p, good, bad);
  }

  /** Where the answers turn lies between two marks, one good or first and one bad or last. */
  lemma TurnIsBetween(p0: seq<Rid>, isBad: Rid -> bool, lo: nat, hi: nat, good: Rid, bad: Rid, t: int)
    requires lo <= hi < |p0| && p0[lo] == good && p0[hi] == bad && Turns(p0, isBad, t)
    requires good == p0[0] || !isBad(good)
    requires bad == p0[|p0| - 1] || isBad(bad)
    ensures lo < t <= hi
  {
  }

  /** Answering every question until the search is complete. Whatever the answers, there are at most as many as
      commits between the marks, and without skips at most as many as the logarithm of the distance. All commits that
      are then left between the marks are skipped, and without skips there are none. In a forest the marks end up on
      the path between the original ones; if the answers turn there from good to bad, it is between the marks. */
  method Search(s: Session, plink: seq<Plink>, isBad: Rid -> bool, ghost p0: seq<Rid>, ghost height: Rid -> nat)
    returns (answers: nat, firstBad: Rid, ghost p: seq<Rid>)
    requires s.good.Some? && s.bad.Some?
    requires IsShortest(plink, true, {}, p0, s.good.value, s.bad.value)
    modifies s
    ensures answers + |p| <= |p0| && (s.Skipped() == {} ==> answers <= Halvings(|p0| - 1))
    ensures s.good.Some? && s.bad == Some(firstBad) && IsShortest(plink, true, {}, p, s.good.value, firstBad)
    ensures s.Skipped() == old(s.Skipped()) && AllSkipped(p, s.Skipped()) && (s.Skipped() == {} ==> |p| <= 2)
    ensures s.good == old(s.good) || !isBad(s.good.value)
    ensures s.bad == old(s.bad) || isBad(firstBad)
    ensures forall t :: IsForest(plink, height) && Turns(p0, isBad, t) ==> p0[t - 1] in p && p0[t] in p
    ensures forall t :: IsForest(plink, height) && Turns(p0, isBad, t) && |p| <= 2 ==> firstBad == p0[t] && s.good == Some(p0[t - 1])
  {
    hide IsShortest, IsForest, IsNext, Halvings, Turns, Narrowed, AllSkipped;
    answers, p := 0, p0;
    StartsWhole(plink, height, p0, s.good.value, s.bad.value);
    ghost var lo: nat, hi: nat := 0, |p0| - 1;
    while true
      invariant s.good.Some? && s.bad.Some? && s.Skipped() == old(s.Skipped())
      invariant Narrowed(plink, height, p0, p, lo, hi, s.good.value, s.bad.value)
      invariant p != [] && answers + |p| <= |p0|
      invariant s.Skipped() == {} ==> answers + Halvings(|p| - 1) <= Halvings(|p0| - 1)
      invariant s.good == old(s.good) || !isBad(s.good.value)
      invariant s.bad == old(s.bad) || isBad(s.bad.value)
      decreases |p|
    {
      var r;
      ghost var q, mid;
      r, q, mid := s.Next(plink);
      if r.NotSet? || r.NoPath? {
        Reachable(plink, height, p0, p, lo, hi, s.good.value, s.bad.value);
        assert false;
      }
      FoundIsNarrowed(plink, height, p0, p, q, lo, hi, s.good.value, s.bad.value);
      NextIsInside(q, s.Skipped(), s.bad.value, r, mid);
      p := q;
      if r.Complete? {
        break;
      }
      PartIsNarrowed(plink, height, p0, p, lo, hi, s.good.value, s.bad.value, mid);
      if s.Skipped() == {} {
        HalfIsLeft(|p|);
      }
      answers := answers + 1;
      if isBad(r.rid) {
        s.MarkBad(r.rid);
        p, hi := p[..mid + 1], if lo + mid <= hi then lo + mid else hi;
      } else {
        s.MarkGood(r.rid);
        p, lo := p[mid..|p|], if lo + mid <= hi then lo + mid else lo;
      }
    }
    firstBad := s.bad.value;
    NoneBetween(p, s.Skipped());
    NarrowedEnds(plink, height, p0, p, lo, hi, isBad, s.good.value, firstBad);
  }

  lemma NoneBetween(p: seq<Rid>, skip: set<int>)
    requires AllSkipped(p, skip)
    ensures skip == {} ==> |p| <= 2
  {
    if |p| > 2 { assert p[1] in skip; }
  }

  lemma StartsWhole(plink: seq<Plink>, height: Rid -> nat, p0: seq<Rid>, good: Rid, bad: Rid)
    requires IsShortest(plink, true, {}, p0, good, bad)
    ensures p0 != [] && p0[0] == good && p0[|p0| - 1] == bad && Narrowed(plink, height, p0, p0, 0, |p0| - 1, good, bad)
  {
    SameShortest(plink, height, p0, p0, good, bad);
  }

  lemma NarrowedEnds(plink: seq<Plink>, height: Rid -> nat, p0: seq<Rid>, p: seq<Rid>, lo: nat, hi: nat, isBad: Rid -> bool,
                     good: Rid, bad: Rid)
    requires Narrowed(plink, height, p0, p, lo, hi, good, bad)
    requires good == p0[0] || !isBad(good)
    requires bad == p0[|p0| - 1] || isBad(bad)
    ensures IsShortest(plink, true, {}, p, good, bad)
    ensures forall t :: IsForest(plink, height) && Turns(p0, isBad, t) ==> p0[t - 1] in p && p0[t] in p
    ensures forall t :: IsForest(plink, height) && Turns(p0, isBad, t) && |p| <= 2 ==> bad == p0[t] && good == p0[t - 1]
  {
    hide IsShortest, IsForest;
    SameShortest(plink, height, p, p, good, bad);
    forall t | IsForest(plink, height) && Turns(p0, isBad, t)
      ensures p0[t - 1] in p && p0[t] in p && (|p| <= 2 ==> bad == p0[t] && good == p0[t - 1])
    {
      TurnIsBetween(p0, isBad, lo, hi, good, bad, t);
      assert p[t - lo] == p0[t] && p[t - 1 - lo] == p0[t - 1];
    }
  }

  lemma Reachable(plink: seq<Plink>, height: Rid -> nat, p0: seq<Rid>, p: seq<Rid>, lo: nat, hi: nat, from: Rid, to: Rid)
    requires Narrowed(plink, height, p0, p, lo, hi, from, to)
    ensures IsPath(plink, true, {}, p, from, to)
  {
  }
}
