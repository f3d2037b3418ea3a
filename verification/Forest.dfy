/** Paths among primary parents: a forest, in which two checkins are joined by at most one simple path. Such a path goes up
    to some checkin and then down, and whatever has no turn but that one is determined by its ends. */
module Forest {
  import opened Paths

  ghost predicate Primary(plink: seq<Plink>, child: Rid, parent: Rid) {
    exists row :: row in plink && row.isprim && row.cid == child && row.pid == parent
  }

  /** Every checkin has at most one primary parent, which is nearer to its root. */
  ghost predicate IsForest(plink: seq<Plink>, height: Rid -> nat) {
    forall c: Rid, p: Rid :: Primary(plink, c, p) ==> height(p) < height(c) && forall q: Rid :: Primary(plink, c, q) ==> q == p
  }

  ghost predicate Simple(p: seq<Rid>) {
    forall i, j :: 0 <= i < j < |p| ==> p[i] != p[j]
  }

  lemma PrimaryEdges(plink: seq<Plink>, a: Rid, b: Rid)
    ensures Adjacent(plink, true, a, b) <==> Primary(plink, a, b) || Primary(plink, b, a)
  {
    if Adjacent(plink, true, a, b) {
      var row :| row in plink && Counts(row, true) && ((row.pid == a && row.cid == b) || (row.cid == a && row.pid == b));
    }
    if row :| row in plink && row.isprim && row.cid == a && row.pid == b { assert Counts(row, true); }
    if row :| row in plink && row.isprim && row.cid == b && row.pid == a { assert Counts(row, true); }
  }

  // ----- parts of paths -----

  lemma PartOfPath(plink: seq<Plink>, p: seq<Rid>, from: Rid, to: Rid, lo: nat, hi: nat)
    requires IsPath(plink, true, {}, p, from, to) && lo <= hi < |p|
    ensures IsPath(plink, true, {}, p[lo..hi + 1], p[lo], p[hi])
  {
    hide Adjacent;
    var q := p[lo..hi + 1];
    forall i, j | 0 <= i && j == i + 1 < |q| ensures Adjacent(plink, true, q[i], q[j]) {
      var a, b := lo + i, lo + j;
      assert Adjacent(plink, true, p[a], p[b]);
    }
  }

  lemma JoinedPaths(plink: seq<Plink>, p: seq<Rid>, q: seq<Rid>, from: Rid, mid: Rid, to: Rid)
    requires IsPath(plink, true, {}, p, from, mid) && IsPath(plink, true, {}, q, mid, to)
    ensures IsPath(plink, true, {}, p[..|p| - 1] + q, from, to) && |p[..|p| - 1] + q| == |p| + |q| - 1
  {
    hide Adjacent;
    var r, n := p[..|p| - 1] + q, |p| - 1;
    forall i, j | 0 <= i && j == i + 1 < |r| ensures Adjacent(plink, true, r[i], r[j]) {
      if j <= n {
        assert Adjacent(plink, true, p[i], p[j]);
      } else {
        var a, b := i - n, j - n;
        assert Adjacent(plink, true, q[a], q[b]);
      }
    }
  }

  lemma PathEnds(plink: seq<Plink>, p: seq<Rid>, from: Rid, to: Rid)
    requires IsPath(plink, true, {}, p, from, to)
    ensures p != [] && p[0] == from && p[|p| - 1] == to
  {
  }

  /** A shortest path visits nothing twice. */
  lemma ShortestIsSimple(plink: seq<Plink>, p: seq<Rid>, from: Rid, to: Rid)
    requires IsShortest(plink, true, {}, p, from, to)
    ensures Simple(p)
  {
    forall i, j | 0 <= i < j < |p| ensures p[i] != p[j] {
      if p[i] == p[j] {
        PartOfPath(plink, p, from, to, 0, i);
        PartOfPath(plink, p, from, to, j, |p| - 1);
        JoinedPaths(plink, p[0..i + 1], p[j..|p|], from, p[i], to);
        assert false;
      }
    }
  }

  /** The ends of a shortest path are nearer to a node between them than to each other. */
  lemma PartIsShortest(plink: seq<Plink>, p: seq<Rid>, from: Rid, to: Rid, lo: nat, hi: nat)
    requires IsShortest(plink, true, {}, p, from, to) && lo <= hi < |p|
    ensures IsShortest(plink, true, {}, p[lo..hi + 1], p[lo], p[hi])
  {
    hide IsPath;
    PartOfPath(plink, p, from, to, lo, hi);
    forall q | IsPath(plink, true, {}, q, p[lo], p[hi]) ensures hi + 1 - lo <= |q| {
      PathEnds(plink, p, from, to);
      PathEnds(plink, q, p[lo], p[hi]);
      PartOfPath(plink, p, from, to, 0, lo);
      PartOfPath(plink, p, from, to, hi, |p| - 1);
      JoinedPaths(plink, p[0..lo + 1], q, from, p[lo], p[hi]);
      var r := p[0..lo + 1][..lo] + q;
      assert r == p[0..lo + 1][..|p[0..lo + 1]| - 1] + q;
      JoinedPaths(plink, r, p[hi..|p|], from, p[hi], to);
    }
  }

  // ----- simple paths go up, then down -----

  /** Up to the peak each node is followed by its parent, from there on it is the parent of the next. */
  ghost predicate Peaks(plink: seq<Plink>, p: seq<Rid>, k: nat): (b: bool)
    ensures b ==> k < |p|
  {
    && k < |p|
    && (forall i, j :: 0 <= i && j == i + 1 <= k ==> Primary(plink, p[i], p[j]))
    && forall i, j :: k <= i && j == i + 1 < |p| ==> Primary(plink, p[j], p[i])
  }

  lemma {:induction false} SimplePathPeaks(plink: seq<Plink>, height: Rid -> nat, p: seq<Rid>, from: Rid, to: Rid) returns (k: nat)
    requires IsForest(plink, height) && IsPath(plink, true, {}, p, from, to) && Simple(p)
    ensures Peaks(plink, p, k)
    decreases |p|
  {
    k := 0;
    if |p| > 1 {
      var m := |p| - 2;
      var n := m + 1;
      PartOfPath(plink, p, from, to, 0, m);
      var init := p[0..m + 1];
      k := SimplePathPeaks(plink, height, init, from, p[m]);
      assert Adjacent(plink, true, p[m], p[n]);
      PrimaryEdges(plink, p[m], p[n]);
      if k < m {
        var l := m - 1;
        assert Primary(plink, init[m], init[l]) && p[l] != p[n];
      }
      if !Primary(plink, p[n], p[m]) {
        k := n;
      }
      assert forall i :: 0 <= i <= m ==> init[i] == p[i];
    }
  }

  /** The k-th ancestor. */
  ghost predicate Above(plink: seq<Plink>, c: Rid, k: nat, a: Rid)
    decreases k
  {
    if k == 0 then a == c else exists b: Rid :: Primary(plink, c, b) && Above(plink, b, k - 1, a)
  }

  lemma {:induction false} AboveIsUnique(plink: seq<Plink>, height: Rid -> nat, c: Rid, k: nat, a: Rid, b: Rid)
    requires IsForest(plink, height) && Above(plink, c, k, a) && Above(plink, c, k, b)
    ensures a == b
    decreases k
  {
    if k > 0 {
      var x: Rid :| Primary(plink, c, x) && Above(plink, x, k - 1, a);
      AboveIsUnique(plink, height, x, k - 1, a, b);
    }
  }

  lemma {:induction false} AboveIsNearer(plink: seq<Plink>, height: Rid -> nat, c: Rid, k: nat, a: Rid)
    requires IsForest(plink, height) && Above(plink, c, k, a)
    ensures height(a) + k <= height(c)
    decreases k
  {
    if k > 0 {
      var x: Rid :| Primary(plink, c, x) && Above(plink, x, k - 1, a);
      AboveIsNearer(plink, height, x, k - 1, a);
    }
  }

  lemma {:induction false} AboveAbove(plink: seq<Plink>, c: Rid, k: nat, a: Rid, m: nat, b: Rid)
    requires Above(plink, c, k, a) && Above(plink, a, m, b)
    ensures Above(plink, c, k + m, b)
    decreases k
  {
    if k > 0 {
      var x: Rid :| Primary(plink, c, x) && Above(plink, x, k - 1, a);
      AboveAbove(plink, x, k - 1, a, m, b);
    }
  }

  /** On the way up, and on the way down seen from the end, the path follows the ancestors. */
  lemma {:induction false} UpperPart(plink: seq<Plink>, p: seq<Rid>, k: nat, i: nat)
    requires Peaks(plink, p, k) && i <= k
    ensures Above(plink, p[0], i, p[i])
    decreases i
  {
    if i > 0 {
      var j := i - 1;
      UpperPart(plink, p, k, j);
      assert Primary(plink, p[j], p[i]);
      assert Above(plink, p[i], 0, p[i]) && Above(plink, p[j], 1, p[i]);
      AboveAbove(plink, p[0], j, p[j], 1, p[i]);
    }
  }

  lemma {:induction false} LowerPart(plink: seq<Plink>, p: seq<Rid>, k: nat, i: nat)
    requires Peaks(plink, p, k) && k <= i < |p|
    ensures Above(plink, p[|p| - 1], |p| - 1 - i, p[i])
    decreases |p| - i
  {
    if i < |p| - 1 {
      var j := i + 1;
      LowerPart(plink, p, k, j);
      assert Primary(plink, p[j], p[i]);
      assert Above(plink, p[i], 0, p[i]) && Above(plink, p[j], 1, p[i]);
      AboveAbove(plink, p[|p| - 1], |p| - 1 - j, p[j], 1, p[i]);
    }
  }

  /** Two simple paths between the same ends peak at the same distance from the start. */
  lemma PeaksAgree(plink: seq<Plink>, height: Rid -> nat, p: seq<Rid>, q: seq<Rid>, k: nat, m: nat)
    requires IsForest(plink, height) && Simple(q) && Peaks(plink, p, k) && Peaks(plink, q, m)
    requires p[0] == q[0] && p[|p| - 1] == q[|q| - 1]
    ensures m <= k
  {
    hide IsForest, Peaks;
    if k < m {
      var l, n := |p| - 1 - k, |q| - 1 - m;
      UpperPart(plink, p, k, k);
      UpperPart(plink, q, m, k);
      AboveIsUnique(plink, height, p[0], k, p[k], q[k]);
      LowerPart(plink, p, k, k);
      LowerPart(plink, q, m, m);
      if l < n {
        LowerPart(plink, q, m, |q| - 1 - l);
        AboveIsUnique(plink, height, p[|p| - 1], l, p[k], q[|q| - 1 - l]);
        assert false; // q would visit the peak of p twice
      } else {
        // q climbs past the peak of p, and comes back to it
        UpperPart(plink, q, m, m);
        AboveSplits(plink, height, p[|p| - 1], n, q[m], l, p[k]);
        AboveIsNearer(plink, height, q[m], l - n, p[k]);
        UpperFromHere(plink, q, m, k);
        AboveIsNearer(plink, height, q[k], m - k, q[m]);
      }
    }
  }

  lemma {:induction false} AboveSplits(plink: seq<Plink>, height: Rid -> nat, c: Rid, k: nat, a: Rid, m: nat, b: Rid)
    requires IsForest(plink, height) && k <= m && Above(plink, c, k, a) && Above(plink, c, m, b)
    ensures Above(plink, a, m - k, b)
    decreases k
  {
    if k > 0 {
      var x: Rid :| Primary(plink, c, x) && Above(plink, x, k - 1, a);
      AboveSplits(plink, height, x, k - 1, a, m - 1, b);
    }
  }

  lemma UpperFromHere(plink: seq<Plink>, p: seq<Rid>, m: nat, k: nat)
    requires Peaks(plink, p, m) && k <= m
    ensures Above(plink, p[k], m - k, p[m])
  {
    assert Peaks(plink, p[k..], m - k) by {
      forall i, j | 0 <= i && j == i + 1 <= m - k ensures Primary(plink, p[k..][i], p[k..][j]) {
        var a, b := k + i, k + j;
        assert Primary(plink, p[a], p[b]);
      }
      forall i, j | m - k <= i && j == i + 1 < |p[k..]| ensures Primary(plink, p[k..][j], p[k..][i]) {
        var a, b := k + i, k + j;
        assert Primary(plink, p[b], p[a]);
      }
    }
    UpperPart(plink, p[k..], m - k, m - k);
  }

  /** In a forest there is at most one simple path between two checkins. */
  lemma SimplePathIsUnique(plink: seq<Plink>, height: Rid -> nat, p: seq<Rid>, q: seq<Rid>, from: Rid, to: Rid)
    requires IsForest(plink, height) && Simple(p) && Simple(q)
    requires IsPath(plink, true, {}, p, from, to) && IsPath(plink, true, {}, q, from, to)
    ensures p == q
  {
    var k := SimplePathPeaks(plink, height, p, from, to);
    var m := SimplePathPeaks(plink, height, q, from, to);
    hide IsForest, Peaks, Simple, Above, Primary;
    PeaksAgree(plink, height, p, q, k, m);
    PeaksAgree(plink, height, q, p, m, k);
    assert k == m;
    UpperPart(plink, p, k, k);
    UpperPart(plink, q, k, k);
    AboveIsUnique(plink, height, from, k, p[k], q[k]);
    LowerPart(plink, p, k, k);
    LowerPart(plink, q, k, k);
    AboveOnlyOnce(plink, height, to, |p| - 1 - k, |q| - 1 - k, p[k]);
    AboveOnlyOnce(plink, height, to, |q| - 1 - k, |p| - 1 - k, p[k]);
    forall i | 0 <= i < |p| ensures p[i] == q[i] {
      if i <= k {
        UpperPart(plink, p, k, i);
        UpperPart(plink, q, k, i);
        AboveIsUnique(plink, height, from, i, p[i], q[i]);
      } else {
        LowerPart(plink, p, k, i);
        LowerPart(plink, q, k, i);
        AboveIsUnique(plink, height, to, |p| - 1 - i, p[i], q[i]);
      }
    }
  }

  lemma AboveOnlyOnce(plink: seq<Plink>, height: Rid -> nat, c: Rid, k: nat, m: nat, a: Rid)
    requires IsForest(plink, height) && Above(plink, c, k, a) && Above(plink, c, m, a)
    ensures m <= k
  {
    if k < m {
      var d := m - k;
      AboveSplits(plink, height, c, k, a, m, a);
      AboveIsNearer(plink, height, a, d, a);
    }
  }
}
