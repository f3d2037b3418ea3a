/** Line alignment for the three-way merge (internal/merge/threeway.go: `longestCommonSubseq`, `diffLines`). */
module MergeAlign {
  import opened Lcs

  /** A change: the base lines from one index up to another give way to others. */
  datatype Hunk = Hunk(baseStart: nat, baseEnd: nat, lines: seq<Line>)

  /** The table's entries: the length of a longest common subsequence of the suffixes from i and from j. */
  ghost function SuffixLen(a: seq<Line>, b: seq<Line>, i: nat, j: nat): nat
    requires i <= |a| && j <= |b|
    decreases |a| - i + |b| - j
  {
    if i == |a| || j == |b| then 0
    else if a[i] == b[j] then SuffixLen(a, b, i + 1, j + 1) + 1
    else Max(SuffixLen(a, b, i + 1, j), SuffixLen(a, b, i, j + 1))
  }

  /** No common matching of two suffixes is longer. */
  lemma {:induction false} SuffixBounds(a: seq<Line>, b: seq<Line>, ms: seq<Match>, i: nat, j: nat)
    requires i <= |a| && j <= |b| && CommonMatching(a, b, ms)
    requires forall p :: 0 <= p < |ms| ==> i <= ms[p].baseIdx && j <= ms[p].modIdx
    ensures |ms| <= SuffixLen(a, b, i, j)
    decreases |a| - i + |b| - j
  {
    if |ms| > 0 {
      var first, rest := ms[0], ms[1..];
      assert i < |a| && j < |b| by { assert first.baseIdx < |a| && first.modIdx < |b|; }
      assert forall p :: 0 <= p < |rest| ==> rest[p] == ms[p + 1];
      assert forall p :: 0 <= p < |rest| ==> first.baseIdx < rest[p].baseIdx && first.modIdx < rest[p].modIdx;
      if a[i] == b[j] {
        SuffixBounds(a, b, rest, i + 1, j + 1);
      } else if first.baseIdx > i {
        SuffixBounds(a, b, ms, i + 1, j);
      } else {
        SuffixBounds(a, b, ms, i, j + 1);
      }
    }
  }

  /** The two ways of counting, by prefixes and by suffixes, agree on the whole: a matching as long as the
      table says is a longest one. */
  lemma WholeLen(a: seq<Line>, b: seq<Line>, ms: seq<Match>)
    requires CommonMatching(a, b, ms) && |ms| == SuffixLen(a, b, 0, 0)
    ensures |ms| == Len(a, b, |a|, |b|)
    ensures forall other :: CommonMatching(a, b, other) ==> |other| <= |ms|
  {
    LenBounds(a, b, ms, |a|, |b|);
    var best := LenAttained(a, b, |a|, |b|);
    SuffixBounds(a, b, best, 0, 0);
    forall other | CommonMatching(a, b, other) ensures |other| <= |ms| {
      SuffixBounds(a, b, other, 0, 0);
    }
  }

  lemma SuffixUnfolds(a: seq<Line>, b: seq<Line>, i: nat, j: nat)
    requires i < |a| && j < |b|
    ensures a[i] == b[j] ==> SuffixLen(a, b, i, j) == SuffixLen(a, b, i + 1, j + 1) + 1
    ensures a[i] != b[j] ==> SuffixLen(a, b, i, j) == Max(SuffixLen(a, b, i + 1, j), SuffixLen(a, b, i, j + 1))
  {
  }

  lemma SuffixesEnd(a: seq<Line>, b: seq<Line>)
    ensures forall i :: 0 <= i <= |a| ==> SuffixLen(a, b, i, |b|) == 0
    ensures forall j :: 0 <= j <= |b| ==> SuffixLen(a, b, |a|, j) == 0
  {
  }

  /** Fills the table from its end. */
  method FillTable(a: seq<Line>, b: seq<Line>) returns (dp: array2<nat>)
    ensures fresh(dp) && dp.Length0 == |a| + 1 && dp.Length1 == |b| + 1
    ensures forall i, j :: 0 <= i <= |a| && 0 <= j <= |b| ==> dp[i, j] == SuffixLen(a, b, i, j)
  {
    hide SuffixLen;
    var m, n := |a|, |b|;
    SuffixesEnd(a, b);
    dp := new nat[m + 1, n + 1]((i, j) => 0);
    var i := m;
    while i > 0
      invariant 0 <= i <= m && forall r :: 0 <= r <= m ==> dp[r, n] == 0
      invariant forall r, k :: i <= r <= m && 0 <= k <= n ==> dp[r, k] == SuffixLen(a, b, r, k)
    {
      i := i - 1;
      var j := n;
      while j > 0
        invariant 0 <= j <= n && forall r :: 0 <= r <= m ==> dp[r, n] == 0
        invariant forall k :: j <= k <= n ==> dp[i, k] == SuffixLen(a, b, i, k)
        invariant forall r, k :: i < r <= m && 0 <= k <= n ==> dp[r, k] == SuffixLen(a, b, r, k)
        {
        j := j - 1;
        SuffixUnfolds(a, b, i, j);
        if a[i] == b[j] {
          dp[i, j] := dp[i + 1, j + 1] + 1;
        } else if dp[i + 1, j] >= dp[i, j + 1] {
          dp[i, j] := dp[i + 1, j];
        } else {
          dp[i, j] := dp[i, j + 1];
        }
      }
    }
  }

  /** A longest common matching of the lines. */
  method LongestCommonSubseq(a: seq<Line>, b: seq<Line>) returns (matches: seq<Match>)
    ensures CommonMatching(a, b, matches) && |matches| == Len(a, b, |a|, |b|)
    ensures forall other :: CommonMatching(a, b, other) ==> |other| <= |matches|
  {
    hide SuffixLen, Len;
    var dp := FillTable(a, b);
    SuffixesEnd(a, b);
    matches := [];
    var i, j := 0, 0;
    while i < |a| && j < |b|
      invariant forall r, k :: 0 <= r <= |a| && 0 <= k <= |b| ==> dp[r, k] == SuffixLen(a, b, r, k)
      invariant i <= |a| && j <= |b| && CommonMatching(a, b, matches)
      invariant forall p :: 0 <= p < |matches| ==> matches[p].baseIdx < i && matches[p].modIdx < j
      invariant |matches| + SuffixLen(a, b, i, j) == SuffixLen(a, b, 0, 0)
      decreases |a| - i + |b| - j
    {
      SuffixUnfolds(a, b, i, j);
      if a[i] == b[j] {
        matches := matches + [Match(i, j)];
        i, j := i + 1, j + 1;
      } else if dp[i + 1, j] >= dp[i, j + 1] {
        i := i + 1;
      } else {
        j := j + 1;
      }
    }
    WholeLen(a, b, matches);
  }

  // ----- hunks -----

  /** The base up to a line, with the hunks before it applied. */
  ghost function Replay(base: seq<Line>, hs: seq<Hunk>, to: nat): seq<Line>
    requires InOrder(base, hs, to)
  {
    if hs == [] then base[..to]
    else
      var last := hs[|hs| - 1];
      Replay(base, hs[..|hs| - 1], last.baseStart) + last.lines + base[last.baseEnd..to]
  }

  /** Hunks in order, none within another, and all up to some line. */
  ghost predicate InOrder(base: seq<Line>, hs: seq<Hunk>, to: nat) {
    && to <= |base|
    && (forall i :: 0 <= i < |hs| ==> hs[i].baseStart <= hs[i].baseEnd <= to)
    && forall i, j :: 0 <= i < j < |hs| ==> hs[i].baseEnd <= hs[j].baseStart
  }

  /** At least one base line between any two hunks. */
  ghost predicate Apart(hs: seq<Hunk>) {
    forall i, j :: 0 <= i < j < |hs| ==> hs[i].baseEnd < hs[j].baseStart
  }

  ghost predicate Ordered(base: seq<Line>, hs: seq<Hunk>, to: nat) { InOrder(base, hs, to) && Apart(hs) }

  /** Every hunk changes something. */
  ghost predicate Changing(hs: seq<Hunk>) {
    forall i :: 0 <= i < |hs| ==> hs[i].baseStart < hs[i].baseEnd || hs[i].lines != []
  }

  lemma ReplayFurther(base: seq<Line>, hs: seq<Hunk>, from: nat, to: nat)
    requires InOrder(base, hs, from) && from <= to <= |base|
    ensures InOrder(base, hs, to) && Replay(base, hs, to) == Replay(base, hs, from) + base[from..to]
  {
    if hs == [] {
      assert base[..to] == base[..from] + base[from..to];
    } else {
      var last := hs[|hs| - 1];
      assert base[last.baseEnd..to] == base[last.baseEnd..from] + base[from..to];
    }
  }

  lemma ReplayHunk(base: seq<Line>, hs: seq<Hunk>, h: Hunk)
    requires InOrder(base, hs, h.baseStart) && h.baseStart <= h.baseEnd <= |base|
    ensures InOrder(base, hs + [h], h.baseEnd)
    ensures Replay(base, hs + [h], h.baseEnd) == Replay(base, hs, h.baseStart) + h.lines
  {
    InOrderHunk(base, hs, h);
    hide InOrder;
    assert (hs + [h])[..|hs|] == hs;
    assert base[h.baseEnd..h.baseEnd] == [];
  }

  lemma InOrderHunk(base: seq<Line>, hs: seq<Hunk>, h: Hunk)
    requires InOrder(base, hs, h.baseStart) && h.baseStart <= h.baseEnd <= |base|
    ensures InOrder(base, hs + [h], h.baseEnd)
  {
  }

  lemma ApartHunk(hs: seq<Hunk>, h: Hunk)
    requires Apart(hs) && (hs != [] ==> hs[|hs| - 1].baseEnd < h.baseStart)
    requires forall i :: 0 <= i < |hs| ==> hs[i].baseStart <= hs[i].baseEnd
    ensures Apart(hs + [h])
  {
    var n := |hs|;
    assert forall i :: 0 <= i < n ==> hs[i].baseEnd <= hs[n - 1].baseEnd;
  }

  /** Hunks that lead from the base up to a line to the modified version up to a line; the last base line is
      unchanged. */
  ghost predicate Leads(base: seq<Line>, modified: seq<Line>, hs: seq<Hunk>, bi: nat, mi: nat) {
    && Ordered(base, hs, bi) && Changing(hs) && mi <= |modified| && Replay(base, hs, bi) == modified[..mi]
    && (hs != [] ==> hs[|hs| - 1].baseEnd < bi)
  }

  /** The gap before a match becomes a hunk. */
  lemma GapHunk(base: seq<Line>, modified: seq<Line>, hs: seq<Hunk>, bi: nat, mi: nat, h: Hunk, mj: nat)
    requires Leads(base, modified, hs, bi, mi) && h.baseStart == bi <= h.baseEnd <= |base| && mi <= mj <= |modified|
    requires h.lines == modified[mi..mj] && (bi < h.baseEnd || mi < mj)
    ensures Ordered(base, hs + [h], h.baseEnd) && Changing(hs + [h]) && Replay(base, hs + [h], h.baseEnd) == modified[..mj]
  {
    hide Replay;
    ReplayHunk(base, hs, h);
    ApartHunk(hs, h);
    assert modified[..mj] == modified[..mi] + modified[mi..mj];
  }

  /** The matching line follows. */
  lemma MatchedLine(base: seq<Line>, modified: seq<Line>, hs: seq<Hunk>, bi: nat, mi: nat)
    requires Ordered(base, hs, bi) && Changing(hs) && mi < |modified| && Replay(base, hs, bi) == modified[..mi]
    requires bi < |base| && base[bi] == modified[mi]
    ensures Leads(base, modified, hs, bi + 1, mi + 1)
  {
    ReplayFurther(base, hs, bi, bi + 1);
    hide Replay;
    assert base[bi..bi + 1] == [base[bi]] && modified[..mi + 1] == modified[..mi] + [modified[mi]];
  }

  /** How many base lines give way. */
  ghost function Removed(hs: seq<Hunk>): int {
    if hs == [] then 0 else Removed(hs[..|hs| - 1]) + hs[|hs| - 1].baseEnd - hs[|hs| - 1].baseStart
  }

  lemma RemovedPush(hs: seq<Hunk>, h: Hunk)
    ensures Removed(hs + [h]) == Removed(hs) + h.baseEnd - h.baseStart
  {
    assert (hs + [h])[..|hs|] == hs;
  }

  /** The changes that lead from the base to a modified version. They leave a longest common subsequence alone. */
  method DiffLines(base: seq<Line>, modified: seq<Line>) returns (hunks: seq<Hunk>)
    ensures Ordered(base, hunks, |base|) && Changing(hunks)
    ensures Replay(base, hunks, |base|) == modified
    ensures Removed(hunks) == |base| - Len(base, modified, |base|, |modified|)
  {
    hide Len, Replay, Ordered, Changing, Leads, Removed;
    var lcs := LongestCommonSubseq(base, modified);
    hunks := [];
    var bi: nat, mi: nat := 0, 0;
    NothingLeads(base, modified);
    for k := 0 to |lcs|
      invariant bi <= |base| && mi <= |modified| && Leads(base, modified, hunks, bi, mi) && Removed(hunks) + k == bi
      invariant forall p :: k <= p < |lcs| ==> bi <= lcs[p].baseIdx && mi <= lcs[p].modIdx
    {
      var match_ := lcs[k];
      GapClosed(base, modified, hunks, bi, mi, match_.baseIdx, match_.modIdx);
      if bi < match_.baseIdx || mi < match_.modIdx {
        hunks := hunks + [Hunk(bi, match_.baseIdx, modified[mi..match_.modIdx])];
      }
      MatchedLine(base, modified, hunks, match_.baseIdx, match_.modIdx);
      bi, mi := match_.baseIdx + 1, match_.modIdx + 1;
    }
    GapClosed(base, modified, hunks, bi, mi, |base|, |modified|);
    if bi < |base| || mi < |modified| {
      hunks := hunks + [Hunk(bi, |base|, modified[mi..])];
    }
    assert modified[..|modified|] == modified && modified[mi..|modified|] == modified[mi..];
  }

  /** The gap up to a match, if there is one, becomes a hunk. */
  lemma GapClosed(base: seq<Line>, modified: seq<Line>, hs: seq<Hunk>, bi: nat, mi: nat, bj: nat, mj: nat)
    requires Leads(base, modified, hs, bi, mi) && bi <= bj <= |base| && mi <= mj <= |modified|
    ensures var all := if bi < bj || mi < mj then hs + [Hunk(bi, bj, modified[mi..mj])] else hs;
            Ordered(base, all, bj) && Changing(all) && Replay(base, all, bj) == modified[..mj] && Removed(all) == Removed(hs) + bj - bi
  {
    hide Replay, Ordered, Changing, Leads;
    if bi < bj || mi < mj {
      var h := Hunk(bi, bj, modified[mi..mj]);
      GapHunk(base, modified, hs, bi, mi, h, mj);
      RemovedPush(hs, h);
    } else {
      LeadsTo(base, modified, hs, bi, mi);
    }
  }

  lemma NothingLeads(base: seq<Line>, modified: seq<Line>)
    ensures Leads(base, modified, [], 0, 0) && Removed([]) == 0
  {
  }

  lemma LeadsTo(base: seq<Line>, modified: seq<Line>, hs: seq<Hunk>, bi: nat, mi: nat)
    requires Leads(base, modified, hs, bi, mi)
    ensures Ordered(base, hs, bi) && Changing(hs) && mi <= |modified| && Replay(base, hs, bi) == modified[..mi]
  {
  }
}
