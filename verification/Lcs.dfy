/** Common subsequences of two line sequences: the yardstick against which both the Myers edit script (internal/diff)
    and the merge alignment (internal/merge) are measured. Lengths are counted by prefixes. */
module Lcs {
  type Line = string

  datatype Match = Match(baseIdx: nat, modIdx: nat)

  ghost predicate Increasing(ms: seq<Match>) {
    forall p, q :: 0 <= p < q < |ms| ==> ms[p].baseIdx < ms[q].baseIdx && ms[p].modIdx < ms[q].modIdx
  }

  /** `ms` picks out one common subsequence of a and b, by index. */
  ghost predicate CommonMatching(a: seq<Line>, b: seq<Line>, ms: seq<Match>) {
    && (forall p :: 0 <= p < |ms| ==> ms[p].baseIdx < |a| && ms[p].modIdx < |b| && a[ms[p].baseIdx] == b[ms[p].modIdx])
    && Increasing(ms)
  }

  function Max(x: int, y: int): int { if x < y then y else x }

  function Min(x: int, y: int): int { if x < y then x else y }

  /** Length of a longest common subsequence of the prefixes a[..i] and b[..j]. */
  ghost function Len(a: seq<Line>, b: seq<Line>, i: nat, j: nat): nat
    requires i <= |a| && j <= |b|
  {
    if i == 0 || j == 0 then 0
    else if a[i - 1] == b[j - 1] then 1 + Len(a, b, i - 1, j - 1)
    else Max(Len(a, b, i - 1, j), Len(a, b, i, j - 1))
  }

  /** No matching inside the two prefixes is longer than Len. */
  lemma {:induction false} LenBounds(a: seq<Line>, b: seq<Line>, ms: seq<Match>, i: nat, j: nat)
    requires i <= |a| && j <= |b| && CommonMatching(a, b, ms)
    requires forall p :: 0 <= p < |ms| ==> ms[p].baseIdx < i && ms[p].modIdx < j
    ensures |ms| <= Len(a, b, i, j)
    decreases i + j
  {
    if |ms| > 0 {
      var rest, last := ms[..|ms| - 1], ms[|ms| - 1];
      assert i > 0 && j > 0 by { assert last.baseIdx < i; }
      assert forall p :: 0 <= p < |rest| ==> rest[p].baseIdx < last.baseIdx && rest[p].modIdx < last.modIdx;
      if a[i - 1] == b[j - 1] {
        LenBounds(a, b, rest, i - 1, j - 1);
      } else if last.baseIdx < i - 1 {
        LenBounds(a, b, ms, i - 1, j);
      } else {
        LenBounds(a, b, ms, i, j - 1);
      }
    }
  }

  /** Len is attained by some matching. */
  lemma {:induction false} LenAttained(a: seq<Line>, b: seq<Line>, i: nat, j: nat) returns (ms: seq<Match>)
    requires i <= |a| && j <= |b|
    ensures CommonMatching(a, b, ms) && |ms| == Len(a, b, i, j)
    ensures forall p :: 0 <= p < |ms| ==> ms[p].baseIdx < i && ms[p].modIdx < j
    decreases i + j
  {
    if i == 0 || j == 0 {
      ms := [];
    } else if a[i - 1] == b[j - 1] {
      ms := LenAttained(a, b, i - 1, j - 1);
      ms := ms + [Match(i - 1, j - 1)];
    } else if Len(a, b, i - 1, j) >= Len(a, b, i, j - 1) {
      ms := LenAttained(a, b, i - 1, j);
    } else {
      ms := LenAttained(a, b, i, j - 1);
    }
  }
}
