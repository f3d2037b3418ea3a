/** The edit graph of two line sequences and its distances (internal/diff/diff.go). */
module EditGraph {
  import opened Lcs

  // The graph is extended past the far corner: outside the rectangle no two lines match. The search lets its points
  // leave the rectangle, so the distances have to be defined there as well.

  ghost predicate Eq(src: seq<Line>, dst: seq<Line>, x: nat, y: nat) {
    x < |src| && y < |dst| && src[x] == dst[y]
  }

  /** Fewest insertions and deletions on a path from (0,0) to (x,y). */
  ghost function Dist(src: seq<Line>, dst: seq<Line>, x: nat, y: nat): nat
    decreases x + y
  {
    if x == 0 then y
    else if y == 0 then x
    else if Eq(src, dst, x - 1, y - 1) then Dist(src, dst, x - 1, y - 1)
    else 1 + Min(Dist(src, dst, x - 1, y), Dist(src, dst, x, y - 1))
  }

  lemma DistUnfolds(src: seq<Line>, dst: seq<Line>, x: nat, y: nat)
    ensures x == 0 ==> Dist(src, dst, x, y) == y
    ensures y == 0 ==> Dist(src, dst, x, y) == x
    ensures x > 0 && y > 0 ==>
      (Dist(src, dst, x, y) == if Eq(src, dst, x - 1, y - 1) then Dist(src, dst, x - 1, y - 1)
                               else 1 + Min(Dist(src, dst, x - 1, y), Dist(src, dst, x, y - 1)))
  {
  }

  /** One step right or down changes the distance by at most one. */
  lemma {:induction false} DistSteps(src: seq<Line>, dst: seq<Line>, x: nat, y: nat)
    ensures -1 <= Dist(src, dst, x + 1, y) - Dist(src, dst, x, y) <= 1
    ensures -1 <= Dist(src, dst, x, y + 1) - Dist(src, dst, x, y) <= 1
    decreases x + y
  {
    if y > 0 { DistSteps(src, dst, x, y - 1); }
    if x > 0 { DistSteps(src, dst, x - 1, y); }
  }

  /** A cheapest path to (x,y) makes `del` deletions and `ins` insertions. */
  lemma {:induction false} DistSplits(src: seq<Line>, dst: seq<Line>, x: nat, y: nat) returns (del: nat, ins: nat)
    ensures Dist(src, dst, x, y) == del + ins
    ensures x - y == del - ins && del <= x
    decreases x + y
  {
    if x == 0 || y == 0 {
      del, ins := x, y;
    } else if Eq(src, dst, x - 1, y - 1) {
      del, ins := DistSplits(src, dst, x - 1, y - 1);
    } else if Dist(src, dst, x - 1, y) < Dist(src, dst, x, y - 1) {
      del, ins := DistSplits(src, dst, x - 1, y);
      del := del + 1;
    } else {
      del, ins := DistSplits(src, dst, x, y - 1);
      ins := ins + 1;
    }
  }

  /** Beyond the right edge every further column costs one. */
  lemma {:induction false} DistRight(src: seq<Line>, dst: seq<Line>, x: nat, y: nat)
    requires x >= |src|
    ensures Dist(src, dst, x, y) == Dist(src, dst, |src|, y) + (x - |src|)
    decreases x + y
  {
    if x > |src| {
      DistRight(src, dst, x - 1, y);
      if y > 0 {
        DistRight(src, dst, x, y - 1);
        DistSteps(src, dst, |src|, y - 1);
      }
    }
  }

  /** Beyond the lower edge every further row costs one. */
  lemma {:induction false} DistBelow(src: seq<Line>, dst: seq<Line>, x: nat, y: nat)
    requires y >= |dst|
    ensures Dist(src, dst, x, y) == Dist(src, dst, x, |dst|) + (y - |dst|)
    decreases x + y
  {
    if y > |dst| {
      DistBelow(src, dst, x, y - 1);
      if x > 0 {
        DistBelow(src, dst, x - 1, y);
        DistSteps(src, dst, x - 1, |dst|);
      }
    }
  }

  /** A point at or past both edges costs its excess on top of the corner. */
  lemma {:induction false} DistCorner(src: seq<Line>, dst: seq<Line>, x: nat, y: nat)
    requires x >= |src| && y >= |dst|
    ensures Dist(src, dst, x, y) == Dist(src, dst, |src|, |dst|) + (x - |src|) + (y - |dst|)
  {
    DistRight(src, dst, x, y);
    DistBelow(src, dst, |src|, y);
  }

  /** Inside the rectangle, distance and longest common subsequence determine each other. */
  lemma {:induction false} DistIsLcs(src: seq<Line>, dst: seq<Line>, x: nat, y: nat)
    requires x <= |src| && y <= |dst|
    ensures Dist(src, dst, x, y) == x + y - 2 * Len(src, dst, x, y)
    decreases x + y
  {
    if x > 0 && y > 0 {
      DistIsLcs(src, dst, x - 1, y - 1);
      DistIsLcs(src, dst, x - 1, y);
      DistIsLcs(src, dst, x, y - 1);
    }
  }
}
