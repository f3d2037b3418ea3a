/** Edit scripts (internal/diff/diff.go: `opKind`, `editOp`) and what they mean: equal and deleted lines are the source,
    equal and inserted lines are the target. Every script from one to the other is a path of the edit graph. */
module EditScript {
  import opened Lcs
  import opened EditGraph

  datatype OpKind = Equal | Insert | Delete

  datatype EditOp = EditOp(kind: OpKind, text: Line)

  /** The lines of the operations whose kind is not `skipped`, in order. */
  ghost function Side(ops: seq<EditOp>, skipped: OpKind): seq<Line> {
    if ops == [] then []
    else (if ops[0].kind == skipped then [] else [ops[0].text]) + Side(ops[1..], skipped)
  }

  /** What the script reads. */
  ghost function SrcOf(ops: seq<EditOp>): seq<Line> { Side(ops, Insert) }

  /** What the script writes. */
  ghost function DstOf(ops: seq<EditOp>): seq<Line> { Side(ops, Delete) }

  /** The script transforms src into dst. */
  ghost predicate Transforms(ops: seq<EditOp>, src: seq<Line>, dst: seq<Line>) {
    SrcOf(ops) == src && DstOf(ops) == dst
  }

  ghost function Count(ops: seq<EditOp>, kind: OpKind): nat {
    if ops == [] then 0 else (if ops[0].kind == kind then 1 else 0) + Count(ops[1..], kind)
  }

  /** Number of inserted and deleted lines. */
  ghost function Edits(ops: seq<EditOp>): nat { Count(ops, Insert) + Count(ops, Delete) }

  lemma {:induction false} SideConcat(a: seq<EditOp>, b: seq<EditOp>, skipped: OpKind)
    ensures Side(a + b, skipped) == Side(a, skipped) + Side(b, skipped)
  {
    if a == [] {
      assert a + b == b;
    } else {
      assert (a + b)[1..] == a[1..] + b;
      SideConcat(a[1..], b, skipped);
    }
  }

  lemma {:induction false} CountConcat(a: seq<EditOp>, b: seq<EditOp>, kind: OpKind)
    ensures Count(a + b, kind) == Count(a, kind) + Count(b, kind)
  {
    if a == [] {
      assert a + b == b;
    } else {
      assert (a + b)[1..] == a[1..] + b;
      CountConcat(a[1..], b, kind);
    }
  }

  /** How many lines a script reads and writes. */
  lemma {:induction false} SideLength(ops: seq<EditOp>)
    ensures |SrcOf(ops)| == Count(ops, Equal) + Count(ops, Delete)
    ensures |DstOf(ops)| == Count(ops, Equal) + Count(ops, Insert)
  {
    if ops != [] { SideLength(ops[1..]); }
  }

  /** Every script that reads a suffix of src and writes a suffix of dst pays at least the
      remaining distance to the far corner. */
  lemma {:induction false} ScriptPays(ops: seq<EditOp>, src: seq<Line>, dst: seq<Line>, x: nat, y: nat)
    requires x <= |src| && y <= |dst| && Transforms(ops, src[x..], dst[y..])
    ensures Dist(src, dst, |src|, |dst|) <= Dist(src, dst, x, y) + Edits(ops)
    decreases |ops|
  {
    if ops != [] {
      var op, rest := ops[0], ops[1..];
      var x' := if op.kind == Insert then x else x + 1;
      var y' := if op.kind == Delete then y else y + 1;
      assert op.kind != Insert ==> x < |src| && src[x] == op.text && SrcOf(rest) == src[x'..] by {
        if op.kind != Insert { assert src[x..] == [op.text] + SrcOf(rest); }
      }
      assert op.kind != Delete ==> y < |dst| && dst[y] == op.text && DstOf(rest) == dst[y'..] by {
        if op.kind != Delete { assert dst[y..] == [op.text] + DstOf(rest); }
      }
      ScriptPays(rest, src, dst, x', y');
      DistSteps(src, dst, x, y);
    }
  }

  /** No script that transforms src into dst has fewer insertions and deletions than Dist. */
  lemma NoScriptIsShorter(ops: seq<EditOp>, src: seq<Line>, dst: seq<Line>)
    requires Transforms(ops, src, dst)
    ensures Dist(src, dst, |src|, |dst|) <= Edits(ops)
  {
    assert src[0..] == src && dst[0..] == dst;
    ScriptPays(ops, src, dst, 0, 0);
  }
}
