/** Comparing two texts (internal/diff/diff.go: `splitLines`, `isBinary`, `Unified`, `Stat`). */
module Diff {
  import opened Lcs
  import opened EditGraph
  import opened EditScript
  import opened MyersDiff
  import opened Hunks
  import opened Reading

  // ----- lines -----

  /** Every kind of line end as a newline. */
  function Normalized(s: string): string {
    if s == "" then ""
    else if s[0] == '\r' then "\n" + Normalized(if |s| > 1 && s[1] == '\n' then s[2..] else s[1..])
    else [s[0]] + Normalized(s[1..])
  }

  /** strings.Split at newlines. */
  function Split(s: string): (lines: seq<Line>)
    ensures lines != []
  {
    if s == "" then [""]
    else if s[0] == '\n' then [""] + Split(s[1..])
    else var rest := Split(s[1..]); [[s[0]] + rest[0]] + rest[1..]
  }

  /** The lines without their ends, and without an empty one behind the last end. */
  function SplitLines(data: string): seq<Line> {
    if data == "" then []
    else
      var lines := Split(Normalized(data));
      if lines[|lines| - 1] == "" then lines[..|lines| - 1] else lines
  }

  /** Each line with a newline behind it. */
  ghost function Ended(lines: seq<Line>): string {
    if lines == [] then "" else lines[0] + "\n" + Ended(lines[1..])
  }

  predicate EndsLine(s: string) { s == "" || s[|s| - 1] == '\n' }

  ghost predicate NoNewline(line: Line) { forall i :: 0 <= i < |line| ==> line[i] != '\n' }

  lemma {:induction false} SplitEnded(s: string)
    ensures Ended(Split(s)) == s + "\n"
  {
    if s != "" {
      SplitEnded(s[1..]);
      var rest := Split(s[1..]);
      assert s == [s[0]] + s[1..];
      if s[0] == '\n' {
        assert ([""] + rest)[1..] == rest;
        assert "" + "\n" + Ended(rest) == "\n" + Ended(rest);
      } else {
        var lines := [[s[0]] + rest[0]] + rest[1..];
        assert lines[1..] == rest[1..];
        assert [s[0]] + rest[0] + "\n" + Ended(rest[1..]) == [s[0]] + (rest[0] + "\n" + Ended(rest[1..]));
      }
      Shifted(s[0], s[1..]);
    }
  }

  lemma Shifted(c: char, s: string)
    ensures [c] + (s + "\n") == [c] + s + "\n"
  {
  }

  lemma {:induction false} SplitIsOneLineEach(s: string)
    ensures forall l :: l in Split(s) ==> NoNewline(l)
  {
    if s != "" {
      SplitIsOneLineEach(s[1..]);
      var rest := Split(s[1..]);
      assert rest[0] in rest;
      if s[0] != '\n' { assert NoNewline([s[0]] + rest[0]); }
    }
  }

  lemma {:induction false} SplitEnds(s: string)
    ensures var lines := Split(s); lines[|lines| - 1] == "" <==> EndsLine(s)
  {
    if s != "" {
      SplitEnds(s[1..]);
      if s[1..] == "" { assert Split(s[1..]) == [""]; }
    }
  }

  lemma {:induction false} EndedInit(lines: seq<Line>)
    requires lines != [] && lines[|lines| - 1] == ""
    ensures Ended(lines) == Ended(lines[..|lines| - 1]) + "\n"
  {
    if |lines| > 1 {
      EndedInit(lines[1..]);
      assert lines[1..][..|lines| - 2] == lines[..|lines| - 1][1..];
    }
  }

  /** Splitting loses the kind of the line ends, and whether the last line had one; and nothing else. */
  lemma LinesOfText(data: string)
    ensures Ended(SplitLines(data)) == Normalized(data) + if EndsLine(Normalized(data)) then "" else "\n"
    ensures forall l :: l in SplitLines(data) ==> NoNewline(l)
  {
    hide Split, Normalized, Ended;
    if data == "" {
      NothingEnded();
    } else {
      var s := Normalized(data);
      var lines := Split(s);
      SplitEnded(s);
      SplitEnds(s);
      SplitIsOneLineEach(s);
      if lines[|lines| - 1] == "" {
        EndedInit(lines);
        Chop(Ended(lines[..|lines| - 1]), s);
        assert s + "" == s;
      }
    }
  }

  lemma NothingEnded()
    ensures Ended([]) == "" == Normalized("") + ""
  {
  }

  lemma Chop(a: string, b: string)
    requires a + "\n" == b + "\n"
    ensures a == b
  {
    assert (a + "\n")[..|a|] == a && (b + "\n")[..|b|] == b;
  }

  lemma {:induction false} EndedIsInjective(ls: seq<Line>, ms: seq<Line>)
    requires Ended(ls) == Ended(ms)
    requires forall l :: l in ls + ms ==> NoNewline(l)
    ensures ls == ms
    decreases |ls|
  {
    if ls != [] && ms != [] {
      var l, m := ls[0], ms[0];
      assert l in ls + ms && m in ls + ms;
      NewlineAfter(l, Ended(ls[1..]));
      NewlineAfter(m, Ended(ms[1..]));
      assert Ended(ls)[..|l|] == l && Ended(ms)[..|l|] == m;
      assert Ended(ls)[|l| + 1..] == Ended(ls[1..]) && Ended(ms)[|l| + 1..] == Ended(ms[1..]);
      assert forall x :: x in ls[1..] + ms[1..] ==> x in ls + ms;
      EndedIsInjective(ls[1..], ms[1..]);
      assert ls == [l] + ls[1..] && ms == [m] + ms[1..];
    }
  }

  /** Two texts are compared as the same exactly when they agree up to the kind of line ends and a last one. */
  lemma SameLines(a: string, b: string)
    ensures SplitLines(a) == SplitLines(b) <==>
            var x, y := Normalized(a), Normalized(b);
            x + (if EndsLine(x) then "" else "\n") == y + if EndsLine(y) then "" else "\n"
  {
    LinesOfText(a);
    LinesOfText(b);
    hide SplitLines, Normalized, Ended;
    if Ended(SplitLines(a)) == Ended(SplitLines(b)) { EndedIsInjective(SplitLines(a), SplitLines(b)); }
  }

  /** For one, a last line without its end is no difference. */
  lemma LastEndIsNoDifference()
    ensures SplitLines("a\n") == SplitLines("a") == ["a"]
  {
    assert Normalized("a") == "a" by { assert "a"[1..] == ""; }
    assert Normalized("a\n") == "a\n" by { assert "a\n"[1..] == "\n" && "\n"[1..] == ""; }
    assert Split("a") == ["a"] by { assert "a"[1..] == ""; }
    assert Split("a\n") == ["a", ""] by { assert "a\n"[1..] == "\n" && "\n"[1..] == ""; }
  }

  /** A text with a null byte is taken for binary. */
  predicate IsBinary(data: string) { exists i :: 0 <= i < |data| && data[i] == 0 as char }

  // ----- comparing -----

  datatype DiffStat = DiffStat(insertions: nat, deletions: nat, binary: bool)

  /** Of two texts that are not binary, as many insertions and deletions as a longest common subsequence leaves lines
      over on either side. */
  method Stat(a: string, b: string) returns (stat: DiffStat)
    ensures stat.binary <==> '\0' in a || '\0' in b
    ensures stat.binary ==> stat.insertions == stat.deletions == 0
    ensures !stat.binary ==> var src, dst := SplitLines(a), SplitLines(b);
              stat.insertions == |dst| - Len(src, dst, |src|, |dst|) && stat.deletions == |src| - Len(src, dst, |src|, |dst|)
    ensures !stat.binary ==> (stat.insertions == stat.deletions == 0 <==> SplitLines(a) == SplitLines(b))
  {
    hide Len, Dist, Side, SplitLines;
    if IsBinary(a) || IsBinary(b) {
      return DiffStat(0, 0, true);
    }
    var src, dst := SplitLines(a), SplitLines(b);
    var ops := Myers(src, dst);
    var insertions: nat, deletions: nat := 0, 0;
    for i := 0 to |ops|
      invariant insertions + Count(ops[i..], Insert) == Count(ops, Insert)
      invariant deletions + Count(ops[i..], Delete) == Count(ops, Delete)
    {
      assert ops[i..][1..] == ops[i + 1..];
      if ops[i].kind == Insert {
        insertions := insertions + 1;
      } else if ops[i].kind == Delete {
        deletions := deletions + 1;
      }
    }
    SideLength(ops);
    MyersIsOptimal(src, dst, ops);
    EqualLines(src, dst, ops);
    stat := DiffStat(insertions, deletions, false);
  }

  datatype Comparison = Binary | Same | Differ(hunks: seq<Hunk>)

  /** The comparison of two texts: nothing at all exactly when their lines are the same, and otherwise hunks that patch
      the lines of one into those of the other. */
  method Compare(a: string, b: string, contextLines: nat) returns (r: Comparison)
    ensures r.Binary? <==> '\0' in a || '\0' in b
    ensures r.Same? <==> '\0' !in a && '\0' !in b && SplitLines(a) == SplitLines(b)
    ensures r.Differ? ==> exists ops :: Transforms(ops, SplitLines(a), SplitLines(b)) && RightHunks(ops, r.hunks, contextLines)
    ensures r.Differ? ==> Fits(SplitLines(a), r.hunks, 0) && Patched(SplitLines(a), r.hunks, 0) == SplitLines(b)
  {
    hide SplitLines;
    if IsBinary(a) || IsBinary(b) {
      return Binary;
    }
    var src, dst := SplitLines(a), SplitLines(b);
    var ops := Myers(src, dst);
    var allEqual := true;
    for i := 0 to |ops|
      invariant allEqual && forall k :: 0 <= k < i ==> ops[k].kind == Equal
    {
      if ops[i].kind != Equal {
        allEqual := false;
        break;
      }
    }
    EqualLines(src, dst, ops);
    if allEqual {
      return Same;
    }
    var hunks := BuildHunks(ops, contextLines);
    r := Differ(hunks);
  }

  /** A shortest script changes nothing exactly when there is nothing to change. */
  lemma EqualLines(src: seq<Line>, dst: seq<Line>, ops: seq<EditOp>)
    requires Transforms(ops, src, dst) && Edits(ops) == Dist(src, dst, |src|, |dst|)
    ensures src == dst <==> forall k :: 0 <= k < |ops| ==> ops[k].kind == Equal
    ensures src == dst <==> Edits(ops) == 0
  {
    if forall k :: 0 <= k < |ops| ==> ops[k].kind == Equal {
      EqualStretch(ops);
      var same := Unchanged(src);
      NoScriptIsShorter(same, src, dst);
    } else {
      var k :| 0 <= k < |ops| && ops[k].kind != Equal;
      ChangeIsCounted(ops, k);
      if src == dst {
        var same := Unchanged(src);
        NoScriptIsShorter(same, src, dst);
      }
    }
  }

  lemma {:induction false} ChangeIsCounted(ops: seq<EditOp>, k: nat)
    requires k < |ops| && ops[k].kind != Equal
    ensures Edits(ops) > 0
  {
    if k > 0 { ChangeIsCounted(ops[1..], k - 1); }
  }

  lemma {:induction false} Unchanged(lines: seq<Line>) returns (ops: seq<EditOp>)
    ensures Transforms(ops, lines, lines) && Edits(ops) == 0
  {
    if lines == [] {
      ops := [];
    } else {
      var rest := Unchanged(lines[1..]);
      ops := [EditOp(Equal, lines[0])] + rest;
      assert ops[1..] == rest && lines == [lines[0]] + lines[1..];
    }
  }
}
