/** Unified output (internal/diff/diff.go: `formatUnified`, `Unified`): its text, and that it can be read back. */
module DiffText {
  import opened Bytes
  import opened Decimal
  import opened Lcs
  import opened EditScript
  import opened Hunks
  import opened Diff

  const NO_NEWLINE: string := "\\ No newline at end of file"

  function Mark(kind: OpKind): char {
    match kind
    case Equal => ' '
    case Delete => '-'
    case Insert => '+'
  }

  function Header(h: Hunk): string {
    "@@ -" + IntToString(h.srcStart) + "," + IntToString(h.srcCount) + " +" + IntToString(h.dstStart) + "," + IntToString(h.dstCount) + " @@"
  }

  /** The last operation that is not of a kind, or -1. */
  ghost function LastBut(ops: seq<EditOp>, other: OpKind): int {
    if ops == [] then -1
    else if ops[|ops| - 1].kind != other then |ops| - 1
    else LastBut(ops[..|ops| - 1], other)
  }

  /** One operation, and the markers behind the last line of a side that lacks its newline. */
  function OpLines(op: EditOp, lastOfSrc: bool, lastOfDst: bool): seq<string> {
    [[Mark(op.kind)] + op.text]
    + (if lastOfSrc && op.kind != Insert then [NO_NEWLINE] else [])
    + (if lastOfDst && op.kind != Delete then [NO_NEWLINE] else [])
  }

  ghost function OpsLines(ops: seq<EditOp>, lastSrc: int, lastDst: int, n: nat): seq<string>
    requires n <= |ops|
  {
    if n == 0 then [] else OpsLines(ops, lastSrc, lastDst, n - 1) + OpLines(ops[n - 1], n - 1 == lastSrc, n - 1 == lastDst)
  }

  /** What is known of the two sides: how many lines they have, and whether the last one lacks its newline. */
  datatype Sides = Sides(srcName: string, dstName: string, srcNoNewline: bool, dstNoNewline: bool, srcTotal: nat, dstTotal: nat)

  /** In the last hunk, if it gets to the end of the side. */
  ghost function LastSrc(hunks: seq<Hunk>, i: nat, s: Sides): int
    requires i < |hunks|
  {
    if i == |hunks| - 1 && s.srcNoNewline && hunks[i].srcStart + hunks[i].srcCount - 1 == s.srcTotal then LastBut(hunks[i].ops, Insert) else -1
  }

  ghost function LastDst(hunks: seq<Hunk>, i: nat, s: Sides): int
    requires i < |hunks|
  {
    if i == |hunks| - 1 && s.dstNoNewline && hunks[i].dstStart + hunks[i].dstCount - 1 == s.dstTotal then LastBut(hunks[i].ops, Delete) else -1
  }

  ghost function HunkLines(hunks: seq<Hunk>, i: nat, s: Sides): seq<string>
    requires i < |hunks|
  {
    [Header(hunks[i])] + OpsLines(hunks[i].ops, LastSrc(hunks, i, s), LastDst(hunks, i, s), |hunks[i].ops|)
  }

  /** The lines of the first so many hunks. */
  ghost function HunksLines(hunks: seq<Hunk>, s: Sides, n: nat): seq<string>
    requires n <= |hunks|
  {
    if n == 0 then [] else HunksLines(hunks, s, n - 1) + HunkLines(hunks, n - 1, s)
  }

  function Named(name: string, otherwise: string): string { if name == "" then otherwise else name }

  ghost function Names(s: Sides): seq<string> { ["--- " + Named(s.srcName, "a"), "+++ " + Named(s.dstName, "b")] }

  /** All the lines of the output. */
  ghost function UnifiedLines(hunks: seq<Hunk>, s: Sides): seq<string> { Names(s) + HunksLines(hunks, s, |hunks|) }

  lemma {:induction false} EndedConcat(a: seq<string>, b: seq<string>)
    ensures Ended(a + b) == Ended(a) + Ended(b)
  {
    if a == [] {
      assert a + b == b;
    } else {
      assert (a + b)[1..] == a[1..] + b;
      EndedConcat(a[1..], b);
      assert a[0] + "\n" + (Ended(a[1..]) + Ended(b)) == a[0] + "\n" + Ended(a[1..]) + Ended(b);
    }
  }

  lemma EndedOne(line: string)
    ensures Ended([line]) == line + "\n"
  {
    assert [line][1..] == [] && line + "\n" + "" == line + "\n";
  }

  /** The search from the end for the last operation of a side. */
  method FindLast(ops: seq<EditOp>, other: OpKind) returns (last: int)
    ensures last == LastBut(ops, other)
  {
    last := -1;
    var k := |ops| - 1;
    assert ops[..|ops|] == ops;
    while k >= 0
      invariant -1 <= k < |ops| && LastBut(ops[..k + 1], other) == LastBut(ops, other)
    {
      assert ops[..k + 1][..k] == ops[..k];
      if ops[k].kind != other {
        return k;
      }
      k := k - 1;
    }
  }

  method FormatUnified(hunks: seq<Hunk>, s: Sides) returns (text: string)
    ensures text == if hunks == [] then "" else Ended(UnifiedLines(hunks, s))
  {
    hide Ended, OpLines, OpsLines, Header, LastBut;
    if |hunks| == 0 {
      return "";
    }
    var src, dst := "--- " + Named(s.srcName, "a"), "+++ " + Named(s.dstName, "b");
    text := src + "\n" + dst + "\n";
    NamesEnded(src, dst);
    for i := 0 to |hunks|
      invariant text == Ended(Names(s) + HunksLines(hunks, s, i))
    {
      var lines := FormatHunk(hunks, i, s);
      EndedConcat(Names(s) + HunksLines(hunks, s, i), HunkLines(hunks, i, s));
      assert Names(s) + HunksLines(hunks, s, i) + HunkLines(hunks, i, s) == Names(s) + HunksLines(hunks, s, i + 1);
      text := text + lines;
    }
  }

  lemma NamesEnded(src: string, dst: string)
    ensures Ended([src, dst] + []) == src + "\n" + dst + "\n"
  {
    assert [src, dst] + [] == [src] + [dst];
    EndedConcat([src], [dst]);
    EndedOne(src);
    EndedOne(dst);
    assert src + "\n" + (dst + "\n") == src + "\n" + dst + "\n";
  }

  method FormatHunk(hunks: seq<Hunk>, i: nat, s: Sides) returns (text: string)
    requires i < |hunks|
    ensures text == Ended(HunkLines(hunks, i, s))
  {
    hide Ended, OpLines, Header, LastBut;
    var h := hunks[i];
    text := Header(h) + "\n";
    EndedOne(Header(h));
    var lastSrc, lastDst := -1, -1;
    if i == |hunks| - 1 {
      if s.srcNoNewline && h.srcStart + h.srcCount - 1 == s.srcTotal {
        lastSrc := FindLast(h.ops, Insert);
      }
      if s.dstNoNewline && h.dstStart + h.dstCount - 1 == s.dstTotal {
        lastDst := FindLast(h.ops, Delete);
      }
    }
    assert [Header(h)] + [] == [Header(h)];
    for j := 0 to |h.ops|
      invariant text == Ended([Header(h)] + OpsLines(h.ops, lastSrc, lastDst, j))
    {
      EndedConcat([Header(h)] + OpsLines(h.ops, lastSrc, lastDst, j), OpLines(h.ops[j], j == lastSrc, j == lastDst));
      assert [Header(h)] + OpsLines(h.ops, lastSrc, lastDst, j) + OpLines(h.ops[j], j == lastSrc, j == lastDst)
          == [Header(h)] + OpsLines(h.ops, lastSrc, lastDst, j + 1);
      var line := FormatOp(h.ops[j], j == lastSrc, j == lastDst);
      text := text + line;
    }
  }

  method FormatOp(op: EditOp, lastOfSrc: bool, lastOfDst: bool) returns (text: string)
    ensures text == Ended(OpLines(op, lastOfSrc, lastOfDst))
  {
    hide Ended;
    var line := [Mark(op.kind)] + op.text;
    ghost var lines := [line];
    text := line + "\n";
    EndedOne(line);
    EndedOne(NO_NEWLINE);
    if lastOfSrc && op.kind != Insert {
      EndedConcat(lines, [NO_NEWLINE]);
      text, lines := text + (NO_NEWLINE + "\n"), lines + [NO_NEWLINE];
    }
    if lastOfDst && op.kind != Delete {
      EndedConcat(lines, [NO_NEWLINE]);
      text, lines := text + (NO_NEWLINE + "\n"), lines + [NO_NEWLINE];
    }
    assert lines == OpLines(op, lastOfSrc, lastOfDst);
  }

  // ----- reading it back -----

  /** How many digits a text starts with. */
  ghost function DigitsAt(s: string): (k: nat)
    ensures k <= |s| && forall i :: 0 <= i < k ==> IsDigit(s[i])
  {
    if s == "" || !IsDigit(s[0]) then 0 else 1 + DigitsAt(s[1..])
  }

  /** All the numbers in a text. */
  ghost function Numbers(s: string): seq<nat>
    decreases |s|
  {
    if s == "" then []
    else if !IsDigit(s[0]) then Numbers(s[1..])
    else
      var k, n := DigitsAt(s), StringToNat(s[..DigitsAt(s)]);
      if n.None? then [] else [n.value] + Numbers(s[k..])
  }

  lemma {:induction false} NumbersPass(sign: string, rest: string)
    requires forall i :: 0 <= i < |sign| ==> !IsDigit(sign[i])
    ensures Numbers(sign + rest) == Numbers(rest)
  {
    if sign == "" {
      assert sign + rest == rest;
    } else {
      assert (sign + rest)[1..] == sign[1..] + rest;
      NumbersPass(sign[1..], rest);
    }
  }

  lemma {:induction false} DigitsEnd(digits: string, rest: string)
    requires (forall i :: 0 <= i < |digits| ==> IsDigit(digits[i])) && (rest != "" ==> !IsDigit(rest[0]))
    ensures DigitsAt(digits + rest) == |digits|
  {
    if digits == "" {
      assert digits + rest == rest;
    } else {
      assert (digits + rest)[1..] == digits[1..] + rest;
      DigitsEnd(digits[1..], rest);
    }
  }

  lemma NumberIsFound(n: nat, rest: string)
    requires rest != "" ==> !IsDigit(rest[0])
    ensures Numbers(IntToString(n) + rest) == [n] + Numbers(rest)
  {
    var digits := IntToString(n);
    NatRoundTrip(n);
    DigitsEnd(digits, rest);
    hide NatToString, StringToNat, IntToString;
    assert (digits + rest)[..|digits|] == digits && (digits + rest)[|digits|..] == rest;
    assert IsDigit((digits + rest)[0]);
  }

  /** The numbers of a header: where the hunk starts in the source and how many lines of it there are, and the same for
      the other side. */
  lemma HeaderNumbers(h: Hunk)
    ensures Numbers(Header(h)) == [h.srcStart, h.srcCount, h.dstStart, h.dstCount]
  {
    hide IntToString, Numbers;
    var a, b, c, d := IntToString(h.srcStart), IntToString(h.srcCount), IntToString(h.dstStart), IntToString(h.dstCount);
    var r4 := " @@";
    var r3 := "," + (d + r4);
    var r2 := " +" + (c + r3);
    var r1 := "," + (b + r2);
    assert Header(h) == "@@ -" + (a + r1);
    NumbersPass("@@ -", a + r1);
    NumberIsFound(h.srcStart, r1);
    NumbersPass(",", b + r2);
    NumberIsFound(h.srcCount, r2);
    NumbersPass(" +", c + r3);
    NumberIsFound(h.dstStart, r3);
    NumbersPass(",", d + r4);
    NumberIsFound(h.dstCount, r4);
    assert r4 + "" == r4;
    NumbersPass(r4, "");
    NoNumbers();
  }

  lemma NoNumbers()
    ensures Numbers("") == []
  {
  }

  /** A hunk as it is shown. */
  datatype Shown = Shown(numbers: seq<nat>, ops: seq<EditOp>)

  function KindOf(c: char): Option<OpKind> {
    match c
    case ' ' => Some(Equal)
    case '-' => Some(Delete)
    case '+' => Some(Insert)
    case _ => None
  }

  /** The hunks behind the two names: a header starts one, marked lines go on with it, and markers are passed over. */
  ghost function ReadHunks(lines: seq<string>): seq<Shown> {
    if lines == [] then []
    else
      var hs, l := ReadHunks(lines[..|lines| - 1]), lines[|lines| - 1];
      if l == "" then hs
      else if l[0] == '@' then hs + [Shown(Numbers(l), [])]
      else if KindOf(l[0]).Some? && hs != [] then
        var h := hs[|hs| - 1];
        hs[..|hs| - 1] + [h.(ops := h.ops + [EditOp(KindOf(l[0]).value, l[1..])])]
      else hs
  }

  lemma ReadLine(lines: seq<string>, l: string)
    ensures ReadHunks(lines + [l]) ==
            var hs := ReadHunks(lines);
            if l == "" then hs
            else if l[0] == '@' then hs + [Shown(Numbers(l), [])]
            else if KindOf(l[0]).Some? && hs != [] then
              var h := hs[|hs| - 1];
              hs[..|hs| - 1] + [h.(ops := h.ops + [EditOp(KindOf(l[0]).value, l[1..])])]
            else hs
  {
    assert (lines + [l])[..|lines|] == lines;
  }

  /** An operation goes on with the last hunk. */
  lemma ReadOp(lines: seq<string>, before: seq<Shown>, h: Shown, op: EditOp, lastOfSrc: bool, lastOfDst: bool)
    requires ReadHunks(lines) == before + [h]
    ensures ReadHunks(lines + OpLines(op, lastOfSrc, lastOfDst)) == before + [h.(ops := h.ops + [op])]
  {
    hide ReadHunks, Numbers;
    var line := [Mark(op.kind)] + op.text;
    ReadLine(lines, line);
    assert line[1..] == op.text;
    assert (before + [h])[..|before|] == before;
    var one := lines + [line];
    ReadLine(one, NO_NEWLINE);
    ReadLine(one + [NO_NEWLINE], NO_NEWLINE);
    assert lines + OpLines(op, lastOfSrc, lastOfDst) == one
        || lines + OpLines(op, lastOfSrc, lastOfDst) == one + [NO_NEWLINE]
        || lines + OpLines(op, lastOfSrc, lastOfDst) == one + [NO_NEWLINE] + [NO_NEWLINE];
  }

  lemma {:induction false} ReadOps(lines: seq<string>, before: seq<Shown>, numbers: seq<nat>, ops: seq<EditOp>, lastSrc: int, lastDst: int, n: nat)
    requires n <= |ops| && ReadHunks(lines) == before + [Shown(numbers, [])]
    ensures ReadHunks(lines + OpsLines(ops, lastSrc, lastDst, n)) == before + [Shown(numbers, ops[..n])]
  {
    hide ReadHunks, OpLines, Numbers;
    if n == 0 {
      assert lines + [] == lines;
    } else {
      ReadOps(lines, before, numbers, ops, lastSrc, lastDst, n - 1);
      var more := lines + OpsLines(ops, lastSrc, lastDst, n - 1);
      ReadOp(more, before, Shown(numbers, ops[..n - 1]), ops[n - 1], n - 1 == lastSrc, n - 1 == lastDst);
      assert lines + OpsLines(ops, lastSrc, lastDst, n) == more + OpLines(ops[n - 1], n - 1 == lastSrc, n - 1 == lastDst);
      assert ops[..n] == ops[..n - 1] + [ops[n - 1]];
    }
  }

  /** What is to be read of a hunk: its four numbers and its lines. */
  ghost function ShownHunk(h: Hunk): Shown { Shown([h.srcStart, h.srcCount, h.dstStart, h.dstCount], h.ops) }

  ghost function ShownAll(hunks: seq<Hunk>, n: nat): seq<Shown>
    requires n <= |hunks|
  {
    seq(n, i requires 0 <= i < n => ShownHunk(hunks[i]))
  }

  lemma HunkIsRead(before: seq<string>, shown: seq<Shown>, h: Hunk, lastSrc: int, lastDst: int)
    requires ReadHunks(before) == shown
    ensures ReadHunks(before + ([Header(h)] + OpsLines(h.ops, lastSrc, lastDst, |h.ops|))) == shown + [ShownHunk(h)]
  {
    hide ReadHunks, OpsLines, Header;
    ReadHeader(before, h);
    var ops := OpsLines(h.ops, lastSrc, lastDst, |h.ops|);
    ReadOps(before + [Header(h)], shown, ShownHunk(h).numbers, h.ops, lastSrc, lastDst, |h.ops|);
    assert before + [Header(h)] + ops == before + ([Header(h)] + ops);
    assert h.ops[..|h.ops|] == h.ops;
  }

  /** All hunks are read back, with their numbers and all their lines. */
  lemma {:induction false} HunksAreRead(hunks: seq<Hunk>, s: Sides, n: nat)
    requires n <= |hunks|
    ensures ReadHunks(HunksLines(hunks, s, n)) == ShownAll(hunks, n)
  {
    hide ReadHunks, OpsLines, Header, LastSrc, LastDst;
    if n == 0 {
      NothingRead();
    } else {
      HunksAreRead(hunks, s, n - 1);
      HunkIsRead(HunksLines(hunks, s, n - 1), ShownAll(hunks, n - 1), hunks[n - 1], LastSrc(hunks, n - 1, s), LastDst(hunks, n - 1, s));
      assert ShownAll(hunks, n) == ShownAll(hunks, n - 1) + [ShownHunk(hunks[n - 1])];
    }
  }

  lemma NothingRead()
    ensures ReadHunks([]) == []
  {
  }

  lemma ReadHeader(lines: seq<string>, h: Hunk)
    ensures ReadHunks(lines + [Header(h)]) == ReadHunks(lines) + [ShownHunk(h).(ops := [])]
  {
    hide ReadHunks, Numbers;
    ReadLine(lines, Header(h));
    HeaderNumbers(h);
    assert Header(h)[0] == '@';
  }

  // ----- the whole output -----

  ghost predicate OneLineEach(lines: seq<string>) { forall l :: l in lines ==> NoNewline(l) }

  lemma OpIsOnLines(op: EditOp, lastOfSrc: bool, lastOfDst: bool)
    requires NoNewline(op.text)
    ensures OneLineEach(OpLines(op, lastOfSrc, lastOfDst))
  {
    assert NoNewline(NO_NEWLINE);
    assert NoNewline([Mark(op.kind)] + op.text);
  }

  lemma {:induction false} OpsAreOnLines(ops: seq<EditOp>, lastSrc: int, lastDst: int, n: nat)
    requires n <= |ops| && forall op :: op in ops ==> NoNewline(op.text)
    ensures OneLineEach(OpsLines(ops, lastSrc, lastDst, n))
  {
    hide OpLines, NoNewline;
    if n > 0 {
      OpsAreOnLines(ops, lastSrc, lastDst, n - 1);
      OpIsOnLines(ops[n - 1], n - 1 == lastSrc, n - 1 == lastDst);
    }
  }

  lemma HeaderIsOnLine(h: Hunk)
    ensures NoNewline(Header(h))
  {
    NumberIsOnLine(h.srcStart);
    NumberIsOnLine(h.srcCount);
    NumberIsOnLine(h.dstStart);
    NumberIsOnLine(h.dstCount);
    hide IntToString;
  }

  lemma NumberIsOnLine(n: nat)
    ensures NoNewline(IntToString(n))
  {
  }

  lemma {:induction false} HunksAreOnLines(hunks: seq<Hunk>, s: Sides, n: nat)
    requires n <= |hunks| && forall h, op :: h in hunks && op in h.ops ==> NoNewline(op.text)
    ensures OneLineEach(HunksLines(hunks, s, n))
  {
    hide OpsLines, NoNewline, Header, LastSrc, LastDst;
    if n > 0 {
      HunksAreOnLines(hunks, s, n - 1);
      HeaderIsOnLine(hunks[n - 1]);
      OpsAreOnLines(hunks[n - 1].ops, LastSrc(hunks, n - 1, s), LastDst(hunks, n - 1, s), |hunks[n - 1].ops|);
    }
  }

  lemma NamesAreOnLines(s: Sides)
    requires NoNewline(s.srcName) && NoNewline(s.dstName)
    ensures OneLineEach(Names(s))
  {
    NameIsOnLine("--- ", Named(s.srcName, "a"));
    NameIsOnLine("+++ ", Named(s.dstName, "b"));
    hide NoNewline;
  }

  lemma NameIsOnLine(sign: string, name: string)
    requires NoNewline(sign) && NoNewline(name)
    ensures NoNewline(sign + name)
  {
  }

  /** From the text the hunks can be read back: into whatever lines a reader splits it, behind the two names stand the
      headers and the lines of all hunks. */
  ghost predicate IsReadAs(text: string, hunks: seq<Hunk>) {
    forall lines :: Ended(lines) == text && OneLineEach(lines) ==> |lines| >= 2 && ReadHunks(lines[2..]) == ShownAll(hunks, |hunks|)
  }

  lemma OutputIsReadBack(hunks: seq<Hunk>, s: Sides)
    requires NoNewline(s.srcName) && NoNewline(s.dstName) && forall h, op :: h in hunks && op in h.ops ==> NoNewline(op.text)
    ensures IsReadAs(Ended(UnifiedLines(hunks, s)), hunks)
  {
    hide NoNewline, Ended, HunksLines, ReadHunks;
    var all := UnifiedLines(hunks, s);
    NamesAreOnLines(s);
    HunksAreOnLines(hunks, s, |hunks|);
    HunksAreRead(hunks, s, |hunks|);
    assert all[2..] == HunksLines(hunks, s, |hunks|);
    forall lines | Ended(lines) == Ended(all) && OneLineEach(lines)
      ensures |lines| >= 2 && ReadHunks(lines[2..]) == ShownAll(hunks, |hunks|)
    {
      EndedIsInjective(lines, all);
    }
  }

  lemma {:induction false} OpIsOfSide(ops: seq<EditOp>, i: nat)
    requires i < |ops|
    ensures ops[i].text in Side(ops, Insert) || ops[i].text in Side(ops, Delete)
  {
    if i > 0 { OpIsOfSide(ops[1..], i - 1); }
  }

  /** The lines of hunks are lines of the texts, so that none has a newline in it. */
  lemma HunksHaveLines(a: string, b: string, ops: seq<EditOp>, hunks: seq<Hunk>, contextLines: nat)
    requires Transforms(ops, SplitLines(a), SplitLines(b)) && RightHunks(ops, hunks, contextLines)
    ensures forall h, op :: h in hunks && op in h.ops ==> NoNewline(op.text)
  {
    LinesOfText(a);
    LinesOfText(b);
    hide SplitLines, Normalized, NoNewline, Ended, InContext, Patched, Fits, Apart;
    forall h, op | h in hunks && op in h.ops ensures NoNewline(op.text) {
      assert Placed(h, SplitLines(a), SplitLines(b));
      var i :| 0 <= i < |h.ops| && h.ops[i] == op;
      OpIsOfSide(h.ops, i);
    }
  }

  /** What `Unified` says of binary texts. */
  function BinaryText(srcName: string, dstName: string): string {
    "--- " + Named(srcName, "a") + "\n" + "+++ " + Named(dstName, "b") + "\n" + "cannot compute difference between binary files\n"
  }

  function SidesOf(a: string, b: string, srcName: string, dstName: string): Sides {
    Sides(srcName, dstName, !EndsLine(Normalized(a)), !EndsLine(Normalized(b)), |SplitLines(a)|, |SplitLines(b)|)
  }

  /** The whole output: nothing exactly for texts with the same lines, a message for binary ones, and otherwise the text
      of hunks that patch the lines of one into those of the other. */
  method Unified(a: string, b: string, contextLines: nat, srcName: string, dstName: string)
    returns (text: string, ghost hunks: seq<Hunk>)
    ensures '\0' in a || '\0' in b ==> text == BinaryText(srcName, dstName)
    ensures '\0' !in a && '\0' !in b ==> (text == "" <==> SplitLines(a) == SplitLines(b))
    ensures '\0' !in a && '\0' !in b && text != "" ==>
              && text == Ended(UnifiedLines(hunks, SidesOf(a, b, srcName, dstName)))
              && (exists ops :: Transforms(ops, SplitLines(a), SplitLines(b)) && RightHunks(ops, hunks, contextLines))
              && Fits(SplitLines(a), hunks, 0) && Patched(SplitLines(a), hunks, 0) == SplitLines(b)
    ensures '\0' !in a && '\0' !in b && text != "" && NoNewline(srcName) && NoNewline(dstName) ==> IsReadAs(text, hunks)
  {
    hide SplitLines, Normalized, UnifiedLines, RightHunks, Fits, Patched, NoNewline, IsReadAs;
    hunks := [];
    var r := Compare(a, b, contextLines);
    match r {
      case Binary => text := BinaryText(srcName, dstName);
      case Same => text := "";
      case Differ(found) =>
        hunks := found;
        if hunks == [] {
          NoHunksNoChange(SplitLines(a), hunks);
        }
        text := FormatUnified(found, SidesOf(a, b, srcName, dstName));
        OutputIsNotEmpty(hunks, SidesOf(a, b, srcName, dstName));
        ghost var ops :| Transforms(ops, SplitLines(a), SplitLines(b)) && RightHunks(ops, hunks, contextLines);
        HunksHaveLines(a, b, ops, hunks, contextLines);
        if NoNewline(srcName) && NoNewline(dstName) {
          OutputIsReadBack(hunks, SidesOf(a, b, srcName, dstName));
        }
    }
  }

  lemma NoHunksNoChange(src: seq<Line>, hunks: seq<Hunk>)
    requires Fits(src, hunks, 0) && hunks == []
    ensures Patched(src, hunks, 0) == src
  {
  }

  lemma OutputIsNotEmpty(hunks: seq<Hunk>, s: Sides)
    ensures Ended(UnifiedLines(hunks, s)) != ""
  {
    assert UnifiedLines(hunks, s)[0] == "--- " + Named(s.srcName, "a");
  }

  /** The lines of each kind of operation. */
  lemma LinesOfOps(t: string, mark: string)
    requires mark == "\\ No newline at end of file"
    ensures OpLines(EditOp(Equal, t), false, false) == [" " + t] && OpLines(EditOp(Equal, t), true, true) == [" " + t, mark, mark]
    ensures OpLines(EditOp(Equal, t), true, false) == OpLines(EditOp(Equal, t), false, true) == [" " + t, mark]
    ensures forall last :: OpLines(EditOp(Delete, t), true, last) == ["-" + t, mark] && OpLines(EditOp(Delete, t), false, last) == ["-" + t]
    ensures forall last :: OpLines(EditOp(Insert, t), last, true) == ["+" + t, mark] && OpLines(EditOp(Insert, t), last, false) == ["+" + t]
  {
    assert NO_NEWLINE == mark;
  }

  /** Where the markers stand, if the last hunk replaces a line behind another: behind the last line of a side that lacks
      its newline, if the hunk gets to the end of that side. */
  lemma MarkersInFull(h: Hunk, s: Sides, a: string, b: string, c: string)
    requires h.ops == [EditOp(Equal, a), EditOp(Delete, b), EditOp(Insert, c)] && h.srcStart > 0 && h.dstStart > 0
    ensures var srcEnds, dstEnds := h.srcStart + h.srcCount == s.srcTotal + 1, h.dstStart + h.dstCount == s.dstTotal + 1;
            HunkLines([h], 0, s)
            == [Header(h)] + [" " + a]
               + (["-" + b] + if s.srcNoNewline && srcEnds then [NO_NEWLINE] else [])
               + (["+" + c] + if s.dstNoNewline && dstEnds then [NO_NEWLINE] else [])
  {
    LinesOfOps(a, NO_NEWLINE);
    LinesOfOps(b, NO_NEWLINE);
    LinesOfOps(c, NO_NEWLINE);
    var lastSrc, lastDst := LastSrc([h], 0, s), LastDst([h], 0, s);
    assert h.ops[..2] == [h.ops[0], h.ops[1]];
    assert LastBut(h.ops[..2], Insert) == 1 && LastBut(h.ops, Insert) == 1 && LastBut(h.ops, Delete) == 2;
    assert lastSrc == (if s.srcNoNewline && h.srcStart + h.srcCount == s.srcTotal + 1 then 1 else -1);
    assert lastDst == (if s.dstNoNewline && h.dstStart + h.dstCount == s.dstTotal + 1 then 2 else -1);
    hide OpLines, Header, LastSrc, LastDst;
    ThreeOps(h.ops, lastSrc, lastDst);
  }

  lemma ThreeOps(ops: seq<EditOp>, lastSrc: int, lastDst: int)
    requires |ops| == 3
    ensures OpsLines(ops, lastSrc, lastDst, 3) ==
            OpLines(ops[0], 0 == lastSrc, 0 == lastDst) + OpLines(ops[1], 1 == lastSrc, 1 == lastDst) + OpLines(ops[2], 2 == lastSrc, 2 == lastDst)
  {
    hide OpLines;
    assert OpsLines(ops, lastSrc, lastDst, 1) == [] + OpLines(ops[0], 0 == lastSrc, 0 == lastDst);
  }

  /** The lines in front: the names, or "a" and "b", and the header with its numbers. */
  lemma HeadersInFull(s: Sides)
    ensures Names(s) == ["--- " + if s.srcName == "" then "a" else s.srcName, "+++ " + if s.dstName == "" then "b" else s.dstName]
    ensures Header(Hunk(1, 2, 3, 4, [])) == "@@ -1,2 +3,4 @@"
  {
  }

  /** Binary texts have a message instead. */
  lemma BinaryInFull(s: Sides)
    ensures BinaryText(s.srcName, s.dstName) == Ended(Names(s) + ["cannot compute difference between binary files"])
  {
    var src, dst, message := "--- " + Named(s.srcName, "a"), "+++ " + Named(s.dstName, "b"), "cannot compute difference between binary files";
    NamesEnded(src, dst);
    assert Names(s) + [] == [src, dst] + [];
    EndedOne(message);
    EndedConcat(Names(s), [message]);
    assert message + "\n" == "cannot compute difference between binary files\n";
    hide Ended;
    Regrouped("--- ", Named(s.srcName, "a"), "\n", "+++ ", Named(s.dstName, "b"), message + "\n");
  }

  lemma Regrouped(a: string, b: string, n: string, c: string, d: string, e: string)
    ensures a + b + n + c + d + n + e == a + b + n + (c + d) + n + e
  {
  }
}
