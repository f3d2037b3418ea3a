/** Which lines a text has (internal/diff/diff.go: `splitLines`), whatever the kinds of its line ends. */
module LineEnds {
  import opened Lcs
  import opened Diff

  datatype End = Lf | CrLf | Cr

  function Sign(e: End): string {
    match e
    case Lf => "\n"
    case CrLf => "\r\n"
    case Cr => "\r"
  }

  /** Without a character of a line end in it. */
  ghost predicate Plain(line: Line) { forall i :: 0 <= i < |line| ==> line[i] != '\r' && line[i] != '\n' }

  datatype Ending = Ending(line: Line, end: End)

  /** Lines with their ends behind them. */
  ghost function Text(es: seq<Ending>): string {
    if es == [] then "" else es[0].line + Sign(es[0].end) + Text(es[1..])
  }

  ghost function Lines(es: seq<Ending>): seq<Line> { seq(|es|, i requires 0 <= i < |es| => es[i].line) }

  /** Plain lines, none of which is an empty one whose "\n" would go with a "\r" before it. */
  ghost predicate Told(es: seq<Ending>) {
    && (forall i :: 0 <= i < |es| ==> Plain(es[i].line))
    && forall i :: 0 < i < |es| && es[i] == Ending("", Lf) ==> es[i - 1].end != Cr
  }

  // ----- normalizing -----

  lemma {:induction false} NormalizedPlain(line: Line, rest: string)
    requires Plain(line)
    ensures Normalized(line + rest) == line + Normalized(rest)
  {
    if line == "" {
      assert line + rest == rest;
    } else {
      assert (line + rest)[1..] == line[1..] + rest;
      NormalizedPlain(line[1..], rest);
      assert [line[0]] + (line[1..] + Normalized(rest)) == line + Normalized(rest);
    }
  }

  lemma NormalizedSign(e: End, rest: string)
    requires e == Cr && rest != "" ==> rest[0] != '\n'
    ensures Normalized(Sign(e) + rest) == "\n" + Normalized(rest)
  {
    var s := Sign(e) + rest;
    assert s[1..] == Sign(e)[1..] + rest;
    if e == CrLf {
      assert s[2..] == rest;
    } else {
      assert s[1..] == rest;
    }
  }

  lemma StartsWithoutNewline(es: seq<Ending>, last: Line)
    requires Told(es) && Plain(last) && es != [] && es[0].end == Cr
    ensures var rest := Text(es[1..]) + last; rest != "" ==> rest[0] != '\n'
  {
    if |es| > 1 {
      assert es[1..][0] == es[1];
      var first := es[1];
      assert Text(es[1..]) == first.line + Sign(first.end) + Text(es[1..][1..]);
      if first.line == "" { assert first.end != Lf; }
    }
  }

  /** Every end becomes a newline. */
  lemma {:induction false} NormalizedText(es: seq<Ending>, last: Line)
    requires Told(es) && Plain(last)
    ensures Normalized(Text(es) + last) == Ended(Lines(es)) + last
  {
    hide Normalized, Ended, Text;
    if es == [] {
      NothingToNormalize(es, last);
    } else {
      var line, end, rest := es[0].line, es[0].end, Text(es[1..]) + last;
      TextUnfolds(es);
      assert Told(es[1..]) by { assert forall i :: 0 <= i < |es| - 1 ==> es[1..][i] == es[i + 1]; }
      NormalizedText(es[1..], last);
      if end == Cr { StartsWithoutNewline(es, last); }
      NormalizedSign(end, rest);
      NormalizedPlain(line, Sign(end) + rest);
      Regrouped(line, Sign(end), Text(es[1..]), last);
      assert Lines(es)[0] == line && Lines(es)[1..] == Lines(es[1..]);
      EndedUnfolds(Lines(es));
      Regrouped(line, "\n", Ended(Lines(es[1..])), last);
    }
  }

  lemma Regrouped(a: string, b: string, c: string, d: string)
    ensures a + b + c + d == a + (b + (c + d))
  {
  }

  lemma TextUnfolds(es: seq<Ending>)
    requires es != []
    ensures Text(es) == es[0].line + Sign(es[0].end) + Text(es[1..])
  {
  }

  lemma EndedUnfolds(lines: seq<Line>)
    requires lines != []
    ensures Ended(lines) == lines[0] + "\n" + Ended(lines[1..])
  {
  }

  lemma NothingToNormalize(es: seq<Ending>, last: Line)
    requires es == [] && Plain(last)
    ensures Normalized(Text(es) + last) == Ended(Lines(es)) + last
  {
    NormalizedPlain(last, "");
    assert Text(es) + last == last + "" && last + Normalized("") == last;
    assert Ended(Lines(es)) + last == last;
  }

  // ----- splitting -----

  lemma {:induction false} SplitLine(line: Line, rest: string)
    requires NoNewline(line)
    ensures Split(line + "\n" + rest) == [line] + Split(rest)
  {
    var s := line + "\n" + rest;
    if line == "" {
      assert s[0] == '\n' && s[1..] == rest;
    } else {
      assert s[0] == line[0] && s[1..] == line[1..] + "\n" + rest;
      SplitLine(line[1..], rest);
      assert [line[0]] + line[1..] == line;
      assert ([line[1..]] + Split(rest))[1..] == Split(rest);
    }
  }

  lemma {:induction false} SplitLast(line: Line)
    requires NoNewline(line)
    ensures Split(line) == [line]
  {
    if line != "" {
      SplitLast(line[1..]);
      assert [line[0]] + line[1..] == line;
    }
  }

  lemma {:induction false} SplitText(lines: seq<Line>, last: Line)
    requires (forall l :: l in lines ==> NoNewline(l)) && NoNewline(last)
    ensures Split(Ended(lines) + last) == lines + [last]
  {
    hide Split, NoNewline;
    if lines == [] {
      SplitLast(last);
      assert Ended(lines) + last == last;
    } else {
      SplitText(lines[1..], last);
      SplitLine(lines[0], Ended(lines[1..]) + last);
      assert lines[0] + "\n" + Ended(lines[1..]) + last == lines[0] + "\n" + (Ended(lines[1..]) + last);
    }
  }

  /** The lines of a text are what stands in front of its ends, and what stands behind the last one if there is
      anything; and the text ends a line exactly when there is nothing. */
  lemma LinesAreTold(es: seq<Ending>, last: Line)
    requires Told(es) && Plain(last)
    ensures SplitLines(Text(es) + last) == Lines(es) + if last == "" then [] else [last]
    ensures EndsLine(Normalized(Text(es) + last)) <==> last == ""
  {
    var data, lines := Text(es) + last, Lines(es);
    NormalizedText(es, last);
    SplitText(lines, last);
    SplitEnds(Normalized(data));
    hide Normalized, Split, Text;
    if data == "" {
      NothingIsEmpty(es);
    } else {
      assert (lines + [last])[..|lines|] == lines;
    }
  }

  lemma NothingIsEmpty(es: seq<Ending>)
    requires Text(es) == ""
    ensures es == []
  {
  }

  lemma TellEnd(end: End, rest: seq<Ending>, last: Line) returns (es: seq<Ending>)
    requires Told(rest) && (end == Cr ==> Text(rest) + last == "" || (Text(rest) + last)[0] != '\n')
    ensures Told(es) && Text(es) + last == Sign(end) + (Text(rest) + last)
  {
    es := [Ending("", end)] + rest;
    if rest != [] { StartsWithSign(rest, last); }
    assert forall i :: 0 < i < |es| ==> es[i] == rest[i - 1];
    TextUnfolds(es);
    hide Text;
    assert es[1..] == rest && "" + Sign(end) == Sign(end);
    assert Sign(end) + Text(rest) + last == Sign(end) + (Text(rest) + last);
  }

  lemma StartsWithSign(es: seq<Ending>, last: Line)
    requires es != []
    ensures es[0] == Ending("", Lf) ==> Text(es) + last != "" && (Text(es) + last)[0] == '\n'
  {
    TextUnfolds(es);
  }

  lemma TellChar(c: char, rest: seq<Ending>, last: Line) returns (es: seq<Ending>, more: Line)
    requires Told(rest) && Plain(last) && c != '\n' && c != '\r'
    ensures Told(es) && Plain(more) && Text(es) + more == [c] + (Text(rest) + last)
  {
    if rest == [] {
      es, more := [], [c] + last;
    } else {
      es, more := [rest[0].(line := [c] + rest[0].line)] + rest[1..], last;
      TextUnfolds(es);
      TextUnfolds(rest);
      assert es[1..] == rest[1..];
      hide Told, Text;
      assert [c] + rest[0].line + Sign(rest[0].end) + Text(rest[1..]) + last
          == [c] + (rest[0].line + Sign(rest[0].end) + Text(rest[1..]) + last);
    }
  }

  /** Every text is one of these. */
  lemma {:induction false} EveryTextIsTold(data: string) returns (es: seq<Ending>, last: Line)
    ensures Told(es) && Plain(last) && data == Text(es) + last
    decreases |data|
  {
    if data == "" {
      es, last := [], "";
    } else {
      hide Told, Plain, Text;
      if data[0] == '\n' || data[0] == '\r' {
        var end := if data[0] == '\n' then Lf else if |data| > 1 && data[1] == '\n' then CrLf else Cr;
        var tail := data[|Sign(end)|..];
        assert data == Sign(end) + tail;
        var rest;
        rest, last := EveryTextIsTold(tail);
        es := TellEnd(end, rest, last);
      } else {
        var rest, end := EveryTextIsTold(data[1..]);
        es, last := TellChar(data[0], rest, end);
        assert data == [data[0]] + data[1..];
      }
    }
  }

  /** Without the last end the lines are the same, if the last one is not empty. */
  lemma LastEndMayBeMissing(es: seq<Ending>)
    requires Told(es) && es != [] && es[|es| - 1].line != ""
    ensures SplitLines(Text(es[..|es| - 1]) + es[|es| - 1].line) == Lines(es)
  {
    var init, last := es[..|es| - 1], es[|es| - 1].line;
    LinesAreTold(init, last);
    hide SplitLines, Text, Plain, Normalized, Told;
    assert Lines(init) + [last] == Lines(es);
  }

  /** Texts with the same lines and any kinds of ends are compared as the same. */
  lemma EndsAreNoDifference(as_: seq<Ending>, bs: seq<Ending>)
    requires Told(as_) && Told(bs) && Lines(as_) == Lines(bs)
    ensures SplitLines(Text(as_)) == SplitLines(Text(bs)) == Lines(as_)
  {
    AllEnded(as_);
    AllEnded(bs);
  }

  lemma AllEnded(es: seq<Ending>)
    requires Told(es)
    ensures SplitLines(Text(es)) == Lines(es)
  {
    LinesAreTold(es, "");
    assert Text(es) + "" == Text(es) && Lines(es) + [] == Lines(es);
  }
}
