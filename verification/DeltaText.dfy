/** The text of a delta: how commands are written, and that the written text is applied as meant. */
module DeltaText {
  import opened Bytes
  import opened DeltaInt
  import opened DeltaApply

  ghost function Written(c: Command): seq<byte> {
    match c
    case Copy(cnt, offset) => Encode(cnt) + [COPY] + Encode(offset) + [COMMA]
    case Insert(bytes) => Encode(|bytes|) + [INSERT] + bytes
  }

  ghost function WrittenAll(cs: seq<Command>): seq<byte> {
    if cs == [] then [] else WrittenAll(cs[..|cs| - 1]) + Written(cs[|cs| - 1])
  }

  ghost function Header(target: seq<byte>): seq<byte> { Encode(|target|) + [NEWLINE] }

  ghost function Trailer(target: seq<byte>): seq<byte> { Encode(Sum32(target)) + [DONE] }

  /** The numbers of the command fit in 64 bits. */
  ghost predicate Sizes(c: Command) {
    match c
    case Copy(cnt, offset) => cnt < TWO_64 && offset < TWO_64
    case Insert(bytes) => |bytes| < TWO_64
  }

  ghost predicate StandsAt(data: seq<byte>, pos: nat, text: seq<byte>) {
    pos + |text| <= |data| && data[pos..pos + |text|] == text
  }

  /** Two texts stand one after the other exactly when their concatenation stands there. */
  lemma StandsSplit(data: seq<byte>, pos: nat, a: seq<byte>, b: seq<byte>)
    ensures StandsAt(data, pos, a + b) <==> StandsAt(data, pos, a) && StandsAt(data, pos + |a|, b)
  {
    if pos + |a + b| <= |data| {
      assert data[pos..pos + |a|] + data[pos + |a|..pos + |a + b|] == data[pos..pos + |a + b|];
      assert data[pos..pos + |a|] == data[pos..pos + |a + b|][..|a|];
      assert data[pos + |a|..pos + |a + b|] == data[pos..pos + |a + b|][|a|..];
    }
  }

  lemma ReadStanding(data: seq<byte>, pos: nat, v: nat, stop: byte)
    requires v < TWO_64 && Digit(stop) < 0 && StandsAt(data, pos, Encode(v) + [stop])
    ensures pos + |Encode(v)| < |data| && ReadInt(data, pos) == Some((v, pos + |Encode(v)|)) && data[pos + |Encode(v)|] == stop
  {
    hide Encode, ReadInt;
    StandsSplit(data, pos, Encode(v), [stop]);
    assert data[pos + |Encode(v)|] == data[pos + |Encode(v)|..pos + |Encode(v)| + 1][0];
    ReadEncoded(data, pos, v);
  }

  lemma CopyIsParsed(source: Slice, delta: seq<byte>, pos: nat, c: Command, mid: nat, end: nat)
    requires c.Copy? && InSource(source, c) && c.cnt < TWO_64 && pos <= |delta| && mid < |delta| && end < |delta|
    requires ReadInt(delta, pos) == Some((c.cnt, mid)) && delta[mid] == COPY
    requires ReadInt(delta, mid + 1) == Some((c.offset, end)) && delta[end] == COMMA
    ensures ParseCommand(source, delta, pos) == Some((c, end + 1))
  {
    hide ReadInt;
  }

  /** Where the two numbers of a copy stand. */
  lemma CopyStands(delta: seq<byte>, pos: nat, cnt: nat, offset: nat)
    requires StandsAt(delta, pos, Encode(cnt) + [COPY] + Encode(offset) + [COMMA])
    ensures StandsAt(delta, pos, Encode(cnt) + [COPY]) && StandsAt(delta, pos + |Encode(cnt)| + 1, Encode(offset) + [COMMA])
  {
    hide Encode, StandsAt;
    var a, b := Encode(cnt) + [COPY], Encode(offset) + [COMMA];
    assert Encode(cnt) + [COPY] + Encode(offset) + [COMMA] == a + b;
    StandsSplit(delta, pos, a, b);
  }

  lemma ParseWrittenCopy(source: Slice, delta: seq<byte>, pos: nat, c: Command)
    requires c.Copy? && Sizes(c) && InSource(source, c) && StandsAt(delta, pos, Written(c))
    ensures ParseCommand(source, delta, pos) == Some((c, pos + |Written(c)|))
  {
    hide Encode, ReadInt, ParseCommand, ParseCopy, StandsAt;
    CopyStands(delta, pos, c.cnt, c.offset);
    var mid := pos + |Encode(c.cnt)|;
    ReadStanding(delta, pos, c.cnt, COPY);
    ReadStanding(delta, mid + 1, c.offset, COMMA);
    CopyIsParsed(source, delta, pos, c, mid, mid + 1 + |Encode(c.offset)|);
  }

  lemma ParseWrittenInsert(source: Slice, delta: seq<byte>, pos: nat, c: Command)
    requires c.Insert? && Sizes(c) && InSource(source, c) && StandsAt(delta, pos, Written(c))
    ensures ParseCommand(source, delta, pos) == Some((c, pos + |Written(c)|))
  {
    hide Encode, ReadInt;
    var a := Encode(|c.bytes|) + [INSERT];
    StandsSplit(delta, pos, a, c.bytes);
    ReadStanding(delta, pos, |c.bytes|, INSERT);
  }

  lemma ParseWritten(source: Slice, delta: seq<byte>, pos: nat, c: Command)
    requires Sizes(c) && InSource(source, c) && StandsAt(delta, pos, Written(c))
    ensures ParseCommand(source, delta, pos) == Some((c, pos + |Written(c)|))
  {
    hide ParseCommand;
    match c
    case Copy(_, _) => ParseWrittenCopy(source, delta, pos, c);
    case Insert(_) => ParseWrittenInsert(source, delta, pos, c);
  }

  /** Running over written commands adds their meaning to the output. */
  lemma {:induction false} RunWritten(source: Slice, delta: seq<byte>, pos: nat, targetLen: nat, cs: seq<Command>)
    requires AllInSource(source, cs) && (forall i :: 0 <= i < |cs| ==> Sizes(cs[i]))
    requires StandsAt(delta, pos, WrittenAll(cs))
    ensures Run(source, delta, pos, targetLen, []) ==
            Run(source, delta, pos + |WrittenAll(cs)|, targetLen, Meaning(source, cs))
  {
    hide Run, ParseCommand, Written;
    if cs != [] {
      var front, last := cs[..|cs| - 1], cs[|cs| - 1];
      StandsSplit(delta, pos, WrittenAll(front), Written(last));
      RunWritten(source, delta, pos, targetLen, front);
      var mid := pos + |WrittenAll(front)|;
      ParseWritten(source, delta, mid, last);
      RunUnfolds(source, delta, mid, targetLen, Meaning(source, front));
    }
  }

  lemma HeaderIsRead(source: Slice, target: Slice, delta: seq<byte>)
    requires StandsAt(delta, 0, Header(target))
    ensures Applied(source, delta) == Run(source, delta, |Header(target)|, |target|, [])
  {
    hide Run, Encode, ReadInt;
    ReadStanding(delta, 0, |target|, NEWLINE);
  }

  lemma TrailerIsRead(source: Slice, target: Slice, delta: seq<byte>, pos: nat)
    requires StandsAt(delta, pos, Trailer(target))
    ensures Run(source, delta, pos, |target|, target) == Ok(target)
  {
    hide Run, Encode, ReadInt, Sum32;
    ReadStanding(delta, pos, Sum32(target), DONE);
    RunUnfolds(source, delta, pos, |target|, target);
  }

  /** A delta made of a header, commands that build the target, and a trailer is applied to the target. */
  lemma WrittenIsApplied(source: Slice, target: Slice, cs: seq<Command>, delta: seq<byte>)
    requires AllInSource(source, cs) && (forall i :: 0 <= i < |cs| ==> Sizes(cs[i]))
    requires Meaning(source, cs) == target
    requires delta == Header(target) + WrittenAll(cs) + Trailer(target)
    ensures Applied(source, delta) == Ok(target)
  {
    hide *;
    var a, b, c := Header(target), WrittenAll(cs), Trailer(target);
    assert StandsAt(delta, 0, a + (b + c)) by { StandsWhole(delta, a + (b + c)); }
    StandsSplit(delta, 0, a, b + c);
    StandsSplit(delta, |a|, b, c);
    HeaderIsRead(source, target, delta);
    RunWritten(source, delta, |a|, |target|, cs);
    TrailerIsRead(source, target, delta, |a| + |b|);
  }

  lemma StandsWhole(data: seq<byte>, text: seq<byte>)
    requires data == text
    ensures StandsAt(data, 0, text)
  {
  }

  // ----- announced lengths -----

  lemma {:induction false} RunNeverPanics(source: Slice, delta: seq<byte>, pos: nat, targetLen: nat, output: seq<byte>)
    requires pos <= |delta|
    ensures Run(source, delta, pos, targetLen, output) != Err(AllocationPanic)
    decreases |delta| - pos
  {
    match ParseCommand(source, delta, pos)
    case Some((c, next)) => RunNeverPanics(source, delta, next, targetLen, output + Effect(source, c));
    case None =>
  }

  /** Applying a delta panics exactly when the length that it announces is beyond the largest allocation, whatever
      follows; smaller lengths are an error at worst. */
  lemma PanicsExactly(source: Slice, delta: seq<byte>)
    ensures Applied(source, delta) == Err(AllocationPanic) <==>
            match ReadInt(delta, 0)
            case None => false
            case Some((targetLen, p)) => p < |delta| && delta[p] == NEWLINE && !Allocatable(targetLen)
  {
    hide ReadInt, Run;
    match ReadInt(delta, 0)
    case None =>
    case Some((targetLen, p)) => if p < |delta| { RunNeverPanics(source, delta, p + 1, targetLen, []); }
  }

  /** For one, a delta of no commands that announces a length of more than 2^48. */
  lemma HugeLengthPanics(source: Slice, targetLen: nat, rest: seq<byte>)
    requires MAX_SLICE < targetLen < TWO_64
    ensures Applied(source, Encode(targetLen) + [NEWLINE] + rest) == Err(AllocationPanic)
  {
    hide Encode, ReadInt, Run;
    var delta := Encode(targetLen) + [NEWLINE] + rest;
    assert delta[..|Encode(targetLen) + [NEWLINE]|] == Encode(targetLen) + [NEWLINE];
    ReadStanding(delta, 0, targetLen, NEWLINE);
    PanicsExactly(source, delta);
  }
}
