/** Applying a delta (internal/delta/delta.go: `Checksum`, `Apply`). */
module DeltaApply {
  import opened Bytes
  import opened DeltaInt

  const NEWLINE: byte := 10
  const COPY: byte := 64    // '@'
  const COMMA: byte := 44   // ','
  const INSERT: byte := 58  // ':'
  const DONE: byte := 59    // ';'

  // ----- the checksum -----

  /** What a byte at position i weighs: big-endian within its group of four. */
  ghost function Weight(i: nat): nat {
    if i % 4 == 0 then 0x100_0000 else if i % 4 == 1 then 0x1_0000 else if i % 4 == 2 then 0x100 else 1
  }

  ghost function WeightedSum(data: seq<byte>): nat {
    if data == [] then 0 else WeightedSum(data[..|data| - 1]) + Weight(|data| - 1) * data[|data| - 1]
  }

  /** The checksum as the format defines it. */
  ghost function Sum32(data: seq<byte>): (s: nat)
    ensures s < TWO_32
  {
    Wrap32(WeightedSum(data))
  }

  /** Byte j of the group that starts at i adds its value, shifted into place. */
  lemma SumStep(data: seq<byte>, i: nat, j: nat)
    requires i % 4 == 0 && j < 4 && i + j < |data|
    ensures WeightedSum(data[..i + j + 1]) == WeightedSum(data[..i + j]) + Shifted(data[i + j], j)
  {
    assert data[..i + j + 1][..i + j] == data[..i + j];
    assert (i + j) % 4 == j;
  }

  function Shifted(b: byte, j: nat): nat
    requires j < 4
  {
    if j == 0 then b as int * 0x100_0000 else if j == 1 then b as int * 0x1_0000 else if j == 2 then b as int * 0x100 else b
  }

  lemma WrapAbsorbs(a: nat, b: nat)
    ensures Wrap32(Wrap32(a) + b) == Wrap32(a + b)
  {
  }

  method Checksum(data: seq<byte>) returns (sum: nat)
    ensures sum == Sum32(data)
  {
    hide Wrap32, WeightedSum, Shifted;
    sum := 0;
    EmptySum();
    var i, n := 0, |data|;
    ghost var total: nat := 0;
    while n >= 4
      invariant 0 <= i && 0 <= n && i + n == |data| && i % 4 == 0
      invariant total == WeightedSum(data[..i]) && sum == Wrap32(total)
      decreases n
    {
      SumStep(data, i, 0);
      SumStep(data, i, 1);
      SumStep(data, i, 2);
      SumStep(data, i, 3);
      var word := Shifted(data[i], 0) + Shifted(data[i + 1], 1) + Shifted(data[i + 2], 2) + Shifted(data[i + 3], 3);
      WrapAbsorbs(total, word);
      sum, total := Wrap32(sum + word), total + word;
      i, n := i + 4, n - 4;
    }
    if n == 3 {
      WrapAbsorbs(total, Shifted(data[i + 2], 2));
      sum, total := Wrap32(sum + Shifted(data[i + 2], 2)), total + Shifted(data[i + 2], 2);
      SumStep(data, i, 2);
    }
    if n >= 2 {
      WrapAbsorbs(total, Shifted(data[i + 1], 1));
      sum, total := Wrap32(sum + Shifted(data[i + 1], 1)), total + Shifted(data[i + 1], 1);
      SumStep(data, i, 1);
    }
    if n >= 1 {
      WrapAbsorbs(total, Shifted(data[i], 0));
      sum, total := Wrap32(sum + Shifted(data[i], 0)), total + Shifted(data[i], 0);
      SumStep(data, i, 0);
    }
    assert data[..|data|] == data;
  }

  lemma EmptySum()
    ensures WeightedSum([]) == 0 && Wrap32(0) == 0
  {
  }

  // ----- the delta language -----

  datatype Command = Copy(cnt: nat, offset: nat) | Insert(bytes: seq<byte>)

  /** The command stays inside the source. */
  ghost predicate InSource(source: seq<byte>, c: Command) {
    c.Copy? ==> c.offset + c.cnt <= |source|
  }

  ghost predicate AllInSource(source: seq<byte>, cs: seq<Command>) {
    forall i :: 0 <= i < |cs| ==> InSource(source, cs[i])
  }

  ghost function Effect(source: seq<byte>, c: Command): seq<byte>
    requires InSource(source, c)
  {
    match c
    case Copy(cnt, offset) => source[offset..offset + cnt]
    case Insert(bytes) => bytes
  }

  /** What a list of commands builds. */
  ghost function Meaning(source: seq<byte>, cs: seq<Command>): seq<byte>
    requires AllInSource(source, cs)
  {
    if cs == [] then [] else Meaning(source, cs[..|cs| - 1]) + Effect(source, cs[|cs| - 1])
  }

  lemma MeaningAppend(source: seq<byte>, cs: seq<Command>, c: Command)
    requires AllInSource(source, cs) && InSource(source, c)
    ensures AllInSource(source, cs + [c])
    ensures Meaning(source, cs + [c]) == Meaning(source, cs) + Effect(source, c)
  {
    assert (cs + [c])[..|cs|] == cs;
  }

  // ----- the parser -----

  datatype Error = InvalidDelta | ChecksumMismatch | AllocationPanic

  /** One command at `pos`: the command and where it ends, nothing when it is malformed, out of bounds
      or the terminator. */
  ghost function ParseCommand(source: Slice, delta: seq<byte>, pos: nat): (r: Option<(Command, nat)>)
    requires pos <= |delta|
    ensures r.Some? ==> pos < r.value.1 <= |delta| && InSource(source, r.value.0)
  {
    match ReadInt(delta, pos)
    case None => None
    case Some((cnt, p)) =>
      if p >= |delta| then None
      else if delta[p] == COPY then ParseCopy(source, delta, cnt, p + 1)
      else if delta[p] == INSERT && p + 1 + cnt <= |delta| then
        Some((Insert(delta[p + 1..p + 1 + cnt]), p + 1 + cnt))
      else None
  }

  ghost function ParseCopy(source: Slice, delta: seq<byte>, cnt: nat, pos: nat): (r: Option<(Command, nat)>)
    requires pos <= |delta| && cnt < TWO_64
    ensures r.Some? ==> pos < r.value.1 <= |delta| && r.value.0.Copy? && r.value.0.cnt == cnt && InSource(source, r.value.0)
  {
    match ReadInt(delta, pos)
    case None => None
    case Some((offset, p)) =>
      if p < |delta| && delta[p] == COMMA && offset + cnt <= |source| then Some((Copy(cnt, offset), p + 1)) else None
  }

  /** The value in front of the terminator, when the terminator is what stands at `pos`. */
  ghost function ParseDone(delta: seq<byte>, pos: nat): Option<nat>
    requires pos <= |delta|
  {
    match ReadInt(delta, pos)
    case None => None
    case Some((cnt, p)) => if p < |delta| && delta[p] == DONE then Some(cnt) else None
  }

  /** The rest of the delta, with `output` built so far. */
  ghost function Run(source: Slice, delta: seq<byte>, pos: nat, targetLen: nat, output: seq<byte>): Result<seq<byte>, Error>
    requires pos <= |delta|
    decreases |delta| - pos
  {
    match ParseCommand(source, delta, pos)
    case Some((c, next)) => Run(source, delta, next, targetLen, output + Effect(source, c))
    case None =>
      match ParseDone(delta, pos)
      case None => Err(InvalidDelta)
      case Some(cnt) =>
        if |output| != targetLen then Err(InvalidDelta)
        else if cnt != Sum32(output) then Err(ChecksumMismatch)
        else Ok(output)
  }

  lemma RunUnfolds(source: Slice, delta: seq<byte>, pos: nat, targetLen: nat, output: seq<byte>)
    requires pos <= |delta|
    ensures Run(source, delta, pos, targetLen, output) ==
            match ParseCommand(source, delta, pos)
            case Some((c, next)) => Run(source, delta, next, targetLen, output + Effect(source, c))
            case None =>
              match ParseDone(delta, pos)
              case None => Err(InvalidDelta)
              case Some(cnt) =>
                if |output| != targetLen then Err(InvalidDelta)
                else if cnt != Sum32(output) then Err(ChecksumMismatch)
                else Ok(output)
  {
  }

  /** Apply, as a function: the target length, a newline, and then the commands. */
  ghost function Applied(source: Slice, delta: seq<byte>): Result<seq<byte>, Error> {
    match ReadInt(delta, 0)
    case None => Err(InvalidDelta)
    case Some((targetLen, p)) =>
      if p >= |delta| || delta[p] != NEWLINE then Err(InvalidDelta)
      else if targetLen > MAX_SLICE then Err(AllocationPanic)
      else Run(source, delta, p + 1, targetLen, [])
  }

  /** Whatever Apply accepts is what some list of commands builds out of the source, and has the
      announced length. */
  lemma {:induction false} RunIsMeaning(source: Slice, delta: seq<byte>, pos: nat, targetLen: nat, cs: seq<Command>)
    returns (all: seq<Command>)
    requires pos <= |delta| && AllInSource(source, cs)
    requires Run(source, delta, pos, targetLen, Meaning(source, cs)).Ok?
    ensures AllInSource(source, all)
    ensures Run(source, delta, pos, targetLen, Meaning(source, cs)) == Ok(Meaning(source, all))
    ensures |Meaning(source, all)| == targetLen
    decreases |delta| - pos
  {
    match ParseCommand(source, delta, pos)
    case Some((c, next)) =>
      MeaningAppend(source, cs, c);
      all := RunIsMeaning(source, delta, next, targetLen, cs + [c]);
    case None =>
      all := cs;
  }

  lemma AppliedIsMeaning(source: Slice, delta: seq<byte>) returns (cs: seq<Command>)
    requires Applied(source, delta).Ok?
    ensures AllInSource(source, cs) && Applied(source, delta) == Ok(Meaning(source, cs))
    ensures |Applied(source, delta).value| <= MAX_SLICE
  {
    var (targetLen, p) := ReadInt(delta, 0).value;
    cs := RunIsMeaning(source, delta, p + 1, targetLen, []);
  }

  // ----- the code -----

  /** The rest of a copy command: its offset, unless it is malformed or leaves the source. */
  method ReadCopy(rd: Reader, source: Slice, cnt: nat) returns (offset: Option<nat>)
    requires rd.Valid() && cnt < TWO_64
    modifies rd`pos
    ensures rd.Valid()
    ensures match ParseCopy(source, rd.data, cnt, old(rd.pos))
            case None => offset == None
            case Some((c, next)) => offset == Some(c.offset) && c.cnt == cnt && rd.pos == next
  {
    offset := rd.GetInt();
    if offset == None {
      return None;
    }
    var term := rd.GetChar();
    if term == None {
      return None;
    }
    if term.value != COMMA {
      return None;
    }
    if offset.value > |source| || cnt > |source| {
      return None;
    }
    if AsInt(Wrap64(offset.value + cnt)) > |source| {
      return None;
    }
  }

  method Apply(source: Slice, delta: Slice) returns (r: Result<seq<byte>, Error>)
    ensures r == Applied(source, delta)
  {
    hide Run, ReadInt, Scan, Sum32, ParseCopy;
    if |delta| == 0 {
      NoIntegerAtEnd(delta);
      return Err(InvalidDelta);
    }
    var rd := new Reader(delta);
    var targetLen := rd.GetInt();
    if targetLen == None {
      return Err(InvalidDelta);
    }
    var term := rd.GetChar();
    if term == None {
      return Err(InvalidDelta);
    }
    if term.value != NEWLINE {
      return Err(InvalidDelta);
    }
    if targetLen.value > MAX_SLICE { // make([]byte, 0, targetLen) panics
      return Err(AllocationPanic);
    }
    var output: seq<byte> := [];
    while rd.pos < |delta|
      invariant rd.Valid() && rd.data == delta
      invariant Applied(source, delta) == Run(source, delta, rd.pos, targetLen.value, output)
      decreases |delta| - rd.pos
    {
      RunUnfolds(source, delta, rd.pos, targetLen.value, output);
      var cnt := rd.GetInt();
      if cnt == None {
        return Err(InvalidDelta);
      }
      var cmd := rd.GetChar();
      if cmd == None {
        return Err(InvalidDelta);
      }
      if cmd.value == COPY {
        var offset := ReadCopy(rd, source, cnt.value);
        if offset == None {
          return Err(InvalidDelta);
        }
        output := output + source[offset.value..offset.value + cnt.value];
      } else if cmd.value == INSERT {
        if cnt.value > |rd.data| {
          return Err(InvalidDelta);
        }
        if rd.pos + cnt.value > |rd.data| {
          return Err(InvalidDelta);
        }
        output := output + rd.data[rd.pos..rd.pos + cnt.value];
        rd.pos := rd.pos + cnt.value;
      } else if cmd.value == DONE {
        if |output| != targetLen.value {
          return Err(InvalidDelta);
        }
        var check := Checksum(output);
        if cnt.value != check {
          return Err(ChecksumMismatch);
        }
        return Ok(output);
      } else {
        return Err(InvalidDelta);
      }
    }
    NoIntegerAtEnd(delta);
    RunUnfolds(source, delta, rd.pos, targetLen.value, output);
    return Err(InvalidDelta);
  }

  lemma NoIntegerAtEnd(data: seq<byte>)
    ensures ReadInt(data, |data|) == None
  {
  }
}
