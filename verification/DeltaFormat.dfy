/** The delta format as it stands in bytes (internal/delta/delta.go: `digits`, `zDigitsEnc`, `Apply`): its digits, its
    checksum and its markers in literals, and the errors that malformed deltas are answered with. */
module DeltaFormat {
  import opened Bytes
  import opened DeltaInt
  import opened DeltaApply
  import opened DeltaText

  // ----- digits -----

  /** The 64 digits in order, as `zDigitsEnc` lists them. */
  const ALPHABET: string := "0123456789" + "ABCDEFGHIJKLM" + "NOPQRSTUVWXYZ" + "_abcdefghijklm" + "nopqrstuvwxyz~"

  lemma DigitsInParts(d: int)
    ensures 0 <= d < 10 ==> DigitChar(d) as char == "0123456789"[d]
    ensures 10 <= d < 23 ==> DigitChar(d) as char == "ABCDEFGHIJKLM"[d - 10]
    ensures 23 <= d < 36 ==> DigitChar(d) as char == "NOPQRSTUVWXYZ"[d - 23]
    ensures 36 <= d < 50 ==> DigitChar(d) as char == "_abcdefghijklm"[d - 36]
    ensures 50 <= d < 64 ==> DigitChar(d) as char == "nopqrstuvwxyz~"[d - 50]
  {
  }

  /** The digit of every value is the character at that place. */
  lemma DigitOfValue(d: int)
    requires 0 <= d < |ALPHABET|
    ensures |ALPHABET| == 64
    ensures DigitChar(d) as char == ALPHABET[d] && Digit(DigitChar(d)) == d
  {
    DigitsInParts(d);
  }

  /** The value of every byte is its place among the digits, or -1. */
  lemma ValueOfDigit(c: byte)
    ensures if c as char in ALPHABET then 0 <= Digit(c) < 64 && ALPHABET[Digit(c)] == c as char else Digit(c) == -1
  {
    if Digit(c) >= 0 {
      assert |ALPHABET| == 64 && DigitChar(Digit(c)) == c;
      DigitOfValue(Digit(c));
    }
    if c as char in ALPHABET {
      var d :| 0 <= d < |ALPHABET| && ALPHABET[d] == c as char;
      DigitOfValue(d);
    }
  }

  /** They ascend as bytes do. */
  lemma DigitsAscend(d: int, e: int)
    requires 0 <= d < e < 64
    ensures DigitChar(d) < DigitChar(e)
  {
  }

  // ----- a delta in bytes -----

  /** The bytes of an ASCII text. */
  function Ascii(s: string): seq<byte>
    requires forall i :: 0 <= i < |s| ==> s[i] < '\U{80}'
  {
    seq(|s|, i requires 0 <= i < |s| => s[i] as int as byte)
  }

  lemma SmallNumbers()
    ensures Encode(6) == Ascii("6") && Encode(4) == Ascii("4") && Encode(1) == Ascii("1") && Encode(2) == Ascii("2")
  {
    forall v | 0 < v < 10 ensures Encode(v) == [48 + v as byte] { assert Digits(v) == Digits(0) + [DigitChar(v)]; }
  }

  lemma SumInDigits()
    ensures Encode(0xCACC6465) == Ascii("3Ao6Ha")
  {
    assert Digits(3) == [51];
    DigitsNext(202, 3);
    DigitsNext(12979, 202);
    DigitsNext(830662, 12979);
    DigitsNext(53162385, 830662);
    DigitsNext(0xCACC6465, 53162385);
    assert [51] + [65] + [111] + [54] + [72] + [97] == Ascii("3Ao6Ha");
    hide Digits;
  }

  lemma DigitsNext(v: nat, front: nat)
    requires v > 0 && front == v / 64
    ensures Digits(v) == Digits(front) + [DigitChar(v % 64)]
  {
  }

  lemma SumOfText()
    ensures Sum32(Ascii("bcdehi")) == 0xCACC6465
  {
    var t := Ascii("bcdehi");
    assert t == [98, 99, 100, 101, 104, 105];
    assert t[..0] == [] && t[..1] == [98] && t[..2] == [98, 99] && t[..3] == [98, 99, 100] && t[..4] == [98, 99, 100, 101];
    assert t[..5] == [98, 99, 100, 101, 104] && t[..6] == t;
    assert WeightedSum(t[..1]) == 98 * 0x100_0000;
    assert t[..2][..1] == t[..1] && t[..3][..2] == t[..2] && t[..4][..3] == t[..3] && t[..5][..4] == t[..4] && t[..6][..5] == t[..5];
    assert WeightedSum(t[..2]) == WeightedSum(t[..1]) + 99 * 0x1_0000;
    assert WeightedSum(t[..3]) == WeightedSum(t[..2]) + 100 * 0x100;
    assert WeightedSum(t[..4]) == WeightedSum(t[..3]) + 101;
    assert WeightedSum(t[..5]) == WeightedSum(t[..4]) + 104 * 0x100_0000;
    assert WeightedSum(t[..6]) == WeightedSum(t[..5]) + 105 * 0x1_0000;
  }

  lemma AsciiConcat(s: string, t: string)
    requires (forall i :: 0 <= i < |s| ==> s[i] < '\U{80}') && forall i :: 0 <= i < |t| ==> t[i] < '\U{80}'
    ensures Ascii(s) + Ascii(t) == Ascii(s + t)
  {
  }

  lemma Pieces()
    ensures Header(Ascii("bcdehi")) == Ascii("6\n") && Trailer(Ascii("bcdehi")) == Ascii("3Ao6Ha;")
    ensures Written(Copy(4, 1)) == Ascii("4@1,") && Written(Insert(Ascii("hi"))) == Ascii("2:hi")
  {
    SmallNumbers();
    SumInDigits();
    SumOfText();
    hide Encode, Sum32;
    assert Ascii("\n") == [NEWLINE] && Ascii(";") == [DONE] && Ascii("@") == [COPY] && Ascii(",") == [COMMA] && Ascii(":") == [INSERT];
  }

  lemma AsciiPart()
    ensures Ascii("abcdef")[1..5] == Ascii("bcde")
  {
  }

  lemma Wholes()
    ensures Ascii("6\n4@1,2:hi3Ao6Ha;") == Ascii("6\n") + (Ascii("4@1,") + Ascii("2:hi")) + Ascii("3Ao6Ha;")
    ensures Ascii("bcdehi") == Ascii("abcdef")[1..5] + Ascii("hi")
    ensures |Ascii("abcdef")| == |Ascii("bcdehi")| == 6 && |Ascii("hi")| == 2 && |Ascii("6\n4@1,2:hi3Ao6Ha;")| == 17
  {
    AsciiConcat("4@1,", "2:hi");
    AsciiConcat("6\n", "4@1,2:hi");
    AsciiConcat("6\n4@1,2:hi", "3Ao6Ha;");
    assert "4@1," + "2:hi" == "4@1,2:hi" && "6\n" + "4@1,2:hi" == "6\n4@1,2:hi" && "6\n4@1,2:hi" + "3Ao6Ha;" == "6\n4@1,2:hi3Ao6Ha;";
    AsciiConcat("bcde", "hi");
    assert Ascii("abcdef")[1..5] == Ascii("bcde") by { AsciiPart(); }
    assert "bcde" + "hi" == "bcdehi";
  }

  /** A delta of all four markers, written out: its length, a copy of four bytes from the second on, two bytes of its own,
      and the checksum of what they make. */
  lemma DeltaInBytes()
    ensures Applied(Ascii("abcdef"), Ascii("6\n4@1,2:hi3Ao6Ha;")) == Ok(Ascii("bcdehi"))
  {
    Pieces();
    Wholes();
    hide Encode, Sum32, Applied, Header, Trailer, Ascii, Written;
    TwoCommands(Ascii("abcdef"), Copy(4, 1), Insert(Ascii("hi")));
    WrittenIsApplied(Ascii("abcdef"), Ascii("bcdehi"), [Copy(4, 1), Insert(Ascii("hi"))], Ascii("6\n4@1,2:hi3Ao6Ha;"));
  }

  lemma TwoCommands(source: Slice, a: Command, b: Command)
    requires InSource(source, a) && InSource(source, b)
    ensures AllInSource(source, [a, b]) && Meaning(source, [a, b]) == Effect(source, a) + Effect(source, b)
    ensures WrittenAll([a, b]) == Written(a) + Written(b)
  {
    hide Written;
    assert [a, b][..1] == [a] && [a][..0] == [];
    assert Meaning(source, [a]) == Effect(source, a);
    assert WrittenAll([a]) == [] + Written(a) == Written(a);
  }

  // ----- errors -----

  /** Up to its trailer a delta is run as meant, whatever it announces and whatever follows. */
  lemma CommandsAreRun(source: Slice, targetLen: nat, cs: seq<Command>, rest: seq<byte>, delta: seq<byte>)
    requires AllInSource(source, cs) && (forall i :: 0 <= i < |cs| ==> Sizes(cs[i])) && targetLen <= MAX_SLICE
    requires delta == Encode(targetLen) + [NEWLINE] + WrittenAll(cs) + rest
    ensures var pos := |Encode(targetLen) + [NEWLINE] + WrittenAll(cs)|;
            Applied(source, delta) == Run(source, delta, pos, targetLen, Meaning(source, cs)) && StandsAt(delta, pos, rest)
  {
    hide Run, Encode, ReadInt, WrittenAll, Meaning;
    var a, b := Encode(targetLen) + [NEWLINE], WrittenAll(cs);
    assert delta == a + (b + rest);
    assert StandsAt(delta, 0, a + (b + rest)) by { StandsWhole(delta, a + (b + rest)); }
    StandsSplit(delta, 0, a, b + rest);
    StandsSplit(delta, |a|, b, rest);
    ReadStanding(delta, 0, targetLen, NEWLINE);
    RunWritten(source, delta, |a|, targetLen, cs);
  }

  /** A wrong checksum is a mismatch. */
  lemma WrongChecksum(source: Slice, cs: seq<Command>, sum: nat, delta: seq<byte>)
    requires AllInSource(source, cs) && (forall i :: 0 <= i < |cs| ==> Sizes(cs[i])) && |Meaning(source, cs)| <= MAX_SLICE
    requires sum < TWO_64 && sum != Sum32(Meaning(source, cs))
    requires delta == Header(Meaning(source, cs)) + WrittenAll(cs) + (Encode(sum) + [DONE])
    ensures Applied(source, delta) == Err(ChecksumMismatch)
  {
    hide Run, Encode, ReadInt, WrittenAll, Meaning, Sum32;
    var target := Meaning(source, cs);
    CommandsAreRun(source, |target|, cs, Encode(sum) + [DONE], delta);
    var pos := |Header(target) + WrittenAll(cs)|;
    ReadStanding(delta, pos, sum, DONE);
    RunUnfolds(source, delta, pos, |target|, target);
  }

  /** A wrong length is an error, whatever the checksum. */
  lemma WrongLength(source: Slice, targetLen: nat, cs: seq<Command>, sum: nat, delta: seq<byte>)
    requires AllInSource(source, cs) && (forall i :: 0 <= i < |cs| ==> Sizes(cs[i]))
    requires targetLen <= MAX_SLICE && targetLen != |Meaning(source, cs)| && sum < TWO_64
    requires delta == Encode(targetLen) + [NEWLINE] + WrittenAll(cs) + (Encode(sum) + [DONE])
    ensures Applied(source, delta) == Err(InvalidDelta)
  {
    hide Run, Encode, ReadInt, WrittenAll, Meaning, Sum32;
    CommandsAreRun(source, targetLen, cs, Encode(sum) + [DONE], delta);
    var pos := |Encode(targetLen) + [NEWLINE] + WrittenAll(cs)|;
    ReadStanding(delta, pos, sum, DONE);
    RunUnfolds(source, delta, pos, targetLen, Meaning(source, cs));
  }

  /** So is a copy that leaves the source. */
  lemma CopyOutside(source: Slice, targetLen: nat, cs: seq<Command>, c: Command, delta: seq<byte>, rest: seq<byte>)
    requires AllInSource(source, cs) && (forall i :: 0 <= i < |cs| ==> Sizes(cs[i])) && targetLen <= MAX_SLICE
    requires c.Copy? && Sizes(c) && !InSource(source, c)
    requires delta == Encode(targetLen) + [NEWLINE] + WrittenAll(cs) + (Written(c) + rest)
    ensures Applied(source, delta) == Err(InvalidDelta)
  {
    hide Run, Encode, ReadInt, WrittenAll, Meaning, Sum32;
    CommandsAreRun(source, targetLen, cs, Written(c) + rest, delta);
    var pos := |Encode(targetLen) + [NEWLINE] + WrittenAll(cs)|;
    StandsSplit(delta, pos, Written(c), rest);
    OutsideIsRefused(source, delta, pos, c);
    RunUnfolds(source, delta, pos, targetLen, Meaning(source, cs));
  }

  lemma OutsideIsRefused(source: Slice, delta: seq<byte>, pos: nat, c: Command)
    requires c.Copy? && Sizes(c) && !InSource(source, c) && StandsAt(delta, pos, Written(c))
    ensures ParseCommand(source, delta, pos) == None && ParseDone(delta, pos) == None
  {
    hide Encode, ReadInt, ParseCommand, ParseCopy, ParseDone, StandsAt;
    CopyStands(delta, pos, c.cnt, c.offset);
    var mid := pos + |Encode(c.cnt)|;
    ReadStanding(delta, pos, c.cnt, COPY);
    ReadStanding(delta, mid + 1, c.offset, COMMA);
    CopyIsRefused(source, delta, pos, c, mid, mid + 1 + |Encode(c.offset)|);
  }

  lemma CopyIsRefused(source: Slice, delta: seq<byte>, pos: nat, c: Command, mid: nat, end: nat)
    requires c.Copy? && !InSource(source, c) && c.cnt < TWO_64 && pos <= |delta| && mid < |delta| && end < |delta|
    requires ReadInt(delta, pos) == Some((c.cnt, mid)) && delta[mid] == COPY
    requires ReadInt(delta, mid + 1) == Some((c.offset, end)) && delta[end] == COMMA
    ensures ParseCommand(source, delta, pos) == None && ParseDone(delta, pos) == None
  {
    hide ReadInt;
  }

  /** And a delta that ends without its trailer. */
  lemma NoTrailer(source: Slice, targetLen: nat, cs: seq<Command>, delta: seq<byte>)
    requires AllInSource(source, cs) && (forall i :: 0 <= i < |cs| ==> Sizes(cs[i])) && targetLen <= MAX_SLICE
    requires delta == Encode(targetLen) + [NEWLINE] + WrittenAll(cs) + []
    ensures Applied(source, delta) == Err(InvalidDelta)
  {
    hide Run, Encode, ReadInt, WrittenAll, Meaning, Applied, AllInSource, Sizes, StandsAt;
    CommandsAreRun(source, targetLen, cs, [], delta);
    assert |delta| == |Encode(targetLen) + [NEWLINE] + WrittenAll(cs)|;
    NothingToRead(source, delta, targetLen, Meaning(source, cs));
  }

  lemma NothingToRead(source: Slice, delta: seq<byte>, targetLen: nat, output: seq<byte>)
    ensures Run(source, delta, |delta|, targetLen, output) == Err(InvalidDelta)
  {
    RunUnfolds(source, delta, |delta|, targetLen, output);
  }
}
