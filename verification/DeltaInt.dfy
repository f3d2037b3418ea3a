/** The base-64 integers of the delta format (internal/delta/delta.go: `digits`, `zDigitsEnc`, `getInt`, `appendInt`).
    They are read until a byte that is no digit, with the wrap-around of 64-bit arithmetic, and written without zeros in front. */
module DeltaInt {
  import opened Bytes

  /** The table `digits`, with -1 for every other byte. */
  function Digit(c: byte): int {
    if 48 <= c <= 57 then c - 48
    else if 65 <= c <= 90 then c - 55
    else if c == 95 then 36
    else if 97 <= c <= 122 then c - 60
    else if c == 126 then 63
    else -1
  }

  /** The table `zDigitsEnc`. */
  function DigitChar(d: int): byte
    requires 0 <= d < 64
  {
    if d < 10 then 48 + d
    else if d < 36 then 55 + d
    else if d == 36 then 95
    else if d < 63 then 60 + d
    else 126
  }

  /** The digits of v, most significant first; none for zero. */
  ghost function Digits(v: nat): seq<byte> {
    if v == 0 then [] else Digits(v / 64) + [DigitChar(v % 64)]
  }

  /** How v is written. */
  ghost function Encode(v: nat): seq<byte> {
    if v == 0 then [48] else Digits(v)
  }

  /** Reading digits from `pos` on, with `v` accumulated so far: the value and where the digits stop. */
  ghost function Scan(data: seq<byte>, pos: nat, v: nat): (nat, nat)
    requires pos <= |data|
    decreases |data| - pos
  {
    if pos < |data| && Digit(data[pos]) >= 0 then Scan(data, pos + 1, Wrap64(v * 64 + Digit(data[pos])))
    else (v, pos)
  }

  /** What getInt returns at `pos`: nothing when no digit stands there. */
  ghost function ReadInt(data: seq<byte>, pos: nat): (r: Option<(nat, nat)>)
    requires pos <= |data|
    ensures r.Some? ==> pos < r.value.1 <= |data| && r.value.0 < TWO_64
  {
    ScanAdvances(data, pos, 0);
    var (v, next) := Scan(data, pos, 0);
    if next == pos then None else Some((v, next))
  }

  lemma {:induction false} ScanAdvances(data: seq<byte>, pos: nat, v: nat)
    requires pos <= |data| && v < TWO_64
    ensures pos <= Scan(data, pos, v).1 <= |data| && Scan(data, pos, v).0 < TWO_64
    decreases |data| - pos
  {
    if pos < |data| && Digit(data[pos]) >= 0 {
      ScanAdvances(data, pos + 1, Wrap64(v * 64 + Digit(data[pos])));
    }
  }

  lemma DigitsUnfolds(v: nat)
    ensures Digits(v) == if v == 0 then [] else Digits(v / 64) + [DigitChar(v % 64)]
  {
  }

  lemma ScanUnfolds(data: seq<byte>, pos: nat, v: nat)
    requires pos < |data| && Digit(data[pos]) >= 0
    ensures Scan(data, pos, v) == Scan(data, pos + 1, Wrap64(v * 64 + Digit(data[pos])))
  {
  }

  /** The last digit restores v, without leaving 64 bits. */
  lemma LastDigit(v: nat)
    requires v < TWO_64
    ensures Digit(DigitChar(v % 64)) == v % 64 && Wrap64(v / 64 * 64 + v % 64) == v
  {
  }

  /** Scanning the digits of v yields v, whatever follows. */
  lemma {:induction false} ScanDigits(data: seq<byte>, pos: nat, v: nat)
    requires v < TWO_64 && pos + |Digits(v)| <= |data| && data[pos..pos + |Digits(v)|] == Digits(v)
    ensures Scan(data, pos, 0) == Scan(data, pos + |Digits(v)|, v)
  {
    hide Scan, Digits, Digit, DigitChar, Wrap64;
    DigitsUnfolds(v);
    if v > 0 {
      var front := Digits(v / 64);
      var last := pos + |front|;
      assert data[pos..last] == data[pos..last + 1][..|front|] == front;
      assert data[last] == data[pos..last + 1][|front|];
      ScanDigits(data, pos, v / 64);
      LastDigit(v);
      ScanUnfolds(data, last, v / 64);
    }
  }

  /** Reading back what was written, up to a byte that is not a digit. */
  lemma ReadEncoded(data: seq<byte>, pos: nat, v: nat)
    requires v < TWO_64 && pos + |Encode(v)| < |data| && data[pos..pos + |Encode(v)|] == Encode(v)
    requires Digit(data[pos + |Encode(v)|]) < 0
    ensures ReadInt(data, pos) == Some((v, pos + |Encode(v)|))
  {
    if v == 0 {
      assert data[pos] == data[pos..pos + 1][0] == 48;
      assert Scan(data, pos, 0) == Scan(data, pos + 1, 0) == (0, pos + 1);
    } else {
      ScanDigits(data, pos, v);
    }
  }

  ghost function Pow64(n: nat): nat {
    if n == 0 then 1 else 64 * Pow64(n - 1)
  }

  /** A number below 64^n has at most n digits. */
  lemma {:induction false} DigitCount(v: nat, n: nat)
    requires v < Pow64(n)
    ensures |Digits(v)| <= n
  {
    if v > 0 {
      DigitCount(v / 64, n - 1);
    }
  }

  lemma EncodeSize(v: nat)
    ensures v < TWO_64 ==> 1 <= |Encode(v)| <= 11
    ensures v < TWO_32 ==> |Encode(v)| <= 6
    ensures v < 0x100_0000 ==> |Encode(v)| <= 4
  {
    Pow64Values();
    if v < TWO_64 { DigitCount(v, 11); }
    if v < TWO_32 { DigitCount(v, 6); }
    if v < 0x100_0000 { DigitCount(v, 4); }
  }

  lemma Pow64Values()
    ensures Pow64(4) == 0x100_0000 && Pow64(6) == 0x10_0000_0000 && Pow64(11) == 0x4_0000_0000_0000_0000
  {
    assert Pow64(2) == 64 * Pow64(1) == 4096;
    assert Pow64(4) == 64 * Pow64(3) == 64 * 64 * Pow64(2);
    assert Pow64(6) == 64 * Pow64(5) == 64 * 64 * Pow64(4);
    assert Pow64(8) == 64 * Pow64(7) == 64 * 64 * Pow64(6);
    assert Pow64(10) == 64 * Pow64(9) == 64 * 64 * Pow64(8);
    assert Pow64(11) == 64 * Pow64(10);
  }

  /** The cursor over a delta. */
  class Reader {
    const data: seq<byte>
    var pos: nat

    ghost predicate Valid()
      reads this
    {
      pos <= |data|
    }

    constructor (data: seq<byte>)
      ensures Valid() && this.data == data && pos == 0
    {
      this.data, pos := data, 0;
    }

    method GetInt() returns (r: Option<nat>)
      requires Valid()
      modifies this`pos
      ensures Valid()
      ensures match ReadInt(data, old(pos))
              case None => r == None && pos == old(pos)
              case Some((v, next)) => r == Some(v) && pos == next
    {
      var v: nat, started := 0, false;
      while pos < |data|
        invariant Valid() && old(pos) <= pos && v < TWO_64 && (started <==> old(pos) < pos)
        invariant Scan(data, pos, v) == Scan(data, old(pos), 0)
      {
        var c := data[pos];
        if c >= 128 || Digit(c) < 0 {
          break;
        }
        v := Wrap64(v * 64 + Digit(c));
        pos := pos + 1;
        started := true;
      }
      if !started {
        return None;
      }
      return Some(v);
    }

    method GetChar() returns (r: Option<byte>)
      requires Valid()
      modifies this`pos
      ensures Valid()
      ensures if old(pos) < |data| then r == Some(data[old(pos)]) && pos == old(pos) + 1
              else r == None && pos == old(pos)
    {
      if pos >= |data| {
        return None;
      }
      var c := data[pos];
      pos := pos + 1;
      return Some(c);
    }
  }

  lemma DigitsMove(v: nat, w: nat, tail: seq<byte>)
    requires w > 0 && Digits(v) == Digits(w) + tail
    ensures Digits(v) == Digits(w / 64) + ([DigitChar(w % 64)] + tail) && |Digits(w)| == |Digits(w / 64)| + 1
  {
    DigitsUnfolds(w);
    hide Digits;
  }

  method AppendInt(buf: seq<byte>, v: nat) returns (r: seq<byte>)
    requires v < TWO_64
    ensures r == buf + Encode(v)
  {
    hide Digits, DigitChar, Encode;
    EncodedDigits(v);
    if v == 0 {
      return buf + [48];
    }
    var tmp := new byte[13];
    var i, w := tmp.Length, v;
    ghost var out: seq<byte> := [];
    while w > 0
      invariant 0 <= i <= 13 && |Digits(w)| <= i
      invariant tmp[i..] == out && Digits(v) == Digits(w) + out
    {
      DigitsMove(v, w, out);
      i := i - 1;
      tmp[i] := DigitChar(w % 64);
      out := [DigitChar(w % 64)] + out;
      w := w / 64;
    }
    return buf + tmp[i..];
  }

  lemma EncodedDigits(v: nat)
    requires v < TWO_64
    ensures Digits(0) == [] && |Digits(v)| <= 13 && Digits(v) + [] == Digits(v)
    ensures Encode(v) == if v == 0 then [48] else Digits(v)
  {
    EncodeSize(v);
  }
}
