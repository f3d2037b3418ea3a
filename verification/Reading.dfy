/** Reading text from the front, line by line (bufio.Reader in internal/xfer/decode.go, bytes.Reader in
    internal/deck/parse.go). A reader is its input and a position; what is left of the input is what the parsers,
    which are functions, are applied to. */
module Reading {
  /** What is left of an input is its end. */
  ghost predicate IsEnd(end: string, s: string) {
    |end| <= |s| && end == s[|s| - |end|..]
  }

  /** Where the first line ends: at a newline, or with the text. */
  function FirstNewline(s: string): (k: nat)
    ensures k <= |s| && (forall i :: 0 <= i < k ==> s[i] != '\n') && (k < |s| ==> s[k] == '\n')
  {
    if s == "" || s[0] == '\n' then 0 else 1 + FirstNewline(s[1..])
  }

  lemma {:induction false} NewlineAfter(line: string, rest: string)
    requires forall i :: 0 <= i < |line| ==> line[i] != '\n'
    ensures FirstNewline(line + "\n" + rest) == |line|
  {
    if line != "" {
      assert (line + "\n" + rest)[1..] == line[1..] + "\n" + rest;
      NewlineAfter(line[1..], rest);
    }
  }

  /** The input, read from the front. */
  class Reader {
    const data: string
    var pos: nat

    ghost predicate Valid()
      reads this
    {
      pos <= |data|
    }

    function Rest(): string
      requires Valid()
      reads this
    {
      data[pos..]
    }

    constructor (data: string)
      ensures Valid() && Rest() == data
    {
      this.data, pos := data, 0;
    }

    /** The rest of the line, and whether the input ended before a newline. */
    method ReadString() returns (line: string, eof: bool)
      requires Valid()
      modifies this
      ensures Valid()
      ensures var rest, k := old(Rest()), FirstNewline(old(Rest()));
              line == rest[..k] && eof == (k == |rest|) && Rest() == if eof then "" else rest[k + 1..]
    {
      line, eof := "", false;
      ghost var start, rest := pos, Rest();
      while pos < |data| && data[pos] != '\n'
        invariant start <= pos <= |data| && line == data[start..pos]
        invariant pos - start <= FirstNewline(rest)
      {
        line := line + [data[pos]];
        pos := pos + 1;
      }
      if pos == |data| {
        eof := true;
      } else {
        pos := pos + 1;
      }
    }

    /** Moves on to a later part of the input. */
    method SkipTo(rest: string)
      requires Valid() && IsEnd(rest, Rest())
      modifies this
      ensures Valid() && Rest() == rest
    {
      pos := |data| - |rest|;
    }
  }
}
