/** Creating a delta (internal/delta/delta.go: `Create`). */
module DeltaCreate {
  import opened Bytes
  import opened DeltaInt
  import opened DeltaApply
  import opened DeltaText

  const NHASH: nat := 16

  // ----- bit operations -----

  /** x & y on natural numbers. */
  function BitAnd(x: nat, y: nat): nat
    decreases x
  {
    if x == 0 || y == 0 then 0
    else 2 * BitAnd(x / 2, y / 2) + if x % 2 == 1 && y % 2 == 1 then 1 else 0
  }

  ghost predicate IsPowerOfTwo(n: nat) {
    n == 1 || (n > 1 && n % 2 == 0 && IsPowerOfTwo(n / 2))
  }

  lemma {:induction false} BitAndBounds(x: nat, y: nat)
    ensures BitAnd(x, y) <= y && BitAnd(x, y) <= x
    decreases x
  {
    if x > 0 && y > 0 { BitAndBounds(x / 2, y / 2); }
  }

  /** n & (n - 1) is zero only for a power of two. */
  lemma {:induction false} LowestBitClears(n: nat)
    requires n > 0 && BitAnd(n, n - 1) == 0
    ensures IsPowerOfTwo(n)
  {
    if n > 1 {
      if n % 2 == 0 {
        assert (n - 1) / 2 == n / 2 - 1;
        LowestBitClears(n / 2);
      } else {
        assert (n - 1) / 2 == n / 2;
        BitAndSelf(n / 2);
      }
    }
  }

  lemma {:induction false} BitAndSelf(n: nat)
    ensures BitAnd(n, n) == n
  {
    if n > 0 { BitAndSelf(n / 2); }
  }

  /** Masking with a power of two less one is the remainder. */
  lemma {:induction false} MaskIsRemainder(x: nat, size: nat)
    requires IsPowerOfTwo(size)
    ensures BitAnd(x, size - 1) == x % size
    decreases x, size
  {
    if size > 1 {
      var half := size / 2;
      assert (size - 1) / 2 == half - 1;
      if x > 0 {
        MaskIsRemainder(x / 2, half);
        HalveRemainder(x, half);
      } else {
        assert 0 % size == 0;
      }
    }
  }

  lemma HalveRemainder(x: nat, half: nat)
    requires half > 0
    ensures x % (2 * half) == 2 * ((x / 2) % half) + x % 2
  {
    var q, r := x / 2 / half, x / 2 % half;
    assert x / 2 == q * half + r;
    assert x == 2 * (q * half + r) + x % 2;
    assert x == q * (2 * half) + (2 * r + x % 2);
    RemainderIsUnique(x, 2 * half, q, 2 * r + x % 2);
  }

  lemma RemainderIsUnique(x: nat, d: nat, q: nat, r: nat)
    requires d > 0 && x == q * d + r && r < d
    ensures x % d == r
  {
    var q', r' := x / d, x % d;
    if q' > q { MultipleGrows(q, q', d); }
    if q' < q { MultipleGrows(q', q, d); }
  }

  lemma {:induction false} MultipleGrows(q: nat, q': nat, d: nat)
    requires q < q'
    ensures q * d + d <= q' * d
  {
    assert q' * d == (q' - 1) * d + d;
    if q < q' - 1 { MultipleGrows(q, q' - 1, d); }
  }

  // ----- the hash table over the source's blocks -----

  ghost function HashOf(data: seq<byte>): (h: nat)
    ensures h < TWO_32
  {
    if data == [] then 0 else Wrap32(HashOf(data[..|data| - 1]) * 37 + data[|data| - 1])
  }

  method RollingHash(data: seq<byte>) returns (h: nat)
    ensures h == HashOf(data)
  {
    h := 0;
    for i := 0 to |data|
      invariant h == HashOf(data[..i])
    {
      assert data[..i + 1][..i] == data[..i];
      h := Wrap32(h * 37 + data[i]);
    }
    assert data[..|data|] == data;
  }

  datatype HashEntry = HashEntry(offset: nat, next: int)

  /** Following the links from entry number `ei` reaches entry number j; numbers start at 1. */
  ghost predicate InChain(entries: seq<HashEntry>, ei: int, j: nat)
    decreases ei
  {
    && 0 < ei <= |entries|
    && (ei == j || (entries[ei - 1].next + 1 < ei && InChain(entries, entries[ei - 1].next + 1, j)))
  }

  /** The i-th block of the source. */
  ghost function Block(source: seq<byte>, i: nat): seq<byte>
    requires i * NHASH + NHASH <= |source|
  {
    source[i * NHASH..i * NHASH + NHASH]
  }

  /** Entry i describes block i, and the links descend. */
  ghost predicate EntriesOk(source: seq<byte>, entries: seq<HashEntry>) {
    forall i :: 0 <= i < |entries| ==>
      entries[i].offset == i * NHASH && i * NHASH + NHASH <= |source| && -1 <= entries[i].next < i
  }

  /** Every entry is on the chain of its block's slot. */
  ghost predicate Linked(source: seq<byte>, heads: seq<int>, entries: seq<HashEntry>, mask: nat)
    requires EntriesOk(source, entries)
  {
    && |heads| == mask + 1
    && (forall s :: 0 <= s < |heads| ==> 0 <= heads[s] <= |entries|)
    && forall i :: 0 <= i < |entries| ==>
         BitAnd(HashOf(Block(source, i)), mask) <= mask
         && InChain(entries, heads[BitAnd(HashOf(Block(source, i)), mask)], i + 1)
  }

  ghost predicate Table(source: seq<byte>, heads: seq<int>, entries: seq<HashEntry>, mask: nat) {
    && IsPowerOfTwo(mask + 1)
    && EntriesOk(source, entries) && Linked(source, heads, entries, mask)
    && |source| < |entries| * NHASH + NHASH
  }

  /** A chain does not change when entries are added behind it. */
  lemma {:induction false} ChainKept(entries: seq<HashEntry>, e: HashEntry, ei: int, j: nat)
    requires InChain(entries, ei, j)
    ensures InChain(entries + [e], ei, j)
    decreases ei
  {
    assert (entries + [e])[ei - 1] == entries[ei - 1];
    if ei != j { ChainKept(entries, e, entries[ei - 1].next + 1, j); }
  }

  /** Adding the entry for the next block in front of its slot's chain. */
  lemma TableGrows(source: seq<byte>, heads: seq<int>, entries: seq<HashEntry>, mask: nat, slot: nat)
    requires EntriesOk(source, entries) && Linked(source, heads, entries, mask)
    requires |entries| * NHASH + NHASH <= |source|
    requires slot == BitAnd(HashOf(Block(source, |entries|)), mask) <= mask
    ensures var entries' := entries + [HashEntry(|entries| * NHASH, heads[slot] - 1)];
            EntriesOk(source, entries') && Linked(source, heads[slot := |entries| + 1], entries', mask)
  {
    hide BitAnd, HashOf;
    var e := HashEntry(|entries| * NHASH, heads[slot] - 1);
    var entries', heads' := entries + [e], heads[slot := |entries| + 1];
    forall i | 0 <= i < |entries'|
      ensures BitAnd(HashOf(Block(source, i)), mask) <= mask
              && InChain(entries', heads'[BitAnd(HashOf(Block(source, i)), mask)], i + 1)
    {
      var s := BitAnd(HashOf(Block(source, i)), mask);
      if i < |entries| {
        ChainKept(entries, e, heads[s], i + 1);
      }
      assert entries'[|entries|] == e;
    }
  }

  /** The number of slots: at least 128 and a power of two. */
  method TableSize(n: nat) returns (tableSize: nat)
    ensures tableSize > 1 && IsPowerOfTwo(tableSize)
  {
    tableSize := n / NHASH;
    if tableSize < 64 {
      tableSize := 64;
    }
    while BitAnd(tableSize, tableSize - 1) != 0
      invariant tableSize > 0
      decreases tableSize
    {
      BitAndBounds(tableSize, tableSize - 1);
      tableSize := BitAnd(tableSize, tableSize - 1);
    }
    LowestBitClears(tableSize);
    tableSize := tableSize * 2;
  }

  method BuildHashTable(source: seq<byte>) returns (heads: array<int>, entries: seq<HashEntry>, mask: nat)
    ensures fresh(heads) && Table(source, heads[..], entries, mask)
  {
    var tableSize := TableSize(|source|);
    mask := tableSize - 1;
    heads := new int[tableSize](_ => 0);
    entries := [];
    var i := 0;
    while i + NHASH <= |source|
      invariant i == |entries| * NHASH
      invariant heads.Length == tableSize && EntriesOk(source, entries) && Linked(source, heads[..], entries, mask)
      decreases |source| - i
    {
      hide BitAnd, HashOf, InChain;
      var h := RollingHash(source[i..i + NHASH]);
      BitAndBounds(h, mask);
      var idx := BitAnd(h, mask);
      TableGrows(source, heads[..], entries, mask, idx);
      ghost var before := heads[..];
      entries := entries + [HashEntry(i, heads[idx] - 1)];
      heads[idx] := |entries|;
      assert heads[..] == before[idx := |entries|];
      i := i + NHASH;
    }
  }

  // ----- matching -----

  /** source from sOff and target from tPos agree on n bytes. */
  ghost predicate Agree(source: seq<byte>, sOff: nat, target: seq<byte>, tPos: nat, n: nat) {
    sOff + n <= |source| && tPos + n <= |target| && source[sOff..sOff + n] == target[tPos..tPos + n]
  }

  method MatchLen(a: seq<byte>, b: seq<byte>) returns (n: nat)
    ensures n <= |a| && n <= |b| && a[..n] == b[..n]
    ensures n < |a| && n < |b| ==> a[n] != b[n]
  {
    n := |a|;
    if |b| < n {
      n := |b|;
    }
    for i := 0 to n
      invariant a[..i] == b[..i]
    {
      if a[i] != b[i] {
        return i;
      }
    }
  }

  lemma MatchLenIsLongest(source: seq<byte>, sOff: nat, target: seq<byte>, tPos: nat, ml: nat, n: nat)
    requires sOff <= |source| && tPos <= |target| && ml <= |source| - sOff && ml <= |target| - tPos
    requires ml < |source[sOff..]| && ml < |target[tPos..]| ==> source[sOff..][ml] != target[tPos..][ml]
    requires Agree(source, sOff, target, tPos, n)
    ensures n <= ml
  {
    var s, t := source[sOff..sOff + n], target[tPos..tPos + n];
    assert forall i :: 0 <= i < n ==> source[sOff..][i] == s[i] && target[tPos..][i] == t[i];
  }

  /** No agreement of block i with the target at tPos is longer than `len`, short ones aside. */
  ghost predicate Covered(source: seq<byte>, i: nat, target: seq<byte>, tPos: nat, len: nat) {
    forall n: nat :: NHASH <= n && Agree(source, i * NHASH, target, tPos, n) ==> n <= len
  }

  /** A block that agrees with the target on NHASH bytes is on the chain that is searched. */
  lemma AgreeingBlockIsLinked(source: seq<byte>, heads: seq<int>, entries: seq<HashEntry>, mask: nat,
                              target: seq<byte>, tPos: nat, i: nat, n: nat)
    requires EntriesOk(source, entries) && Linked(source, heads, entries, mask) && i < |entries|
    requires NHASH <= n && Agree(source, i * NHASH, target, tPos, n)
    ensures var slot := BitAnd(HashOf(target[tPos..tPos + NHASH]), mask);
            slot <= mask && InChain(entries, heads[slot], i + 1)
  {
    hide BitAnd, HashOf, InChain;
    assert Block(source, i) == source[i * NHASH..i * NHASH + n][..NHASH] == target[tPos..tPos + n][..NHASH];
    assert target[tPos..tPos + n][..NHASH] == target[tPos..tPos + NHASH];
  }

  /** The search of one target position: the longest agreement with any block of the source. */
  method FindBest(source: seq<byte>, target: seq<byte>, heads: array<int>, entries: seq<HashEntry>, mask: nat, tPos: nat)
    returns (bestLen: nat, bestOff: nat)
    requires Table(source, heads[..], entries, mask) && tPos <= |target|
    ensures bestLen > 0 ==> NHASH <= bestLen && bestOff % NHASH == 0 && Agree(source, bestOff, target, tPos, bestLen)
    ensures forall i: nat :: Covered(source, i, target, tPos, bestLen)
  {
    bestLen, bestOff := 0, 0;
    if tPos + NHASH <= |target| {
      var h := RollingHash(target[tPos..tPos + NHASH]);
      BitAndBounds(h, mask);
      var idx := BitAnd(h, mask);
      var ei := heads[idx];
      ghost var head := ei;
      while ei > 0
        invariant 0 <= ei <= |entries|
        invariant bestLen > 0 ==> NHASH <= bestLen && bestOff % NHASH == 0 && Agree(source, bestOff, target, tPos, bestLen)
        invariant forall i :: 0 <= i < |entries| && InChain(entries, head, i + 1) ==>
          InChain(entries, ei, i + 1) || Covered(source, i, target, tPos, bestLen)
        decreases ei
      {
        ghost var was := bestLen;
        var e := entries[ei - 1];
        var sOff := e.offset;
        var ml := MatchLen(source[sOff..], target[tPos..]);
        forall n: nat | Agree(source, sOff, target, tPos, n) ensures n <= ml {
          MatchLenIsLongest(source, sOff, target, tPos, ml, n);
        }
        if sOff + NHASH <= |source| && ml >= NHASH {
          if ml > bestLen {
            bestLen, bestOff := ml, sOff;
            assert source[sOff..sOff + ml] == source[sOff..][..ml];
            assert target[tPos..tPos + ml] == target[tPos..][..ml];
          }
        }
        assert Covered(source, ei - 1, target, tPos, bestLen);
        ghost var here := ei;
        ei := e.next + 1;
        forall i | 0 <= i < |entries| && InChain(entries, head, i + 1)
          ensures InChain(entries, ei, i + 1) || Covered(source, i, target, tPos, bestLen)
        {
          assert InChain(entries, here, i + 1) || Covered(source, i, target, tPos, was);
        }
      }
      forall i | 0 <= i < |entries| ensures Covered(source, i, target, tPos, bestLen) {
        forall n: nat | NHASH <= n && Agree(source, i * NHASH, target, tPos, n) ensures n <= bestLen {
          AgreeingBlockIsLinked(source, heads[..], entries, mask, target, tPos, i, n);
          assert InChain(entries, head, i + 1) && !InChain(entries, ei, i + 1);
          assert Covered(source, i, target, tPos, bestLen);
        }
      }
    }
  }

  // ----- emitting the delta -----

  /** No block of the source agrees with the target there on more bytes than so many, short agreements aside. */
  ghost predicate Longest(source: seq<byte>, target: seq<byte>, tPos: nat, len: nat) {
    forall i: nat :: Covered(source, i, target, tPos, len)
  }

  /** The last command is the choice for its place in the target: a longest copy of blocks, or else all the bytes where
      there is none. */
  ghost predicate Chosen(source: seq<byte>, target: seq<byte>, before: seq<Command>, c: Command)
    requires AllInSource(source, before)
  {
    var p := |Meaning(source, before)|;
    match c
    case Copy(cnt, offset) => 16 <= cnt && offset % 16 == 0 && Longest(source, target, p, cnt)
    case Insert(bytes) =>
      && bytes != [] && (before != [] ==> before[|before| - 1].Copy?)
      && forall q :: p <= q < p + |bytes| ==> Longest(source, target, q, 0)
  }

  /** Every command is the choice for its place. */
  ghost predicate Greedy(source: seq<byte>, target: seq<byte>, cs: seq<Command>)
    requires AllInSource(source, cs)
  {
    forall k :: 0 <= k < |cs| ==> Chosen(source, target, cs[..k], cs[k])
  }

  /** The pending bytes are such that no block agrees with the target anywhere there. */
  ghost predicate Choosing(source: seq<byte>, target: seq<byte>, tPos: nat, pending: seq<byte>, cs: seq<Command>)
    requires AllInSource(source, cs)
  {
    && Greedy(source, target, cs) && (cs != [] ==> cs[|cs| - 1].Copy?)
    && |Meaning(source, cs)| + |pending| == tPos
    && forall q :: |Meaning(source, cs)| <= q < tPos ==> Longest(source, target, q, 0)
  }

  lemma GreedyAppend(source: seq<byte>, target: seq<byte>, cs: seq<Command>, c: Command)
    requires AllInSource(source, cs) && InSource(source, c) && Greedy(source, target, cs) && Chosen(source, target, cs, c)
    ensures AllInSource(source, cs + [c]) && Greedy(source, target, cs + [c])
  {
    hide Chosen;
    forall k | 0 <= k < |cs + [c]| ensures Chosen(source, target, (cs + [c])[..k], (cs + [c])[k]) {
      assert (cs + [c])[..k] == cs[..k];
      assert cs[..|cs|] == cs;
    }
  }

  lemma ChooseFlush(source: seq<byte>, target: seq<byte>, tPos: nat, pending: seq<byte>, cs: seq<Command>) returns (all: seq<Command>)
    requires AllInSource(source, cs) && Choosing(source, target, tPos, pending, cs)
    ensures all == if |pending| > 0 then cs + [Insert(pending)] else cs
    ensures AllInSource(source, all) && Greedy(source, target, all) && |Meaning(source, all)| == tPos
  {
    hide Longest, Greedy, Meaning;
    all := cs;
    if |pending| > 0 {
      MeaningAppend(source, cs, Insert(pending));
      GreedyAppend(source, target, cs, Insert(pending));
      all := cs + [Insert(pending)];
    }
  }

  lemma ChooseCopy(source: seq<byte>, target: seq<byte>, tPos: nat, cs: seq<Command>, cnt: nat, offset: nat)
    requires AllInSource(source, cs) && Greedy(source, target, cs) && |Meaning(source, cs)| == tPos
    requires offset + cnt <= |source| && offset % NHASH == 0 && NHASH <= cnt && Longest(source, target, tPos, cnt)
    ensures AllInSource(source, cs + [Copy(cnt, offset)]) && Choosing(source, target, tPos + cnt, [], cs + [Copy(cnt, offset)])
  {
    hide Longest, Greedy, Meaning;
    MeaningAppend(source, cs, Copy(cnt, offset));
    GreedyAppend(source, target, cs, Copy(cnt, offset));
  }

  lemma ChooseByte(source: seq<byte>, target: seq<byte>, tPos: nat, pending: seq<byte>, cs: seq<Command>, b: byte)
    requires AllInSource(source, cs) && Choosing(source, target, tPos, pending, cs) && Longest(source, target, tPos, 0)
    ensures Choosing(source, target, tPos + 1, pending + [b], cs)
  {
    hide Longest, Greedy, Meaning;
  }

  /** A delta with its commands written out: header, commands and trailer, where every command is the choice for its place. */
  ghost predicate IsGreedy(source: seq<byte>, target: seq<byte>, delta: seq<byte>) {
    exists cs :: AllInSource(source, cs) && Greedy(source, target, cs) && Meaning(source, cs) == target
                 && delta == Header(target) + WrittenAll(cs) + Trailer(target)
  }

  lemma AllChosen(source: seq<byte>, target: Slice, buf: seq<byte>, cs: seq<Command>)
    requires Emitted(source, target, |target|, buf, [], cs) && Greedy(source, target, cs)
    ensures IsGreedy(source, target, buf + Trailer(target))
  {
    hide Greedy, Meaning, WrittenAll, Header, Trailer;
    assert target[..|target|] == target && Meaning(source, cs) + [] == Meaning(source, cs);
  }

  const SMALL: nat := 0x100_0000 // 64^4

  /** What the emitting loop keeps: the buffer holds the header and the commands so far, and these and
      the pending bytes build the target up to tPos. */
  ghost predicate Emitted(source: seq<byte>, target: seq<byte>, tPos: nat, buf: seq<byte>, pending: seq<byte>, cs: seq<Command>) {
    && tPos <= |target|
    && buf == Header(target) + WrittenAll(cs)
    && AllInSource(source, cs) && (forall i :: 0 <= i < |cs| ==> Sizes(cs[i]))
    && Meaning(source, cs) + pending == target[..tPos]
  }

  /** For small inputs the buffer stays within the target position and the header. */
  ghost predicate Budget(source: seq<byte>, target: seq<byte>, tPos: nat, buf: seq<byte>, pending: seq<byte>) {
    |source| < SMALL && |target| < SMALL ==> |buf| + |pending| <= 5 + tPos
  }

  lemma WrittenAppend(cs: seq<Command>, c: Command)
    ensures WrittenAll(cs + [c]) == WrittenAll(cs) + Written(c)
  {
    assert (cs + [c])[..|cs|] == cs;
  }

  lemma EmitCommand(source: seq<byte>, target: seq<byte>, tPos: nat, buf: seq<byte>, pending: seq<byte>, cs: seq<Command>,
                    c: Command, tPos': nat, pending': seq<byte>)
    requires Emitted(source, target, tPos, buf, pending, cs)
    requires InSource(source, c) && Sizes(c) && tPos <= tPos' <= |target|
    requires pending + target[tPos..tPos'] == Effect(source, c) + pending'
    ensures Emitted(source, target, tPos', buf + Written(c), pending', cs + [c])
  {
    hide WrittenAll, Written, Meaning, Header;
    WrittenAppend(cs, c);
    MeaningAppend(source, cs, c);
    assert buf + Written(c) == Header(target) + (WrittenAll(cs) + Written(c));
    assert target[..tPos'] == target[..tPos] + target[tPos..tPos'];
    calc {
      Meaning(source, cs + [c]) + pending';
      Meaning(source, cs) + (Effect(source, c) + pending');
      Meaning(source, cs) + (pending + target[tPos..tPos']);
      (Meaning(source, cs) + pending) + target[tPos..tPos'];
    }
  }

  /** The closure `flushInsert`. */
  method FlushInsert(buf: seq<byte>, pending: seq<byte>) returns (r: seq<byte>)
    requires |pending| < TWO_64
    ensures r == if |pending| > 0 then buf + Written(Insert(pending)) else buf
    ensures |pending| < SMALL ==> |r| <= |buf| + |pending| + 5
  {
    r := buf;
    if |pending| > 0 {
      EncodeSize(|pending|);
      r := AppendInt(r, |pending|);
      r := r + [INSERT];
      r := r + pending;
      assert r == buf + (Encode(|pending|) + [INSERT] + pending);
    }
  }

  method AppendCopy(buf: seq<byte>, cnt: nat, offset: nat) returns (r: seq<byte>)
    requires cnt < TWO_64 && offset < TWO_64
    ensures r == buf + Written(Copy(cnt, offset))
    ensures cnt < SMALL && offset < SMALL ==> |r| <= |buf| + 10
  {
    EncodeSize(cnt);
    EncodeSize(offset);
    r := AppendInt(buf, cnt);
    r := r + [COPY];
    r := AppendInt(r, offset);
    r := r + [COMMA];
    assert r == buf + (Encode(cnt) + [COPY] + Encode(offset) + [COMMA]);
  }

  method AppendHeader(target: Slice) returns (buf: seq<byte>)
    ensures buf == Header(target)
    ensures |target| < SMALL ==> |buf| <= 5
  {
    EncodeSize(|target|);
    buf := AppendInt([], |target|);
    buf := buf + [NEWLINE];
  }

  method AppendTrailer(buf: seq<byte>, target: Slice) returns (r: seq<byte>)
    ensures r == buf + Trailer(target)
    ensures |buf| < |r| <= |buf| + 7
  {
    var sum := Checksum(target);
    EncodeSize(sum);
    r := AppendInt(buf, sum);
    r := r + [DONE];
    assert r == buf + (Encode(sum) + [DONE]);
  }

  method EmitMatches(source: Slice, target: Slice, heads: array<int>, entries: seq<HashEntry>, mask: nat)
    returns (buf: seq<byte>)
    requires Table(source, heads[..], entries, mask)
    ensures buf != [] && Applied(source, buf) == Ok(target) && IsGreedy(source, target, buf)
    ensures |source| < SMALL && |target| < SMALL ==> |buf| <= |target| + 17
  {
    hide Emitted, Written, WrittenAll, Meaning, Header, Trailer, Table, Covered, Applied, Choosing, Greedy, IsGreedy, AllInSource;
    buf := AppendHeader(target);
    var pending: seq<byte> := [];
    var tPos := 0;
    ghost var cs: seq<Command> := [];
    NothingEmitted(source, target);
    NothingIsChosen(source, target);
    while tPos < |target|
      invariant 0 <= tPos <= |target| && |pending| <= tPos
      invariant Emitted(source, target, tPos, buf, pending, cs) && AllInSource(source, cs)
      invariant Choosing(source, target, tPos, pending, cs)
      invariant Budget(source, target, tPos, buf, pending)
      decreases |target| - tPos
    {
      var bestLen, bestOff := FindBest(source, target, heads, entries, mask, tPos);
      if bestLen >= NHASH {
        var flushed := FlushInsert(buf, pending);
        if |pending| > 0 {
          EmitPending(source, target, tPos, buf, pending, cs);
        }
        cs := ChooseFlush(source, target, tPos, pending, cs);
        pending := [];
        buf := AppendCopy(flushed, bestLen, bestOff);
        EmitCopy(source, target, tPos, flushed, cs, bestLen, bestOff);
        ChooseCopy(source, target, tPos, cs, bestLen, bestOff);
        cs := cs + [Copy(bestLen, bestOff)];
        tPos := tPos + bestLen;
      } else {
        EmitByte(source, target, tPos, buf, pending, cs);
        ChooseByte(source, target, tPos, pending, cs, target[tPos]);
        pending := pending + [target[tPos]];
        tPos := tPos + 1;
      }
    }
    var flushed := FlushInsert(buf, pending);
    if |pending| > 0 {
      EmitPending(source, target, tPos, buf, pending, cs);
    }
    cs := ChooseFlush(source, target, tPos, pending, cs);
    buf := AppendTrailer(flushed, target);
    AllEmitted(source, target, flushed, cs);
    AllChosen(source, target, flushed, cs);
  }

  lemma NothingEmitted(source: seq<byte>, target: seq<byte>)
    ensures Emitted(source, target, 0, Header(target), [], [])
  {
  }

  lemma EmitPending(source: seq<byte>, target: Slice, tPos: nat, buf: seq<byte>, pending: seq<byte>, cs: seq<Command>)
    requires Emitted(source, target, tPos, buf, pending, cs) && |pending| <= tPos
    ensures Emitted(source, target, tPos, buf + Written(Insert(pending)), [], cs + [Insert(pending)])
  {
    EmitCommand(source, target, tPos, buf, pending, cs, Insert(pending), tPos, []);
  }

  lemma EmitCopy(source: Slice, target: Slice, tPos: nat, buf: seq<byte>, cs: seq<Command>, cnt: nat, offset: nat)
    requires Emitted(source, target, tPos, buf, [], cs) && Agree(source, offset, target, tPos, cnt)
    ensures Emitted(source, target, tPos + cnt, buf + Written(Copy(cnt, offset)), [], cs + [Copy(cnt, offset)])
  {
    var copied := source[offset..offset + cnt];
    assert [] + target[tPos..tPos + cnt] == copied + [];
    hide Emitted, Written;
    EmitCommand(source, target, tPos, buf, [], cs, Copy(cnt, offset), tPos + cnt, []);
  }

  lemma EmitByte(source: seq<byte>, target: seq<byte>, tPos: nat, buf: seq<byte>, pending: seq<byte>, cs: seq<Command>)
    requires Emitted(source, target, tPos, buf, pending, cs) && tPos < |target|
    ensures Emitted(source, target, tPos + 1, buf, pending + [target[tPos]], cs)
  {
    assert target[..tPos + 1] == target[..tPos] + [target[tPos]];
    assert Meaning(source, cs) + (pending + [target[tPos]]) == (Meaning(source, cs) + pending) + [target[tPos]];
  }

  lemma AllEmitted(source: Slice, target: Slice, buf: seq<byte>, cs: seq<Command>)
    requires Emitted(source, target, |target|, buf, [], cs)
    ensures Applied(source, buf + Trailer(target)) == Ok(target)
  {
    hide Applied, WrittenAll, Meaning, Header, Trailer;
    assert target[..|target|] == target && Meaning(source, cs) + [] == Meaning(source, cs);
    WrittenIsApplied(source, target, cs, buf + Trailer(target));
  }

  /** The delta for a source too short to match: the target, inserted as a whole. */
  method CreateInsertAll(source: Slice, target: Slice) returns (buf: seq<byte>)
    requires |target| > 0
    ensures buf != [] && Applied(source, buf) == Ok(target) && (|source| < NHASH ==> IsGreedy(source, target, buf))
    ensures |target| < SMALL ==> |buf| <= |target| + 17
  {
    hide Emitted, Written, WrittenAll, Meaning, Header, Trailer, Applied, IsGreedy, Greedy;
    buf := AppendHeader(target);
    NothingEmitted(source, target);
    EmitCommandWhole(source, target, buf);
    buf := FlushInsert(buf, target);
    AllEmitted(source, target, buf, [Insert(target)]);
    if |source| < NHASH {
      InsertIsChosen(source, target);
      AllChosen(source, target, buf, [Insert(target)]);
    }
    buf := AppendTrailer(buf, target);
  }

  /** A source without a block leaves no choice. */
  lemma InsertIsChosen(source: seq<byte>, target: seq<byte>)
    requires |source| < NHASH && target != []
    ensures Greedy(source, target, [Insert(target)])
  {
    hide Meaning;
    assert [Insert(target)][..0] == [];
  }

  lemma NothingIsChosen(source: seq<byte>, target: seq<byte>)
    ensures Greedy(source, target, []) && Choosing(source, target, 0, [], [])
  {
  }

  lemma EmitCommandWhole(source: Slice, target: Slice, buf: seq<byte>)
    requires Emitted(source, target, 0, buf, [], [])
    ensures Emitted(source, target, |target|, buf + Written(Insert(target)), [], [Insert(target)])
  {
    hide Written;
    EmitCommand(source, target, 0, buf, [], [], Insert(target), |target|, []);
    assert [] + [Insert(target)] == [Insert(target)];
  }

  /** For all contents: applying the delta to the source gives the target. Its commands copy a longest agreement with a
      block of the source wherever there is one, and insert the bytes in between; and a delta of small contents is not much
      longer than the target. */
  method Create(source: Slice, target: Slice) returns (delta: seq<byte>)
    ensures delta != [] && Applied(source, delta) == Ok(target) && IsGreedy(source, target, delta)
    ensures |source| < SMALL && |target| < SMALL ==> |delta| <= |target| + 17
  {
    hide Applied, Emitted, Header, Trailer, IsGreedy, Greedy;
    if |target| == 0 {
      delta := AppendHeader(target);
      NothingEmitted(source, target);
      NothingIsChosen(source, target);
      AllChosen(source, target, delta, []);
      AllEmitted(source, target, delta, []);
      delta := AppendTrailer(delta, target);
      return;
    }
    if |source| < NHASH {
      delta := CreateInsertAll(source, target);
      return;
    }
    var heads, entries, mask := BuildHashTable(source);
    delta := EmitMatches(source, target, heads, entries, mask);
  }

  /** What the first commands build stands in front, and every command builds something. */
  lemma {:induction false} MeaningStarts(source: seq<byte>, target: seq<byte>, cs: seq<Command>, k: nat)
    requires AllInSource(source, cs) && Greedy(source, target, cs) && k < |cs|
    ensures var before, upTo, all := Meaning(source, cs[..k]), Meaning(source, cs[..k + 1]), Meaning(source, cs);
            && |upTo| <= |all| && all[..|upTo|] == upTo && upTo == before + Effect(source, cs[k])
            && |before| < |upTo| && (k + 1 < |cs| ==> |upTo| < |all|)
    decreases |cs|
  {
    var init, last := cs[..|cs| - 1], cs[|cs| - 1];
    LastBuilds(source, target, cs);
    hide Greedy, Chosen, Meaning, Effect;
    if k == |cs| - 1 {
      assert cs[..k + 1] == cs;
    } else {
      GreedyInit(source, target, cs);
      MeaningStarts(source, target, init, k);
      assert init[..k] == cs[..k] && init[..k + 1] == cs[..k + 1];
      StartStays(Meaning(source, cs[..k + 1]), Meaning(source, init), Effect(source, last));
    }
  }

  lemma StartStays(upTo: seq<byte>, all: seq<byte>, more: seq<byte>)
    requires |upTo| <= |all| && all[..|upTo|] == upTo && more != []
    ensures |upTo| < |all + more| && (all + more)[..|upTo|] == upTo
  {
    assert (all + more)[..|upTo|] == all[..|upTo|];
  }

  lemma LastBuilds(source: seq<byte>, target: seq<byte>, cs: seq<Command>)
    requires AllInSource(source, cs) && Greedy(source, target, cs) && cs != []
    ensures var c := cs[|cs| - 1]; Effect(source, c) != [] && Meaning(source, cs) == Meaning(source, cs[..|cs| - 1]) + Effect(source, c)
  {
    ChosenAt(source, target, cs, |cs| - 1);
    hide Greedy, Longest;
  }

  lemma GreedyInit(source: seq<byte>, target: seq<byte>, cs: seq<Command>)
    requires AllInSource(source, cs) && Greedy(source, target, cs) && cs != []
    ensures Greedy(source, target, cs[..|cs| - 1])
  {
    hide Chosen;
    var init := cs[..|cs| - 1];
    assert forall k :: 0 <= k < |init| ==> init[..k] == cs[..k] && init[k] == cs[k];
  }

  lemma OneCommand(c: Command)
    ensures WrittenAll([c]) == Written(c)
  {
    assert [c][..0] == [] && [] + Written(c) == Written(c);
  }

  /** The delta of a content against itself is one copy of all of it. */
  lemma SameIsOneCopy(source: Slice, delta: seq<byte>)
    requires |source| >= 16 && IsGreedy(source, source, delta)
    ensures delta == Header(source) + Written(Copy(|source|, 0)) + Trailer(source)
  {
    hide Written, WrittenAll, Header, Trailer, Greedy, Meaning;
    var cs: seq<Command> :| AllInSource(source, cs) && Greedy(source, source, cs) && Meaning(source, cs) == source
              && delta == Header(source) + WrittenAll(cs) + Trailer(source);
    assert cs != [] by { MeaningNothing(source); }
    ChosenAt(source, source, cs, 0);
    FirstIsWhole(source, cs[..0], cs[0]);
    MeaningStarts(source, source, cs, 0);
    MeaningOne(source, cs[0]);
    assert cs[..1] == [cs[0]];
    assert |cs| == 1;
    assert cs == [cs[0]];
    OneCommand(cs[0]);
  }

  lemma MeaningNothing(source: seq<byte>)
    ensures Meaning(source, []) == []
  {
  }

  lemma FirstIsWhole(source: seq<byte>, none: seq<Command>, c: Command)
    requires |source| >= NHASH && none == [] && InSource(source, c) && Chosen(source, source, none, c)
    ensures c == Copy(|source|, 0)
  {
    MeaningNothing(source);
    WholeIsLongest(source, 0);
    WholeIsLongest(source, if c.Copy? then c.cnt else 0);
    hide Longest;
  }

  lemma WholeIsLongest(source: seq<byte>, len: nat)
    requires |source| >= NHASH
    ensures Longest(source, source, 0, len) ==> |source| <= len
  {
    assert Agree(source, 0 * NHASH, source, 0, |source|);
    if Longest(source, source, 0, len) { assert Covered(source, 0, source, 0, len); }
  }

  /** When no block of the source is found anywhere in the target, the delta is one insertion. */
  lemma NothingSharedIsOneInsert(source: seq<byte>, target: seq<byte>, delta: seq<byte>)
    requires target != [] && IsGreedy(source, target, delta)
    requires forall q: nat :: q < |target| ==> Longest(source, target, q, 0)
    ensures delta == Header(target) + Written(Insert(target)) + Trailer(target)
  {
    hide Written, WrittenAll, Header, Trailer;
    var cs: seq<Command> :| AllInSource(source, cs) && Greedy(source, target, cs) && Meaning(source, cs) == target
              && delta == Header(target) + WrittenAll(cs) + Trailer(target);
    assert cs != [];
    forall k: nat | k < |cs| ensures cs[k].Insert? {
      CopiesAreShared(source, target, cs, k);
    }
    hide Meaning, Longest, Greedy;
    if |cs| > 1 { AfterInsert(source, target, cs, 0); }
    assert cs == [cs[0]];
    MeaningOne(source, cs[0]);
    OneCommand(cs[0]);
  }

  lemma AfterInsert(source: seq<byte>, target: seq<byte>, cs: seq<Command>, k: nat)
    requires AllInSource(source, cs) && Greedy(source, target, cs) && k + 1 < |cs| && cs[k].Insert?
    ensures cs[k + 1].Copy?
  {
    hide Greedy, Meaning, Longest;
    ChosenAt(source, target, cs, k + 1);
    assert cs[..k + 1][k] == cs[k];
  }

  lemma MeaningOne(source: seq<byte>, c: Command)
    requires InSource(source, c)
    ensures Meaning(source, [c]) == Effect(source, c)
  {
    assert [c][..0] == [];
  }

  /** A copy is one of a block that the target has there. */
  lemma CopiesAreShared(source: seq<byte>, target: seq<byte>, cs: seq<Command>, k: nat)
    requires AllInSource(source, cs) && Greedy(source, target, cs) && Meaning(source, cs) == target && k < |cs|
    ensures var q := |Meaning(source, cs[..k])|; cs[k].Copy? ==> q < |target| && !Longest(source, target, q, 0)
  {
    hide Greedy, Meaning;
    MeaningStarts(source, target, cs, k);
    if cs[k].Copy? {
      var q, cnt, i := |Meaning(source, cs[..k])|, cs[k].cnt, cs[k].offset / NHASH;
      assert Chosen(source, target, cs[..k], cs[k]) by { ChosenAt(source, target, cs, k); }
      assert target[q..q + cnt] == target[..q + cnt][q..] == Effect(source, cs[k]);
      assert Agree(source, i * NHASH, target, q, cnt);
      assert !Covered(source, i, target, q, 0);
    }
  }

  lemma ChosenAt(source: seq<byte>, target: seq<byte>, cs: seq<Command>, k: nat)
    requires AllInSource(source, cs) && Greedy(source, target, cs) && k < |cs|
    ensures Chosen(source, target, cs[..k], cs[k])
  {
  }
}
