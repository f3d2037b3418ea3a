/** Sorting by a text key, bytewise (sort.Slice and sort.Strings in internal/deck/marshal.go). The source's sort is not
    stable, so that what it makes of equal keys is open; where keys tell everything apart there is only one result. */
module Sorting {
  /** Bytewise order of texts. */
  predicate AtMost(a: string, b: string) {
    a == "" || (b != "" && (a[0] < b[0] || (a[0] == b[0] && AtMost(a[1..], b[1..]))))
  }

  lemma {:induction false} AtMostIsTotal(a: string, b: string)
    ensures AtMost(a, b) || AtMost(b, a)
  {
    if a != "" && b != "" && a[0] == b[0] { AtMostIsTotal(a[1..], b[1..]); }
  }

  lemma {:induction false} AtMostIsTransitive(a: string, b: string, c: string)
    requires AtMost(a, b) && AtMost(b, c)
    ensures AtMost(a, c)
  {
    if a != "" && a[0] == b[0] == c[0] { AtMostIsTransitive(a[1..], b[1..], c[1..]); }
  }

  lemma {:induction false} AtMostIsAntisymmetric(a: string, b: string)
    requires AtMost(a, b) && AtMost(b, a)
    ensures a == b
  {
    if a != "" {
      AtMostIsAntisymmetric(a[1..], b[1..]);
      assert a == [a[0]] + a[1..] && b == [b[0]] + b[1..];
    }
  }

  /** The first place where two texts differ decides, and a text comes behind those that it goes on from. */
  lemma {:induction false} FirstDifferenceDecides(a: string, b: string)
    ensures AtMost(a, b) <==> a <= b || exists i: nat :: i < |a| && i < |b| && a[..i] == b[..i] && a[i] < b[i]
  {
    if a != "" && b != "" && a[0] == b[0] {
      FirstDifferenceDecides(a[1..], b[1..]);
      assert a == [a[0]] + a[1..] && b == [b[0]] + b[1..];
      assert a <= b <==> a[1..] <= b[1..];
      if i: nat :| i < |a[1..]| && i < |b[1..]| && a[1..][..i] == b[1..][..i] && a[1..][i] < b[1..][i] {
        assert a[..i + 1] == [a[0]] + a[1..][..i] && b[..i + 1] == [b[0]] + b[1..][..i];
        assert a[i + 1] < b[i + 1];
      }
      if i: nat :| i < |a| && i < |b| && a[..i] == b[..i] && a[i] < b[i] {
        assert i > 0;
        assert a[1..][..i - 1] == a[..i][1..] && b[1..][..i - 1] == b[..i][1..];
        assert a[1..][i - 1] < b[1..][i - 1];
      }
    } else if a != "" && b != "" {
      assert a[0] < b[0] ==> a[..0] == b[..0];
      assert !(a <= b);
    }
  }

  ghost predicate Ordered<X(!new)>(xs: seq<X>, key: X -> string) {
    forall i, j :: 0 <= i < j < |xs| ==> AtMost(key(xs[i]), key(xs[j]))
  }

  /** A sorted copy. */
  method SortBy<X(!new)>(xs: seq<X>, key: X -> string) returns (ys: seq<X>)
    ensures Ordered(ys, key) && multiset(ys) == multiset(xs)
  {
    ys := [];
    for i := 0 to |xs|
      invariant Ordered(ys, key) && multiset(ys) == multiset(xs[..i])
    {
      var k := 0;
      while k < |ys| && AtMost(key(ys[k]), key(xs[i]))
        invariant 0 <= k <= |ys| && forall j :: 0 <= j < k ==> AtMost(key(ys[j]), key(xs[i]))
      {
        k := k + 1;
      }
      InsertKeepsOrder(ys, xs[i], k, key);
      assert ys == ys[..k] + ys[k..] && xs[..i + 1] == xs[..i] + [xs[i]];
      ys := ys[..k] + [xs[i]] + ys[k..];
    }
    assert xs[..|xs|] == xs;
  }

  lemma InsertKeepsOrder<X(!new)>(ys: seq<X>, x: X, k: nat, key: X -> string)
    requires Ordered(ys, key) && k <= |ys| && forall j :: 0 <= j < k ==> AtMost(key(ys[j]), key(x))
    requires k < |ys| ==> !AtMost(key(ys[k]), key(x))
    ensures Ordered(ys[..k] + [x] + ys[k..], key)
  {
    forall j | k <= j < |ys| ensures AtMost(key(x), key(ys[j])) {
      AtMostIsTotal(key(x), key(ys[k]));
      if k < j { AtMostIsTransitive(key(x), key(ys[k]), key(ys[j])); }
    }
  }

  /** The key tells apart what is different. */
  ghost predicate TellsApart<X(!new)>(xs: seq<X>, key: X -> string) {
    forall x, y :: x in xs && y in xs && key(x) == key(y) ==> x == y
  }

  lemma LastOf<X>(xs: seq<X>)
    requires xs != []
    ensures multiset(xs[..|xs| - 1]) == multiset(xs) - multiset{xs[|xs| - 1]} && xs[|xs| - 1] in multiset(xs)
  {
    assert xs == xs[..|xs| - 1] + [xs[|xs| - 1]];
  }

  lemma LastIsGreatest<X(!new)>(xs: seq<X>, x: X, key: X -> string)
    requires Ordered(xs, key) && x in xs
    ensures x == xs[|xs| - 1] || AtMost(key(x), key(xs[|xs| - 1]))
  {
    var i :| 0 <= i < |xs| && xs[i] == x;
  }

  lemma SameLast<X(!new)>(xs: seq<X>, ys: seq<X>, key: X -> string)
    requires Ordered(xs, key) && Ordered(ys, key) && multiset(xs) == multiset(ys) && TellsApart(xs, key) && xs != [] && ys != []
    ensures xs[|xs| - 1] == ys[|ys| - 1]
  {
    hide Ordered, AtMost;
    var x, y := xs[|xs| - 1], ys[|ys| - 1];
    assert x in multiset(ys) && y in multiset(xs);
    LastIsGreatest(ys, x, key);
    LastIsGreatest(xs, y, key);
    if x != y { AtMostIsAntisymmetric(key(x), key(y)); }
  }

  lemma WithoutLast<X(!new)>(xs: seq<X>, key: X -> string)
    requires Ordered(xs, key) && TellsApart(xs, key) && xs != []
    ensures Ordered(xs[..|xs| - 1], key) && TellsApart(xs[..|xs| - 1], key)
  {
    hide AtMost;
    assert forall z :: z in xs[..|xs| - 1] ==> z in xs;
  }

  lemma SameMembers<X(!new)>(xs: seq<X>, ys: seq<X>, key: X -> string)
    requires multiset(xs) == multiset(ys) && TellsApart(xs, key)
    ensures TellsApart(ys, key) && |xs| == |ys|
  {
    assert |multiset(xs)| == |xs| && |multiset(ys)| == |ys|;
    assert forall y :: y in ys ==> y in multiset(xs);
  }

  lemma SameEnds<X>(xs: seq<X>, ys: seq<X>)
    requires |xs| == |ys| > 0 && xs[..|xs| - 1] == ys[..|ys| - 1] && xs[|xs| - 1] == ys[|ys| - 1]
    ensures xs == ys
  {
    assert xs == xs[..|xs| - 1] + [xs[|xs| - 1]] && ys == ys[..|ys| - 1] + [ys[|ys| - 1]];
  }

  /** Then there is only one sorted order. */
  lemma {:induction false} SortIsUnique<X(!new)>(xs: seq<X>, ys: seq<X>, key: X -> string)
    requires Ordered(xs, key) && Ordered(ys, key) && multiset(xs) == multiset(ys) && TellsApart(xs, key)
    ensures xs == ys
    decreases |xs|
  {
    hide Ordered, AtMost, TellsApart;
    SameMembers(xs, ys, key);
    if xs != [] {
      LastOf(xs);
      LastOf(ys);
      SameLast(xs, ys, key);
      WithoutLast(xs, key);
      WithoutLast(ys, key);
      var us, vs := xs[..|xs| - 1], ys[..|ys| - 1];
      assert multiset(us) == multiset(vs);
      SortIsUnique(us, vs, key);
      SameEnds(xs, ys);
    }
  }
}
