/** The cache of expanded contents (internal/content/cache.go): an index by rid and a list from the last used entry to the
    one used longest ago, with the same entries, and a count of the bytes they hold, which stays within a limit. */
module ContentCache {
  import opened Bytes
  import opened ContentChains

  datatype Entry = Entry(rid: Rid, data: Slice)

  ghost function Total(order: seq<Entry>): nat {
    if order == [] then 0 else Total(order[..|order| - 1]) + |order[|order| - 1].data|
  }

  ghost predicate Distinct(order: seq<Entry>) {
    forall i, j :: 0 <= i < j < |order| ==> order[i].rid != order[j].rid
  }

  ghost predicate Indexes(items: map<Rid, Entry>, order: seq<Entry>) {
    && (forall e :: e in order ==> e.rid in items && items[e.rid] == e)
    && forall r: Rid :: r in items ==> items[r].rid == r && items[r] in order
  }

  /** The list without the entry of one artifact. */
  function Without(order: seq<Entry>, rid: Rid): seq<Entry> {
    if order == [] then []
    else if order[|order| - 1].rid == rid then Without(order[..|order| - 1], rid)
    else Without(order[..|order| - 1], rid) + [order[|order| - 1]]
  }

  /** The longest front part of a list that fits. */
  ghost predicate IsFit(full: seq<Entry>, maxSize: int, kept: seq<Entry>) {
    kept <= full && Total(kept) <= maxSize && (kept != full ==> Total(full[..|kept| + 1]) > maxSize)
  }

  lemma {:induction false} TotalOfPushed(e: Entry, order: seq<Entry>)
    ensures Total([e] + order) == |e.data| + Total(order)
  {
    if order == [] {
      assert [e] + order == [] + [e];
    } else {
      var init, last := order[..|order| - 1], order[|order| - 1];
      TotalOfPushed(e, init);
      assert [e] + order == ([e] + init) + [last];
    }
  }

  lemma DistinctShrinks(order: seq<Entry>)
    requires Distinct(order) && order != []
    ensures Distinct(order[..|order| - 1])
    ensures forall e :: e in order[..|order| - 1] ==> e.rid != order[|order| - 1].rid
  {
  }

  lemma {:induction false} WithoutNothing(order: seq<Entry>, rid: Rid)
    requires forall e :: e in order ==> e.rid != rid
    ensures Without(order, rid) == order
  {
    if order != [] { WithoutNothing(order[..|order| - 1], rid); }
  }

  lemma {:induction false} WithoutMembers(order: seq<Entry>, rid: Rid)
    ensures forall e :: e in Without(order, rid) <==> e in order && e.rid != rid
  {
    if order != [] {
      var init, last := order[..|order| - 1], order[|order| - 1];
      WithoutMembers(init, rid);
      assert order == init + [last];
      assert forall e :: e in order <==> e in init || e == last;
    }
  }

  lemma {:induction false} WithoutDistinct(order: seq<Entry>, rid: Rid)
    requires Distinct(order)
    ensures Distinct(Without(order, rid))
  {
    hide Distinct;
    if order != [] {
      var init, last := order[..|order| - 1], order[|order| - 1];
      DistinctShrinks(order);
      WithoutDistinct(init, rid);
      WithoutMembers(init, rid);
      DistinctGrows(Without(init, rid), last);
    } else {
      assert Without(order, rid) == order;
    }
  }

  /** Taking the entry of an artifact out of a list takes its length off. */
  lemma {:induction false} WithoutTotal(order: seq<Entry>, e: Entry)
    requires Distinct(order) && e in order
    ensures Total(Without(order, e.rid)) == Total(order) - |e.data|
  {
    hide Distinct;
    var init, last := order[..|order| - 1], order[|order| - 1];
    DistinctShrinks(order);
    assert order == init + [last];
    if last.rid == e.rid {
      WithoutNothing(init, e.rid);
    } else {
      WithoutTotal(init, e);
    }
  }

  lemma DistinctGrows(order: seq<Entry>, e: Entry)
    requires Distinct(order) && forall f :: f in order ==> f.rid != e.rid
    ensures Distinct(order + [e]) && Distinct([e] + order)
  {
    assert forall i :: 0 <= i < |order| ==> order[i] in order;
  }

  class Cache {
    var items: map<Rid, Entry>
    var order: seq<Entry>   // most recently used first
    var curSize: int
    const maxSize: int
    var hits: nat
    var misses: nat

    /** The index and the list hold the same entries, and their lengths are accounted for. */
    ghost predicate Consistent()
      reads this
    {
      Distinct(order) && Indexes(items, order) && curSize == Total(order)
    }

    ghost predicate Valid()
      reads this
    {
      Consistent() && curSize <= maxSize && maxSize > 0
    }

    constructor (maxBytes: int)
      requires maxBytes > 0
      ensures Valid() && items == map[] && maxSize == maxBytes
    {
      items, order, curSize, maxSize, hits, misses := map[], [], 0, maxBytes, 0, 0;
    }

    method MoveToFront(rid: Rid)
      requires Consistent() && rid in items
      modifies this`order
      ensures Consistent() && order == [items[rid]] + Without(old(order), rid)
    {
      hide Distinct, Total, Without;
      WithoutMembers(order, rid);
      WithoutDistinct(order, rid);
      assert items[rid] in order && items[rid].rid == rid;
      assert forall e :: e in order && e.rid == rid ==> e == items[rid];
      WithoutTotal(order, items[rid]);
      TotalOfPushed(items[rid], Without(order, rid));
      DistinctGrows(Without(order, rid), items[rid]);
      order := [items[rid]] + Without(order, rid);
    }

    /** First critical section of an expansion. */
    method Lookup(rid: Rid) returns (r: Option<Slice>)
      requires Valid()
      modifies this
      ensures Valid() && items == old(items)
      ensures r == if rid in items then Some(items[rid].data) else None
      ensures order == if rid in items then [items[rid]] + Without(old(order), rid) else old(order)
      ensures hits == old(hits) + (if rid in items then 1 else 0) && misses == old(misses) + if rid in items then 0 else 1
    {
      if rid in items {
        MoveToFront(rid);
        hits := hits + 1;
        return Some(items[rid].data);
      }
      misses := misses + 1;
      return None;
    }

    method EvictOldest()
      requires Consistent() && order != []
      modifies this`items, this`order, this`curSize
      ensures Consistent() && order == old(order)[..|old(order)| - 1]
      ensures forall r: Rid :: r in items ==> r in old(items) && items[r] == old(items)[r]
    {
      var e := order[|order| - 1];
      order := order[..|order| - 1];
      items := items - {e.rid};
      curSize := curSize - |e.data|;
      assert old(order) == order + [e];
    }

    /** Second critical section: the entry comes to the front, and the least recently used ones give way until
        the rest fits. */
    method Insert(rid: Rid, data: Slice)
      requires Valid()
      modifies this
      ensures Valid()
      ensures rid in old(items) ==> items == old(items) && order == [items[rid]] + Without(old(order), rid)
      ensures rid !in old(items) ==> IsFit([Entry(rid, data)] + old(order), maxSize, order)
      ensures forall r: Rid :: r in items ==> items[r] == Entry(rid, data) || (r in old(items) && items[r] == old(items)[r])
      ensures hits == old(hits) && misses == old(misses)
    {
      hide Distinct, Indexes, Total, Without, IsFit;
      if rid in items {
        MoveToFront(rid);
        return;
      }
      PushFront(Entry(rid, data));
      EvictToFit();
    }

    method PushFront(e: Entry)
      requires Consistent() && e.rid !in items
      modifies this`items, this`order, this`curSize
      ensures Consistent() && order == [e] + old(order) && items == old(items)[e.rid := e]
    {
      TotalOfPushed(e, order);
      DistinctGrows(order, e);
      order := [e] + order;
      items := items[e.rid := e];
      curSize := curSize + |e.data|;
    }

    method EvictToFit()
      requires Consistent() && maxSize > 0
      modifies this`items, this`order, this`curSize
      ensures Valid() && IsFit(old(order), maxSize, order)
      ensures forall r: Rid :: r in items ==> r in old(items) && items[r] == old(items)[r]
    {
      hide Distinct, Indexes;
      ghost var full := order;
      while curSize > maxSize && |order| > 0
        invariant Consistent() && order == full[..|order|] && |order| <= |full|
        invariant |order| < |full| ==> Total(full[..|order| + 1]) > maxSize
        invariant forall r: Rid :: r in items ==> r in old(items) && items[r] == old(items)[r]
        decreases |order|
      {
        EvictOldest();
      }
    }

    method Invalidate(rid: Rid)
      requires Valid()
      modifies this
      ensures Valid() && items == old(items) - {rid} && order == Without(old(order), rid)
      ensures hits == old(hits) && misses == old(misses)
    {
      hide Distinct, Total;
      WithoutMembers(order, rid);
      WithoutDistinct(order, rid);
      if rid !in items {
        WithoutNothing(order, rid);
      } else {
        WithoutTotal(order, items[rid]);
      }
      if rid in items {
        curSize := curSize - |items[rid].data|;
        order := Without(order, rid);
        items := items - {rid};
      }
    }

    method Clear()
      requires Valid()
      modifies this
      ensures Valid() && items == map[] && order == [] && hits == old(hits) && misses == old(misses)
    {
      items, order, curSize := map[], [], 0;
    }
  }
}
