/** Readers that share a cache while others store (internal/content/cache.go: `Expand` with its two critical
    sections). A schedule says who takes which step next; outside the lock, every query is a step of its own. */
module CacheRuns {
  import opened Bytes
  import opened ContentChains
  import opened DeltaCreate
  import opened ContentStore
  import opened ContentCache
  import opened CacheFetches

  type Reader = nat

  /** One uninterrupted step. A reader looks the artifact up; on a miss it follows the delta sources and loads the chain,
      one query after the other, and inserts the result; with anything in between. */
  datatype Step =
    | LookUp(reader: Reader, rid: Rid)
    | Walk(reader: Reader)
    | LoadNext(reader: Reader)
    | Insert(reader: Reader)
    | Invalidate(rid: Rid)
    | Clear
    | StoreWhole(content: Slice)
    | StoreDelta(content: Slice, src: Rid)
    | StorePhantom(uuid: string)
    | FillPhantom(rid: Rid, content: Slice)

  /** A content that a reader was given. */
  datatype Returned = Returned(rid: Rid, content: Slice)

  /** Everything in the cache, on its way there or given out is what the store expands to; and what the readers under
      way have found out is still so. */
  ghost predicate Truthful(blob: Blobs, delta: Deltas, items: map<Rid, Entry>, busy: map<Reader, Job>, fetched: map<Reader, Entry>, log: seq<Returned>) {
    && (forall r: Rid :: r in items ==> Expanded(blob, delta, r) == Some(items[r].data))
    && (forall t: Reader :: t in busy ==> Current(blob, delta, busy[t]))
    && (forall t: Reader :: t in fetched ==> Expanded(blob, delta, fetched[t].rid) == Some(fetched[t].data))
    && forall e :: e in log ==> Expanded(blob, delta, e.rid) == Some(e.content)
  }

  lemma HitIsTruthful(blob: Blobs, delta: Deltas, items: map<Rid, Entry>, busy: map<Reader, Job>, fetched: map<Reader, Entry>, log: seq<Returned>, rid: Rid)
    requires Truthful(blob, delta, items, busy, fetched, log) && rid in items
    ensures Truthful(blob, delta, items, busy, fetched, log + [Returned(rid, items[rid].data)])
  {
    hide Current;
  }

  lemma MissIsTruthful(blob: Blobs, delta: Deltas, items: map<Rid, Entry>, busy: map<Reader, Job>, fetched: map<Reader, Entry>, log: seq<Returned>,
                       t: Reader, rid: Rid)
    requires Truthful(blob, delta, items, busy, fetched, log) && rid in blob
    ensures Truthful(blob, delta, items, busy[t := Started(rid)], fetched, log)
  {
    hide Expanded;
  }

  /** A step of a reader under way. */
  lemma StepIsTruthful(blob: Blobs, delta: Deltas, items: map<Rid, Entry>, busy: map<Reader, Job>, fetched: map<Reader, Entry>, log: seq<Returned>,
                       t: Reader, o: Outcome)
    requires Truthful(blob, delta, items, busy, fetched, log) && t in busy
    requires o.Going? ==> Current(blob, delta, o.job)
    requires o.Done? ==> Expanded(blob, delta, busy[t].rid) == Some(o.content)
    ensures o.Going? ==> Truthful(blob, delta, items, busy[t := o.job], fetched, log)
    ensures o.Failed? ==> Truthful(blob, delta, items, busy - {t}, fetched, log)
    ensures o.Done? ==> Truthful(blob, delta, items, busy - {t}, fetched[t := Entry(busy[t].rid, o.content)], log)
  {
    hide Expanded, Current;
  }

  /** What was fetched may be given out, and put into the cache, also if that evicts others. */
  lemma FetchedIsTruthful(blob: Blobs, delta: Deltas, items: map<Rid, Entry>, busy: map<Reader, Job>, fetched: map<Reader, Entry>, log: seq<Returned>,
                          t: Reader, items': map<Rid, Entry>)
    requires Truthful(blob, delta, items, busy, fetched, log) && t in fetched
    requires forall r: Rid :: r in items' ==> (items'[r] == fetched[t] && r == fetched[t].rid) || (r in items && items'[r] == items[r])
    ensures Truthful(blob, delta, items', busy, fetched - {t}, log + [Returned(fetched[t].rid, fetched[t].data)])
  {
    hide Current;
  }

  /** Storing makes nothing untrue. */
  lemma StoringIsTruthful(blob: Blobs, delta: Deltas, items: map<Rid, Entry>, busy: map<Reader, Job>, fetched: map<Reader, Entry>, log: seq<Returned>,
                          blob': Blobs, delta': Deltas)
    requires Truthful(blob, delta, items, busy, fetched, log) && RowsStay(blob, delta, blob', delta')
    requires forall r: Rid :: Expanded(blob, delta, r).Some? ==> Expanded(blob', delta', r) == Expanded(blob, delta, r)
    ensures Truthful(blob', delta', items, busy, fetched, log)
  {
    hide Expanded, Current, RowsStay;
    forall t: Reader | t in busy ensures Current(blob', delta', busy[t]) { StaysCurrent(blob, delta, blob', delta', busy[t]); }
  }

  // ----- what every step does -----

  /** All that the steps change. */
  datatype State = State(blob: Blobs, delta: Deltas, phantom: set<Rid>, items: map<Rid, Entry>, order: seq<Entry>,
                         busy: map<Reader, Job>, fetched: map<Reader, Entry>, log: seq<Returned>)

  /** Whether a step can be taken: a reader does one expansion at a time, of an artifact that is there, and writers
      keep to their rules. */
  predicate IsEnabled(hash: Slice -> string, blob: Blobs, busy: map<Reader, Job>, fetched: map<Reader, Entry>, s: Step) {
    match s
    case LookUp(t, rid) => t !in busy && t !in fetched && rid in blob
    case Walk(t) => t in busy && busy[t].progress.Walking?
    case LoadNext(t) => t in busy && busy[t].progress.Loading?
    case Insert(t) => t in fetched
    case Invalidate(_) => true
    case Clear => true
    case StoreWhole(content) => |content| > 0
    case StoreDelta(content, _) => |content| > 0
    case StorePhantom(uuid) => uuid != ""
    case FillPhantom(rid, content) => rid in blob && blob[rid].data.None? && hash(content) == blob[rid].uuid
  }

  /** A hit is given out and comes to the front; a miss starts an expansion. */
  ghost predicate LooksUp(s: State, t: Reader, rid: Rid, s': State) {
    s' == if rid in s.items
          then s.(order := [s.items[rid]] + Without(s.order, rid), log := s.log + [Returned(rid, s.items[rid].data)])
          else s.(busy := s.busy[t := Started(rid)])
  }

  /** One query of a reader under way. */
  ghost predicate Fetches(s: State, t: Reader, s': State) {
    && t in s.busy
    && s' == match Queried(s.blob, s.delta, s.busy[t])
             case Going(job) => s.(busy := s.busy[t := job])
             case Failed => s.(busy := s.busy - {t})
             case Done(content) => s.(busy := s.busy - {t}, fetched := s.fetched[t := Entry(s.busy[t].rid, content)])
  }

  /** What was fetched is given out. It comes to the front of the cache, and what no longer fits goes. */
  ghost predicate Inserts(maxSize: int, s: State, t: Reader, s': State) {
    && t in s.fetched && s' == s.(items := s'.items, order := s'.order, fetched := s.fetched - {t},
                                  log := s.log + [Returned(s.fetched[t].rid, s.fetched[t].data)])
    && Indexes(s'.items, s'.order)
    && var e := s.fetched[t];
       if e.rid in s.items then s'.items == s.items && s'.order == [s.items[e.rid]] + Without(s.order, e.rid)
       else IsFit([e] + s.order, maxSize, s'.order)
  }

  /** A new row, unless the name is known. */
  ghost predicate StoresRow(s: State, row: Row, s': State) {
    if Named(s.blob, row.uuid) then s' == s
    else exists rid: Rid :: rid !in s.blob && s' == s.(blob := s.blob[rid := row], phantom := s.phantom + if row.data.None? then {rid} else {})
  }

  /** A new row with a delta that gives the content, unless the name is known, the source is not there, or the contents
      are so large that the delta may be too large. */
  ghost predicate StoresDelta(s: State, uuid: string, content: Slice, src: Rid, s': State) {
    var source := Load(s.blob, src);
    || (s' == s && (Named(s.blob, uuid) || source.None? || |source.value| >= SMALL || |content| >= SMALL))
    || (!Named(s.blob, uuid) && source.Some?
        && exists rid: Rid, bytes: Slice ::
             rid !in s.blob && Patched(source, Some(bytes)) == Some(content)
             && s' == s.(blob := s.blob[rid := Row(uuid, Some(bytes))], delta := s.delta[rid := src]))
  }

  /** What a step does. */
  ghost predicate Takes(hash: Slice -> string, maxSize: int, s: State, step: Step, s': State) {
    match step
    case LookUp(t, rid) => LooksUp(s, t, rid, s')
    case Walk(t) => Fetches(s, t, s')
    case LoadNext(t) => Fetches(s, t, s')
    case Insert(t) => Inserts(maxSize, s, t, s')
    case Invalidate(rid) => s' == s.(items := s.items - {rid}, order := Without(s.order, rid))
    case Clear => s' == s.(items := map[], order := [])
    case StoreWhole(content) => StoresRow(s, Row(hash(content), Some(content)), s')
    case StoreDelta(content, src) => StoresDelta(s, hash(content), content, src, s')
    case StorePhantom(uuid) => StoresRow(s, Row(uuid, None), s')
    case FillPhantom(rid, content) =>
      rid in s.blob && s' == s.(blob := s.blob[rid := s.blob[rid].(data := Some(content))], phantom := s.phantom - {rid})
  }

  /** The states that a schedule goes through: a step that cannot be taken is passed over. */
  ghost predicate GoesThrough(hash: Slice -> string, maxSize: int, states: seq<State>, schedule: seq<Step>) {
    && |states| == |schedule| + 1
    && forall i :: 0 <= i < |schedule| ==>
         if IsEnabled(hash, states[i].blob, states[i].busy, states[i].fetched, schedule[i])
         then Takes(hash, maxSize, states[i], schedule[i], states[i + 1]) else states[i + 1] == states[i]
  }

  class Readers {
    const store: Store
    const cache: Cache
    var busy: map<Reader, Job>
    var fetched: map<Reader, Entry>
    var log: seq<Returned>

    ghost predicate Valid()
      reads this, store, cache
    {
      && store.Valid() && cache.Valid() && SourcesThere(store.blob, store.delta)
      && Truthful(store.blob, store.delta, cache.items, busy, fetched, log)
    }

    constructor (store: Store, cache: Cache)
      requires store.Valid() && SourcesThere(store.blob, store.delta) && cache.Valid() && cache.items == map[]
      ensures Valid() && this.store == store && this.cache == cache && log == [] && busy == map[]
    {
      this.store, this.cache, busy, fetched, log := store, cache, map[], map[], [];
    }

    predicate Enabled(s: Step)
      reads this, store
    {
      IsEnabled(store.hash, store.blob, busy, fetched, s)
    }

    ghost function Now(): State
      reads this, store, cache
    {
      State(store.blob, store.delta, store.phantom, cache.items, cache.order, busy, fetched, log)
    }

    /** The first critical section: a hit is given out at once. */
    method DoLookUp(t: Reader, rid: Rid)
      requires Valid() && Enabled(LookUp(t, rid))
      modifies this`busy, this`log, cache
      ensures Valid() && LooksUp(old(Now()), t, rid, Now())
    {
      hide Expanded, Truthful, Distinct, Indexes, Total, Without, SourcesThere;
      var hit := cache.Lookup(rid);
      if hit.Some? {
        HitIsTruthful(store.blob, store.delta, cache.items, busy, fetched, log, rid);
        log := log + [Returned(rid, hit.value)];
      } else {
        MissIsTruthful(store.blob, store.delta, cache.items, busy, fetched, log, t, rid);
        busy := busy[t := Started(rid)];
      }
    }

    /** Outside the lock, one query. It fails only if the store does not expand the artifact, and is done only with what
        the store expands it to. */
    method DoFetch(t: Reader) returns (o: Outcome)
      requires Valid() && t in busy
      modifies this`busy, this`fetched
      ensures Valid() && Fetches(old(Now()), t, Now())
      ensures o.Failed? ==> Expanded(store.blob, store.delta, old(busy)[t].rid).None?
      ensures o.Done? ==> Expanded(store.blob, store.delta, old(busy)[t].rid) == Some(o.content)
    {
      hide Expanded, Truthful, SourcesThere, Current, Queried;
      var job := busy[t];
      IsCurrent(store.blob, store.delta, cache.items, busy, fetched, log, t);
      if job.progress.Walking? {
        o := WalkOn(store.delta, job, store.blob);
      } else {
        o := LoadOn(store.blob, job, store.delta);
      }
      StepIsTruthful(store.blob, store.delta, cache.items, busy, fetched, log, t, o);
      match o {
        case Going(next) => busy := busy[t := next];
        case Failed => busy := busy - {t};
        case Done(content) =>
          busy := busy - {t};
          fetched := fetched[t := Entry(job.rid, content)];
      }
    }

    /** The second critical section: the fetched content is given out, whatever has happened to the cache. */
    method DoInsert(t: Reader)
      requires Valid() && Enabled(Insert(t))
      modifies this`fetched, this`log, cache
      ensures Valid() && Inserts(cache.maxSize, old(Now()), t, Now())
    {
      hide Expanded, Truthful, Distinct, Total, Without, IsFit, SourcesThere;
      var e := fetched[t];
      cache.Insert(e.rid, e.data);
      FetchedIsTruthful(store.blob, store.delta, old(cache.items), busy, fetched, log, t, cache.items);
      fetched := fetched - {t};
      log := log + [Returned(e.rid, e.data)];
    }

    /** Writers. */
    method DoStore(s: Step)
      requires Valid() && Enabled(s) && (s.StoreWhole? || s.StoreDelta? || s.StorePhantom? || s.FillPhantom?)
      modifies store
      ensures Valid() && store.Kept() && Takes(store.hash, cache.maxSize, old(Now()), s, Now())
    {
      hide Expanded, Sound, PhantomsMatch, Truthful, RowsStay, SourcesThere, Phantoms, StoresRow, StoresDelta, Named;
      ghost var blob, delta := store.blob, store.delta;
      ghost var before := Now();
      match s {
        case StoreWhole(content) =>
          var rid, uuid := store.StoreWhole(content);
          RowStored(blob, delta, rid, store.blob[rid]);
          RowIsStored(before, rid, Row(uuid, Some(content)), Now());
        case StoreDelta(content, src) =>
          DoStoreDelta(content, src);
        case StorePhantom(uuid) =>
          var rid := store.StorePhantom(uuid);
          RowStored(blob, delta, rid, store.blob[rid]);
          RowIsStored(before, rid, Row(uuid, None), Now());
        case FillPhantom(rid, content) =>
          store.FillPhantom(rid, content);
          RowStored(blob, delta, rid, store.blob[rid]);
      }
      NothingStored(blob, delta);
      StoringIsTruthful(blob, delta, cache.items, busy, fetched, log, store.blob, store.delta);
    }

    method DoStoreDelta(content: Slice, src: Rid)
      requires store.Valid() && SourcesThere(store.blob, store.delta) && |content| > 0
      modifies store
      ensures store.Valid() && store.Kept() && SourcesThere(store.blob, store.delta)
      ensures RowsStay(old(store.blob), old(store.delta), store.blob, store.delta)
      ensures StoresDelta(old(Now()), store.hash(content), content, src, Now())
    {
      hide Expanded, Sound, Patched, RowsStay, SourcesThere, Phantoms, Named;
      var rid, uuid := store.StoreDelta(content, src);
      NothingStored(old(store.blob), old(store.delta));
      if rid.Some? && rid.value in old(store.blob) {
        IsNamed(store.blob, rid.value);
      }
      if rid.Some? && rid.value !in old(store.blob) {
        DeltaIsStored(old(Now()), rid.value, uuid, content, src, Now());
        DeltaStored(old(store.blob), old(store.delta), rid.value, store.blob[rid.value], src);
      }
    }

    /** Dropping entries makes nothing untrue. */
    method DoDrop(s: Step)
      requires Valid() && (s.Invalidate? || s.Clear?)
      modifies cache
      ensures Valid() && Takes(store.hash, cache.maxSize, old(Now()), s, Now())
    {
      hide Expanded, Current, SourcesThere;
      match s {
        case Invalidate(rid) => cache.Invalidate(rid);
        case Clear => cache.Clear();
      }
    }

    method Take(s: Step)
      requires Valid() && Enabled(s)
      modifies this, cache, store
      ensures Valid() && store.Kept() && Takes(store.hash, cache.maxSize, old(Now()), s, Now())
    {
      hide Truthful, Expanded, SourcesThere, LooksUp, Fetches, Inserts;
      match s {
        case LookUp(t, rid) => DoLookUp(t, rid);
        case Walk(t) => var o := DoFetch(t);
        case LoadNext(t) => var o := DoFetch(t);
        case Insert(t) => DoInsert(t);
        case Invalidate(rid) => DoDrop(s);
        case Clear => DoDrop(s);
        case _ => DoStore(s);
      }
    }

    /** Any schedule of readers and writers. Every step that can be taken does what it is said to do, and at every moment
        all that the readers were given is what the store expands to, and the cache keeps within its size. */
    method Run(schedule: seq<Step>) returns (ghost states: seq<State>)
      requires Valid()
      modifies this, cache, store
      ensures Valid() && store.Kept() && cache.curSize == Total(cache.order) <= cache.maxSize
      ensures GoesThrough(store.hash, cache.maxSize, states, schedule) && states[0] == old(Now()) && states[|schedule|] == Now()
      ensures forall s :: s in states ==> forall e :: e in s.log ==> Expanded(s.blob, s.delta, e.rid) == Some(e.content)
      ensures forall e :: e in log ==> Expanded(store.blob, store.delta, e.rid) == Some(e.content)
    {
      hide Expanded, Total, SourcesThere, Current, Takes;
      states := [Now()];
      assert schedule[..0] == [];
      for i := 0 to |schedule|
        invariant Valid() && store.Kept()
        invariant GoesThrough(store.hash, cache.maxSize, states, schedule[..i]) && states[0] == old(Now()) && states[i] == Now()
        invariant forall s :: s in states ==> forall e :: e in s.log ==> Expanded(s.blob, s.delta, e.rid) == Some(e.content)
      {
        ghost var before := Now();
        assert before in states;
        if Enabled(schedule[i]) {
          Take(schedule[i]);
        }
        GoesFurther(store.hash, cache.maxSize, states, schedule, i, Now());
        states := states + [Now()];
      }
      assert schedule[..|schedule|] == schedule;
    }
  }

  lemma NewIsUnnamed(blob: Blobs, rid: Rid, row: Row)
    requires rid !in blob && UniqueNames(blob[rid := row])
    ensures !Named(blob, row.uuid)
  {
    var more := blob[rid := row];
    forall q: Rid | q in blob ensures blob[q].uuid != row.uuid {
      assert q in more && rid in more && more[q] == blob[q] && more[rid] == row && q != rid;
    }
  }

  lemma IsNamed(blob: Blobs, rid: Rid)
    requires rid in blob
    ensures Named(blob, blob[rid].uuid)
  {
  }

  lemma DeltaIsStored(s: State, rid: Rid, uuid: string, content: Slice, src: Rid, s': State)
    requires UniqueNames(s'.blob) && rid in s'.blob && s'.blob[rid].uuid == uuid && rid !in s.blob
    requires s' == s.(blob := s.blob[rid := s'.blob[rid]], delta := s.delta[rid := src]) && Load(s.blob, src).Some?
    requires Patched(Load(s.blob, src), Load(s'.blob, rid)) == Some(content)
    ensures StoresDelta(s, uuid, content, src, s')
  {
    NewIsUnnamed(s.blob, rid, s'.blob[rid]);
    assert s'.blob[rid].data.Some?;
    assert s'.blob[rid] == Row(uuid, Some(s'.blob[rid].data.value));
  }

  lemma RowIsStored(s: State, rid: Rid, row: Row, s': State)
    requires UniqueNames(s'.blob) && rid in s'.blob && s'.blob[rid].uuid == row.uuid
    requires if rid in s.blob then s' == s
             else s' == s.(blob := s.blob[rid := row], phantom := s.phantom + if row.data.None? then {rid} else {})
    ensures StoresRow(s, row, s')
  {
    if rid !in s.blob { NewIsUnnamed(s.blob, rid, row); }
  }

  lemma GoesFurther(hash: Slice -> string, maxSize: int, states: seq<State>, schedule: seq<Step>, i: nat, s: State)
    requires i < |schedule| && GoesThrough(hash, maxSize, states, schedule[..i])
    requires if IsEnabled(hash, states[i].blob, states[i].busy, states[i].fetched, schedule[i])
             then Takes(hash, maxSize, states[i], schedule[i], s) else s == states[i]
    ensures GoesThrough(hash, maxSize, states + [s], schedule[..i + 1])
  {
    hide Takes, IsEnabled;
  }

  lemma IsCurrent(blob: Blobs, delta: Deltas, items: map<Rid, Entry>, busy: map<Reader, Job>, fetched: map<Reader, Entry>, log: seq<Returned>, t: Reader)
    requires Truthful(blob, delta, items, busy, fetched, log) && t in busy
    ensures Current(blob, delta, busy[t])
  {
  }
}
