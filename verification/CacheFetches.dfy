/** Expanding an artifact query by query, while others store (internal/content/content.go: `Expand`, `walkDeltaChain`).
    Each step is one query, of a delta source or of the stored bytes; the tables may be other ones each time. */
module CacheFetches {
  import opened Bytes
  import opened DeltaApply
  import opened ContentChains

  /** How far an expansion has come: the delta sources followed so far, and the one to look at; or the chain, root
      first, how much of it has been loaded, and what it has come to. */
  datatype Progress = Walking(walk: seq<Rid>, current: Rid) | Loading(path: seq<Rid>, loaded: nat, content: Slice)

  datatype Job = Job(rid: Rid, progress: Progress)

  datatype Outcome = Going(job: Job) | Failed | Done(content: Slice)

  function Started(rid: Rid): Job { Job(rid, Walking([], rid)) }

  ghost predicate AllIn(rids: seq<Rid>, blob: Blobs) { forall i :: 0 <= i < |rids| ==> rids[i] in blob }

  /** Every delta is based on an artifact that is known. */
  ghost predicate SourcesThere(blob: Blobs, delta: Deltas) { forall r: Rid :: r in delta ==> r in blob && delta[r] in blob }

  /** What a job has found out is still so. */
  ghost predicate Current(blob: Blobs, delta: Deltas, job: Job) {
    match job.progress
    case Walking(walk, current) =>
      IsWalk(delta, walk + [current]) && (walk + [current])[0] == job.rid && AllIn(walk, blob) && current in blob
    case Loading(path, loaded, content) =>
      && IsChain(delta, path) && path[|path| - 1] == job.rid && AllIn(path, blob) && loaded < |path|
      && (loaded > 0 ==> Unfold(blob, delta, path[loaded - 1], loaded - 1) == Some(content))
  }

  /** What storing leaves alone: the rows that are there, whether and on what they are based, and their data. */
  ghost predicate RowsStay(blob: Blobs, delta: Deltas, blob': Blobs, delta': Deltas) {
    forall r: Rid :: r in blob ==>
      && r in blob' && (r in delta' <==> r in delta) && (r in delta ==> delta'[r] == delta[r])
      && (blob[r].data.Some? ==> blob'[r].data == blob[r].data)
  }

  lemma NothingStored(blob: Blobs, delta: Deltas)
    ensures RowsStay(blob, delta, blob, delta)
  {
  }

  /** A new row, or the data of a phantom. */
  lemma RowStored(blob: Blobs, delta: Deltas, rid: Rid, row: Row)
    requires SourcesThere(blob, delta) && (rid in blob && blob[rid].data.Some? ==> row == blob[rid])
    ensures SourcesThere(blob[rid := row], delta) && RowsStay(blob, delta, blob[rid := row], delta)
  {
  }

  lemma DeltaStored(blob: Blobs, delta: Deltas, rid: Rid, row: Row, src: Rid)
    requires SourcesThere(blob, delta) && rid !in blob && src in blob
    ensures SourcesThere(blob[rid := row], delta[rid := src]) && RowsStay(blob, delta, blob[rid := row], delta[rid := src])
  {
  }

  lemma RowsStayIsGrown(blob: Blobs, delta: Deltas, blob': Blobs, delta': Deltas)
    requires RowsStay(blob, delta, blob', delta')
    ensures Grown(blob, delta, blob', delta')
  {
  }

  /** Nor does it make a job's findings old. */
  lemma StaysCurrent(blob: Blobs, delta: Deltas, blob': Blobs, delta': Deltas, job: Job)
    requires Current(blob, delta, job) && RowsStay(blob, delta, blob', delta')
    ensures Current(blob', delta', job)
  {
    hide Unfold;
    match job.progress
    case Walking(walk, current) =>
      forall i, j | 0 <= i && j == i + 1 < |walk + [current]| ensures Link(delta', (walk + [current])[i], (walk + [current])[j]) {
        assert Link(delta, (walk + [current])[i], (walk + [current])[j]) && walk[i] in blob;
      }
    case Loading(path, loaded, content) =>
      assert path[0] in blob;
      forall i, j | 0 <= i && j == i + 1 < |path| ensures Link(delta', path[j], path[i]) {
        assert Link(delta, path[j], path[i]) && path[j] in blob;
      }
      if loaded > 0 {
        RowsStayIsGrown(blob, delta, blob', delta');
        GrowthKeepsDepth(blob, delta, blob', delta', path[loaded - 1], loaded - 1);
      }
  }

  /** What the next query brings: a further delta source or, where there is none, the chain; and then the content of the
      next artifact of the chain. A cycle ends the expansion, and so does an artifact of the chain without a content. */
  ghost function Queried(blob: Blobs, delta: Deltas, job: Job): Outcome {
    match job.progress
    case Walking(walk, current) =>
      if current in walk then Failed
      else if current in delta then Going(Job(job.rid, Walking(walk + [current], delta[current])))
      else Going(Job(job.rid, Loading(Reversed(walk + [current]), 0, [])))
    case Loading(path, loaded, _) =>
      if loaded >= |path| then Failed
      else match Expanded(blob, delta, path[loaded])
           case None => Failed
           case Some(content) => if loaded + 1 == |path| then Done(content) else Going(Job(job.rid, Loading(path, loaded + 1, content)))
  }

  /** The query for the delta source of the current artifact. */
  method WalkOn(delta: Deltas, job: Job, ghost blob: Blobs) returns (o: Outcome)
    requires job.progress.Walking? && Current(blob, delta, job) && SourcesThere(blob, delta)
    ensures o == Queried(blob, delta, job) && (o.Going? ==> Current(blob, delta, o.job))
    ensures o.Failed? ==> Expanded(blob, delta, job.rid).None?
    ensures !o.Done?
  {
    var walk, current := job.progress.walk, job.progress.current;
    if current in walk {
      WalkIsClosed(delta, walk, current);
      ghost var c := set q | q in walk;
      forall d: nat ensures Unfold(blob, delta, job.rid, d).None? { CycleNeverExpands(blob, delta, c, job.rid, d); }
      return Failed;
    }
    var further := walk + [current];
    if current !in delta {
      WalkIsChain(delta, further);
      return Going(Job(job.rid, Loading(Reversed(further), 0, [])));
    }
    WalkGrows(delta, further, delta[current]);
    return Going(Job(job.rid, Walking(further, delta[current])));
  }

  lemma WalkGrows(delta: Deltas, walk: seq<Rid>, next: Rid)
    requires IsWalk(delta, walk) && walk != [] && Link(delta, walk[|walk| - 1], next)
    ensures IsWalk(delta, walk + [next])
  {
    var more := walk + [next];
    forall i, j | 0 <= i && j == i + 1 < |more| ensures Link(delta, more[i], more[j]) {
      if j < |walk| { assert Link(delta, walk[i], walk[j]); }
    }
  }

  /** The query for the stored bytes of the next artifact of the chain. */
  method LoadOn(blob: Blobs, job: Job, ghost delta: Deltas) returns (o: Outcome)
    requires job.progress.Loading? && Current(blob, delta, job)
    ensures o == Queried(blob, delta, job) && (o.Going? ==> Current(blob, delta, o.job))
    ensures o.Failed? ==> Expanded(blob, delta, job.rid).None?
    ensures o.Done? ==> Expanded(blob, delta, job.rid) == Some(o.content) && job.progress.loaded + 1 == |job.progress.path|
  {
    hide Expanded;
    var path, i := job.progress.path, job.progress.loaded;
    ChainDepth(blob, delta, path, i);
    var data := Load(blob, path[i]);
    if data.None? {
      BrokenChain(blob, delta, path, i, |path| - 1);
      return Failed;
    }
    var content := data.value;
    if i > 0 {
      var applied := Apply(job.progress.content, data.value);
      if applied.Err? {
        BrokenChain(blob, delta, path, i, |path| - 1);
        return Failed;
      }
      ghost var cs := AppliedIsMeaning(job.progress.content, data.value);
      content := applied.value;
    }
    assert Unfold(blob, delta, path[i], i) == Some(content);
    if i + 1 == |path| {
      return Done(content);
    }
    return Going(Job(job.rid, Loading(path, i + 1, content)));
  }

  /** An artifact that is asked for before it is there can be misread: nothing says that it is a delta, then it is stored
      as one, and its stored bytes are taken for its content. */
  lemma UnknownIsMisread(source: Slice, stored: Slice)
    requires Applied(source, stored) != Ok(stored)
    ensures var before: Blobs := map[1 := Row("s", Some(source))];
            var after: Blobs := before[2 := Row("d", Some(stored))];
            && SourcesThere(after, map[2 := 1]) && RowsStay(before, map[], after, map[2 := 1])
            && Load(after, 2) == Some(stored) && Expanded(after, map[2 := 1], 2) != Some(stored)
  {
    var after: Blobs := map[1 := Row("s", Some(source)), 2 := Row("d", Some(stored))];
    ExpandedUnfolds(after, map[2 := 1], 2);
    ExpandedUnfolds(after, map[2 := 1], 1);
    hide Expanded;
    assert map[1 := Row("s", Some(source))][2 := Row("d", Some(stored))] == after;
  }
}
