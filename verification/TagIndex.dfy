/** What the tagxref table is an index of: for every checkin, its own tag row or else the row it
    inherits along primary parents. */
module TagIndex {
  import opened Bytes

  type Rid = nat

  datatype TagType = Cancel | Singleton | Propagating

  datatype Row = Row(tagtype: TagType, srcid: Rid, origid: Rid, value: string, mtime: int)

  /** tagxref has one row per checkin and tag. */
  datatype Key = Key(rid: Rid, tag: string)

  type TagTable = map<Key, Row>

  /** Primary parent of each checkin that has one: the plink rows with isprim = 1. */
  type Forest = map<Rid, Rid>

  ghost function Lookup(t: TagTable, k: Key): Option<Row> {
    if k in t then Some(t[k]) else None
  }

  /** What a child takes over from its primary parent's row. */
  ghost function Inherit(o: Option<Row>): Option<Row> {
    if o.Some? && o.value.tagtype == Propagating then
      Some(Row(Propagating, 0, o.value.origid, o.value.value, o.value.mtime))
    else None
  }

  ghost predicate IsForest(prim: Forest) {
    forall c :: c in prim ==> prim[c] < c
  }

  /** The definition: `direct` holds the last row set on the checkin itself. */
  ghost function Effective(prim: Forest, direct: TagTable, k: Key): Option<Row>
    requires IsForest(prim)
    decreases k.rid
  {
    if k in direct then Some(direct[k])
    else if k.rid in prim then Inherit(Effective(prim, direct, Key(prim[k.rid], k.tag)))
    else None
  }

  ghost predicate IsParent(prim: Forest, c: Rid, parent: Rid) { c in prim && prim[c] == parent }

  /** A checkin without a row of its own inherits from the nearest one above that has one: its row, but for the artifact
      that set it, if that propagates, and else nothing. */
  lemma {:induction false} NearestIsInherited(prim: Forest, direct: TagTable, tag: string, path: seq<Rid>)
    requires IsForest(prim) && |path| >= 2
    requires forall i, j :: 0 <= i && j == i + 1 < |path| ==> IsParent(prim, path[i], path[j])
    requires forall i :: 0 <= i < |path| - 1 ==> Key(path[i], tag) !in direct
    ensures var row, k := Effective(prim, direct, Key(path[0], tag)), Key(path[|path| - 1], tag);
            && (k in direct ==> row == if direct[k].tagtype == Propagating then Some(direct[k].(srcid := 0)) else None)
            && (k !in direct && k.rid !in prim ==> row == None)
    decreases |path|
  {
    assert IsParent(prim, path[0], path[1]);
    if |path| > 2 {
      var rest := path[1..];
      assert forall i :: 0 <= i < |rest| ==> rest[i] == path[i + 1];
      forall i, j | 0 <= i && j == i + 1 < |rest| ensures IsParent(prim, rest[i], rest[j]) {
        assert IsParent(prim, path[i + 1], path[j + 1]);
      }
      NearestIsInherited(prim, direct, tag, rest);
    }
  }

  /** The same, one step deep, with the parent's row taken from the table. */
  ghost function Local(prim: Forest, direct: TagTable, t: TagTable, k: Key): Option<Row> {
    if k in direct then Some(direct[k])
    else if k.rid in prim then Inherit(Lookup(t, Key(prim[k.rid], k.tag)))
    else None
  }

  ghost predicate LocalAt(prim: Forest, direct: TagTable, t: TagTable, k: Key) {
    Lookup(t, k) == Local(prim, direct, t, k)
  }

  /** The table is right for one tag. */
  ghost predicate TagRight(prim: Forest, direct: TagTable, t: TagTable, tag: string) {
    forall r: Rid :: LocalAt(prim, direct, t, Key(r, tag))
  }

  /** A table that is right everywhere one step deep is the definition. */
  lemma {:induction false} RightIsEffective(prim: Forest, direct: TagTable, t: TagTable, k: Key)
    requires IsForest(prim) && TagRight(prim, direct, t, k.tag)
    ensures Lookup(t, k) == Effective(prim, direct, k)
    decreases k.rid
  {
    assert LocalAt(prim, direct, t, Key(k.rid, k.tag));
    if k !in direct && k.rid in prim {
      RightIsEffective(prim, direct, t, Key(prim[k.rid], k.tag));
    }
  }

  /** Two right tables are the same table. */
  lemma RightIsUnique(prim: Forest, direct: TagTable, t: TagTable, u: TagTable)
    requires IsForest(prim)
    requires forall tag :: TagRight(prim, direct, t, tag) && TagRight(prim, direct, u, tag)
    ensures t == u
  {
    forall k: Key ensures Lookup(t, k) == Lookup(u, k) {
      assert TagRight(prim, direct, t, k.tag) && TagRight(prim, direct, u, k.tag);
      RightIsEffective(prim, direct, t, k);
      RightIsEffective(prim, direct, u, k);
    }
    assert forall k :: k in t <==> Lookup(t, k).Some?;
    assert forall k :: k in u <==> Lookup(u, k).Some?;
    forall k | k in t ensures k in u && t[k] == u[k] {
      assert Lookup(t, k) == Lookup(u, k);
    }
    forall k | k in u ensures k in t {
      assert Lookup(t, k) == Lookup(u, k);
    }
  }

  // ----- the state of the walk below one checkin -----

  /** What the walk is told: the tag, what it does, and the row it passes on (nothing for a cancel). */
  datatype Walk = Walk(tag: string, kind: TagType, origid: Rid, mtime: int, value: string) {
    ghost function Passed(): Option<Row> {
      if kind == Propagating then Some(Row(Propagating, 0, origid, value, mtime)) else None
    }
  }

  /** A child that inherits holds the row that was passed on so far, or none yet. */
  ghost predicate Unvisited(prim: Forest, direct: TagTable, t: TagTable, k: Key, was: Option<Row>) {
    if k in direct then Lookup(t, k) == Some(direct[k]) else Lookup(t, k) == was || Lookup(t, k) == None
  }

  /** The checkins of `todo` are unvisited; everything else is right. */
  ghost predicate WalkState(prim: Forest, direct: TagTable, t: TagTable, tag: string, todo: set<Rid>, was: Option<Row>) {
    forall r: Rid :: if r in todo then Unvisited(prim, direct, t, Key(r, tag), was)
                     else LocalAt(prim, direct, t, Key(r, tag))
  }

  ghost function Children(prim: Forest, parents: set<Rid>): set<Rid> {
    set c | c in prim && prim[c] in parents
  }

  /** The test `doit` of the children query. */
  function DoIt(w: Walk, row: Option<Row>): bool {
    if w.kind == Propagating then
      match row
      case None => true
      case Some(x) => x.srcid == 0 && x.mtime < w.mtime
    else
      match row
      case None => false
      case Some(x) => x.srcid == 0
  }

  /** The walk replaces whatever was inherited before. */
  ghost predicate Overrides(w: Walk, was: Option<Row>) {
    w.kind == Propagating && was.Some? && was != w.Passed() ==> was.value.mtime < w.mtime
  }

  ghost predicate Inheritable(o: Option<Row>) {
    o.Some? ==> o.value.tagtype == Propagating && o.value.srcid == 0
  }

  /** Direct rows name the artifact that set them; inherited rows name none. */
  ghost predicate DirectRows(direct: TagTable) {
    forall k :: k in direct ==> direct[k].srcid != 0
  }

  /** The row that is written or deleted when the walk reaches an inheriting child. */
  function Visit(w: Walk, t: TagTable, c: Rid): TagTable {
    if w.kind == Propagating then t[Key(c, w.tag) := Row(Propagating, 0, w.origid, w.value, w.mtime)]
    else t - {Key(c, w.tag)}
  }

  /** Visiting a child settles it and leaves its own children to be visited. */
  lemma VisitStep(prim: Forest, direct: TagTable, t: TagTable, w: Walk, todo: set<Rid>, was: Option<Row>, c: Rid)
    requires IsForest(prim) && DirectRows(direct) && Inheritable(was)
    requires WalkState(prim, direct, t, w.tag, todo, was)
    requires c in todo && c in prim && Inherit(Lookup(t, Key(prim[c], w.tag))) == w.Passed()
    requires DoIt(w, Lookup(t, Key(c, w.tag)))
    ensures WalkState(prim, direct, Visit(w, t, c), w.tag, todo - {c} + Children(prim, {c}), was)
    ensures Inherit(Lookup(Visit(w, t, c), Key(c, w.tag))) == w.Passed()
  {
    var t' := Visit(w, t, c);
    forall r: Rid
      ensures if r in todo - {c} + Children(prim, {c}) then Unvisited(prim, direct, t', Key(r, w.tag), was)
              else LocalAt(prim, direct, t', Key(r, w.tag))
    {
      assert r in todo ==> Unvisited(prim, direct, t, Key(r, w.tag), was);
      assert r !in todo ==> LocalAt(prim, direct, t, Key(r, w.tag));
      assert Unvisited(prim, direct, t, Key(c, w.tag), was);
    }
  }

  /** Every inheriting child of `pid` already holds a row as recent as the one to be passed on. */
  ghost predicate Stuck(prim: Forest, direct: TagTable, t: TagTable, w: Walk, pid: Rid, was: Option<Row>) {
    && !Overrides(w, was)
    && forall c :: c in Children(prim, {pid}) ==>
         Lookup(t, Key(c, w.tag)) == if Key(c, w.tag) in direct then Some(direct[Key(c, w.tag)]) else was
  }

  /** The state of a walk: the table at its start and now, the checkins that are queued, visited or were
      ever pushed, and the children of the current checkin still to be looked at. */
  datatype Progress = Progress(t0: TagTable, t: TagTable, queued: set<Rid>, visited: set<Rid>, pushed: set<Rid>, todo: set<Rid>)

  ghost predicate Walking(prim: Forest, direct: TagTable, w: Walk, pid: Rid, was: Option<Row>, p: Progress) {
    && (forall k: Key :: k.tag != w.tag ==> Lookup(p.t, k) == Lookup(p.t0, k))
    && (forall r :: r in p.queued + p.visited ==> pid <= r && (r == pid || (r in prim && prim[r] in p.visited)))
    && (forall r :: r in p.pushed ==> r in prim && prim[r] in p.visited)
    && (forall r :: r in p.todo ==> r in prim && prim[r] in p.visited && Inherit(Lookup(p.t, Key(prim[r], w.tag))) == w.Passed())
    && p.todo !! p.visited && p.todo !! p.pushed
    && (forall r :: r in p.queued - p.visited ==> Inherit(Lookup(p.t, Key(r, w.tag))) == w.Passed())
    && (Overrides(w, was) ==> WalkState(prim, direct, p.t, w.tag, Children(prim, p.queued - p.visited) + p.todo, was))
    && (Stuck(prim, direct, p.t0, w, pid, was) ==> p.t == p.t0 && p.queued <= {pid} && p.todo <= Children(prim, {pid}))
  }

  lemma WalkBegins(prim: Forest, direct: TagTable, w: Walk, pid: Rid, was: Option<Row>, t: TagTable)
    requires Inherit(Lookup(t, Key(pid, w.tag))) == w.Passed()
    requires WalkState(prim, direct, t, w.tag, Children(prim, {pid}), was)
    ensures Walking(prim, direct, w, pid, was, Progress(t, t, {pid}, {}, {}, {}))
  {
    assert Children(prim, {pid} - {}) + {} == Children(prim, {pid});
  }

  /** Taking a checkin from the queue puts its children on the list. */
  lemma WalkPops(prim: Forest, direct: TagTable, w: Walk, pid: Rid, was: Option<Row>, p: Progress, rest: set<Rid>, r: Rid)
    requires IsForest(prim) && Walking(prim, direct, w, pid, was, p) && p.todo == {}
    requires p.queued == rest + {r} && r !in p.visited
    ensures Walking(prim, direct, w, pid, was, p.(queued := rest, visited := p.visited + {r}, todo := Children(prim, {r})))
  {
    var visited := p.visited + {r};
    assert rest + visited == p.queued + p.visited;
    forall q | q in rest + visited ensures pid <= q && (q == pid || (q in prim && prim[q] in visited)) {
    }
    assert Children(prim, rest - visited) + Children(prim, {r}) == Children(prim, p.queued - p.visited) + p.todo;
  }

  lemma WalkPopsAgain(prim: Forest, direct: TagTable, w: Walk, pid: Rid, was: Option<Row>, p: Progress, rest: set<Rid>, r: Rid)
    requires Walking(prim, direct, w, pid, was, p) && p.queued == rest + {r} && r in p.visited
    ensures Walking(prim, direct, w, pid, was, p.(queued := rest))
  {
    assert rest - p.visited == p.queued - p.visited;
  }

  lemma WalkVisits(prim: Forest, direct: TagTable, w: Walk, pid: Rid, was: Option<Row>, p: Progress, c: Rid)
    requires IsForest(prim) && DirectRows(direct) && Inheritable(was)
    requires Walking(prim, direct, w, pid, was, p) && c in p.todo && DoIt(w, Lookup(p.t, Key(c, w.tag)))
    ensures Walking(prim, direct, w, pid, was,
                    p.(t := Visit(w, p.t, c), queued := p.queued + {c}, pushed := p.pushed + {c}, todo := p.todo - {c}))
  {
    var t', todo := Visit(w, p.t, c), Children(prim, p.queued - p.visited) + p.todo;
    if Overrides(w, was) {
      VisitStep(prim, direct, p.t, w, todo, was, c);
      assert Children(prim, p.queued + {c} - p.visited) == Children(prim, p.queued - p.visited) + Children(prim, {c});
      assert c !in Children(prim, p.queued - p.visited);
      assert todo - {c} + Children(prim, {c}) == Children(prim, p.queued + {c} - p.visited) + (p.todo - {c});
    }
  }

  lemma WalkSkips(prim: Forest, direct: TagTable, w: Walk, pid: Rid, was: Option<Row>, p: Progress, c: Rid)
    requires DirectRows(direct) && Inheritable(was)
    requires Walking(prim, direct, w, pid, was, p) && c in p.todo && !DoIt(w, Lookup(p.t, Key(c, w.tag)))
    ensures Walking(prim, direct, w, pid, was, p.(todo := p.todo - {c}))
  {
    var todo := Children(prim, p.queued - p.visited) + p.todo;
    if Overrides(w, was) {
      assert c !in Children(prim, p.queued - p.visited);
      assert todo - {c} == Children(prim, p.queued - p.visited) + (p.todo - {c});
    }
  }

  /** Setting a row on a checkin opens the walk below it: its children are unvisited. */
  lemma DirectOpensWalk(prim: Forest, direct: TagTable, t: TagTable, target: Rid, tag: string, row: Row)
    requires IsForest(prim)
    requires forall r: Rid :: r != target ==> LocalAt(prim, direct, t, Key(r, tag))
    ensures var k := Key(target, tag);
            WalkState(prim, direct[k := row], t[k := row], tag, Children(prim, {target}), Inherit(Lookup(t, k)))
  {
    var k := Key(target, tag);
    forall r: Rid
      ensures if r in Children(prim, {target}) then Unvisited(prim, direct[k := row], t[k := row], Key(r, tag), Inherit(Lookup(t, k)))
              else LocalAt(prim, direct[k := row], t[k := row], Key(r, tag))
    {
      assert r != target ==> LocalAt(prim, direct, t, Key(r, tag));
    }
  }

  /** Where the index goes wrong after a row is set on `target`: a child that inherited before keeps a
      row that the walk does not replace. */
  ghost predicate LeavesStale(prim: Forest, direct: TagTable, t: TagTable, w: Walk, target: Rid) {
    var was := Inherit(Lookup(t, Key(target, w.tag)));
    && was.Some?
    && (exists c :: c in prim && prim[c] == target && Key(c, w.tag) !in direct)
    && (w.kind == Singleton || (w.kind == Propagating && was != w.Passed() && w.mtime <= was.value.mtime))
  }

  /** Walk states and rightness look at the rows of their own tag only. */
  lemma SameTagRows(prim: Forest, direct: TagTable, t: TagTable, u: TagTable, tag: string)
    requires forall r: Rid :: Lookup(t, Key(r, tag)) == Lookup(u, Key(r, tag))
    ensures TagRight(prim, direct, t, tag) ==> TagRight(prim, direct, u, tag)
    ensures forall todo, was :: WalkState(prim, direct, t, tag, todo, was) ==> WalkState(prim, direct, u, tag, todo, was)
  {
    forall r: Rid ensures LocalAt(prim, direct, t, Key(r, tag)) == LocalAt(prim, direct, u, Key(r, tag)) {
      assert Local(prim, direct, t, Key(r, tag)) == Local(prim, direct, u, Key(r, tag));
    }
    forall todo, was | WalkState(prim, direct, t, tag, todo, was) ensures WalkState(prim, direct, u, tag, todo, was) {
      forall r: Rid ensures if r in todo then Unvisited(prim, direct, u, Key(r, tag), was) else LocalAt(prim, direct, u, Key(r, tag)) {
        assert if r in todo then Unvisited(prim, direct, t, Key(r, tag), was) else LocalAt(prim, direct, t, Key(r, tag));
      }
    }
  }

  /** When nothing is passed on below a checkin and its children have no inherited rows, all is right. */
  lemma NothingToPass(prim: Forest, direct: TagTable, t: TagTable, pid: Rid, tag: string)
    requires Inherit(Lookup(t, Key(pid, tag))) == None
    requires WalkState(prim, direct, t, tag, Children(prim, {pid}), None)
    ensures TagRight(prim, direct, t, tag)
  {
    forall r: Rid ensures LocalAt(prim, direct, t, Key(r, tag)) {
      assert if r in Children(prim, {pid}) then Unvisited(prim, direct, t, Key(r, tag), None)
             else LocalAt(prim, direct, t, Key(r, tag));
    }
  }

  /** After a row is set: the walk is stuck exactly when it overrides nothing, and a table it leaves alone
      is right exactly when no child inherited before. */
  lemma StaleExactly(prim: Forest, direct: TagTable, t: TagTable, w: Walk, target: Rid, row: Row)
    requires IsForest(prim)
    requires forall r: Rid :: r != target ==> LocalAt(prim, direct, t, Key(r, w.tag))
    requires row.tagtype == w.kind && row.origid == w.origid && row.value == w.value && row.mtime == w.mtime
    ensures var k, was := Key(target, w.tag), Inherit(Lookup(t, Key(target, w.tag)));
            && Inherit(Some(row)) == w.Passed()
            && (w.kind == Propagating && !Overrides(w, was) ==> Stuck(prim, direct[k := row], t[k := row], w, target, was))
            && (w.kind == Cancel ==> Overrides(w, was))
            && (Overrides(w, was) && w.kind != Singleton ==> !LeavesStale(prim, direct, t, w, target))
            && (!Overrides(w, was) || w.kind == Singleton ==>
                 (TagRight(prim, direct[k := row], t[k := row], w.tag) <==> !LeavesStale(prim, direct, t, w, target)))
  {
    var k := Key(target, w.tag);
    var was := Inherit(Lookup(t, k));
    DirectOpensWalk(prim, direct, t, target, w.tag, row);
    forall c | c in Children(prim, {target})
      ensures Lookup(t[k := row], Key(c, w.tag)) == if Key(c, w.tag) in direct then Some(direct[Key(c, w.tag)]) else was
    {
      assert LocalAt(prim, direct, t, Key(c, w.tag));
    }
    if !Overrides(w, was) || w.kind == Singleton {
      if LeavesStale(prim, direct, t, w, target) {
        var c :| c in prim && prim[c] == target && Key(c, w.tag) !in direct;
        assert c in Children(prim, {target});
        assert !LocalAt(prim, direct[k := row], t[k := row], Key(c, w.tag));
      } else {
        forall r: Rid ensures LocalAt(prim, direct[k := row], t[k := row], Key(r, w.tag)) {
          if r in Children(prim, {target}) {
            assert LocalAt(prim, direct, t, Key(r, w.tag));
          }
        }
      }
    }
  }

  /** Strictly increasing times are enough: a row newer than every row of its tag leaves nothing stale,
      unless it is a singleton. */
  lemma NewerLeavesNothingStale(prim: Forest, direct: TagTable, t: TagTable, w: Walk, target: Rid)
    requires w.kind != Singleton
    requires forall k: Key :: k in t && k.tag == w.tag ==> t[k].mtime < w.mtime
    ensures !LeavesStale(prim, direct, t, w, target)
  {
  }

  /** For instance: a singleton set on a checkin whose child has inherited a row. */
  lemma SingletonLeavesStale(passed: Row, own: Row)
    requires passed == Row(Propagating, 1, 1, "trunk", 5) && own == Row(Singleton, 7, 1, "", 6)
    ensures var prim, direct := map[2 := 1], map[Key(1, "branch") := passed];
            var t := direct[Key(2, "branch") := passed.(srcid := 0)];
            && TagRight(prim, direct, t, "branch")
            && !TagRight(prim, direct[Key(1, "branch") := own], t[Key(1, "branch") := own], "branch")
  {
    var prim, direct := map[2 := 1], map[Key(1, "branch") := passed];
    var t := direct[Key(2, "branch") := passed.(srcid := 0)];
    forall r: Rid ensures LocalAt(prim, direct, t, Key(r, "branch")) {
    }
    assert !LocalAt(prim, direct[Key(1, "branch") := own], t[Key(1, "branch") := own], Key(2, "branch"));
  }
}
