/** One library scan: classify, match, stage, remove, apply, prune, with the savepoint around all of it. */
module MediaScan {
  import opened Options
  import opened LibraryTables
  import opened CopyEvidence
  import opened CopyIdentity
  import opened ScanMatching
  import opened WaitingIdentities
  import IdentityRepair
  import ScanPlan

  type PathColumn = ScanPlan.PathColumn

  function Paths(items: Items): PathColumn {
    map id | id in items :: items[id].path
  }

  lemma PathsUpdated(items: Items, id: RowId, item: Item)
    ensures Paths(items[id := item]) == Paths(items)[id := item.path]
  {
  }

  // ----- statements on media_items -----

  lemma PathsFree(items: Items, path: string, id: RowId)
    ensures ScanPlan.Free(Paths(items), path, id) <==>
            forall other :: other in items && other != id ==> items[other].path != path
  {
    forall other | other in items ensures Paths(items)[other] == items[other].path {}
    if forall other :: other in items && other != id ==> items[other].path != path {
    } else {
      var other :| other in items && other != id && items[other].path == path;
      assert other in Paths(items) && Paths(items)[other] == path;
    }
  }

  method UpdateItem(db: Connection, id: RowId, item: Item) returns (ok: bool)
    requires id in db.t.items
    modifies db
    ensures ok <==> ScanPlan.Accepts(Paths(old(db.t.items)), ScanPlan.SetPath(id, item.path))
    ensures db.t == if ok then old(db.t).(items := old(db.t.items)[id := item]) else old(db.t)
  {
    ok := forall other :: other in db.t.items && other != id ==> db.t.items[other].path != item.path;
    PathsFree(db.t.items, item.path, id);
    if ok {
      db.t := db.t.(items := db.t.items[id := item]);
    }
  }

  method InsertItem(db: Connection, item: Item) returns (ok: bool)
    requires forall id :: id in db.t.items ==> id < db.t.nextId
    modifies db
    ensures ok <==> ScanPlan.Accepts(Paths(old(db.t.items)), ScanPlan.Insert(old(db.t.nextId), item.path))
    ensures db.t == if ok then old(db.t).(items := old(db.t.items)[old(db.t.nextId) := item], nextId :=
            old(db.t.nextId) + 1) else old(db.t)
  {
    ok := forall other :: other in db.t.items ==> db.t.items[other].path != item.path;
    PathsFree(db.t.items, item.path, db.t.nextId);
    if ok {
      db.t := db.t.(items := db.t.items[db.t.nextId := item], nextId := db.t.nextId + 1);
    }
  }

  /** Deleting a row deletes the direct hides that refer to it. */
  function Deleted(t: Tables, id: RowId): Tables {
    t.(items := t.items - {id}, hides := set h | h in t.hides && h.1 != id)
  }

  // ----- from records to a plan -----

  ghost predicate DistinctRecords(records: seq<Record>) {
    forall i, j :: 0 <= i < j < |records| ==>
      records[i].file.path != records[j].file.path &&
          (records[i].target.Some? ==> records[i].target != records[j].target)
  }

  function Changed(records: seq<Record>): (changed: seq<Record>)
    ensures forall r :: r in changed <==> r in records && !r.stable
    ensures DistinctRecords(records) ==> DistinctRecords(changed)
  {
    if records == [] then []
    else
      var last := records[|records| - 1];
      var rest := Changed(records[..|records| - 1]);
      assert forall r :: r in records <==> r in records[..|records| - 1] || r == last;
      if last.stable then rest else rest + [last]
  }

  function Moves(changed: seq<Record>): (moves: seq<ScanPlan.Move>)
    ensures |moves| == |changed|
  {
    seq(|changed|, k requires 0 <= k < |changed| => ScanPlan.Move(changed[k].file.path, changed[k].target))
  }

  lemma RecordsDistinct(t0: Tables, scan: Scan, files: seq<ScanFile>, records: seq<Record>)
    requires DistinctFiles(files) && AllMatched(t0, scan, files, records)
    ensures DistinctRecords(records)
  {
    forall i, j | 0 <= i < j < |records|
      ensures records[i].file.path != records[j].file.path &&
              (records[i].target.Some? ==> records[i].target != records[j].target)
    {
      assert IsMatch(t0, scan, files, i, records[i].target) && IsMatch(t0, scan, files, j, records[j].target);
      if records[i].target.Some? {
        assert Matched(t0, scan, FileSet(files), files[i], records[i].target.value);
        assert !Matched(t0, scan, FileSet(files), files[j], records[i].target.value);
      }
    }
  }

  /** No path in the library or on disk looks like a staging name. */
  ghost predicate NoStagingNames(items: Items, files: seq<ScanFile>) {
    && (forall id :: id in items ==> !ScanPlan.IsStaging(items[id].path))
    && (forall k :: 0 <= k < |files| ==> !ScanPlan.IsStaging(files[k].path))
  }

  ghost predicate PlanFor(t0: Tables, scan: Scan, files: seq<ScanFile>, records: seq<Record>, plan: ScanPlan.Plan) {
    && plan.jobId == scan.jobId && plan.nextId == t0.nextId
    && plan.moves == Moves(Changed(records))
    && ScanPlan.Ids(plan.drops) == RemovedRows(t0, scan, FileSet(files))
  }

  /** The file behind a changed record. */
  lemma FileOfChanged(t0: Tables, scan: Scan, files: seq<ScanFile>, records: seq<Record>, k: nat) returns (j: nat)
    requires AllMatched(t0, scan, files, records) && k < |Changed(records)|
    ensures j < |files| && records[j] == Changed(records)[k] && files[j] == Changed(records)[k].file
    ensures !Stable(t0, scan, files[j]) && IsMatch(t0, scan, files, j, Changed(records)[k].target)
  {
    assert Changed(records)[k] in records;
    j :| 0 <= j < |records| && records[j] == Changed(records)[k];
    assert Classified(t0, scan, files[j], records[j].(rows := {}, target := None));
  }

  lemma ChangedOfFile(t0: Tables, scan: Scan, files: seq<ScanFile>, records: seq<Record>, j: nat) returns (k: nat)
    requires AllMatched(t0, scan, files, records) && j < |files| && !Stable(t0, scan, files[j])
    ensures k < |Changed(records)| && Changed(records)[k] == records[j] && records[j].file == files[j]
  {
    assert Classified(t0, scan, files[j], records[j].(rows := {}, target := None));
    assert records[j] in Changed(records);
    k :| 0 <= k < |Changed(records)| && Changed(records)[k] == records[j];
  }

  lemma PlanWellFormed(t0: Tables, scan: Scan, files: seq<ScanFile>, records: seq<Record>, plan: ScanPlan.Plan)
    requires Valid(t0) && DistinctFiles(files) && NoStagingNames(t0.items, files)
    requires AllMatched(t0, scan, files, records) && PlanFor(t0, scan, files, records, plan)
    ensures ScanPlan.WellFormed(Paths(t0.items), plan)
  {
    RecordsDistinct(t0, scan, files, records);
    var before := Paths(t0.items);
    forall k | 0 <= k < |plan.moves| ensures !ScanPlan.IsStaging(plan.moves[k].path) {
      var j := FileOfChanged(t0, scan, files, records, k);
    }
    forall k | 0 <= k < |plan.moves| && plan.moves[k].target.Some?
      ensures plan.moves[k].target.value in before && plan.moves[k].target.value !in plan.drops
    {
      var j := FileOfChanged(t0, scan, files, records, k);
      var id := plan.moves[k].target.value;
      assert MatchedRow(t0, scan, FileSet(files), id);
      assert id !in RemovedRows(t0, scan, FileSet(files));
    }
    forall id | id in plan.drops ensures id in before {
      assert id in RemovedRows(t0, scan, FileSet(files));
    }
  }

  lemma TargetIsMatched(t0: Tables, scan: Scan, files: seq<ScanFile>, records: seq<Record>, plan: ScanPlan.Plan,
                        id: RowId)
    requires AllMatched(t0, scan, files, records) && PlanFor(t0, scan, files, records, plan)
    ensures ScanPlan.IsTarget(plan, id) <==> MatchedRow(t0, scan, FileSet(files), id)
  {
    if ScanPlan.IsTarget(plan, id) {
      var k :| 0 <= k < |plan.moves| && plan.moves[k].target == Some(id);
      var j := FileOfChanged(t0, scan, files, records, k);
      assert Matched(t0, scan, FileSet(files), files[j], id);
    }
    if f :| Matched(t0, scan, FileSet(files), f, id) {
      var j :| 0 <= j < |files| && files[j] == f;
      var k := ChangedOfFile(t0, scan, files, records, j);
      assert IsMatch(t0, scan, files, j, records[j].target);
      assert plan.moves[k].target == Some(id);
    }
  }

  /** Rows the plan leaves alone are the cloud rows and the stable rows. */
  lemma UntouchedRows(t0: Tables, scan: Scan, files: seq<ScanFile>, records: seq<Record>, plan: ScanPlan.Plan,
                      id: RowId)
    requires AllMatched(t0, scan, files, records) && PlanFor(t0, scan, files, records, plan) && id in t0.items
    ensures ScanPlan.Untouched(plan, id) <==> t0.items[id].kind == Cloud || StableRow(t0, scan, FileSet(files), id)
  {
    TargetIsMatched(t0, scan, files, records, plan, id);
    assert id in plan.drops <==> id in RemovedRows(t0, scan, FileSet(files));
    if MatchedRow(t0, scan, FileSet(files), id) {
      var f :| Matched(t0, scan, FileSet(files), f, id);
    }
  }

  /** The path of some discovered file belongs to a cloud row. */
  ghost predicate CloudHolds(items: Items, files: seq<ScanFile>) {
    exists id, k :: id in items && items[id].kind == Cloud && 0 <= k < |files| && items[id].path == files[k].path
  }

  lemma ObstructorIsCloud(t0: Tables, scan: Scan, files: seq<ScanFile>, records: seq<Record>, plan: ScanPlan.Plan,
                          id: RowId, k: nat)
    requires Valid(t0) && DistinctFiles(files) && AllMatched(t0, scan, files, records) &&
             PlanFor(t0, scan, files, records, plan)
    requires id in t0.items && ScanPlan.Untouched(plan, id) && k < |plan.moves| &&
             t0.items[id].path == plan.moves[k].path
    ensures CloudHolds(t0.items, files)
  {
    UntouchedRows(t0, scan, files, records, plan, id);
    var j := FileOfChanged(t0, scan, files, records, k);
    forall f | f in FileSet(files) && f.path == files[j].path ensures f == files[j] {}
    assert !StableRow(t0, scan, FileSet(files), id);
  }

  lemma CloudObstructs(t0: Tables, scan: Scan, files: seq<ScanFile>, records: seq<Record>, plan: ScanPlan.Plan,
                       id: RowId, j: nat)
    requires Valid(t0) && AllMatched(t0, scan, files, records) && PlanFor(t0, scan, files, records, plan)
    requires id in t0.items && t0.items[id].kind == Cloud && j < |files| && t0.items[id].path == files[j].path
    ensures ScanPlan.Obstructed(Paths(t0.items), plan)
  {
    UntouchedRows(t0, scan, files, records, plan, id);
    forall r: RowId ensures !RowAt(t0.items, r, files[j].path) {}
    var k := ChangedOfFile(t0, scan, files, records, j);
    assert Paths(t0.items)[id] == plan.moves[k].path;
  }

  /** The only obstacle to a scan is a cloud row that holds the path of a discovered file. */
  lemma ObstructedByCloud(t0: Tables, scan: Scan, files: seq<ScanFile>, records: seq<Record>, plan: ScanPlan.Plan)
    requires Valid(t0) && DistinctFiles(files) && AllMatched(t0, scan, files, records) &&
             PlanFor(t0, scan, files, records, plan)
    ensures ScanPlan.Obstructed(Paths(t0.items), plan) <==> CloudHolds(t0.items, files)
  {
    var before := Paths(t0.items);
    if ScanPlan.Obstructed(before, plan) {
      var id, k :| id in before && ScanPlan.Untouched(plan, id) && 0 <= k < |plan.moves| &&
          before[id] == plan.moves[k].path;
      ObstructorIsCloud(t0, scan, files, records, plan, id, k);
    }
    if CloudHolds(t0.items, files) {
      var id, j :| id in t0.items && t0.items[id].kind == Cloud && 0 <= j < |files| &&
          t0.items[id].path == files[j].path;
      CloudObstructs(t0, scan, files, records, plan, id, j);
    }
  }

  // ----- staging -----

  /** Only paths differ. */
  ghost predicate OnlyPaths(items: Items, items': Items) {
    items'.Keys == items.Keys && forall id :: id in items ==> items'[id] == items[id].(path := items'[id].path)
  }

  /** The rows were read before the scan, and nothing but staging has changed a path since. */
  ghost predicate RowsRead(rows: Items, before: PathColumn, changed: seq<Record>) {
    forall r :: r in changed && r.target.Some? ==>
      r.target.value in rows && r.target.value in before && rows[r.target.value].path == before[r.target.value]
  }

  /** After m records: only paths differ, and they are the paths of the plan's staging pass. */
  ghost predicate Staged(t: Tables, t': Tables, plan: ScanPlan.Plan, m: nat)
    requires m <= |plan.moves|
  {
    && t' == t.(items := t'.items) && OnlyPaths(t.items, t'.items)
    && ScanPlan.StageState(Paths(t.items), plan, m, Paths(t'.items))
  }

  lemma OnlyPathsStep(items: Items, items': Items, id: RowId, path: string)
    requires OnlyPaths(items, items') && id in items'
    ensures OnlyPaths(items, items'[id := items'[id].(path := path)])
  {
  }

  lemma StagedStep(t: Tables, t': Tables, plan: ScanPlan.Plan, m: nat, id: RowId)
    requires ScanPlan.WellFormed(Paths(t.items), plan) && m < |plan.moves| && Staged(t, t', plan, m)
    requires id in t'.items && plan.moves[m].target == Some(id) && t.items[id].path != plan.moves[m].path
    ensures ScanPlan.Accepts(Paths(t'.items), ScanPlan.SetPath(id, ScanPlan.StagingPath(plan.jobId, id)))
    ensures Staged(t, t'.(items := t'.items[id := t'.items[id].(path := ScanPlan.StagingPath(plan.jobId, id))]), plan,
            m + 1)
  {
    ScanPlan.StageStep(Paths(t.items), plan, m, Paths(t'.items));
    var staged := ScanPlan.StagingPath(plan.jobId, id);
    PathsUpdated(t'.items, id, t'.items[id].(path := staged));
    OnlyPathsStep(t.items, t'.items, id, staged);
  }

  method StageOne(db: Connection, rows: Items, record: Record, jobId: nat, ghost t: Tables, ghost plan: ScanPlan.Plan,
                  ghost m: nat)
    requires ScanPlan.WellFormed(Paths(t.items), plan) && plan.jobId == jobId && m < |plan.moves|
    requires plan.moves[m] == ScanPlan.Move(record.file.path, record.target) && RowsRead(rows, Paths(t.items), [record])
    requires Staged(t, db.t, plan, m)
    modifies db
    ensures Staged(t, db.t, plan, m + 1)
  {
    assert record in [record];
    if record.target.Some? && rows[record.target.value].path != record.file.path {
      var id := record.target.value;
      StagedStep(t, db.t, plan, m, id);
      var ok := UpdateItem(db, id, db.t.items[id].(path := ScanPlan.StagingPath(jobId, id)));
    } else {
      ScanPlan.StageStep(Paths(t.items), plan, m, Paths(db.t.items));
    }
  }

  method StageMatched(db: Connection, rows: Items, changed: seq<Record>, ghost plan: ScanPlan.Plan, jobId: nat)
    requires ScanPlan.WellFormed(Paths(db.t.items), plan) && plan.moves == Moves(changed) && plan.jobId == jobId
    requires RowsRead(rows, Paths(db.t.items), changed)
    modifies db
    ensures Staged(old(db.t), db.t, plan, |plan.moves|)
  {
    ghost var t := db.t;
    for m := 0 to |changed|
      invariant Staged(t, db.t, plan, m)
    {
      assert changed[m] in changed;
      StageOne(db, rows, changed[m], jobId, t, plan, m);
    }
  }

  // ----- removal -----

  /** The identity that a resolution gives row id when nothing is recorded. */
  ghost predicate SavedIdentity(t: Tables, env: Environment, id: RowId, i: Identity)
    requires id in t.items
  {
    if t.items[id].identity.Some? then i == t.items[id].identity.value
    else LocalChoice(t, env, IdentityRepair.SaveRequest(env, id, t.items[id]), i)
  }

  /** Tables tm may have been those between t0 and t when row id was about to go: the row as in t0, some other rows
      gone for good, some identities filled in for good, and new aliases of other rows only. */
  ghost predicate Moment(t0: Tables, t: Tables, tm: Tables, id: RowId) {
    && id in tm.items && id in t0.items && tm.items[id] == t0.items[id] && tm.items.Keys <= t0.items.Keys
    && (forall r :: r in t0.items && r in t.items ==> r in tm.items)
    && (forall r :: r in tm.items ==> IdentityFilled(t0.items, t.items, tm.items, r))
    && t0.aliases <= tm.aliases && t0.keys <= tm.keys
    && forall a :: a in tm.aliases && a !in t0.aliases ==> OwnedElsewhere(tm.items, a.identity, id)
  }

  ghost predicate IdentityFilled(items0: Items, items: Items, now: Items, r: RowId)
    requires r in now
  {
    r in items0 && (now[r].identity == items0[r].identity ||
                    (items0[r].identity.None? && r in items && items[r].identity == now[r].identity))
  }

  /** The hides of the row in t0 are keys in t, all for the one identity that the row was resolved to. */
  ghost predicate KeptAsKey(t0: Tables, t: Tables, env: Environment, id: RowId) {
    exists tm, i :: Moment(t0, t, tm, id) && SavedIdentity(tm, env, id, i) && KeysHold(t0, t, id, i)
  }

  ghost predicate KeysHold(t0: Tables, t: Tables, id: RowId, i: Identity) {
    forall scope :: (scope, id) in t0.hides ==> (scope, CopyKey(i)) in t.keys
  }

  /** Direct hides of removed rows have become keys; all other hides and all keys are still there. */
  ghost predicate HidesKept(t0: Tables, t: Tables, env: Environment, removed: set<RowId>) {
    && t.hides == (set h | h in t0.hides && h.1 !in removed)
    && t0.keys <= t.keys && (forall k :: k in t.keys && k !in t0.keys ==> k.1.CopyKey?)
    && forall id :: id in removed && id in t0.items ==> KeptAsKey(t0, t, env, id)
  }

  ghost predicate Removing(t: Tables, t': Tables, env: Environment, removed: set<RowId>) {
    && t'.items == t.items - removed && t'.nextId == t.nextId && t'.aliases == t.aliases
    && HidesKept(t, t', env, removed)
  }

  /** A key once kept stays kept while only rows of the given kind go and keys are only added. */
  lemma KeptAsKeyStays(t0: Tables, t: Tables, t': Tables, env: Environment, id: RowId)
    requires KeptAsKey(t0, t, env, id)
    requires forall r :: r in t0.items && r in t'.items ==> r in t.items
    requires forall r :: r in t0.items && r in t.items && t0.items[r].identity.None? && t.items[r].identity.Some? ==>
               r in t'.items && t'.items[r].identity == t.items[r].identity
    requires forall scope, i :: (scope, CopyKey(i)) in t.keys ==> (scope, CopyKey(i)) in t'.keys
    ensures KeptAsKey(t0, t', env, id)
  {
    var tm, i :| Moment(t0, t, tm, id) && SavedIdentity(tm, env, id, i) && KeysHold(t0, t, id, i);
    hide SavedIdentity;
    assert Moment(t0, t', tm, id) && KeysHold(t0, t', id, i);
  }

  /** The tables after the identity of row id was resolved to i, its hides were saved, and it was deleted. */
  ghost predicate Dropped(t: Tables, t': Tables, id: RowId, i: Identity) {
    && t'.items == t.items - {id} && t'.nextId == t.nextId && t'.aliases == t.aliases
    && t'.hides == (set h | h in t.hides && h.1 != id)
    && t'.keys == t.keys + IdentityRepair.SavedKeys(t, id, i)
  }

  lemma DroppedRow(t: Tables, t'': Tables, env: Environment, id: RowId, r: Resolution) returns (i: Identity)
    requires UniqueIdentities(t.items) && id in t.items && t.items[id].kind == Local
    requires exists t1 ::
      ResolveStep(t, t1, env, IdentityRepair.SaveRequest(env, id, t.items[id]), r) &&
      t'' == if r.Resolved? && r.identity.Some? then t1.(keys := t1.keys
          + IdentityRepair.SavedKeys(t1, id, r.identity.value)) else t1
    ensures SavedIdentity(t, env, id, i) && Dropped(t, Deleted(t'', id), id, i)
  {
    var q := IdentityRepair.SaveRequest(env, id, t.items[id]);
    var t1 :| ResolveStep(t, t1, env, q, r) &&
      t'' == if r.Resolved? && r.identity.Some? then t1.(keys := t1.keys
          + IdentityRepair.SavedKeys(t1, id, r.identity.value)) else t1;
    ResolveKeepsDistinct(t, t1, env, q, r);
    i := r.identity.value;
    assert IdentityRepair.SavedKeys(t1, id, i) == IdentityRepair.SavedKeys(t, id, i);
  }

  lemma RemoveStep(t: Tables, t': Tables, t'': Tables, env: Environment, removed: set<RowId>, id: RowId, i: Identity)
    requires Removing(t, t', env, removed) && id in t'.items && id !in removed
    requires SavedIdentity(t', env, id, i) && Dropped(t', t'', id, i)
    ensures Removing(t, t'', env, removed + {id})
  {
    hide SavedIdentity; hide KeptAsKey;
    assert t''.items == t.items - (removed + {id});
    assert t''.hides == set h | h in t.hides && h.1 !in removed + {id};
    forall other | other in removed + {id} && other in t.items ensures KeptAsKey(t, t'', env, other) {
      if other == id {
        JustSaved(t, t', t'', env, removed, id, i);
      } else {
        KeptAsKeyStays(t, t', t'', env, other);
      }
    }
  }

  lemma JustSaved(t: Tables, t': Tables, t'': Tables, env: Environment, removed: set<RowId>, id: RowId, i: Identity)
    requires Removing(t, t', env, removed) && id in t'.items && id !in removed
    requires SavedIdentity(t', env, id, i) && Dropped(t', t'', id, i)
    ensures KeptAsKey(t, t'', env, id)
  {
    hide SavedIdentity; hide KeptAsKey;
    assert Moment(t, t'', t', id);
    forall scope | (scope, id) in t.hides ensures (scope, CopyKey(i)) in t''.keys {
      assert (scope, id) in t'.hides;
      assert (scope, CopyKey(i)) in IdentityRepair.SavedKeys(t', id, i);
    }
    ThenKeptAsKey(t, t'', t', env, id, i);
  }

  lemma ThenKeptAsKey(t0: Tables, t: Tables, tm: Tables, env: Environment, id: RowId, i: Identity)
    requires Moment(t0, t, tm, id) && SavedIdentity(tm, env, id, i) && KeysHold(t0, t, id, i)
    ensures KeptAsKey(t0, t, env, id)
  {
    hide Moment; hide SavedIdentity; hide KeysHold;
  }

  ghost predicate RemovedUpTo(t: Tables, t': Tables, env: Environment, before: PathColumn, plan: ScanPlan.Plan, m: nat)
    requires m <= |plan.drops|
  {
    Removing(t, t', env, ScanPlan.Ids(plan.drops[..m])) && ScanPlan.DropState(before, plan, m, Paths(t'.items))
  }

  method RemoveRow(db: Connection, env: Environment, id: RowId, ghost t: Tables, ghost before: PathColumn,
                   ghost plan: ScanPlan.Plan, ghost m: nat)
    requires m < |plan.drops| && plan.drops[m] == id && id !in plan.drops[..m]
    requires RemovedUpTo(t, db.t, env, before, plan, m) && UniqueIdentities(t.items) && id in t.items &&
             t.items[id].kind == Local
    modifies db
    ensures RemovedUpTo(t, db.t, env, before, plan, m + 1)
  {
    ghost var t', removed := db.t, ScanPlan.Ids(plan.drops[..m]);
    var r := IdentityRepair.PreserveHides(db, env, id);
    ghost var i := DroppedRow(t', db.t, env, id, r);
    db.t := Deleted(db.t, id);
    RemoveStep(t, t', db.t, env, removed, id, i);
    DroppedPaths(t, t', db.t, env, before, plan, m);
  }

  lemma DroppedPaths(t: Tables, t': Tables, t'': Tables, env: Environment, before: PathColumn, plan: ScanPlan.Plan,
                     m: nat)
    requires m < |plan.drops| && RemovedUpTo(t, t', env, before, plan, m)
    requires Removing(t, t'', env, ScanPlan.Ids(plan.drops[..m]) + {plan.drops[m]})
    ensures RemovedUpTo(t, t'', env, before, plan, m + 1)
  {
    var id, removed := plan.drops[m], ScanPlan.Ids(plan.drops[..m]);
    assert plan.drops[..m + 1] == plan.drops[..m] + [id];
    assert ScanPlan.Ids(plan.drops[..m + 1]) == removed + {id};
    assert t''.items == t'.items - {id};
    assert Paths(t''.items) == Paths(t'.items) - {id};
  }

  method RemoveRows(db: Connection, env: Environment, drops: seq<RowId>, ghost before: PathColumn,
                    ghost plan: ScanPlan.Plan)
    requires UniqueIdentities(db.t.items) && plan.drops == drops &&
             ScanPlan.DropState(before, plan, 0, Paths(db.t.items))
    requires forall i, j :: 0 <= i < j < |drops| ==> drops[i] != drops[j]
    requires forall id :: id in drops ==> id in db.t.items && db.t.items[id].kind == Local
    modifies db
    ensures RemovedUpTo(old(db.t), db.t, env, before, plan, |drops|)
  {
    ghost var t := db.t;
    NothingRemoved(t, env);
    for m := 0 to |drops|
      invariant RemovedUpTo(t, db.t, env, before, plan, m)
    {
      assert drops[m] in drops;
      RemoveRow(db, env, drops[m], t, before, plan, m);
    }
  }

  lemma NothingRemoved(t: Tables, env: Environment)
    ensures forall drops: seq<RowId> :: Removing(t, t, env, ScanPlan.Ids(drops[..0]))
  {
    assert t.items - {} == t.items;
  }

  // ----- apply -----

  /** The scanner-owned columns of a row after its file was applied; every other column is the base row's. */
  function Content(base: Item, scan: Scan, f: ScanFile, knownYear: Option<int>): Item {
    base.(path := f.path,
          kind := Local,
          source := scan.source,
          titling := Titling(f.stem, if f.inferredYear.Some? then f.inferredYear else knownYear, f.name),
          size := f.stat.size,
          mtime := f.stat.mtime,
          folder := f.folder)
  }

  function BlankItem(f: ScanFile): Item {
    Item("", Local, 0, Titling("", None, ""), 0, 0, f.folder, "", "", None)
  }

  /** The content that changed record k gives to its row; `base` holds the rows before the apply pass. */
  function ContentFor(base: Items, scan: Scan, rows: Items, record: Record): Item {
    if record.target.Some? && record.target.value in base && record.target.value in rows
    then Content(base[record.target.value], scan, record.file, rows[record.target.value].titling.year)
    else Content(BlankItem(record.file), scan, record.file, None)
  }

  ghost predicate Filled(base: Items, items: Items, scan: Scan, rows: Items, record: Record, id: RowId) {
    && id in items
    && items[id].identity.Some?
    && items[id] == ContentFor(base, scan, rows, record).(identity := items[id].identity)
    && (record.target == Some(id) && id in base && base[id].identity.Some? ==> items[id].identity == base[id].identity)
  }

  ghost predicate Pass(before: PathColumn, plan: ScanPlan.Plan, changed: seq<Record>, rows: Items, base: Items) {
    && ScanPlan.WellFormed(before, plan) && plan.moves == Moves(changed)
    && (forall r :: r in changed && r.target.Some? ==>
          r.target.value in rows && r.target.value in base && base[r.target.value].kind == Local)
    && (forall id :: id in base ==> id < plan.nextId)
  }

  ghost predicate Reached(plan: ScanPlan.Plan, m: nat, id: RowId)
    requires m <= |plan.moves|
  {
    exists k :: 0 <= k < m && ScanPlan.RowFor(plan, k) == id
  }

  lemma ReachedStep(plan: ScanPlan.Plan, m: nat, id: RowId)
    requires m < |plan.moves|
    ensures Reached(plan, m + 1, id) <==> Reached(plan, m, id) || id == ScanPlan.RowFor(plan, m)
  {
  }

  /** Rows not reached yet are as before the pass, and there are no other new rows. */
  ghost predicate FrameKept(base: Items, items: Items, plan: ScanPlan.Plan, m: nat)
    requires m <= |plan.moves|
  {
    && (forall id :: id in base && !Reached(plan, m, id) ==> id in items && items[id] == base[id])
    && (forall id :: id in items ==> id in base || Reached(plan, m, id))
  }

  ghost predicate AllFilled(base: Items, items: Items, plan: ScanPlan.Plan, changed: seq<Record>, scan: Scan,
                            rows: Items, m: nat)
    requires m <= |plan.moves| && plan.moves == Moves(changed)
  {
    forall k :: 0 <= k < m ==> Filled(base, items, scan, rows, changed[k], ScanPlan.RowFor(plan, k))
  }

  ghost predicate Bounded(t: Tables, plan: ScanPlan.Plan, m: nat)
    requires m <= |plan.moves|
  {
    t.nextId == plan.nextId + ScanPlan.Inserted(plan.moves, m) && forall id :: id in t.items ==> id < t.nextId
  }

  ghost predicate Applied(tb: Tables, t: Tables, before: PathColumn, plan: ScanPlan.Plan, changed: seq<Record>,
                          scan: Scan, rows: Items, m: nat)
    requires m <= |plan.moves| && plan.moves == Moves(changed)
  {
    && t.hides == tb.hides && t.keys == tb.keys && tb.aliases <= t.aliases
    && UniqueIdentities(t.items)
    && ScanPlan.ApplyState(before, plan, m, Paths(t.items))
    && Bounded(t, plan, m)
    && FrameKept(tb.items, t.items, plan, m)
    && AllFilled(tb.items, t.items, plan, changed, scan, rows, m)
  }

  lemma FrameStep(base: Items, items: Items, plan: ScanPlan.Plan, m: nat, item: Item)
    requires m < |plan.moves| && FrameKept(base, items, plan, m)
    ensures FrameKept(base, items[ScanPlan.RowFor(plan, m) := item], plan, m + 1)
  {
    forall other ensures Reached(plan, m + 1, other) <==> Reached(plan, m, other) || other == ScanPlan.RowFor(plan, m) {
      ReachedStep(plan, m, other);
    }
  }

  lemma FilledStep(before: PathColumn, base: Items, items: Items, plan: ScanPlan.Plan, changed: seq<Record>,
                   scan: Scan, rows: Items, m: nat, item: Item)
    requires ScanPlan.WellFormed(before, plan) && plan.moves == Moves(changed) && m < |plan.moves|
    requires AllFilled(base, items, plan, changed, scan, rows, m)
    requires Filled(base, items[ScanPlan.RowFor(plan, m) := item], scan, rows, changed[m], ScanPlan.RowFor(plan, m))
    ensures AllFilled(base, items[ScanPlan.RowFor(plan, m) := item], plan, changed, scan, rows, m + 1)
  {
    ScanPlan.OtherRows(before, plan, m);
  }

  lemma BoundedStep(t: Tables, t': Tables, plan: ScanPlan.Plan, changed: seq<Record>, m: nat)
    requires plan.moves == Moves(changed) && m < |plan.moves| && Bounded(t, plan, m)
    requires ScanPlan.RowFor(plan, m) in t'.items && t'.items.Keys == t.items.Keys + {ScanPlan.RowFor(plan, m)}
    requires changed[m].target.Some? ==> changed[m].target.value < plan.nextId
    requires t'.nextId == t.nextId + (if changed[m].target.None? then 1 else 0)
    ensures Bounded(t', plan, m + 1)
  {
  }

  /** One record: the write is accepted unless an untouched row is in the way, then the row is filled. */
  lemma AppliedStep(tb: Tables, t: Tables, t': Tables, before: PathColumn, plan: ScanPlan.Plan, changed: seq<Record>,
                    scan: Scan, rows: Items, m: nat)
    requires Pass(before, plan, changed, rows, tb.items) && m < |plan.moves| &&
             Applied(tb, t, before, plan, changed, scan, rows, m)
    requires var id := ScanPlan.RowFor(plan, m);
             id in t'.items && t'.items == t.items[id := t'.items[id]] &&
                 Filled(tb.items, t'.items, scan, rows, changed[m], id)
    requires t'.hides == t.hides && t'.keys == t.keys && t.aliases <= t'.aliases && UniqueIdentities(t'.items)
    requires t'.nextId == t.nextId + (if changed[m].target.None? then 1 else 0)
    ensures Applied(tb, t', before, plan, changed, scan, rows, m + 1)
  {
    var id := ScanPlan.RowFor(plan, m);
    assert changed[m] in changed;
    PathsUpdated(t.items, id, t'.items[id]);
    ScanPlan.ApplyStep(before, plan, m, Paths(t.items));
    FrameStep(tb.items, t.items, plan, m, t'.items[id]);
    FilledStep(before, tb.items, t.items, plan, changed, scan, rows, m, t'.items[id]);
    BoundedStep(t, t', plan, changed, m);
  }

  function WriteOf(t: Tables, record: Record): ScanPlan.Write {
    if record.target.Some? then ScanPlan.SetPath(record.target.value, record.file.path)
    else ScanPlan.Insert(t.nextId, record.file.path)
  }

  function Wrote(t: Tables, scan: Scan, rows: Items, record: Record, id: RowId): Tables {
    t.(items := t.items[id := ContentFor(t.items, scan, rows, record)],
       nextId := t.nextId + if record.target.None? then 1 else 0)
  }

  /** The UPDATE of a matched row, or the INSERT of a new one. */
  method WriteRecord(db: Connection, scan: Scan, rows: Items, record: Record) returns (ok: bool, id: RowId)
    requires record.target.Some? ==> record.target.value in db.t.items && record.target.value in rows
    requires forall id :: id in db.t.items ==> id < db.t.nextId
    modifies db
    ensures ok <==> ScanPlan.Accepts(Paths(old(db.t.items)), WriteOf(old(db.t), record))
    ensures id == if record.target.Some? then record.target.value else old(db.t.nextId)
    ensures db.t == if ok then Wrote(old(db.t), scan, rows, record, id) else old(db.t)
  {
    if record.target.Some? {
      id := record.target.value;
      ok := UpdateItem(db, id, Content(db.t.items[id], scan, record.file, rows[id].titling.year));
    } else {
      id := db.t.nextId;
      ok := InsertItem(db, Content(BlankItem(record.file), scan, record.file, None));
    }
  }

  lemma WrittenDistinct(t: Tables, scan: Scan, rows: Items, record: Record, id: RowId)
    requires UniqueIdentities(t.items)
    requires record.target.Some? ==> record.target.value == id && id in t.items && id in rows
    ensures UniqueIdentities(Wrote(t, scan, rows, record, id).items)
  {
  }

  /** The alias identities a new row must not take over: those that still point at displaced rows. */
  function Blocked(displaced: set<Identity>, record: Record): set<Identity> {
    if record.target.None? then record.identities * displaced else {}
  }

  lemma ResolvedRow(tb: Tables, t: Tables, t1: Tables, t': Tables, before: PathColumn, plan: ScanPlan.Plan,
                    changed: seq<Record>, scan: Scan, rows: Items, m: nat, q: Request, r: Resolution)
    requires Pass(before, plan, changed, rows, tb.items) && m < |plan.moves| &&
             Applied(tb, t, before, plan, changed, scan, rows, m)
    requires q.id == ScanPlan.RowFor(plan, m)
    requires changed[m].target.Some? ==> q.id in t.items
    requires t1 == Wrote(t, scan, rows, changed[m], q.id)
    requires q.item == t1.items[q.id] && ResolveStep(t1, t', scan.env, q, r)
    ensures Applied(tb, t', before, plan, changed, scan, rows, m + 1)
  {
    assert changed[m] in changed;
    WrittenDistinct(t, scan, rows, changed[m], q.id);
    ResolveKeepsDistinct(t1, t', scan.env, q, r);
    BaseRow(tb, t, before, plan, changed, scan, rows, m);
    ItemsAfter(t, t1, t', q.id);
    FilledRow(tb.items, t1.items, t'.items, scan, rows, changed[m], q.id);
    AppliedStep(tb, t, t', before, plan, changed, scan, rows, m);
  }

  lemma BaseRow(tb: Tables, t: Tables, before: PathColumn, plan: ScanPlan.Plan, changed: seq<Record>, scan: Scan,
                rows: Items, m: nat)
    requires ScanPlan.WellFormed(before, plan) && plan.moves == Moves(changed) && m < |plan.moves|
    requires FrameKept(tb.items, t.items, plan, m)
    requires changed[m].target.Some? ==> changed[m].target.value in t.items && changed[m].target.value in tb.items
    ensures ContentFor(t.items, scan, rows, changed[m]) == ContentFor(tb.items, scan, rows, changed[m])
  {
    ScanPlan.OtherRows(before, plan, m);
    assert !Reached(plan, m, ScanPlan.RowFor(plan, m));
  }

  lemma ItemsAfter(t: Tables, t1: Tables, t': Tables, id: RowId)
    requires id in t1.items && t1.items == t.items[id := t1.items[id]] && t'.items.Keys == t1.items.Keys
    requires forall other :: other in t1.items && other != id ==> t'.items[other] == t1.items[other]
    ensures t'.items == t.items[id := t'.items[id]]
  {
  }

  lemma FilledRow(base: Items, items1: Items, items': Items, scan: Scan, rows: Items, record: Record, id: RowId)
    requires id in items1 && id in items' && items1[id] == ContentFor(base, scan, rows, record)
    requires items'[id] == items1[id].(identity := items'[id].identity) && items'[id].identity.Some?
    requires items1[id].identity.Some? ==> items'[id].identity == items1[id].identity
    requires record.target.Some? ==> record.target.value in base && record.target.value in rows
    ensures Filled(base, items', scan, rows, record, id)
  {
  }

  ghost predicate InTheWay(before: PathColumn, plan: ScanPlan.Plan, k: nat)
    requires k < |plan.moves|
  {
    exists id :: id in before && ScanPlan.Untouched(plan, id) && before[id] == plan.moves[k].path
  }

  /** Nothing is in the way of the first m records. */
  ghost predicate Clear(before: PathColumn, plan: ScanPlan.Plan, m: nat)
    requires m <= |plan.moves|
  {
    m == 0 || (!InTheWay(before, plan, m - 1) && Clear(before, plan, m - 1))
  }

  lemma {:induction false} ClearMeansFree(before: PathColumn, plan: ScanPlan.Plan, m: nat)
    requires m <= |plan.moves|
    ensures Clear(before, plan, m) <==> forall k :: 0 <= k < m ==> !InTheWay(before, plan, k)
  {
    if m > 0 {
      ClearMeansFree(before, plan, m - 1);
    }
  }

  lemma ClearOrObstructed(before: PathColumn, plan: ScanPlan.Plan, m: nat)
    requires m <= |plan.moves|
    ensures !Clear(before, plan, m) ==> ScanPlan.Obstructed(before, plan)
    ensures Clear(before, plan, |plan.moves|) ==> !ScanPlan.Obstructed(before, plan)
  {
    ClearMeansFree(before, plan, m);
    ClearMeansFree(before, plan, |plan.moves|);
    if ScanPlan.Obstructed(before, plan) {
      var id, k :| id in before && ScanPlan.Untouched(plan, id) && 0 <= k < |plan.moves| &&
          before[id] == plan.moves[k].path;
      assert InTheWay(before, plan, k);
    }
  }

  /** The first m changed files that are traceable are traced in their rows. */
  ghost predicate ChangedTraced(t: Tables, scan: Scan, plan: ScanPlan.Plan, changed: seq<Record>, m: nat)
    requires m <= |plan.moves| && plan.moves == Moves(changed)
  {
    forall k :: 0 <= k < m && Traceable(scan.env, changed[k].file) ==>
        TracedAt(t, scan.env, changed[k].file, ScanPlan.RowFor(plan, k))
  }

  lemma OtherRowTraced(t: Tables, t': Tables, scan: Scan, f: ScanFile, other: RowId, id: RowId)
    requires TracedAt(t, scan.env, f, other) && other != id && t.aliases <= t'.aliases
    requires id in t'.items && t'.items == t.items[id := t'.items[id]]
    ensures TracedAt(t', scan.env, f, other)
  {
    ContinuesGrows(t.aliases, t'.aliases, scan.env, t.items[other], f);
  }

  lemma FilledRowTraced(base: Items, t1: Tables, t': Tables, scan: Scan, rows: Items, record: Record, id: RowId,
                        q: Request, r: Resolution)
    requires id in t1.items && q.id == id && q.item == t1.items[id] && ResolveStep(t1, t', scan.env, q, r)
    requires q.path == record.file.path && q.stat == Some(record.file.stat) && q.record && q.withSample
    requires Filled(base, t'.items, scan, rows, record, id) && t1.items[id].kind == Local &&
             t1.items[id].source == t'.items[id].source
    requires Traceable(scan.env, record.file)
    ensures TracedAt(t', scan.env, record.file, id)
  {
    var row, f := t'.items[id], record.file;
    assert t'.items[id].identity == r.identity;
    assert NewAliases(scan.env, row, row.identity.value, f.path, Some(f.stat), true)
        == NewAliases(scan.env, q.item, row.identity.value, f.path, Some(f.stat), true);
    RecordedIsKnown(t'.aliases, scan.env, row, f, true);
  }

  lemma TracedStep(tb: Tables, t: Tables, t1: Tables, t': Tables, before: PathColumn, plan: ScanPlan.Plan,
                   changed: seq<Record>, scan: Scan, rows: Items, m: nat, q: Request, r: Resolution)
    requires ScanPlan.WellFormed(before, plan) && plan.moves == Moves(changed) && m < |plan.moves|
    requires ChangedTraced(t, scan, plan, changed, m) && Applied(tb, t', before, plan, changed, scan, rows, m + 1)
    requires q.id == ScanPlan.RowFor(plan, m) && t1 == Wrote(t, scan, rows, changed[m], q.id) &&
             UniqueIdentities(t1.items)
    requires q.path == changed[m].file.path && q.stat == Some(changed[m].file.stat) && q.record && q.withSample
    requires q.item == t1.items[q.id] && ResolveStep(t1, t', scan.env, q, r)
    ensures ChangedTraced(t', scan, plan, changed, m + 1)
  {
    var id := q.id;
    ResolveKeepsDistinct(t1, t', scan.env, q, r);
    ItemsAfter(t, t1, t', id);
    ScanPlan.OtherRows(before, plan, m);
    assert Filled(tb.items, t'.items, scan, rows, changed[m], id);
    hide Filled; hide Applied; hide ResolveStep; hide TracedAt; hide Traceable; hide UniqueIdentities;
    forall k | 0 <= k < m + 1 && Traceable(scan.env, changed[k].file)
      ensures TracedAt(t', scan.env, changed[k].file, ScanPlan.RowFor(plan, k))
    {
      if k == m {
        FilledRowTraced(tb.items, t1, t', scan, rows, changed[m], id, q, r);
      } else {
        OtherRowTraced(t, t', scan, changed[k].file, ScanPlan.RowFor(plan, k), id);
      }
    }
  }

  lemma WriteKeepsRandom(tb: Tables, t: Tables, t1: Tables, t': Tables, before: PathColumn, plan: ScanPlan.Plan,
                         changed: seq<Record>, scan: Scan, rows: Items, m: nat, q: Request, r: Resolution)
    requires Pass(before, plan, changed, rows, tb.items) && m < |plan.moves| && FrameKept(tb.items, t.items, plan, m)
    requires q.id == ScanPlan.RowFor(plan, m) && t1 == Wrote(t, scan, rows, changed[m], q.id)
    requires q.item == t1.items[q.id] && ResolveStep(t1, t', scan.env, q, r) && RandomLocals(t)
    ensures RandomLocals(t')
  {
    assert changed[m] in changed;
    ScanPlan.OtherRows(before, plan, m);
    if changed[m].target.Some? {
      assert !Reached(plan, m, q.id);
      assert t.items[q.id] == tb.items[q.id];
    }
    assert RandomLocals(t1);
    ResolutionKeepsRandom(t1, t', scan.env, q, r);
  }

  /** The identity that waits for a changed file without a row when the apply pass begins. */
  ghost predicate Due(tb: Tables, scan: Scan, changed: seq<Record>, displaced: set<Identity>, k: nat, i: Identity)
    requires k < |changed|
  {
    var f := changed[k].file;
    && changed[k].target.None? && i !in displaced && HasAlias(tb, i) && (forall id :: !OwnedBy(tb.items, i, id))
    && AcceptedIdentities(tb.aliases, Search(scan.source, Some(scan.env.locator(f.path)), false),
                          FileEvidence(scan.source, f, true)) == {i}
    && forall j :: 0 <= j < |changed| && j != k ==> Apart(tb, scan.env, f.path, i, changed[j].file.path)
  }

  /** Every file applied so far has the identity that was due to it; the others' identities still wait. */
  ghost predicate ReturnedUpTo(tb: Tables, t: Tables, scan: Scan, plan: ScanPlan.Plan, changed: seq<Record>,
                               displaced: set<Identity>, m: nat)
    requires m <= |plan.moves| && plan.moves == Moves(changed)
  {
    forall k, i :: 0 <= k < |changed| && Due(tb, scan, changed, displaced, k, i) ==>
      if k < m then OwnedBy(t.items, i, ScanPlan.RowFor(plan, k))
      else Waiting(tb, t, scan.env, changed[k].file.path, i)
  }

  lemma NoneReturned(tb: Tables, scan: Scan, plan: ScanPlan.Plan, changed: seq<Record>, displaced: set<Identity>)
    requires plan.moves == Moves(changed)
    ensures ReturnedUpTo(tb, tb, scan, plan, changed, displaced, 0)
  {
  }

  /** The INSERT or UPDATE takes no identity. */
  lemma WriteTakesNone(tb: Tables, t: Tables, scan: Scan, rows: Items, record: Record, id: RowId, path: string,
                       i: Identity)
    requires Waiting(tb, t, scan.env, path, i) && (record.target.Some? ==> record.target == Some(id))
    ensures Waiting(tb, Wrote(t, scan, rows, record, id), scan.env, path, i)
  {
    var t1 := Wrote(t, scan, rows, record, id);
    forall r ensures !OwnedBy(t1.items, i, r) {
      assert !OwnedBy(t.items, i, r);
      assert record.target.Some? && record.target.value in t.items ==> !OwnedBy(t.items, i, record.target.value);
    }
  }

  lemma DueReturns(tb: Tables, t1: Tables, t': Tables, changed: seq<Record>, displaced: set<Identity>, scan: Scan,
                   m: nat, i: Identity, q: Request, r: Resolution)
    requires m < |changed| && Due(tb, scan, changed, displaced, m, i)
    requires Waiting(tb, t1, scan.env, changed[m].file.path, i)
    requires q.id in t1.items && q.item == t1.items[q.id] && q.item.kind == Local && q.item.source == scan.source
    requires q == Request(q.id, q.item, changed[m].file.path, Some(changed[m].file.stat), true, true,
                          Blocked(displaced, changed[m]))
    requires q.item.identity.None? && ResolveStep(t1, t', scan.env, q, r)
    ensures OwnedBy(t'.items, i, q.id)
  {
    WaitingIsFree(tb, t1, scan.env, q, i);
    hide FreeCandidates;
    assert r.identity.value in {i};
  }

  lemma ReturnedStep(tb: Tables, t: Tables, t1: Tables, t': Tables, before: PathColumn, plan: ScanPlan.Plan,
                     changed: seq<Record>, displaced: set<Identity>, scan: Scan, rows: Items, m: nat, q: Request,
                     r: Resolution)
    requires ScanPlan.WellFormed(before, plan) && plan.moves == Moves(changed) && m < |plan.moves|
    requires ReturnedUpTo(tb, t, scan, plan, changed, displaced, m)
    requires q.id == ScanPlan.RowFor(plan, m) && t1 == Wrote(t, scan, rows, changed[m], q.id)
    requires UniqueIdentities(t1.items)
    requires q == Request(q.id, t1.items[q.id], changed[m].file.path, Some(changed[m].file.stat), true, true,
                          Blocked(displaced, changed[m]))
    requires ResolveStep(t1, t', scan.env, q, r)
    ensures ReturnedUpTo(tb, t', scan, plan, changed, displaced, m + 1)
  {
    ScanPlan.OtherRows(before, plan, m);
    hide Apart; hide Wrote;
    ResolveKeepsDistinct(t1, t', scan.env, q, r);
    ItemsAfter(t, t1, t', q.id);
    ResolutionLeavesWaiting(tb, t1, t', scan.env, q, r);
    hide UniqueIdentities; hide ResolveStep;
    forall k, i | 0 <= k < |changed| && Due(tb, scan, changed, displaced, k, i)
      ensures if k < m + 1 then OwnedBy(t'.items, i, ScanPlan.RowFor(plan, k))
              else Waiting(tb, t', scan.env, changed[k].file.path, i)
    {
      if k < m {
        assert OwnedBy(t.items, i, ScanPlan.RowFor(plan, k)) && ScanPlan.RowFor(plan, k) != q.id;
      } else {
        WriteTakesNone(tb, t, scan, rows, changed[m], q.id, changed[k].file.path, i);
        if k == m { DueReturns(tb, t1, t', changed, displaced, scan, m, i, q, r); }
      }
    }
  }

  lemma WriteFacts(tb: Tables, t: Tables, before: PathColumn, plan: ScanPlan.Plan, changed: seq<Record>, scan: Scan,
                   rows: Items, m: nat)
    requires Pass(before, plan, changed, rows, tb.items) && m < |changed|
    requires Applied(tb, t, before, plan, changed, scan, rows, m)
    ensures ScanPlan.WellFormed(before, plan) && plan.moves == Moves(changed)
    ensures changed[m].target.Some? ==> changed[m].target.value in t.items && changed[m].target.value in rows
    ensures UniqueIdentities(t.items) && forall id :: id in t.items ==> id < t.nextId
    ensures ScanPlan.RowFor(plan, m) == if changed[m].target.Some? then changed[m].target.value else t.nextId
    ensures ScanPlan.Accepts(Paths(t.items), WriteOf(t, changed[m])) <==> !InTheWay(before, plan, m)
  {
    assert changed[m] in changed;
    ScanPlan.ApplyFresh(before, plan, m, Paths(t.items));
    ScanPlan.ApplyAccepts(before, plan, m, Paths(t.items));
    assert WriteOf(t, changed[m]) == ScanPlan.ApplyWrite(plan, m);
  }

  method ApplyOne(db: Connection, scan: Scan, rows: Items, record: Record, displaced: set<Identity>, ghost tb: Tables,
                  ghost before: PathColumn, ghost plan: ScanPlan.Plan, ghost changed: seq<Record>, ghost m: nat)
                      returns (ok: bool)
    requires Pass(before, plan, changed, rows, tb.items) && m < |changed| && changed[m] == record
    requires Applied(tb, db.t, before, plan, changed, scan, rows, m) && ChangedTraced(db.t, scan, plan, changed, m)
    requires ReturnedUpTo(tb, db.t, scan, plan, changed, displaced, m)
    modifies db
    ensures ok <==> !InTheWay(before, plan, m)
    ensures ok ==> Applied(tb, db.t, before, plan, changed, scan, rows, m + 1)
    ensures ok ==> ReturnedUpTo(tb, db.t, scan, plan, changed, displaced, m + 1)
    ensures ok ==> ChangedTraced(db.t, scan, plan, changed, m + 1)
    ensures ok && RandomLocals(old(db.t)) ==> RandomLocals(db.t)
  {
    ghost var t := db.t;
    WriteFacts(tb, t, before, plan, changed, scan, rows, m);
    hide Pass; hide Applied; hide ChangedTraced; hide ReturnedUpTo; hide ResolveStep; hide RandomLocals; hide WriteOf;
    hide UniqueIdentities; hide InTheWay;
    var id;
    ok, id := WriteRecord(db, scan, rows, record);
    if ok {
      ghost var t1 := db.t;
      var q := Request(id, db.t.items[id], record.file.path, Some(record.file.stat), true, true,
          Blocked(displaced, record));
      var r := ResolveIdentity(db, scan.env, q);
      ResolvedRow(tb, t, t1, db.t, before, plan, changed, scan, rows, m, q, r);
      WrittenDistinct(t, scan, rows, record, id);
      TracedStep(tb, t, t1, db.t, before, plan, changed, scan, rows, m, q, r);
      ReturnedStep(tb, t, t1, db.t, before, plan, changed, displaced, scan, rows, m, q, r);
      if RandomLocals(t) { WriteKeepsRandom(tb, t, t1, db.t, before, plan, changed, scan, rows, m, q, r); }
    }
  }

  method ApplyRecords(db: Connection, scan: Scan, rows: Items, changed: seq<Record>, displaced: set<Identity>,
                      ghost before: PathColumn, ghost plan: ScanPlan.Plan) returns (ok: bool)
    requires Pass(before, plan, changed, rows, db.t.items) && Applied(db.t, db.t, before, plan, changed, scan, rows, 0)
    modifies db
    ensures ok <==> !ScanPlan.Obstructed(before, plan)
    ensures ok ==> Applied(old(db.t), db.t, before, plan, changed, scan, rows, |changed|)
    ensures ok ==> ChangedTraced(db.t, scan, plan, changed, |changed|)
    ensures ok ==> ReturnedUpTo(old(db.t), db.t, scan, plan, changed, displaced, |changed|)
    ensures ok && RandomLocals(old(db.t)) ==> RandomLocals(db.t)
  {
    hide Applied; hide ReturnedUpTo;
    ghost var tb := db.t;
    NoneReturned(tb, scan, plan, changed, displaced);
    for m := 0 to |changed|
      invariant Applied(tb, db.t, before, plan, changed, scan, rows, m) && ChangedTraced(db.t, scan, plan, changed, m)
      invariant ReturnedUpTo(tb, db.t, scan, plan, changed, displaced, m)
      invariant RandomLocals(tb) ==> RandomLocals(db.t)
      invariant Clear(before, plan, m)
    {
      ok := ApplyOne(db, scan, rows, changed[m], displaced, tb, before, plan, changed, m);
      if !ok {
        ClearOrObstructed(before, plan, m + 1);
        return;
      }
    }
    ClearOrObstructed(before, plan, |changed|);
    ok := true;
  }
}
