/** The whole scan as one transaction: what it leaves behind, and what a failure undoes. */
module LibraryScan {
  import opened Options
  import opened LibraryTables
  import opened CopyEvidence
  import opened CopyIdentity
  import opened WaitingIdentities
  import opened ScanMatching
  import opened MediaScan
  import HiddenKeys
  import ScanPlan

  // ----- what a completed scan means -----

  /** Row id is the right holder of file f after the scan: the stable row untouched, the matched row with the
      file's content, or, when the file has neither, a row that did not exist before. */
  ghost predicate Holds(t0: Tables, items: Items, scan: Scan, files: set<ScanFile>, f: ScanFile, id: RowId)
    requires id in items
  {
    var row := items[id];
    if Stable(t0, scan, f) then
      StableAt(t0, scan, f, id) && row == t0.items[id].(identity := row.identity)
    else if exists r :: Matched(t0, scan, files, f, r) then
      Matched(t0, scan, files, f, id) && row == Content(t0.items[id], scan, f, t0.items[id].titling.year).(identity :=
          row.identity)
    else
      id >= t0.nextId && row == Content(BlankItem(f), scan, f, None).(identity := row.identity)
  }

  /** Files and local rows correspond one to one by path, cloud rows are all still there, and no row lost
      the identity it had. */
  ghost predicate Reconciled(t0: Tables, items: Items, scan: Scan, files: set<ScanFile>) {
    && UniquePaths(items)
    && (forall f :: f in files ==> exists id :: RowAt(items, id, f.path) && Holds(t0, items, scan, files, f, id))
    && (forall id :: id in items && items[id].kind == Local ==> exists f :: f in files && f.path == items[id].path)
    && (forall id :: id in items && items[id].kind == Cloud ==> id in t0.items && t0.items[id].kind == Cloud)
    && (forall id :: id in t0.items && t0.items[id].kind == Cloud ==>
       id in items && items[id] == t0.items[id].(identity := items[id].identity))
    && (forall id :: id in t0.items && id in items && t0.items[id].identity.Some? ==>
       items[id].identity == t0.items[id].identity)
    && (forall id :: id in t0.items ==> (id in items <==> !(id in RemovedRows(t0, scan, files))))
  }

  /** Every direct hide is still there with its row, or the row is gone and its hides, in all scopes, have become
      keys for the one identity that the row had, or was given when it went. */
  ghost predicate HidesSurvive(t0: Tables, t: Tables, env: Environment) {
    && (forall h :: h in t0.hides && h.1 in t.items ==> h in t.hides)
    && (forall id :: id in t0.items && id !in t.items ==> KeptAsKey(t0, t, env, id))
  }

  // ----- the passes seen together -----

  /** The tables before the scan and after each of its passes, with what the passes worked on. */
  datatype Passes = Passes(
    before: Tables, classified: Tables, staged: Tables, removed: Tables, applied: Tables,
    scan: Scan, files: seq<ScanFile>, records: seq<Record>, plan: ScanPlan.Plan, seen: set<RowId>)

  ghost predicate Pipeline(p: Passes) {
    && Valid(p.before) && DistinctFiles(p.files)
    && Classifying(p.before, p.classified, p.seen) &&
       OnlyStableTouched(p.before, p.classified, p.scan, FileSet(p.files))
    && AllMatched(p.before, p.scan, p.files, p.records) && PlanFor(p.before, p.scan, p.files, p.records, p.plan)
    && ScanPlan.WellFormed(Paths(p.before.items), p.plan) && !ScanPlan.Obstructed(Paths(p.before.items), p.plan)
    && Staged(p.classified, p.staged, p.plan, |p.plan.moves|)
    && Removing(p.staged, p.removed, p.scan.env, ScanPlan.Ids(p.plan.drops))
    && Applied(p.removed, p.applied, Paths(p.before.items), p.plan, Changed(p.records), p.scan,
       LocalRows(p.before.items), |p.plan.moves|)
  }

  /** The rows between removal and apply: those that were not dropped, with everything but path and
      missing identities as before the scan, and with their path unless they were staged. */
  lemma RowsBeforeApply(t0: Tables, tc: Tables, ts: Tables, tr: Tables, env: Environment, plan: ScanPlan.Plan,
                        seen: set<RowId>, id: RowId)
    requires Classifying(t0, tc, seen) && Staged(tc, ts, plan, |plan.moves|) &&
             Removing(ts, tr, env, ScanPlan.Ids(plan.drops))
    ensures id in tr.items <==> id in t0.items && id !in plan.drops
    ensures id in tr.items ==>
      tr.items[id] == t0.items[id].(path := tr.items[id].path, identity := tr.items[id].identity) &&
      (t0.items[id].identity.Some? ==> tr.items[id].identity == t0.items[id].identity) &&
      (ScanPlan.Untouched(plan, id) ==> tr.items[id].path == t0.items[id].path)
  {
    assert Paths(tc.items) == Paths(t0.items);
    if id in tr.items && ScanPlan.Untouched(plan, id) {
      assert !ScanPlan.Moved(Paths(t0.items), plan, |plan.moves|, id);
      assert Paths(ts.items)[id] == ts.items[id].path;
    }
  }

  /** A row the plan leaves alone is, apart from a missing identity, as before the scan. */
  lemma UntouchedAfter(p: Passes, id: RowId)
    requires Pipeline(p)
    requires id in p.before.items && ScanPlan.Untouched(p.plan, id)
    ensures id in p.applied.items && p.applied.items[id] ==
            p.before.items[id].(identity := p.applied.items[id].identity)
    ensures p.before.items[id].identity.Some? ==> p.applied.items[id].identity == p.before.items[id].identity
  {
    RowsBeforeApply(p.before, p.classified, p.staged, p.removed, p.scan.env, p.plan, p.seen, id);
    forall k | 0 <= k < |p.plan.moves| ensures ScanPlan.RowFor(p.plan, k) != id {
      ScanPlan.OtherRows(Paths(p.before.items), p.plan, k);
    }
    assert !Reached(p.plan, |p.plan.moves|, id);
  }

  /** The row of a changed file carries the file's content. */
  lemma ChangedAfter(p: Passes, k: nat)
    requires Pipeline(p) && k < |Changed(p.records)|
    ensures var id, record := ScanPlan.RowFor(p.plan, k), Changed(p.records)[k];
            && id in p.applied.items && p.applied.items[id].path == record.file.path &&
               p.applied.items[id].kind == Local
            && (match record.target
                case Some(r) =>
                  id == r && id in p.before.items &&
                  p.applied.items[id] == Content(p.before.items[id], p.scan, record.file,
                      p.before.items[id].titling.year).(identity := p.applied.items[id].identity) &&
                  (p.before.items[id].identity.Some? ==> p.applied.items[id].identity == p.before.items[id].identity)
                case None =>
                  id >= p.before.nextId &&
                  p.applied.items[id] == Content(BlankItem(record.file), p.scan, record.file, None).(identity :=
                      p.applied.items[id].identity))
  {
    var id, record := ScanPlan.RowFor(p.plan, k), Changed(p.records)[k];
    assert Filled(p.removed.items, p.applied.items, p.scan, LocalRows(p.before.items), record, id);
    if record.target.Some? {
      var j := FileOfChanged(p.before, p.scan, p.files, p.records, k);
      assert Matched(p.before, p.scan, FileSet(p.files), p.files[j], id);
      assert id in LocalRows(p.before.items) && id !in p.plan.drops by {
        assert id in p.plan.drops <==> id in RemovedRows(p.before, p.scan, FileSet(p.files));
        assert MatchedRow(p.before, p.scan, FileSet(p.files), id);
      }
      RowsBeforeApply(p.before, p.classified, p.staged, p.removed, p.scan.env, p.plan, p.seen, id);
    }
  }

  lemma StableHolder(p: Passes, j: nat) returns (id: RowId)
    requires Pipeline(p) && j < |p.files| && Stable(p.before, p.scan, p.files[j])
    ensures RowAt(p.applied.items, id, p.files[j].path) &&
            Holds(p.before, p.applied.items, p.scan, FileSet(p.files), p.files[j], id)
  {
    var f := p.files[j];
    id :| StableAt(p.before, p.scan, f, id);
    assert f in FileSet(p.files) && StableRow(p.before, p.scan, FileSet(p.files), id);
    UntouchedRows(p.before, p.scan, p.files, p.records, p.plan, id);
    UntouchedAfter(p, id);
  }

  lemma ChangedHolder(p: Passes, j: nat) returns (id: RowId)
    requires Pipeline(p) && j < |p.files| && !Stable(p.before, p.scan, p.files[j])
    ensures RowAt(p.applied.items, id, p.files[j].path) &&
            Holds(p.before, p.applied.items, p.scan, FileSet(p.files), p.files[j], id)
  {
    var k := ChangedOfFile(p.before, p.scan, p.files, p.records, j);
    assert IsMatch(p.before, p.scan, p.files, j, p.records[j].target);
    ChangedAfter(p, k);
    id := ScanPlan.RowFor(p.plan, k);
    hide Pipeline, Matched;
    if p.records[j].target.Some? {
      assert Matched(p.before, p.scan, FileSet(p.files), p.files[j], id);
    } else {
      forall r: RowId ensures !Matched(p.before, p.scan, FileSet(p.files), p.files[j], r) {}
    }
  }

  lemma HolderAfter(p: Passes, j: nat) returns (id: RowId)
    requires Pipeline(p) && j < |p.files|
    ensures RowAt(p.applied.items, id, p.files[j].path) &&
            Holds(p.before, p.applied.items, p.scan, FileSet(p.files), p.files[j], id)
  {
    if Stable(p.before, p.scan, p.files[j]) {
      id := StableHolder(p, j);
    } else {
      id := ChangedHolder(p, j);
    }
  }

  /** Where a row that is present after the apply pass comes from. */
  lemma OriginAfter(p: Passes, id: RowId)
    requires Pipeline(p) && id in p.applied.items
    ensures p.applied.items[id].kind == Local ==>
            exists f :: f in FileSet(p.files) && f.path == p.applied.items[id].path
    ensures p.applied.items[id].kind == Cloud ==> id in p.before.items && p.before.items[id].kind == Cloud
    ensures id in p.before.items ==> id !in RemovedRows(p.before, p.scan, FileSet(p.files))
  {
    AccountedFor(p, id);
    hide Pipeline; hide AllMatched; hide PlanFor;
    if id in p.before.items && ScanPlan.Untouched(p.plan, id) {
      UntouchedOrigin(p, id);
    } else {
      var k :| 0 <= k < |p.plan.moves| && ScanPlan.RowFor(p.plan, k) == id;
      ChangedOrigin(p, k);
    }
  }

  lemma AccountedFor(p: Passes, id: RowId)
    requires Pipeline(p) && id in p.applied.items
    ensures (id in p.before.items && ScanPlan.Untouched(p.plan, id)) ||
            exists k :: 0 <= k < |p.plan.moves| && ScanPlan.RowFor(p.plan, k) == id
  {
    assert id in Paths(p.applied.items);
    assert ScanPlan.Accounted(Paths(p.before.items), p.plan, |p.plan.moves|, id);
  }

  lemma UntouchedOrigin(p: Passes, id: RowId)
    requires Pipeline(p) && id in p.applied.items && id in p.before.items && ScanPlan.Untouched(p.plan, id)
    ensures p.applied.items[id].kind == Local ==>
            exists f :: f in FileSet(p.files) && f.path == p.applied.items[id].path
    ensures p.applied.items[id].kind == p.before.items[id].kind &&
            id !in RemovedRows(p.before, p.scan, FileSet(p.files))
  {
    UntouchedRows(p.before, p.scan, p.files, p.records, p.plan, id);
    UntouchedAfter(p, id);
    hide Pipeline;
    if p.before.items[id].kind == Local {
      var f :| f in FileSet(p.files) && StableAt(p.before, p.scan, f, id);
    }
  }

  lemma ChangedOrigin(p: Passes, k: nat)
    requires Pipeline(p) && k < |p.plan.moves|
    ensures var id := ScanPlan.RowFor(p.plan, k);
            && id in p.applied.items && p.applied.items[id].kind == Local
            && (exists f :: f in FileSet(p.files) && f.path == p.applied.items[id].path)
            && (id in p.before.items ==> id !in RemovedRows(p.before, p.scan, FileSet(p.files)))
  {
    var id := ScanPlan.RowFor(p.plan, k);
    assert |Changed(p.records)| == |p.plan.moves| && AllMatched(p.before, p.scan, p.files, p.records);
    assert p.before.nextId == p.plan.nextId && forall r :: r in p.before.items ==> r < p.before.nextId;
    ChangedAfter(p, k);
    var j := FileOfChanged(p.before, p.scan, p.files, p.records, k);
    assert p.files[j] in FileSet(p.files);
    hide Pipeline; hide AllMatched;
    if id in p.before.items {
      assert Matched(p.before, p.scan, FileSet(p.files), p.files[j], id);
      assert MatchedRow(p.before, p.scan, FileSet(p.files), id);
    }
  }

  lemma SurvivesUnlessRemoved(p: Passes, id: RowId)
    requires Pipeline(p) && id in p.before.items
    ensures id in p.applied.items <==> id !in RemovedRows(p.before, p.scan, FileSet(p.files))
    ensures id in p.applied.items && p.before.items[id].identity.Some? ==>
            p.applied.items[id].identity == p.before.items[id].identity
    ensures p.before.items[id].kind == Cloud ==>
            id in p.applied.items && p.applied.items[id] ==
                p.before.items[id].(identity := p.applied.items[id].identity)
  {
    assert id in p.plan.drops <==> id in RemovedRows(p.before, p.scan, FileSet(p.files));
    if id in p.applied.items { OriginAfter(p, id); }
    if ScanPlan.Untouched(p.plan, id) {
      UntouchedAfter(p, id);
    } else {
      UntouchedRows(p.before, p.scan, p.files, p.records, p.plan, id);
      if id !in p.plan.drops {
        var k :| 0 <= k < |p.plan.moves| && p.plan.moves[k].target == Some(id);
        ChangedAfter(p, k);
      }
    }
  }

  lemma ReconciledAfter(p: Passes)
    requires Pipeline(p)
    ensures Reconciled(p.before, p.applied.items, p.scan, FileSet(p.files))
  {
    forall f | f in FileSet(p.files)
      ensures exists id :: RowAt(p.applied.items, id, f.path) &&
                           Holds(p.before, p.applied.items, p.scan, FileSet(p.files), f, id)
    {
      var j :| 0 <= j < |p.files| && p.files[j] == f;
      var id := HolderAfter(p, j);
    }
    forall id | id in p.applied.items
      ensures p.applied.items[id].kind == Local ==>
              exists f :: f in FileSet(p.files) && f.path == p.applied.items[id].path
      ensures p.applied.items[id].kind == Cloud ==> id in p.before.items && p.before.items[id].kind == Cloud
    {
      OriginAfter(p, id);
    }
    forall id | id in p.before.items
      ensures id in p.applied.items <==> id !in RemovedRows(p.before, p.scan, FileSet(p.files))
      ensures id in p.applied.items && p.before.items[id].identity.Some? ==>
              p.applied.items[id].identity == p.before.items[id].identity
      ensures p.before.items[id].kind == Cloud ==>
              id in p.applied.items && p.applied.items[id] ==
                  p.before.items[id].(identity := p.applied.items[id].identity)
    {
      SurvivesUnlessRemoved(p, id);
    }
    UniqueAfter(p.before, p.applied, p.plan);
  }

  /** The final state of the apply pass has unique paths, since every write was accepted. */
  lemma UniqueAfter(t0: Tables, ta: Tables, plan: ScanPlan.Plan)
    requires ScanPlan.WellFormed(Paths(t0.items), plan) && !ScanPlan.Obstructed(Paths(t0.items), plan)
    requires ScanPlan.ApplyState(Paths(t0.items), plan, |plan.moves|, Paths(ta.items))
    ensures UniquePaths(ta.items)
    ensures Paths(ta.items) == ScanPlan.Run(Paths(t0.items), ScanPlan.Writes(Paths(t0.items), plan))
  {
    var p := Paths(ta.items);
    ScanPlan.FinalStateInjective(Paths(t0.items), plan, p);
    forall a, b | a in ta.items && b in ta.items && ta.items[a].path == ta.items[b].path ensures a == b {
      assert p[a] == p[b];
    }
    ScanPlan.PlanOutcome(Paths(t0.items), plan);
    ScanPlan.FinalStateUnique(Paths(t0.items), plan, p,
        ScanPlan.Run(Paths(t0.items), ScanPlan.Writes(Paths(t0.items), plan)));
  }

  /** What the row's resolution saw before it was deleted could have been seen between the two ends of the scan. */
  lemma MomentOfScan(p: Passes, tm: Tables, id: RowId)
    requires Pipeline(p) && id in p.plan.drops && Moment(p.staged, p.removed, tm, id)
    ensures Moment(p.before, p.applied, tm, id)
  {
    hide Pipeline;
    BeforeRemoval(p);
    RowUntilRemoval(p, id);
    assert forall r :: r in tm.items ==> IdentityFilled(p.staged.items, p.removed.items, tm.items, r);
    forall r | r in p.before.items && r in p.applied.items ensures r in tm.items {
      RowNotRemoved(p, r);
    }
    forall r | r in tm.items ensures IdentityFilled(p.before.items, p.applied.items, tm.items, r) {
      FilledForGood(p, r);
    }
    forall a | a in tm.aliases && a !in p.before.aliases ensures OwnedElsewhere(tm.items, a.identity, id) {
      if a in p.staged.aliases {
        var owner := OwnerStays(p, a);
        assert owner in tm.items && OwnedBy(tm.items, a.identity, owner);
      }
    }
  }

  lemma BeforeRemoval(p: Passes)
    requires Pipeline(p)
    ensures p.staged.items.Keys == p.before.items.Keys && p.before.aliases <= p.staged.aliases &&
            p.staged.keys == p.before.keys
    ensures forall r :: r in p.removed.items ==> r in p.staged.items && p.removed.items[r] == p.staged.items[r]
  {
  }

  lemma RowUntilRemoval(p: Passes, id: RowId)
    requires Pipeline(p) && id in p.plan.drops
    ensures id in p.before.items && id in p.staged.items && p.staged.items[id] == p.before.items[id]
  {
    DroppedUnchanged(p.before, p.classified, p.staged, p.scan, p.files, p.plan, p.seen, id);
  }

  lemma RowNotRemoved(p: Passes, r: RowId)
    requires Pipeline(p) && r in p.before.items && r in p.applied.items
    ensures r in p.staged.items && r in p.removed.items && r !in p.plan.drops
  {
    SurvivesUnlessRemoved(p, r);
    RowsBeforeApply(p.before, p.classified, p.staged, p.removed, p.scan.env, p.plan, p.seen, r);
    assert r in p.plan.drops <==> r in RemovedRows(p.before, p.scan, FileSet(p.files));
  }

  /** An alias written while classifying carries the identity of a row that stays. */
  lemma OwnerStays(p: Passes, a: Alias) returns (owner: RowId)
    requires Pipeline(p) && a in p.staged.aliases && a !in p.before.aliases
    ensures owner !in p.plan.drops && owner in p.staged.items && owner in p.removed.items
    ensures OwnedBy(p.staged.items, a.identity, owner)
  {
    owner :| StableRow(p.before, p.scan, FileSet(p.files), owner) && OwnedBy(p.classified.items, a.identity, owner);
    UntouchedRows(p.before, p.scan, p.files, p.records, p.plan, owner);
    UntouchedSince(p, owner);
    RowNotRemoved(p, owner);
    assert p.staged.items[owner] == p.classified.items[owner].(path := p.staged.items[owner].path);
  }

  lemma HidesAfter(p: Passes)
    requires Pipeline(p)
    ensures HidesSurvive(p.before, p.applied, p.scan.env)
    ensures forall h :: h in p.applied.hides ==> h in p.before.hides && h.1 in p.applied.items
  {
    assert forall id :: id in p.plan.drops <==> id in RemovedRows(p.before, p.scan, FileSet(p.files));
    assert p.applied.hides == (set h | h in p.before.hides && h.1 !in ScanPlan.Ids(p.plan.drops)) &&
        p.applied.keys == p.removed.keys && p.before.hides == p.staged.hides;
    assert forall id :: id in p.plan.drops && id in p.staged.items ==> KeptAsKey(p.staged, p.removed, p.scan.env, id);
    assert p.before.items.Keys == p.staged.items.Keys && forall h :: h in p.before.hides ==> h.1 in p.before.items;
    hide *;
    forall id | id in p.before.items && id !in p.applied.items ensures KeptAsKey(p.before, p.applied, p.scan.env, id) {
      SurvivesUnlessRemoved(p, id);
      KeptThroughScan(p, id);
    }
    forall h | h in p.before.hides ensures h in p.applied.hides <==> h.1 in p.applied.items {
      SurvivesUnlessRemoved(p, h.1);
    }
    HidesPut(p.before, p.applied, p.scan.env);
  }

  lemma HidesPut(t0: Tables, t: Tables, env: Environment)
    requires forall id :: id in t0.items && id !in t.items ==> KeptAsKey(t0, t, env, id)
    requires forall h :: h in t0.hides ==> (h in t.hides <==> h.1 in t.items)
    ensures HidesSurvive(t0, t, env)
  {
  }

  lemma KeptThroughScan(p: Passes, id: RowId)
    requires Pipeline(p)
    requires id in p.plan.drops && KeptAsKey(p.staged, p.removed, p.scan.env, id)
    ensures KeptAsKey(p.before, p.applied, p.scan.env, id)
  {
    var tm, i :| Moment(p.staged, p.removed, tm, id) && SavedIdentity(tm, p.scan.env, id, i) &&
        KeysHold(p.staged, p.removed, id, i);
    assert KeysHold(p.before, p.applied, id, i);
    MomentOfScan(p, tm, id);
    ThenKeptAsKey(p.before, p.applied, tm, p.scan.env, id, i);
  }

  /** A row that is to be removed is neither staged nor given an identity before. */
  lemma DroppedUnchanged(t0: Tables, tc: Tables, ts: Tables, scan: Scan, files: seq<ScanFile>, plan: ScanPlan.Plan,
                         seen: set<RowId>, id: RowId)
    requires Classifying(t0, tc, seen) && OnlyStableTouched(t0, tc, scan, FileSet(files)) &&
             Staged(tc, ts, plan, |plan.moves|)
    requires ScanPlan.WellFormed(Paths(t0.items), plan) &&
             ScanPlan.Ids(plan.drops) == RemovedRows(t0, scan, FileSet(files))
    requires id in plan.drops
    ensures id in t0.items && id in ts.items && ts.items[id] == t0.items[id]
  {
    assert id in RemovedRows(t0, scan, FileSet(files));
    assert Paths(tc.items) == Paths(t0.items);
    assert !ScanPlan.Moved(Paths(t0.items), plan, |plan.moves|, id);
    assert Paths(ts.items)[id] == ts.items[id].path;
  }

  lemma FilledForGood(p: Passes, r: RowId)
    requires Pipeline(p) && r in p.staged.items
    ensures IdentityFilled(p.before.items, p.applied.items, p.staged.items, r)
  {
    if p.staged.items[r].identity != p.before.items[r].identity {
      assert StableRow(p.before, p.scan, FileSet(p.files), r);
      UntouchedRows(p.before, p.scan, p.files, p.records, p.plan, r);
      UntouchedSince(p, r);
    }
  }

  // ----- the legacy prune at the end -----

  lemma CopyKeysSurviveMigration(t: Tables, env: Environment, k: (Scope, MovieKey))
    requires k in t.keys && k.1.CopyKey?
    ensures k in HiddenKeys.MigratedKeys(t, env)
  {
  }

  lemma PruneKeepsRows(t0: Tables, items: Items, items': Items, scan: Scan, files: set<ScanFile>)
    requires Reconciled(t0, items, scan, files) && items'.Keys == items.Keys
    requires forall id :: id in items ==> items'[id] == items[id].(identity := items'[id].identity)
    requires forall id :: id in items && items[id].identity.Some? ==> items'[id] == items[id]
    ensures Reconciled(t0, items', scan, files)
  {
    hide Holds;
    forall f | f in files ensures exists id :: RowAt(items', id, f.path) && Holds(t0, items', scan, files, f, id) {
      var id :| RowAt(items, id, f.path) && Holds(t0, items, scan, files, f, id);
      IdentityKeepsHolder(t0, items, items', scan, files, f, id);
    }
  }

  lemma IdentityKeepsHolder(t0: Tables, items: Items, items': Items, scan: Scan, files: set<ScanFile>, f: ScanFile,
                            id: RowId)
    requires RowAt(items, id, f.path) && Holds(t0, items, scan, files, f, id)
    requires id in items' && items'[id] == items[id].(identity := items'[id].identity)
    ensures RowAt(items', id, f.path) && Holds(t0, items', scan, files, f, id)
  {
    hide Matched; hide Stable; hide StableAt;
  }

  lemma PruneKeepsHides(t0: Tables, t: Tables, t1: Tables, t': Tables, env: Environment)
    requires HidesSurvive(t0, t, env) && HiddenKeys.OnlyIdentified(t, t1)
    requires t' == t1.(aliases := t'.aliases, keys := HiddenKeys.MigratedKeys(t1, env))
    ensures HidesSurvive(t0, t', env)
  {
    forall scope, i | (scope, CopyKey(i)) in t.keys ensures (scope, CopyKey(i)) in t'.keys {
      CopyKeysSurviveMigration(t1, env, (scope, CopyKey(i)));
    }
    hide KeptAsKey;
    forall id | id in t0.items && id !in t'.items ensures KeptAsKey(t0, t', env, id) {
      KeptAsKeyStays(t0, t, t', env, id);
    }
  }

  function Image<T, U>(s: set<T>, f: T -> U): set<U> {
    set x | x in s :: f(x)
  }

  lemma {:induction false} InjectiveImage<T, U>(s: set<T>, f: T -> U)
    requires forall x, y :: x in s && y in s && f(x) == f(y) ==> x == y
    ensures |Image(s, f)| == |s|
  {
    if s != {} {
      var x :| x in s;
      InjectiveImage(s - {x}, f);
      assert Image(s, f) == Image(s - {x}, f) + {f(x)};
      assert f(x) !in Image(s - {x}, f);
    } else {
      assert Image(s, f) == {};
    }
  }

  function PathOf(items: Items): RowId -> string {
    (id: RowId) => if id in items then items[id].path else ""
  }

  lemma SamePaths(t0: Tables, items: Items, scan: Scan, files: set<ScanFile>)
    requires Reconciled(t0, items, scan, files)
    ensures Image(files, (f: ScanFile) => f.path) == Image(LocalRows(items).Keys, PathOf(items))
  {
    hide Holds;
    var paths, held := Image(files, (f: ScanFile) => f.path), Image(LocalRows(items).Keys, PathOf(items));
    forall p | p in paths ensures p in held {
      var f :| f in files && f.path == p;
      var id :| RowAt(items, id, f.path) && Holds(t0, items, scan, files, f, id);
      assert id in LocalRows(items).Keys && PathOf(items)(id) == p;
    }
    forall p | p in held ensures p in paths {
      var id :| id in LocalRows(items).Keys && PathOf(items)(id) == p;
      var f := FileOfRow(t0, items, scan, files, id);
    }
  }

  /** Afterwards there are as many local rows as files. */
  lemma OneRowPerFile(t0: Tables, items: Items, scan: Scan, files: set<ScanFile>)
    requires Reconciled(t0, items, scan, files) && DistinctPaths(files)
    ensures |LocalRows(items)| == |files|
  {
    SamePaths(t0, items, scan, files);
    assert UniquePaths(items);
    hide Reconciled;
    InjectiveImage(files, (f: ScanFile) => f.path);
    InjectiveImage(LocalRows(items).Keys, PathOf(items));
    assert |LocalRows(items)| == |LocalRows(items).Keys|;
  }

  // ----- the counters -----

  function StableIds(records: seq<Record>): set<RowId> {
    set r | r in records && r.stable && r.existing.Some? :: r.existing.value
  }

  lemma {:induction false} StablePlusChanged(records: seq<Record>)
    requires forall r :: r in records && r.stable ==> r.existing.Some?
    requires forall i, j :: 0 <= i < j < |records| && records[i].stable && records[j].stable ==>
             records[i].existing != records[j].existing
    ensures |StableIds(records)| + |Changed(records)| == |records|
  {
    if records != [] {
      var last, rest := records[|records| - 1], records[..|records| - 1];
      assert records == rest + [last];
      StablePlusChanged(rest);
      OneMoreStableId(rest, last);
      hide StableIds; hide DistinctRecords;
    }
  }

  lemma OneMoreStableId(rest: seq<Record>, last: Record)
    requires last.stable ==> last.existing.Some?
    requires forall i :: 0 <= i < |rest| && rest[i].stable && last.stable ==> rest[i].existing != last.existing
    ensures |StableIds(rest + [last])| == |StableIds(rest)| + if last.stable then 1 else 0
  {
    if last.stable {
      assert StableIds(rest + [last]) == StableIds(rest) + {last.existing.value};
      forall r | r in rest && r.stable ensures r.existing != last.existing {
        var i :| 0 <= i < |rest| && rest[i] == r;
      }
      assert last.existing.value !in StableIds(rest);
    } else {
      assert StableIds(rest + [last]) == StableIds(rest);
    }
  }

  lemma {:induction false} TargetsPlusInserted(changed: seq<Record>)
    requires DistinctRecords(changed)
    ensures |Targets(changed)| + ScanPlan.Inserted(Moves(changed), |changed|) == |changed|
  {
    if changed != [] {
      var n := |changed| - 1;
      var last, rest := changed[n], changed[..n];
      assert changed == rest + [last];
      TargetsPlusInserted(rest);
      InsertedPrefix(changed, n);
      assert forall i :: 0 <= i < |rest| ==> rest[i] == changed[i];
      forall r | r in rest && r.target.Some? ensures r.target != last.target {
        var i :| 0 <= i < |rest| && rest[i] == r;
      }
      hide DistinctRecords; hide Targets;
      OneMoreTarget(rest, last);
    }
  }

  lemma OneMoreTarget(rest: seq<Record>, last: Record)
    requires forall r :: r in rest && r.target.Some? ==> r.target != last.target
    ensures |Targets(rest + [last])| == |Targets(rest)| + if last.target.Some? then 1 else 0
  {
    if last.target.Some? {
      assert Targets(rest + [last]) == Targets(rest) + {last.target.value};
    } else {
      assert Targets(rest + [last]) == Targets(rest);
    }
  }

  lemma {:induction false} InsertedPrefix(changed: seq<Record>, n: nat)
    requires n <= |changed|
    ensures ScanPlan.Inserted(Moves(changed), n) == ScanPlan.Inserted(Moves(changed[..n]), n)
    decreases n
  {
    var m := n;
    InsertedAgree(Moves(changed), Moves(changed[..n]), m);
  }

  lemma {:induction false} InsertedAgree(a: seq<ScanPlan.Move>, b: seq<ScanPlan.Move>, n: nat)
    requires n <= |a| && n <= |b| && forall k :: 0 <= k < n ==> a[k] == b[k]
    ensures ScanPlan.Inserted(a, n) == ScanPlan.Inserted(b, n)
  {
    if n > 0 {
      InsertedAgree(a, b, n - 1);
    }
  }

  /** Every stable record names its stable row. */
  ghost predicate StableNamed(t0: Tables, scan: Scan, files: seq<ScanFile>, records: seq<Record>)
    requires |records| == |files|
  {
    forall k :: 0 <= k < |records| ==>
      (records[k].stable <==> Stable(t0, scan, files[k])) &&
      (records[k].stable ==> records[k].existing.Some? && StableAt(t0, scan, files[k], records[k].existing.value))
  }

  lemma RecordsNamed(t0: Tables, scan: Scan, files: seq<ScanFile>, records: seq<Record>)
    requires AllMatched(t0, scan, files, records)
    ensures StableNamed(t0, scan, files, records)
  {
    forall k | 0 <= k < |records|
      ensures records[k].stable <==> Stable(t0, scan, files[k])
      ensures records[k].stable ==> records[k].existing.Some? && StableAt(t0, scan, files[k], records[k].existing.value)
    {
      var record := records[k].(rows := {}, target := None);
      assert Classified(t0, scan, files[k], record);
      if records[k].stable {
        var id: RowId :| StableAt(t0, scan, files[k], id);
        assert record.existing == Some(id);
      }
    }
  }

  lemma StableIdsCorrect(t0: Tables, scan: Scan, files: seq<ScanFile>, records: seq<Record>)
    requires UniquePaths(t0.items) && |records| == |files| && StableNamed(t0, scan, files, records)
    ensures StableIds(records) == StableRows(t0, scan, FileSet(files))
  {
    forall id | id in StableIds(records) ensures id in StableRows(t0, scan, FileSet(files)) {
      var r :| r in records && r.stable && r.existing == Some(id);
      var k :| 0 <= k < |records| && records[k] == r;
      assert StableAt(t0, scan, files[k], id) && files[k] in FileSet(files);
    }
    forall id | id in StableRows(t0, scan, FileSet(files)) ensures id in StableIds(records) {
      var f :| f in FileSet(files) && StableAt(t0, scan, f, id);
      var k :| 0 <= k < |files| && files[k] == f;
      assert records[k].stable && records[k] in records;
      assert StableAt(t0, scan, f, records[k].existing.value);
    }
  }

  lemma StableFilesCounted(t0: Tables, scan: Scan, files: seq<ScanFile>, records: seq<Record>)
    requires UniquePaths(t0.items) && DistinctFiles(files) && AllMatched(t0, scan, files, records)
    ensures |StableRows(t0, scan, FileSet(files))| + |Changed(records)| == |files|
  {
    RecordsNamed(t0, scan, files, records);
    hide AllMatched;
    StableIdsCorrect(t0, scan, files, records);
    forall i, j | 0 <= i < j < |records| && records[i].stable && records[j].stable
        ensures records[i].existing != records[j].existing {
      assert StableAt(t0, scan, files[i], records[i].existing.value);
    }
    StablePlusChanged(records);
  }

  lemma LocalRowsPartitioned(t0: Tables, scan: Scan, files: set<ScanFile>)
    ensures |LocalRows(t0.items)| == |StableRows(t0, scan, files)| + |MatchedRows(t0, scan, files)|
            + |RemovedRows(t0, scan, files)|
  {
    var stable, matched, removed := StableRows(t0, scan, files), MatchedRows(t0, scan, files),
        RemovedRows(t0, scan, files);
    forall id | id in matched ensures t0.items[id].kind == Local && id !in stable {
      var f :| Matched(t0, scan, files, f, id);
    }
    forall id | id in stable ensures t0.items[id].kind == Local {
      var f :| f in files && StableAt(t0, scan, f, id);
    }
    assert LocalRows(t0.items).Keys == stable + matched + removed;
    assert |LocalRows(t0.items).Keys| == |LocalRows(t0.items)|;
    assert stable !! matched && (stable + matched) !! removed;
  }

  /** Old local rows, minus the removed ones, plus the inserted ones, are as many as the files seen. */
  lemma CountsAgree(t0: Tables, scan: Scan, files: seq<ScanFile>, records: seq<Record>)
    requires UniquePaths(t0.items) && DistinctFiles(files) && AllMatched(t0, scan, files, records)
    ensures |LocalRows(t0.items)| - |RemovedRows(t0, scan, FileSet(files))| +
            ScanPlan.Inserted(Moves(Changed(records)), |Changed(records)|) == |files|
  {
    StableFilesCounted(t0, scan, files, records);
    LocalRowsPartitioned(t0, scan, FileSet(files));
    RecordsDistinct(t0, scan, files, records);
    TargetsPlusInserted(Changed(records));
    MatchedSets(t0, scan, files, records);
    ChangedTargets(t0, scan, files, records);
  }

  lemma ChangedTargets(t0: Tables, scan: Scan, files: seq<ScanFile>, records: seq<Record>)
    requires AllMatched(t0, scan, files, records)
    ensures Targets(Changed(records)) == Targets(records)
  {
    forall r | r in records && r.target.Some? ensures !r.stable {
      var k :| 0 <= k < |records| && records[k] == r;
      assert IsMatch(t0, scan, files, k, r.target);
      assert Matched(t0, scan, FileSet(files), files[k], r.target.value);
      assert Classified(t0, scan, files[k], records[k].(rows := {}, target := None));
    }
  }

  // ----- the scan -----

  datatype Outcome =
    | Completed(filesSeen: nat, filesChanged: nat, filesRemoved: nat, keysPruned: nat, catalogClaimed: bool)
    | Failed

  method SequenceOf(s: set<RowId>) returns (q: seq<RowId>)
    ensures ScanPlan.Ids(q) == s && forall i, j :: 0 <= i < j < |q| ==> q[i] != q[j]
  {
    q := [];
    var todo := s;
    while todo != {}
      invariant todo <= s && ScanPlan.Ids(q) == s - todo
      invariant forall i, j :: 0 <= i < j < |q| ==> q[i] != q[j]
      decreases todo
    {
      var x :| x in todo;
      assert x !in ScanPlan.Ids(q);
      assert ScanPlan.Ids(q + [x]) == ScanPlan.Ids(q) + {x};
      assert s - (todo - {x}) == s - todo + {x};
      q, todo := q + [x], todo - {x};
    }
  }

  method IndexByPath(rows: Items) returns (byPath: map<string, RowId>)
    requires UniquePaths(rows)
    ensures PathIndex(rows, byPath)
  {
    byPath := map id | id in rows :: rows[id].path := id;
  }

  // ----- what the next scan will see -----

  /** Every traceable file is recognised, unchanged, in an identified row. */
  ghost predicate AllTraced(t: Tables, env: Environment, files: set<ScanFile>) {
    forall f :: f in files && Traceable(env, f) ==> Traced(t, env, f)
  }

  /** A row the plan leaves alone leaves the passes as classification left it. */
  lemma UntouchedSince(p: Passes, id: RowId)
    requires Pipeline(p)
    requires id in p.before.items && ScanPlan.Untouched(p.plan, id)
    ensures id in p.classified.items && id in p.applied.items && p.applied.items[id] == p.classified.items[id] &&
            p.classified.aliases <= p.applied.aliases
  {
    RowsBeforeApply(p.before, p.classified, p.staged, p.removed, p.scan.env, p.plan, p.seen, id);
    forall k | 0 <= k < |p.plan.moves| ensures ScanPlan.RowFor(p.plan, k) != id {
      ScanPlan.OtherRows(Paths(p.before.items), p.plan, k);
    }
    assert !Reached(p.plan, |p.plan.moves|, id);
    assert p.staged.items[id] == p.classified.items[id].(path := p.staged.items[id].path);
  }

  lemma StableStaysTraced(p: Passes, f: ScanFile)
    requires Pipeline(p)
    requires f in FileSet(p.files) && Stable(p.before, p.scan, f) && Traced(p.classified, p.scan.env, f)
    ensures Traced(p.applied, p.scan.env, f)
  {
    var id :| TracedAt(p.classified, p.scan.env, f, id);
    assert RowAt(p.before.items, id, f.path);
    var same :| StableAt(p.before, p.scan, f, same);
    assert same == id;
    assert StableRow(p.before, p.scan, FileSet(p.files), id);
    UntouchedRows(p.before, p.scan, p.files, p.records, p.plan, id);
    UntouchedSince(p, id);
    ContinuesGrows(p.classified.aliases, p.applied.aliases, p.scan.env, p.classified.items[id], f);
    assert TracedAt(p.applied, p.scan.env, f, id);
  }

  lemma TracedAfter(p: Passes)
    requires Pipeline(p)
    requires StableTraced(p.before, p.classified, p.scan, FileSet(p.files)) && p.plan.moves == Moves(Changed(p.records))
    requires ChangedTraced(p.applied, p.scan, p.plan, Changed(p.records), |Changed(p.records)|)
    ensures AllTraced(p.applied, p.scan.env, FileSet(p.files))
  {
    assert AllMatched(p.before, p.scan, p.files, p.records);
    hide Pipeline; hide AllMatched; hide Stable; hide Traceable; hide TracedAt;
    forall f | f in FileSet(p.files) && Traceable(p.scan.env, f) ensures Traced(p.applied, p.scan.env, f) {
      if Stable(p.before, p.scan, f) {
        StableStaysTraced(p, f);
      } else {
        var j :| 0 <= j < |p.files| && p.files[j] == f;
        var k := ChangedOfFile(p.before, p.scan, p.files, p.records, j);
        assert TracedAt(p.applied, p.scan.env, f, ScanPlan.RowFor(p.plan, k));
      }
    }
  }

  lemma AllTracedStays(t: Tables, t': Tables, env: Environment, files: set<ScanFile>)
    requires AllTraced(t, env, files) && Settles(t, t')
    ensures AllTraced(t', env, files)
  {
    forall f | f in files && Traceable(env, f) ensures Traced(t', env, f) {
      var id :| TracedAt(t, env, f, id);
      TracedStays(t, t', env, f, id);
    }
  }

  // ----- glue between the passes -----

  lemma AfterClassification(t0: Tables, tc: Tables, seen: set<RowId>, scan: Scan, files: seq<ScanFile>,
                            records: seq<Record>, plan: ScanPlan.Plan)
    requires Classifying(t0, tc, seen) && AllMatched(t0, scan, files, records) &&
             PlanFor(t0, scan, files, records, plan)
    ensures Paths(tc.items) == Paths(t0.items)
    ensures RowsRead(LocalRows(t0.items), Paths(tc.items), Changed(records))
    ensures forall r :: r in Changed(records) && r.target.Some? ==>
            r.target.value in tc.items && tc.items[r.target.value].kind == Local
    ensures forall id :: id in plan.drops ==> id in tc.items && tc.items[id].kind == Local
  {
    forall r | r in Changed(records) && r.target.Some?
      ensures r.target.value in LocalRows(t0.items)
    {
      var k :| 0 <= k < |Changed(records)| && Changed(records)[k] == r;
      var j := FileOfChanged(t0, scan, files, records, k);
      assert Matched(t0, scan, FileSet(files), files[j], r.target.value);
    }
    forall id | id in plan.drops ensures id in t0.items && t0.items[id].kind == Local {
      assert id in RemovedRows(t0, scan, FileSet(files));
    }
  }

  lemma AfterStaging(tc: Tables, ts: Tables, before: PathColumn, plan: ScanPlan.Plan)
    requires UniqueIdentities(tc.items) && Paths(tc.items) == before && Staged(tc, ts, plan, |plan.moves|)
    ensures UniqueIdentities(ts.items)
    ensures ScanPlan.DropState(before, plan, 0, Paths(ts.items))
    ensures forall id :: id in tc.items ==> id in ts.items && ts.items[id].kind == tc.items[id].kind
  {
    assert ScanPlan.Ids(plan.drops[..0]) == {};
  }

  lemma AfterRemoval(t0: Tables, tc: Tables, ts: Tables, tr: Tables, scan: Scan, files: seq<ScanFile>,
                     records: seq<Record>, plan: ScanPlan.Plan, seen: set<RowId>)
    requires Valid(t0) && Classifying(t0, tc, seen) && AllMatched(t0, scan, files, records) &&
             PlanFor(t0, scan, files, records, plan)
    requires ScanPlan.WellFormed(Paths(t0.items), plan)
    requires Staged(tc, ts, plan, |plan.moves|) && RemovedUpTo(ts, tr, scan.env, Paths(t0.items), plan, |plan.drops|)
    requires UniqueIdentities(ts.items)
    ensures Removing(ts, tr, scan.env, ScanPlan.Ids(plan.drops))
    ensures Pass(Paths(t0.items), plan, Changed(records), LocalRows(t0.items), tr.items)
    ensures Applied(tr, tr, Paths(t0.items), plan, Changed(records), scan, LocalRows(t0.items), 0)
  {
    assert plan.drops[..|plan.drops|] == plan.drops;
    AfterClassification(t0, tc, seen, scan, files, records, plan);
    ScanPlan.ApplyStart(Paths(t0.items), plan, Paths(tr.items));
    forall k | 0 <= k < |Changed(records)| && Changed(records)[k].target.Some?
        ensures Changed(records)[k].target.value in tr.items {
      assert plan.moves[k].target == Changed(records)[k].target;
      assert ScanPlan.Pending(Paths(t0.items), plan, k, Paths(tr.items));
    }
    forall r | r in Changed(records) && r.target.Some? ensures tr.items[r.target.value].kind == Local {
      assert r.target.value in tc.items && tc.items[r.target.value].kind == Local;
    }
  }

  // ----- files that come back -----

  /** Every returning file has its row again, with the identity that waited for it. */
  ghost predicate AllReturned(t0: Tables, items: Items, scan: Scan, files: set<ScanFile>) {
    forall f, i :: Returning(t0, scan, files, f, i) ==> exists id :: RowAt(items, id, f.path) && OwnedBy(items, i, id)
  }

  /** The identities set aside by a scan are those of rows it found. */
  ghost predicate HeldIn(items: Items, identities: set<Identity>) {
    forall i :: i in identities ==> exists id :: OwnedBy(items, i, id)
  }

  /** Staging and removal record no alias and give no row another identity. */
  lemma RowsUntilApply(p: Passes)
    requires Pipeline(p)
    ensures p.removed.aliases == p.classified.aliases
    ensures forall i, id :: OwnedBy(p.removed.items, i, id) ==> OwnedBy(p.classified.items, i, id)
  {
  }

  lemma UnmatchedTarget(t0: Tables, scan: Scan, files: seq<ScanFile>, records: seq<Record>, j: nat)
    requires AllMatched(t0, scan, files, records) && j < |files|
    requires forall id :: !Matched(t0, scan, FileSet(files), files[j], id)
    ensures j < |records| && records[j].target.None?
  {
    hide Matched; hide Classified;
    assert IsMatch(t0, scan, files, j, records[j].target);
  }

  /** The other changed files are other discovered files. */
  lemma OtherChanged(t0: Tables, scan: Scan, files: seq<ScanFile>, records: seq<Record>, k: nat, m: nat)
    requires DistinctFiles(files) && AllMatched(t0, scan, files, records)
    requires k < |Changed(records)| && m < |Changed(records)| && k != m
    ensures Changed(records)[m].file in FileSet(files) && Changed(records)[m].file != Changed(records)[k].file
  {
    RecordsDistinct(t0, scan, files, records);
    hide AllMatched;
    var j := FileOfChanged(t0, scan, files, records, m);
  }

  /** An identity that has been waiting since the scan began is due when the apply pass begins. */
  lemma ReturningIsDue(p: Passes, displaced: set<Identity>, f: ScanFile, i: Identity) returns (k: nat)
    requires Pipeline(p) && HeldIn(p.before.items, displaced) && Returning(p.before, p.scan, FileSet(p.files), f, i)
    requires AllWaiting(p.before, p.classified, p.scan, FileSet(p.files))
    ensures k < |Changed(p.records)| && Changed(p.records)[k].file == f
    ensures Due(p.removed, p.scan, Changed(p.records), displaced, k, i)
  {
    var j :| 0 <= j < |p.files| && p.files[j] == f;
    assert AllMatched(p.before, p.scan, p.files, p.records) && DistinctFiles(p.files);
    RowsUntilApply(p);
    hide Pipeline; hide AllMatched; hide Matched; hide Stable; hide Classified; hide Apart;
    k := ChangedOfFile(p.before, p.scan, p.files, p.records, j);
    UnmatchedTarget(p.before, p.scan, p.files, p.records, j);
    var changed := Changed(p.records);
    forall m | 0 <= m < |changed| && m != k ensures Apart(p.before, p.scan.env, f.path, i, changed[m].file.path) {
      OtherChanged(p.before, p.scan, p.files, p.records, k, m);
    }
    hide Changed;
    DueAtApply(p.before, p.classified, p.removed, p.scan, changed, displaced, k, i);
  }

  lemma DueAtApply(t0: Tables, tc: Tables, tb: Tables, scan: Scan, changed: seq<Record>, displaced: set<Identity>,
                   k: nat, i: Identity)
    requires k < |changed| && changed[k].target.None? && HeldIn(t0.items, displaced)
    requires var f := changed[k].file;
             && Waiting(t0, tc, scan.env, f.path, i) && HasAlias(t0, i) && (forall id :: !OwnedBy(t0.items, i, id))
             && AcceptedIdentities(t0.aliases, Search(scan.source, Some(scan.env.locator(f.path)), false),
                                   FileEvidence(scan.source, f, true)) == {i}
             && forall m :: 0 <= m < |changed| && m != k ==> Apart(t0, scan.env, f.path, i, changed[m].file.path)
    requires tb.aliases == tc.aliases && forall x, id :: OwnedBy(tb.items, x, id) ==> OwnedBy(tc.items, x, id)
    ensures Due(tb, scan, changed, displaced, k, i)
  {
    var f := changed[k].file;
    SameAccepted(t0, tb, Search(scan.source, Some(scan.env.locator(f.path)), false),
                 FileEvidence(scan.source, f, true));
    forall m | 0 <= m < |changed| && m != k ensures Apart(tb, scan.env, f.path, i, changed[m].file.path) {
      assert Apart(t0, scan.env, f.path, i, changed[m].file.path);
    }
  }

  lemma AllReturnedAfter(p: Passes, displaced: set<Identity>)
    requires Pipeline(p) && HeldIn(p.before.items, displaced) && p.plan.moves == Moves(Changed(p.records))
    requires AllWaiting(p.before, p.classified, p.scan, FileSet(p.files))
    requires ReturnedUpTo(p.removed, p.applied, p.scan, p.plan, Changed(p.records), displaced, |Changed(p.records)|)
    ensures AllReturned(p.before, p.applied.items, p.scan, FileSet(p.files))
  {
    hide Pipeline; hide Due; hide Returning; hide AllWaiting; hide HeldIn;
    forall f, i | Returning(p.before, p.scan, FileSet(p.files), f, i)
      ensures exists id :: RowAt(p.applied.items, id, f.path) && OwnedBy(p.applied.items, i, id)
    {
      var k := ReturningIsDue(p, displaced, f, i);
      ChangedAfter(p, k);
      assert RowAt(p.applied.items, ScanPlan.RowFor(p.plan, k), f.path);
    }
  }

  /** No copy key is taken away. */
  ghost predicate KeysKept(t0: Tables, t: Tables) {
    forall scope, i :: (scope, CopyKey(i)) in t0.keys ==> (scope, CopyKey(i)) in t.keys
  }

  lemma KeysKeptAfter(p: Passes)
    requires Pipeline(p)
    ensures KeysKept(p.before, p.applied)
  {
    BeforeRemoval(p);
  }

  /** Stage, remove and apply: complete exactly when no untouched row is in the way. */
  method Mutate(db: Connection, scan: Scan, rows: Items, changed: seq<Record>, drops: seq<RowId>,
                displaced: set<Identity>, ghost t0: Tables, ghost files: seq<ScanFile>, ghost records: seq<Record>,
                ghost plan: ScanPlan.Plan, ghost seen: set<RowId>)
    returns (ok: bool, ghost ts: Tables, ghost tr: Tables)
    requires Valid(t0) && DistinctFiles(files) && Classifying(t0, db.t, seen)
    requires AllMatched(t0, scan, files, records) && PlanFor(t0, scan, files, records, plan)
    requires ScanPlan.WellFormed(Paths(t0.items), plan)
    requires rows == LocalRows(t0.items) && changed == Changed(records) && drops == plan.drops
    requires forall i, j :: 0 <= i < j < |drops| ==> drops[i] != drops[j]
    requires StableTraced(t0, db.t, scan, FileSet(files)) && OnlyStableTouched(t0, db.t, scan, FileSet(files))
    requires AllWaiting(t0, db.t, scan, FileSet(files)) && HeldIn(t0.items, displaced)
    modifies db
    ensures ok <==> !ScanPlan.Obstructed(Paths(t0.items), plan)
    ensures ok ==> Pipeline(Passes(t0, old(db.t), ts, tr, db.t, scan, files, records, plan, seen))
    ensures ok ==> AllTraced(db.t, scan.env, FileSet(files))
    ensures ok ==> AllReturned(t0, db.t.items, scan, FileSet(files))
    ensures ok && RandomLocals(old(db.t)) ==> RandomLocals(db.t)
  {
    hide *;
    ghost var tc := db.t;
    assert UniqueIdentities(tc.items) && plan.moves == Moves(changed) && plan.jobId == scan.jobId by {
      PlanFacts(t0, tc, seen, scan, files, records, plan);
    }
    AfterClassification(t0, tc, seen, scan, files, records, plan);
    StageMatched(db, rows, changed, plan, scan.jobId);
    ts := db.t;
    AfterStaging(tc, ts, Paths(t0.items), plan);
    RemoveRows(db, scan.env, drops, Paths(t0.items), plan);
    tr := db.t;
    AfterRemoval(t0, tc, ts, tr, scan, files, records, plan, seen);
    if RandomLocals(tc) { PassesKeepRandom(tc, ts, tr, scan.env, plan); }
    ok := ApplyRecords(db, scan, rows, changed, displaced, Paths(t0.items), plan);
    if ok {
      PipelineDone(Passes(t0, tc, ts, tr, db.t, scan, files, records, plan, seen));
      TracedAfter(Passes(t0, tc, ts, tr, db.t, scan, files, records, plan, seen));
      AllReturnedAfter(Passes(t0, tc, ts, tr, db.t, scan, files, records, plan, seen), displaced);
    }
  }

  lemma PassesKeepRandom(tc: Tables, ts: Tables, tr: Tables, env: Environment, plan: ScanPlan.Plan)
    requires Staged(tc, ts, plan, |plan.moves|) && Removing(ts, tr, env, ScanPlan.Ids(plan.drops)) && RandomLocals(tc)
    ensures RandomLocals(tr)
  {
    forall id | id in tr.items ensures tr.items[id] == tc.items[id].(path := tr.items[id].path) {
      assert tr.items[id] == ts.items[id];
    }
  }

  lemma PlanFacts(t0: Tables, tc: Tables, seen: set<RowId>, scan: Scan, files: seq<ScanFile>, records: seq<Record>,
                  plan: ScanPlan.Plan)
    requires Classifying(t0, tc, seen) && PlanFor(t0, scan, files, records, plan)
    ensures UniqueIdentities(tc.items) && plan.moves == Moves(Changed(records)) && plan.jobId == scan.jobId
  {
  }

  lemma PipelineDone(p: Passes)
    requires Valid(p.before) && DistinctFiles(p.files) && Classifying(p.before, p.classified, p.seen) &&
             OnlyStableTouched(p.before, p.classified, p.scan, FileSet(p.files))
    requires AllMatched(p.before, p.scan, p.files, p.records) && PlanFor(p.before, p.scan, p.files, p.records, p.plan)
    requires ScanPlan.WellFormed(Paths(p.before.items), p.plan) && !ScanPlan.Obstructed(Paths(p.before.items), p.plan)
    requires Staged(p.classified, p.staged, p.plan, |p.plan.moves|) &&
             Removing(p.staged, p.removed, p.scan.env, ScanPlan.Ids(p.plan.drops))
    requires p.plan.moves == Moves(Changed(p.records))
    requires Applied(p.removed, p.applied, Paths(p.before.items), p.plan, Changed(p.records), p.scan,
             LocalRows(p.before.items), |Changed(p.records)|)
    ensures Pipeline(p)
  {
  }

  // ----- the scan -----

  /** Classification and matching, as lists the later passes walk through. */
  method Recognise(db: Connection, scan: Scan, files: seq<ScanFile>)
    returns (records: seq<Record>, drops: seq<RowId>, displaced: set<Identity>, ghost seen: set<RowId>)
    requires Valid(db.t) && DistinctFiles(files)
    modifies db
    ensures Classifying(old(db.t), db.t, seen) && AllMatched(old(db.t), scan, files, records)
    ensures ScanPlan.Ids(drops) == RemovedRows(old(db.t), scan, FileSet(files))
    ensures forall i, j :: 0 <= i < j < |drops| ==> drops[i] != drops[j]
    ensures StableTraced(old(db.t), db.t, scan, FileSet(files)) &&
            OnlyStableTouched(old(db.t), db.t, scan, FileSet(files))
    ensures AllWaiting(old(db.t), db.t, scan, FileSet(files)) && HeldIn(old(db.t.items), displaced)
    ensures RandomLocals(old(db.t)) ==> RandomLocals(db.t)
  {
    ghost var t0 := db.t;
    var rows := LocalRows(db.t.items);
    var byPath := IndexByPath(rows);
    var classified, stableIds := ClassifyFiles(db, scan, rows, byPath, files);
    seen := RowsOf(byPath, files);
    var matched, removable;
    records, matched, removable := MatchRecords(rows, stableIds, classified, t0, scan, files);
    drops := SequenceOf(removable);
    displaced := set id | id in rows && id !in stableIds && rows[id].identity.Some? :: rows[id].identity.value;
    assert HeldIn(t0.items, displaced) by {
      forall i | i in displaced ensures exists id :: OwnedBy(t0.items, i, id) {
        var id :| id in rows && rows[id].identity == Some(i);
        assert OwnedBy(t0.items, i, id);
      }
    }
  }

  lemma PlanMade(t0: Tables, scan: Scan, files: seq<ScanFile>, records: seq<Record>, drops: seq<RowId>,
                 plan: ScanPlan.Plan)
    requires plan == ScanPlan.Plan(scan.jobId, Moves(Changed(records)), drops, t0.nextId)
    requires ScanPlan.Ids(drops) == RemovedRows(t0, scan, FileSet(files))
    ensures PlanFor(t0, scan, files, records, plan)
  {
  }

  lemma ValidAfter(p: Passes)
    requires Pipeline(p)
    ensures Valid(p.applied)
  {
    UniqueAfter(p.before, p.applied, p.plan);
    HidesAfter(p);
  }

  lemma CountsOf(t0: Tables, scan: Scan, files: seq<ScanFile>, records: seq<Record>, drops: seq<RowId>)
    requires Valid(t0) && DistinctFiles(files) && AllMatched(t0, scan, files, records)
    requires ScanPlan.Ids(drops) == RemovedRows(t0, scan, FileSet(files))
    requires forall i, j :: 0 <= i < j < |drops| ==> drops[i] != drops[j]
    ensures |drops| == |RemovedRows(t0, scan, FileSet(files))|
    ensures |Changed(records)| == |files| - |StableRows(t0, scan, FileSet(files))|
    ensures |LocalRows(t0.items)| - |drops| + ScanPlan.Inserted(Moves(Changed(records)), |Changed(records)|) == |files|
  {
    CountsAgree(t0, scan, files, records);
    StableFilesCounted(t0, scan, files, records);
    DistinctCount(drops);
  }

  lemma {:induction false} DistinctCount(q: seq<RowId>)
    requires forall i, j :: 0 <= i < j < |q| ==> q[i] != q[j]
    ensures |ScanPlan.Ids(q)| == |q|
  {
    if q != [] {
      var n := |q| - 1;
      DistinctCount(q[..n]);
      assert q == q[..n] + [q[n]];
      assert ScanPlan.Ids(q) == ScanPlan.Ids(q[..n]) + {q[n]};
      assert q[n] !in ScanPlan.Ids(q[..n]);
    }
  }

  /** The rows that were not there before. */
  function NewRows(items0: Items, items: Items): set<RowId> {
    set id | id in items && id !in items0
  }

  /** The rows inserted by a scan: as many as its files exceed the old local rows that it kept. */
  lemma RowsInserted(t0: Tables, items: Items, scan: Scan, files: seq<ScanFile>)
    requires DistinctFiles(files) && Reconciled(t0, items, scan, FileSet(files))
    ensures |LocalRows(t0.items)| - |RemovedRows(t0, scan, FileSet(files))| + |NewRows(t0.items, items)| == |files|
  {
    FilesCounted(files);
    OneRowPerFile(t0, items, scan, FileSet(files));
    var kept := LocalRows(t0.items).Keys - RemovedRows(t0, scan, FileSet(files));
    LocalRowsKept(t0, items, scan, FileSet(files));
    hide Reconciled; hide RemovedRows;
    assert |LocalRows(items).Keys| == |LocalRows(items)| && |LocalRows(t0.items).Keys| == |LocalRows(t0.items)|;
    assert kept !! NewRows(t0.items, items);
    SetMinus(LocalRows(t0.items).Keys, RemovedRows(t0, scan, FileSet(files)));
  }

  lemma SetMinus<T>(a: set<T>, b: set<T>)
    requires b <= a
    ensures |a - b| == |a| - |b|
  {
    assert a == (a - b) + b;
  }

  lemma LocalRowsKept(t0: Tables, items: Items, scan: Scan, files: set<ScanFile>)
    requires Reconciled(t0, items, scan, files)
    ensures RemovedRows(t0, scan, files) <= LocalRows(t0.items).Keys
    ensures LocalRows(items).Keys == (LocalRows(t0.items).Keys - RemovedRows(t0, scan, files))
            + NewRows(t0.items, items)
  {
    hide Holds; hide RowAt;
    forall id | id in t0.items && id in items ensures items[id].kind == t0.items[id].kind {}
  }

  ghost predicate SameCloudRows(items0: Items, items: Items) {
    && (forall id :: id in items0 && items0[id].kind == Cloud ==> id in items && items[id] == items0[id])
    && (forall id :: id in items && items[id].kind == Cloud ==> id in items0 && items0[id].kind == Cloud)
  }

  /** Before the prune the cloud rows are as they were, and the only new keys are copy keys. */
  lemma CloudAfter(p: Passes)
    requires Pipeline(p)
    ensures SameCloudRows(p.before.items, p.applied.items)
    ensures HiddenKeys.NoLegacyKeys(p.before.keys) <==> HiddenKeys.NoLegacyKeys(p.applied.keys)
  {
    hide Pipeline;
    forall id | id in p.before.items && p.before.items[id].kind == Cloud
      ensures id in p.applied.items && p.applied.items[id] == p.before.items[id]
    {
      CloudRowKept(p, id);
    }
    forall id | id in p.applied.items && p.applied.items[id].kind == Cloud
      ensures id in p.before.items && p.before.items[id].kind == Cloud
    {
      OriginAfter(p, id);
    }
    OnlyCopyKeysAdded(p);
  }

  lemma CloudRowKept(p: Passes, id: RowId)
    requires Pipeline(p) && id in p.before.items && p.before.items[id].kind == Cloud
    ensures id in p.applied.items && p.applied.items[id] == p.before.items[id]
  {
    assert !StableRow(p.before, p.scan, FileSet(p.files), id);
    UntouchedRows(p.before, p.scan, p.files, p.records, p.plan, id);
    UntouchedSince(p, id);
  }

  lemma OnlyCopyKeysAdded(p: Passes)
    requires Pipeline(p)
    ensures HiddenKeys.NoLegacyKeys(p.before.keys) <==> HiddenKeys.NoLegacyKeys(p.applied.keys)
  {
    assert p.staged.keys == p.before.keys && p.applied.keys == p.removed.keys;
  }

  /** Two rows clash over a derived identity before the scan exactly when they do before the prune. */
  lemma SameClash(t0: Tables, t: Tables, env: Environment)
    requires RandomLocals(t0) && RandomLocals(t) && SameCloudRows(t0.items, t.items)
    ensures HiddenKeys.CloudClash(t0.items, env) <==> HiddenKeys.CloudClash(t.items, env)
  {
    if HiddenKeys.CloudClash(t0.items, env) {
      ClashCarries(t0, t, env);
    }
    if HiddenKeys.CloudClash(t.items, env) {
      ClashCarries(t, t0, env);
    }
  }

  lemma ClashCarries(t: Tables, t': Tables, env: Environment)
    requires RandomLocals(t) && HiddenKeys.CloudClash(t.items, env)
    requires forall id :: id in t.items && t.items[id].kind == Cloud ==> id in t'.items && t'.items[id] == t.items[id]
    ensures HiddenKeys.CloudClash(t'.items, env)
  {
    var a, b :| a in t.items && b in t.items && a != b && HiddenKeys.Unresolved(t.items[a], env) &&
                (t.items[b].identity == DerivedIdentity(env, t.items[a]) ||
                 (HiddenKeys.Unresolved(t.items[b], env) &&
                     DerivedIdentity(env, t.items[b]) == DerivedIdentity(env, t.items[a])));
    assert t.items[b].kind == Cloud;
    assert a in t'.items && b in t'.items && HiddenKeys.Unresolved(t'.items[a], env);
  }

  /** Everything inside the savepoint before the prune. */
  method Reconcile(db: Connection, scan: Scan, files: seq<ScanFile>)
    returns (ok: bool, changed: nat, removed: nat, ghost inserted: nat)
    requires Valid(db.t) && DistinctFiles(files) && NoStagingNames(db.t.items, files)
    modifies db
    ensures ok <==> !CloudHolds(old(db.t.items), files)
    ensures ok ==> Reconciled(old(db.t), db.t.items, scan, FileSet(files)) && Valid(db.t)
    ensures ok ==> HidesSurvive(old(db.t), db.t, scan.env)
    ensures ok ==> AllTraced(db.t, scan.env, FileSet(files))
    ensures ok ==> AllReturned(old(db.t), db.t.items, scan, FileSet(files))
    ensures ok ==> KeysKept(old(db.t), db.t)
    ensures removed == |RemovedRows(old(db.t), scan, FileSet(files))|
    ensures changed == |files| - |StableRows(old(db.t), scan, FileSet(files))|
    ensures |LocalRows(old(db.t.items))| - removed + inserted == |files|
    ensures ok ==> inserted == |NewRows(old(db.t.items), db.t.items)|
    ensures ok ==> SameCloudRows(old(db.t.items), db.t.items)
    ensures ok ==> (HiddenKeys.NoLegacyKeys(old(db.t.keys)) <==> HiddenKeys.NoLegacyKeys(db.t.keys))
    ensures ok && RandomLocals(old(db.t)) ==> RandomLocals(db.t)
  {
    hide *;
    ghost var t0 := db.t;
    var rows := LocalRows(db.t.items);
    var records, drops, displaced, seen := Recognise(db, scan, files);
    ghost var tc := db.t;
    var changedRecords := Changed(records);
    ghost var plan := ScanPlan.Plan(scan.jobId, Moves(changedRecords), drops, t0.nextId);
    PlanMade(t0, scan, files, records, drops, plan);
    PlanWellFormed(t0, scan, files, records, plan);
    ObstructedByCloud(t0, scan, files, records, plan);
    CountsOf(t0, scan, files, records, drops);
    changed, removed := |changedRecords|, |drops|;
    inserted := ScanPlan.Inserted(Moves(changedRecords), |changedRecords|);
    ghost var ts, tr;
    ok, ts, tr := Mutate(db, scan, rows, changedRecords, drops, displaced, t0, files, records, plan, seen);
    if ok {
      ReconciledAfter(Passes(t0, tc, ts, tr, db.t, scan, files, records, plan, seen));
      HidesAfter(Passes(t0, tc, ts, tr, db.t, scan, files, records, plan, seen));
      ValidAfter(Passes(t0, tc, ts, tr, db.t, scan, files, records, plan, seen));
      CloudAfter(Passes(t0, tc, ts, tr, db.t, scan, files, records, plan, seen));
      RowsInserted(t0, db.t.items, scan, files);
      KeysKeptAfter(Passes(t0, tc, ts, tr, db.t, scan, files, records, plan, seen));
    }
  }

  /** All cloud rows have their identity, as every cloud synchronisation leaves them. */
  ghost predicate CloudIdentified(items: Items) {
    forall id :: id in items && items[id].kind == Cloud ==> items[id].identity.Some?
  }

  lemma OnlyLocalMissingAfter(t0: Tables, items: Items, scan: Scan, files: set<ScanFile>)
    requires Reconciled(t0, items, scan, files) && CloudIdentified(t0.items)
    ensures HiddenKeys.OnlyLocalMissing(items)
  {
    hide Holds, RemovedRows;
  }

  lemma PruneKeepsValid(t: Tables, t1: Tables, t': Tables)
    requires Valid(t) && HiddenKeys.OnlyIdentified(t, t1) && UniqueIdentities(t1.items)
    requires t' == t1.(aliases := t'.aliases, keys := t'.keys)
    ensures Valid(t')
  {
    forall a, b | a in t'.items && b in t'.items && t'.items[a].path == t'.items[b].path ensures a == b {
      assert t.items[a].path == t.items[b].path;
    }
  }

  /** What a completed scan has done: files and local rows correspond, no direct hide and no copy key is lost, every
      traceable file is recognisable, and every returning file has its identity back. */
  ghost predicate Scanned(t0: Tables, t: Tables, scan: Scan, files: seq<ScanFile>) {
    && Reconciled(t0, t.items, scan, FileSet(files))
    && HidesSurvive(t0, t, scan.env) && KeysKept(t0, t)
    && AllTraced(t, scan.env, FileSet(files))
    && AllReturned(t0, t.items, scan, FileSet(files))
  }

  lemma ScanDone(t0: Tables, t: Tables, scan: Scan, files: seq<ScanFile>)
    requires Reconciled(t0, t.items, scan, FileSet(files)) && HidesSurvive(t0, t, scan.env) && KeysKept(t0, t)
    requires AllTraced(t, scan.env, FileSet(files)) && AllReturned(t0, t.items, scan, FileSet(files))
    ensures Scanned(t0, t, scan, files)
  {
  }

  lemma PruneKeepsReturned(t0: Tables, t: Tables, t1: Tables, t': Tables, scan: Scan, files: set<ScanFile>)
    requires AllReturned(t0, t.items, scan, files) && KeysKept(t0, t) && HiddenKeys.OnlyIdentified(t, t1)
    requires t' == t1.(aliases := t'.aliases, keys := HiddenKeys.MigratedKeys(t1, scan.env))
    ensures AllReturned(t0, t'.items, scan, files) && KeysKept(t0, t')
  {
    forall scope, i | (scope, CopyKey(i)) in t0.keys ensures (scope, CopyKey(i)) in t'.keys {
      CopyKeysSurviveMigration(t1, scan.env, (scope, CopyKey(i)));
    }
    hide Returning;
    forall f, i | Returning(t0, scan, files, f, i)
      ensures exists id :: RowAt(t'.items, id, f.path) && OwnedBy(t'.items, i, id)
    {
      var id :| RowAt(t.items, id, f.path) && OwnedBy(t.items, i, id);
      assert RowAt(t'.items, id, f.path) && OwnedBy(t'.items, i, id);
    }
  }

  /** One scan. It completes exactly when no cloud row holds the path of a discovered file and, if there are legacy keys
      to prune, no two rows clash over a derived identity; otherwise the savepoint puts every table back. A completed
      scan has put files and local rows into one-to-one correspondence by path and has lost no direct hide. */
  method ScanLibrary(db: Connection, scan: Scan, files: seq<ScanFile>) returns (outcome: Outcome)
    requires Valid(db.t) && DistinctFiles(files) && NoStagingNames(db.t.items, files)
    modifies db
    ensures Valid(db.t)
    ensures outcome.Failed? ==> db.t == old(db.t)
    ensures CloudHolds(old(db.t.items), files) ==> outcome.Failed?
    ensures !CloudHolds(old(db.t.items), files) && CloudIdentified(old(db.t.items)) ==> outcome.Completed?
    ensures RandomLocals(old(db.t)) ==>
      (outcome.Completed? <==>
       !CloudHolds(old(db.t.items), files) &&
       (HiddenKeys.NoLegacyKeys(old(db.t.keys)) || !HiddenKeys.CloudClash(old(db.t.items), scan.env)))
    ensures outcome.Completed? ==> Scanned(old(db.t), db.t, scan, files)
    ensures outcome.Completed? ==>
      && outcome.filesSeen == |files|
      && outcome.filesChanged == |files| - |StableRows(old(db.t), scan, FileSet(files))|
      && outcome.filesRemoved == |RemovedRows(old(db.t), scan, FileSet(files))|
      && |LocalRows(old(db.t.items))| - outcome.filesRemoved
         + |NewRows(old(db.t.items), db.t.items)| == outcome.filesSeen
      && (outcome.catalogClaimed <==> outcome.filesChanged > 0 || outcome.filesRemoved > 0)
  {
    hide *;
    var saved := db.t;
    ghost var inserted;
    var ok, changed, removed;
    ok, changed, removed, inserted := Reconcile(db, scan, files);
    if !ok {
      db.t := saved;
      return Failed;
    }
    ghost var ta := db.t;
    assert UniqueIdentities(ta.items) by { ValidParts(ta); }
    if RandomLocals(saved) { SameClash(saved, ta, scan.env); }
    var users, everyone;
    ghost var t1;
    ok, users, everyone, t1 := HiddenKeys.MigrateLegacyKeys(db, scan.env);
    if !ok {
      if CloudIdentified(old(db.t.items)) { OnlyLocalMissingAfter(saved, ta.items, scan, FileSet(files)); }
      db.t := saved;
      return Failed;
    }
    OnlyIdentifiedRows(ta, t1);
    PruneKeepsRows(saved, ta.items, t1.items, scan, FileSet(files));
    PruneKeepsHides(saved, ta, t1, db.t, scan.env);
    PruneKeepsValid(ta, t1, db.t);
    PruneSettles(ta, t1, db.t);
    AllTracedStays(ta, db.t, scan.env, FileSet(files));
    RowsInserted(saved, db.t.items, scan, files);
    PruneKeepsReturned(saved, ta, t1, db.t, scan, FileSet(files));
    ScanDone(saved, db.t, scan, files);
    outcome := Completed(|files|, changed, removed, users.migrated + everyone.migrated, changed > 0 || removed > 0);
  }

  lemma PruneSettles(t: Tables, t1: Tables, t': Tables)
    requires HiddenKeys.OnlyIdentified(t, t1) && t1.aliases <= t'.aliases && t'.items == t1.items
    ensures Settles(t, t')
  {
  }

  // ----- scanning again -----

  lemma FilesStable(t: Tables, again: Scan, files: set<ScanFile>)
    requires AllTraced(t, again.env, files) && forall f :: f in files ==> Traceable(again.env, f)
    ensures forall f :: f in files ==> Stable(t, again, f)
  {
    forall f | f in files ensures Stable(t, again, f) {
      assert Traced(t, again.env, f);
      var id :| TracedAt(t, again.env, f, id);
      assert StableAt(t, again, f, id);
    }
  }

  lemma LocalRowsStable(t0: Tables, t: Tables, scan: Scan, again: Scan, files: set<ScanFile>)
    requires UniquePaths(t.items) && Reconciled(t0, t.items, scan, files)
    requires forall f :: f in files ==> Stable(t, again, f)
    ensures StableRows(t, again, files) == LocalRows(t.items).Keys && RemovedRows(t, again, files) == {}
    ensures |StableRows(t, again, files)| == |LocalRows(t.items)|
  {
    hide Continues; hide Reconciled;
    forall id | id in LocalRows(t.items) ensures StableRow(t, again, files, id) {
      var f := FileOfRow(t0, t.items, scan, files, id);
      var same :| StableAt(t, again, f, same);
      assert same == id;
    }
    assert |LocalRows(t.items).Keys| == |LocalRows(t.items)|;
  }

  lemma StableFilesUnmatched(t: Tables, again: Scan, files: set<ScanFile>)
    requires forall f :: f in files ==> Stable(t, again, f)
    ensures MatchedRows(t, again, files) == {}
  {
    hide Stable;
    forall f, id ensures !Matched(t, again, files, f, id) {}
  }

  lemma StableFilesNotCloud(t: Tables, again: Scan, files: seq<ScanFile>)
    requires UniquePaths(t.items) && forall f :: f in FileSet(files) ==> Stable(t, again, f)
    ensures !CloudHolds(t.items, files)
  {
    hide Continues;
    forall id, k | id in t.items && t.items[id].kind == Cloud && 0 <= k < |files|
        ensures t.items[id].path != files[k].path {
      assert files[k] in FileSet(files);
      var other :| StableAt(t, again, files[k], other);
    }
  }

  /** A second scan of the same files, all of them traceable, finds nothing to change, to match or to remove. */
  lemma SecondScanFindsNothing(t0: Tables, t: Tables, scan: Scan, again: Scan, files: seq<ScanFile>)
    requires Valid(t) && DistinctFiles(files) && again.env == scan.env
    requires Reconciled(t0, t.items, scan, FileSet(files)) && AllTraced(t, scan.env, FileSet(files))
    requires forall f :: f in files ==> Traceable(scan.env, f)
    ensures StableRows(t, again, FileSet(files)) == LocalRows(t.items).Keys
    ensures |StableRows(t, again, FileSet(files))| == |files|
    ensures RemovedRows(t, again, FileSet(files)) == {} && MatchedRows(t, again, FileSet(files)) == {}
    ensures !CloudHolds(t.items, files)
  {
    var all := FileSet(files);
    FilesStable(t, again, all);
    StableFilesUnmatched(t, again, all);
    StableFilesNotCloud(t, again, files);
    FilesCounted(files);
    OneRowPerFile(t0, t.items, scan, all);
    LocalRowsStable(t0, t, scan, again, all);
  }

  lemma {:induction false} FilesCounted(files: seq<ScanFile>)
    requires DistinctFiles(files)
    ensures |FileSet(files)| == |files|
    ensures DistinctPaths(FileSet(files))
  {
    if files != [] {
      var n := |files| - 1;
      FilesCounted(files[..n]);
      assert files == files[..n] + [files[n]];
      assert FileSet(files) == FileSet(files[..n]) + {files[n]};
      assert files[n] !in FileSet(files[..n]);
    }
  }

  /** Its completed run leaves every row as it was, when the cloud rows have their identities. */
  lemma SecondScanChangesNothing(t0: Tables, t: Tables, items: Items, scan: Scan, again: Scan, files: set<ScanFile>)
    requires UniquePaths(t.items) && CloudIdentified(t.items)
    requires Reconciled(t0, t.items, scan, files) && Reconciled(t, items, again, files)
    requires AllTraced(t, again.env, files) && forall f :: f in files ==> Traceable(again.env, f)
    ensures items == t.items
  {
    hide *;
    FilesTraced(t, again, files);
    CloudRowsKept(t, items, again, files);
    OldLocalRows(t0, t, items, scan, again, files);
    NewLocalRows(t, items, again, files);
    SameItems(t.items, items);
  }

  ghost predicate EachTraced(t: Tables, again: Scan, files: set<ScanFile>) {
    forall f :: f in files ==> Traced(t, again.env, f)
  }

  lemma FilesTraced(t: Tables, again: Scan, files: set<ScanFile>)
    requires AllTraced(t, again.env, files) && forall f :: f in files ==> Traceable(again.env, f)
    ensures EachTraced(t, again, files)
  {
  }

  lemma SameItems(a: Items, b: Items)
    requires forall id :: id in a ==> id in b && b[id] == a[id]
    requires forall id :: id in b ==> id in a
    ensures a == b
  {
  }

  lemma OldLocalRows(t0: Tables, t: Tables, items: Items, scan: Scan, again: Scan, files: set<ScanFile>)
    requires UniquePaths(t.items) && Reconciled(t0, t.items, scan, files) && Reconciled(t, items, again, files)
    requires EachTraced(t, again, files)
    ensures forall id :: id in t.items && t.items[id].kind == Local ==> id in items && items[id] == t.items[id]
  {
    hide Reconciled; hide Traced; hide UniquePaths;
    forall id | id in t.items && t.items[id].kind == Local ensures id in items && items[id] == t.items[id] {
      var f := FileOfRow(t0, t.items, scan, files, id);
      TracedFileKeepsRow(t, items, again, files, f, id);
    }
  }

  lemma NewLocalRows(t: Tables, items: Items, again: Scan, files: set<ScanFile>)
    requires UniquePaths(t.items) && Reconciled(t, items, again, files) && EachTraced(t, again, files)
    ensures forall id :: id in items && items[id].kind == Local ==> id in t.items
  {
    hide Reconciled; hide Traced; hide UniquePaths;
    forall id | id in items && items[id].kind == Local ensures id in t.items {
      var f := FileOfRow(t, items, again, files, id);
      LocalRowKnown(t, items, again, files, f, id);
    }
  }

  lemma FileOfRow(t0: Tables, items: Items, scan: Scan, files: set<ScanFile>, id: RowId) returns (f: ScanFile)
    requires Reconciled(t0, items, scan, files) && id in items && items[id].kind == Local
    ensures f in files && f.path == items[id].path
  {
    f :| f in files && f.path == items[id].path;
  }

  lemma CloudRowsKept(t: Tables, items: Items, again: Scan, files: set<ScanFile>)
    requires Reconciled(t, items, again, files) && CloudIdentified(t.items)
    ensures forall id :: id in t.items && t.items[id].kind == Cloud ==> id in items && items[id] == t.items[id]
    ensures forall id :: id in items && items[id].kind == Cloud ==> id in t.items
  {
    hide Holds; hide RowAt;
  }

  lemma LocalRowKnown(t: Tables, items: Items, again: Scan, files: set<ScanFile>, f: ScanFile, id: RowId)
    requires UniquePaths(t.items) && Reconciled(t, items, again, files) && f in files && Traced(t, again.env, f)
    requires RowAt(items, id, f.path)
    ensures id in t.items
  {
    var traced :| TracedAt(t, again.env, f, traced);
    TracedFileKeepsRow(t, items, again, files, f, traced);
    hide Holds;
    assert traced == id;
  }

  lemma TracedFileKeepsRow(t: Tables, items: Items, again: Scan, files: set<ScanFile>, f: ScanFile, id: RowId)
    requires UniquePaths(t.items) && Reconciled(t, items, again, files) && f in files
    requires Traced(t, again.env, f) && RowAt(t.items, id, f.path)
    ensures RowAt(items, id, f.path) && items[id] == t.items[id]
  {
    var traced :| TracedAt(t, again.env, f, traced);
    assert traced == id && StableAt(t, again, f, id);
    var same :| RowAt(items, same, f.path) && Holds(t, items, again, files, f, same);
    assert Stable(t, again, f) && StableAt(t, again, f, same) && same == id;
  }

  lemma ValidParts(t: Tables)
    requires Valid(t)
    ensures UniqueIdentities(t.items) && UniquePaths(t.items)
  {
  }

  lemma OnlyIdentifiedRows(t: Tables, t1: Tables)
    requires HiddenKeys.OnlyIdentified(t, t1)
    ensures t1.items.Keys == t.items.Keys
    ensures forall id :: id in t.items ==> t1.items[id] == t.items[id].(identity := t1.items[id].identity)
    ensures forall id :: id in t.items && t.items[id].identity.Some? ==> t1.items[id] == t.items[id]
  {
  }
}
