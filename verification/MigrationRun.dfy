/** A whole migration: the checks before it, the two ways it can proceed, and the undo on any failure. */
module MigrationRun {
  import opened Options
  import opened Destination
  import opened ReleaseMigration

  datatype Outcome =
    | Identical
    | ModesRepaired
    | Migrated
    | Refused          // an error before anything was changed
    | RolledBack       // an error after which every cleanup step reported success
    | CleanupFailed    // an error after which some cleanup step was not possible

  /** Whether the run still owns the lock each time the cleanup asks: before all of it, and before each part. */
  datatype Lock = Lock(forCleanup: bool, forArtifacts: bool, forModes: bool, forRemoval: bool)

  predicate Held(lock: Lock) {
    lock.forCleanup && lock.forArtifacts && lock.forModes && lock.forRemoval
  }

  predicate Succeeded(outcome: Outcome) {
    outcome.Identical? || outcome.ModesRepaired? || outcome.Migrated?
  }

  /** Every release file is there with the content of the source and the immutable mode. */
  ghost predicate Installed(d: Disk, source: map<string, nat>) {
    d.exists_ && forall n :: n in source ==> SameFile(d, n, source[n])
  }

  // ----- what undoing restores -----

  lemma UndoneView(d0: Disk, d: Disk)
    requires InTransaction(d0, d, [], [])
    ensures View(d) == View(d0)
  {
    RepairedNothingPlaced(d0, d, []);
    assert Undone(d.nodes, []) == d.nodes;
    forall n | n in d0.names ensures d.nodes[d.names[n]] == d0.nodes[d0.names[n]] {
      assert d0.names[n] in d0.nodes;
    }
    var v, v0 := View(d).value, View(d0).value;
    assert v.Keys == v0.Keys;
    assert v == v0;
    assert View(d) == Some(v) && View(d0) == Some(v0);
  }

  lemma TransactionStarts(d: Disk)
    requires Sound(d) && d.exists_
    ensures InTransaction(d, d, [], [])
  {
    assert Undone(d.nodes, []) == d.nodes;
  }

  lemma RepairedNothingPlaced(d0: Disk, d: Disk, repairs: seq<Repair>)
    requires InTransaction(d0, d, [], repairs)
    ensures d.names == d0.names
  {
    forall n | n in d.names ensures n in d0.names {
      assert n !in d0.names ==> Owned([], n, d.names[n]);
    }
  }

  /** Every file that was there is still there under its name, with everything but perhaps its mode. */
  ghost predicate FilesKept(d0: Disk, d: Disk) {
    forall n :: n in d0.names && d0.names[n] in d0.nodes ==>
      && n in d.names && d.names[n] == d0.names[n] && d.names[n] in d.nodes
      && d.nodes[d.names[n]] == d0.nodes[d0.names[n]].(mode := d.nodes[d.names[n]].mode)
  }

  /** And the modes as well. */
  ghost predicate ModesKept(d0: Disk, d: Disk) {
    forall n :: n in d0.names && d0.names[n] in d0.nodes && d0.names[n] in d.nodes ==>
      d.nodes[d0.names[n]].mode == d0.nodes[d0.names[n]].mode
  }

  lemma TransactionKeepsFiles(d0: Disk, d: Disk, ledger: seq<Entry>, repairs: seq<Repair>)
    requires InTransaction(d0, d, ledger, repairs)
    ensures FilesKept(d0, d)
    ensures repairs == [] ==> ModesKept(d0, d)
    ensures ledger == [] ==> d.names == d0.names
  {
    if ledger == [] { RepairedNothingPlaced(d0, d, repairs); }
    forall n | n in d0.names
      ensures n in d.names && d.names[n] == d0.names[n] && d.names[n] in d.nodes
      ensures d.nodes[d.names[n]] == d0.nodes[d0.names[n]].(mode := d.nodes[d.names[n]].mode)
      ensures repairs == [] ==> d.nodes[d.names[n]] == d0.nodes[d0.names[n]]
    {
      UndoneKeeps(d.nodes, repairs, d0.names[n]);
    }
  }

  /** There was no directory; there is none now, since making it failed, or the one just made is there, empty. */
  ghost predicate NothingPlaced(d0: Disk, d: Disk) {
    !d0.exists_ && (d == d0 || (d.exists_ && d.names == map[]))
  }

  /** What an incomplete cleanup guarantees: no old file is lost; no placed name is left if the lock was held for the
      artifacts, and no mode is changed if it was held for the modes. With the lock held throughout, only a new
      directory may be left, empty. */
  ghost predicate PartlyUndone(d0: Disk, d: Disk, lock: Lock) {
    && FilesKept(d0, d)
    && (lock.forCleanup && lock.forArtifacts ==> d.names == d0.names)
    && (lock.forCleanup && lock.forModes ==> ModesKept(d0, d))
    && (Held(lock) ==> NothingPlaced(d0, d))
  }

  lemma NothingDone(d: Disk, lock: Lock)
    ensures !d.exists_ ==> PartlyUndone(d, d, lock)
  {
  }

  // ----- the checks before a mutation -----

  datatype Inspection = Conflict | Inspected(present: bool, mutable_: seq<string>)

  /** The checks on an existing destination; every read may fail. */
  method Inspect(m: Migration) returns (r: Inspection)
    requires Release(m.source, m.packages)
    ensures r.Inspected? ==> ManifestBacked(m.fs, m.source)
    ensures r.Inspected? ==> forall n :: n in m.source && n in m.fs.names ==> SameContent(m.fs, n, m.source[n])
    ensures r.Inspected? ==> (r.present <==> forall n :: n in m.source ==> n in m.fs.names)
    ensures r.Inspected? ==> forall n :: n in r.mutable_ ==> n in m.source && n in m.fs.names
    ensures r.Inspected? ==> forall n :: n in m.source && n in m.fs.names && !SameFile(m.fs, n, m.source[n]) ==>
            n in r.mutable_
    ensures r.Inspected? && !r.present ==> MANIFEST !in m.fs.names
  {
    var fails := m.Fault();
    if fails || exists n :: n in m.fs.names && n !in m.source { return Conflict; }
    var files := Files(m.packages);
    var present, found := true, [];
    for k := 0 to |files|
      invariant forall j :: 0 <= j < k && files[j] in m.fs.names ==>
                files[j] in m.source && SameContent(m.fs, files[j], m.source[files[j]])
      invariant present <==> forall j :: 0 <= j < k ==> files[j] in m.fs.names
      invariant forall n :: n in found ==> n in m.source && n in m.fs.names
      invariant forall j :: 0 <= j < k && files[j] in m.fs.names && !SameFile(m.fs, files[j], m.source[files[j]]) ==>
                files[j] in found
    {
      fails := m.Fault();
      assert k < |m.packages| ==> m.packages[k] in m.packages;
      if files[k] in m.fs.names {
        if fails || !SameContent(m.fs, files[k], m.source[files[k]]) { return Conflict; }
        if !SameFile(m.fs, files[k], m.source[files[k]]) { found := found + [files[k]]; }
      } else {
        present := false;
      }
    }
    FilesCover(m.source, m.packages);
    if MANIFEST in m.fs.names && !present { return Conflict; }
    r := Inspected(present, found);
  }

  lemma FilesCover(source: map<string, nat>, packages: seq<string>)
    requires Release(source, packages)
    ensures forall n :: n in source <==> exists j :: 0 <= j < |Files(packages)| && Files(packages)[j] == n
  {
    forall n | n in source ensures exists j :: 0 <= j < |Files(packages)| && Files(packages)[j] == n {
      if n == MANIFEST {
        assert Files(packages)[|packages|] == n;
      } else {
        var j :| 0 <= j < |packages| && packages[j] == n;
        assert Files(packages)[j] == n;
      }
    }
    forall j | 0 <= j < |Files(packages)| ensures Files(packages)[j] in source {
      if j < |packages| { assert packages[j] in packages; }
    }
  }

  // ----- repairing modes in place -----

  /** All files are there: make the mutable ones immutable, or put every mode back. */
  method RepairModes(m: Migration, names: seq<string>, lock: Lock) returns (outcome: Outcome)
    requires m.quiet && m.Backed() && Release(m.source, m.packages) && m.ledger == [] && m.repairs == []
    requires Sound(m.fs) && m.fs.exists_
    requires forall n :: n in m.source ==> SameContent(m.fs, n, m.source[n])
    requires forall n :: n in names ==> n in m.source
    requires forall n :: n in m.source && !SameFile(m.fs, n, m.source[n]) ==> n in names
    modifies m
    ensures m.Backed() && old(m.states) <= m.states && old(m.steps) <= m.steps
    ensures outcome.ModesRepaired? || outcome.RolledBack? || outcome.CleanupFailed?
    ensures outcome.ModesRepaired? ==> Installed(m.fs, m.source)
    ensures outcome.RolledBack? ==> Sound(m.fs) && View(m.fs) == View(old(m.fs))
    ensures outcome.CleanupFailed? ==> !lock.forModes && Sound(m.fs) && PartlyUndone(old(m.fs), m.fs, lock)
    ensures outcome.CleanupFailed? ==> m.fs.names == old(m.fs).names
  {
    ghost var d0 := m.fs;
    TransactionStarts(d0);
    var ok := true;
    var k := 0;
    while ok && k < |names|
      invariant 0 <= k <= |names| && m.ledger == [] && m.Backed() && old(m.states) <= m.states &&
                old(m.steps) <= m.steps
      invariant InTransaction(d0, m.fs, [], m.repairs)
      invariant forall n :: n in m.source ==> SameContent(m.fs, n, m.source[n])
      invariant ok ==> forall n :: n in m.source && !SameFile(m.fs, n, m.source[n]) ==> n in names[k..]
    {
      assert names[k] in names && names[k..] == [names[k]] + names[k + 1..];
      ok := RepairOne(m, d0, names[k], names[k + 1..]);
      k := k + 1;
    }
    var fails := m.Fault();
    if ok && !fails {
      assert names[k..] == [];
      return ModesRepaired;
    }
    var clean := m.RestoreModes(lock.forModes, d0, []);
    if clean {
      UndoneView(d0, m.fs);
    } else {
      TransactionKeepsFiles(d0, m.fs, [], m.repairs);
    }
    outcome := if clean then RolledBack else CleanupFailed;
  }

  method RepairOne(m: Migration, ghost d0: Disk, name: string, ghost rest: seq<string>) returns (ok: bool)
    requires m.Backed() && InTransaction(d0, m.fs, [], m.repairs)
    requires name in m.source && forall n :: n in m.source ==> SameContent(m.fs, n, m.source[n])
    requires forall n :: n in m.source && !SameFile(m.fs, n, m.source[n]) ==> n == name || n in rest
    modifies m`fs, m`repairs, m`states, m`steps
    ensures m.Backed() && old(m.states) <= m.states && old(m.steps) <= m.steps
    ensures InTransaction(d0, m.fs, [], m.repairs)
    ensures forall n :: n in m.source ==> SameContent(m.fs, n, m.source[n])
    ensures ok ==> forall n :: n in m.source && !SameFile(m.fs, n, m.source[n]) ==> n in rest
  {
    ghost var b, fixes := m.fs, m.repairs;
    assert SameContent(b, name, m.source[name]);
    RepairedNothingPlaced(d0, b, fixes);
    ok := m.RepairMode(name);
    RepairKeepsTransaction(d0, b, m.fs, [], fixes, m.repairs, name);
    forall n | n in m.source ensures SameContent(m.fs, n, m.source[n]) { assert SameContent(b, n, m.source[n]); }
  }

  // ----- placing files -----

  /** Every part of the cleanup is done. */
  predicate AllUndone(lock: Lock, created: bool, dirId: Option<nat>) {
    lock.forCleanup && lock.forArtifacts && lock.forModes && (created ==> dirId.Some? && lock.forRemoval)
  }

  /** The parts the lock was held for are undone, the others are as they were. A new directory is gone if it could be
      identified and is empty. */
  ghost predicate UndoneAsFar(d0: Disk, d: Disk, lock: Lock, ledger: seq<Entry>, repairs: seq<Repair>, created: bool,
                              dirId: Option<nat>) {
    && InTransaction(d0, d.(exists_ := true), Left(lock.forCleanup && lock.forArtifacts, ledger),
                     Left(lock.forCleanup && lock.forModes, repairs))
    && (!d.exists_ <==> lock.forCleanup && created && dirId.Some? && lock.forRemoval && d.names == map[])
  }

  /** What is left to undo when parts of the cleanup were refused. */
  function Left<T>(undone: bool, all: seq<T>): seq<T> {
    if undone then [] else all
  }

  /** Undo a failed placement: artifacts, then modes, then a directory made by this run. Each part is done if and only
      if the lock is held for it, and is left as it was otherwise. */
  method Undo(m: Migration, lock: Lock, ghost d0: Disk, created: bool, dirId: Option<nat>) returns (clean: bool)
    requires m.quiet && m.Backed()
    requires InTransaction(d0, m.fs, m.ledger, m.repairs) && ManifestLast(d0, m.ledger)
    requires created ==> d0.names == map[]
    requires dirId.Some? ==> dirId.value == d0.dirId
    modifies m
    ensures m.Backed() && old(m.states) <= m.states && old(m.steps) <= m.steps && Sound(m.fs)
    ensures !lock.forCleanup ==> !clean && m.fs == old(m.fs) && m.steps == old(m.steps)
    ensures clean <==> AllUndone(lock, created, dirId)
    ensures UndoneAsFar(d0, m.fs, lock, old(m.ledger), old(m.repairs), created, dirId)
  {
    assert m.fs.(exists_ := true) == m.fs;
    if !lock.forCleanup { return false; }
    clean := m.RollbackArtifacts(lock.forArtifacts, d0);
    ghost var left := Left(lock.forArtifacts, m.ledger);
    var restored := m.RestoreModes(lock.forModes, d0, left);
    clean := clean && restored;
    assert m.fs.(exists_ := true) == m.fs;
    if lock.forArtifacts { RepairedNothingPlaced(d0, m.fs, Left(lock.forModes, m.repairs)); }
    if created {
      if dirId.None? {
        clean := false;
      } else {
        ghost var before := m.fs;
        var gone := m.RemoveDestination(lock.forRemoval, dirId.value);
        assert m.fs.(exists_ := true) == before;
        clean := clean && gone;
      }
    }
  }

  /** What the undo leaves of the directory as it was before the run. */
  lemma AfterUndo(start: Disk, d0: Disk, d: Disk, lock: Lock, ledger: seq<Entry>, repairs: seq<Repair>, created: bool,
                  dirId: Option<nat>)
    requires UndoneAsFar(d0, d, lock, ledger, repairs, created, dirId) && Sound(d) && Sound(start)
    requires start == if created then d0.(exists_ := false, dirId := start.dirId) else d0
    ensures AllUndone(lock, created, dirId) ==> View(d) == View(start)
    ensures !AllUndone(lock, created, dirId) ==> PartlyUndone(start, d, lock)
  {
    var left := Left(lock.forCleanup && lock.forArtifacts, ledger);
    var kept := Left(lock.forCleanup && lock.forModes, repairs);
    TransactionKeepsFiles(d0, d.(exists_ := true), left, kept);
    if AllUndone(lock, created, dirId) {
      UndoneView(d0, d.(exists_ := true));
      assert !created ==> d.(exists_ := true) == d;
    }
  }

  /** The forward loop over all files. */
  method PlaceAll(m: Migration, ghost d0: Disk, mtime: nat) returns (ok: bool)
    requires m.Backed() && Release(m.source, m.packages) && MANIFEST !in d0.names
    requires InTransaction(d0, m.fs, m.ledger, m.repairs) && m.ledger == []
    modifies m`fs, m`ledger, m`repairs, m`states, m`steps
    ensures m.Backed() && old(m.states) <= m.states && old(m.steps) <= m.steps
    ensures InTransaction(d0, m.fs, m.ledger, m.repairs) && ManifestLast(d0, m.ledger)
    ensures ok ==> Installed(m.fs, m.source)
  {
    for k := 0 to |m.packages| + 1
      invariant m.Backed() && old(m.states) <= m.states && old(m.steps) <= m.steps
      invariant Forward(d0, m.fs, m.ledger, m.repairs, m.source, m.packages, k)
    {
      ok := m.PlaceOne(d0, k, mtime);
      if !ok { return; }
    }
    FilesCover(m.source, m.packages);
    ok := true;
  }

  /** Make the directory. Reading its identity afterwards may fail; then nothing can be said about which directory it
      is. */
  method MakeDestination(m: Migration, newId: nat) returns (created: bool, dirId: Option<nat>, ok: bool)
    requires m.quiet && m.Backed() && !m.fs.exists_
    modifies m`fs, m`states, m`steps
    ensures m.Backed() && old(m.states) <= m.states && old(m.steps) <= m.steps
    ensures m.fs == if created then old(m.fs).(exists_ := true, dirId := newId) else old(m.fs)
    ensures (dirId.Some? ==> created && dirId.value == newId) && (ok ==> dirId.Some?)
  {
    var fails := m.Fault();
    if fails { return false, None, false; }
    m.BackedCall(MakeDirectory(newId), m.fs.(exists_ := true, dirId := newId));
    created := true;
    fails := m.Fault();
    if fails { return true, None, false; }
    dirId := Some(newId);
    fails := m.Fault();
    ok := !fails;
  }

  /** Nothing, or only part of the release, is there: place the rest with the manifest last. */
  method Place(m: Migration, lock: Lock, newId: nat, mtime: nat) returns (outcome: Outcome)
    requires m.quiet && m.Backed() && Release(m.source, m.packages) && m.ledger == [] && m.repairs == []
    requires Sound(m.fs) && MANIFEST !in m.fs.names
    modifies m
    ensures m.Backed() && old(m.states) <= m.states && old(m.steps) <= m.steps
    ensures outcome.Migrated? || outcome.RolledBack? || outcome.CleanupFailed?
    ensures outcome.Migrated? ==> Installed(m.fs, m.source)
    ensures outcome.RolledBack? ==> Sound(m.fs) && View(m.fs) == View(old(m.fs))
    ensures outcome.CleanupFailed? ==> Sound(m.fs) && PartlyUndone(old(m.fs), m.fs, lock)
  {
    hide InTransaction; hide UndoneAsFar; hide PartlyUndone; hide AllUndone; hide ManifestLast; hide Installed;
    hide History; hide ManifestBacked;
    var created, dirId, ok := false, None, true;
    ghost var start := m.fs;
    NothingDone(start, lock);
    if !m.fs.exists_ {
      created, dirId, ok := MakeDestination(m, newId);
      if !created { return CleanupFailed; }
    }
    ghost var d0 := m.fs;
    TransactionStarts(d0);
    if ok {
      ok := PlaceAll(m, d0, mtime);
    }
    if ok {
      var fails := m.Fault();
      ok := !fails;
    }
    if ok {
      m.Commit();
      return Migrated;
    }
    ghost var entries, fixes := m.ledger, m.repairs;
    var clean := Undo(m, lock, d0, created, dirId);
    AfterUndo(start, d0, m.fs, lock, entries, fixes, created, dirId);
    outcome := if clean then RolledBack else CleanupFailed;
  }

  /** The migration. The recorded history leads from the directory as it was found to the directory as it is, and
      unless nothing was done, an active manifest is backed by the whole release in every state on the way. Success
      means every file is there, equal and immutable. Failure, with the lock held, leaves the directory as it was
      found, with one exception: a directory whose identity could not be read right after it was made stays, empty.
      When the lock is lost during the cleanup, the parts before that are undone and no old file is lost. */
  method Migrate(m: Migration, lock: Lock, newId: nat, mtime: nat) returns (outcome: Outcome)
    requires m.quiet && Release(m.source, m.packages) && Sound(m.fs)
    requires m.ledger == [] && m.repairs == [] && m.steps == [] && m.Recorded()
    modifies m
    ensures m.Recorded() && m.states[0] == old(m.fs)
    ensures m.steps != [] ==> m.Backed()
    ensures Succeeded(outcome) ==> Installed(m.fs, m.source)
    ensures outcome.Identical? || outcome.Refused? ==> m.fs == old(m.fs) && m.steps == []
    ensures outcome.RolledBack? ==> Sound(m.fs) && View(m.fs) == View(old(m.fs))
    ensures outcome.CleanupFailed? ==> Sound(m.fs) && PartlyUndone(old(m.fs), m.fs, lock)
  {
    if m.fs.exists_ {
      var r := Inspect(m);
      if r.Conflict? { return Refused; }
      if r.present {
        if r.mutable_ == [] { return Identical; }
        outcome := RepairModes(m, r.mutable_, lock);
        return;
      }
    }
    outcome := Place(m, lock, newId, mtime);
  }
}
