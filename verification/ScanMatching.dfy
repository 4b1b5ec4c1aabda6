/** Which files a scan finds unchanged and which displaced rows it recognises under a new path.

    The predicates below speak about the set of discovered files and the tables before the scan, so
    nothing in them depends on the order of discovery. The methods after them run the loops of the
    scanner, which write aliases while they classify, and are proved to compute exactly these predicates. */
module ScanMatching {
  import opened Options
  import opened LibraryTables
  import opened CopyEvidence
  import opened CopyIdentity
  import opened WaitingIdentities

  datatype ScanFile = ScanFile(
    path: string,
    stem: string,
    name: string,
    inferredYear: Option<int>,
    stat: FileStat,
    folder: Folder)

  /** What stays fixed during one scan. */
  datatype Scan = Scan(env: Environment, source: nat, jobId: nat)

  // ----- one file against one row -----

  function OrNone(v: Option<string>): Option<string> {
    if v == Some("") then None else v
  }

  predicate ScanMetadataMatches(item: Item, folder: Folder) {
    && OrNone(item.folder.seriesKey) == OrNone(folder.seriesKey)
    && OrNone(item.folder.seriesName) == OrNone(folder.seriesName)
    && OrNone(item.folder.category) == OrNone(folder.category)
    && OrNone(item.folder.categoryPath) == OrNone(folder.categoryPath)
    && OrNone(item.folder.categoryName) == OrNone(folder.categoryName)
    && OrNone(item.folder.role) == OrNone(folder.role)
    && OrNone(item.folder.path) == OrNone(folder.path)
    && OrNone(item.folder.name) == OrNone(folder.name)
  }

  predicate StatUnchanged(item: Item, f: ScanFile) {
    item.size == f.stat.size && item.mtime == f.stat.mtime
  }

  function FileEvidence(source: nat, f: ScanFile, withSample: bool): seq<Evidence> {
    EvidenceOf(Local, source, f.path, Some(f.stat), withSample)
  }

  /** The row's identity was recorded for this very path and inode. */
  predicate KnownInode(aliases: set<Alias>, env: Environment, item: Item, f: ScanFile) {
    item.identity.Some? &&
    Accepted(aliases, Search(item.source, Some(env.locator(f.path)), false), FileEvidence(item.source, f, false),
        item.identity.value)
  }

  /** The row's identity was recorded for this very path and content sample. */
  predicate KnownSample(aliases: set<Alias>, env: Environment, item: Item, f: ScanFile) {
    item.identity.Some? &&
    Accepted(aliases, Search(item.source, Some(env.locator(f.path)), true), FileEvidence(item.source, f, true),
        item.identity.value)
  }

  predicate Continues(aliases: set<Alias>, env: Environment, item: Item, f: ScanFile) {
    StatUnchanged(item, f) && ScanMetadataMatches(item, f.folder) &&
    (item.identity.None? || KnownInode(aliases, env, item, f) || KnownSample(aliases, env, item, f))
  }

  /** A row from before identities whose folder columns are being upgraded. */
  predicate LegacyUpgrade(item: Item, f: ScanFile) {
    StatUnchanged(item, f) && !ScanMetadataMatches(item, f.folder) && item.identity.None?
  }

  /** Identities whose recorded samples equal the sample of a changed file, under any path. */
  function SampledIdentities(aliases: set<Alias>, scan: Scan, f: ScanFile): set<Identity> {
    AcceptedIdentities(aliases, Search(scan.source, None, true), FileEvidence(scan.source, f, true))
  }

  // ----- the whole library, independent of order -----

  predicate RowAt(items: Items, id: RowId, path: string) {
    id in items && items[id].kind == Local && items[id].path == path
  }

  ghost predicate StableAt(t: Tables, scan: Scan, f: ScanFile, id: RowId) {
    RowAt(t.items, id, f.path) && Continues(t.aliases, scan.env, t.items[id], f)
  }

  ghost predicate Stable(t: Tables, scan: Scan, f: ScanFile) {
    exists id :: StableAt(t, scan, f, id)
  }

  ghost predicate LegacyAt(t: Tables, f: ScanFile, id: RowId) {
    RowAt(t.items, id, f.path) && LegacyUpgrade(t.items[id], f)
  }

  ghost predicate StableRow(t: Tables, scan: Scan, files: set<ScanFile>, id: RowId) {
    exists f :: f in files && StableAt(t, scan, f, id)
  }

  /** A local row that no file continues. */
  ghost predicate Displaced(t: Tables, scan: Scan, files: set<ScanFile>, id: RowId) {
    id in t.items && t.items[id].kind == Local && !StableRow(t, scan, files, id)
  }

  /** Row id may be file f under a new path. */
  ghost predicate Candidate(t: Tables, scan: Scan, files: set<ScanFile>, f: ScanFile, id: RowId) {
    && !Stable(t, scan, f)
    && Displaced(t, scan, files, id)
    && if exists r :: LegacyAt(t, f, r) then LegacyAt(t, f, id)
       else t.items[id].identity.Some? && t.items[id].identity.value in SampledIdentities(t.aliases, scan, f)
  }

  /** File and row are each other's only candidate. */
  ghost predicate Matched(t: Tables, scan: Scan, files: set<ScanFile>, f: ScanFile, id: RowId) {
    && f in files && Candidate(t, scan, files, f, id)
    && (forall r :: Candidate(t, scan, files, f, r) ==> r == id)
    && (forall g :: g in files && Candidate(t, scan, files, g, id) ==> g.path == f.path)
  }

  ghost predicate MatchedRow(t: Tables, scan: Scan, files: set<ScanFile>, id: RowId) {
    exists f :: Matched(t, scan, files, f, id)
  }

  ghost predicate DistinctPaths(files: set<ScanFile>) {
    forall f, g :: f in files && g in files && f.path == g.path ==> f == g
  }

  /** The matching is a partial injection from changed files to displaced local rows. */
  lemma MatchingIsInjective(t: Tables, scan: Scan, files: set<ScanFile>, f: ScanFile, g: ScanFile, a: RowId, b: RowId)
    requires DistinctPaths(files)
    requires Matched(t, scan, files, f, a) && Matched(t, scan, files, g, b)
    ensures f == g <==> a == b
    ensures f in files && !Stable(t, scan, f) && Displaced(t, scan, files, a)
  {
    if a == b {
      assert Candidate(t, scan, files, g, a);
    }
  }

  /** A row from before identities always stays with the file at its path while its folder is upgraded. */
  lemma LegacyRowStays(t: Tables, scan: Scan, files: set<ScanFile>, f: ScanFile, id: RowId)
    requires UniquePaths(t.items) && DistinctPaths(files) && f in files && LegacyAt(t, f, id)
    ensures Matched(t, scan, files, f, id)
  {
    forall r | RowAt(t.items, r, f.path) ensures r == id {}
    assert !Stable(t, scan, f);
    forall g | g in files ensures !StableAt(t, scan, g, id) { assert g.path == f.path ==> g == f; }
    assert Displaced(t, scan, files, id);
    forall g | g in files && Candidate(t, scan, files, g, id) ensures g.path == f.path {
      if r :| LegacyAt(t, g, r) { assert LegacyAt(t, g, id); }
    }
  }

  /** A file whose content could not be sampled is matched only as a legacy upgrade. */
  lemma UnsampledFileUnmatched(t: Tables, scan: Scan, files: set<ScanFile>, f: ScanFile, id: RowId)
    requires f.stat.sample.None? && Candidate(t, scan, files, f, id)
    ensures LegacyAt(t, f, id)
  {
    var search, evidence := Search(scan.source, None, true), FileEvidence(scan.source, f, true);
    forall i ensures i !in SampledIdentities(t.aliases, scan, f) {
      AcceptedIsFound(t.aliases, search, evidence, i);
    }
  }

  // ----- what a later scan will recognise -----

  /** The file can be told apart by its path and inode. */
  predicate Traceable(env: Environment, f: ScanFile) {
    f.stat.regular && f.stat.ino > 0 && f.path != "" && env.locator(f.path) != ""
  }

  /** Row id has an identity, and a scan with these aliases would find file f unchanged in it. */
  ghost predicate TracedAt(t: Tables, env: Environment, f: ScanFile, id: RowId) {
    RowAt(t.items, id, f.path) && t.items[id].identity.Some? && Continues(t.aliases, env, t.items[id], f)
  }

  ghost predicate Traced(t: Tables, env: Environment, f: ScanFile) {
    exists id :: TracedAt(t, env, f, id)
  }

  /** Identified rows stay as they are, and aliases are only added. */
  ghost predicate Settles(t: Tables, t': Tables) {
    t.aliases <= t'.aliases &&
    forall id :: id in t.items && t.items[id].identity.Some? ==> id in t'.items && t'.items[id] == t.items[id]
  }

  /** Only the identity of row id may have been filled in, and new aliases carry that row's identity. */
  ghost predicate TouchesOnly(t: Tables, t': Tables, id: RowId) {
    && t'.items.Keys == t.items.Keys
    && (forall r :: r in t.items && t'.items[r] != t.items[r] ==> r == id && t.items[r].identity.None?)
    && (forall a :: a in t'.aliases && a !in t.aliases ==> OwnedBy(t'.items, a.identity, id))
  }

  lemma ContinuesGrows(aliases: set<Alias>, aliases': set<Alias>, env: Environment, item: Item, f: ScanFile)
    requires aliases <= aliases' && Continues(aliases, env, item, f)
    ensures Continues(aliases', env, item, f)
  {
    if item.identity.Some? {
      if KnownInode(aliases, env, item, f) {
        AcceptedGrows(aliases, aliases', Search(item.source, Some(env.locator(f.path)), false),
            FileEvidence(item.source, f, false), item.identity.value);
      } else {
        AcceptedGrows(aliases, aliases', Search(item.source, Some(env.locator(f.path)), true),
            FileEvidence(item.source, f, true), item.identity.value);
      }
    }
  }

  lemma TracedStays(t: Tables, t': Tables, env: Environment, f: ScanFile, id: RowId)
    requires TracedAt(t, env, f, id) && Settles(t, t')
    ensures TracedAt(t', env, f, id)
  {
    ContinuesGrows(t.aliases, t'.aliases, env, t.items[id], f);
  }

  /** A resolution that records the inode of a file makes the file known to every later scan. */
  lemma RecordedIsKnown(aliases: set<Alias>, env: Environment, item: Item, f: ScanFile, withSample: bool)
    requires Traceable(env, f) && item.kind == Local && item.identity.Some?
    requires NewAliases(env, item, item.identity.value, f.path, Some(f.stat), withSample) <= aliases
    ensures KnownInode(aliases, env, item, f)
  {
    var i, search := item.identity.value, Search(item.source, Some(env.locator(f.path)), false);
    var evidence := FileEvidence(item.source, f, false);
    var recorded := EvidenceOf(Local, item.source, f.path, Some(f.stat), withSample);
    var v2 := InodeV2(item.source, f.stat.dev, f.stat.ino, f.stat.size, f.stat.mtimeNs, f.stat.ctimeNs);
    var v1 := InodeV1(item.source, f.stat.dev, f.stat.ino);
    assert evidence == [v2, v1] && recorded[0] == v2 && recorded[1] == v1;
    forall e | e in {v2, v1} ensures e in MatchedEvidence(aliases, search, evidence, i) {
      var a := Alias(i, item.source, env.locator(f.path), e);
      assert e in recorded && a in NewAliases(env, item, i, f.path, Some(f.stat), withSample);
      assert Supports(a, search, a.evidence);
    }
    assert v2 in evidence && v1 in evidence && !HasSample(evidence);
    assert v2 in MatchedEvidence(aliases, search, evidence, i) && v1 in MatchedEvidence(aliases, search, evidence, i);
  }

  // ----- classification -----

  /** One entry of current_records. */
  datatype Record = Record(
    file: ScanFile,
    existing: Option<RowId>,
    stable: bool,
    legacy: Option<RowId>,
    identities: set<Identity>,
    rows: set<RowId>,
    target: Option<RowId>)

  function LocalRows(items: Items): Items {
    map id | id in items && items[id].kind == Local :: items[id]
  }

  /** What has changed since the scan began: identities of classified rows that had none, and inode
      aliases of classified rows. */
  ghost predicate Classifying(t0: Tables, t: Tables, seen: set<RowId>) {
    && t == t0.(items := t.items, aliases := t.aliases)
    && t.items.Keys == t0.items.Keys
    && (forall id :: id in t.items ==> t.items[id] == t0.items[id].(identity := t.items[id].identity))
    && (forall id :: id in t.items && (id !in seen || t0.items[id].identity.Some?) ==> t.items[id] == t0.items[id])
    && UniqueIdentities(t.items)
    && t0.aliases <= t.aliases
    && (forall a :: a in t.aliases && a !in t0.aliases ==> !a.evidence.Sample? && OwnedIn(t.items, a.identity, seen))
  }

  ghost predicate OwnedIn(items: Items, identity: Identity, rows: set<RowId>) {
    exists id :: id in rows && OwnedBy(items, identity, id)
  }

  /** The aliases written so far do not show in any search for a row not yet classified. */
  lemma UnseenRowFrame(t0: Tables, t: Tables, seen: set<RowId>, id: RowId, search: Search, evidence: seq<Evidence>)
    requires Classifying(t0, t, seen) && id in t0.items && id !in seen && t0.items[id].identity.Some?
    ensures Accepted(t.aliases, search, evidence, t0.items[id].identity.value) <==>
            Accepted(t0.aliases, search, evidence, t0.items[id].identity.value)
  {
    var i := t0.items[id].identity.value;
    forall a | a in t.aliases && a !in t0.aliases ensures a.identity != i {
      var r :| r in seen && OwnedBy(t.items, a.identity, r);
      assert r != id && t.items[id].identity == Some(i);
    }
    AcceptedFrame(t.aliases, t0.aliases, search, evidence, i);
  }

  /** The aliases written so far do not show in the candidate search of any changed file. */
  lemma SampledIdentitiesFrame(t0: Tables, t: Tables, seen: set<RowId>, scan: Scan, f: ScanFile)
    requires Classifying(t0, t, seen)
    ensures SampledIdentities(t.aliases, scan, f) == SampledIdentities(t0.aliases, scan, f)
  {
    var search, evidence := Search(scan.source, None, true), FileEvidence(scan.source, f, true);
    forall i ensures i in SampledIdentities(t.aliases, scan, f) <==> i in SampledIdentities(t0.aliases, scan, f) {
      AcceptedIsFound(t.aliases, search, evidence, i);
      AcceptedIsFound(t0.aliases, search, evidence, i);
      SampledSearchFrame(t.aliases, t0.aliases, search, evidence, i);
    }
  }

  lemma OwnedInGrows(items: Items, items': Items, seen: set<RowId>, id: RowId)
    requires forall r :: r in seen && r in items ==> r in items' && items'[r] == items[r]
    ensures forall i :: OwnedIn(items, i, seen) ==> OwnedIn(items', i, seen + {id})
  {
    forall i | OwnedIn(items, i, seen) ensures OwnedIn(items', i, seen + {id}) {
      var r :| r in seen && OwnedBy(items, i, r);
      assert r in seen + {id} && OwnedBy(items', i, r);
    }
  }

  /** Renewing the aliases of a row recognised by its sample adds no sample alias. */
  lemma RenewalStep(t0: Tables, t: Tables, t': Tables, seen: set<RowId>, scan: Scan, id: RowId, f: ScanFile)
    requires Classifying(t0, t, seen) && id in t0.items && id !in seen && t0.items[id].kind == Local
    requires KnownSample(t.aliases, scan.env, t0.items[id], f)
    requires t' == t.(aliases := t.aliases + NewAliases(scan.env, t0.items[id], t0.items[id].identity.value, f.path,
             Some(f.stat), true))
    ensures Classifying(t0, t', seen + {id})
  {
    var item, i, env := t0.items[id], t0.items[id].identity.value, scan.env;
    var search, evidence := Search(item.source, Some(env.locator(f.path)), true), FileEvidence(item.source, f, true);
    var e :| e in MatchedEvidence(t.aliases, search, evidence, i) && e.Sample?;
    var b :| b in t.aliases && b.identity == i && b.evidence == e && Supports(b, search, e);
    forall a | a in NewAliases(env, item, i, f.path, Some(f.stat), true) && a.evidence.Sample? ensures a == b {}
    forall a | a in t'.aliases && a !in t0.aliases ensures !a.evidence.Sample? &&
        OwnedIn(t'.items, a.identity, seen + {id}) {
      OwnedInGrows(t.items, t'.items, seen, id);
      assert a in t.aliases || (a.identity == i && OwnedBy(t'.items, i, id));
    }
  }

  /** Giving a row its first identity by inode evidence adds no sample alias. */
  lemma AdoptionStep(t0: Tables, t: Tables, t': Tables, seen: set<RowId>, scan: Scan, id: RowId, f: ScanFile,
                     r: Resolution)
    requires Classifying(t0, t, seen) && id in t0.items && id !in seen && t0.items[id].kind == Local &&
             t0.items[id].identity.None?
    requires ResolveStep(t, t', scan.env, Request(id, t0.items[id], f.path, Some(f.stat), false, true, {}), r)
    ensures Classifying(t0, t', seen + {id})
  {
    var q := Request(id, t0.items[id], f.path, Some(f.stat), false, true, {});
    ResolveKeepsDistinct(t, t', scan.env, q, r);
    var i := r.identity.value;
    forall a | a in t'.aliases && a !in t0.aliases ensures !a.evidence.Sample? &&
        OwnedIn(t'.items, a.identity, seen + {id}) {
      if a in t.aliases {
        OwnedInGrows(t.items, t'.items, seen, id);
      } else {
        assert a.identity == i && OwnedBy(t'.items, i, id);
      }
    }
  }

  lemma SeenMore(t0: Tables, t: Tables, seen: set<RowId>, id: RowId)
    requires Classifying(t0, t, seen)
    ensures Classifying(t0, t, seen + {id})
  {
    OwnedInGrows(t.items, t.items, seen, id);
  }

  /** What the record of a file says once it is classified. */
  ghost predicate Classified(t0: Tables, scan: Scan, f: ScanFile, record: Record) {
    && record.file == f
    && (forall id: RowId :: record.existing == Some(id) <==> RowAt(t0.items, id, f.path))
    && (record.stable <==> Stable(t0, scan, f))
    && (forall id: RowId :: record.legacy == Some(id) <==> LegacyAt(t0, f, id))
    && (!record.stable && record.legacy.None? ==> record.identities == SampledIdentities(t0.aliases, scan, f))
    && record.rows == {} && record.target.None?
  }

  ghost predicate PathIndex(rows: Items, byPath: map<string, RowId>) {
    && (forall p :: p in byPath ==> byPath[p] in rows && rows[byPath[p]].path == p)
    && (forall id :: id in rows ==> rows[id].path in byPath && byPath[rows[id].path] == id)
  }

  /** The body of the classification loop. */
  method ClassifyFile(db: Connection, scan: Scan, rows: Items, byPath: map<string, RowId>, f: ScanFile,
                      ghost t0: Tables, ghost seen: set<RowId>)
    returns (record: Record)
    requires UniquePaths(t0.items) && rows == LocalRows(t0.items) && PathIndex(rows, byPath)
    requires Classifying(t0, db.t, seen) && (f.path in byPath ==> byPath[f.path] !in seen)
    modifies db
    ensures Classified(t0, scan, f, record)
    ensures Classifying(t0, db.t, if f.path in byPath then seen + {byPath[f.path]} else seen)
    ensures Settles(old(db.t), db.t)
    ensures Stable(t0, scan, f) && Traceable(scan.env, f) ==> Traced(db.t, scan.env, f)
    ensures db.t == old(db.t) || exists id :: StableAt(t0, scan, f, id) && TouchesOnly(old(db.t), db.t, id)
    ensures LeavesWaiting(t0, old(db.t), db.t, scan.env, f.path)
    ensures RandomLocals(old(db.t)) ==> RandomLocals(db.t)
  {
    var existing := if f.path in byPath then Some(byPath[f.path]) else None;
    var stable, legacy, identities := false, None, {};
    ghost var now := if f.path in byPath then seen + {byPath[f.path]} else seen;
    if existing.Some? {
      var id, item := existing.value, rows[existing.value];
      assert RowAt(t0.items, id, f.path);
      if StatUnchanged(item, f) && ScanMetadataMatches(item, f.folder) {
        stable := ContinueRow(db, scan, id, item, f, t0, seen);
      } else {
        SeenMore(t0, db.t, seen, id);
        if StatUnchanged(item, f) && item.identity.None? {
          legacy := Some(id);
        }
      }
    }
    if !stable && legacy.None? {
      identities := FindCandidates(db.t.aliases, Search(scan.source, None, true), FileEvidence(scan.source, f, true));
      SampledIdentitiesFrame(t0, db.t, now, scan, f);
    }
    assert stable && Traceable(scan.env, f) ==> Traced(db.t, scan.env, f);
    record := Record(f, existing, stable, legacy, identities, {}, None);
    RowIndexed(t0, scan, rows, byPath, f, record);
  }

  /** The path index decides the whole record. */
  lemma RowIndexed(t0: Tables, scan: Scan, rows: Items, byPath: map<string, RowId>, f: ScanFile, record: Record)
    requires rows == LocalRows(t0.items) && PathIndex(rows, byPath)
    requires record.file == f && record.rows == {} && record.target.None?
    requires record.existing == if f.path in byPath then Some(byPath[f.path]) else None
    requires record.stable <==> f.path in byPath && Continues(t0.aliases, scan.env, rows[byPath[f.path]], f)
    requires record.legacy == if f.path in byPath && LegacyUpgrade(rows[byPath[f.path]], f) then Some(byPath[f.path])
             else None
    requires !record.stable && record.legacy.None? ==> record.identities == SampledIdentities(t0.aliases, scan, f)
    ensures Classified(t0, scan, f, record)
  {
    forall id: RowId ensures RowAt(t0.items, id, f.path) <==> f.path in byPath && byPath[f.path] == id {
      if RowAt(t0.items, id, f.path) { assert id in rows; }
    }
    if f.path in byPath {
      assert StableAt(t0, scan, f, byPath[f.path]) <==> Continues(t0.aliases, scan.env, rows[byPath[f.path]], f);
    }
  }

  /** A file whose size, time and folder match its row: is it still the same copy? */
  method ContinueRow(db: Connection, scan: Scan, id: RowId, item: Item, f: ScanFile, ghost t0: Tables,
                     ghost seen: set<RowId>)
    returns (stable: bool)
    requires Classifying(t0, db.t, seen) && id !in seen && RowAt(t0.items, id, f.path) && item == t0.items[id]
    requires StatUnchanged(item, f) && ScanMetadataMatches(item, f.folder)
    modifies db
    ensures stable <==> Continues(t0.aliases, scan.env, item, f)
    ensures Classifying(t0, db.t, seen + {id})
    ensures Settles(old(db.t), db.t)
    ensures stable && Traceable(scan.env, f) ==> TracedAt(db.t, scan.env, f, id)
    ensures if stable then TouchesOnly(old(db.t), db.t, id) else db.t == old(db.t)
    ensures LeavesWaiting(t0, old(db.t), db.t, scan.env, f.path)
    ensures RandomLocals(old(db.t)) ==> RandomLocals(db.t)
  {
    assert id in db.t.items;
    hide Classifying; hide Settles; hide TracedAt; hide TouchesOnly; hide RandomLocals; hide ResolveStep;
    hide Waiting; hide Apart;
    ghost var t := db.t;
    if item.identity.None? {
      var r := ResolveIdentity(db, scan.env, Request(id, item, f.path, Some(f.stat), false, true, {}));
      Adopted(t0, t, db.t, seen, scan, id, f, r);
      return true;
    }
    var search, evidence := Search(item.source, Some(scan.env.locator(f.path)), false),
        FileEvidence(item.source, f, false);
    UnseenRowFrame(t0, t, seen, id, search, evidence);
    KeptRowTraced(t0, t, seen, scan, id, item, f);
    SeenMore(t0, t, seen, id);
    Unsettled(t, id);
    var found := FindCandidates(db.t.aliases, search, evidence);
    if item.identity.value in found {
      return true;
    }
    search, evidence := search.(needSample := true), FileEvidence(item.source, f, true);
    UnseenRowFrame(t0, t, seen, id, search, evidence);
    found := FindCandidates(db.t.aliases, search, evidence);
    stable := item.identity.value in found;
    if stable {
      var r := ResolveIdentity(db, scan.env, Request(id, item, f.path, Some(f.stat), true, true, {}));
      Renewed(t0, t, db.t, seen, scan, id, f, r);
    }
  }

  lemma Unsettled(t: Tables, id: RowId)
    ensures Settles(t, t) && TouchesOnly(t, t, id)
  {
  }

  lemma Adopted(t0: Tables, t: Tables, t': Tables, seen: set<RowId>, scan: Scan, id: RowId, f: ScanFile, r: Resolution)
    requires Classifying(t0, t, seen) && id !in seen && RowAt(t0.items, id, f.path) && t0.items[id].identity.None?
    requires StatUnchanged(t0.items[id], f) && ScanMetadataMatches(t0.items[id], f.folder)
    requires ResolveStep(t, t', scan.env, Request(id, t0.items[id], f.path, Some(f.stat), false, true, {}), r)
    ensures Classifying(t0, t', seen + {id}) && Settles(t, t') && TouchesOnly(t, t', id)
    ensures LeavesWaiting(t0, t, t', scan.env, f.path)
    ensures Traceable(scan.env, f) ==> TracedAt(t', scan.env, f, id)
    ensures RandomLocals(t) ==> RandomLocals(t')
  {
    AdoptionStep(t0, t, t', seen, scan, id, f, r);
    AdoptionTraces(t, t', scan, id, t0.items[id], f, r);
    ResolutionLeavesWaiting(t0, t, t', scan.env, Request(id, t0.items[id], f.path, Some(f.stat), false, true, {}), r);
    if RandomLocals(t) {
      ResolutionKeepsRandom(t, t', scan.env, Request(id, t0.items[id], f.path, Some(f.stat), false, true, {}), r);
    }
    hide Classifying; hide RandomLocals; hide EvidenceOf; hide LeavesWaiting;
  }

  lemma Renewed(t0: Tables, t: Tables, t': Tables, seen: set<RowId>, scan: Scan, id: RowId, f: ScanFile, r: Resolution)
    requires Classifying(t0, t, seen) && id !in seen && RowAt(t0.items, id, f.path) && t0.items[id].identity.Some?
    requires StatUnchanged(t0.items[id], f) && ScanMetadataMatches(t0.items[id], f.folder)
    requires KnownSample(t.aliases, scan.env, t0.items[id], f) && KnownSample(t0.aliases, scan.env, t0.items[id], f)
    requires ResolveStep(t, t', scan.env, Request(id, t0.items[id], f.path, Some(f.stat), true, true, {}), r)
    ensures Classifying(t0, t', seen + {id}) && Settles(t, t') && TouchesOnly(t, t', id)
    ensures LeavesWaiting(t0, t, t', scan.env, f.path)
    ensures TracedAt(t', scan.env, f, id)
    ensures RandomLocals(t) ==> RandomLocals(t')
  {
    RenewalStep(t0, t, t', seen, scan, id, f);
    KeptRowTraced(t0, t, seen, scan, id, t0.items[id], f);
    ResolutionLeavesWaiting(t0, t, t', scan.env, Request(id, t0.items[id], f.path, Some(f.stat), true, true, {}), r);
    if RandomLocals(t) {
      ResolutionKeepsRandom(t, t', scan.env, Request(id, t0.items[id], f.path, Some(f.stat), true, true, {}), r);
    }
    assert Settles(t, t');
    TracedStays(t, t', scan.env, f, id);
    hide RandomLocals; hide EvidenceOf; hide TracedAt; hide LeavesWaiting;
  }

  lemma AdoptionTraces(t: Tables, t': Tables, scan: Scan, id: RowId, item: Item, f: ScanFile, r: Resolution)
    requires id in t.items && t.items[id] == item && item.kind == Local && item.identity.None? && item.path == f.path
    requires StatUnchanged(item, f) && ScanMetadataMatches(item, f.folder)
    requires ResolveStep(t, t', scan.env, Request(id, item, f.path, Some(f.stat), false, true, {}), r)
    ensures Settles(t, t')
    ensures Traceable(scan.env, f) ==> TracedAt(t', scan.env, f, id)
  {
    if Traceable(scan.env, f) {
      var row := t'.items[id];
      assert NewAliases(scan.env, row, row.identity.value, f.path, Some(f.stat), false)
          == NewAliases(scan.env, item, row.identity.value, f.path, Some(f.stat), false);
      RecordedIsKnown(t'.aliases, scan.env, row, f, false);
    }
  }

  lemma KeptRowTraced(t0: Tables, t: Tables, seen: set<RowId>, scan: Scan, id: RowId, item: Item, f: ScanFile)
    requires Classifying(t0, t, seen) && RowAt(t0.items, id, f.path) && item == t0.items[id] && item.identity.Some?
    ensures Continues(t0.aliases, scan.env, item, f) ==> TracedAt(t, scan.env, f, id)
  {
    if Continues(t0.aliases, scan.env, item, f) {
      ContinuesGrows(t0.aliases, t.aliases, scan.env, item, f);
    }
  }

  // ----- the classification loop -----

  function FileSet(files: seq<ScanFile>): set<ScanFile> {
    set f | f in files
  }

  ghost predicate DistinctFiles(files: seq<ScanFile>) {
    forall i, j :: 0 <= i < j < |files| ==> files[i].path != files[j].path
  }

  ghost function StableRows(t: Tables, scan: Scan, files: set<ScanFile>): set<RowId> {
    set id | id in t.items && StableRow(t, scan, files, id)
  }

  function RowsOf(byPath: map<string, RowId>, files: seq<ScanFile>): set<RowId> {
    set f | f in files && f.path in byPath :: byPath[f.path]
  }

  lemma NextFile(rows: Items, byPath: map<string, RowId>, files: seq<ScanFile>, k: nat)
    requires PathIndex(rows, byPath) && DistinctFiles(files) && k < |files|
    ensures var f := files[k];
            RowsOf(byPath, files[..k + 1]) == RowsOf(byPath, files[..k])
                + (if f.path in byPath then {byPath[f.path]} else {}) &&
            (f.path in byPath ==> byPath[f.path] !in RowsOf(byPath, files[..k]))
  {
    assert files[..k + 1] == files[..k] + [files[k]];
    forall f | f in files[..k] ensures f.path != files[k].path {}
  }

  ghost predicate AllClassified(t0: Tables, scan: Scan, files: seq<ScanFile>, records: seq<Record>) {
    |records| == |files| && forall k :: 0 <= k < |files| ==> Classified(t0, scan, files[k], records[k])
  }

  /** After the first k files. */
  ghost predicate ClassifiedUpTo(t0: Tables, t: Tables, scan: Scan, byPath: map<string, RowId>, files: seq<ScanFile>,
                                 k: nat, records: seq<Record>, stableIds: set<RowId>)
    requires k <= |files|
  {
    && AllClassified(t0, scan, files[..k], records)
    && Classifying(t0, t, RowsOf(byPath, files[..k]))
    && stableIds == StableRows(t0, scan, FileSet(files[..k]))
  }

  lemma ClassifiedStart(t0: Tables, scan: Scan, byPath: map<string, RowId>, files: seq<ScanFile>)
    requires UniqueIdentities(t0.items)
    ensures ClassifiedUpTo(t0, t0, scan, byPath, files, 0, [], {})
  {
    assert StableRows(t0, scan, FileSet(files[..0])) == {};
  }

  lemma ClassifiedStep(t0: Tables, t: Tables, t': Tables, scan: Scan, byPath: map<string, RowId>, files: seq<ScanFile>,
                       k: nat, records: seq<Record>, stableIds: set<RowId>, record: Record)
    requires UniquePaths(t0.items) && PathIndex(LocalRows(t0.items), byPath) && DistinctFiles(files) && k < |files|
    requires ClassifiedUpTo(t0, t, scan, byPath, files, k, records, stableIds)
    requires Classified(t0, scan, files[k], record)
    requires var seen := RowsOf(byPath, files[..k]);
             Classifying(t0, t', if files[k].path in byPath then seen + {byPath[files[k].path]} else seen)
    ensures record.stable ==> record.existing.Some?
    ensures ClassifiedUpTo(t0, t', scan, byPath, files, k + 1, records + [record],
                           stableIds + if record.stable then {record.existing.value} else {})
  {
    NextFile(LocalRows(t0.items), byPath, files, k);
    OneMoreStable(t0, scan, files, k, record);
    OneMoreClassified(t0, scan, files, k, records, record);
    hide AllClassified; hide Classified; hide Classifying; hide StableRows; hide PathIndex; hide RowsOf; hide FileSet;
    hide UniquePaths; hide DistinctFiles;
  }

  lemma OneMoreClassified(t0: Tables, scan: Scan, files: seq<ScanFile>, k: nat, records: seq<Record>, record: Record)
    requires k < |files| && AllClassified(t0, scan, files[..k], records) && Classified(t0, scan, files[k], record)
    ensures AllClassified(t0, scan, files[..k + 1], records + [record])
  {
    hide Classified;
    assert files[..k + 1] == files[..k] + [files[k]];
  }

  /** All traceable stable files are traced. */
  ghost predicate StableTraced(t0: Tables, t: Tables, scan: Scan, files: set<ScanFile>) {
    forall f :: f in files && Stable(t0, scan, f) && Traceable(scan.env, f) ==> Traced(t, scan.env, f)
  }

  /** File f comes back: no row stands for it, and the only identity recorded for it is held by no row and recorded for
      no other discovered file. */
  ghost predicate Returning(t: Tables, scan: Scan, files: set<ScanFile>, f: ScanFile, i: Identity) {
    && f in files && !Stable(t, scan, f) && (forall id :: !Matched(t, scan, files, f, id))
    && AcceptedIdentities(t.aliases, Search(scan.source, Some(scan.env.locator(f.path)), false),
                          FileEvidence(scan.source, f, true)) == {i}
    && (forall id :: !OwnedBy(t.items, i, id))
    && (forall g :: g in files && g != f ==> Apart(t, scan.env, f.path, i, g.path))
  }

  /** The identities of all returning files still wait for them. */
  ghost predicate AllWaiting(t0: Tables, t: Tables, scan: Scan, files: set<ScanFile>) {
    forall f, i :: Returning(t0, scan, files, f, i) ==> Waiting(t0, t, scan.env, f.path, i) && HasAlias(t0, i)
  }

  lemma NoneTaken(t: Tables, scan: Scan, files: set<ScanFile>)
    ensures AllWaiting(t, t, scan, files)
  {
    forall f, i | Returning(t, scan, files, f, i) ensures Waiting(t, t, scan.env, f.path, i) && HasAlias(t, i) {
      assert i in AcceptedIdentities(t.aliases, Search(scan.source, Some(scan.env.locator(f.path)), false),
                                     FileEvidence(scan.source, f, true));
    }
  }

  lemma StillWaiting(t0: Tables, t: Tables, t': Tables, scan: Scan, files: set<ScanFile>, g: ScanFile)
    requires AllWaiting(t0, t, scan, files) && g in files && LeavesWaiting(t0, t, t', scan.env, g.path)
    requires t' == t || Stable(t0, scan, g)
    ensures AllWaiting(t0, t', scan, files)
  {
    hide Waiting; hide Stable; hide Apart; hide HasAlias;
    forall f, i | Returning(t0, scan, files, f, i) ensures Waiting(t0, t', scan.env, f.path, i) && HasAlias(t0, i) {
      if t' != t { assert f != g; }
    }
  }

  lemma OneMoreTraced(t0: Tables, t: Tables, t': Tables, scan: Scan, files: seq<ScanFile>, k: nat)
    requires k < |files| && StableTraced(t0, t, scan, FileSet(files[..k])) && Settles(t, t')
    requires Stable(t0, scan, files[k]) && Traceable(scan.env, files[k]) ==> Traced(t', scan.env, files[k])
    ensures StableTraced(t0, t', scan, FileSet(files[..k + 1]))
  {
    hide Stable; hide Traceable; hide TracedAt; hide Settles;
    forall f | f in FileSet(files[..k + 1]) && Stable(t0, scan, f) && Traceable(scan.env, f)
        ensures Traced(t', scan.env, f) {
      if f in FileSet(files[..k]) {
        var id :| TracedAt(t, scan.env, f, id);
        TracedStays(t, t', scan.env, f, id);
      } else {
        assert files[..k + 1] == files[..k] + [files[k]];
      }
    }
  }

  /** Classification changes stable rows only, and new aliases carry identities of stable rows. */
  ghost predicate OnlyStableTouched(t0: Tables, t: Tables, scan: Scan, files: set<ScanFile>) {
    && t.items.Keys == t0.items.Keys
    && (forall id :: id in t.items && t.items[id] != t0.items[id] ==> StableRow(t0, scan, files, id))
    && (forall id :: id in t.items && t0.items[id].identity.Some? ==> t.items[id].identity == t0.items[id].identity)
    && (forall a :: a in t.aliases && a !in t0.aliases ==>
       exists id :: StableRow(t0, scan, files, id) && OwnedBy(t.items, a.identity, id))
  }

  lemma StableRowsGrow(t0: Tables, scan: Scan, files: seq<ScanFile>, k: nat)
    requires k < |files|
    ensures forall id :: StableRow(t0, scan, FileSet(files[..k]), id) || StableAt(t0, scan, files[k], id) ==>
              StableRow(t0, scan, FileSet(files[..k + 1]), id)
  {
    hide StableAt;
    assert files[..k + 1] == files[..k] + [files[k]];
    assert FileSet(files[..k + 1]) == FileSet(files[..k]) + {files[k]};
  }

  lemma TouchedAliases(t0: Tables, t: Tables, t': Tables, scan: Scan, before: set<ScanFile>, after: set<ScanFile>,
                       row: RowId)
    requires OnlyStableTouched(t0, t, scan, before) && Settles(t, t') && TouchesOnly(t, t', row)
    requires StableRow(t0, scan, after, row)
    requires forall id :: StableRow(t0, scan, before, id) ==> StableRow(t0, scan, after, id)
    ensures forall a :: a in t'.aliases && a !in t0.aliases ==>
              exists id :: StableRow(t0, scan, after, id) && OwnedBy(t'.items, a.identity, id)
  {
    hide StableRow;
    forall a | a in t'.aliases && a !in t0.aliases
      ensures exists id :: StableRow(t0, scan, after, id) && OwnedBy(t'.items, a.identity, id)
    {
      if a in t.aliases {
        var id :| StableRow(t0, scan, before, id) && OwnedBy(t.items, a.identity, id);
        assert StableRow(t0, scan, after, id) && OwnedBy(t'.items, a.identity, id);
      }
    }
  }

  lemma OneMoreTouched(t0: Tables, t: Tables, t': Tables, scan: Scan, files: seq<ScanFile>, k: nat)
    requires k < |files| && OnlyStableTouched(t0, t, scan, FileSet(files[..k])) && Settles(t, t')
    requires t' == t || exists id :: StableAt(t0, scan, files[k], id) && TouchesOnly(t, t', id)
    ensures OnlyStableTouched(t0, t', scan, FileSet(files[..k + 1]))
  {
    var before, after := FileSet(files[..k]), FileSet(files[..k + 1]);
    StableRowsGrow(t0, scan, files, k);
    hide StableAt; hide StableRow; hide FileSet;
    if t' != t {
      var row :| StableAt(t0, scan, files[k], row) && TouchesOnly(t, t', row);
      TouchedAliases(t0, t, t', scan, before, after, row);
    }
  }

  /** Classify every file; the stable rows and all records are those of the tables before the scan. */
  method ClassifyFiles(db: Connection, scan: Scan, rows: Items, byPath: map<string, RowId>, files: seq<ScanFile>)
    returns (records: seq<Record>, stableIds: set<RowId>)
    requires UniquePaths(db.t.items) && UniqueIdentities(db.t.items) && DistinctFiles(files)
    requires rows == LocalRows(db.t.items) && PathIndex(rows, byPath)
    modifies db
    ensures AllClassified(old(db.t), scan, files, records)
    ensures stableIds == StableRows(old(db.t), scan, FileSet(files))
    ensures Classifying(old(db.t), db.t, RowsOf(byPath, files))
    ensures StableTraced(old(db.t), db.t, scan, FileSet(files))
    ensures OnlyStableTouched(old(db.t), db.t, scan, FileSet(files))
    ensures AllWaiting(old(db.t), db.t, scan, FileSet(files))
    ensures RandomLocals(old(db.t)) ==> RandomLocals(db.t)
  {
    hide LeavesWaiting; hide AllWaiting;
    ghost var t0 := db.t;
    NoneTaken(t0, scan, FileSet(files));
    records, stableIds := [], {};
    ClassifiedStart(t0, scan, byPath, files);
    for k := 0 to |files|
      invariant ClassifiedUpTo(t0, db.t, scan, byPath, files, k, records, stableIds)
      invariant StableTraced(t0, db.t, scan, FileSet(files[..k]))
      invariant OnlyStableTouched(t0, db.t, scan, FileSet(files[..k]))
      invariant AllWaiting(t0, db.t, scan, FileSet(files))
      invariant RandomLocals(t0) ==> RandomLocals(db.t)
    {
      ghost var t := db.t;
      NextFile(rows, byPath, files, k);
      var record := ClassifyFile(db, scan, rows, byPath, files[k], t0, RowsOf(byPath, files[..k]));
      ClassifiedStep(t0, t, db.t, scan, byPath, files, k, records, stableIds, record);
      OneMoreTraced(t0, t, db.t, scan, files, k);
      OneMoreTouched(t0, t, db.t, scan, files, k);
      StillWaiting(t0, t, db.t, scan, FileSet(files), files[k]);
      records := records + [record];
      stableIds := stableIds + if record.stable then {record.existing.value} else {};
    }
    assert files[..|files|] == files;
  }

  lemma OneMoreStable(t0: Tables, scan: Scan, files: seq<ScanFile>, k: nat, record: Record)
    requires UniquePaths(t0.items) && k < |files| && Classified(t0, scan, files[k], record)
    ensures record.stable ==> record.existing.Some?
    ensures StableRows(t0, scan, FileSet(files[..k + 1])) ==
            StableRows(t0, scan, FileSet(files[..k])) + (if record.stable then {record.existing.value} else {})
  {
    var f := files[k];
    assert files[..k + 1] == files[..k] + [f];
    if record.stable {
      var id: RowId :| StableAt(t0, scan, f, id);
      assert record.existing == Some(id);
    }
    forall id | id in t0.items
      ensures StableRow(t0, scan, FileSet(files[..k + 1]), id) <==>
              StableRow(t0, scan, FileSet(files[..k]), id) || StableAt(t0, scan, f, id)
    {
      if StableAt(t0, scan, f, id) { assert f in FileSet(files[..k + 1]); }
      if g :| g in FileSet(files[..k]) && StableAt(t0, scan, g, id) { assert g in FileSet(files[..k + 1]); }
    }
  }

  // ----- matching -----

  function CandidateRows(rows: Items, stableIds: set<RowId>, record: Record): set<RowId> {
    if record.stable then {}
    else if record.legacy.Some? then {record.legacy.value}
    else
      set id | id in rows && id !in stableIds && rows[id].identity.Some? &&
               rows[id].identity.value in record.identities
  }

  lemma CandidateRowsCorrect(t0: Tables, scan: Scan, files: seq<ScanFile>, record: Record, k: nat, id: RowId)
    requires UniquePaths(t0.items) && DistinctFiles(files) && k < |files| && Classified(t0, scan, files[k], record)
    ensures id in CandidateRows(LocalRows(t0.items), StableRows(t0, scan, FileSet(files)), record) <==>
            Candidate(t0, scan, FileSet(files), files[k], id)
  {
    var f := files[k];
    if record.legacy.Some? {
      var r := record.legacy.value;
      assert LegacyAt(t0, f, r);
      forall a, b | a in FileSet(files) && b in FileSet(files) && a.path == b.path ensures a == b {}
      LegacyRowStays(t0, scan, FileSet(files), f, r);
    } else {
      assert forall r: RowId :: !LegacyAt(t0, f, r);
    }
  }

  /** The paths of all records that name a row as candidate. */
  function CandidatePaths(rows: Items, stableIds: set<RowId>, records: seq<Record>, id: RowId): set<string> {
    set r | r in records && id in CandidateRows(rows, stableIds, r) :: r.file.path
  }

  function Get(paths: map<RowId, set<string>>, id: RowId): set<string> {
    if id in paths then paths[id] else {}
  }

  function AddPath(paths: map<RowId, set<string>>, rows: set<RowId>, path: string): (more: map<RowId, set<string>>)
    ensures forall id :: Get(more, id) == Get(paths, id) + if id in rows then {path} else {}
  {
    map id | id in paths.Keys + rows :: Get(paths, id) + if id in rows then {path} else {}
  }

  lemma NextCandidatePaths(rows: Items, stableIds: set<RowId>, records: seq<Record>, n: nat, id: RowId)
    requires n < |records|
    ensures CandidatePaths(rows, stableIds, records[..n + 1], id) ==
            CandidatePaths(rows, stableIds, records[..n], id) +
            (if id in CandidateRows(rows, stableIds, records[n]) then {records[n].file.path} else {})
  {
    assert records[..n + 1] == records[..n] + [records[n]];
  }

  method CollectCandidates(rows: Items, stableIds: set<RowId>, records: seq<Record>)
    returns (collected: seq<Record>, paths: map<RowId, set<string>>)
    ensures |collected| == |records|
    ensures forall k :: 0 <= k < |records| ==>
              collected[k] == records[k].(rows := CandidateRows(rows, stableIds, records[k]))
    ensures forall id :: Get(paths, id) == CandidatePaths(rows, stableIds, records, id)
  {
    collected, paths := [], map[];
    assert forall id :: CandidatePaths(rows, stableIds, records[..0], id) == {};
    hide CandidatePaths, CandidateRows;
    for n := 0 to |records|
      invariant |collected| == n
      invariant forall k :: 0 <= k < n ==>
                  collected[k] == records[k].(rows := CandidateRows(rows, stableIds, records[k]))
      invariant forall id :: Get(paths, id) == CandidatePaths(rows, stableIds, records[..n], id)
    {
      var found := CandidateRows(rows, stableIds, records[n]);
      collected := collected + [records[n].(rows := found)];
      forall id ensures CandidatePaths(rows, stableIds, records[..n + 1], id) ==
                        CandidatePaths(rows, stableIds, records[..n], id)
                            + (if id in found then {records[n].file.path} else {}) {
        NextCandidatePaths(rows, stableIds, records, n, id);
      }
      paths := AddPath(paths, found, records[n].file.path);
    }
    assert records[..|records|] == records;
  }

  // ----- mutual candidates -----

  /** The final records: candidates filled in, and the row of every mutual match. */
  ghost predicate AllMatched(t0: Tables, scan: Scan, files: seq<ScanFile>, records: seq<Record>) {
    && |records| == |files|
    && forall k :: 0 <= k < |files| ==>
         && Classified(t0, scan, files[k], records[k].(rows := {}, target := None))
         && IsMatch(t0, scan, files, k, records[k].target)
  }

  ghost predicate IsMatch(t0: Tables, scan: Scan, files: seq<ScanFile>, k: nat, target: Option<RowId>)
    requires k < |files|
  {
    forall id: RowId :: target == Some(id) <==> Matched(t0, scan, FileSet(files), files[k], id)
  }

  ghost function MatchedRows(t: Tables, scan: Scan, files: set<ScanFile>): set<RowId> {
    set id | id in t.items && MatchedRow(t, scan, files, id)
  }

  ghost function RemovedRows(t: Tables, scan: Scan, files: set<ScanFile>): set<RowId> {
    set id | id in t.items && Displaced(t, scan, files, id) && !MatchedRow(t, scan, files, id)
  }

  lemma MutualMatch(t0: Tables, scan: Scan, files: seq<ScanFile>, records: seq<Record>, k: nat, id: RowId)
    requires UniquePaths(t0.items) && DistinctFiles(files) && k < |files| && AllClassified(t0, scan, files, records)
    ensures var rows, stable := LocalRows(t0.items), StableRows(t0, scan, FileSet(files));
            Matched(t0, scan, FileSet(files), files[k], id) <==>
            CandidateRows(rows, stable, records[k]) == {id} &&
                CandidatePaths(rows, stable, records, id) == {files[k].path}
  {
    var rows, stable, fs := LocalRows(t0.items), StableRows(t0, scan, FileSet(files)), FileSet(files);
    var here, paths := CandidateRows(rows, stable, records[k]), CandidatePaths(rows, stable, records, id);
    forall r: RowId ensures r in here <==> Candidate(t0, scan, fs, files[k], r) {
      CandidateRowsCorrect(t0, scan, files, records[k], k, r);
    }
    forall g | g in fs && Candidate(t0, scan, fs, g, id) ensures g.path in paths {
      CandidatePathsCorrect(t0, scan, files, records, id, g.path);
    }
    hide Candidate, CandidateRows, CandidatePaths, AllClassified, DistinctFiles, UniquePaths;
    if Matched(t0, scan, fs, files[k], id) {
      assert here == {id};
      forall p ensures p in paths <==> p == files[k].path {
        CandidatePathsCorrect(t0, scan, files, records, id, p);
      }
      assert paths == {files[k].path};
    }
  }

  lemma CandidatePathsCorrect(t0: Tables, scan: Scan, files: seq<ScanFile>, records: seq<Record>, id: RowId, p: string)
    requires UniquePaths(t0.items) && DistinctFiles(files) && AllClassified(t0, scan, files, records)
    ensures p in CandidatePaths(LocalRows(t0.items), StableRows(t0, scan, FileSet(files)), records, id) <==>
            exists g :: g in FileSet(files) && Candidate(t0, scan, FileSet(files), g, id) && g.path == p
  {
    var rows, stable, fs := LocalRows(t0.items), StableRows(t0, scan, FileSet(files)), FileSet(files);
    forall j | 0 <= j < |files| ensures id in CandidateRows(rows, stable, records[j]) <==>
        Candidate(t0, scan, fs, files[j], id) {
      CandidateRowsCorrect(t0, scan, files, records[j], j, id);
    }
    hide Candidate, CandidateRows;
    if p in CandidatePaths(rows, stable, records, id) {
      var r :| r in records && id in CandidateRows(rows, stable, r) && r.file.path == p;
      var j :| 0 <= j < |records| && records[j] == r;
      assert files[j] in fs && Candidate(t0, scan, fs, files[j], id);
    }
    if g :| g in fs && Candidate(t0, scan, fs, g, id) && g.path == p {
      var j :| 0 <= j < |files| && files[j] == g;
      assert records[j] in records;
    }
  }

  method MatchRecord(record: Record, paths: map<RowId, set<string>>, ghost t0: Tables, ghost scan: Scan,
                     ghost files: seq<ScanFile>, ghost classified: seq<Record>, ghost n: nat)
    returns (target: Option<RowId>)
    requires UniquePaths(t0.items) && DistinctFiles(files) && n < |files| && AllClassified(t0, scan, files, classified)
    requires record == classified[n].(rows := CandidateRows(LocalRows(t0.items), StableRows(t0, scan, FileSet(files)),
             classified[n]))
    requires forall id :: Get(paths, id) == CandidatePaths(LocalRows(t0.items), StableRows(t0, scan, FileSet(files)),
             classified, id)
    ensures IsMatch(t0, scan, files, n, target)
  {
    target := None;
    if !record.stable && |record.rows| == 1 {
      var id :| id in record.rows;
      OnlyElement(record.rows, id);
      assert classified[n] in classified && files[n].path in Get(paths, id);
      if |Get(paths, id)| == 1 {
        OnlyElement(Get(paths, id), files[n].path);
        target := Some(id);
      }
    }
    forall id: RowId ensures target == Some(id) <==> Matched(t0, scan, FileSet(files), files[n], id) {
      MutualMatch(t0, scan, files, classified, n, id);
    }
  }

  lemma MatchedSets(t0: Tables, scan: Scan, files: seq<ScanFile>, records: seq<Record>)
    requires AllMatched(t0, scan, files, records)
    ensures MatchedRows(t0, scan, FileSet(files)) == Targets(records)
    ensures RemovedRows(t0, scan, FileSet(files)) ==
            set id | id in LocalRows(t0.items) && id !in StableRows(t0, scan, FileSet(files)) && id !in Targets(records)
  {
    var fs := FileSet(files);
    forall id: RowId ensures MatchedRow(t0, scan, fs, id) <==> id in Targets(records) {
      if f :| Matched(t0, scan, fs, f, id) {
        var k :| 0 <= k < |files| && files[k] == f;
        assert IsMatch(t0, scan, files, k, records[k].target);
        assert records[k] in records;
      }
      if id in Targets(records) {
        var r :| r in records && r.target == Some(id);
        var k :| 0 <= k < |records| && records[k] == r;
        assert IsMatch(t0, scan, files, k, records[k].target);
      }
    }
  }

  function Targets(records: seq<Record>): set<RowId> {
    set r | r in records && r.target.Some? :: r.target.value
  }

  /** Mark the mutual matches: one candidate row, one candidate path. */
  method MatchRecords(rows: Items, stableIds: set<RowId>, classified: seq<Record>, ghost t0: Tables, ghost scan: Scan,
                      ghost files: seq<ScanFile>)
    returns (records: seq<Record>, matched: set<RowId>, removable: set<RowId>)
    requires UniquePaths(t0.items) && DistinctFiles(files)
    requires rows == LocalRows(t0.items) && stableIds == StableRows(t0, scan, FileSet(files))
    requires AllClassified(t0, scan, files, classified)
    ensures AllMatched(t0, scan, files, records)
    ensures matched == MatchedRows(t0, scan, FileSet(files))
    ensures removable == RemovedRows(t0, scan, FileSet(files))
  {
    assert |classified| == |files|;
    hide AllMatched; hide AllClassified; hide UniquePaths; hide DistinctFiles; hide Classified;
    var collected, paths := CollectCandidates(rows, stableIds, classified);
    records, matched := [], {};
    for n := 0 to |collected|
      invariant |records| == n
      invariant forall k :: 0 <= k < n ==> Marked(t0, scan, files, classified, k, records[k])
      invariant matched == Targets(records)
    {
      var target := MatchRecord(collected[n], paths, t0, scan, files, classified, n);
      records := records + [collected[n].(target := target)];
      matched := matched + if target.Some? then {target.value} else {};
    }
    MatchingDone(t0, scan, files, classified, records);
    removable := set id | id in rows && id !in stableIds && id !in matched;
  }

  ghost predicate Marked(t0: Tables, scan: Scan, files: seq<ScanFile>, classified: seq<Record>, k: nat, record: Record)
    requires k < |files| && k < |classified|
  {
    record == classified[k].(rows := record.rows, target := record.target) && IsMatch(t0, scan, files, k, record.target)
  }

  lemma MatchingDone(t0: Tables, scan: Scan, files: seq<ScanFile>, classified: seq<Record>, records: seq<Record>)
    requires AllClassified(t0, scan, files, classified) && |records| == |files|
    requires forall k :: 0 <= k < |records| ==> Marked(t0, scan, files, classified, k, records[k])
    ensures AllMatched(t0, scan, files, records)
    ensures MatchedRows(t0, scan, FileSet(files)) == Targets(records)
    ensures RemovedRows(t0, scan, FileSet(files)) ==
            set id | id in LocalRows(t0.items) && id !in StableRows(t0, scan, FileSet(files)) && id !in Targets(records)
  {
    forall k | 0 <= k < |files| ensures records[k].(rows := {}, target := None) == classified[k] {
      assert Marked(t0, scan, files, classified, k, records[k]);
      assert Classified(t0, scan, files[k], classified[k]);
    }
    MatchedSets(t0, scan, files, records);
  }
}
