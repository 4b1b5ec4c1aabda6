/** What becomes of the hides of a deleted row: when the keys saved for it can ever match a row again. */
module SavedHides {
  import opened Options
  import opened LibraryTables
  import opened CopyEvidence
  import opened CopyIdentity
  import opened WaitingIdentities
  import opened ScanMatching
  import opened MediaScan
  import opened LibraryScan
  import IdentityRepair

  /** A row holds the identity, or a row without one could still recover it from an alias. */
  ghost predicate Matchable(t: Tables, i: Identity) {
    (exists id :: OwnedBy(t.items, i, id)) || HasAlias(t, i)
  }

  /** Right after the deletion a saved key can match again if and only if the row had an identity that an alias
      records, or had none and its inode led to exactly one free alias identity. */
  lemma SavedKeyMatchable(t: Tables, t': Tables, env: Environment, id: RowId, i: Identity)
    requires UniqueIdentities(t.items) && id in t.items && SavedIdentity(t, env, id, i) && Dropped(t, t', id, i)
    ensures Matchable(t', i) <==>
              if t.items[id].identity.Some? then HasAlias(t, i)
              else |FreeCandidates(t, env, IdentityRepair.SaveRequest(env, id, t.items[id]))| == 1
  {
    var free := FreeCandidates(t, env, IdentityRepair.SaveRequest(env, id, t.items[id]));
    if t.items[id].identity.Some? {
      assert forall other :: other in t'.items ==> !OwnedBy(t'.items, i, other);
    } else if |free| == 1 {
      assert i in free;
      CandidatesHaveAliases(t, env, IdentityRepair.SaveRequest(env, id, t.items[id]), i);
    } else {
      assert !Mentions(t, i);
      assert forall other :: OwnedBy(t'.items, i, other) ==> OwnedBy(t.items, i, other);
    }
  }

  /** The case that loses a hide: the file is gone and the row never had an identity. The key is saved for an
      identity that nothing else mentions. */
  lemma GoneFileLosesHide(t: Tables, t': Tables, env: Environment, id: RowId, i: Identity)
    requires id in t.items && t.items[id].identity.None? && t.items[id].path !in env.disk
    requires SavedIdentity(t, env, id, i) && Dropped(t, t', id, i)
    ensures !Matchable(t', i) && i.Random?
    ensures forall scope :: (scope, id) in t.hides ==> (scope, CopyKey(i)) in t'.keys
  {
    var q := IdentityRepair.SaveRequest(env, id, t.items[id]);
    assert EvidenceOf(q.item.kind, q.item.source, q.path, q.stat, q.withSample) == [];
    assert FreeCandidates(t, env, q) == {};
    assert forall other :: OwnedBy(t'.items, i, other) ==> OwnedBy(t.items, i, other);
    forall scope | (scope, id) in t.hides ensures (scope, CopyKey(i)) in t'.keys {
      assert (scope, CopyKey(i)) in IdentityRepair.SavedKeys(t, id, i);
    }
  }

  // ----- lost for good -----

  /** A key is there for a random identity that no row holds and no alias records. */
  ghost predicate Lost(t: Tables, i: Identity) {
    i.Random? && !Matchable(t, i) && exists scope :: (scope, CopyKey(i)) in t.keys
  }

  /** A library of one hidden row without identity, its file gone: deleting the row leaves a lost key. */
  lemma OneRowLosesHide(env: Environment, item: Item, scope: Scope)
    requires item.kind == Local && item.identity.None? && item.path !in env.disk
    ensures var t, i := Tables(map[1 := item], 2, {}, {(scope, 1)}, {}), Random(0);
            var t' := Tables(map[], 2, {}, {}, {(scope, CopyKey(i))});
            Valid(t) && SavedIdentity(t, env, 1, i) && Dropped(t, t', 1, i) && Lost(t', i)
  {
    var t, i := Tables(map[1 := item], 2, {}, {(scope, 1)}, {}), Random(0);
    var t' := Tables(map[], 2, {}, {}, {(scope, CopyKey(i))});
    assert FreeCandidates(t, env, IdentityRepair.SaveRequest(env, 1, item)) == {};
    assert IdentityRepair.SavedKeys(t, 1, i) == {(scope, CopyKey(i))} by { assert (scope, 1) in t.hides; }
    assert t'.hides == set h | h in t.hides && h.1 != 1;
    assert (scope, CopyKey(i)) in t'.keys;
  }

  /** A resolution never gives a lost identity to a row, nor records an alias for it. */
  lemma ResolutionLeavesLost(t: Tables, t': Tables, env: Environment, q: Request, r: Resolution, i: Identity)
    requires q.id in t.items && ResolveStep(t, t', env, q, r) && Lost(t, i)
    requires q.item.identity.Some? ==> q.item.identity == t.items[q.id].identity
    ensures Lost(t', i)
  {
    var scope :| (scope, CopyKey(i)) in t.keys;
    assert Mentions(t, i) && (scope, CopyKey(i)) in t'.keys;
    if q.item.identity.Some? {
      assert OwnedBy(t.items, q.item.identity.value, q.id);
    } else if r.Resolved? && r.identity.Some? && FreeCandidates(t, env, q) == {r.identity.value} {
      assert r.identity.value in FreeCandidates(t, env, q);
      CandidatesHaveAliases(t, env, q, r.identity.value);
    }
    assert r.Resolved? ==> r.identity != Some(i);
    forall id | OwnedBy(t'.items, i, id) ensures OwnedBy(t.items, i, id) {}
    forall a | a in t'.aliases && a.identity == i ensures a in t.aliases {}
  }

  /** Rows come without an identity, keep the one they have or go; apart from rows and aliases of `novel`, if any. */
  ghost predicate NoNewIdentity(t: Tables, t': Tables, novel: Option<Identity>) {
    && (forall a :: a in t'.aliases && a !in t.aliases ==> Some(a.identity) == novel)
    && (forall id, i :: OwnedBy(t'.items, i, id) && Some(i) != novel ==> exists other :: OwnedBy(t.items, i, other))
  }

  /** A resolution, the split of a shared identity, or any other statement. */
  datatype Change = Resolve(q: Request, r: Resolution) | Split(novel: Identity) | Other

  ghost predicate Changes(t: Tables, change: Change, t': Tables, env: Environment) {
    match change
    case Resolve(q, r) =>
      q.id in t.items && (q.item.identity.Some? ==> q.item.identity == t.items[q.id].identity) &&
          ResolveStep(t, t', env, q, r)
    case Split(novel) => !Mentions(t, novel) && NoNewIdentity(t, t', Some(novel))
    case Other => NoNewIdentity(t, t', None)
  }

  /** As long as the lost key is there, no run of statements, with whatever disk, lets it match a row. */
  lemma {:induction false} LostForGood(run: seq<Tables>, changes: seq<Change>, envs: seq<Environment>, i: Identity,
                                       n: nat)
    requires |run| == |changes| + 1 && |envs| == |changes| && n < |run| && Lost(run[0], i)
    requires forall k :: 0 <= k < |changes| ==> Changes(run[k], changes[k], run[k + 1], envs[k])
    requires forall k :: 0 <= k < |run| ==> exists scope :: (scope, CopyKey(i)) in run[k].keys
    ensures Lost(run[n], i) && forall id :: !OwnedBy(run[n].items, i, id)
  {
    if n > 0 {
      LostForGood(run, changes, envs, i, n - 1);
      assert Changes(run[n - 1], changes[n - 1], run[n - 1 + 1], envs[n - 1]);
      if changes[n - 1].Resolve? {
        ResolutionLeavesLost(run[n - 1], run[n], envs[n - 1], changes[n - 1].q, changes[n - 1].r, i);
      }
    }
  }

  // ----- the round trip -----

  /** A recorded file is accepted by a search at its path. */
  lemma RecordedIsAccepted(aliases: set<Alias>, env: Environment, item: Item, f: ScanFile, i: Identity)
    requires Traceable(env, f) && item.kind == Local
    requires NewAliases(env, item, i, f.path, Some(f.stat), true) <= aliases
    ensures Accepted(aliases, Search(item.source, Some(env.locator(f.path)), false),
            FileEvidence(item.source, f, true), i)
  {
    var search, evidence := Search(item.source, Some(env.locator(f.path)), false), FileEvidence(item.source, f, true);
    forall e | e in evidence ensures e in MatchedEvidence(aliases, search, evidence, i) {
      var a := Alias(i, item.source, env.locator(f.path), e);
      assert a in NewAliases(env, item, i, f.path, Some(f.stat), true);
      assert Supports(a, search, a.evidence);
    }
    assert evidence[0] in evidence;
  }

  /** A recorded identity that no row holds is free for the file's row. */
  lemma RecordedIsFree(t: Tables, env: Environment, q: Request, f: ScanFile, i: Identity)
    requires Traceable(env, f) && q.item.kind == Local && q.path == f.path && q.stat == Some(f.stat) && q.withSample
    requires NewAliases(env, q.item, i, f.path, Some(f.stat), true) <= t.aliases
    requires (forall other :: !OwnedBy(t.items, i, other)) && i !in q.blocked
    ensures i in FreeCandidates(t, env, q)
  {
    RecordedIsAccepted(t.aliases, env, q.item, f, i);
    AcceptedIsFound(t.aliases, Search(q.item.source, Some(env.locator(q.path)), false),
                    EvidenceOf(q.item.kind, q.item.source, q.path, q.stat, q.withSample), i);
  }

  /** The resolution of a new row at the path of a removed one whose identity is still recorded for the file. The row
      gets that identity back, and the hides with it, if and only if no other free identity is recorded for the file;
      otherwise only a direct hide or a legacy key of its title hides it. */
  lemma HiddenAgain(t0: Tables, t1: Tables, tb: Tables, t2: Tables, env: Environment, later: Environment, id: RowId,
                    f: ScanFile, q: Request, r: Resolution)
    requires id in t0.items && t0.items[id].identity.Some? && KeptAsKey(t0, t1, env, id)
    requires forall scope, i :: (scope, CopyKey(i)) in t1.keys ==> (scope, CopyKey(i)) in tb.keys
    requires q.id in tb.items && q.item == tb.items[q.id] && q.item.kind == Local && q.item.identity.None?
    requires q.path == f.path && q.stat == Some(f.stat) && q.withSample && Traceable(later, f)
    requires var i := t0.items[id].identity.value;
             && NewAliases(later, q.item, i, f.path, Some(f.stat), true) <= tb.aliases
             && (forall other :: !OwnedBy(tb.items, i, other)) && i !in q.blocked
    requires ResolveStep(tb, t2, later, q, r)
    ensures t2.items[q.id].identity == t0.items[id].identity <==> |FreeCandidates(tb, later, q)| == 1
    ensures |FreeCandidates(tb, later, q)| == 1 ==>
              forall scope :: (scope, id) in t0.hides ==> Hidden(t2, later, scope, q.id)
    ensures |FreeCandidates(tb, later, q)| != 1 ==>
              forall scope :: Hidden(t2, later, scope, q.id) <==> HiddenWithoutIdentity(tb, later, scope, q.id)
  {
    var i, free := t0.items[id].identity.value, FreeCandidates(tb, later, q);
    RecordedIsFree(tb, later, q, f, i);
    CandidatesHaveAliases(tb, later, q, i);
    if |free| == 1 {
      OnlyElement(free, i);
      forall scope | (scope, id) in t0.hides ensures Hidden(t2, later, scope, q.id) {
        assert (scope, CopyKey(i)) in t1.keys && (scope, CopyKey(i)) in t2.keys;
        assert CopyKey(i) in CandidateKeys(later, t2.items[q.id]);
      }
    } else {
      assert Mentions(tb, i);
      NewIdentityHides(tb, t2, later, q, r);
    }
  }

  /** A file recorded for one identity comes back when no row stands for it and no row holds the identity. */
  lemma RecordedReturns(t: Tables, scan: Scan, files: set<ScanFile>, item: Item, f: ScanFile, i: Identity)
    requires Traceable(scan.env, f) && item.kind == Local && item.source == scan.source
    requires NewAliases(scan.env, item, i, f.path, Some(f.stat), true) <= t.aliases
    requires forall a :: a in t.aliases && a.locator == scan.env.locator(f.path) ==> a.identity == i
    requires forall id :: !OwnedBy(t.items, i, id) && !RowAt(t.items, id, f.path)
    requires f in files && forall id :: !Matched(t, scan, files, f, id)
    requires forall g :: g in files && g != f ==> Apart(t, scan.env, f.path, i, g.path)
    ensures Returning(t, scan, files, f, i)
  {
    var search, evidence := Search(scan.source, Some(scan.env.locator(f.path)), false),
        FileEvidence(scan.source, f, true);
    RecordedIsAccepted(t.aliases, scan.env, item, f, i);
    forall j ensures j in AcceptedIdentities(t.aliases, search, evidence) <==> j == i {
      AcceptedIsFound(t.aliases, search, evidence, j);
      if e :| e in MatchedEvidence(t.aliases, search, evidence, j) {
        var a :| a in t.aliases && a.identity == j && Supports(a, search, a.evidence);
      }
    }
  }

  /** A run of completed scans, each on the tables the one before it left, on whatever disks and file lists. */
  ghost predicate ScanRun(run: seq<Tables>, scans: seq<Scan>, lists: seq<seq<ScanFile>>) {
    && |run| == |scans| + 1 && |lists| == |scans|
    && forall k :: 0 <= k < |scans| ==> Scanned(run[k], run[k + 1], scans[k], lists[k])
  }

  lemma {:induction false} KeysKeptThrough(run: seq<Tables>, scans: seq<Scan>, lists: seq<seq<ScanFile>>, a: nat,
                                           b: nat)
    requires ScanRun(run, scans, lists) && a <= b < |run|
    ensures KeysKept(run[a], run[b])
  {
    if a < b {
      KeysKeptThrough(run, scans, lists, a, b - 1);
      assert Scanned(run[b - 1], run[b - 1 + 1], scans[b - 1], lists[b - 1]);
    }
  }

  lemma KeysOfRemoved(t0: Tables, t: Tables, env: Environment, id: RowId, i: Identity)
    requires OwnedBy(t0.items, i, id) && KeptAsKey(t0, t, env, id)
    ensures forall scope :: (scope, id) in t0.hides ==> (scope, CopyKey(i)) in t.keys
  {
  }

  /** The round trip: a row removed by one scan of a run has its identity and its hides back when its file returns in a
      later one. */
  lemma HiddenAfterReturn(run: seq<Tables>, scans: seq<Scan>, lists: seq<seq<ScanFile>>, a: nat, b: nat, id: RowId,
                          f: ScanFile, i: Identity) returns (row: RowId)
    requires ScanRun(run, scans, lists) && a < b < |scans|
    requires OwnedBy(run[a].items, i, id) && id !in run[a + 1].items
    requires Returning(run[b], scans[b], FileSet(lists[b]), f, i)
    ensures RowAt(run[b + 1].items, row, f.path) && OwnedBy(run[b + 1].items, i, row)
    ensures forall scope :: (scope, id) in run[a].hides ==> Hidden(run[b + 1], scans[b].env, scope, row)
  {
    hide Reconciled; hide AllTraced; hide Returning; hide KeptAsKey;
    assert Scanned(run[a], run[a + 1], scans[a], lists[a]) && Scanned(run[b], run[b + 1], scans[b], lists[b]);
    KeysOfRemoved(run[a], run[a + 1], scans[a].env, id, i);
    KeysKeptThrough(run, scans, lists, a + 1, b + 1);
    row :| RowAt(run[b + 1].items, row, f.path) && OwnedBy(run[b + 1].items, i, row);
    assert CopyKey(i) in CandidateKeys(scans[b].env, run[b + 1].items[row]);
  }

  /** What hides a row apart from its identity: a direct hide, or a legacy key of its title. */
  ghost predicate HiddenWithoutIdentity(t: Tables, env: Environment, scope: Scope, id: RowId)
    requires id in t.items
  {
    (scope, id) in t.hides || exists text :: text in env.legacyKeys(t.items[id].titling) &&
                                             (scope, LegacyKey(text)) in t.keys
  }

  /** A row that gets a new identity is hidden as it would be without any. */
  lemma NewIdentityHides(t: Tables, t': Tables, env: Environment, q: Request, r: Resolution)
    requires q.id in t.items && q.item == t.items[q.id] && q.item.kind == Local && q.item.identity.None?
    requires ResolveStep(t, t', env, q, r) && |FreeCandidates(t, env, q)| != 1
    ensures forall scope :: Hidden(t', env, scope, q.id) <==> HiddenWithoutIdentity(t, env, scope, q.id)
  {
    var i, row := r.identity.value, t'.items[q.id];
    assert FreeCandidates(t, env, q) != {i} && !Mentions(t, i);
    forall scope ensures Hidden(t', env, scope, q.id) <==> HiddenWithoutIdentity(t, env, scope, q.id) {
      assert (scope, CopyKey(i)) !in t.keys;
      forall text | text in env.legacyKeys(row.titling) ensures LegacyKey(text) in CandidateKeys(env, row) {}
    }
  }

  /** The failing input: two identities are recorded for the file, and only one of them is hidden. Its row is gone,
      and the row that comes for the file is not hidden. */
  lemma TwoIdentitiesLoseHide(env: Environment, item: Item, f: ScanFile, i: Identity, j: Identity, scope: Scope,
                              t': Tables, r: Resolution)
    requires Traceable(env, f) && item.kind == Local && item.identity.None? && i != j
    requires var t := Recorded(env, item, f, i, j, scope);
             ResolveStep(t, t', env, Request(1, item, f.path, Some(f.stat), true, true, {}), r)
    ensures (scope, CopyKey(i)) in t'.keys && t'.items[1].identity !in {Some(i), Some(j)}
    ensures !Hidden(t', env, scope, 1)
  {
    var t, q := Recorded(env, item, f, i, j, scope), Request(1, item, f.path, Some(f.stat), true, true, {});
    NeitherComesBack(env, item, f, i, j, scope);
    hide FreeCandidates; hide NewAliases; hide Traceable; hide Mentions;
    assert !HiddenWithoutIdentity(t, env, scope, 1);
    hide HiddenWithoutIdentity; hide Hidden;
    NewIdentityHides(t, t', env, q, r);
  }

  lemma NeitherComesBack(env: Environment, item: Item, f: ScanFile, i: Identity, j: Identity, scope: Scope)
    requires Traceable(env, f) && item.kind == Local && item.identity.None? && i != j
    ensures var t := Recorded(env, item, f, i, j, scope);
            |FreeCandidates(t, env, Request(1, item, f.path, Some(f.stat), true, true, {}))| != 1 &&
            Mentions(t, i) && Mentions(t, j)
  {
    var t, q := Recorded(env, item, f, i, j, scope), Request(1, item, f.path, Some(f.stat), true, true, {});
    RecordedIsFree(t, env, q, f, i);
    RecordedIsFree(t, env, q, f, j);
    CandidatesHaveAliases(t, env, q, i);
    CandidatesHaveAliases(t, env, q, j);
    hide FreeCandidates; hide NewAliases; hide Traceable;
    if |FreeCandidates(t, env, q)| == 1 { OnlyElement(FreeCandidates(t, env, q), i); }
  }

  /** A library of one new row, with two identities recorded for its file and one of them hidden. */
  function Recorded(env: Environment, item: Item, f: ScanFile, i: Identity, j: Identity, scope: Scope): Tables {
    Tables(map[1 := item], 2, NewAliases(env, item, i, f.path, Some(f.stat), true)
           + NewAliases(env, item, j, f.path, Some(f.stat), true), {}, {(scope, CopyKey(i))})
  }
}
