/** Rewriting hidden-title keys: legacy keys become copy keys, colliding identities are split, and the
    hides of a row that is about to be deleted are turned into keys. */
module HiddenKeys {
  import opened Options
  import opened LibraryTables
  import opened CopyIdentity

  // ----- identities for every row -----

  /** Same rows, hides and keys; identities are only filled in, aliases only added. */
  ghost predicate OnlyIdentified(t: Tables, t': Tables) {
    && t'.items.Keys == t.items.Keys
    && (forall id :: id in t.items ==> t'.items[id] == t.items[id].(identity := t'.items[id].identity))
    && (forall id :: id in t.items && t.items[id].identity.Some? ==> t'.items[id] == t.items[id])
    && t'.hides == t.hides && t'.keys == t.keys && t'.nextId == t.nextId && t.aliases <= t'.aliases
  }

  ghost predicate Loaded(env: Environment, items: Items, id: RowId)
    requires id in items
  {
    items[id].identity.Some? || (items[id].kind == Cloud && DerivedIdentity(env, items[id]) == None)
  }

  ghost predicate AllLoaded(env: Environment, items: Items) {
    forall id :: id in items ==> Loaded(env, items, id)
  }

  /** Only cloud rows can fail to resolve, so this rules failures out. */
  ghost predicate OnlyLocalMissing(items: Items) {
    forall id :: id in items && items[id].identity.None? ==> items[id].kind == Local
  }

  /** Rows in `todo` are as they were read; all others are resolved. */
  ghost predicate LoadedExcept(t0: Tables, t: Tables, env: Environment, todo: set<RowId>) {
    && OnlyIdentified(t0, t) && UniqueIdentities(t.items) && CloudDerived(t0.items, t.items, env)
    && (forall id :: id in todo ==> id in t.items && t.items[id] == t0.items[id])
    && (forall id :: id in t.items && id !in todo ==> Loaded(env, t.items, id))
  }

  /** A cloud row gets no identity but the derived one. */
  ghost predicate CloudDerived(items0: Items, items: Items, env: Environment) {
    forall id ::
      id in items0 && id in items && items0[id].kind == Cloud && items0[id].identity.None? &&
      items[id].identity.Some? ==>
        items[id].identity == DerivedIdentity(env, items0[id])
  }

  /** A cloud row without identity derives one that another row holds, or that another such row derives too. */
  ghost predicate CloudClash(items: Items, env: Environment) {
    exists a, b :: a in items && b in items && a != b && Unresolved(items[a], env) &&
                   (items[b].identity == DerivedIdentity(env, items[a]) ||
                    (Unresolved(items[b], env) && DerivedIdentity(env, items[b]) == DerivedIdentity(env, items[a])))
  }

  predicate Unresolved(item: Item, env: Environment) {
    item.kind == Cloud && item.identity.None? && DerivedIdentity(env, item).Some?
  }

  /** A load that stops does so at a clash. */
  lemma StoppedAtClash(t0: Tables, t: Tables, t': Tables, env: Environment, todo: set<RowId>, id: RowId, r: Resolution)
    requires LoadedExcept(t0, t, env, todo) && id in todo && RandomLocals(t)
    requires ResolveStep(t, t', env, RowRequest(env, id, t0.items[id]), r) && r.IntegrityError?
    ensures CloudClash(t0.items, env)
  {
    var i := DerivedIdentity(env, t0.items[id]).value;
    var other :| other in t.items && other != id && OwnedBy(t.items, i, other);
    assert t0.items[other].identity.None? ==> t0.items[other].kind == Cloud;
    assert t0.items[other].identity == Some(i) || Unresolved(t0.items[other], env);
  }

  /** A load that ends has met no clash. */
  lemma LoadedWithoutClash(t0: Tables, t: Tables, env: Environment)
    requires LoadedExcept(t0, t, env, {})
    ensures !CloudClash(t0.items, env)
  {
    forall a, b | a in t0.items && b in t0.items && a != b && Unresolved(t0.items[a], env)
      ensures t0.items[b].identity != DerivedIdentity(env, t0.items[a])
      ensures !(Unresolved(t0.items[b], env) && DerivedIdentity(env, t0.items[b]) == DerivedIdentity(env, t0.items[a]))
    {
      assert Loaded(env, t.items, a) && Loaded(env, t.items, b);
      assert DerivedIdentity(env, t.items[a]) == DerivedIdentity(env, t0.items[a]);
      assert DerivedIdentity(env, t.items[b]) == DerivedIdentity(env, t0.items[b]);
      assert t.items[a].identity == DerivedIdentity(env, t0.items[a]);
    }
  }

  lemma LoadStep(t0: Tables, t: Tables, t': Tables, env: Environment, todo: set<RowId>, id: RowId, r: Resolution)
    requires LoadedExcept(t0, t, env, todo) && id in todo
    requires ResolveStep(t, t', env, RowRequest(env, id, t0.items[id]), r)
    ensures r.Resolved? ==> LoadedExcept(t0, t', env, todo - {id})
    ensures r.IntegrityError? ==> OnlyIdentified(t0, t') && UniqueIdentities(t'.items) && !OnlyLocalMissing(t0.items)
  {
    ResolutionCases(t, t', env, id, t0.items[id], r);
    DerivedStep(t0, t, t', env, id, r);
    ResolveKeepsDistinct(t, t', env, RowRequest(env, id, t0.items[id]), r);
    IdentifiedStep(t0, t, t', id);
    hide ResolveStep, DerivedIdentity, UniqueIdentities, OnlyIdentified, CloudDerived;
    if r.Resolved? {
      forall other | other in t'.items && other !in todo - {id} ensures Loaded(env, t'.items, other) {
        assert other == id || Loaded(env, t.items, other);
      }
    }
  }

  lemma DerivedStep(t0: Tables, t: Tables, t': Tables, env: Environment, id: RowId, r: Resolution)
    requires CloudDerived(t0.items, t.items, env) && id in t.items && id in t0.items && t.items[id] == t0.items[id]
    requires ResolveStep(t, t', env, RowRequest(env, id, t0.items[id]), r)
    ensures CloudDerived(t0.items, t'.items, env)
  {
  }

  lemma IdentifiedStep(t0: Tables, t: Tables, t': Tables, id: RowId)
    requires OnlyIdentified(t0, t) && id in t.items && t.items[id] == t0.items[id]
    requires t'.items.Keys == t.items.Keys && t'.hides == t.hides && t'.keys == t.keys && t'.nextId == t.nextId &&
             t.aliases <= t'.aliases
    requires forall other :: other in t.items && other != id ==> t'.items[other] == t.items[other]
    requires t'.items[id] == t.items[id].(identity := t'.items[id].identity)
    requires t.items[id].identity.Some? ==> t'.items == t.items
    ensures OnlyIdentified(t0, t')
  {
  }

  lemma ResolutionCases(t: Tables, t': Tables, env: Environment, id: RowId, item: Item, r: Resolution)
    requires id in t.items && ResolveStep(t, t', env, RowRequest(env, id, item), r)
    ensures r.Resolved? && r.identity.None? ==> item.kind == Cloud && DerivedIdentity(env, item) == None
    ensures r.IntegrityError? ==> item.identity.None? && item.kind == Cloud
    ensures item.identity.Some? ==> t'.items == t.items
  {
  }

  /** Resolve every row; a cloud row whose derived identity is taken stops the run. With random local identities that
      is exactly when two rows clash over a derived one. */
  method LoadIdentityRows(db: Connection, env: Environment) returns (ok: bool)
    requires UniqueIdentities(db.t.items)
    modifies db
    ensures OnlyIdentified(old(db.t), db.t) && UniqueIdentities(db.t.items)
    ensures ok ==> AllLoaded(env, db.t.items)
    ensures CloudDerived(old(db.t.items), db.t.items, env)
    ensures OnlyLocalMissing(old(db.t.items)) ==> ok
    ensures RandomLocals(old(db.t)) ==> (ok <==> !CloudClash(old(db.t.items), env)) && RandomLocals(db.t)
  {
    ghost var t0 := db.t;
    var rows := db.t.items;
    var todo := rows.Keys;
    while todo != {}
      invariant todo <= rows.Keys && rows == t0.items
      invariant LoadedExcept(t0, db.t, env, todo)
      invariant RandomLocals(t0) ==> RandomLocals(db.t)
      decreases todo
    {
      var id :| id in todo;
      ghost var before := db.t;
      var r := ResolveIdentity(db, env, RowRequest(env, id, rows[id]));
      LoadStep(t0, before, db.t, env, todo, id, r);
      if RandomLocals(t0) { ResolutionKeepsRandom(before, db.t, env, RowRequest(env, id, rows[id]), r); }
      if r.IntegrityError? {
        if RandomLocals(t0) { StoppedAtClash(t0, before, db.t, env, todo, id, r); }
        DerivedStep(t0, before, db.t, env, id, r);
        return false;
      }
      todo := todo - {id};
    }
    LoadedWithoutClash(t0, db.t, env);
    ok := true;
  }

  // ----- replacing legacy keys by copy keys -----

  /** Which recorded legacy keys are replaced, and by the copies of which rows. */
  type Replacement = map<(Scope, MovieKey), set<RowId>>

  predicate Identified(items: Items, rows: set<RowId>) {
    forall id :: id in rows ==> id in items && items[id].identity.Some?
  }

  function CopyKeys(items: Items, scope: Scope, rows: set<RowId>): set<(Scope, MovieKey)> {
    set id | id in rows && id in items && items[id].identity.Some? :: (scope, CopyKey(items[id].identity.value))
  }

  ghost predicate ReplacementFits(t: Tables, env: Environment, m: Replacement) {
    forall k :: k in m ==>
      && k in t.keys && k.1.LegacyKey?
      && Identified(t.items, m[k])
      && forall id :: id in m[k] ==> k.1.text in env.legacyKeys(t.items[id].titling)
  }

  ghost function KeysAfter(t: Tables, m: Replacement): set<(Scope, MovieKey)> {
    (t.keys - m.Keys) +
    set k, id | k in m && id in m[k] && id in t.items &&
        t.items[id].identity.Some? :: (k.0, CopyKey(t.items[id].identity.value))
  }

  lemma ReplaceOne(t: Tables, env: Environment, m: Replacement, k: (Scope, MovieKey), rows: set<RowId>)
    requires ReplacementFits(t, env, m[k := rows]) && k !in m
    ensures KeysAfter(t, m[k := rows]) == KeysAfter(t, m) + CopyKeys(t.items, k.0, rows) - {k}
  {
    var l, r := KeysAfter(t, m[k := rows]), KeysAfter(t, m) + CopyKeys(t.items, k.0, rows) - {k};
    var m' := m[k := rows];
    forall x | x in l ensures x in r {
      if x !in t.keys - m'.Keys {
        var k', id :| k' in m' && id in m'[k'] && id in t.items && t.items[id].identity.Some? &&
            x == (k'.0, CopyKey(t.items[id].identity.value));
        if k' != k { assert k' in m && id in m[k']; }
      }
    }
    forall x | x in r ensures x in l {
      if x in CopyKeys(t.items, k.0, rows) {
        var id :| id in rows && id in t.items && t.items[id].identity.Some? &&
            x == (k.0, CopyKey(t.items[id].identity.value));
        assert k in m' && id in m'[k];
      } else if x !in t.keys - m.Keys {
        var k', id :| k' in m && id in m[k'] && id in t.items && t.items[id].identity.Some? &&
            x == (k'.0, CopyKey(t.items[id].identity.value));
        assert k' in m' && id in m'[k'];
      }
    }
  }

  /** Hidden directly, through its own copy key, or through a legacy key that the replacement keeps or
      turns into copies that include the row. */
  ghost predicate StaysHidden(t: Tables, env: Environment, m: Replacement, scope: Scope, id: RowId)
    requires id in t.items
  {
    || (scope, id) in t.hides
    || (t.items[id].identity.Some? && (scope, CopyKey(t.items[id].identity.value)) in t.keys)
    || exists text :: text in env.legacyKeys(t.items[id].titling) && (scope, LegacyKey(text)) in t.keys &&
                      ((scope, LegacyKey(text)) in m ==> id in m[(scope, LegacyKey(text))])
  }

  lemma HiddenUnreplaced(t: Tables, env: Environment, scope: Scope, id: RowId)
    requires UniqueIdentities(t.items) && id in t.items
    ensures Hidden(t, env, scope, id) <==> StaysHidden(t, env, map[], scope, id)
  {
    assert KeysAfter(t, map[]) == t.keys;
    assert t.(keys := KeysAfter(t, map[])) == t;
    HiddenAfterReplacement(t, env, map[], scope, id);
  }

  /** Exactly what is hidden after a replacement. */
  lemma HiddenAfterReplacement(t: Tables, env: Environment, m: Replacement, scope: Scope, id: RowId)
    requires UniqueIdentities(t.items) && ReplacementFits(t, env, m) && id in t.items
    ensures Hidden(t.(keys := KeysAfter(t, m)), env, scope, id) <==> StaysHidden(t, env, m, scope, id)
  {
    var t' := t.(keys := KeysAfter(t, m));
    var own := CandidateKeys(env, t.items[id]);
    if text :| text in env.legacyKeys(t.items[id].titling) && (scope, LegacyKey(text)) in t.keys &&
               ((scope, LegacyKey(text)) in m ==> id in m[(scope, LegacyKey(text))]) {
      var k := (scope, LegacyKey(text));
      assert LegacyKey(text) in own;
      if k in m {
        assert id in m[k] && Identified(t.items, m[k]);
        var copy := CopyKey(t.items[id].identity.value);
        assert (k.0, copy) in t'.keys;
        assert copy in own;
      } else {
        assert k in t'.keys;
      }
    }
    if key :| key in own && (scope, key) in t'.keys {
      if (scope, key) !in t.keys - m.Keys {
        var k, other :| k in m && other in m[k] && other in t.items && t.items[other].identity.Some? &&
                        (scope, key) == (k.0, CopyKey(t.items[other].identity.value));
        assert other == id;
        assert k == (scope, LegacyKey(k.1.text));
      } else if key.LegacyKey? {
        assert key.text in env.legacyKeys(t.items[id].titling);
      }
    }
    if t.items[id].identity.Some? && (scope, CopyKey(t.items[id].identity.value)) in t.keys {
      var copy := CopyKey(t.items[id].identity.value);
      assert copy in own && (scope, copy) in t'.keys;
    }
  }

  /** Resolve the matched rows once more and report whether all of them have an identity. */
  method ResolvePayloads(db: Connection, env: Environment, rows: set<RowId>) returns (complete: bool)
    requires rows <= db.t.items.Keys
    requires forall id :: id in rows ==> Loaded(env, db.t.items, id)
    modifies db
    ensures db.t == old(db.t).(aliases := db.t.aliases) && old(db.t.aliases) <= db.t.aliases
    ensures complete <==> Identified(db.t.items, rows)
  {
    ghost var t0 := db.t;
    var todo := rows;
    complete := true;
    while todo != {}
      invariant todo <= rows
      invariant db.t == t0.(aliases := db.t.aliases) && t0.aliases <= db.t.aliases
      invariant complete <==> Identified(t0.items, rows - todo)
      decreases |todo|
    {
      var id :| id in todo;
      var r := ResolveIdentity(db, env, RowRequest(env, id, db.t.items[id]));
      assert Loaded(env, t0.items, id);
      assert r == Resolved(t0.items[id].identity);
      complete := complete && r.identity.Some?;
      todo := todo - {id};
    }
    assert rows - todo == rows;
  }

  /** One legacy record: replace it by the copies of the rows when all of them resolve. */
  method ReplaceRecord(db: Connection, env: Environment, k: (Scope, MovieKey), rows: set<RowId>)
                       returns (replaced: bool)
    requires rows <= db.t.items.Keys
    requires forall id :: id in rows ==> Loaded(env, db.t.items, id)
    modifies db
    ensures replaced <==> Identified(db.t.items, rows)
    ensures db.t == old(db.t).(aliases := db.t.aliases, keys := db.t.keys) && old(db.t.aliases) <= db.t.aliases
    ensures db.t.keys == if replaced then old(db.t.keys) + CopyKeys(db.t.items, k.0, rows) - {k} else old(db.t.keys)
  {
    replaced := ResolvePayloads(db, env, rows);
    if replaced {
      db.t := db.t.(keys := db.t.keys + CopyKeys(db.t.items, k.0, rows));
      db.t := db.t.(keys := db.t.keys - {k});
    }
  }

  // ----- legacy migration -----

  function Carriers(items: Items, env: Environment, text: string): set<RowId> {
    set id | id in items && text in env.legacyKeys(items[id].titling)
  }

  function DirectCarriers(t: Tables, env: Environment, scope: Scope, text: string): set<RowId> {
    set id | id in Carriers(t.items, env, text) && (scope, id) in t.hides
  }

  /** The rows a legacy record stands for: those hidden directly, else the only row that carries it. */
  function MigrationTargets(t: Tables, env: Environment, scope: Scope, text: string): set<RowId> {
    if DirectCarriers(t, env, scope, text) != {} then DirectCarriers(t, env, scope, text)
    else if |Carriers(t.items, env, text)| == 1 then Carriers(t.items, env, text)
    else {}
  }

  /** Migration picks rows conservatively; materialisation takes every row that carries the key. */
  datatype Policy = Migration | Materialisation

  function Targets(t: Tables, env: Environment, policy: Policy, k: (Scope, MovieKey)): set<RowId> {
    if !k.1.LegacyKey? then {}
    else if policy.Migration? then MigrationTargets(t, env, k.0, k.1.text)
    else Carriers(t.items, env, k.1.text)
  }

  predicate Replaces(t: Tables, env: Environment, policy: Policy, k: (Scope, MovieKey)) {
    Targets(t, env, policy, k) != {} && Identified(t.items, Targets(t, env, policy, k))
  }

  ghost function Replaced(t: Tables, env: Environment, policy: Policy, records: set<(Scope, MovieKey)>): Replacement {
    map k | k in records && k in t.keys && Replaces(t, env, policy, k) :: Targets(t, env, policy, k)
  }

  predicate Migrates(t: Tables, env: Environment, k: (Scope, MovieKey)) {
    Replaces(t, env, Migration, k)
  }

  /** The key tables after a legacy migration. */
  ghost function MigratedKeys(t: Tables, env: Environment): set<(Scope, MovieKey)> {
    KeysAfter(t, Replaced(t, env, Migration, t.keys))
  }

  function LegacyRecords(t: Tables, everyone: bool): set<(Scope, MovieKey)> {
    set k | k in t.keys && k.1.LegacyKey? && k.0.Everyone? == everyone
  }

  datatype Summary = Summary(migrated: nat, retained: nat)

  ghost function SummaryOf(t: Tables, env: Environment, records: set<(Scope, MovieKey)>): Summary {
    Summary(|set k | k in records && Migrates(t, env, k)|, |set k | k in records && !Migrates(t, env, k)|)
  }

  lemma OneMoreCount(t: Tables, env: Environment, seen: set<(Scope, MovieKey)>, k: (Scope, MovieKey))
    requires k !in seen
    ensures var s := SummaryOf(t, env, seen);
            SummaryOf(t, env, seen + {k}) ==
            if Migrates(t, env, k) then s.(migrated := s.migrated + 1) else s.(retained := s.retained + 1)
  {
    hide Migrates;
    var yes := set x | x in seen && Migrates(t, env, x);
    var no := set x | x in seen && !Migrates(t, env, x);
    if Migrates(t, env, k) {
      assert (set x | x in seen + {k} && Migrates(t, env, x)) == yes + {k};
      assert (set x | x in seen + {k} && !Migrates(t, env, x)) == no;
    } else {
      assert (set x | x in seen + {k} && Migrates(t, env, x)) == yes;
      assert (set x | x in seen + {k} && !Migrates(t, env, x)) == no + {k};
    }
  }

  lemma ReplacedFits(t: Tables, env: Environment, policy: Policy, records: set<(Scope, MovieKey)>)
    ensures ReplacementFits(t, env, Replaced(t, env, policy, records))
  {
  }

  /** The tables after the records in `done` were dealt with. */
  ghost predicate Processed(t: Tables, env: Environment, policy: Policy, snapshot: Tables,
                            done: set<(Scope, MovieKey)>) {
    t == snapshot.(aliases := t.aliases, keys := KeysAfter(snapshot, Replaced(snapshot, env, policy, done))) &&
        snapshot.aliases <= t.aliases
  }

  /** One record: the rows and the direct hides were read once, into the snapshot. */
  method ProcessRecord(db: Connection, env: Environment, policy: Policy, snapshot: Tables, k: (Scope, MovieKey),
                       ghost done: set<(Scope, MovieKey)>)
    returns (replaced: bool)
    requires AllLoaded(env, snapshot.items)
    requires Processed(db.t, env, policy, snapshot, done) && k in snapshot.keys && k !in done
    modifies db
    ensures Processed(db.t, env, policy, snapshot, done + {k})
    ensures replaced <==> Replaces(snapshot, env, policy, k)
  {
    var rows := Targets(snapshot, env, policy, k);
    OneMoreReplaced(snapshot, env, policy, done, k);
    if rows == {} {
      return false;
    }
    replaced := ReplaceRecord(db, env, k, rows);
  }

  lemma OneMoreReplaced(t: Tables, env: Environment, policy: Policy, done: set<(Scope, MovieKey)>, k: (Scope, MovieKey))
    requires k in t.keys && k !in done
    ensures KeysAfter(t, Replaced(t, env, policy, done + {k})) ==
            if Replaces(t, env, policy, k) then KeysAfter(t, Replaced(t, env, policy, done))
                + CopyKeys(t.items, k.0, Targets(t, env, policy, k)) - {k}
            else KeysAfter(t, Replaced(t, env, policy, done))
  {
    var m := Replaced(t, env, policy, done);
    if Replaces(t, env, policy, k) {
      assert Replaced(t, env, policy, done + {k}) == m[k := Targets(t, env, policy, k)];
      ReplacedFits(t, env, policy, done + {k});
      ReplaceOne(t, env, m, k, Targets(t, env, policy, k));
    } else {
      assert Replaced(t, env, policy, done + {k}) == m;
    }
  }

  lemma OneMoreSeen<T>(records: set<T>, todo: set<T>, done: set<T>, x: T)
    requires todo <= records && x in todo && done !! records
    ensures records - (todo - {x}) == records - todo + {x}
    ensures done + (records - (todo - {x})) == done + (records - todo) + {x}
    ensures x !in done + (records - todo) && x !in records - todo
  {
  }

  method CountRecord(summary: Summary, migrated: bool, ghost snapshot: Tables, ghost env: Environment,
                     ghost seen: set<(Scope, MovieKey)>, ghost k: (Scope, MovieKey)) returns (next: Summary)
    requires summary == SummaryOf(snapshot, env, seen) && k !in seen && (migrated <==> Migrates(snapshot, env, k))
    ensures next == SummaryOf(snapshot, env, seen + {k})
  {
    OneMoreCount(snapshot, env, seen, k);
    next := if migrated then summary.(migrated := summary.migrated + 1) else summary.(retained := summary.retained + 1);
  }

  /** One of the two record loops, over the user table or the global table. */
  method MigrateRecords(db: Connection, env: Environment, snapshot: Tables, records: set<(Scope, MovieKey)>,
                        ghost done: set<(Scope, MovieKey)>)
    returns (summary: Summary)
    requires AllLoaded(env, snapshot.items)
    requires Processed(db.t, env, Migration, snapshot, done) && done <= snapshot.keys && records <= snapshot.keys &&
             done !! records
    modifies db
    ensures Processed(db.t, env, Migration, snapshot, done + records)
    ensures summary == SummaryOf(snapshot, env, records)
  {
    var todo := records;
    ghost var seen, all := {}, done;
    summary := Summary(0, 0);
    assert SummaryOf(snapshot, env, {}) == summary;
    while todo != {}
      invariant todo <= records
      invariant seen == records - todo
      invariant all == done + (records - todo)
      invariant Processed(db.t, env, Migration, snapshot, all)
      invariant summary == SummaryOf(snapshot, env, seen)
      decreases todo
    {
      var k :| k in todo;
      OneMoreSeen(records, todo, done, k);
      var migrated := ProcessRecord(db, env, Migration, snapshot, k, all);
      summary := CountRecord(summary, migrated, snapshot, env, seen, k);
      todo := todo - {k};
      seen, all := seen + {k}, all + {k};
    }
    assert seen == records;
  }

  /** Turn legacy records into copy keys where that is safe; t1 names the tables once every row is resolved. */
  method MigrateLegacyKeys(db: Connection, env: Environment)
    returns (ok: bool, users: Summary, everyone: Summary, ghost t1: Tables)
    requires UniqueIdentities(db.t.items)
    modifies db
    ensures OnlyIdentified(old(db.t), t1) && UniqueIdentities(t1.items) && CloudDerived(old(db.t.items), t1.items, env)
    ensures OnlyLocalMissing(old(db.t.items)) ==> ok
    ensures RandomLocals(old(db.t)) ==> (ok <==> NoLegacyKeys(old(db.t.keys)) || !CloudClash(old(db.t.items), env))
    ensures ok ==> NoLegacyKeys(t1.keys) || AllLoaded(env, t1.items)
    ensures ok ==> db.t == t1.(aliases := db.t.aliases, keys := MigratedKeys(t1, env)) && t1.aliases <= db.t.aliases
    ensures AllIdentified(old(db.t.items)) ==> ViewAfterMigration(old(db.t), db.t, env)
    ensures ok ==> users == SummaryOf(t1, env, LegacyRecords(t1, false))
    ensures ok ==> everyone == SummaryOf(t1, env, LegacyRecords(t1, true))
    ensures !ok ==> OnlyIdentified(old(db.t), db.t)
  {
    users, everyone, t1 := Summary(0, 0), Summary(0, 0), db.t;
    LegacyKeysListed(db.t);
    if LegacyRecords(db.t, false) == {} && LegacyRecords(db.t, true) == {} {
      NoLegacyRecords(db.t, env);
      MigrationView(old(db.t), t1, db.t, env);
      return true, users, everyone, t1;
    }
    ok := LoadIdentityRows(db, env);
    var snapshot := db.t;
    t1 := snapshot;
    if !ok {
      return;
    }
    var userRecords, globalRecords := LegacyRecords(snapshot, false), LegacyRecords(snapshot, true);
    NothingProcessed(snapshot, env);
    users := MigrateRecords(db, env, snapshot, userRecords, {});
    assert {} + userRecords == userRecords;
    everyone := MigrateRecords(db, env, snapshot, globalRecords, userRecords);
    LegacyRecordsSuffice(snapshot, env);
    MigrationView(old(db.t), t1, db.t, env);
  }

  ghost predicate NoLegacyKeys(keys: set<(Scope, MovieKey)>) {
    forall k :: k in keys ==> k.1.CopyKey?
  }

  lemma LegacyKeysListed(t: Tables)
    ensures NoLegacyKeys(t.keys) <==> LegacyRecords(t, false) == {} && LegacyRecords(t, true) == {}
  {
    forall k | k in t.keys && k.1.LegacyKey? ensures k in LegacyRecords(t, k.0.Everyone?) {}
  }

  lemma NothingProcessed(t: Tables, env: Environment)
    ensures forall policy :: Processed(t, env, policy, t, {})
  {
    assert forall policy :: Replaced(t, env, policy, {}) == map[];
    assert KeysAfter(t, map[]) == t.keys;
  }

  lemma LegacyRecordsSuffice(t: Tables, env: Environment)
    ensures Replaced(t, env, Migration, LegacyRecords(t, false) + LegacyRecords(t, true)) ==
            Replaced(t, env, Migration, t.keys)
  {
    var l, r := Replaced(t, env, Migration, LegacyRecords(t, false) + LegacyRecords(t, true)),
        Replaced(t, env, Migration, t.keys);
    forall k ensures k in l <==> k in r {
      if k in t.keys && k.1.LegacyKey? { assert k in LegacyRecords(t, k.0.Everyone?); }
    }
  }

  lemma NoLegacyRecords(t: Tables, env: Environment)
    requires LegacyRecords(t, false) == {} && LegacyRecords(t, true) == {}
    ensures MigratedKeys(t, env) == t.keys
    ensures SummaryOf(t, env, {}) == Summary(0, 0)
  {
    forall k | k in t.keys ensures !k.1.LegacyKey? {
      assert k !in LegacyRecords(t, false) && k !in LegacyRecords(t, true);
    }
    assert Replaced(t, env, Migration, t.keys) == map[];
  }

  /** Who is hidden after a legacy migration, exactly: a legacy key stops hiding a row only when another
      row that carries the same key is hidden directly in the same scope. */
  lemma HiddenAfterMigration(t: Tables, env: Environment, scope: Scope, id: RowId)
    requires UniqueIdentities(t.items) && AllIdentified(t.items) && id in t.items
    ensures Hidden(t.(keys := MigratedKeys(t, env)), env, scope, id) <==>
            || (scope, id) in t.hides
            || (scope, CopyKey(t.items[id].identity.value)) in t.keys
            || exists text :: text in env.legacyKeys(t.items[id].titling) && (scope, LegacyKey(text)) in t.keys &&
                              DirectCarriers(t, env, scope, text) == {}
  {
    var m := Replaced(t, env, Migration, t.keys);
    ReplacedFits(t, env, Migration, t.keys);
    HiddenAfterReplacement(t, env, m, scope, id);
    forall text | text in env.legacyKeys(t.items[id].titling) && (scope, LegacyKey(text)) in t.keys
      ensures ((scope, LegacyKey(text)) in m ==> id in m[(scope, LegacyKey(text))]) <==>
              DirectCarriers(t, env, scope, text) == {} || (scope, id) in t.hides
    {
      var k := (scope, LegacyKey(text));
      var direct := DirectCarriers(t, env, scope, text);
      assert id in Carriers(t.items, env, text);
      if direct != {} {
        assert Identified(t.items, direct);
        assert k in m && m[k] == direct;
      } else if k in m {
        assert |Carriers(t.items, env, text)| == 1;
      }
    }
  }

  /** The whole call, on tables whose rows all have an identity: rows, hides and the exact new view. */
  ghost predicate ViewAfterMigration(t: Tables, t': Tables, env: Environment)
    requires AllIdentified(t.items)
  {
    && t'.items == t.items && t'.hides == t.hides
    && forall scope, id :: id in t.items ==>
         (Hidden(t', env, scope, id) <==>
          || (scope, id) in t.hides
          || (scope, CopyKey(t.items[id].identity.value)) in t.keys
          || exists text :: text in env.legacyKeys(t.items[id].titling) && (scope, LegacyKey(text)) in t.keys &&
                            DirectCarriers(t, env, scope, text) == {})
  }

  lemma MigrationView(t: Tables, t1: Tables, t': Tables, env: Environment)
    requires UniqueIdentities(t.items) && OnlyIdentified(t, t1)
    requires t' == t1.(aliases := t'.aliases, keys := MigratedKeys(t1, env))
    ensures AllIdentified(t.items) ==> ViewAfterMigration(t, t', env)
  {
    if AllIdentified(t.items) {
      NothingIdentified(t, t1);
      forall scope, id | id in t.items
        ensures Hidden(t', env, scope, id) <==>
                || (scope, id) in t.hides
                || (scope, CopyKey(t.items[id].identity.value)) in t.keys
                || exists text :: text in env.legacyKeys(t.items[id].titling) && (scope, LegacyKey(text)) in t.keys &&
                                  DirectCarriers(t, env, scope, text) == {}
      {
        HiddenAfterMigration(t1, env, scope, id);
        HiddenIgnoresAliases(t1.(keys := MigratedKeys(t1, env)), t', env, scope, id);
        forall text ensures DirectCarriers(t, env, scope, text) == DirectCarriers(t1, env, scope, text) {}
      }
    }
  }

  lemma NothingIdentified(t: Tables, t1: Tables)
    requires OnlyIdentified(t, t1) && AllIdentified(t.items)
    ensures t1 == t.(aliases := t1.aliases)
  {
    assert t1.items == t.items;
  }

  lemma HiddenIgnoresAliases(t: Tables, t': Tables, env: Environment, scope: Scope, id: RowId)
    requires t' == t.(aliases := t'.aliases) && id in t.items
    ensures Hidden(t', env, scope, id) <==> Hidden(t, env, scope, id)
  {
  }

  /** Migration hides nothing new. */
  lemma MigrationNeverHides(t: Tables, env: Environment, scope: Scope, id: RowId)
    requires UniqueIdentities(t.items) && AllIdentified(t.items) && id in t.items
    ensures Hidden(t.(keys := MigratedKeys(t, env)), env, scope, id) ==> Hidden(t, env, scope, id)
  {
    HiddenAfterMigration(t, env, scope, id);
    if text :| text in env.legacyKeys(t.items[id].titling) && (scope, LegacyKey(text)) in t.keys {
      assert LegacyKey(text) in CandidateKeys(env, t.items[id]);
    }
    assert CopyKey(t.items[id].identity.value) in CandidateKeys(env, t.items[id]);
  }

  /** Migration reveals a row only when it shares a legacy key with a directly hidden row and is not
      hidden directly itself. */
  lemma MigrationReveals(t: Tables, env: Environment, scope: Scope, id: RowId)
    requires UniqueIdentities(t.items) && AllIdentified(t.items) && id in t.items
    requires Hidden(t, env, scope, id) && !Hidden(t.(keys := MigratedKeys(t, env)), env, scope, id)
    ensures (scope, id) !in t.hides
    ensures exists text, other ::
              text in env.legacyKeys(t.items[id].titling) && other in DirectCarriers(t, env, scope, text)
  {
    hide MigratedKeys; hide DirectCarriers; hide UniqueIdentities; hide Hidden;
    HiddenAfterMigration(t, env, scope, id);
    var text := SharedKey(t, env, scope, id);
    assert DirectCarriers(t, env, scope, text) != {};
    var other :| other in DirectCarriers(t, env, scope, text);
  }

  lemma SharedKey(t: Tables, env: Environment, scope: Scope, id: RowId) returns (text: string)
    requires id in t.items && t.items[id].identity.Some? && Hidden(t, env, scope, id)
    requires (scope, id) !in t.hides && (scope, CopyKey(t.items[id].identity.value)) !in t.keys
    ensures text in env.legacyKeys(t.items[id].titling) && (scope, LegacyKey(text)) in t.keys
  {
    var key :| key in CandidateKeys(env, t.items[id]) && (scope, key) in t.keys;
    text := key.text;
  }

  /** Such a row: two rows share their only legacy key, the key is recorded, and one of them is hidden directly. */
  lemma SharedKeyRevealed(env: Environment, a: Item, b: Item, i: Identity, j: Identity, text: string, scope: Scope)
    requires a.path != b.path && i != j && a.identity == Some(i) && b.identity == Some(j)
    requires env.legacyKeys(a.titling) == {text} && env.legacyKeys(b.titling) == {text}
    ensures var t := Tables(map[1 := a, 2 := b], 3, {}, {(scope, 1)}, {(scope, LegacyKey(text))});
            && Valid(t) && AllIdentified(t.items) && Hidden(t, env, scope, 1) && Hidden(t, env, scope, 2)
            && Hidden(t.(keys := MigratedKeys(t, env)), env, scope, 1)
            && !Hidden(t.(keys := MigratedKeys(t, env)), env, scope, 2)
  {
    var t := Tables(map[1 := a, 2 := b], 3, {}, {(scope, 1)}, {(scope, LegacyKey(text))});
    assert t.items[1] == a && t.items[2] == b;
    assert LegacyKey(text) in CandidateKeys(env, t.items[2]) && (scope, LegacyKey(text)) in t.keys;
    assert 1 in DirectCarriers(t, env, scope, text);
    HiddenAfterMigration(t, env, scope, 1);
    HiddenAfterMigration(t, env, scope, 2);
  }

  /** A second migration finds nothing it can migrate. */
  lemma MigrationIdempotent(t: Tables, env: Environment, k: (Scope, MovieKey))
    ensures k in MigratedKeys(t, env) ==> !Migrates(t.(keys := MigratedKeys(t, env)), env, k)
    ensures var t' := t.(keys := MigratedKeys(t, env));
            MigratedKeys(t', env) == t'.keys
  {
    var t' := t.(keys := MigratedKeys(t, env));
    forall x | x in t'.keys ensures !Migrates(t', env, x) {
      if x.1.LegacyKey? {
        assert x in t.keys && x !in Replaced(t, env, Migration, t.keys);
        assert MigrationTargets(t', env, x.0, x.1.text) == MigrationTargets(t, env, x.0, x.1.text);
      }
    }
    assert Replaced(t', env, Migration, t'.keys) == map[];
  }

  // ----- materialising the legacy coverage of one row -----

  function Records(scopes: set<Scope>, texts: set<string>): set<(Scope, MovieKey)> {
    set scope, text | scope in scopes && text in texts :: (scope, LegacyKey(text))
  }

  function RequestedScopes(user: Option<int>, includeGlobal: bool): set<Scope> {
    (if user.Some? then {User(user.value)} else {}) + (if includeGlobal then {Everyone} else {})
  }

  /** Two migrations in a row: where the first left tables t, the second, on tables t1' after its own load, migrates no
      record of either table and leaves the keys as they are. */
  lemma SecondMigrationFindsNothing(t1: Tables, t: Tables, t1': Tables, env: Environment, everyone: bool)
    requires NoLegacyKeys(t1.keys) || AllLoaded(env, t1.items)
    requires t == t1.(aliases := t.aliases, keys := MigratedKeys(t1, env))
    requires OnlyIdentified(t, t1') && CloudDerived(t.items, t1'.items, env)
    ensures SummaryOf(t1', env, LegacyRecords(t1', everyone)).migrated == 0
    ensures MigratedKeys(t1', env) == t.keys
  {
    var records := LegacyRecords(t1', everyone);
    if NoLegacyKeys(t1.keys) {
      LegacyKeysListed(t1);
      NoLegacyRecords(t1, env);
      LegacyKeysListed(t1');
      NoLegacyRecords(t1', env);
    } else {
      forall id | id in t1'.items ensures t1'.items[id] == t1.items[id] {
        assert Loaded(env, t1.items, id);
      }
      assert t1'.items == t1.items;
      var same := t1.(keys := MigratedKeys(t1, env));
      forall k ensures Migrates(t1', env, k) <==> Migrates(same, env, k) {
        assert Targets(t1', env, Migration, k) == Targets(same, env, Migration, k);
      }
      forall k | k in MigratedKeys(t1, env) ensures !Migrates(t1', env, k) {
        MigrationIdempotent(t1, env, k);
      }
      assert Replaced(t1', env, Migration, t1'.keys) == map[];
    }
    assert (set k | k in records && Migrates(t1', env, k)) == {};
  }

  method ProcessIfPresent(db: Connection, env: Environment, snapshot: Tables, k: (Scope, MovieKey),
                          ghost done: set<(Scope, MovieKey)>)
    requires AllLoaded(env, snapshot.items)
    requires Processed(db.t, env, Materialisation, snapshot, done) && k.1.LegacyKey? && k !in done
    modifies db
    ensures Processed(db.t, env, Materialisation, snapshot, done + {k})
  {
    if k in db.t.keys {
      var _ := ProcessRecord(db, env, Materialisation, snapshot, k, done);
    } else {
      assert Replaced(snapshot, env, Materialisation, done + {k}) == Replaced(snapshot, env, Materialisation, done);
    }
  }

  /** Before one row is shown again, replace every legacy key it carries by the copies of all its carriers. */
  method MaterialiseForItem(db: Connection, env: Environment, id: RowId, user: Option<int>, includeGlobal: bool)
    returns (ok: bool, ghost t1: Tables)
    requires UniqueIdentities(db.t.items)
    modifies db
    ensures OnlyIdentified(old(db.t), t1) && UniqueIdentities(t1.items)
    ensures OnlyLocalMissing(old(db.t.items)) ==> ok
    ensures AllIdentified(old(db.t.items)) ==>
      db.t.items == old(db.t.items) &&
      forall scope, row :: row in db.t.items ==> (Hidden(db.t, env, scope, row) <==> Hidden(old(db.t), env, scope, row))
    ensures ok ==> db.t == t1.(aliases := db.t.aliases, keys :=
            MaterialisedKeys(t1, env, id, RequestedScopes(user, includeGlobal)))
    ensures !ok ==> OnlyIdentified(old(db.t), db.t)
  {
    ok, t1 := true, db.t;
    ghost var scopes := RequestedScopes(user, includeGlobal);
    if id !in db.t.items {
      assert MaterialisedKeys(t1, env, id, scopes) == t1.keys by { NothingProcessed(t1, env); }
      return;
    }
    var texts := env.legacyKeys(db.t.items[id].titling);
    var hasUser := user.Some? && exists text :: text in texts && (User(user.value), LegacyKey(text)) in db.t.keys;
    var hasGlobal := includeGlobal && exists text :: text in texts && (Everyone, LegacyKey(text)) in db.t.keys;
    if !hasUser && !hasGlobal {
      assert Replaced(t1, env, Materialisation, Records(scopes, texts)) == Replaced(t1, env, Materialisation, {});
      NothingProcessed(t1, env);
      return;
    }
    ok := LoadIdentityRows(db, env);
    t1 := db.t;
    if !ok {
      return;
    }
    MaterialiseTexts(db, env, texts, user, includeGlobal);
    MaterialisationView(old(db.t), t1, db.t, env, id, scopes);
  }

  lemma MaterialisationView(t: Tables, t1: Tables, t': Tables, env: Environment, item: RowId, scopes: set<Scope>)
    requires UniqueIdentities(t.items) && OnlyIdentified(t, t1)
    requires t' == t1.(aliases := t'.aliases, keys := MaterialisedKeys(t1, env, item, scopes))
    ensures AllIdentified(t.items) ==>
      t'.items == t.items &&
      forall scope, row :: row in t'.items ==> (Hidden(t', env, scope, row) <==> Hidden(t, env, scope, row))
  {
    if AllIdentified(t.items) {
      NothingIdentified(t, t1);
      forall scope, row | row in t'.items ensures Hidden(t', env, scope, row) <==> Hidden(t, env, scope, row) {
        MaterialisationPreservesHidden(t1, env, item, scopes, scope, row);
        HiddenIgnoresAliases(t1.(keys := MaterialisedKeys(t1, env, item, scopes)), t', env, scope, row);
        HiddenIgnoresAliases(t, t1, env, scope, row);
      }
    }
  }

  /** The key loop: for each text the record of the user, then the global record. */
  method MaterialiseTexts(db: Connection, env: Environment, texts: set<string>, user: Option<int>, includeGlobal: bool)
    requires AllLoaded(env, db.t.items)
    modifies db
    ensures Processed(db.t, env, Materialisation, old(db.t), Records(RequestedScopes(user, includeGlobal), texts))
  {
    var snapshot := db.t;
    var todo := texts;
    ghost var done: set<(Scope, MovieKey)> := {};
    NothingProcessed(snapshot, env);
    while todo != {}
      invariant todo <= texts
      invariant done == Records(RequestedScopes(user, includeGlobal), texts - todo)
      invariant Processed(db.t, env, Materialisation, snapshot, done)
      decreases todo
    {
      var text :| text in todo;
      if user.Some? {
        ProcessIfPresent(db, env, snapshot, (User(user.value), LegacyKey(text)), done);
        done := done + {(User(user.value), LegacyKey(text))};
      }
      if includeGlobal {
        ProcessIfPresent(db, env, snapshot, (Everyone, LegacyKey(text)), done);
        done := done + {(Everyone, LegacyKey(text))};
      }
      todo := todo - {text};
    }
    assert texts - todo == texts;
  }

  ghost function MaterialisedKeys(t: Tables, env: Environment, id: RowId, scopes: set<Scope>): set<(Scope, MovieKey)> {
    KeysAfter(t, Replaced(t, env, Materialisation,
      if id in t.items then Records(scopes, env.legacyKeys(t.items[id].titling)) else {}))
  }

  /** Materialisation changes nobody's view: exactly the same rows are hidden in every scope. */
  lemma MaterialisationPreservesHidden(t: Tables, env: Environment, item: RowId, scopes: set<Scope>, scope: Scope,
                                       id: RowId)
    requires UniqueIdentities(t.items) && id in t.items
    ensures Hidden(t.(keys := MaterialisedKeys(t, env, item, scopes)), env, scope, id) <==> Hidden(t, env, scope, id)
  {
    var records := if item in t.items then Records(scopes, env.legacyKeys(t.items[item].titling)) else {};
    var m := Replaced(t, env, Materialisation, records);
    ReplacedFits(t, env, Materialisation, records);
    HiddenAfterReplacement(t, env, m, scope, id);
    HiddenUnreplaced(t, env, scope, id);
    forall text | text in env.legacyKeys(t.items[id].titling) && (scope, LegacyKey(text)) in m
      ensures id in m[(scope, LegacyKey(text))]
    {
      assert id in Carriers(t.items, env, text);
    }
  }

  /** Afterwards none of the covered legacy keys is left in the requested scopes, so showing the row only
      has to remove the row's own copy key. */
  lemma MaterialisationClearsKeys(t: Tables, env: Environment, item: RowId, scopes: set<Scope>, scope: Scope,
                                  text: string)
    requires item in t.items && scope in scopes && text in env.legacyKeys(t.items[item].titling)
    requires Identified(t.items, Carriers(t.items, env, text))
    ensures (scope, LegacyKey(text)) !in MaterialisedKeys(t, env, item, scopes)
  {
    var k := (scope, LegacyKey(text));
    assert item in Carriers(t.items, env, text);
    assert k in Records(scopes, env.legacyKeys(t.items[item].titling));
    assert k in t.keys ==> Replaces(t, env, Materialisation, k);
  }
}
