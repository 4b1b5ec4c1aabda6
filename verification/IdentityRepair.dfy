/** Splitting identities that several active rows share, and saving the hides of a row before its deletion. */
module IdentityRepair {
  import opened Options
  import opened LibraryTables
  import opened CopyIdentity

  function Owners(items: Items, identity: Identity): set<RowId> {
    set id | id in items && OwnedBy(items, identity, id)
  }

  function SharedIdentities(items: Items): set<Identity> {
    set id | id in items && items[id].identity.Some? &&
        |Owners(items, items[id].identity.value)| > 1 :: items[id].identity.value
  }

  /** Rows that give up their identity: all holders of a shared identity except the one with the least id. */
  ghost predicate GivesUp(items: Items, id: RowId) {
    id in items && items[id].identity.Some? &&
    exists other: RowId :: other < id && OwnedBy(items, items[id].identity.value, other)
  }

  ghost function Givers(items: Items): set<RowId> {
    set id | id in items && GivesUp(items, id)
  }

  lemma {:induction false} LeastRow(rows: set<RowId>) returns (least: RowId)
    requires rows != {}
    ensures least in rows && forall r :: r in rows ==> least <= r
  {
    var r :| r in rows;
    if rows == {r} {
      least := r;
    } else {
      var rest := LeastRow(rows - {r});
      least := if rest < r then rest else r;
      assert forall x :: x in rows ==> x == r || x in rows - {r};
    }
  }

  // ----- one repaired row -----

  /** The scopes whose key tables hold the copy key of an identity. */
  function ScopesOf(t: Tables, identity: Identity): set<Scope> {
    set k | k in t.keys && k.1 == CopyKey(identity) :: k.0
  }

  function Split(t: Tables, id: RowId, novel: Identity, scopes: set<Scope>): Tables
    requires id in t.items
  {
    Assign(t, id, novel).(keys := t.keys + set s | s in scopes :: (s, CopyKey(novel)))
  }

  /** Giving one holder of an identity a new one, and every scope that hid the old identity a key for the
      new one, changes nobody's view. */
  lemma SplitPreservesHidden(t: Tables, env: Environment, id: RowId, novel: Identity, scope: Scope, row: RowId)
    requires id in t.items && t.items[id].identity.Some? && row in t.items && !Mentions(t, novel)
    ensures Hidden(Split(t, id, novel, ScopesOf(t, t.items[id].identity.value)), env, scope, row) <==>
            Hidden(t, env, scope, row)
  {
    var shared := t.items[id].identity.value;
    var t' := Split(t, id, novel, ScopesOf(t, shared));
    var before, after := CandidateKeys(env, t.items[row]), CandidateKeys(env, t'.items[row]);
    forall key | key in before && (scope, key) in t.keys ensures Hidden(t', env, scope, row) {
      if key in after {
        assert (scope, key) in t'.keys;
      } else {
        assert row == id && key == CopyKey(shared);
        assert (scope, key).1 == CopyKey(shared);
        assert scope in ScopesOf(t, shared);
        assert CopyKey(novel) in after && (scope, CopyKey(novel)) in t'.keys;
      }
    }
    forall key | key in after && (scope, key) in t'.keys ensures Hidden(t, env, scope, row) {
      if key == CopyKey(novel) {
        assert (scope, CopyKey(novel)) !in t.keys;
        assert scope in ScopesOf(t, shared);
        var k :| k in t.keys && k.1 == CopyKey(shared) && k.0 == scope;
        assert k == (scope, CopyKey(shared));
        assert OwnedBy(t.items, novel, row) || row == id;
        assert CopyKey(shared) in before;
      } else {
        assert key in before && (scope, key) in t.keys;
      }
    }
  }

  // ----- the repair loop -----

  /** Only identities changed, only rows that have to give theirs up changed, and every view is the same. */
  ghost predicate Repairing(t0: Tables, t: Tables, env: Environment) {
    && t.items.Keys == t0.items.Keys && t.hides == t0.hides && t.nextId == t0.nextId
    && (forall id :: id in t.items ==> RowKept(t0.items, t.items, id))
    && SameView(t0, t, env)
  }

  /** Every row is hidden in exactly the scopes it was hidden in. */
  ghost predicate SameView(t0: Tables, t: Tables, env: Environment)
    requires t.items.Keys == t0.items.Keys
  {
    forall scope, row :: row in t.items ==> (Hidden(t, env, scope, row) <==> Hidden(t0, env, scope, row))
  }

  ghost predicate RowKept(items0: Items, items: Items, id: RowId)
    requires id in items0 && id in items
  {
    || items[id] == items0[id]
    || (GivesUp(items0, id) && items[id].identity.Some? && items[id] == items0[id].(identity := items[id].identity))
  }

  /** Two rows share an identity only if it is still open, and open identities have their first holders. */
  ghost predicate SharedOnlyIn(items: Items, open: set<Identity>) {
    forall a, b ::
      a in items && b in items && a != b && items[a].identity.Some? && items[a].identity == items[b].identity ==>
        items[a].identity.value in open
  }

  ghost predicate Untouched(items0: Items, items: Items, open: set<Identity>) {
    forall i :: i in open ==> Owners(items, i) == Owners(items0, i)
  }

  function Changed(items0: Items, items: Items): set<RowId> {
    set id | id in items0 && id in items && items[id].identity != items0[id].identity
  }

  method SplitRow(db: Connection, env: Environment, id: RowId, scopes: set<Scope>) returns (ghost novel: Identity)
    requires id in db.t.items && db.t.items[id].identity.Some?
    modifies db
    ensures !Mentions(old(db.t), novel)
    ensures db.t == Split(old(db.t), id, novel, scopes).(aliases := db.t.aliases)
  {
    var item := db.t.items[id];
    var identity := NewIdentity(db.t);
    novel := identity;
    db.t := Assign(db.t, id, identity);
    var r := ResolveIdentity(db, env, RowRequest(env, id, item.(identity := Some(identity))));
    db.t := db.t.(keys := db.t.keys + set s | s in scopes :: (s, CopyKey(identity)));
    RecordAliases(db, env, item, identity, item.path, env.Stat(item.path), true);
  }

  lemma SplitKeepsRepairing(t0: Tables, t: Tables, t': Tables, env: Environment, id: RowId, novel: Identity)
    requires Repairing(t0, t, env) && id in t.items && t.items[id] == t0.items[id] && GivesUp(t0.items, id)
    requires !Mentions(t, novel)
    requires t' == Split(t, id, novel, ScopesOf(t, t.items[id].identity.value)).(aliases := t'.aliases)
    ensures Repairing(t0, t', env)
    ensures Changed(t0.items, t'.items) == Changed(t0.items, t.items) + {id}
  {
    var s := Split(t, id, novel, ScopesOf(t, t.items[id].identity.value));
    assert !OwnedBy(t.items, novel, id);
    forall scope, row | row in t'.items ensures Hidden(t', env, scope, row) <==> Hidden(t0, env, scope, row) {
      SplitPreservesHidden(t, env, id, novel, scope, row);
      assert Hidden(t', env, scope, row) <==> Hidden(s, env, scope, row);
    }
  }

  lemma SplitOwners(t: Tables, t': Tables, id: RowId, novel: Identity, scopes: set<Scope>, open: set<Identity>)
    requires id in t.items && t.items[id].identity.Some? && !Mentions(t, novel)
    requires t' == Split(t, id, novel, scopes).(aliases := t'.aliases)
    ensures forall i :: i != novel && i != t.items[id].identity.value ==> Owners(t'.items, i) == Owners(t.items, i)
    ensures var shared := t.items[id].identity.value;
            Owners(t'.items, shared) == Owners(t.items, shared) - {id} && ScopesOf(t', shared) == ScopesOf(t, shared)
    ensures SharedOnlyIn(t.items, open) ==> SharedOnlyIn(t'.items, open)
    ensures forall i :: i in open && |Owners(t.items, i)| > 0 ==> i != novel
  {
    var shared := t.items[id].identity.value;
    assert OwnedBy(t.items, shared, id);
    assert shared != novel;
    forall row | row in t.items ensures t.items[row].identity != Some(novel) { assert !OwnedBy(t.items, novel, row); }
    forall i | i != novel && i != shared ensures Owners(t'.items, i) == Owners(t.items, i) {}
    assert Owners(t'.items, shared) == Owners(t.items, shared) - {id};
    forall k: (Scope, MovieKey) | k.1 == CopyKey(shared) ensures k in t'.keys <==> k in t.keys {}
    forall i | i in open && |Owners(t.items, i)| > 0 ensures i != novel {
      var row :| row in Owners(t.items, i);
      assert OwnedBy(t.items, i, row);
    }
  }

  /** In the middle of one group: `least` keeps the shared identity, the rows in `rest` still hold it. */
  ghost predicate GroupState(t0: Tables, t: Tables, env: Environment, shared: Identity, least: RowId, rest: set<RowId>,
                             scopes: set<Scope>, open: set<Identity>) {
    && Repairing(t0, t, env)
    && SharedOnlyIn(t.items, open + {shared}) && Untouched(t0.items, t.items, open)
    && Owners(t.items, shared) == rest + {least} && Owners(t0.items, shared) >= rest + {least}
    && (forall r :: r in rest ==> least < r)
    && ScopesOf(t, shared) == scopes
    && shared !in open && Inhabited(t0.items, open)
  }

  lemma GroupStep(t0: Tables, t: Tables, t': Tables, env: Environment, shared: Identity, least: RowId, rest: set<RowId>,
                  scopes: set<Scope>, open: set<Identity>, id: RowId, novel: Identity)
    requires GroupState(t0, t, env, shared, least, rest, scopes, open) && id in rest && id in t.items
    requires !Mentions(t, novel) && t' == Split(t, id, novel, scopes).(aliases := t'.aliases)
    ensures GroupState(t0, t', env, shared, least, rest - {id}, scopes, open)
    ensures |Changed(t0.items, t'.items)| == |Changed(t0.items, t.items)| + 1
  {
    assert id in Owners(t.items, shared) && id in Owners(t0.items, shared) && least in Owners(t0.items, shared);
    assert OwnedBy(t0.items, shared, least);
    assert RowKept(t0.items, t.items, id);
    SplitOwners(t, t', id, novel, scopes, open + {shared});
    forall i | i in open ensures i != novel && Owners(t'.items, i) == Owners(t0.items, i) {
      assert i in open + {shared};
    }
    SplitKeepsRepairing(t0, t, t', env, id, novel);
    assert id !in Changed(t0.items, t.items);
    assert rest + {least} - {id} == rest - {id} + {least};
  }

  ghost predicate Inhabited(items: Items, identities: set<Identity>) {
    forall i :: i in identities ==> |Owners(items, i)| > 0
  }

  lemma StillInhabited(items: Items, identities: set<Identity>, less: Identity)
    requires Inhabited(items, identities)
    ensures Inhabited(items, identities - {less})
  {
  }

  lemma GroupStart(t0: Tables, t: Tables, env: Environment, shared: Identity, least: RowId, open: set<Identity>)
    requires Repairing(t0, t, env)
    requires SharedOnlyIn(t.items, open + {shared}) && Untouched(t0.items, t.items, open + {shared})
    requires shared !in open && Inhabited(t0.items, open)
    requires least in Owners(t.items, shared) && forall r :: r in Owners(t.items, shared) ==> least <= r
    ensures GroupState(t0, t, env, shared, least, Owners(t.items, shared) - {least}, ScopesOf(t, shared), open)
  {
    PutBack(Owners(t.items, shared), least);
    assert shared in open + {shared};
    assert Owners(t0.items, shared) == Owners(t.items, shared);
    forall i | i in open ensures Owners(t.items, i) == Owners(t0.items, i) { assert i in open + {shared}; }
  }

  lemma PutBack<T>(s: set<T>, x: T)
    requires x in s
    ensures s - {x} + {x} == s
  {
  }

  /** The rows of one group after the first. */
  method SplitRest(db: Connection, env: Environment, shared: Identity, ghost least: RowId, rows: set<RowId>,
                   scopes: set<Scope>, ghost t0: Tables, ghost open: set<Identity>) returns (repaired: nat)
    requires GroupState(t0, db.t, env, shared, least, rows, scopes, open)
    modifies db
    ensures GroupState(t0, db.t, env, shared, least, {}, scopes, open)
    ensures |Changed(t0.items, db.t.items)| == |Changed(t0.items, old(db.t.items))| + repaired
  {
    repaired := 0;
    var rest := rows;
    while rest != {}
      invariant GroupState(t0, db.t, env, shared, least, rest, scopes, open)
      invariant |Changed(t0.items, db.t.items)| == |Changed(t0.items, old(db.t.items))| + repaired
      decreases rest
    {
      var id :| id in rest;
      ghost var t := db.t;
      assert id in Owners(t.items, shared);
      var novel := SplitRow(db, env, id, scopes);
      GroupStep(t0, t, db.t, env, shared, least, rest, scopes, open, id, novel);
      rest := rest - {id};
      repaired := repaired + 1;
    }
  }

  lemma UntouchedLess(items0: Items, items: Items, open: set<Identity>, shared: Identity)
    requires Untouched(items0, items, open + {shared})
    ensures Untouched(items0, items, open)
  {
    forall i | i in open ensures Owners(items, i) == Owners(items0, i) { assert i in open + {shared}; }
  }

  /** What the group state says once no row is left. */
  lemma GroupEnd(t0: Tables, t: Tables, env: Environment, shared: Identity, least: RowId, scopes: set<Scope>,
                 open: set<Identity>)
    requires GroupState(t0, t, env, shared, least, {}, scopes, open)
    ensures Repairing(t0, t, env) && SharedOnlyIn(t.items, open) && Untouched(t0.items, t.items, open)
  {
    assert Owners(t.items, shared) == {least};
    OwnersUnique(t.items, shared, open);
  }

  /** One shared identity: its first row keeps it, the others get new ones. */
  method SplitGroup(db: Connection, env: Environment, shared: Identity, ghost t0: Tables, ghost open: set<Identity>)
    returns (repaired: nat)
    requires Repairing(t0, db.t, env)
    requires SharedOnlyIn(db.t.items, open + {shared}) && Untouched(t0.items, db.t.items, open + {shared})
    requires shared !in open && Inhabited(t0.items, open)
    modifies db
    ensures Repairing(t0, db.t, env)
    ensures SharedOnlyIn(db.t.items, open) && Untouched(t0.items, db.t.items, open)
    ensures |Changed(t0.items, db.t.items)| == |Changed(t0.items, old(db.t.items))| + repaired
  {
    hide Repairing, Untouched, SharedOnlyIn;
    var rows := Owners(db.t.items, shared);
    UntouchedLess(t0.items, db.t.items, open, shared);
    if |rows| < 2 {
      OwnersUnique(db.t.items, shared, open);
      return 0;
    }
    ghost var first := LeastRow(rows);
    var least :| least in rows && forall r :: r in rows ==> least <= r;
    GroupStart(t0, db.t, env, shared, least, open);
    var scopes := ScopesOf(db.t, shared);
    hide GroupState;
    repaired := SplitRest(db, env, shared, least, rows - {least}, scopes, t0, open);
    GroupEnd(t0, db.t, env, shared, least, scopes, open);
  }

  lemma AtMostOne<T>(s: set<T>)
    requires |s| < 2
    ensures forall a, b :: a in s && b in s ==> a == b
  {
    forall a, b | a in s && b in s ensures a == b {
      assert |s - {a}| == 0;
    }
  }

  lemma OwnersUnique(items: Items, shared: Identity, open: set<Identity>)
    requires |Owners(items, shared)| < 2 && SharedOnlyIn(items, open + {shared})
    ensures SharedOnlyIn(items, open)
  {
    AtMostOne(Owners(items, shared));
    forall a | a in items && items[a].identity == Some(shared) ensures a in Owners(items, shared) {}
  }

  /** Repair every collision. All active identities end up distinct, the row with the least id of every
      group keeps its identity, everyone sees the same rows as before, and a repaired library is left alone. */
  method RepairCollisions(db: Connection, env: Environment) returns (repaired: nat)
    modifies db
    ensures UniqueIdentities(db.t.items)
    ensures Repairing(old(db.t), db.t, env)
    ensures forall id :: id in db.t.items ==> (db.t.items[id] != old(db.t.items)[id] <==> GivesUp(old(db.t.items), id))
    ensures repaired == |Givers(old(db.t.items))|
    ensures UniqueIdentities(old(db.t.items)) ==> repaired == 0 && db.t == old(db.t)
  {
    ghost var t0 := db.t;
    var todo := SharedIdentities(db.t.items);
    AllSharedListed(t0.items);
    RepairStart(t0, env, todo);
    repaired := 0;
    ghost var none := todo == {};
    hide *;
    while todo != {}
      invariant Inhabited(t0.items, todo)
      invariant Repairing(t0, db.t, env)
      invariant SharedOnlyIn(db.t.items, todo) && Untouched(t0.items, db.t.items, todo)
      invariant |Changed(t0.items, db.t.items)| == repaired
      invariant none ==> todo == {} && db.t == t0
      decreases todo
    {
      var shared :| shared in todo;
      ghost var open := todo - {shared};
      PutBack(todo, shared);
      StillInhabited(t0.items, todo, shared);
      var n := SplitGroup(db, env, shared, t0, open);
      repaired := repaired + n;
      todo := todo - {shared};
    }
    AllRepaired(t0, db.t, env);
  }

  lemma RepairStart(t: Tables, env: Environment, open: set<Identity>)
    ensures Repairing(t, t, env) && Untouched(t.items, t.items, open) && Changed(t.items, t.items) == {}
  {
  }

  lemma AllSharedListed(items: Items)
    ensures SharedOnlyIn(items, SharedIdentities(items))
    ensures UniqueIdentities(items) ==> SharedIdentities(items) == {}
    ensures Inhabited(items, SharedIdentities(items))
  {
    forall a, b | a in items && b in items && a != b && items[a].identity.Some? &&
        items[a].identity == items[b].identity
      ensures items[a].identity.value in SharedIdentities(items)
    {
      var i := items[a].identity.value;
      assert a in Owners(items, i) && b in Owners(items, i);
      if |Owners(items, i)| < 2 { AtMostOne(Owners(items, i)); }
    }
    if UniqueIdentities(items) {
      forall id | id in items && items[id].identity.Some? ensures |Owners(items, items[id].identity.value)| <= 1 {
        assert Owners(items, items[id].identity.value) == {id};
      }
    }
  }

  lemma GiversChanged(items0: Items, items: Items, id: RowId)
    requires items.Keys == items0.Keys && SharedOnlyIn(items, {})
    requires forall row :: row in items ==> RowKept(items0, items, row)
    requires id in items && GivesUp(items0, id)
    ensures items[id].identity != items0[id].identity
  {
    var i := items0[id].identity.value;
    var other: RowId :| other < id && OwnedBy(items0, i, other);
    assert other in Owners(items0, i);
    var least := LeastRow(Owners(items0, i));
    assert OwnedBy(items0, i, least);
    assert forall x: RowId :: OwnedBy(items0, i, x) ==> x in Owners(items0, i);
    assert RowKept(items0, items, least);
    assert least != id && items[least].identity == Some(i);
  }

  lemma AllRepaired(t0: Tables, t: Tables, env: Environment)
    requires Repairing(t0, t, env) && SharedOnlyIn(t.items, {})
    ensures UniqueIdentities(t.items)
    ensures forall id :: id in t.items ==> (t.items[id] != t0.items[id] <==> GivesUp(t0.items, id))
    ensures Changed(t0.items, t.items) == Givers(t0.items)
  {
    forall id | id in t.items ensures t.items[id] != t0.items[id] <==> GivesUp(t0.items, id) {
      assert RowKept(t0.items, t.items, id);
      if GivesUp(t0.items, id) { GiversChanged(t0.items, t.items, id); }
    }
    forall id | id in t.items ensures t.items[id].identity != t0.items[id].identity <==> GivesUp(t0.items, id) {
      assert RowKept(t0.items, t.items, id);
      if GivesUp(t0.items, id) { GiversChanged(t0.items, t.items, id); }
    }
  }

  // ----- saving hides before a deletion -----

  /** The hides of one row, as copy keys of its identity. */
  function SavedKeys(t: Tables, id: RowId, identity: Identity): set<(Scope, MovieKey)> {
    set h | h in t.hides && h.1 == id :: (h.0, CopyKey(identity))
  }

  /** The resolution before a deletion looks at inodes only and records nothing. */
  function SaveRequest(env: Environment, id: RowId, item: Item): Request {
    RowRequest(env, id, item).(withSample := false, record := false)
  }

  method PreserveHides(db: Connection, env: Environment, id: RowId) returns (r: Resolution)
    modifies db
    ensures id !in old(db.t.items) ==> db.t == old(db.t)
    ensures id in old(db.t.items) ==>
      exists t1 :: ResolveStep(old(db.t), t1, env, SaveRequest(env, id, old(db.t.items)[id]), r) &&
                   db.t == if r.Resolved? && r.identity.Some?
                       then t1.(keys := t1.keys + SavedKeys(t1, id, r.identity.value)) else t1
  {
    if id !in db.t.items {
      return Resolved(None);
    }
    var q := SaveRequest(env, id, db.t.items[id]);
    r := ResolveIdentity(db, env, q);
    ghost var t1 := db.t;
    if r.Resolved? && r.identity.Some? {
      var todo := set h | h in db.t.hides && h.1 == id;
      var identity := r.identity.value;
      ghost var all := todo;
      while todo != {}
        invariant todo <= all
        invariant db.t == t1.(keys := t1.keys + set h | h in all - todo :: (h.0, CopyKey(identity)))
        decreases todo
      {
        var h :| h in todo;
        db.t := db.t.(keys := db.t.keys + {(h.0, CopyKey(identity))});
        assert all - (todo - {h}) == all - todo + {h};
        todo := todo - {h};
      }
      assert all - todo == all;
      assert (set h | h in all :: (h.0, CopyKey(identity))) == SavedKeys(t1, id, identity);
    }
  }
}
