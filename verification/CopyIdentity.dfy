/** Resolving the opaque identity of a row: keep it, recover it from an alias, derive it, or draw a new one. */
module CopyIdentity {
  import opened Options
  import opened LibraryTables
  import opened CopyEvidence

  /** A database connection: the tables as the running transaction sees them. */
  class Connection {
    var t: Tables

    constructor (t: Tables)
      ensures this.t == t
    {
      this.t := t;
    }
  }

  // ----- drawing a new identity -----

  function RandomTokens(identities: set<Identity>): set<nat> {
    set i | i in identities && i.Random? :: i.token
  }

  function KnownIdentities(t: Tables): set<Identity> {
    (set id | id in t.items && t.items[id].identity.Some? :: t.items[id].identity.value) +
    (set a | a in t.aliases :: a.identity) +
    (set k | k in t.keys && k.1.CopyKey? :: k.1.identity)
  }

  lemma {:induction false} UnusedToken(tokens: set<nat>) returns (bound: nat)
    ensures forall n :: n in tokens ==> n < bound
  {
    if tokens == {} {
      bound := 0;
    } else {
      var n :| n in tokens;
      var rest := UnusedToken(tokens - {n});
      bound := if n < rest then rest else n + 1;
      assert forall m :: m in tokens ==> m == n || m in tokens - {n};
    }
  }

  /** A random identity that nothing in the tables mentions yet. */
  method NewIdentity(t: Tables) returns (identity: Identity)
    ensures identity.Random? && !Mentions(t, identity)
  {
    var used := RandomTokens(KnownIdentities(t));
    ghost var bound := UnusedToken(used);
    assert bound !in used;
    var token: nat :| token !in used;
    identity := Random(token);
    MentionedIsKnown(t, identity);
  }

  lemma MentionedIsKnown(t: Tables, identity: Identity)
    ensures Mentions(t, identity) ==> identity in KnownIdentities(t)
  {
    if scope :| (scope, CopyKey(identity)) in t.keys {
      assert (scope, CopyKey(identity)).1.CopyKey?;
    }
  }

  // ----- aliases -----

  function NewAliases(env: Environment, item: Item, identity: Identity, path: string, stat: Option<FileStat>,
                      withSample: bool): set<Alias> {
    var locator := env.locator(path);
    if item.kind == Cloud || locator == "" then {}
    else
      var evidence := EvidenceOf(item.kind, item.source, path, stat, withSample);
      set e | e in evidence :: Alias(identity, item.source, locator, e)
  }

  method RecordAliases(db: Connection, env: Environment, item: Item, identity: Identity, path: string,
                       stat: Option<FileStat>, withSample: bool)
    modifies db
    ensures db.t == old(db.t).(aliases := old(db.t.aliases) + NewAliases(env, item, identity, path, stat, withSample))
  {
    var locator := env.locator(path);
    if item.kind == Cloud || locator == "" {
      assert db.t.aliases + {} == db.t.aliases;
      return;
    }
    var evidence := EvidenceOf(item.kind, item.source, path, stat, withSample);
    for n := 0 to |evidence|
      invariant db.t == old(db.t).(aliases := old(db.t.aliases) + set e | e in evidence[..n] ::
                Alias(identity, item.source, locator, e))
    {
      db.t := db.t.(aliases := db.t.aliases + {Alias(identity, item.source, locator, evidence[n])});
      assert evidence[..n + 1] == evidence[..n] + [evidence[n]];
    }
    assert evidence[..|evidence|] == evidence;
  }

  // ----- resolution -----

  function DerivedIdentity(env: Environment, item: Item): Option<Identity> {
    if item.kind == Cloud && item.externalId != "" then Some(Derived(ExternalId(item.source, item.externalId)))
    else if item.kind == Cloud && item.resourceKey != "" then Some(Derived(ResourceKey(item.source, item.resourceKey)))
    else if item.kind == Local || env.locator(item.path) == "" then None
    else Some(Derived(SourcePath(item.source, env.locator(item.path))))
  }

  datatype Resolution = Resolved(identity: Option<Identity>) | IntegrityError

  /** One call: the row as it was read, the file it stands for, and how to search and record. */
  datatype Request = Request(
    id: RowId,
    item: Item,
    path: string,
    stat: Option<FileStat>,
    withSample: bool,
    record: bool,
    blocked: set<Identity>)

  /** A call on a row with the path and file the row itself names. */
  function RowRequest(env: Environment, id: RowId, item: Item): Request {
    Request(id, item, item.path, env.Stat(item.path), true, true, {})
  }

  /** Alias identities a local row without identity may take over. */
  function FreeCandidates(t: Tables, env: Environment, q: Request): set<Identity> {
    set i | i in AcceptedIdentities(t.aliases, Search(q.item.source, Some(env.locator(q.path)), false),
                                    EvidenceOf(q.item.kind, q.item.source, q.path, q.stat, q.withSample))
         && !OwnedElsewhere(t.items, i, q.id) && i !in q.blocked
  }

  /** The choice for a local row without identity: the only free candidate, else something new. */
  ghost predicate LocalChoice(t: Tables, env: Environment, q: Request, identity: Identity) {
    || FreeCandidates(t, env, q) == {identity}
    || (|FreeCandidates(t, env, q)| != 1 && identity.Random? && !Mentions(t, identity))
  }

  function Assign(t: Tables, id: RowId, identity: Identity): Tables
    requires id in t.items
  {
    t.(items := t.items[id := t.items[id].(identity := Some(identity))])
  }

  function WithAliases(t: Tables, env: Environment, q: Request, identity: Identity): Tables {
    if q.record then t.(aliases := t.aliases + NewAliases(env, q.item, identity, q.path, q.stat, q.withSample)) else t
  }

  /** What one resolution returns and does to the tables. */
  ghost predicate ResolveStep(t: Tables, t': Tables, env: Environment, q: Request, r: Resolution)
    requires q.id in t.items
  {
    if q.item.identity.Some? then
      && r == Resolved(q.item.identity)
      && t' == WithAliases(t, env, q, q.item.identity.value)
    else if q.item.kind == Local then
      && r.Resolved? && r.identity.Some?
      && LocalChoice(t, env, q, r.identity.value)
      && t' == WithAliases(Assign(t, q.id, r.identity.value), env, q, r.identity.value)
    else
      match DerivedIdentity(env, q.item)
      case None => r == Resolved(None) && t' == t
      case Some(i) =>
        if OwnedElsewhere(t.items, i, q.id) then r == IntegrityError && t' == t
        else r == Resolved(Some(i)) && t' == WithAliases(Assign(t, q.id, i), env, q, i)
  }

  method ResolveIdentity(db: Connection, env: Environment, q: Request) returns (r: Resolution)
    requires q.id in db.t.items
    modifies db
    ensures ResolveStep(old(db.t), db.t, env, q, r)
  {
    if q.item.identity.Some? {
      if q.record {
        RecordAliases(db, env, q.item, q.item.identity.value, q.path, q.stat, q.withSample);
      }
      return Resolved(q.item.identity);
    }
    var identity: Identity;
    if q.item.kind == Local {
      var found := FindCandidates(db.t.aliases, Search(q.item.source, Some(env.locator(q.path)), false),
                                  EvidenceOf(q.item.kind, q.item.source, q.path, q.stat, q.withSample));
      var free := set i | i in found && !OwnedElsewhere(db.t.items, i, q.id) && i !in q.blocked;
      assert free == FreeCandidates(db.t, env, q);
      if |free| == 1 {
        identity :| identity in free;
        OnlyElement(free, identity);
      } else {
        identity := NewIdentity(db.t);
      }
      LocalChoiceUnowned(db.t, env, q, identity);
    } else {
      var derived := DerivedIdentity(env, q.item);
      if derived.None? {
        return Resolved(None);
      }
      identity := derived.value;
      if OwnedElsewhere(db.t.items, identity, q.id) {
        return IntegrityError;
      }
    }
    db.t := Assign(db.t, q.id, identity);
    if q.record {
      RecordAliases(db, env, q.item, identity, q.path, q.stat, q.withSample);
    }
    r := Resolved(Some(identity));
  }

  lemma OnlyElement<T>(s: set<T>, x: T)
    requires |s| == 1 && x in s
    ensures s == {x}
  {
    assert |s - {x}| == 0;
  }

  /** The identity chosen for a local row is never held by another row, so its UPDATE is not refused. */
  lemma LocalChoiceUnowned(t: Tables, env: Environment, q: Request, identity: Identity)
    requires LocalChoice(t, env, q, identity)
    ensures !OwnedElsewhere(t.items, identity, q.id)
  {
    if FreeCandidates(t, env, q) == {identity} {
      assert identity in FreeCandidates(t, env, q);
    } else if id :| id in t.items && id != q.id && OwnedBy(t.items, identity, id) {
      assert Mentions(t, identity);
    }
  }

  /** Resolution keeps active identities distinct; it touches no other row, no path, no hide and no key. */
  lemma ResolveKeepsDistinct(t: Tables, t': Tables, env: Environment, q: Request, r: Resolution)
    requires q.id in t.items && ResolveStep(t, t', env, q, r)
    requires UniqueIdentities(t.items)
    ensures UniqueIdentities(t'.items)
    ensures t'.items.Keys == t.items.Keys && t'.hides == t.hides && t'.keys == t.keys && t'.nextId == t.nextId
    ensures forall id :: id in t.items && id != q.id ==> t'.items[id] == t.items[id]
    ensures t'.items[q.id] == t.items[q.id].(identity := t'.items[q.id].identity)
    ensures q.item == t.items[q.id] ==> r.IntegrityError? || t'.items[q.id].identity == r.identity
    ensures q.item.kind == Local ==> r.Resolved? && r.identity.Some?
    ensures t.aliases <= t'.aliases
    ensures forall a :: a in t'.aliases && a !in t.aliases ==> r.Resolved? && Some(a.identity) == r.identity
  {
    if q.item.identity.None? && r.Resolved? && r.identity.Some? {
      var i := r.identity.value;
      if q.item.kind == Local { LocalChoiceUnowned(t, env, q, i); }
      assert !OwnedElsewhere(t.items, i, q.id);
      forall a, b | a in t'.items && b in t'.items && t'.items[a].identity.Some? &&
          t'.items[a].identity == t'.items[b].identity
        ensures a == b
      {
        assert OwnedBy(t.items, i, a) ==> a == q.id;
        assert OwnedBy(t.items, i, b) ==> b == q.id;
      }
    }
  }

  /** Aliases, and local rows, carry random identities only. */
  ghost predicate RandomLocals(t: Tables) {
    && (forall a :: a in t.aliases ==> a.identity.Random?)
    && (forall id :: id in t.items && t.items[id].kind == Local && t.items[id].identity.Some? ==>
       t.items[id].identity.value.Random?)
  }

  /** Resolutions keep it so: local rows take over alias identities or draw random ones. */
  lemma ResolutionKeepsRandom(t: Tables, t': Tables, env: Environment, q: Request, r: Resolution)
    requires q.id in t.items && ResolveStep(t, t', env, q, r) && RandomLocals(t)
    requires q.item.kind == t.items[q.id].kind && (q.item.identity.Some? ==> q.item.identity == t.items[q.id].identity)
    ensures RandomLocals(t')
  {
    if q.item.kind == Local && q.item.identity.None? && FreeCandidates(t, env, q) == {r.identity.value} {
      assert r.identity.value in FreeCandidates(t, env, q);
    }
    forall a | a in t'.aliases ensures a.identity.Random? {
      if a !in t.aliases {
        assert q.item.kind == Local;
      }
    }
  }
}
