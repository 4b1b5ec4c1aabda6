/** Library revision counters: triggers that bump a counter once per transaction, guarded by claims that
    live on the connection and outlast savepoints. */
module RevisionCounters {

  datatype Layer = Catalog | Presentation | Permission | UserOverlay | ProgressLayer

  datatype Key = Global(layer: Layer) | PerUser(user: int, layer: Layer)

  // ----- which keys a row change concerns -----

  datatype Table =
    | MediaItems | TechnicalMetadata | GenreGroups | LibrarySources | AgeRequirements | AgeGroupLinks
    | GlobalHiddenItems | GlobalHiddenKeys | Users | UserSettings | UserHiddenSources | UserHiddenItems
    | UserHiddenKeys | PlaybackProgress

  /** The user a row belongs to, and for a settings row whether its key is one of the tracked settings. */
  datatype Row = Row(user: int, tracked: bool)

  /** A change of one row. For an update, `changed` names the layers whose tracked columns differ. */
  datatype Change =
    | Inserted(table: Table, row: Row)
    | Deleted(table: Table, row: Row)
    | Updated(table: Table, before: Row, after: Row, changed: set<Layer>)

  function LayersOf(table: Table): set<Layer> {
    match table
    case MediaItems | TechnicalMetadata | GenreGroups => {Catalog}
    case LibrarySources => {Catalog, Permission}
    case AgeRequirements | AgeGroupLinks | GlobalHiddenItems | GlobalHiddenKeys | Users => {Permission}
    case UserSettings => {Presentation}
    case UserHiddenSources | UserHiddenItems | UserHiddenKeys => {UserOverlay}
    case PlaybackProgress => {ProgressLayer}
  }

  predicate UserScoped(table: Table) {
    table.Users? || table.UserSettings? || table.UserHiddenSources? || table.UserHiddenItems? ||
        table.UserHiddenKeys? || table.PlaybackProgress?
  }

  function KeyFor(table: Table, row: Row, layer: Layer): Key {
    if UserScoped(table) then PerUser(row.user, layer) else Global(layer)
  }

  /** The user column is one of the tracked columns of every user-scoped table. */
  predicate Plausible(c: Change) {
    c.Updated? && UserScoped(c.table) && c.before.user != c.after.user ==> c.changed >= LayersOf(c.table)
  }

  /** The triggers that fire on a change, by the key they claim: one for the new scope, and one for the old
      scope when an update moves the row to another user. */
  function Fired(c: Change): set<Key> {
    match c
    case Inserted(table, row) =>
      set layer | layer in LayersOf(table) && (table.UserSettings? ==> row.tracked) :: KeyFor(table, row, layer)
    case Deleted(table, row) =>
      set layer | layer in LayersOf(table) && (table.UserSettings? ==> row.tracked) :: KeyFor(table, row, layer)
    case Updated(table, before, after, changed) =>
      var relevant := table.UserSettings? ==> before.tracked || after.tracked;
      (set layer | layer in LayersOf(table) && relevant && layer in changed :: KeyFor(table, after, layer)) +
      (set layer | layer in LayersOf(table) && relevant && UserScoped(table) &&
          before.user != after.user :: KeyFor(table, before, layer))
  }

  /** Moving a row between users concerns both. */
  lemma MoveConcernsBoth(c: Change, layer: Layer)
    requires c.Updated? && Plausible(c) && UserScoped(c.table) && c.before.user != c.after.user &&
             layer in LayersOf(c.table)
    requires c.table.UserSettings? ==> c.before.tracked || c.after.tracked
    ensures PerUser(c.before.user, layer) in Fired(c) && PerUser(c.after.user, layer) in Fired(c)
  {
    assert KeyFor(c.table, c.before, layer) == PerUser(c.before.user, layer);
    assert KeyFor(c.table, c.after, layer) == PerUser(c.after.user, layer);
  }

  // ----- the machine -----

  type Counters = map<Key, nat>

  function Get(counters: Counters, key: Key): nat {
    if key in counters then counters[key] else 0
  }

  /** One statement inside a transaction: it claims some keys, or it works on the savepoint stack. */
  datatype Op = Touch(keys: set<Key>) | Savepoint | RollbackTo | Release

  /** Durable counters, the transaction's view, the open savepoints and the connection's claims. */
  datatype State = State(durable: Counters, view: Counters, saves: seq<Counters>, claims: set<Key>)

  function Bumped(counters: Counters, keys: set<Key>): (r: Counters)
    ensures forall k :: Get(r, k) == Get(counters, k) + if k in keys then 1 else 0
  {
    map k | k in counters.Keys + keys :: Get(counters, k) + if k in keys then 1 else 0
  }

  function Step(s: State, op: Op): State {
    match op
    case Touch(keys) => s.(view := Bumped(s.view, keys - s.claims), claims := s.claims + keys)
    case Savepoint => s.(saves := s.saves + [s.view])
    case RollbackTo => if s.saves == [] then s else s.(view := s.saves[|s.saves| - 1])
    case Release => if s.saves == [] then s else s.(saves := s.saves[..|s.saves| - 1])
  }

  function Steps(s: State, body: seq<Op>): State
    decreases |body|
  {
    if body == [] then s else Steps(Step(s, body[0]), body[1..])
  }

  datatype Transaction = Transaction(body: seq<Op>, commits: bool)

  function Finish(s: State, commits: bool): State {
    var durable := if commits then s.view else s.durable;
    State(durable, durable, [], {})
  }

  function RunAll(s: State, history: seq<Transaction>): State
    decreases |history|
  {
    if history == [] then s else RunAll(Finish(Steps(s, history[0].body), history[0].commits), history[1..])
  }

  function Initial(): State {
    State(map[], map[], [], {})
  }

  // ----- what a transaction should count -----

  /** Whether an effect made before `rest` is still there after it: `inner` savepoints were opened since,
      `outer` ones were open already. A rollback to an outer savepoint undoes it. */
  predicate Survives(rest: seq<Op>, inner: nat, outer: nat)
    decreases |rest|
  {
    if rest == [] then true
    else match rest[0]
      case Touch(_) => Survives(rest[1..], inner, outer)
      case Savepoint => Survives(rest[1..], inner + 1, outer)
      case RollbackTo => if inner == 0 && outer > 0 then false else Survives(rest[1..], inner, outer)
      case Release =>
        if inner > 0 then Survives(rest[1..], inner - 1, outer)
        else if outer > 0 then Survives(rest[1..], 0, outer - 1)
        else Survives(rest[1..], 0, 0)
  }

  /** The first statement of the transaction that concerns the key exists and is not rolled back. */
  predicate FirstTouchSurvives(body: seq<Op>, key: Key, depth: nat)
    decreases |body|
  {
    if body == [] then false
    else match body[0]
      case Touch(keys) => if key in keys then Survives(body[1..], 0, depth)
          else FirstTouchSurvives(body[1..], key, depth)
      case Savepoint => FirstTouchSurvives(body[1..], key, depth + 1)
      case RollbackTo => FirstTouchSurvives(body[1..], key, depth)
      case Release => FirstTouchSurvives(body[1..], key, if depth > 0 then depth - 1 else 0)
  }

  predicate Touches(body: seq<Op>, key: Key) {
    exists k :: 0 <= k < |body| && body[k].Touch? && key in body[k].keys
  }

  function Counted(history: seq<Transaction>, key: Key): nat
    decreases |history|
  {
    if history == [] then 0
    else
      (if history[0].commits && FirstTouchSurvives(history[0].body, key, 0) then 1 else 0) + Counted(history[1..], key)
  }

  // ----- claimed keys -----

  /** Once a key is claimed, its counter only ever moves between the values on the stack. */
  ghost predicate ClaimedState(s: State, key: Key, inner: nat, outer: nat, base: nat, now: nat) {
    && key in s.claims && |s.saves| == outer + inner
    && Get(s.view, key) == now
    && (forall i :: 0 <= i < outer ==> Get(s.saves[i], key) == base)
    && (forall i :: outer <= i < outer + inner ==> Get(s.saves[i], key) == now)
  }

  lemma {:induction false} ClaimedRun(s: State, rest: seq<Op>, key: Key, inner: nat, outer: nat, base: nat, now: nat)
    requires ClaimedState(s, key, inner, outer, base, now)
    ensures Get(Steps(s, rest).view, key) == if Survives(rest, inner, outer) then now else base
    decreases |rest|
  {
    if rest != [] {
      var t := Step(s, rest[0]);
      match rest[0]
      case Touch(keys) => ClaimedRun(t, rest[1..], key, inner, outer, base, now);
      case Savepoint => ClaimedRun(t, rest[1..], key, inner + 1, outer, base, now);
      case RollbackTo =>
        if inner == 0 && outer > 0 {
          // From here on every value on the stack is the base value.
          ClaimedRun(t, rest[1..], key, 0, outer, base, base);
        } else {
          ClaimedRun(t, rest[1..], key, inner, outer, base, now);
        }
      case Release =>
        if inner > 0 {
          ClaimedRun(t, rest[1..], key, inner - 1, outer, base, now);
        } else if outer > 0 {
          ClaimedRun(t, rest[1..], key, 0, outer - 1, base, now);
        } else {
          ClaimedRun(t, rest[1..], key, 0, 0, base, now);
        }
    }
  }

  /** An unclaimed key has one value everywhere. */
  ghost predicate UnclaimedState(s: State, key: Key, depth: nat, base: nat) {
    && key !in s.claims && |s.saves| == depth && Get(s.view, key) == base
    && (forall i :: 0 <= i < depth ==> Get(s.saves[i], key) == base)
  }

  /** A transaction bumps a counter by one exactly when its first statement for the key survives. */
  lemma {:induction false} TransactionCounts(s: State, body: seq<Op>, key: Key, depth: nat, base: nat)
    requires UnclaimedState(s, key, depth, base)
    ensures Get(Steps(s, body).view, key) == base + if FirstTouchSurvives(body, key, depth) then 1 else 0
    decreases |body|
  {
    if body != [] {
      var t := Step(s, body[0]);
      match body[0]
      case Touch(keys) =>
        if key in keys {
          assert ClaimedState(t, key, 0, depth, base, base + 1);
          ClaimedRun(t, body[1..], key, 0, depth, base, base + 1);
        } else {
          TransactionCounts(t, body[1..], key, depth, base);
        }
      case Savepoint => TransactionCounts(t, body[1..], key, depth + 1, base);
      case RollbackTo => TransactionCounts(t, body[1..], key, depth, base);
      case Release => TransactionCounts(t, body[1..], key, if depth > 0 then depth - 1 else 0, base);
    }
  }

  // ----- whole histories -----

  /** Between transactions nothing is claimed and nothing is pending. */
  predicate Idle(s: State) {
    s.view == s.durable && s.saves == [] && s.claims == {}
  }

  /** A transaction never changes the durable counters before it commits. */
  lemma {:induction false} DurableUntilCommit(s: State, body: seq<Op>)
    ensures Steps(s, body).durable == s.durable
    decreases |body|
  {
    if body != [] {
      DurableUntilCommit(Step(s, body[0]), body[1..]);
    }
  }

  /** A counter is the number of committed transactions whose first statement for the key survived. */
  lemma {:induction false} CounterIsCommittedChanges(s: State, history: seq<Transaction>, key: Key)
    requires Idle(s)
    ensures Idle(RunAll(s, history))
    ensures Get(RunAll(s, history).durable, key) == Get(s.durable, key) + Counted(history, key)
    decreases |history|
  {
    if history != [] {
      var done := Steps(s, history[0].body);
      TransactionCounts(s, history[0].body, key, 0, Get(s.durable, key));
      DurableUntilCommit(s, history[0].body);
      CounterIsCommittedChanges(Finish(done, history[0].commits), history[1..], key);
    }
  }

  /** Rolled-back transactions leave no trace. */
  lemma {:induction false} RolledBackUnseen(s: State, history: seq<Transaction>, i: nat)
    requires Idle(s) && i < |history| && !history[i].commits
    ensures RunAll(s, history) == RunAll(s, history[..i] + history[i + 1..])
    decreases |history|
  {
    var rest := history[..i] + history[i + 1..];
    DurableUntilCommit(s, history[0].body);
    if i == 0 {
      assert rest == history[1..];
      assert Finish(Steps(s, history[0].body), false) == s;
    } else {
      assert rest[0] == history[0] && rest[1..] == history[1..][..i - 1] + history[1..][i..];
      RolledBackUnseen(Finish(Steps(s, history[0].body), history[0].commits), history[1..], i - 1);
    }
  }

  predicate NoPartialRollback(body: seq<Op>) {
    forall k :: 0 <= k < |body| ==> !body[k].RollbackTo?
  }

  lemma {:induction false} SurvivesWithoutRollback(rest: seq<Op>, inner: nat, outer: nat)
    requires NoPartialRollback(rest)
    ensures Survives(rest, inner, outer)
    decreases |rest|
  {
    if rest != [] {
      assert NoPartialRollback(rest[1..]);
      SurvivesWithoutRollback(rest[1..], if rest[0].Savepoint? then inner + 1 else if rest[0].Release? && inner > 0
          then inner - 1 else inner,
                              if rest[0].Release? && inner == 0 && outer > 0 then outer - 1 else outer);
    }
  }

  /** Without partial rollbacks, a transaction counts for a key exactly when it touches it. */
  lemma {:induction false} TouchCounts(body: seq<Op>, key: Key, depth: nat)
    requires NoPartialRollback(body)
    ensures FirstTouchSurvives(body, key, depth) <==> Touches(body, key)
    decreases |body|
  {
    if body != [] {
      assert NoPartialRollback(body[1..]);
      assert forall k :: 0 <= k < |body[1..]| ==> body[1..][k] == body[k + 1];
      if body[0].Touch? && key in body[0].keys {
        SurvivesWithoutRollback(body[1..], 0, depth);
      } else {
        TouchCounts(body[1..], key, if body[0].Savepoint? then depth + 1 else if body[0].Release? && depth > 0
            then depth - 1 else depth);
        if Touches(body, key) {
          var k :| 0 <= k < |body| && body[k].Touch? && key in body[k].keys;
          assert body[1..][k - 1] == body[k];
        }
      }
    }
  }

  /** A committed transaction that, without partial rollbacks, moves a row from one user to another raises the counters
      of
      both by exactly one, in every layer of the table. */
  lemma MoveRaisesBoth(s: State, body: seq<Op>, c: Change, layer: Layer, user: int)
    requires Idle(s) && NoPartialRollback(body) && exists k :: 0 <= k < |body| && body[k] == Touch(Fired(c))
    requires c.Updated? && Plausible(c) && UserScoped(c.table) && c.before.user != c.after.user &&
             layer in LayersOf(c.table)
    requires c.table.UserSettings? ==> c.before.tracked || c.after.tracked
    requires user == c.before.user || user == c.after.user
    ensures var key := PerUser(user, layer);
            Get(Finish(Steps(s, body), true).durable, key) == Get(s.durable, key) + 1
  {
    var key := PerUser(user, layer);
    MoveConcernsBoth(c, layer);
    TransactionCounts(s, body, key, 0, Get(s.durable, key));
    TouchCounts(body, key, 0);
    hide Fired; hide Steps; hide FirstTouchSurvives;
    assert Touches(body, key);
  }

  function CommittedTouching(history: seq<Transaction>, key: Key): nat
    decreases |history|
  {
    if history == [] then 0
    else (if history[0].commits && Touches(history[0].body, key) then 1 else 0) + CommittedTouching(history[1..], key)
  }

  /** Without partial rollbacks a counter is the number of committed transactions that touched its key. */
  lemma {:induction false} CounterIsCommittedTouches(history: seq<Transaction>, key: Key)
    requires forall k :: 0 <= k < |history| ==> NoPartialRollback(history[k].body)
    ensures Get(RunAll(Initial(), history).durable, key) == CommittedTouching(history, key)
  {
    CounterIsCommittedChanges(Initial(), history, key);
    CountsAgree(history, key);
  }

  lemma {:induction false} CountsAgree(history: seq<Transaction>, key: Key)
    requires forall k :: 0 <= k < |history| ==> NoPartialRollback(history[k].body)
    ensures Counted(history, key) == CommittedTouching(history, key)
    decreases |history|
  {
    if history != [] {
      TouchCounts(history[0].body, key, 0);
      CountsAgree(history[1..], key);
    }
  }

  /** With a partial rollback the count can fall behind: the claim outlives the undone bump, so a later change
      of the same transaction is committed without a new revision. */
  lemma PartialRollbackLosesRevision(key: Key)
    ensures var body := [Savepoint, Touch({key}), RollbackTo, Release, Touch({key})];
            && Touches(body, key)
            && Get(RunAll(Initial(), [Transaction(body, true)]).durable, key) == 0
  {
    var body := [Savepoint, Touch({key}), RollbackTo, Release, Touch({key})];
    assert body[4].Touch? && key in body[4].keys;
    var history := [Transaction(body, true)];
    CounterIsCommittedChanges(Initial(), history, key);
    assert body[1..] == [Touch({key}), RollbackTo, Release, Touch({key})];
    assert body[1..][1..] == [RollbackTo, Release, Touch({key})];
    assert !Survives(body[1..][1..], 0, 1);
    assert !FirstTouchSurvives(body[1..], key, 1);
    assert !FirstTouchSurvives(body, key, 0);
    assert history[1..] == [];
    assert Counted(history, key) == 0;
  }

  // ----- the connection object -----

  class ElvernConnection {
    var durable: Counters
    var view: Counters
    var saves: seq<Counters>
    var claims: set<Key>

    function Now(): State
      reads this
    {
      State(durable, view, saves, claims)
    }

    constructor (durable: Counters)
      ensures Now() == State(durable, durable, [], {})
    {
      this.durable, view, saves, claims := durable, durable, [], {};
    }

    /** True once per key and transaction. */
    method Claim(key: Key) returns (granted: bool)
      modifies this`claims
      ensures granted <==> key !in old(claims)
      ensures claims == old(claims) + {key}
    {
      granted := key !in claims;
      if granted {
        claims := claims + {key};
      }
    }

    /** The trigger body: an upsert that starts a counter at one. */
    method Bump(key: Key)
      modifies this`view, this`claims
      ensures Now() == Step(old(Now()), Touch({key}))
    {
      var granted := Claim(key);
      if granted {
        view := if key in view then view[key := view[key] + 1] else view[key := 1];
      }
      assert view == Bumped(old(view), {key} - old(claims));
    }

    /** All triggers of one statement, in whatever order the database runs them. */
    method Execute(c: Change)
      modifies this`view, this`claims
      ensures Now() == Step(old(Now()), Touch(Fired(c)))
    {
      var todo := Fired(c);
      ghost var all := todo;
      ghost var start := Now();
      assert Bumped(view, {}) == view;
      while todo != {}
        invariant todo <= all
        invariant Now() == Step(start, Touch(all - todo))
        decreases todo
      {
        var key :| key in todo;
        Bump(key);
        TouchTwice(start, all - todo, key);
        assert all - (todo - {key}) == all - todo + {key};
        todo := todo - {key};
      }
      assert all - todo == all;
    }

    method Save()
      modifies this`saves
      ensures Now() == Step(old(Now()), Savepoint)
    {
      saves := saves + [view];
    }

    method RollbackToSavepoint()
      modifies this`view
      ensures Now() == Step(old(Now()), RollbackTo)
    {
      if saves != [] {
        view := saves[|saves| - 1];
      }
    }

    method ReleaseSavepoint()
      modifies this`saves
      ensures Now() == Step(old(Now()), Release)
    {
      if saves != [] {
        saves := saves[..|saves| - 1];
      }
    }

    method Commit()
      modifies this
      ensures Now() == Finish(old(Now()), true)
    {
      durable, saves := view, [];
      claims := {};
    }

    method Rollback()
      modifies this
      ensures Now() == Finish(old(Now()), false)
    {
      view, saves := durable, [];
      claims := {};
    }
  }

  lemma TouchTwice(s: State, keys: set<Key>, key: Key)
    ensures Step(Step(s, Touch(keys)), Touch({key})) == Step(s, Touch(keys + {key}))
  {
    var l, r := Step(Step(s, Touch(keys)), Touch({key})), Step(s, Touch(keys + {key}));
    assert l.claims == r.claims;
    forall k ensures Get(l.view, k) == Get(r.view, k) {}
    assert l.view.Keys == s.view.Keys + (keys - s.claims) + ({key} - (s.claims + keys));
    assert r.view.Keys == s.view.Keys + (keys + {key} - s.claims);
    assert l.view == r.view;
  }
}
