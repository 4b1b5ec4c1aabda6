/** Runs of atomic write, consume and cleanup transactions on the recovery arm store. */
module RecoveryRuns {
  import opened RecoveryArms

  datatype Event =
    | Write(scope: string, client: string, nonce: string, expiresAt: int, now: int)
    | Consume(scope: string, client: string, now: int)
    | Cleanup(now: int)

  function ArmOf(e: Event): Arm
    requires e.Write?
  {
    Arm(1, e.scope, e.client, e.nonce, e.expiresAt, e.now)
  }

  /** One transaction; the order in which a write lists the store is not fixed. */
  ghost predicate Step(records: Store, e: Event, accepted: bool, records': Store) {
    match e
    case Write(_, _, _, _, _) =>
      !accepted && exists keys, all :: Lists(records, keys, all) && records' == AfterWrite(records, all, ArmOf(e))
    case Consume(scope, client, now) =>
      (accepted <==> Accepted(records, scope, client, now)) && records' == AfterConsume(records, scope, client, now)
    case Cleanup(now) => !accepted && records' == AfterCleanup(records, now)
  }

  datatype Trace = Trace(events: seq<Event>, accepted: seq<bool>, states: seq<Store>)

  /** A run from the empty store. */
  ghost predicate IsRun(t: Trace) {
    && |t.states| == |t.events| + 1 && |t.accepted| == |t.events| && t.states[0] == map[]
    && forall n :: 0 <= n < |t.events| ==> Step(t.states[n], t.events[n], t.accepted[n], t.states[n + 1])
  }

  ghost predicate ClockNeverBack(t: Trace) {
    forall m, n :: 0 <= m < n < |t.events| ==> t.events[m].now <= t.events[n].now
  }

  /** Writes and consumes take away what is held under their key. */
  predicate Touches(e: Event, key: string) {
    || (e.Write? && Key(e.scope, e.client) == key)
    || (e.Consume? && e.client != "" && Key(e.scope, e.client) == key)
  }

  /** The arm was written by event i, and nothing up to n has touched its key since. */
  ghost predicate From(t: Trace, i: int, n: nat, arm: Arm) {
    && 0 <= i < n <= |t.events| && t.events[i].Write? && arm == ArmOf(t.events[i])
    && forall m :: i < m < n ==> !Touches(t.events[m], KeyOf(arm))
  }

  ghost predicate HasSource(t: Trace, n: nat, arm: Arm) {
    exists i :: From(t, i, n, arm)
  }

  ghost predicate Explained(t: Trace, n: nat, records: Store) {
    && Keyed(records) && |records| <= MAX_RECORDS
    && forall k :: k in records ==> HasSource(t, n, records[k])
  }

  /** What one transaction leaves: only records that were there and are not touched, and for a write its own. */
  ghost predicate Kept(records: Store, e: Event, records': Store) {
    && Keyed(records') && |records'| <= MAX_RECORDS
    && (forall k :: k in records' && !(e.Write? && k == Key(e.scope, e.client)) ==>
          k in records && records'[k] == records[k] && !Touches(e, k))
    && (e.Write? ==> Written(records, records', ArmOf(e)))
  }

  lemma WriteKept(records: Store, e: Event, records': Store)
    requires e.Write? && Written(records, records', ArmOf(e))
    ensures Kept(records, e, records')
  {
    hide Key;
  }

  lemma TakenKept(records: Store, e: Event, records': Store)
    requires Keyed(records) && |records| <= MAX_RECORDS && !e.Write?
    requires records' == if e.Consume? then AfterConsume(records, e.scope, e.client, e.now)
             else AfterCleanup(records, e.now)
    ensures Kept(records, e, records')
  {
    hide Key; hide Accepts;
    SmallerStore(records', records);
  }

  lemma StepKept(records: Store, e: Event, accepted: bool, records': Store)
    requires Keyed(records) && |records| <= MAX_RECORDS && Step(records, e, accepted, records')
    requires e.Write? ==> NothingYounger(records, ArmOf(e))
    ensures Kept(records, e, records')
  {
    if e.Write? {
      var keys, all :| Lists(records, keys, all) && records' == AfterWrite(records, all, ArmOf(e));
      WriteOutcome(records, keys, all, ArmOf(e));
      hide *;
      WriteKept(records, e, records');
    } else {
      TakenKept(records, e, records');
    }
  }

  lemma KeptAt(t: Trace, n: nat)
    requires IsRun(t) && ClockNeverBack(t) && n < |t.events| && Explained(t, n, t.states[n])
    ensures Kept(t.states[n], t.events[n], t.states[n + 1])
  {
    hide Key;
    if t.events[n].Write? {
      OldRecordsNotYounger(t, n);
    }
    hide Step;
    StepKept(t.states[n], t.events[n], t.accepted[n], t.states[n + 1]);
  }

  lemma SmallerStore(small: Store, large: Store)
    requires small.Keys <= large.Keys
    ensures |small| <= |large|
  {
    KeysSubset(small.Keys, large.Keys);
    assert |small| == |small.Keys| && |large| == |large.Keys|;
  }

  lemma {:induction false} KeysSubset<T>(a: set<T>, b: set<T>)
    requires a <= b
    ensures |a| <= |b|
  {
    if a != {} {
      var x :| x in a;
      KeysSubset(a - {x}, b - {x});
    }
  }

  lemma OldRecordsNotYounger(t: Trace, n: nat)
    requires IsRun(t) && ClockNeverBack(t) && n < |t.events| && Explained(t, n, t.states[n]) && t.events[n].Write?
    ensures NothingYounger(t.states[n], ArmOf(t.events[n]))
  {
    forall k | k in t.states[n] ensures t.states[n][k].createdAt <= t.events[n].now {
      var i :| From(t, i, n, t.states[n][k]);
    }
  }

  /** In every state of a run there are at most 32 arms, and each comes from a write whose key nothing has touched
      since. */
  lemma {:induction false} EveryStateExplained(t: Trace, n: nat)
    requires IsRun(t) && ClockNeverBack(t) && n <= |t.events|
    ensures Explained(t, n, t.states[n])
  {
    hide Step; hide Key; hide Written; hide Kept; hide Explained; hide ClockNeverBack; hide From;
    if n == 0 {
      ExplainedEmpty(t);
    } else {
      EveryStateExplained(t, n - 1);
      KeptAt(t, n - 1);
      ExplainedNext(t, n - 1, t.states[n - 1], t.states[n]);
    }
  }

  lemma ExplainedEmpty(t: Trace)
    ensures Explained(t, 0, map[])
  {
  }

  lemma ExplainedNext(t: Trace, n: nat, records: Store, records': Store)
    requires n < |t.events| && Explained(t, n, records) && Kept(records, t.events[n], records')
    ensures Explained(t, n + 1, records')
  {
    hide Key; hide Written;
    var e := t.events[n];
    forall k | k in records' ensures HasSource(t, n + 1, records'[k]) {
      if e.Write? && k == Key(e.scope, e.client) {
        OwnRecord(records, e, records');
        assert From(t, n, n + 1, records'[k]);
      } else {
        var i :| From(t, i, n, records[k]);
        FromLater(t, i, n, records[k]);
      }
    }
  }

  lemma FromLater(t: Trace, i: int, n: nat, arm: Arm)
    requires From(t, i, n, arm) && n < |t.events| && !Touches(t.events[n], KeyOf(arm))
    ensures From(t, i, n + 1, arm)
  {
    hide Key;
  }

  lemma OwnRecord(records: Store, e: Event, records': Store)
    requires e.Write? && Kept(records, e, records')
    ensures Key(e.scope, e.client) in records' && records'[Key(e.scope, e.client)] == ArmOf(e)
  {
  }

  // ----- single use -----

  /** Event j uses the arm written by event i. */
  ghost predicate Uses(t: Trace, i: int, j: int) {
    && 0 <= i < j < |t.events| && t.events[i].Write? && t.events[j].Consume?
    && t.events[i].scope == t.events[j].scope && t.events[i].client == t.events[j].client
    && |t.events[i].nonce| >= MIN_NONCE && t.events[j].now < t.events[i].expiresAt
    && forall m :: i < m < j ==> !Touches(t.events[m], Key(t.events[i].scope, t.events[i].client))
  }

  /** An accepted consume uses an arm that the same client wrote, before it expires and before anything else touched its
      key. */
  lemma AcceptedByWriter(t: Trace, j: nat)
    requires IsRun(t) && ClockNeverBack(t) && j < |t.events| && t.accepted[j]
    ensures exists i :: Uses(t, i, j)
  {
    EveryStateExplained(t, j);
    assert Step(t.states[j], t.events[j], t.accepted[j], t.states[j + 1]);
    var k :| k in t.states[j] && Accepts(t.states[j][k], t.events[j].scope, t.events[j].client, t.events[j].now);
    var i :| From(t, i, j, t.states[j][k]);
    assert Uses(t, i, j);
  }

  /** No arm is used twice. */
  lemma UsedOnce(t: Trace, i: int, j: int, j': int)
    requires IsRun(t) && Uses(t, i, j) && Uses(t, i, j') && t.accepted[j] && t.accepted[j']
    ensures j == j'
  {
    assert Step(t.states[j], t.events[j], t.accepted[j], t.states[j + 1]);
    assert Step(t.states[j'], t.events[j'], t.accepted[j'], t.states[j' + 1]);
    assert Touches(t.events[j], Key(t.events[j].scope, t.events[j].client));
    assert Touches(t.events[j'], Key(t.events[j'].scope, t.events[j'].client));
  }

  function Used(e: Event, scope: string, client: string): nat {
    if e.Consume? && e.scope == scope && e.client == client then 1 else 0
  }

  function AcceptCount(events: seq<Event>, accepted: seq<bool>, scope: string, client: string): nat
    requires |events| == |accepted|
  {
    if events == [] then 0
    else
      var n := |events| - 1;
      AcceptCount(events[..n], accepted[..n], scope, client) + if accepted[n] then Used(events[n], scope, client) else 0
  }

  function WriteCount(events: seq<Event>, scope: string, client: string): nat {
    if events == [] then 0
    else
      var n := |events| - 1;
      WriteCount(events[..n], scope, client) +
      if events[n].Write? && events[n].scope == scope && events[n].client == client then 1 else 0
  }

  /** An arm of the client that is waiting in the store. */
  function Waiting(records: Store, scope: string, client: string): nat {
    var key := Key(scope, client);
    if key in records && records[key].scope == scope && records[key].client == client then 1 else 0
  }

  lemma BudgetStep(records: Store, e: Event, accepted: bool, records': Store, scope: string, client: string)
    requires Keyed(records) && Step(records, e, accepted, records') && Kept(records, e, records')
    ensures Waiting(records', scope, client) + (if accepted then Used(e, scope, client) else 0)
         <= Waiting(records, scope, client) + if e.Write? && e.scope == scope && e.client == client then 1 else 0
  {
    hide Key;
    if e.Write? {
      OwnRecord(records, e, records');
    }
  }

  lemma {:induction false} BudgetAt(t: Trace, n: nat, scope: string, client: string)
    requires IsRun(t) && ClockNeverBack(t) && n <= |t.events|
    ensures AcceptCount(t.events[..n], t.accepted[..n], scope, client) + Waiting(t.states[n], scope, client)
         <= WriteCount(t.events[..n], scope, client)
  {
    hide Step; hide Key; hide Written; hide Kept; hide ClockNeverBack; hide Used; hide HasSource;
    if n > 0 {
      hide Waiting;
      var m := n - 1;
      BudgetAt(t, m, scope, client);
      EveryStateExplained(t, m);
      KeptAt(t, m);
      assert Step(t.states[m], t.events[m], t.accepted[m], t.states[m + 1]);
      assert t.events[..n][..m] == t.events[..m] && t.accepted[..n][..m] == t.accepted[..m];
      BudgetStep(t.states[m], t.events[m], t.accepted[m], t.states[n], scope, client);
    }
  }

  /** Over any run, a client's accepted consumes never outnumber its writes. */
  lemma AcceptsWithinWrites(t: Trace, scope: string, client: string)
    requires IsRun(t) && ClockNeverBack(t)
    ensures AcceptCount(t.events, t.accepted, scope, client) <= WriteCount(t.events, scope, client)
  {
    var n := |t.events|;
    BudgetAt(t, n, scope, client);
    assert t.events[..n] == t.events && t.accepted[..n] == t.accepted;
  }

  // ----- survival -----

  /** The other writes before event j that are at least as young as event i. */
  ghost function AsYoung(t: Trace, i: int, j: nat): set<int>
    requires 0 <= i < |t.events| && j <= |t.events|
  {
    set m | 0 <= m < j && m != i && t.events[m].Write? && t.events[m].now >= t.events[i].now
  }

  /** Distinct keys that all come from writes in a set are no more than the set. */
  lemma {:induction false} KeysFromWrites(t: Trace, keys: set<string>, writes: set<int>)
    requires forall m :: m in writes ==> 0 <= m < |t.events| && t.events[m].Write?
    requires forall k :: k in keys ==> exists m :: m in writes && KeyOf(ArmOf(t.events[m])) == k
    ensures |keys| <= |writes|
    decreases |writes|
  {
    if keys != {} {
      var some :| some in keys;
      var m :| m in writes && KeyOf(ArmOf(t.events[m])) == some;
      var k := KeyOf(ArmOf(t.events[m]));
      KeysFromWrites(t, keys - {k}, writes - {m});
      KeysSubset(keys, (keys - {k}) + {k});
    }
  }

  ghost predicate NoneOlder(records: Store, time: int) {
    forall k :: k in records ==> time <= records[k].createdAt
  }

  /** An eviction needs 32 other arms at least as young. */
  lemma EvictionNeedsOthers(t: Trace, i: int, n: nat)
    requires IsRun(t) && ClockNeverBack(t) && n < |t.events| && 0 <= i < n && t.events[i].Write?
    requires Explained(t, n + 1, t.states[n + 1])
    requires |t.states[n + 1]| == MAX_RECORDS && KeyOf(ArmOf(t.events[i])) !in t.states[n + 1]
    requires NoneOlder(t.states[n + 1], t.events[i].now)
    ensures |AsYoung(t, i, n + 1)| >= MAX_RECORDS
  {
    var records := t.states[n + 1];
    forall k | k in records.Keys
      ensures exists m :: m in AsYoung(t, i, n + 1) && KeyOf(ArmOf(t.events[m])) == k
    {
      var m :| From(t, m, n + 1, records[k]);
      assert m in AsYoung(t, i, n + 1);
    }
    KeysFromWrites(t, records.Keys, AsYoung(t, i, n + 1));
    assert |records.Keys| == |records|;
  }

  ghost predicate Holds(records: Store, arm: Arm) {
    KeyOf(arm) in records && records[KeyOf(arm)] == arm
  }

  lemma FromEarlier(t: Trace, i: int, n: nat, arm: Arm)
    requires From(t, i, n + 1, arm) && i < n
    ensures From(t, i, n, arm) && !Touches(t.events[n], KeyOf(arm))
  {
    hide Key;
  }

  lemma AsYoungGrows(t: Trace, i: int, n: nat)
    requires 0 <= i < |t.events| && n < |t.events|
    ensures |AsYoung(t, i, n)| <= |AsYoung(t, i, n + 1)|
  {
    KeysSubset(AsYoung(t, i, n), AsYoung(t, i, n + 1));
  }

  lemma StillHeld(t: Trace, i: int, n: nat, arm: Arm)
    requires IsRun(t) && ClockNeverBack(t) && 0 <= i < n < |t.events| && t.events[i].Write? && arm == ArmOf(t.events[i])
    requires Holds(t.states[n], arm) && !Touches(t.events[n], KeyOf(arm)) && t.events[n].now < t.events[i].expiresAt
    requires |AsYoung(t, i, n + 1)| < MAX_RECORDS
    ensures Holds(t.states[n + 1], arm)
  {
    hide Key; hide Step; hide From; hide AsYoung; hide Written; hide Kept; hide ClockNeverBack;
    hide Touches; hide HasSource; hide NoneOlder;
    EveryStateExplained(t, n);
    EveryStateExplained(t, n + 1);
    KeptAt(t, n);
    assert Step(t.states[n], t.events[n], t.accepted[n], t.states[n + 1]);
    if KeyOf(arm) !in t.states[n + 1] {
      LostToEviction(t.states[n], t.events[n], t.accepted[n], t.states[n + 1], arm);
      EvictionNeedsOthers(t, i, n);
    } else {
      NotReplaced(t.states[n], t.events[n], t.states[n + 1], arm);
    }
  }

  lemma NotReplaced(records: Store, e: Event, records': Store, arm: Arm)
    requires Kept(records, e, records') && !Touches(e, KeyOf(arm)) && Holds(records, arm) && KeyOf(arm) in records'
    ensures Holds(records', arm)
  {
    hide Key;
  }

  lemma {:induction false} StillThere(t: Trace, i: int, n: nat, arm: Arm)
    requires IsRun(t) && ClockNeverBack(t) && 0 <= i < n <= |t.events| && t.events[i].Write? &&
             arm == ArmOf(t.events[i])
    requires From(t, i, n, arm) && t.events[n - 1].now < t.events[i].expiresAt
    requires |AsYoung(t, i, n)| < MAX_RECORDS
    ensures Holds(t.states[n], arm)
  {
    hide Key; hide Step; hide AsYoung; hide Touches; hide Kept; hide Written; hide HasSource;
    var m := n - 1;
    if m == i {
      EveryStateExplained(t, m);
      KeptAt(t, m);
      OwnRecord(t.states[m], t.events[m], t.states[n]);
    } else {
      FromEarlier(t, i, m, arm);
      AsYoungGrows(t, i, m);
      hide From; hide Holds;
      StillThere(t, i, m, arm);
      StillHeld(t, i, m, arm);
    }
  }

  /** An untouched, unexpired arm can only be lost to a write that leaves 32 arms, none of them older. */
  lemma LostToEviction(records: Store, e: Event, accepted: bool, records': Store, arm: Arm)
    requires Keyed(records) && Step(records, e, accepted, records') && Kept(records, e, records')
    requires KeyOf(arm) in records && records[KeyOf(arm)] == arm && !Touches(e, KeyOf(arm)) && e.now < arm.expiresAt
    requires KeyOf(arm) !in records'
    ensures |records'| == MAX_RECORDS && NoneOlder(records', arm.createdAt)
  {
    hide Key;
    if e.Write? {
      WrittenEvicts(records, records', ArmOf(e), arm);
    }
  }

  lemma WrittenEvicts(records: Store, records': Store, added: Arm, arm: Arm)
    requires Written(records, records', added)
    requires KeyOf(arm) in records && records[KeyOf(arm)] == arm && KeyOf(arm) != KeyOf(added) &&
             added.createdAt < arm.expiresAt
    requires KeyOf(arm) !in records'
    ensures |records'| == MAX_RECORDS && NoneOlder(records', arm.createdAt)
  {
    hide Key;
  }

  /** An arm that is neither expired, nor touched, nor pushed out by 32 others at least as young, is accepted. */
  lemma LiveArmAccepted(t: Trace, i: int, j: int)
    requires IsRun(t) && ClockNeverBack(t) && Uses(t, i, j) && t.events[j].client != ""
    requires |AsYoung(t, i, j)| < MAX_RECORDS
    ensures t.accepted[j]
  {
    assert From(t, i, j, ArmOf(t.events[i]));
    StillThere(t, i, j, ArmOf(t.events[i]));
    assert Step(t.states[j], t.events[j], t.accepted[j], t.states[j + 1]);
    assert Accepts(t.states[j][KeyOf(ArmOf(t.events[i]))], t.events[j].scope, t.events[j].client, t.events[j].now);
  }

  // ----- the clock matters -----

  lemma FirstWrite(arm: Arm)
    ensures AfterWrite(map[], [], arm) == map[KeyOf(arm) := arm]
  {
    SortedLast([], arm);
    assert Retained([], arm.createdAt, KeyOf(arm)) + [arm] == [] + [arm];
  }

  /** A write that finds one younger record stores a copy of that record under its own key, and not its own. */
  lemma OlderWriteCopies(held: Arm, arm: Arm)
    requires KeyOf(held) != KeyOf(arm) && !Expired(held, arm.createdAt) && arm.createdAt < held.createdAt
    ensures AfterWrite(map[KeyOf(held) := held], [held], arm) == map[KeyOf(held) := held, KeyOf(arm) := held]
  {
    var retained := Retained([held], arm.createdAt, KeyOf(arm));
    assert [held][..0] == [];
    assert Retained([], arm.createdAt, KeyOf(arm)) == [];
    assert retained == [] + [held];
    SortedLast([held], arm);
    SortedFacts([held] + [arm]);
    var sorted := Sorted([held] + [arm]);
    assert held in [held] + [arm] && sorted[1] in sorted;
    assert DroppedKeys([held], arm.createdAt, KeyOf(arm)) == {};
    assert KeySet(sorted[..0]) == {};
  }

  lemma BackwardWrites(held: Arm, arm: Arm, e0: Event, e1: Event, kb: string, ka: string)
    requires e0.Write? && e1.Write? && ArmOf(e0) == held && ArmOf(e1) == arm && KeyOf(held) == kb && KeyOf(arm) == ka
    requires ka != kb && !Expired(held, arm.createdAt) && arm.createdAt < held.createdAt
    ensures Step(map[], e0, false, map[kb := held]) && Step(map[kb := held], e1, false, map[kb := held, ka := held])
  {
    hide Key;
    FirstWrite(held);
    OlderWriteCopies(held, arm);
    hide AfterWrite;
    assert Lists(map[], [], []);
    assert Lists(map[kb := held], [kb], [held]);
  }

  lemma BackwardConsumes(held: Arm, kb: string, ka: string, scope: string, client: string, now: int)
    requires KeyOf(held) == kb && ka != kb && client != "" && Accepts(held, scope, client, now)
    ensures Step(map[kb := held, ka := held], Consume(scope, client, now), true, map[ka := held])
    ensures Step(map[ka := held], Consume(scope, client, now), true, map[ka := held])
  {
    hide Key;
    var s2, s3: Store := map[kb := held, ka := held], map[ka := held];
    assert s2[kb] == held && s3[ka] == held;
    assert (set k | k in s2 && Dropped(s2[k], now, kb) :: KeyOf(s2[k])) == {kb};
    assert (set k | k in s3 && Dropped(s3[k], now, kb) :: KeyOf(s3[k])) == {kb};
  }

  /** When the clock runs back between two writes, one arm is accepted twice. */
  lemma BackwardClockUsesTwice(scope: string, a: string, b: string, nonce: string, late: int, early: int,
                               expiresAt: int)
    requires Key(scope, a) != Key(scope, b) && b != "" && |nonce| >= MIN_NONCE && early < late < expiresAt
    ensures exists t ::
              IsRun(t) && WriteCount(t.events, scope, b) == 1 && AcceptCount(t.events, t.accepted, scope, b) == 2
  {
    var held, arm := Arm(1, scope, b, nonce, expiresAt, late), Arm(1, scope, a, nonce, expiresAt, early);
    var kb, ka := Key(scope, b), Key(scope, a);
    var e0, e1 := Write(scope, b, nonce, expiresAt, late), Write(scope, a, nonce, expiresAt, early);
    var e2 := Consume(scope, b, late);
    var s1, s2, s3 := map[kb := held], map[kb := held, ka := held], map[ka := held];
    hide Step; hide IsRun; hide WriteCount; hide AcceptCount;
    BackwardWrites(held, arm, e0, e1, kb, ka);
    BackwardConsumes(held, kb, ka, scope, b, late);
    var t := Trace([e0, e1, e2, e2], [false, false, true, true], [map[], s1, s2, s3, s3]);
    FourSteps(e0, e1, e2, s1, s2, s3);
    TwoUses(e0, e1, e2, scope, b);
    assert t.events == [] + [e0] + [e1] + [e2] + [e2] && t.accepted == [] + [false] + [false] + [true] + [true];
  }

  lemma FourSteps(e0: Event, e1: Event, e2: Event, s1: Store, s2: Store, s3: Store)
    requires Step(map[], e0, false, s1) && Step(s1, e1, false, s2) && Step(s2, e2, true, s3) && Step(s3, e2, true, s3)
    ensures IsRun(Trace([e0, e1, e2, e2], [false, false, true, true], [map[], s1, s2, s3, s3]))
  {
    hide Step;
  }

  lemma TwoUses(e0: Event, e1: Event, e2: Event, scope: string, client: string)
    requires e0.Write? && e0.scope == scope && e0.client == client && e1.Write? &&
             !(e1.scope == scope && e1.client == client)
    requires e2.Consume? && e2.scope == scope && e2.client == client
    ensures WriteCount([] + [e0] + [e1] + [e2] + [e2], scope, client) == 1
    ensures AcceptCount([] + [e0] + [e1] + [e2] + [e2], [] + [false] + [false] + [true] + [true], scope, client) == 2
  {
    assert WriteCount([], scope, client) == 0 && AcceptCount([], [], scope, client) == 0;
    hide WriteCount; hide AcceptCount;
    CountOne([], [], e0, false, scope, client);
    CountOne([] + [e0], [] + [false], e1, false, scope, client);
    CountOne([] + [e0] + [e1], [] + [false] + [false], e2, true, scope, client);
    CountOne([] + [e0] + [e1] + [e2], [] + [false] + [false] + [true], e2, true, scope, client);
  }

  lemma CountOne(events: seq<Event>, accepted: seq<bool>, e: Event, ok: bool, scope: string, client: string)
    requires |events| == |accepted|
    ensures WriteCount(events + [e], scope, client) == WriteCount(events, scope, client) +
              if e.Write? && e.scope == scope && e.client == client then 1 else 0
    ensures AcceptCount(events + [e], accepted + [ok], scope, client) == AcceptCount(events, accepted, scope, client) +
              if ok then Used(e, scope, client) else 0
  {
    var n := |events|;
    assert (events + [e])[..n] == events && (accepted + [ok])[..n] == accepted;
  }
}
