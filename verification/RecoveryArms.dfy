/** The bounded, expiring, single-use recovery arms that a service worker keeps in one object store. */
module RecoveryArms {
  datatype Arm = Arm(schemaVersion: int, scope: string, client: string, nonce: string, expiresAt: int, createdAt: int)

  const MAX_RECORDS := 32
  const MIN_NONCE := 16

  function Key(scope: string, client: string): string { scope + "::" + client }
  function KeyOf(a: Arm): string { Key(a.scope, a.client) }

  type Store = map<string, Arm>

  /** Every record is stored under the key computed from its own fields. */
  ghost predicate Keyed(records: Store) {
    forall k :: k in records ==> KeyOf(records[k]) == k
  }

  predicate Expired(a: Arm, now: int) { a.expiresAt <= now }

  predicate Dropped(a: Arm, now: int, key: string) { Expired(a, now) || KeyOf(a) == key }

  predicate Accepts(a: Arm, scope: string, client: string, now: int) {
    && !Expired(a, now) && a.schemaVersion == 1
    && a.scope == scope && a.client == client && |a.nonce| >= MIN_NONCE
  }

  // ----- the contents of the store as a list -----

  ghost predicate Lists(records: Store, keys: seq<string>, all: seq<Arm>) {
    && |keys| == |all|
    && (forall i, j :: 0 <= i < j < |keys| ==> keys[i] != keys[j])
    && (forall k :: k in keys <==> k in records)
    && (forall i :: 0 <= i < |keys| ==> keys[i] in records && all[i] == records[keys[i]])
  }

  ghost predicate DistinctKeys(s: seq<Arm>) {
    forall i, j :: 0 <= i < j < |s| ==> KeyOf(s[i]) != KeyOf(s[j])
  }

  function KeySet(s: seq<Arm>): set<string> {
    set a | a in s :: KeyOf(a)
  }

  lemma {:induction false} KeySetSize(s: seq<Arm>)
    ensures |KeySet(s)| <= |s|
    ensures DistinctKeys(s) ==> |KeySet(s)| == |s|
  {
    if s != [] {
      var n := |s| - 1;
      KeySetSize(s[..n]);
      assert s == s[..n] + [s[n]];
      assert KeySet(s) == KeySet(s[..n]) + {KeyOf(s[n])};
      if DistinctKeys(s) {
        assert forall a :: a in s[..n] ==> KeyOf(a) != KeyOf(s[n]);
      }
    }
  }

  // ----- writing -----

  function Retained(all: seq<Arm>, now: int, key: string): seq<Arm> {
    if all == [] then []
    else
      var n := |all| - 1;
      Retained(all[..n], now, key) + if Dropped(all[n], now, key) then [] else [all[n]]
  }

  function DroppedKeys(all: seq<Arm>, now: int, key: string): set<string> {
    set a | a in all && Dropped(a, now, key) :: KeyOf(a)
  }

  /** A stable sort by creation time: each element goes after those that are not younger. */
  function Place(s: seq<Arm>, a: Arm): (r: seq<Arm>)
    ensures |r| == |s| + 1
  {
    if s == [] || s[|s| - 1].createdAt <= a.createdAt then s + [a]
    else Place(s[..|s| - 1], a) + [s[|s| - 1]]
  }

  function Sorted(s: seq<Arm>): (r: seq<Arm>)
    ensures |r| == |s|
  {
    if s == [] then [] else Place(Sorted(s[..|s| - 1]), s[|s| - 1])
  }

  ghost predicate Ordered(s: seq<Arm>) {
    forall i, j :: 0 <= i < j < |s| ==> s[i].createdAt <= s[j].createdAt
  }

  function Excess(n: nat): nat { if n > MAX_RECORDS then n - MAX_RECORDS else 0 }

  /** The dropped keys go, then the keys of the excess at the front, and the last element is put under the given key. */
  function Replaced(records: Store, dropped: set<string>, sorted: seq<Arm>, key: string): Store
    requires sorted != []
  {
    (records - dropped - KeySet(sorted[..Excess(|sorted|)]))[key := sorted[|sorted| - 1]]
  }

  function AfterWrite(records: Store, all: seq<Arm>, arm: Arm): Store {
    Replaced(records, DroppedKeys(all, arm.createdAt, KeyOf(arm)),
             Sorted(Retained(all, arm.createdAt, KeyOf(arm)) + [arm]), KeyOf(arm))
  }

  lemma {:induction false} PlaceMembers(s: seq<Arm>, a: Arm)
    ensures forall x :: x in Place(s, a) <==> x == a || x in s
  {
    if s != [] && s[|s| - 1].createdAt > a.createdAt {
      var n := |s| - 1;
      PlaceMembers(s[..n], a);
      assert s == s[..n] + [s[n]];
    }
  }

  lemma {:induction false} PlaceOrdered(s: seq<Arm>, a: Arm)
    requires Ordered(s)
    ensures Ordered(Place(s, a))
  {
    if s != [] && s[|s| - 1].createdAt > a.createdAt {
      var n := |s| - 1;
      PlaceOrdered(s[..n], a);
      PlaceMembers(s[..n], a);
      var front := Place(s[..n], a);
      forall i | 0 <= i < |front| ensures front[i].createdAt <= s[n].createdAt {
        assert front[i] in front;
      }
    }
  }

  lemma {:induction false} PlaceDistinct(s: seq<Arm>, a: Arm)
    requires Ordered(s) && DistinctKeys(s) && forall x :: x in s ==> KeyOf(x) != KeyOf(a)
    ensures DistinctKeys(Place(s, a))
  {
    if s != [] && s[|s| - 1].createdAt > a.createdAt {
      var n := |s| - 1;
      PlaceDistinct(s[..n], a);
      PlaceMembers(s[..n], a);
      forall x | x in Place(s[..n], a) ensures KeyOf(x) != KeyOf(s[n]) {
        if x in s[..n] {
          var i :| 0 <= i < n && s[i] == x;
        }
      }
    }
  }

  lemma {:induction false} SortedFacts(s: seq<Arm>)
    ensures Ordered(Sorted(s))
    ensures forall x :: x in Sorted(s) <==> x in s
    ensures DistinctKeys(s) ==> DistinctKeys(Sorted(s))
  {
    if s != [] {
      var n := |s| - 1;
      SortedFacts(s[..n]);
      PlaceOrdered(Sorted(s[..n]), s[n]);
      PlaceMembers(Sorted(s[..n]), s[n]);
      assert s == s[..n] + [s[n]];
      if DistinctKeys(s) {
        forall x | x in Sorted(s[..n]) ensures KeyOf(x) != KeyOf(s[n]) {
          var i :| 0 <= i < n && s[..n][i] == x;
        }
        PlaceDistinct(Sorted(s[..n]), s[n]);
      }
    }
  }

  /** The youngest comes last; a later arrival comes after its equals. */
  lemma SortedLast(s: seq<Arm>, a: Arm)
    ensures |Sorted(s + [a])| == |s| + 1
    ensures (forall x :: x in s ==> x.createdAt <= a.createdAt) ==> Sorted(s + [a])[|s|] == a
    ensures forall x :: x in s + [a] ==> x.createdAt <= Sorted(s + [a])[|s|].createdAt
  {
    assert (s + [a])[..|s|] == s;
    SortedFacts(s);
    SortedFacts(s + [a]);
    var sorted := Sorted(s + [a]);
    if forall x :: x in s ==> x.createdAt <= a.createdAt {
      assert s != [] ==> Sorted(s)[|s| - 1] in s;
    }
    forall x | x in s + [a] ensures x.createdAt <= sorted[|s|].createdAt {
      assert x in sorted;
    }
  }

  lemma {:induction false} RetainedFacts(all: seq<Arm>, now: int, key: string)
    ensures forall x :: x in Retained(all, now, key) <==> x in all && !Dropped(x, now, key)
    ensures DistinctKeys(all) ==> DistinctKeys(Retained(all, now, key))
  {
    if all != [] {
      var n := |all| - 1;
      var front := all[..n];
      assert all == front + [all[n]];
      RetainedFacts(front, now, key);
      if DistinctKeys(all) {
        forall x | x in Retained(front, now, key) ensures KeyOf(x) != KeyOf(all[n]) {
          var i :| 0 <= i < n && front[i] == x;
        }
      }
    }
  }

  lemma ListsFacts(records: Store, keys: seq<string>, all: seq<Arm>)
    requires Keyed(records) && Lists(records, keys, all)
    ensures DistinctKeys(all)
    ensures forall x :: x in all <==> KeyOf(x) in records && records[KeyOf(x)] == x
  {
    forall x | KeyOf(x) in records && records[KeyOf(x)] == x ensures x in all {
      assert KeyOf(x) in keys;
      var i :| 0 <= i < |keys| && keys[i] == KeyOf(x);
      assert all[i] == x;
    }
  }

  /** No other unexpired record claims to be younger than the one being written. */
  ghost predicate NothingYounger(records: Store, arm: Arm) {
    forall k :: k in records && k != KeyOf(arm) && !Expired(records[k], arm.createdAt) ==>
      records[k].createdAt <= arm.createdAt
  }

  /** The new record ends up under its own key exactly when nothing retained is younger than it. */
  lemma WriteStoresOwn(records: Store, keys: seq<string>, all: seq<Arm>, arm: Arm)
    requires Keyed(records) && Lists(records, keys, all)
    ensures AfterWrite(records, all, arm)[KeyOf(arm)] == arm <==> NothingYounger(records, arm)
  {
    var now, key := arm.createdAt, KeyOf(arm);
    var retained := Retained(all, now, key);
    ListsFacts(records, keys, all);
    RetainedFacts(all, now, key);
    SortedLast(retained, arm);
    if k :| k in records && k != key && !Expired(records[k], now) && records[k].createdAt > now {
      assert records[k] in retained + [arm];
    }
  }

  ghost predicate Written(records: Store, records': Store, arm: Arm) {
    var now, key := arm.createdAt, KeyOf(arm);
    && Keyed(records') && |records'| <= MAX_RECORDS
    && key in records' && records'[key] == arm
    && (forall k :: k in records' && k != key ==>
       k in records && records'[k] == records[k] && !Expired(records[k], now))
    && (forall k :: k in records && k != key && !Expired(records[k], now) && k !in records' ==>
          && |records'| == MAX_RECORDS
          && forall j :: j in records' ==> records[k].createdAt <= records'[j].createdAt)
  }

  lemma CutDisjoint(s: seq<Arm>, m: nat)
    requires DistinctKeys(s) && m <= |s|
    ensures KeySet(s[..m]) !! KeySet(s[m..])
  {
    forall x, y | x in s[..m] && y in s[m..] ensures KeyOf(x) != KeyOf(y) {
      var i :| 0 <= i < m && s[i] == x;
      var j :| m <= j < |s| && s[j] == y;
    }
  }

  /** The keys of a distinct list split where the list is cut. */
  lemma CutKeys(s: seq<Arm>, m: nat)
    requires DistinctKeys(s) && m <= |s|
    ensures KeySet(s[..m]) !! KeySet(s[m..]) && |KeySet(s[m..])| == |s| - m
    ensures KeySet(s) == KeySet(s[..m]) + KeySet(s[m..])
  {
    KeySetSize(s[m..]);
    CutDisjoint(s, m);
    assert s == s[..m] + s[m..];
    forall k | k in KeySet(s) ensures k in KeySet(s[..m]) + KeySet(s[m..]) {
      var x :| x in s && KeyOf(x) == k;
      assert x in s[..m] || x in s[m..];
    }
  }

  lemma WriteKeys(records: Store, keys: seq<string>, all: seq<Arm>, arm: Arm, sorted: seq<Arm>)
    requires Keyed(records) && Lists(records, keys, all)
    requires sorted == Sorted(Retained(all, arm.createdAt, KeyOf(arm)) + [arm])
    ensures Ordered(sorted) && DistinctKeys(sorted)
    ensures KeySet(sorted) == records.Keys - DroppedKeys(all, arm.createdAt, KeyOf(arm)) + {KeyOf(arm)}
    ensures forall x :: x in sorted <==>
              x == arm || (KeyOf(x) in records && records[KeyOf(x)] == x && !Dropped(x, arm.createdAt, KeyOf(arm)))
  {
    var now, key := arm.createdAt, KeyOf(arm);
    ListsFacts(records, keys, all);
    RetainedFacts(all, now, key);
    SortedFacts(Retained(all, now, key) + [arm]);
    forall k | k in records.Keys - DroppedKeys(all, now, key) ensures k in KeySet(sorted) {
      assert records[k] in all && records[k] in sorted;
    }
  }

  lemma SplitMembers(s: seq<Arm>, m: nat, i: nat, x: Arm)
    requires DistinctKeys(s) && Ordered(s) && m <= |s| && i < |s| && x in s[m..]
    ensures s[i] in s[m..] || s[i].createdAt <= x.createdAt
    ensures x in s
  {
    var b :| m <= b < |s| && s[b] == x;
    if m <= i {
      assert s[m..][i - m] == s[i];
    }
  }

  lemma MinusPut(records: Store, dropped: set<string>, evicted: set<string>, kept: set<string>, key: string, a: Arm)
    requires records.Keys - dropped + {key} == evicted + kept && evicted !! kept && key in kept
    ensures var result := (records - dropped - evicted)[key := a];
            && result.Keys == kept && key in result && result[key] == a
            && forall k :: k in result && k != key ==> k in records && result[k] == records[k]
  {
  }

  lemma ReplacedKeys(records: Store, dropped: set<string>, sorted: seq<Arm>, arm: Arm)
    requires sorted != [] && DistinctKeys(sorted) && sorted[|sorted| - 1] == arm
    requires KeySet(sorted) == records.Keys - dropped + {KeyOf(arm)}
    ensures var result, kept := Replaced(records, dropped, sorted, KeyOf(arm)), KeySet(sorted[Excess(|sorted|)..]);
            && result.Keys == kept && |kept| == |sorted| - Excess(|sorted|)
            && KeyOf(arm) in result && result[KeyOf(arm)] == arm
            && forall k :: k in result && k != KeyOf(arm) ==> k in records && result[k] == records[k]
  {
    var m := Excess(|sorted|);
    CutKeys(sorted, m);
    assert KeyOf(arm) in KeySet(sorted[m..]) by {
      assert sorted[m..][|sorted| - 1 - m] == arm;
    }
    MinusPut(records, dropped, KeySet(sorted[..m]), KeySet(sorted[m..]), KeyOf(arm), arm);
  }

  /** A write whose clock has not run backwards keeps at most 32 records, its own among them, and evicts only the
      oldest. */
  lemma WriteOutcome(records: Store, keys: seq<string>, all: seq<Arm>, arm: Arm)
    requires Keyed(records) && Lists(records, keys, all) && NothingYounger(records, arm)
    ensures Written(records, AfterWrite(records, all, arm), arm)
  {
    var dropped := DroppedKeys(all, arm.createdAt, KeyOf(arm));
    var sorted := Sorted(Retained(all, arm.createdAt, KeyOf(arm)) + [arm]);
    assert sorted[|sorted| - 1] == arm by {
      WriteStoresOwn(records, keys, all, arm);
    }
    WriteKeys(records, keys, all, arm, sorted);
    ReplacedKeys(records, dropped, sorted, arm);
    hide Replaced; hide Sorted; hide Lists; hide DistinctKeys; hide Ordered; hide Written;
    hide KeySet; hide DroppedKeys; hide Retained;
    KeptOutcome(records, AfterWrite(records, all, arm), sorted, Excess(|sorted|), arm);
  }

  /** The store holds the records of sorted[m..] under their keys. */
  lemma KeptOutcome(records: Store, result: Store, sorted: seq<Arm>, m: nat, arm: Arm)
    requires Keyed(records) && Ordered(sorted) && DistinctKeys(sorted) && m == Excess(|sorted|) &&
             result.Keys == KeySet(sorted[m..])
    requires forall x :: x in sorted <==>
               x == arm || (KeyOf(x) in records && records[KeyOf(x)] == x && !Dropped(x, arm.createdAt, KeyOf(arm)))
    requires forall k :: k in result && k != KeyOf(arm) ==> k in records && result[k] == records[k]
    requires KeyOf(arm) in result && result[KeyOf(arm)] == arm && |KeySet(sorted[m..])| == |sorted| - m
    ensures Written(records, result, arm)
  {
    assert |result.Keys| == |result|;
    forall k | k in result && k != KeyOf(arm) ensures !Expired(records[k], arm.createdAt) {
      var x :| x in sorted[m..] && KeyOf(x) == k;
      assert x in sorted;
    }
    forall k, j | k in records && k != KeyOf(arm) && !Expired(records[k], arm.createdAt) && k !in result && j in result
      ensures |result| == MAX_RECORDS && records[k].createdAt <= result[j].createdAt
    {
      EvictedOldest(records, result, sorted, m, k, j, arm);
    }
  }

  lemma EvictedOldest(records: Store, result: Store, sorted: seq<Arm>, m: nat, k: string, j: string, arm: Arm)
    requires Keyed(records) && Ordered(sorted) && DistinctKeys(sorted) && m == Excess(|sorted|) &&
             result.Keys == KeySet(sorted[m..])
    requires forall x :: x in sorted <==>
               x == arm || (KeyOf(x) in records && records[KeyOf(x)] == x && !Dropped(x, arm.createdAt, KeyOf(arm)))
    requires forall k :: k in result && k != KeyOf(arm) ==> k in records && result[k] == records[k]
    requires KeyOf(arm) in result && result[KeyOf(arm)] == arm && |KeySet(sorted[m..])| == |sorted| - m
    requires k in records && k != KeyOf(arm) && !Expired(records[k], arm.createdAt) && k !in result && j in result
    ensures |result| == MAX_RECORDS && records[k].createdAt <= result[j].createdAt
  {
    var x := records[k];
    assert x in sorted;
    var a :| 0 <= a < |sorted| && sorted[a] == x;
    var y :| y in sorted[m..] && KeyOf(y) == j;
    SplitMembers(sorted, m, a, y);
    assert |result.Keys| == |result|;
  }

  // ----- consuming and cleaning up -----

  function AfterConsume(records: Store, scope: string, client: string, now: int): Store {
    if client == "" then records
    else records - set k | k in records && Dropped(records[k], now, Key(scope, client)) :: KeyOf(records[k])
  }

  ghost predicate Accepted(records: Store, scope: string, client: string, now: int) {
    client != "" && exists k :: k in records && Accepts(records[k], scope, client, now)
  }

  function AfterCleanup(records: Store, now: int): Store {
    records - set k | k in records && Expired(records[k], now) :: KeyOf(records[k])
  }

  // ----- the object store -----

  ghost predicate AnyAccepts(all: seq<Arm>, scope: string, client: string, now: int) {
    exists a :: a in all && Accepts(a, scope, client, now)
  }

  lemma MinusOne(records: Store, gone: set<string>, k: string)
    ensures records - gone - {k} == records - (gone + {k}) && records - (gone + {}) == records - gone
  {
  }

  lemma DroppedStep(all: seq<Arm>, i: nat, now: int, key: string)
    requires i < |all|
    ensures DroppedKeys(all[..i + 1], now, key)
         == DroppedKeys(all[..i], now, key) + if Dropped(all[i], now, key) then {KeyOf(all[i])} else {}
  {
    assert all[..i + 1] == all[..i] + [all[i]];
  }

  lemma ExpiredStep(all: seq<Arm>, i: nat, now: int)
    requires i < |all|
    ensures ExpiredKeys(all[..i + 1], now) == ExpiredKeys(all[..i], now) + if Expired(all[i], now) then {KeyOf(all[i])}
            else {}
  {
    assert all[..i + 1] == all[..i] + [all[i]];
  }

  lemma KeySetStep(s: seq<Arm>, m: nat)
    requires m < |s|
    ensures KeySet(s[..m + 1]) == KeySet(s[..m]) + {KeyOf(s[m])}
  {
    assert s[..m + 1] == s[..m] + [s[m]];
  }

  lemma AcceptsStep(all: seq<Arm>, i: nat, scope: string, client: string, now: int)
    requires i < |all|
    ensures AnyAccepts(all[..i + 1], scope, client, now) <==>
            AnyAccepts(all[..i], scope, client, now) || Accepts(all[i], scope, client, now)
  {
    assert all[..i + 1] == all[..i] + [all[i]];
  }

  lemma SameAccepted(records: Store, keys: seq<string>, all: seq<Arm>, scope: string, client: string, now: int)
    requires Lists(records, keys, all) && client != ""
    ensures AnyAccepts(all, scope, client, now) <==> Accepted(records, scope, client, now)
  {
    if k :| k in records && Accepts(records[k], scope, client, now) {
      assert k in keys;
    }
    if a :| a in all && Accepts(a, scope, client, now) {
      var i :| 0 <= i < |all| && all[i] == a;
      assert keys[i] in records;
    }
  }

  class ArmStore {
    var records: Store

    constructor ()
      ensures records == map[]
    {
      records := map[];
    }

    /** All records, in whatever order the keys have. */
    method GetAll() returns (all: seq<Arm>, ghost keys: seq<string>)
      ensures Lists(records, keys, all)
    {
      all, keys := [], [];
      var left := records.Keys;
      while left != {}
        invariant left <= records.Keys && |keys| == |all|
        invariant forall i, j :: 0 <= i < j < |keys| ==> keys[i] != keys[j]
        invariant forall k :: k in keys <==> k in records && k !in left
        invariant forall i :: 0 <= i < |keys| ==> keys[i] in records && all[i] == records[keys[i]]
        decreases |left|
      {
        var k :| k in left;
        all, keys, left := all + [records[k]], keys + [k], left - {k};
      }
    }

    method Write(scope: string, client: string, nonce: string, expiresAt: int, now: int)
      returns (ghost all: seq<Arm>, ghost keys: seq<string>)
      modifies this
      ensures Lists(old(records), keys, all)
      ensures records == AfterWrite(old(records), all, Arm(1, scope, client, nonce, expiresAt, now))
    {
      var key := Key(scope, client);
      var listed;
      listed, keys := GetAll();
      all := listed;
      var retained := Sweep(listed, now, key);
      retained := Sorted(retained + [Arm(1, scope, client, nonce, expiresAt, now)]);
      retained := Evict(retained);
      records := records[key := retained[|retained| - 1]];
    }

    /** Deletes what is expired or held under the given key, and returns the rest. */
    method Sweep(all: seq<Arm>, now: int, key: string) returns (retained: seq<Arm>)
      modifies this
      ensures records == old(records) - DroppedKeys(all, now, key) && retained == Retained(all, now, key)
    {
      retained := [];
      assert DroppedKeys([], now, key) == {};
      for i := 0 to |all|
        invariant records == old(records) - DroppedKeys(all[..i], now, key)
        invariant retained == Retained(all[..i], now, key)
      {
        DroppedStep(all, i, now, key);
        MinusOne(old(records), DroppedKeys(all[..i], now, key), KeyOf(all[i]));
        hide DroppedKeys;
        assert all[..i + 1][..i] == all[..i];
        if all[i].expiresAt <= now || KeyOf(all[i]) == key {
          records := records - {KeyOf(all[i])};
        } else {
          retained := retained + [all[i]];
        }
      }
      assert all[..|all|] == all;
    }

    /** Deletes from the front until no more than 32 are left. */
    method Evict(sorted: seq<Arm>) returns (kept: seq<Arm>)
      modifies this
      ensures kept == sorted[Excess(|sorted|)..]
      ensures records == old(records) - KeySet(sorted[..Excess(|sorted|)])
    {
      kept := sorted;
      ghost var m := 0;
      assert KeySet(sorted[..0]) == {};
      while |kept| > MAX_RECORDS
        invariant m <= Excess(|sorted|) && kept == sorted[m..]
        invariant records == old(records) - KeySet(sorted[..m])
        decreases |kept|
      {
        KeySetStep(sorted, m);
        MinusOne(old(records), KeySet(sorted[..m]), KeyOf(sorted[m]));
        hide KeySet;
        records := records - {KeyOf(kept[0])};
        kept, m := kept[1..], m + 1;
      }
    }

    method Consume(scope: string, client: string, now: int) returns (accepted: bool)
      modifies this
      ensures records == AfterConsume(old(records), scope, client, now)
      ensures accepted <==> Accepted(old(records), scope, client, now)
    {
      accepted := false;
      if client == "" {
        return;
      }
      var key := Key(scope, client);
      var all, keys := GetAll();
      assert DroppedKeys([], now, key) == {};
      for i := 0 to |all|
        invariant records == old(records) - DroppedKeys(all[..i], now, key)
        invariant accepted <==> AnyAccepts(all[..i], scope, client, now)
      {
        DroppedStep(all, i, now, key);
        MinusOne(old(records), DroppedKeys(all[..i], now, key), KeyOf(all[i]));
        AcceptsStep(all, i, scope, client, now);
        hide DroppedKeys; hide AnyAccepts;
        var record := all[i];
        var expired := record.expiresAt <= now;
        if expired || KeyOf(record) == key {
          records := records - {KeyOf(record)};
        }
        if KeyOf(record) == key && !expired && record.schemaVersion == 1 && record.scope == scope
           && record.client == client && |record.nonce| >= MIN_NONCE
        {
          accepted := true;
        }
      }
      assert all[..|all|] == all;
      SameKeysDropped(old(records), keys, all, now, key);
      SameAccepted(old(records), keys, all, scope, client, now);
    }

    method Cleanup(now: int)
      modifies this
      ensures records == AfterCleanup(old(records), now)
    {
      var all, keys := GetAll();
      assert ExpiredKeys([], now) == {};
      for i := 0 to |all|
        invariant records == old(records) - ExpiredKeys(all[..i], now)
      {
        ExpiredStep(all, i, now);
        MinusOne(old(records), ExpiredKeys(all[..i], now), KeyOf(all[i]));
        hide ExpiredKeys;
        if all[i].expiresAt <= now {
          records := records - {KeyOf(all[i])};
        }
      }
      assert all[..|all|] == all;
      SameKeysExpired(old(records), keys, all, now);
    }
  }

  function ExpiredKeys(all: seq<Arm>, now: int): set<string> {
    set a | a in all && Expired(a, now) :: KeyOf(a)
  }

  lemma SameKeysDropped(records: Store, keys: seq<string>, all: seq<Arm>, now: int, key: string)
    requires Lists(records, keys, all)
    ensures DroppedKeys(all, now, key) == set k | k in records && Dropped(records[k], now, key) :: KeyOf(records[k])
  {
    forall k | k in records ensures records[k] in all {
      var i :| 0 <= i < |keys| && keys[i] == k;
      assert all[i] == records[k];
    }
  }

  lemma SameKeysExpired(records: Store, keys: seq<string>, all: seq<Arm>, now: int)
    requires Lists(records, keys, all)
    ensures ExpiredKeys(all, now) == set k | k in records && Expired(records[k], now) :: KeyOf(records[k])
  {
    forall k | k in records ensures records[k] in all {
      var i :| 0 <= i < |keys| && keys[i] == k;
      assert all[i] == records[k];
    }
  }
}
