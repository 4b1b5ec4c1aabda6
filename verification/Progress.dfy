/** Playback progress: capped watch-time accounting, and its rebuild from the event logs.

    Positions, durations, totals and instants are whole centiseconds; event epochs are whole seconds. */
module Progress {
  import opened Options

  const FIRST_SAMPLE_CAP := 1000
  const SAMPLE_SLACK := 200
  const SAMPLE_MAX_INCREMENT := 3000

  type Key = (int, int)

  function Min(a: int, b: int): int { if b < a then b else a }
  function Max(a: int, b: int): int { if a < b then b else a }

  // ----- tables -----

  /** updatedAt is 0 when the column does not hold a time. */
  datatype Row = Row(position: int, duration: Option<int>, watchTotal: int, completed: bool, updatedAt: int)

  datatype WatchEvent = WatchEvent(key: Key, watched: int, epoch: int)

  datatype TrackingEvent = TrackingEvent(
    key: Key, eventType: string, mode: string, source: string,
    position: Option<int>, duration: Option<int>, completed: bool, epoch: int)

  /** Events are listed in the order of their ids; items gives the source kind of each media item. */
  datatype Db = Db(rows: map<Key, Row>, watch: seq<WatchEvent>, tracking: seq<TrackingEvent>, items: map<int, string>)

  function WatchSum(watch: seq<WatchEvent>, key: Key): int {
    if watch == [] then 0
    else
      var n := |watch| - 1;
      WatchSum(watch[..n], key) + if watch[n].key == key then watch[n].watched else 0
  }

  /** The largest positive epoch of the events, or 0. */
  function LastWatchEpoch(watch: seq<WatchEvent>, key: Key): nat {
    if watch == [] then 0
    else
      var n := |watch| - 1;
      var earlier := LastWatchEpoch(watch[..n], key);
      if watch[n].key == key && watch[n].epoch > earlier then watch[n].epoch else earlier
  }

  // ----- saving -----

  datatype Save = Save(
    key: Key, position: int, duration: Option<int>, completed: bool, mode: string, eventType: string,
    occurredAt: Option<int>, source: string, count: bool, now: int)

  /** Seconds of an instant, truncated toward zero. */
  function Epoch(time: int): int {
    if time >= 0 then time / 100 else -((-time) / 100)
  }

  function Increment(existing: Option<Row>, position: int, now: int, count: bool): (r: int)
    ensures 0 <= r <= SAMPLE_MAX_INCREMENT
  {
    if !count then 0
    else
      var delta := if existing.Some? then position - existing.value.position else position;
      if delta <= 0 then 0
      else if existing.None? || existing.value.updatedAt == 0 then Min(delta, FIRST_SAMPLE_CAP)
      else Max(Min(Min(delta, Max(now - existing.value.updatedAt, 0) + SAMPLE_SLACK), SAMPLE_MAX_INCREMENT), 0)
  }

  /** What the sample may count for: progress made, and the caps that apply. */
  predicate Allows(existing: Option<Row>, position: int, now: int, x: int) {
    if existing.None? then x <= position && x <= FIRST_SAMPLE_CAP
    else
      && x <= position - existing.value.position
      && if existing.value.updatedAt == 0 then x <= FIRST_SAMPLE_CAP
         else x <= SAMPLE_MAX_INCREMENT && x <= Max(now - existing.value.updatedAt, 0) + SAMPLE_SLACK
  }

  /** A counted sample adds the most that is allowed, and nothing when the position has not moved forward. */
  lemma IncrementIsLargestAllowed(existing: Option<Row>, position: int, now: int, x: int)
    ensures var r := Increment(existing, position, now, true);
            && (r > 0 ==> Allows(existing, position, now, r))
            && (x > 0 && Allows(existing, position, now, x) ==> x <= r)
  {
  }

  function Clamped(s: Save): int {
    var p := Max(s.position, 0);
    if s.duration.Some? then Min(p, s.duration.value) else p
  }

  /** Three per cent of the duration, or thirty seconds, before the end counts as watched. */
  predicate NearEnd(s: Save) {
    s.duration.Some? && s.duration.value > 0 &&
    Max(s.duration.value - Clamped(s), 0) * 100 <= Max(s.duration.value * 3, 3000 * 100)
  }

  predicate Completes(s: Save) { s.completed || NearEnd(s) }

  function Lookup(rows: map<Key, Row>, key: Key): Option<Row> {
    if key in rows then Some(rows[key]) else None
  }

  function SavedRow(existing: Option<Row>, s: Save): Row {
    Row(if Completes(s) then 0 else Clamped(s),
        if s.duration.None? && existing.Some? then existing.value.duration else s.duration,
        (if existing.Some? then existing.value.watchTotal else 0) + Increment(existing, Clamped(s), s.now, s.count),
        Completes(s), s.now)
  }

  function SaveEpoch(s: Save): int {
    Epoch(if s.occurredAt.Some? then s.occurredAt.value else s.now)
  }

  function SavedWatch(existing: Option<Row>, s: Save): seq<WatchEvent> {
    var increment := Increment(existing, Clamped(s), s.now, s.count);
    if increment > 0 then [WatchEvent(s.key, increment, SaveEpoch(s))] else []
  }

  function SavedTracking(existing: Option<Row>, s: Save): seq<TrackingEvent> {
    if s.eventType != "" && s.mode != "" then
      [TrackingEvent(s.key, s.eventType, s.mode, s.source, Some(if Completes(s) then 0 else Clamped(s)),
                     SavedRow(existing, s).duration, Completes(s), SaveEpoch(s))]
    else []
  }

  function AfterSave(db: Db, s: Save): Db {
    var existing := Lookup(db.rows, s.key);
    db.(rows := db.rows[s.key := SavedRow(existing, s)],
        watch := db.watch + SavedWatch(existing, s),
        tracking := db.tracking + SavedTracking(existing, s))
  }

  // ----- runs of saves -----

  function AfterSaves(db: Db, saves: seq<Save>): Db {
    if saves == [] then db
    else
      var n := |saves| - 1;
      AfterSave(AfterSaves(db, saves[..n]), saves[n])
  }

  function Mine(saves: seq<Save>, key: Key): seq<Save> {
    if saves == [] then []
    else
      var n := |saves| - 1;
      Mine(saves[..n], key) + if saves[n].key == key then [saves[n]] else []
  }

  ghost predicate ClockRuns(saves: seq<Save>) {
    && (forall i :: 0 <= i < |saves| ==> saves[i].now > 0)
    && (forall i, j :: 0 <= i < j < |saves| ==> saves[i].now <= saves[j].now)
  }

  function TotalOf(rows: map<Key, Row>, key: Key): int {
    if key in rows then rows[key].watchTotal else 0
  }

  /** Every row's total is what its watch events add up to. */
  ghost predicate Balanced(db: Db) {
    forall key: Key :: TotalOf(db.rows, key) == WatchSum(db.watch, key)
  }

  lemma {:induction false} WatchSumAppend(a: seq<WatchEvent>, b: seq<WatchEvent>, key: Key)
    ensures WatchSum(a + b, key) == WatchSum(a, key) + WatchSum(b, key)
  {
    if b == [] {
      assert a + b == a;
    } else {
      var n := |b| - 1;
      assert (a + b)[..|a| + n] == a + b[..n];
      WatchSumAppend(a, b[..n], key);
    }
  }

  /** A save adds to the log exactly what it adds to the total, and never takes anything away. */
  lemma SaveAdds(db: Db, s: Save, key: Key)
    ensures TotalOf(AfterSave(db, s).rows, key) - TotalOf(db.rows, key)
         == WatchSum(AfterSave(db, s).watch, key) - WatchSum(db.watch, key)
    ensures AfterSave(db, s).watch == db.watch + SavedWatch(Lookup(db.rows, s.key), s)
    ensures TotalOf(AfterSave(db, s).rows, key) >= TotalOf(db.rows, key)
    ensures key != s.key ==> TotalOf(AfterSave(db, s).rows, key) == TotalOf(db.rows, key)
  {
    var added := SavedWatch(Lookup(db.rows, s.key), s);
    WatchSumAppend(db.watch, added, key);
    assert added != [] ==> added[..0] == [];
  }

  lemma SaveBalanced(db: Db, s: Save)
    requires Balanced(db)
    ensures Balanced(AfterSave(db, s))
  {
    forall key: Key ensures TotalOf(AfterSave(db, s).rows, key) == WatchSum(AfterSave(db, s).watch, key) {
      SaveAdds(db, s, key);
    }
  }

  /** After the n + 1 saves listed, the total has stayed within the elapsed time plus the slack, within the cap per
      sample, and equal to the sum of the watch events inserted since the log had `logged` events. */
  ghost predicate WithinBounds(logged: nat, db: Db, mine: seq<Save>, key: Key) {
    && (key in db.rows <==> mine != [])
    && logged <= |db.watch| && TotalOf(db.rows, key) == WatchSum(db.watch[logged..], key)
    && (mine != [] ==>
          var n, first, last := |mine| - 1, mine[0].now, mine[|mine| - 1].now;
          && db.rows[key].updatedAt == last
          && db.rows[key].watchTotal <= FIRST_SAMPLE_CAP + (last - first) + SAMPLE_SLACK * n
          && db.rows[key].watchTotal <= FIRST_SAMPLE_CAP + SAMPLE_MAX_INCREMENT * n)
  }

  /** A save adds the same to the total as to the end of the log. */
  lemma SaveAddsToEnd(logged: nat, db: Db, s: Save, key: Key)
    requires logged <= |db.watch|
    ensures var after := AfterSave(db, s);
            logged <= |after.watch| &&
            TotalOf(after.rows, key) - TotalOf(db.rows, key) ==
                WatchSum(after.watch[logged..], key) - WatchSum(db.watch[logged..], key)
  {
    var added := SavedWatch(Lookup(db.rows, s.key), s);
    SaveAdds(db, s, key);
    WatchSumAppend(db.watch, added, key);
    WatchSumAppend(db.watch[logged..], added, key);
    assert (db.watch + added)[logged..] == db.watch[logged..] + added;
  }

  lemma OtherSaveWithinBounds(logged: nat, db: Db, mine: seq<Save>, s: Save, key: Key)
    requires WithinBounds(logged, db, mine, key) && s.key != key
    ensures WithinBounds(logged, AfterSave(db, s), mine, key)
  {
    SaveAddsToEnd(logged, db, s, key);
    assert AfterSave(db, s).rows == db.rows[s.key := AfterSave(db, s).rows[s.key]];
    hide SavedRow; hide SavedWatch; hide SavedTracking; hide WatchSum;
  }

  lemma SaveWithinBounds(logged: nat, db: Db, mine: seq<Save>, s: Save)
    requires WithinBounds(logged, db, mine, s.key) && s.now > 0 && (mine != [] ==> 0 < mine[|mine| - 1].now <= s.now)
    ensures WithinBounds(logged, AfterSave(db, s), mine + [s], s.key)
  {
    SaveAddsToEnd(logged, db, s, s.key);
    SavedWithinCaps(Lookup(db.rows, s.key), s);
    hide SavedRow; hide WatchSum; hide SavedTracking; hide SavedWatch;
    assert (mine + [s])[0] == if mine == [] then s else mine[0];
  }

  lemma SavedWithinCaps(existing: Option<Row>, s: Save)
    ensures SavedRow(existing, s).updatedAt == s.now
    ensures existing.None? ==> SavedRow(existing, s).watchTotal <= FIRST_SAMPLE_CAP
    ensures existing.Some? ==> SavedRow(existing, s).watchTotal <= existing.value.watchTotal + SAMPLE_MAX_INCREMENT
    ensures existing.Some? && 0 < existing.value.updatedAt <= s.now ==>
              SavedRow(existing, s).watchTotal <= existing.value.watchTotal + (s.now - existing.value.updatedAt)
                  + SAMPLE_SLACK
  {
  }

  lemma {:induction false} MineMembers(saves: seq<Save>, key: Key)
    ensures forall m :: m in Mine(saves, key) ==> m in saves && m.key == key
  {
    if saves != [] {
      var n := |saves| - 1;
      MineMembers(saves[..n], key);
      assert saves == saves[..n] + [saves[n]];
    }
  }

  lemma LastIsEarlier(front: seq<Save>, s: Save, key: Key)
    requires ClockRuns(front + [s])
    ensures ClockRuns(front) && s.now > 0
    ensures var mine := Mine(front, key); mine != [] ==> 0 < mine[|mine| - 1].now <= s.now
  {
    var mine, all := Mine(front, key), front + [s];
    MineMembers(front, key);
    assert forall i :: 0 <= i < |front| ==> all[i] == front[i];
    assert all[|front|] == s;
    if mine != [] {
      assert mine[|mine| - 1] in front;
      var i :| 0 <= i < |front| && front[i] == mine[|mine| - 1];
      assert all[i] == front[i] && all[|front|] == s;
    }
  }

  /** Any run of saves, of this item and others, from a state without a row for the item, whatever is in the logs. */
  lemma {:induction false} RunWithinBounds(db: Db, saves: seq<Save>, key: Key)
    requires ClockRuns(saves) && key !in db.rows
    ensures WithinBounds(|db.watch|, AfterSaves(db, saves), Mine(saves, key), key)
  {
    if saves == [] {
      assert db.watch[|db.watch|..] == [];
    } else {
      var n := |saves| - 1;
      assert saves == saves[..n] + [saves[n]];
      hide *;
      LastIsEarlier(saves[..n], saves[n], key);
      RunWithinBounds(db, saves[..n], key);
      OneMoreWithinBounds(|db.watch|, db, saves[..n], saves[n], key);
    }
  }

  lemma OneMoreWithinBounds(logged: nat, db: Db, front: seq<Save>, s: Save, key: Key)
    requires ClockRuns(front + [s]) && WithinBounds(logged, AfterSaves(db, front), Mine(front, key), key)
    ensures WithinBounds(logged, AfterSaves(db, front + [s]), Mine(front + [s], key), key)
  {
    hide WithinBounds; hide AfterSave; hide ClockRuns;
    LastIsEarlier(front, s, key);
    OneMoreSave(db, front, s, key);
    hide AfterSaves; hide Mine;
    if s.key == key {
      SaveWithinBounds(logged, AfterSaves(db, front), Mine(front, key), s);
    } else {
      OtherSaveWithinBounds(logged, AfterSaves(db, front), Mine(front, key), s, key);
    }
  }

  lemma OneMoreSave(db: Db, front: seq<Save>, s: Save, key: Key)
    ensures AfterSaves(db, front + [s]) == AfterSave(AfterSaves(db, front), s)
    ensures Mine(front + [s], key) == if s.key == key then Mine(front, key) + [s] else Mine(front, key)
  {
    assert (front + [s])[..|front|] == front;
    hide AfterSave;
  }

  /** Between any two points of a run no total falls. */
  lemma {:induction false} RunNeverLowers(db: Db, saves: seq<Save>, k: nat, key: Key)
    requires k <= |saves|
    ensures TotalOf(AfterSaves(db, saves[..k]).rows, key) <= TotalOf(AfterSaves(db, saves).rows, key)
    decreases |saves|
  {
    if k == |saves| {
      assert saves[..k] == saves;
    } else {
      var n := |saves| - 1;
      assert saves[..n][..k] == saves[..k];
      RunNeverLowers(db, saves[..n], k, key);
      SaveAdds(AfterSaves(db, saves[..n]), saves[n], key);
    }
  }
}
