/** Rebuilds progress rows from the watch and tracking event logs. */
module TrackingRebuild {
  import opened Options
  import opened Progress

  // ----- what the logs say about one item -----

  predicate ProgressType(t: string) {
    t in {"playback_progress", "playback_seeked", "playback_stopped", "playback_completed"}
  }

  predicate Relevant(e: TrackingEvent, key: Key, items: map<int, string>) {
    e.key == key && key.1 in items && ProgressType(e.eventType)
  }

  /** Before every row that is not younger. */
  function InsertByEpoch(e: TrackingEvent, rows: seq<TrackingEvent>): seq<TrackingEvent> {
    if rows == [] || e.epoch >= rows[0].epoch then [e] + rows
    else [rows[0]] + InsertByEpoch(e, rows[1..])
  }

  /** The relevant events of an item, youngest first, and for equal epochs the one with the larger id first. */
  function Newest(events: seq<TrackingEvent>, key: Key, items: map<int, string>): seq<TrackingEvent> {
    if events == [] then []
    else
      var n := |events| - 1;
      var rows := Newest(events[..n], key, items);
      if Relevant(events[n], key, items) then InsertByEpoch(events[n], rows) else rows
  }

  function PositionOf(e: TrackingEvent): int {
    if e.position.Some? then e.position.value else 0
  }

  predicate Bogus(e: TrackingEvent, kind: string) {
    e.source == "inferred" && e.mode == "vlc_external" && kind == "cloud" && e.completed && PositionOf(e) <= 0
  }

  predicate Usable(e: TrackingEvent) {
    !e.completed && PositionOf(e) > 0
  }

  function FirstUsable(rows: seq<TrackingEvent>): Option<TrackingEvent> {
    if rows == [] then None else if Usable(rows[0]) then Some(rows[0]) else FirstUsable(rows[1..])
  }

  function Selected(rows: seq<TrackingEvent>, kind: string): Option<TrackingEvent> {
    if rows == [] then None
    else if Bogus(rows[0], kind) && FirstUsable(rows).Some? then FirstUsable(rows)
    else Some(rows[0])
  }

  predicate IgnoredBogus(rows: seq<TrackingEvent>, selected: Option<TrackingEvent>, kind: string) {
    rows != [] && selected.Some? && rows[0] != selected.value && Bogus(rows[0], kind)
  }

  lemma {:induction false} FirstUsableIs(rows: seq<TrackingEvent>)
    ensures FirstUsable(rows).Some? ==> Usable(FirstUsable(rows).value)
    ensures FirstUsable(rows).Some? <==> exists i :: 0 <= i < |rows| && Usable(rows[i])
    ensures FirstUsable(rows).Some? ==> exists i :: 0 <= i < |rows| && rows[i] == FirstUsable(rows).value &&
                                                    forall j :: 0 <= j < i ==> !Usable(rows[j])
  {
    if rows != [] && !Usable(rows[0]) {
      FirstUsableIs(rows[1..]);
      if FirstUsable(rows).Some? {
        var i :| 0 <= i < |rows[1..]| && rows[1..][i] == FirstUsable(rows).value && forall j :: 0 <= j < i ==>
            !Usable(rows[1..][j]);
        assert rows[i + 1] == rows[1..][i];
        forall j | 0 <= j < i + 1 ensures !Usable(rows[j]) {
          if j > 0 { assert rows[j] == rows[1..][j - 1]; }
        }
      }
      if k :| 0 <= k < |rows| && Usable(rows[k]) {
        assert rows[k] == rows[1..][k - 1];
      }
    } else if rows != [] {
      assert rows[0] == FirstUsable(rows).value;
    }
  }

  /** The newest event is ignored exactly when it is a bogus completion and an unfinished position stands behind it;
      that position is then the one selected. */
  lemma IgnoredExactly(rows: seq<TrackingEvent>, kind: string)
    ensures IgnoredBogus(rows, Selected(rows, kind), kind) <==>
            rows != [] && Bogus(rows[0], kind) && exists i :: 0 <= i < |rows| && Usable(rows[i])
    ensures IgnoredBogus(rows, Selected(rows, kind), kind) ==> Usable(Selected(rows, kind).value)
  {
    FirstUsableIs(rows);
  }

  method SelectRow(rows: seq<TrackingEvent>, kind: string) returns (selected: Option<TrackingEvent>)
    ensures selected == Selected(rows, kind)
  {
    if rows == [] {
      return None;
    }
    if !Bogus(rows[0], kind) {
      return Some(rows[0]);
    }
    for i := 0 to |rows|
      invariant FirstUsable(rows) == FirstUsable(rows[i..])
    {
      assert rows[i..][1..] == rows[i + 1..];
      if !rows[i].completed && PositionOf(rows[i]) > 0 {
        return Some(rows[i]);
      }
    }
    return Some(rows[0]);
  }

  /** Everything the rebuild of one item looks at in the logs. Times are 0 where there is none. */
  datatype Evidence = Evidence(watched: nat, watchTime: nat, selected: Option<TrackingEvent>, trackingTime: nat,
                               ignored: bool)

  function Gather(db: Db, key: Key): Evidence {
    var kind := if key.1 in db.items then db.items[key.1] else "local";
    var rows := Newest(db.tracking, key, db.items);
    var selected := Selected(rows, kind);
    Evidence(
      Max(WatchSum(db.watch, key), 0), LastWatchEpoch(db.watch, key) * 100,
      selected, if selected.Some? && selected.value.epoch > 0 then selected.value.epoch * 100 else 0,
      IgnoredBogus(rows, selected, kind))
  }

  ghost predicate Sensible(e: Evidence) {
    e.ignored ==> e.selected.Some? && Usable(e.selected.value)
  }

  lemma GatherSensible(db: Db, key: Key)
    ensures Sensible(Gather(db, key))
  {
    IgnoredExactly(Newest(db.tracking, key, db.items), if key.1 in db.items then db.items[key.1] else "local");
  }

  // ----- rebuilding one row -----

  datatype Outcome = Unchanged | Inserted(row: Row) | Updated(row: Row)

  function InsertedRow(e: Evidence, now: nat): Row {
    var time := Max(e.watchTime, e.trackingTime);
    var updatedAt := if time > 0 then time else now;
    if e.selected.None? then Row(0, None, e.watched, false, updatedAt)
    else
      var t := e.selected.value;
      Row(if t.completed then 0 else Max(PositionOf(t), 0), t.duration, e.watched, t.completed, updatedAt)
  }

  function Normalised(row: Row): Row {
    row.(position := Max(row.position, 0), watchTotal := Max(row.watchTotal, 0))
  }

  function NextRow(was: Row, e: Evidence): Row {
    var row := was.(watchTotal := Max(was.watchTotal, e.watched), updatedAt :=
        Max(was.updatedAt, Max(e.watchTime, e.trackingTime)),
                    completed := was.completed && !e.ignored);
    if e.selected.None? then row
    else
      var t := e.selected.value;
      row.(completed := row.completed || t.completed,
           duration := if t.duration.Some? then t.duration else row.duration,
           position := if t.completed then 0 else if t.position.Some? then Max(t.position.value, 0) else row.position)
  }

  function Rebuild(existing: Option<Row>, e: Evidence, now: nat): Outcome {
    match existing
    case None => if e.watched <= 0 && e.selected.None? then Unchanged else Inserted(InsertedRow(e, now))
    case Some(row) =>
      var was := Normalised(row);
      if NextRow(was, e) == was then Unchanged else Updated(NextRow(was, e))
  }

  function RowAfter(existing: Option<Row>, outcome: Outcome): Option<Row> {
    if outcome.Unchanged? then existing else Some(outcome.row)
  }

  /** Rebuilding what was just rebuilt changes nothing, at whatever time. */
  lemma RebuildIdempotent(existing: Option<Row>, e: Evidence, now: nat, later: nat)
    requires Sensible(e)
    ensures Rebuild(RowAfter(existing, Rebuild(existing, e, now)), e, later) == Unchanged
  {
    var after := RowAfter(existing, Rebuild(existing, e, now));
    if after.Some? && Rebuild(existing, e, now) != Unchanged {
      assert Normalised(after.value) == after.value;
    }
  }

  /** A rebuild lowers neither the watch total nor the time of update, and reaches at least what the logs say. */
  lemma RebuildNeverLowers(row: Row, e: Evidence, now: nat)
    ensures var after := RowAfter(Some(row), Rebuild(Some(row), e, now)).value;
            && after.watchTotal >= row.watchTotal && after.updatedAt >= row.updatedAt
            && (row.watchTotal >= 0 ==> after.watchTotal == Max(row.watchTotal, e.watched))
            && after.updatedAt == Max(row.updatedAt, Max(e.watchTime, e.trackingTime))
  {
  }

  // ----- the whole refresh -----

  /** The items of a user with a watch event or a relevant tracking event. */
  function Candidates(db: Db, user: int): set<int> {
    (set e | e in db.watch && e.key.0 == user :: e.key.1) +
    (set e | e in db.tracking && e.key.0 == user && Relevant(e, e.key, db.items) :: e.key.1)
  }

  function OutcomeOf(db: Db, key: Key, now: nat): Outcome {
    Rebuild(Lookup(db.rows, key), Gather(db, key), now)
  }

  ghost predicate Refreshed(db: Db, db': Db, user: int, done: set<int>, now: nat) {
    && db' == db.(rows := db'.rows)
    && forall key: Key :: Lookup(db'.rows, key) ==
         if key.0 == user && key.1 in done then RowAfter(Lookup(db.rows, key), OutcomeOf(db, key, now))
             else Lookup(db.rows, key)
  }

  function UpdatedItems(db: Db, user: int, items: set<int>, now: nat): set<int> {
    set i | i in items && OutcomeOf(db, (user, i), now).Updated?
  }

  function InsertedItems(db: Db, user: int, items: set<int>, now: nat): set<int> {
    set i | i in items && OutcomeOf(db, (user, i), now).Inserted?
  }

  lemma OneMoreRefreshed(db: Db, db': Db, db'': Db, user: int, done: set<int>, i: int, now: nat)
    requires Refreshed(db, db', user, done, now) && i !in done
    requires var o := OutcomeOf(db, (user, i), now);
             db'' == if o.Unchanged? then db' else db'.(rows := db'.rows[(user, i) := o.row])
    ensures Refreshed(db, db'', user, done + {i}, now)
  {
    hide OutcomeOf;
    var o := OutcomeOf(db, (user, i), now);
    forall key: Key ensures Lookup(db''.rows, key) ==
         if key.0 == user && key.1 in done + {i} then RowAfter(Lookup(db.rows, key), OutcomeOf(db, key, now))
             else Lookup(db.rows, key)
    {
      if key == (user, i) {
        assert Lookup(db'.rows, key) == Lookup(db.rows, key);
      } else {
        assert Lookup(db''.rows, key) == Lookup(db'.rows, key);
        assert key.0 == user ==> key.1 != i;
      }
    }
  }

  lemma NothingRefreshed(db: Db, user: int, now: nat)
    ensures Refreshed(db, db, user, {}, now) && UpdatedItems(db, user, {}, now) == {} &&
            InsertedItems(db, user, {}, now) == {}
  {
  }

  lemma OneMoreCounted(db: Db, user: int, done: set<int>, i: int, now: nat)
    requires i !in done
    ensures |UpdatedItems(db, user, done + {i}, now)| ==
            |UpdatedItems(db, user, done, now)| + if OutcomeOf(db, (user, i), now).Updated? then 1 else 0
    ensures |InsertedItems(db, user, done + {i}, now)| ==
            |InsertedItems(db, user, done, now)| + if OutcomeOf(db, (user, i), now).Inserted? then 1 else 0
  {
    hide OutcomeOf;
    var o := OutcomeOf(db, (user, i), now);
    if o.Updated? {
      assert UpdatedItems(db, user, done + {i}, now) == UpdatedItems(db, user, done, now) + {i};
    } else {
      assert UpdatedItems(db, user, done + {i}, now) == UpdatedItems(db, user, done, now);
    }
    if o.Inserted? {
      assert InsertedItems(db, user, done + {i}, now) == InsertedItems(db, user, done, now) + {i};
    } else {
      assert InsertedItems(db, user, done + {i}, now) == InsertedItems(db, user, done, now);
    }
  }

  method Pick<T>(left: set<T>) returns (x: T)
    requires left != {}
    ensures x in left
  {
    x :| x in left;
  }

  class ProgressStore {
    var db: Db

    constructor (db: Db)
      ensures this.db == db
    {
      this.db := db;
    }

    method SaveProgress(s: Save) returns (row: Row)
      modifies this
      ensures db == AfterSave(old(db), s)
      ensures row == db.rows[s.key]
    {
      var position := if s.position > 0 then s.position else 0;
      if s.duration.Some? && s.duration.value < position {
        position := s.duration.value;
      }
      var autoCompleted := false;
      if s.duration.Some? && s.duration.value > 0 {
        var remaining := Max(s.duration.value - position, 0);
        autoCompleted := remaining * 100 <= Max(s.duration.value * 3, 3000 * 100);
      }
      var isCompleted := s.completed || autoCompleted;
      var stored := if isCompleted then 0 else position;
      var existing := Lookup(db.rows, s.key);
      var increment := Increment(existing, position, s.now, s.count);
      var duration := s.duration;
      if duration.None? && existing.Some? {
        duration := existing.value.duration;
      }
      row := Row(stored, duration, (if existing.Some? then existing.value.watchTotal else 0) + increment, isCompleted,
          s.now);
      var epoch := Epoch(if s.occurredAt.Some? then s.occurredAt.value else s.now);
      var watch, tracking := db.watch, db.tracking;
      if increment > 0 {
        watch := watch + [WatchEvent(s.key, increment, epoch)];
      }
      if s.eventType != "" && s.mode != "" {
        tracking := tracking + [TrackingEvent(s.key, s.eventType, s.mode, s.source, Some(stored), duration,
            isCompleted, epoch)];
      }
      assert position == Clamped(s) && isCompleted == Completes(s);
      assert row == SavedRow(existing, s);
      hide Clamped; hide Completes; hide Increment; hide Epoch;
      db := Db(db.rows[s.key := row], watch, tracking, db.items);
    }

    /** Rebuilds the rows of all candidates, each from its own evidence, and counts what it did. */
    method RefreshRecentTracking(user: int, now: nat) returns (rebuilt: nat, inserted: nat)
      modifies this
      ensures Refreshed(old(db), db, user, Candidates(old(db), user), now)
      ensures rebuilt == |UpdatedItems(old(db), user, Candidates(old(db), user), now)|
      ensures inserted == |InsertedItems(old(db), user, Candidates(old(db), user), now)|
    {
      rebuilt, inserted := 0, 0;
      var left := Candidates(db, user);
      NothingRefreshed(db, user, now);
      hide Candidates; hide Refreshed; hide UpdatedItems; hide InsertedItems; hide OutcomeOf;
      ghost var done: set<int> := {};
      while left != {}
        invariant done + left == Candidates(old(db), user) && done !! left
        invariant Refreshed(old(db), db, user, done, now)
        invariant rebuilt == |UpdatedItems(old(db), user, done, now)|
        invariant inserted == |InsertedItems(old(db), user, done, now)|
        decreases |left|
      {
        var i := Pick(left);
        var o := RebuildItem(user, i, now, old(db), done);
        OneMoreCounted(old(db), user, done, i, now);
        if o.Updated? {
          rebuilt := rebuilt + 1;
        } else if o.Inserted? {
          inserted := inserted + 1;
        }
        done, left := done + {i}, left - {i};
      }
      assert done == Candidates(old(db), user);
    }

    method RebuildItem(user: int, i: int, now: nat, ghost was: Db, ghost done: set<int>) returns (o: Outcome)
      requires Refreshed(was, db, user, done, now) && i !in done
      modifies this
      ensures o == OutcomeOf(was, (user, i), now)
      ensures Refreshed(was, db, user, done + {i}, now)
    {
      var key := (user, i);
      var kind := if i in db.items then db.items[i] else "local";
      var rows := Newest(db.tracking, key, db.items);
      var selected := SelectRow(rows, kind);
      var existing := Lookup(db.rows, key);
      assert existing == Lookup(was.rows, key);
      var e := Evidence(Max(WatchSum(db.watch, key), 0), LastWatchEpoch(db.watch, key) * 100, selected,
                        if selected.Some? && selected.value.epoch > 0 then selected.value.epoch * 100 else 0,
                        IgnoredBogus(rows, selected, kind));
      assert e == Gather(was, key);
      o := Rebuild(existing, e, now);
      ghost var before := db;
      if !o.Unchanged? {
        db := db.(rows := db.rows[key := o.row]);
      }
      OneMoreRefreshed(was, before, db, user, done, i, now);
    }
  }

  // ----- what a refresh keeps -----

  /** A refresh right after a refresh rebuilds nothing, inserts nothing and changes nothing. */
  lemma SecondRefreshEmpty(db: Db, db': Db, db'': Db, user: int, now: nat, later: nat)
    requires Refreshed(db, db', user, Candidates(db, user), now)
    requires Refreshed(db', db'', user, Candidates(db', user), later)
    ensures UpdatedItems(db', user, Candidates(db', user), later) == {}
    ensures InsertedItems(db', user, Candidates(db', user), later) == {}
    ensures forall key: Key :: Lookup(db''.rows, key) == Lookup(db'.rows, key)
  {
    assert Candidates(db', user) == Candidates(db, user);
    forall i | i in Candidates(db, user) ensures OutcomeOf(db', (user, i), later) == Unchanged {
      SecondOutcome(db, db', (user, i), now, later);
    }
  }

  lemma SecondOutcome(db: Db, db': Db, key: Key, now: nat, later: nat)
    requires Refreshed(db, db', key.0, Candidates(db, key.0), now) && key.1 in Candidates(db, key.0)
    ensures OutcomeOf(db', key, later) == Unchanged
  {
    GatherSensible(db, key);
    RebuildIdempotent(Lookup(db.rows, key), Gather(db, key), now, later);
    assert Gather(db', key) == Gather(db, key);
  }

  /** No refresh lowers a watch total or a time of update, or removes a row. */
  lemma RefreshNeverLowers(db: Db, db': Db, user: int, now: nat, key: Key)
    requires Refreshed(db, db', user, Candidates(db, user), now) && key in db.rows
    ensures key in db'.rows && db'.rows[key].watchTotal >= db.rows[key].watchTotal &&
            db'.rows[key].updatedAt >= db.rows[key].updatedAt
  {
    RebuildNeverLowers(db.rows[key], Gather(db, key), now);
    assert Lookup(db'.rows, key).Some?;
  }

  lemma NoWatchNoSum(watch: seq<WatchEvent>, key: Key)
    requires forall e :: e in watch ==> e.key != key
    ensures WatchSum(watch, key) == 0
  {
    if watch != [] {
      NoWatchNoSum(watch[..|watch| - 1], key);
    }
  }

  /** Totals that the logs add up to still do after a refresh, for rows of any user. */
  lemma RefreshBalanced(db: Db, db': Db, user: int, now: nat)
    requires Refreshed(db, db', user, Candidates(db, user), now)
    requires Balanced(db) && forall key :: key in db.rows ==> db.rows[key].watchTotal >= 0
    ensures Balanced(db')
  {
    forall key: Key ensures TotalOf(db'.rows, key) == WatchSum(db'.watch, key) {
      assert TotalOf(db.rows, key) == WatchSum(db.watch, key);
      assert TotalOf(db.rows, key) == if Lookup(db.rows, key).Some? then Lookup(db.rows, key).value.watchTotal else 0;
      assert TotalOf(db'.rows, key) == if Lookup(db'.rows, key).Some? then Lookup(db'.rows, key).value.watchTotal
          else 0;
    }
  }

  ghost predicate RowsLost(db: Db, bare: Db, user: int) {
    && bare == db.(rows := bare.rows)
    && forall key: Key :: Lookup(bare.rows, key) == if key.0 == user then None else Lookup(db.rows, key)
  }

  /** When all rows of a user are lost, a refresh brings back the watch total of every item. */
  lemma LostTotalsRestored(db: Db, bare: Db, db': Db, user: int, now: nat, key: Key)
    requires Balanced(db) && TotalOf(db.rows, key) >= 0 && RowsLost(db, bare, user)
    requires Refreshed(bare, db', user, Candidates(bare, user), now)
    ensures TotalOf(db'.rows, key) == TotalOf(db.rows, key)
  {
    assert TotalOf(db.rows, key) == WatchSum(db.watch, key);
    assert TotalOf(db'.rows, key) == if Lookup(db'.rows, key).Some? then Lookup(db'.rows, key).value.watchTotal else 0;
    assert TotalOf(db.rows, key) == if Lookup(db.rows, key).Some? then Lookup(db.rows, key).value.watchTotal else 0;
    if key.0 == user && key.1 !in Candidates(bare, user) {
      NoWatchNoSum(db.watch, key);
    }
  }

  // ----- the newest event -----

  ghost predicate YoungestFirst(rows: seq<TrackingEvent>) {
    forall i, j :: 0 <= i < j < |rows| ==> rows[i].epoch >= rows[j].epoch
  }

  lemma {:induction false} InsertKeepsOrder(e: TrackingEvent, rows: seq<TrackingEvent>)
    requires YoungestFirst(rows)
    ensures YoungestFirst(InsertByEpoch(e, rows))
    ensures forall x :: x in InsertByEpoch(e, rows) <==> x == e || x in rows
  {
    if rows != [] && e.epoch < rows[0].epoch {
      var rest := rows[1..];
      assert rows == [rows[0]] + rest;
      InsertKeepsOrder(e, rest);
      var more := InsertByEpoch(e, rest);
      forall i | 0 <= i < |more| ensures more[i].epoch <= rows[0].epoch {
        assert more[i] in more;
      }
    }
  }

  /** The query lists exactly the relevant events, youngest first. */
  lemma {:induction false} NewestFacts(events: seq<TrackingEvent>, key: Key, items: map<int, string>)
    ensures YoungestFirst(Newest(events, key, items))
    ensures forall x :: x in Newest(events, key, items) <==> x in events && Relevant(x, key, items)
  {
    if events != [] {
      var n := |events| - 1;
      assert events == events[..n] + [events[n]];
      NewestFacts(events[..n], key, items);
      InsertKeepsOrder(events[n], Newest(events[..n], key, items));
    }
  }

  /** A relevant event at least as young as all others comes first. */
  lemma YoungestComesFirst(events: seq<TrackingEvent>, e: TrackingEvent, items: map<int, string>)
    requires Relevant(e, e.key, items) && forall x :: x in events && Relevant(x, e.key, items) ==> x.epoch <= e.epoch
    ensures Newest(events + [e], e.key, items) == [e] + Newest(events, e.key, items)
  {
    NewestFacts(events, e.key, items);
    assert (events + [e])[..|events|] == events;
    var rows := Newest(events, e.key, items);
    assert rows != [] ==> rows[0] in rows;
  }

  predicate SameState(a: Row, b: Row) {
    a.position == b.position && a.duration == b.duration && a.completed == b.completed
  }

  /** A save that recorded its progress with the newest time, its own or a given one, comes back from the logs when its
      row is lost, except when it is a bogus completion with an unfinished position behind it; the watch total comes
      back in any case. */
  lemma LastSaveRestored(db: Db, s: Save, now: nat)
    requires Balanced(db) && TotalOf(db.rows, s.key) >= 0 && Clamped(s) >= 0
    requires s.key.1 in db.items && ProgressType(s.eventType) && s.mode != ""
    requires forall x :: x in db.tracking && Relevant(x, s.key, db.items) ==> x.epoch <= SaveEpoch(s)
    ensures var after := AfterSave(db, s);
            var row, event := after.rows[s.key], after.tracking[|db.tracking|];
            var o := Rebuild(None, Gather(after, s.key), now);
            && o.Inserted? && o.row.watchTotal == row.watchTotal
            && (SameState(o.row, row) <==>
                !(Bogus(event, db.items[s.key.1]) &&
                  exists x :: x in db.tracking && Relevant(x, s.key, db.items) && Usable(x)))
  {
    var after := AfterSave(db, s);
    var row, event := after.rows[s.key], after.tracking[|db.tracking|];
    var rows := Newest(after.tracking, s.key, after.items);
    EvidenceAfterSave(db, s);
    IgnoredExactly(rows, db.items[s.key.1]);
    UsableBehind(rows, event, db.tracking, s.key, db.items);
    hide Newest; hide AfterSave; hide Gather; hide Selected; hide IgnoredBogus; hide WatchSum; hide Balanced;
    RestoredRow(row, event, rows, db.items[s.key.1], Gather(after, s.key), now);
  }

  lemma EvidenceAfterSave(db: Db, s: Save)
    requires Balanced(db) && TotalOf(db.rows, s.key) >= 0
    requires s.key.1 in db.items && ProgressType(s.eventType) && s.mode != ""
    requires forall x :: x in db.tracking && Relevant(x, s.key, db.items) ==> x.epoch <= SaveEpoch(s)
    ensures var after := AfterSave(db, s);
            var row, event, e := after.rows[s.key], after.tracking[|db.tracking|], Gather(after, s.key);
            var rows := Newest(after.tracking, s.key, db.items);
            && rows == [event] + Newest(db.tracking, s.key, db.items)
            && event.position == Some(row.position) && event.duration == row.duration &&
               event.completed == row.completed
            && e.selected == Selected(rows, db.items[s.key.1]) && e.watched == row.watchTotal
  {
    var after := AfterSave(db, s);
    var event := after.tracking[|db.tracking|];
    SaveAdds(db, s, s.key);
    assert TotalOf(db.rows, s.key) == WatchSum(db.watch, s.key);
    assert after.tracking == db.tracking + [event];
    hide WatchSum; hide Balanced; hide Increment; hide Completes; hide Clamped; hide Selected;
    hide IgnoredBogus; hide LastWatchEpoch;
    YoungestComesFirst(db.tracking, event, db.items);
    hide Newest;
  }

  lemma RestoredRow(row: Row, event: TrackingEvent, rows: seq<TrackingEvent>, kind: string, e: Evidence, now: nat)
    requires rows != [] && rows[0] == event && e.selected == Selected(rows, kind) && e.watched == row.watchTotal
    requires event.position == Some(row.position) && event.duration == row.duration && event.completed == row.completed
    requires row.position >= 0 && (row.completed ==> row.position == 0)
    ensures var o := Rebuild(None, e, now);
            && o.Inserted? && o.row.watchTotal == row.watchTotal
            && (SameState(o.row, row) <==> !IgnoredBogus(rows, e.selected, kind))
  {
    IgnoredExactly(rows, kind);
    FirstUsableIs(rows);
  }

  lemma UsableBehind(rows: seq<TrackingEvent>, event: TrackingEvent, events: seq<TrackingEvent>, key: Key,
                     items: map<int, string>)
    requires rows == [event] + Newest(events, key, items)
    ensures event.completed ==>
              ((exists i :: 0 <= i < |rows| && Usable(rows[i])) <==>
                  exists x :: x in events && Relevant(x, key, items) && Usable(x))
  {
    NewestFacts(events, key, items);
    var older := Newest(events, key, items);
    if x :| x in events && Relevant(x, key, items) && Usable(x) {
      assert x in older;
      var i :| 0 <= i < |older| && older[i] == x;
      assert rows[i + 1] == x;
    }
    if event.completed {
      if i :| 0 <= i < |rows| && Usable(rows[i]) {
        assert rows[i] == older[i - 1] && rows[i] in older;
      }
    }
  }
}
