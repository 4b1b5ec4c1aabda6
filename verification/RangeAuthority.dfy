/** Single-writer allocation of half-open index ranges with leases. */
module RangeAuthority {
  import opened Options

  // ----- ranges -----

  datatype Relation = Exact | Subrange | Wider | Adjacent | Overlap | Disjoint

  function RangeRelation(existingStart: int, existingEnd: int, requestedStart: int, requestedEnd: int): Relation {
    if requestedStart == existingStart && requestedEnd == existingEnd then Exact
    else if existingStart <= requestedStart && requestedEnd <= existingEnd then Subrange
    else if requestedStart <= existingStart && existingEnd <= requestedEnd then Wider
    else if requestedEnd == existingStart || requestedStart == existingEnd then Adjacent
    else if requestedStart < existingEnd && requestedEnd > existingStart then Overlap
    else Disjoint
  }

  predicate InRange(index: int, start: int, end: int) {
    start <= index < end
  }

  ghost predicate ShareIndex(s1: int, e1: int, s2: int, e2: int) {
    exists index :: InRange(index, s1, e1) && InRange(index, s2, e2)
  }

  predicate ValidRange(start: int, end: int) {
    0 <= start < end
  }

  /** For valid ranges the relation says exactly whether an index is shared, and how the index sets compare. */
  lemma RelationMeaning(s1: int, e1: int, s2: int, e2: int)
    requires ValidRange(s1, e1) && ValidRange(s2, e2)
    ensures ShareIndex(s1, e1, s2, e2) <==> RangeRelation(s1, e1, s2, e2) !in {Adjacent, Disjoint}
    ensures RangeRelation(s1, e1, s2, e2) in {Exact, Subrange} <==>
            forall i :: InRange(i, s2, e2) ==> InRange(i, s1, e1)
    ensures RangeRelation(s1, e1, s2, e2) in {Exact, Wider} <==> forall i :: InRange(i, s1, e1) ==> InRange(i, s2, e2)
    ensures RangeRelation(s1, e1, s2, e2) == Adjacent ==> forall i :: InRange(i, s1, e1) || InRange(i, s2, e2) <==>
              InRange(i, if s1 < s2 then s1 else s2, if e1 < e2 then e2 else e1)
  {
    assert InRange(s2, s2, e2) && InRange(e2 - 1, s2, e2) && InRange(s1, s1, e1) && InRange(e1 - 1, s1, e1);
    if RangeRelation(s1, e1, s2, e2) !in {Adjacent, Disjoint} {
      var m := if s1 < s2 then s2 else s1;
      assert InRange(m, s1, e1) && InRange(m, s2, e2);
    }
  }

  // ----- authorities as values -----

  datatype AuthorityState = Pending | Generating | Validating | Validated | Conflict | Failed | Abandoned | Expired

  predicate Active(s: AuthorityState) { s.Pending? || s.Generating? || s.Validating? }
  predicate Terminal(s: AuthorityState) { s.Failed? || s.Abandoned? || s.Expired? }
  predicate Live(s: AuthorityState) { Active(s) || s.Validated? }

  datatype LeaseStatus = LeaseActive | LeaseAbandoned | LeaseExpired

  datatype Lease = Lease(writer: string, status: LeaseStatus, heartbeatAt: int, expiresAt: int)

  datatype Record = Record(start: int, end: int, generation: string, state: AuthorityState, updatedAt: int,
                           lease: Option<Lease>)

  /** The authority id is a hash of the range and the generation, everything else in it being constant. */
  predicate SameId(a: Record, b: Record) {
    a.start == b.start && a.end == b.end && a.generation == b.generation
  }

  ghost predicate Sound(records: seq<Record>) {
    && (forall i :: 0 <= i < |records| ==> ValidRange(records[i].start, records[i].end))
    && (forall i, j :: 0 <= i < j < |records| ==> !SameId(records[i], records[j]))
  }

  /** No index has two live authorities. */
  ghost predicate LiveDisjoint(records: seq<Record>) {
    forall i, j :: 0 <= i < j < |records| && Live(records[i].state) && Live(records[j].state) ==>
      !ShareIndex(records[i].start, records[i].end, records[j].start, records[j].end)
  }

  // ----- acquiring -----

  datatype Action =
    | Acquired
    | FollowActive
    | ObserveValidated
    | ObserveContaining
    | NeedsPlanner
    | BlockedByOverlap
    | InvalidRange

  /** What an existing authority answers to a request; None lets the request pass on. */
  function Answer(r: Record, start: int, end: int): Option<Action> {
    if Terminal(r.state) then None
    else
      var relation := RangeRelation(r.start, r.end, start, end);
      if relation == Exact && Active(r.state) then Some(FollowActive)
      else if relation == Exact && r.state == Validated then Some(ObserveValidated)
      else if relation == Subrange then Some(ObserveContaining)
      else if relation == Wider then Some(NeedsPlanner)
      else if relation == Overlap then Some(BlockedByOverlap)
      else None
  }

  /** An authority stands in the way exactly when it is not terminal and shares an index with the request,
      unless it is in conflict over exactly the requested range. */
  lemma AnswerMeaning(r: Record, start: int, end: int)
    requires ValidRange(r.start, r.end) && ValidRange(start, end)
    ensures Answer(r, start, end).Some? <==>
            !Terminal(r.state) && ShareIndex(r.start, r.end, start, end) &&
            !(r.state == Conflict && r.start == start && r.end == end)
  {
    RelationMeaning(r.start, r.end, start, end);
  }

  /** A grant goes ahead exactly when nothing stands in the way. */
  ghost predicate Grantable(records: seq<Record>, start: int, end: int) {
    ValidRange(start, end) &&
    forall i :: 0 <= i < |records| && !Terminal(records[i].state) &&
                ShareIndex(records[i].start, records[i].end, start, end) ==>
      records[i].state == Conflict && records[i].start == start && records[i].end == end
  }

  function NewRecord(now: int, start: int, end: int, generation: string, writer: string): Record {
    Record(start, end, generation, Pending, now, Some(Lease(writer, LeaseActive, now, now + LEASE_TTL)))
  }

  const LEASE_TTL := 30

  /** Storing under an id replaces the record with that id in place, or adds a new one at the end. */
  function Store(records: seq<Record>, r: Record): seq<Record> {
    if records == [] then [r]
    else if SameId(records[0], r) then [r] + records[1..]
    else [records[0]] + Store(records[1..], r)
  }

  lemma {:induction false} StoreContents(records: seq<Record>, r: Record)
    requires Sound(records) && ValidRange(r.start, r.end)
    ensures Sound(Store(records, r))
    ensures |records| <= |Store(records, r)| <= |records| + 1
    ensures forall i :: 0 <= i < |Store(records, r)| ==>
              Store(records, r)[i] == r || (i < |records| && Store(records, r)[i] == records[i] &&
                  !SameId(records[i], r))
  {
    if records != [] && !SameId(records[0], r) {
      var rest := records[1..];
      assert forall i :: 0 <= i < |rest| ==> rest[i] == records[i + 1];
      StoreContents(rest, r);
      var s, t := Store(records, r), Store(rest, r);
      forall i | 0 <= i < |s| ensures s[i] == r || (i < |records| && s[i] == records[i] && !SameId(records[i], r)) {
        if i > 0 { assert s[i] == t[i - 1]; }
      }
      forall i, j | 0 <= i < j < |s| ensures !SameId(s[i], s[j]) {
        assert s[j] == t[j - 1];
        if i > 0 { assert s[i] == t[i - 1]; }
      }
    } else if records != [] {
      var s := Store(records, r);
      assert forall i :: 1 <= i < |s| ==> s[i] == records[i];
      forall i, j | 0 <= i < j < |s| ensures !SameId(s[i], s[j]) {
        assert s[j] == records[j] && !SameId(records[0], records[j]);
      }
    }
  }

  /** The heart of single-writer allocation: a granted range shares no index with another live authority. */
  lemma GrantKeepsDisjoint(records: seq<Record>, r: Record)
    requires Sound(records) && LiveDisjoint(records) && Grantable(records, r.start, r.end)
    ensures Sound(Store(records, r)) && LiveDisjoint(Store(records, r))
  {
    StoreContents(records, r);
    var s := Store(records, r);
    forall i, j | 0 <= i < j < |s| && Live(s[i].state) && Live(s[j].state)
      ensures !ShareIndex(s[i].start, s[i].end, s[j].start, s[j].end)
    {
      assert !SameId(s[i], s[j]);
      if s[i] == r {
        assert s[j] == records[j];
        ShareSymmetric(s[i], s[j]);
      } else if s[j] != r {
        assert s[i] == records[i] && s[j] == records[j];
      } else {
        assert s[i] == records[i];
      }
    }
  }

  lemma ShareSymmetric(a: Record, b: Record)
    ensures ShareIndex(a.start, a.end, b.start, b.end) <==> ShareIndex(b.start, b.end, a.start, a.end)
  {
  }

  // ----- runs -----

  datatype Simulator = Simulator(now: int, records: seq<Record>)

  datatype Event =
    | Acquire(start: int, end: int, generation: string, writer: string)
    | Advance(seconds: nat)
    | Heartbeat(index: nat)
    | AbandonIfStale(index: nat)
    | Expire(index: nat)
    | Transition(index: nat, state: AuthorityState)

  predicate Stale(lease: Lease, now: int) {
    now >= lease.expiresAt && lease.status == LeaseActive
  }

  /** Conflict and terminal authorities never return to a live state. */
  predicate MayMove(before: AuthorityState, after: AuthorityState) {
    Live(after) ==> Live(before)
  }

  predicate Allowed(s: Simulator, e: Event) {
    match e
    case Heartbeat(i) => i < |s.records| && s.records[i].lease.Some?
    case AbandonIfStale(i) => i < |s.records|
    case Expire(i) => i < |s.records|
    case Transition(i, state) => i < |s.records| && MayMove(s.records[i].state, state)
    case _ => true
  }

  function AbandonedIfStale(r: Record, now: int): Record {
    if r.lease.Some? && Stale(r.lease.value, now)
    then r.(state := Abandoned, updatedAt := now, lease := Some(r.lease.value.(status := LeaseAbandoned)))
    else r
  }

  ghost function Step(s: Simulator, e: Event): Simulator
    requires Allowed(s, e)
  {
    match e
    case Acquire(start, end, generation, writer) =>
      if Grantable(s.records, start, end) then s.(records :=
          Store(s.records, NewRecord(s.now, start, end, generation, writer))) else s
    case Advance(seconds) => s.(now := s.now + seconds)
    case Heartbeat(i) =>
      var r := s.records[i];
      s.(records := s.records[i := r.(updatedAt := s.now,
                                      lease := Some(r.lease.value.(status := LeaseActive, heartbeatAt := s.now,
                                          expiresAt := s.now + LEASE_TTL)))])
    case AbandonIfStale(i) => s.(records := s.records[i := AbandonedIfStale(s.records[i], s.now)])
    case Expire(i) =>
      var r := s.records[i];
      s.(records := s.records[i := r.(state := Expired, updatedAt := s.now,
                                      lease := if r.lease.Some? then Some(r.lease.value.(status := LeaseExpired))
                                          else None)])
    case Transition(i, state) => s.(records := s.records[i := s.records[i].(state := state, updatedAt := s.now)])
  }

  ghost predicate Run(s: Simulator, events: seq<Event>, t: Simulator)
    decreases |events|
  {
    if events == [] then s == t
    else Allowed(s, events[0]) && Run(Step(s, events[0]), events[1..], t)
  }

  lemma UpdateKeepsDisjoint(records: seq<Record>, i: nat, r: Record)
    requires Sound(records) && LiveDisjoint(records) && i < |records| && SameId(records[i], r) &&
             MayMove(records[i].state, r.state)
    ensures Sound(records[i := r]) && LiveDisjoint(records[i := r])
  {
    var s := records[i := r];
    forall a, b | 0 <= a < b < |s| && Live(s[a].state) && Live(s[b].state)
      ensures !ShareIndex(s[a].start, s[a].end, s[b].start, s[b].end)
    {
      assert !ShareIndex(records[a].start, records[a].end, records[b].start, records[b].end);
    }
  }

  lemma StepKeepsDisjoint(s: Simulator, e: Event)
    requires Sound(s.records) && LiveDisjoint(s.records) && Allowed(s, e)
    ensures Sound(Step(s, e).records) && LiveDisjoint(Step(s, e).records)
  {
    match e
    case Acquire(start, end, generation, writer) =>
      if Grantable(s.records, start, end) {
        GrantKeepsDisjoint(s.records, NewRecord(s.now, start, end, generation, writer));
      }
    case Advance(_) =>
    case Heartbeat(i) => UpdateKeepsDisjoint(s.records, i, Step(s, e).records[i]);
    case AbandonIfStale(i) => UpdateKeepsDisjoint(s.records, i, Step(s, e).records[i]);
    case Expire(i) => UpdateKeepsDisjoint(s.records, i, Step(s, e).records[i]);
    case Transition(i, _) => UpdateKeepsDisjoint(s.records, i, Step(s, e).records[i]);
  }

  /** In every run, live authorities have pairwise disjoint ranges. */
  lemma {:induction false} RunKeepsDisjoint(s: Simulator, events: seq<Event>, t: Simulator)
    requires Sound(s.records) && LiveDisjoint(s.records) && Run(s, events, t)
    ensures Sound(t.records) && LiveDisjoint(t.records)
    decreases |events|
  {
    if events != [] {
      StepKeepsDisjoint(s, events[0]);
      RunKeepsDisjoint(Step(s, events[0]), events[1..], t);
    }
  }

  /** The exception is real: with an authority in conflict the very same range is granted to another writer. */
  lemma ConflictRangeRegranted(now: int, start: int, end: int)
    requires ValidRange(start, end)
    ensures var held := Record(start, end, "first", Conflict, now, None);
            && Grantable([held], start, end)
            && ShareIndex(held.start, held.end, start, end)
            && (forall other :: ValidRange(other, end) && other != start ==> !Grantable([held], other, end))
  {
    var held := Record(start, end, "first", Conflict, now, None);
    assert InRange(start, start, end);
    forall other | ValidRange(other, end) && other != start ensures !Grantable([held], other, end) {
      assert [held][0] == held && InRange(end - 1, start, end) && InRange(end - 1, other, end);
    }
  }

  lemma GrantableMeansNoAnswer(records: seq<Record>, start: int, end: int)
    requires Sound(records) && ValidRange(start, end)
    ensures Grantable(records, start, end) <==> forall i :: 0 <= i < |records| ==> Answer(records[i], start, end).None?
  {
    forall i | 0 <= i < |records| ensures Answer(records[i], start, end).Some? <==>
            !Terminal(records[i].state) && ShareIndex(records[i].start, records[i].end, start, end) &&
            !(records[i].state == Conflict && records[i].start == start && records[i].end == end)
    {
      AnswerMeaning(records[i], start, end);
    }
  }

  lemma {:induction false} StoreAt(records: seq<Record>, r: Record, k: nat)
    requires k <= |records| && forall i :: 0 <= i < k ==> !SameId(records[i], r)
    requires k < |records| ==> SameId(records[k], r)
    ensures Store(records, r) == if k < |records| then records[k := r] else records + [r]
  {
    if k > 0 {
      StoreAt(records[1..], r, k - 1);
    }
  }

  // ----- the objects -----

  class LeaseRecord {
    const writer: string
    var status: LeaseStatus
    var heartbeatAt: int
    var expiresAt: int

    constructor (writer: string, now: int)
      ensures this.writer == writer && status == LeaseActive && heartbeatAt == now && expiresAt == now + LEASE_TTL
    {
      this.writer, status, heartbeatAt, expiresAt := writer, LeaseActive, now, now + LEASE_TTL;
    }

    method Heartbeat(now: int, ttl: int)
      modifies this
      ensures status == LeaseActive && heartbeatAt == now && expiresAt == now + ttl
    {
      status, heartbeatAt, expiresAt := LeaseActive, now, now + ttl;
    }

    predicate IsStale(now: int)
      reads this
    {
      now >= expiresAt && status == LeaseActive
    }
  }

  datatype HashConflict = HashConflict(index: int, existing: string, candidate: string, detectedAt: int)

  predicate Ascending(s: seq<int>) {
    forall i, j :: 0 <= i < j < |s| ==> s[i] < s[j]
  }

  ghost predicate SameElements(s: seq<int>, conflicts: seq<HashConflict>) {
    && (forall i :: 0 <= i < |s| ==> exists k :: 0 <= k < |conflicts| && conflicts[k].index == s[i])
    && (forall k :: 0 <= k < |conflicts| ==> conflicts[k].index in s)
  }

  method SortedInsert(s: seq<int>, x: int) returns (r: seq<int>)
    requires Ascending(s) && x !in s
    ensures Ascending(r) && |r| == |s| + 1
    ensures forall y :: y in r <==> y == x || y in s
  {
    var k := 0;
    while k < |s| && s[k] < x
      invariant k <= |s| && forall i :: 0 <= i < k ==> s[i] < x
    {
      k := k + 1;
    }
    r := s[..k] + [x] + s[k..];
  }

  lemma OneMoreConflict(s: seq<int>, t: seq<int>, conflicts: seq<HashConflict>, c: HashConflict)
    requires SameElements(s, conflicts)
    requires forall y :: y in t <==> y == c.index || y in s
    ensures SameElements(t, conflicts + [c])
  {
    var all := conflicts + [c];
    assert all[|conflicts|].index == c.index;
    forall i | 0 <= i < |t| ensures exists k :: 0 <= k < |all| && all[k].index == t[i] {
      if t[i] != c.index {
        assert t[i] in s;
        var j :| 0 <= j < |s| && s[j] == t[i];
        var k :| 0 <= k < |conflicts| && conflicts[k].index == s[j];
        assert all[k] == conflicts[k];
      }
    }
  }

  class AuthorityRecord {
    const start: int
    const end: int
    const generation: string
    var state: AuthorityState
    var updatedAt: int
    const lease: LeaseRecord?
    var conflictIndexes: seq<int>
    var conflictCount: nat
    var firstConflictAt: Option<int>
    var lastConflictAt: Option<int>
    var segmentHashConflicts: seq<HashConflict>

    constructor (start: int, end: int, generation: string, now: int, lease: LeaseRecord)
      ensures this.start == start && this.end == end && this.generation == generation
      ensures state == Pending && updatedAt == now && this.lease == lease
      ensures LogValid() && segmentHashConflicts == []
    {
      this.start, this.end, this.generation, state, updatedAt, this.lease := start, end, generation, Pending, now,
          lease;
      conflictIndexes, conflictCount, firstConflictAt, lastConflictAt, segmentHashConflicts := [], 0, None, None, [];
    }

    function Value(): Record
      reads this, lease
    {
      Record(start, end, generation, state, updatedAt,
             if lease == null then None
             else Some(Lease(lease.writer, lease.status, lease.heartbeatAt, lease.expiresAt)))
    }

    /** What the conflict summary says about the list of conflicts recorded so far. */
    ghost predicate LogValid()
      reads this
    {
      && Ascending(conflictIndexes) && SameElements(conflictIndexes, segmentHashConflicts)
      && conflictCount == |conflictIndexes|
      && firstConflictAt == (if segmentHashConflicts == [] then None else Some(segmentHashConflicts[0].detectedAt))
      && lastConflictAt == (if segmentHashConflicts == [] then None
                            else Some(segmentHashConflicts[|segmentHashConflicts| - 1].detectedAt))
    }

    method Transition(state: AuthorityState, now: int)
      modifies this`state, this`updatedAt
      ensures this.state == state && updatedAt == now
    {
      this.state, updatedAt := state, now;
    }

    method RecordSegmentHashConflict(index: int, existing: string, candidate: string, now: int)
      requires LogValid()
      modifies this
      ensures LogValid()
      ensures segmentHashConflicts == old(segmentHashConflicts) + [HashConflict(index, existing, candidate, now)]
      ensures Value() == old(Value()).(state := Conflict, updatedAt := now)
    {
      Transition(Conflict, now);
      if index !in conflictIndexes {
        conflictIndexes := SortedInsert(conflictIndexes, index);
      }
      assert Ascending(conflictIndexes);
      conflictCount := |conflictIndexes|;
      firstConflictAt := if firstConflictAt.Some? then firstConflictAt else Some(now);
      lastConflictAt := Some(now);
      segmentHashConflicts := segmentHashConflicts + [HashConflict(index, existing, candidate, now)];
      OneMoreConflict(old(conflictIndexes), conflictIndexes, old(segmentHashConflicts),
          segmentHashConflicts[|old(segmentHashConflicts)|]);
    }
  }

  ghost predicate Separate(s: seq<AuthorityRecord>) {
    forall i, j :: 0 <= i < j < |s| ==> s[i] != s[j] && (s[i].lease == null || s[i].lease != s[j].lease)
  }

  ghost predicate Mirrors(s: seq<AuthorityRecord>, records: seq<Record>)
    reads s, set a | a in s && a.lease != null :: a.lease
  {
    |records| == |s| && forall i :: 0 <= i < |s| ==> s[i].Value() == records[i]
  }

  lemma PutObject(s: seq<AuthorityRecord>, records: seq<Record>, k: nat, authority: AuthorityRecord)
    requires Separate(s) && Mirrors(s, records) && k <= |s| && authority !in s
    requires authority.lease != null ==> forall a :: a in s && a != authority ==> a.lease != authority.lease
    ensures Separate(if k < |s| then s[k := authority] else s + [authority])
    ensures Mirrors(if k < |s| then s[k := authority] else s + [authority],
                    if k < |s| then records[k := authority.Value()] else records + [authority.Value()])
  {
  }

  class AuthoritySimulator {
    var now: int
    var authorities: seq<AuthorityRecord>
    ghost var records: seq<Record>

    constructor (now: int)
      ensures Valid() && State() == Simulator(now, [])
    {
      this.now, authorities, records := now, [], [];
    }

    /** The authorities are distinct objects with leases of their own, one for each id. */
    ghost predicate Valid()
      reads this, authorities, set a | a in authorities && a.lease != null :: a.lease
    {
      && Sound(records) && Mirrors(authorities, records)
      && Separate(authorities)
    }

    ghost function State(): Simulator
      reads this
    {
      Simulator(now, records)
    }

    /** The lease of an authority belongs to it alone, whether or not a newer one has replaced it in the table. */
    ghost predicate Owns(authority: AuthorityRecord)
      reads this
    {
      authority.lease != null ==> forall a :: a in authorities && a != authority ==> a.lease != authority.lease
    }

    method Advance(seconds: nat)
      requires Valid()
      modifies this`now
      ensures Valid() && State() == Step(old(State()), Event.Advance(seconds))
    {
      now := now + seconds;
    }

    method Acquire(start: int, end: int, generation: string, writer: string)
      returns (action: Action, authority: AuthorityRecord?, ghost answering: nat)
      requires Valid()
      modifies this
      ensures Valid() && State() == Step(old(State()), Event.Acquire(start, end, generation, writer))
      ensures action == Acquired <==> Grantable(old(records), start, end)
      ensures authority != null <==> action == Acquired
      ensures authority != null ==> fresh(authority) && authority in authorities &&
                                    authority.Value() == NewRecord(now, start, end, generation, writer)
      ensures action == InvalidRange <==> !ValidRange(start, end)
      ensures ValidRange(start, end) && action != Acquired ==>
                && answering < |records| && Answer(records[answering], start, end) == Some(action)
                && forall i :: 0 <= i < answering ==> Answer(records[i], start, end).None?
    {
      action, authority, answering := InvalidRange, null, 0;
      if start < 0 || end <= start {
        return;
      }
      for i := 0 to |authorities|
        invariant action == InvalidRange && forall k :: 0 <= k < i ==> Answer(records[k], start, end).None?
      {
        var existing := authorities[i];
        assert existing.Value() == records[i];
        if !Terminal(existing.state) {
          var relation := RangeRelation(existing.start, existing.end, start, end);
          answering := i;
          if relation == Exact && Active(existing.state) {
            action := FollowActive;
          } else if relation == Exact && existing.state == Validated {
            action := ObserveValidated;
          } else if relation == Subrange {
            action := ObserveContaining;
          } else if relation == Wider {
            action := NeedsPlanner;
          } else if relation == Overlap {
            action := BlockedByOverlap;
          }
          if action != InvalidRange {
            assert Answer(records[i], start, end) == Some(action);
            GrantableMeansNoAnswer(records, start, end);
            return;
          }
        }
      }
      GrantableMeansNoAnswer(records, start, end);
      var lease := new LeaseRecord(writer, now);
      authority := new AuthorityRecord(start, end, generation, now, lease);
      Put(authority);
      action := Acquired;
    }

    method Put(authority: AuthorityRecord)
      requires Valid() && authority !in authorities && Owns(authority)
      requires ValidRange(authority.start, authority.end)
      modifies this`authorities, this`records
      ensures Valid() && authority in authorities && records == Store(old(records), authority.Value())
    {
      var k := Slot(authority);
      StoreAt(records, authority.Value(), k);
      StoreContents(records, authority.Value());
      PutObject(authorities, records, k, authority);
      hide Store; hide Sound;
      if k < |authorities| {
        records, authorities := records[k := authority.Value()], authorities[k := authority];
      } else {
        records, authorities := records + [authority.Value()], authorities + [authority];
      }
      assert authorities[k] == authority;
    }

    /** Where the table holds the id of the given authority. */
    method Slot(authority: AuthorityRecord) returns (k: nat)
      requires Mirrors(authorities, records)
      ensures k <= |authorities| && forall i :: 0 <= i < k ==> !SameId(records[i], authority.Value())
      ensures k < |authorities| ==> SameId(records[k], authority.Value())
    {
      k := 0;
      while k < |authorities| && !(authorities[k].start == authority.start && authorities[k].end == authority.end
                                   && authorities[k].generation == authority.generation)
        invariant k <= |authorities|
        invariant forall i :: 0 <= i < k ==> !SameId(records[i], authority.Value())
      {
        assert authorities[k].Value() == records[k];
        k := k + 1;
      }
      assert k < |authorities| ==> authorities[k].Value() == records[k];
    }

    method Heartbeat(authority: AuthorityRecord) returns (ok: bool)
      requires Valid() && Owns(authority)
      modifies authority, authority.lease, this`records
      ensures Valid() && now == old(now)
      ensures ok <==> authority.lease != null
      ensures forall i :: ok && 0 <= i < |authorities| && authorities[i] == authority ==>
                State() == Step(old(State()), Event.Heartbeat(i))
      ensures !ok || authority !in authorities ==> records == old(records)
    {
      if authority.lease == null {
        return false;
      }
      authority.lease.Heartbeat(now, LEASE_TTL);
      authority.updatedAt := now;
      Reread(authority);
      return true;
    }

    /** Brings the value of one authority up to date after the object changed. */
    ghost method Reread(authority: AuthorityRecord)
      requires |records| == |authorities| && Sound(records) && Owns(authority)
      requires forall i :: 0 <= i < |authorities| && authorities[i] != authority ==>
               authorities[i].Value() == records[i]
      requires forall i :: 0 <= i < |authorities| && authorities[i] == authority ==>
               SameId(authority.Value(), records[i])
      requires Separate(authorities)
      modifies this`records
      ensures Valid()
      ensures forall i :: 0 <= i < |authorities| && authorities[i] == authority ==>
                records == old(records)[i := authority.Value()]
      ensures authority !in authorities ==> records == old(records)
    {
      if i :| 0 <= i < |authorities| && authorities[i] == authority {
        records := records[i := authority.Value()];
      }
    }

    method AbandonIfStale(authority: AuthorityRecord) returns (abandoned: bool)
      requires Valid() && Owns(authority)
      modifies authority, authority.lease, this`records
      ensures Valid() && now == old(now)
      ensures abandoned <==> authority.lease != null && old(authority.lease.IsStale(now))
      ensures forall i :: 0 <= i < |authorities| && authorities[i] == authority ==>
                State() == Step(old(State()), Event.AbandonIfStale(i))
      ensures authority !in authorities ==> records == old(records)
    {
      if authority.lease == null || !authority.lease.IsStale(now) {
        return false;
      }
      authority.lease.status := LeaseAbandoned;
      authority.Transition(Abandoned, now);
      Reread(authority);
      return true;
    }

    method Expire(authority: AuthorityRecord)
      requires Valid() && Owns(authority)
      modifies authority, authority.lease, this`records
      ensures Valid() && now == old(now)
      ensures forall i :: 0 <= i < |authorities| && authorities[i] == authority ==>
                State() == Step(old(State()), Event.Expire(i))
      ensures authority !in authorities ==> records == old(records)
    {
      if authority.lease != null {
        authority.lease.status := LeaseExpired;
      }
      authority.Transition(Expired, now);
      Reread(authority);
    }
  }
}
