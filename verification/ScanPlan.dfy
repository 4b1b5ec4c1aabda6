/** The file_path column of media_items under a library scan, write by write.

    A scan changes paths in three passes: it stages every matched row that has to move, deletes the
    leftovers, and then gives every changed file its row. The column is UNIQUE, so a write that would
    repeat a path is refused by the database and the whole scan is rolled back. This module proves that
    the three passes are never refused, for any renaming including cycles and swaps, unless a row that
    the scan does not own already holds one of the new paths. */
module ScanPlan {
  import opened Options

  type RowId = nat
  type PathColumn = map<RowId, string>

  /** One statement that touches the column. */
  datatype Write =
    | SetPath(id: RowId, path: string)
    | Insert(id: RowId, path: string)
    | Delete(id: RowId)

  /** A changed file: its path and the displaced row it was matched with, if any. */
  datatype Move = Move(path: string, target: Option<RowId>)

  datatype Plan = Plan(jobId: nat, moves: seq<Move>, drops: seq<RowId>, nextId: RowId)

  // ----- staging names -----

  const STAGING_PREFIX := "__elvern_scan_staging__:"

  function Digit(n: nat): char
    requires n < 10
  {
    "0123456789"[n]
  }

  function Decimal(n: nat): (s: string)
    ensures |s| > 0
  {
    if n < 10 then [Digit(n)] else Decimal(n / 10) + [Digit(n % 10)]
  }

  lemma {:induction false} DecimalInjective(a: nat, b: nat)
    requires Decimal(a) == Decimal(b)
    ensures a == b
  {
    var s, t := Decimal(a), Decimal(b);
    assert s[|s| - 1] == Digit(a % 10) && t[|t| - 1] == Digit(b % 10);
    if a >= 10 && b >= 10 {
      assert s[..|s| - 1] == Decimal(a / 10) && t[..|t| - 1] == Decimal(b / 10);
      DecimalInjective(a / 10, b / 10);
    } else if a < 10 && b < 10 {
    } else {
      assert false;
    }
  }

  /** The temporary name a matched row carries between the staging and the apply pass. */
  function StagingPath(jobId: nat, id: RowId): string {
    STAGING_PREFIX + Decimal(jobId) + ":" + Decimal(id)
  }

  lemma StagingPathInjective(jobId: nat, a: RowId, b: RowId)
    requires StagingPath(jobId, a) == StagingPath(jobId, b)
    ensures a == b
  {
    var prefix := STAGING_PREFIX + Decimal(jobId) + ":";
    assert StagingPath(jobId, a)[|prefix|..] == Decimal(a);
    assert StagingPath(jobId, b)[|prefix|..] == Decimal(b);
    DecimalInjective(a, b);
  }

  predicate IsStaging(path: string) {
    STAGING_PREFIX <= path
  }

  // ----- the UNIQUE constraint -----

  ghost predicate Injective(p: PathColumn) {
    forall a, b :: a in p && b in p && p[a] == p[b] ==> a == b
  }

  ghost predicate Free(p: PathColumn, path: string, id: RowId) {
    forall other :: other in p && other != id ==> p[other] != path
  }

  /** What the database checks before it performs a write. */
  ghost predicate Accepts(p: PathColumn, w: Write) {
    match w
    case SetPath(id, path) => id in p && Free(p, path, id)
    case Insert(id, path) => id !in p && Free(p, path, id)
    case Delete(_) => true
  }

  function Step(p: PathColumn, w: Write): PathColumn {
    match w
    case SetPath(id, path) => p[id := path]
    case Insert(id, path) => p[id := path]
    case Delete(id) => p - {id}
  }

  function Run(p: PathColumn, ws: seq<Write>): PathColumn
    decreases |ws|
  {
    if ws == [] then p else Run(Step(p, ws[0]), ws[1..])
  }

  ghost predicate AllAccepted(p: PathColumn, ws: seq<Write>)
    decreases |ws|
  {
    ws == [] || (Accepts(p, ws[0]) && AllAccepted(Step(p, ws[0]), ws[1..]))
  }

  lemma {:induction false} RunConcat(p: PathColumn, a: seq<Write>, b: seq<Write>)
    ensures Run(p, a + b) == Run(Run(p, a), b)
    ensures AllAccepted(p, a + b) <==> AllAccepted(p, a) && AllAccepted(Run(p, a), b)
    decreases |a|
  {
    if a == [] {
      assert a + b == b;
    } else {
      assert (a + b)[1..] == a[1..] + b;
      RunConcat(Step(p, a[0]), a[1..], b);
    }
  }

  /** While no write is refused, the column is unique after every one of them. */
  lemma {:induction false} AcceptedPrefixUnique(p: PathColumn, ws: seq<Write>, k: nat)
    requires Injective(p) && AllAccepted(p, ws) && k <= |ws|
    ensures Injective(Run(p, ws[..k]))
    decreases k
  {
    if k > 0 {
      assert Injective(Step(p, ws[0]));
      assert ws[..k][1..] == ws[1..][..k - 1];
      AcceptedPrefixUnique(Step(p, ws[0]), ws[1..], k - 1);
    }
  }

  // ----- the three passes -----

  /** Whether the row of move k has to be staged, judged on the path it had before the scan. */
  predicate Restages(before: PathColumn, move: Move) {
    move.target.Some? && move.target.value in before && before[move.target.value] != move.path
  }

  function StageWrites(before: PathColumn, plan: Plan, m: nat): seq<Write>
    requires m <= |plan.moves|
    decreases |plan.moves| - m
  {
    if m == |plan.moves| then []
    else
      var move := plan.moves[m];
      (if Restages(before, move)
       then [SetPath(move.target.value, StagingPath(plan.jobId, move.target.value))]
       else []) + StageWrites(before, plan, m + 1)
  }

  function DropWrites(plan: Plan, m: nat): seq<Write>
    requires m <= |plan.drops|
    decreases |plan.drops| - m
  {
    if m == |plan.drops| then [] else [Delete(plan.drops[m])] + DropWrites(plan, m + 1)
  }

  /** How many of the first m changed files get a new row. */
  function Inserted(moves: seq<Move>, m: nat): nat
    requires m <= |moves|
  {
    if m == 0 then 0 else Inserted(moves, m - 1) + (if moves[m - 1].target.None? then 1 else 0)
  }

  /** The row that ends up holding changed file k. */
  function RowFor(plan: Plan, k: nat): RowId
    requires k < |plan.moves|
  {
    match plan.moves[k].target
    case Some(id) => id
    case None => plan.nextId + Inserted(plan.moves, k)
  }

  function ApplyWrite(plan: Plan, k: nat): Write
    requires k < |plan.moves|
  {
    if plan.moves[k].target.Some? then SetPath(RowFor(plan, k), plan.moves[k].path)
    else Insert(RowFor(plan, k), plan.moves[k].path)
  }

  function ApplyWrites(plan: Plan, m: nat): seq<Write>
    requires m <= |plan.moves|
    decreases |plan.moves| - m
  {
    if m == |plan.moves| then [] else [ApplyWrite(plan, m)] + ApplyWrites(plan, m + 1)
  }

  function Writes(before: PathColumn, plan: Plan): seq<Write> {
    StageWrites(before, plan, 0) + DropWrites(plan, 0) + ApplyWrites(plan, 0)
  }

  // ----- what the classification guarantees about a plan -----

  predicate IsTarget(plan: Plan, id: RowId) {
    exists k :: 0 <= k < |plan.moves| && plan.moves[k].target == Some(id)
  }

  /** A row no pass writes: a stable local row or a cloud row. */
  predicate Untouched(plan: Plan, id: RowId) {
    !IsTarget(plan, id) && id !in plan.drops
  }

  ghost predicate WellFormed(before: PathColumn, plan: Plan) {
    && Injective(before)
    && (forall i, j :: 0 <= i < j < |plan.moves| ==> plan.moves[i].path != plan.moves[j].path)
    && (forall i, j :: 0 <= i < j < |plan.moves| && plan.moves[i].target.Some? ==>
       plan.moves[i].target != plan.moves[j].target)
    && (forall k :: 0 <= k < |plan.moves| && plan.moves[k].target.Some? ==>
          plan.moves[k].target.value in before && plan.moves[k].target.value !in plan.drops)
    && (forall id :: id in plan.drops ==> id in before)
    && (forall id :: id in before ==> id < plan.nextId && !IsStaging(before[id]))
    && (forall k :: 0 <= k < |plan.moves| ==> !IsStaging(plan.moves[k].path))
  }

  /** An untouched row already holds the path of a changed file. */
  ghost predicate Obstructed(before: PathColumn, plan: Plan) {
    exists id, k :: id in before && Untouched(plan, id) && 0 <= k < |plan.moves| && before[id] == plan.moves[k].path
  }

  // ----- pass by pass -----

  ghost predicate Moved(before: PathColumn, plan: Plan, m: nat, id: RowId)
    requires m <= |plan.moves|
  {
    exists k :: 0 <= k < m && Restages(before, plan.moves[k]) && plan.moves[k].target.value == id
  }

  ghost predicate StageState(before: PathColumn, plan: Plan, m: nat, p: PathColumn)
    requires m <= |plan.moves|
  {
    && p.Keys == before.Keys
    && forall id :: id in p ==>
         p[id] == if Moved(before, plan, m, id) then StagingPath(plan.jobId, id) else before[id]
  }

  lemma MovedStep(before: PathColumn, plan: Plan, m: nat)
    requires m < |plan.moves|
    ensures forall id :: Moved(before, plan, m + 1, id) <==>
              Moved(before, plan, m, id) || (Restages(before, plan.moves[m]) && plan.moves[m].target.value == id)
  {
    var move := plan.moves[m];
    forall id | Moved(before, plan, m, id) || (Restages(before, move) && move.target.value == id)
      ensures Moved(before, plan, m + 1, id)
    {
      if !Moved(before, plan, m, id) { assert plan.moves[m] == move; }
    }
  }

  /** No row holds the staging name of another row. */
  lemma StagingNameFree(before: PathColumn, plan: Plan, m: nat, p: PathColumn, id: RowId)
    requires WellFormed(before, plan) && m <= |plan.moves| && StageState(before, plan, m, p)
    ensures forall other :: other in p && other != id ==> p[other] != StagingPath(plan.jobId, id)
  {
    var staged := StagingPath(plan.jobId, id);
    forall other | other in p && other != id ensures p[other] != staged {
      if p[other] == staged {
        assert IsStaging(staged);
        StagingPathInjective(plan.jobId, other, id);
      }
    }
  }

  lemma StageStep(before: PathColumn, plan: Plan, m: nat, p: PathColumn)
    requires WellFormed(before, plan) && m < |plan.moves| && StageState(before, plan, m, p)
    ensures var move := plan.moves[m];
            if Restages(before, move)
            then var w := SetPath(move.target.value, StagingPath(plan.jobId, move.target.value));
                 Accepts(p, w) && StageState(before, plan, m + 1, Step(p, w))
            else StageState(before, plan, m + 1, p)
  {
    MovedStep(before, plan, m);
    if Restages(before, plan.moves[m]) {
      var id := plan.moves[m].target.value;
      StagingNameFree(before, plan, m, p, id);
      assert id in p;
    }
    hide WellFormed; hide StagingPath; hide Moved;
  }

  lemma {:induction false} StagePass(before: PathColumn, plan: Plan, m: nat, p: PathColumn)
    requires WellFormed(before, plan) && m <= |plan.moves| && StageState(before, plan, m, p)
    ensures AllAccepted(p, StageWrites(before, plan, m))
    ensures StageState(before, plan, |plan.moves|, Run(p, StageWrites(before, plan, m)))
    decreases |plan.moves| - m
  {
    hide StageState; hide WellFormed; hide StagingPath; hide Accepts; hide Step;
    if m < |plan.moves| {
      StageStep(before, plan, m, p);
      var move := plan.moves[m];
      if Restages(before, move) {
        var w := SetPath(move.target.value, StagingPath(plan.jobId, move.target.value));
        assert StageWrites(before, plan, m) == [w] + StageWrites(before, plan, m + 1);
        assert ([w] + StageWrites(before, plan, m + 1))[1..] == StageWrites(before, plan, m + 1);
        StagePass(before, plan, m + 1, Step(p, w));
      } else {
        assert StageWrites(before, plan, m) == StageWrites(before, plan, m + 1);
        StagePass(before, plan, m + 1, p);
      }
    }
  }

  function Ids(rows: seq<RowId>): set<RowId> {
    set id | id in rows
  }

  ghost predicate DropState(before: PathColumn, plan: Plan, m: nat, p: PathColumn)
    requires m <= |plan.drops|
  {
    && p.Keys == before.Keys - Ids(plan.drops[..m])
    && forall id :: id in p ==>
         p[id] == if Moved(before, plan, |plan.moves|, id) then StagingPath(plan.jobId, id) else before[id]
  }

  lemma {:induction false} DropPass(before: PathColumn, plan: Plan, m: nat, p: PathColumn)
    requires m <= |plan.drops| && DropState(before, plan, m, p)
    ensures AllAccepted(p, DropWrites(plan, m))
    ensures DropState(before, plan, |plan.drops|, Run(p, DropWrites(plan, m)))
    decreases |plan.drops| - m
  {
    if m < |plan.drops| {
      var w := Delete(plan.drops[m]);
      assert plan.drops[..m + 1] == plan.drops[..m] + [plan.drops[m]];
      assert DropState(before, plan, m + 1, Step(p, w));
      assert ([w] + DropWrites(plan, m + 1))[1..] == DropWrites(plan, m + 1);
      DropPass(before, plan, m + 1, Step(p, w));
    }
  }

  /** Rows and paths once the first m changed files are in place. */
  ghost predicate ApplyState(before: PathColumn, plan: Plan, m: nat, p: PathColumn)
    requires m <= |plan.moves|
  {
    && KeepsUntouched(before, plan, p)
    && (forall k :: 0 <= k < m ==> RowFor(plan, k) in p && p[RowFor(plan, k)] == plan.moves[k].path)
    && (forall k :: m <= k < |plan.moves| && plan.moves[k].target.Some? ==> Pending(before, plan, k, p))
    && (forall id :: id in p ==> Accounted(before, plan, m, id))
  }

  ghost predicate KeepsUntouched(before: PathColumn, plan: Plan, p: PathColumn) {
    forall id :: id in before && Untouched(plan, id) ==> id in p && p[id] == before[id]
  }

  /** The matched row of file k waits under its staging name, or already has the right path. */
  ghost predicate Pending(before: PathColumn, plan: Plan, k: nat, p: PathColumn)
    requires k < |plan.moves|
  {
    var id := RowFor(plan, k);
    id in p && (p[id] == StagingPath(plan.jobId, id) || p[id] == plan.moves[k].path)
  }

  ghost predicate Accounted(before: PathColumn, plan: Plan, m: nat, id: RowId)
    requires m <= |plan.moves|
  {
    || (id in before && Untouched(plan, id))
    || (exists k :: 0 <= k < m && RowFor(plan, k) == id)
    || (exists k :: m <= k < |plan.moves| && plan.moves[k].target.Some? && RowFor(plan, k) == id)
  }

  lemma {:induction false} InsertedMonotone(moves: seq<Move>, a: nat, b: nat)
    requires a <= b <= |moves|
    ensures Inserted(moves, a) <= Inserted(moves, b)
    ensures a < b && moves[a].target.None? ==> Inserted(moves, a) < Inserted(moves, b)
    decreases b - a
  {
    if a < b {
      InsertedMonotone(moves, a, b - 1);
      if a == b - 1 { assert Inserted(moves, b) == Inserted(moves, a) + (if moves[a].target.None? then 1 else 0); }
    }
  }

  /** Different changed files get different rows. */
  lemma RowForInjective(before: PathColumn, plan: Plan, i: nat, j: nat)
    requires WellFormed(before, plan) && i < j < |plan.moves|
    ensures RowFor(plan, i) != RowFor(plan, j)
  {
    InsertedMonotone(plan.moves, i, j);
  }

  lemma ApplyStart(before: PathColumn, plan: Plan, p: PathColumn)
    requires WellFormed(before, plan) && DropState(before, plan, |plan.drops|, p)
    ensures ApplyState(before, plan, 0, p)
  {
    assert plan.drops[..|plan.drops|] == plan.drops;
    forall k | 0 <= k < |plan.moves| && plan.moves[k].target.Some? ensures Pending(before, plan, k, p) {
      var id := RowFor(plan, k);
      assert id in p;
      if before[id] != plan.moves[k].path {
        assert Restages(before, plan.moves[k]);
        assert Moved(before, plan, |plan.moves|, id);
      }
    }
    forall id | id in before && Untouched(plan, id) ensures id in p && p[id] == before[id] {
      assert !Moved(before, plan, |plan.moves|, id);
    }
    forall id | id in p ensures Accounted(before, plan, 0, id) {
      if !Untouched(plan, id) {
        var k :| 0 <= k < |plan.moves| && plan.moves[k].target == Some(id);
        assert RowFor(plan, k) == id;
      }
    }
  }

  lemma OtherRows(before: PathColumn, plan: Plan, m: nat)
    requires WellFormed(before, plan) && m < |plan.moves|
    ensures forall k :: 0 <= k < |plan.moves| && k != m ==> RowFor(plan, k) != RowFor(plan, m)
    ensures !(RowFor(plan, m) in before && Untouched(plan, RowFor(plan, m)))
  {
    forall k | 0 <= k < |plan.moves| && k != m ensures RowFor(plan, k) != RowFor(plan, m) {
      if k < m { RowForInjective(before, plan, k, m); } else { RowForInjective(before, plan, m, k); }
    }
  }

  /** A waiting row neither holds another file's path, nor, under its staging name, any file's path. */
  lemma PendingElsewhere(before: PathColumn, plan: Plan, m: nat, k: nat, p: PathColumn)
    requires WellFormed(before, plan) && m < |plan.moves| && k < |plan.moves| && k != m && Pending(before, plan, k, p)
    ensures p[RowFor(plan, k)] != plan.moves[m].path
  {
    assert IsStaging(StagingPath(plan.jobId, RowFor(plan, k)));
  }

  lemma ApplyFree(before: PathColumn, plan: Plan, m: nat, p: PathColumn, other: RowId)
    requires WellFormed(before, plan) && m < |plan.moves| && ApplyState(before, plan, m, p)
    requires forall id :: id in before && Untouched(plan, id) ==> before[id] != plan.moves[m].path
    requires other in p && other != RowFor(plan, m)
    ensures p[other] != plan.moves[m].path
  {
    assert Accounted(before, plan, m, other);
    if other in before && Untouched(plan, other) {
      assert p[other] == before[other];
    } else if k :| 0 <= k < m && RowFor(plan, k) == other {
      assert plan.moves[k].path != plan.moves[m].path;
    } else {
      var k :| m <= k < |plan.moves| && plan.moves[k].target.Some? && RowFor(plan, k) == other;
      PendingElsewhere(before, plan, m, k, p);
    }
  }

  lemma ApplyFresh(before: PathColumn, plan: Plan, m: nat, p: PathColumn)
    requires WellFormed(before, plan) && m < |plan.moves| && ApplyState(before, plan, m, p)
    ensures plan.moves[m].target.Some? <==> RowFor(plan, m) in p
  {
    var id := RowFor(plan, m);
    OtherRows(before, plan, m);
    if plan.moves[m].target.Some? {
      assert Pending(before, plan, m, p);
    } else if id in p {
      assert false;
    }
  }

  /** Only an untouched row can refuse the write that gives changed file m its row. */
  lemma ApplyAccepts(before: PathColumn, plan: Plan, m: nat, p: PathColumn)
    requires WellFormed(before, plan) && m < |plan.moves| && ApplyState(before, plan, m, p)
    ensures Accepts(p, ApplyWrite(plan, m)) <==>
            forall id :: id in before && Untouched(plan, id) ==> before[id] != plan.moves[m].path
  {
    var id, path := RowFor(plan, m), plan.moves[m].path;
    ApplyFresh(before, plan, m, p);
    if u :| u in before && Untouched(plan, u) && before[u] == path {
      assert u in p && p[u] == path;
      OtherRows(before, plan, m);
    } else {
      forall other | other in p && other != id ensures p[other] != path {
        ApplyFree(before, plan, m, p, other);
      }
    }
  }

  lemma AccountedStep(before: PathColumn, plan: Plan, m: nat, id: RowId)
    requires m < |plan.moves| && (Accounted(before, plan, m, id) || id == RowFor(plan, m))
    ensures Accounted(before, plan, m + 1, id)
  {
    if id == RowFor(plan, m) {
    } else if k :| 0 <= k < m && RowFor(plan, k) == id {
    } else if id in before && Untouched(plan, id) {
    } else {
      var k :| m <= k < |plan.moves| && plan.moves[k].target.Some? && RowFor(plan, k) == id;
      assert k != m;
    }
  }

  lemma ApplyStep(before: PathColumn, plan: Plan, m: nat, p: PathColumn)
    requires WellFormed(before, plan) && m < |plan.moves| && ApplyState(before, plan, m, p)
    ensures ApplyState(before, plan, m + 1, Step(p, ApplyWrite(plan, m)))
  {
    hide Accounted;
    var id := RowFor(plan, m);
    var q := Step(p, ApplyWrite(plan, m));
    assert q == p[id := plan.moves[m].path];
    OtherRows(before, plan, m);
    assert KeepsUntouched(before, plan, q);
    forall k | m + 1 <= k < |plan.moves| && plan.moves[k].target.Some? ensures Pending(before, plan, k, q) {
      assert Pending(before, plan, k, p);
    }
    forall other | other in q ensures Accounted(before, plan, m + 1, other) {
      AccountedStep(before, plan, m, other);
    }
  }

  lemma {:induction false} ApplyPass(before: PathColumn, plan: Plan, m: nat, p: PathColumn)
    requires WellFormed(before, plan) && m <= |plan.moves| && ApplyState(before, plan, m, p)
    ensures ApplyState(before, plan, |plan.moves|, Run(p, ApplyWrites(plan, m)))
    ensures AllAccepted(p, ApplyWrites(plan, m)) <==>
            forall id, k :: id in before && Untouched(plan, id) && m <= k < |plan.moves| ==>
                before[id] != plan.moves[k].path
    decreases |plan.moves| - m
  {
    hide ApplyState, WellFormed;
    if m < |plan.moves| {
      var w := ApplyWrite(plan, m);
      ApplyAccepts(before, plan, m, p);
      ApplyStep(before, plan, m, p);
      assert ([w] + ApplyWrites(plan, m + 1))[1..] == ApplyWrites(plan, m + 1);
      assert Accepts(p, w) <==> forall id :: id in before && Untouched(plan, id) ==> before[id] != plan.moves[m].path;
      hide Accepts; hide Untouched; hide ApplyWrite;
      ApplyPass(before, plan, m + 1, Step(p, w));
    }
  }

  // ----- whole plans -----

  /** Who holds which path at the end is fixed by the plan. */
  lemma FinalState(before: PathColumn, plan: Plan, p: PathColumn, id: RowId)
    requires ApplyState(before, plan, |plan.moves|, p) && id in p
    ensures (id in before && Untouched(plan, id) && p[id] == before[id]) ||
            exists k :: 0 <= k < |plan.moves| && RowFor(plan, k) == id && p[id] == plan.moves[k].path
  {
    assert Accounted(before, plan, |plan.moves|, id);
    if !(id in before && Untouched(plan, id)) {
      var k :| 0 <= k < |plan.moves| && RowFor(plan, k) == id;
      assert p[RowFor(plan, k)] == plan.moves[k].path;
    }
  }

  lemma FinalStateUnique(before: PathColumn, plan: Plan, p: PathColumn, q: PathColumn)
    requires ApplyState(before, plan, |plan.moves|, p) && ApplyState(before, plan, |plan.moves|, q)
    ensures p == q
  {
    forall id | id in p ensures id in q && q[id] == p[id] { FinalState(before, plan, p, id); }
    forall id | id in q ensures id in p { FinalState(before, plan, q, id); }
  }

  lemma FinalStateInjective(before: PathColumn, plan: Plan, p: PathColumn)
    requires WellFormed(before, plan) && !Obstructed(before, plan) && ApplyState(before, plan, |plan.moves|, p)
    ensures Injective(p)
  {
    PlanOutcome(before, plan);
    FinalStateUnique(before, plan, p, Run(before, Writes(before, plan)));
    AcceptedPrefixUnique(before, Writes(before, plan), |Writes(before, plan)|);
    assert Writes(before, plan)[..|Writes(before, plan)|] == Writes(before, plan);
  }

  /** A plan runs without a refused write exactly when no untouched row is in its way, and then leaves
      the untouched rows and one row for every changed file. */
  lemma PlanOutcome(before: PathColumn, plan: Plan)
    requires WellFormed(before, plan)
    ensures AllAccepted(before, Writes(before, plan)) <==> !Obstructed(before, plan)
    ensures ApplyState(before, plan, |plan.moves|, Run(before, Writes(before, plan)))
  {
    var stage, drop, put := StageWrites(before, plan, 0), DropWrites(plan, 0), ApplyWrites(plan, 0);
    assert StageState(before, plan, 0, before);
    StagePass(before, plan, 0, before);
    var staged := Run(before, stage);
    assert plan.drops[..0] == [];
    assert DropState(before, plan, 0, staged);
    DropPass(before, plan, 0, staged);
    var dropped := Run(staged, drop);
    ApplyStart(before, plan, dropped);
    ApplyPass(before, plan, 0, dropped);
    RunConcat(before, stage, drop);
    RunConcat(before, stage + drop, put);
  }

  /** The path column is unique before the first write, after the last, and after every write between. */
  lemma EveryPrefixUnique(before: PathColumn, plan: Plan, k: nat)
    requires WellFormed(before, plan) && !Obstructed(before, plan)
    requires k <= |Writes(before, plan)|
    ensures Injective(Run(before, Writes(before, plan)[..k]))
  {
    PlanOutcome(before, plan);
    AcceptedPrefixUnique(before, Writes(before, plan), k);
  }

  /** The staging pass is needed: without it, two rows that swap their files are always refused. */
  lemma {:induction false} UnstagedSwapRefused(before: PathColumn, plan: Plan, i: nat, j: nat, m: nat, p: PathColumn)
    requires WellFormed(before, plan) && i < j < |plan.moves| && m <= i
    requires plan.moves[i].target.Some? && plan.moves[j].target.Some?
    requires before[plan.moves[j].target.value] == plan.moves[i].path
    requires plan.moves[j].target.value in p && p[plan.moves[j].target.value] == plan.moves[i].path
    ensures !AllAccepted(p, ApplyWrites(plan, m))
    decreases i - m
  {
    hide WellFormed; hide Step; hide Accepts; hide ApplyWrite; hide RowFor;
    var w := ApplyWrite(plan, m);
    assert ([w] + ApplyWrites(plan, m + 1))[1..] == ApplyWrites(plan, m + 1);
    if m < i {
      RowForInjective(before, plan, m, j);
      OtherRowStays(plan, m, j, p);
      UnstagedSwapRefused(before, plan, i, j, m + 1, Step(p, w));
    } else {
      HeldPathRefused(before, plan, i, j, p);
    }
  }

  lemma HeldPathRefused(before: PathColumn, plan: Plan, i: nat, j: nat, p: PathColumn)
    requires WellFormed(before, plan) && i < j < |plan.moves|
    requires plan.moves[i].target.Some? && plan.moves[j].target.Some?
    requires plan.moves[j].target.value in p && p[plan.moves[j].target.value] == plan.moves[i].path
    ensures !Accepts(p, ApplyWrite(plan, i))
  {
    assert RowFor(plan, i) != plan.moves[j].target.value;
  }

  lemma OtherRowStays(plan: Plan, m: nat, j: nat, p: PathColumn)
    requires m < |plan.moves| && j < |plan.moves| && plan.moves[j].target.Some? && RowFor(plan, m) != RowFor(plan, j)
    requires plan.moves[j].target.value in p
    ensures var q := Step(p, ApplyWrite(plan, m));
            plan.moves[j].target.value in q && q[plan.moves[j].target.value] == p[plan.moves[j].target.value]
  {
  }
}
