/** Draining the backlog: recover what was left behind, then repeat
    { claim a batch; mark each claimed event processed }.  The claims may be for
    certain event types only; the empty set stands for all. */
module EventLogDrain {
  import opened EventLog
  import opened EventLogRuns

  /** The batch size and the time of one round. */
  datatype Round = Round(limit: int, now: int)

  predicate Wanted(r: Row, types: set<string>) {
    types == {} || r.eventType in types
  }

  predicate Waiting(r: Row, types: set<string>) {
    (r.status == Pending || r.status == RetryWait) && Wanted(r, types)
  }

  /** The row after a worker claimed it and marked it processed. */
  function Done(r: Row, worker: string, now: int, deadline: int): Row {
    MarkRow(ClaimRow(r, worker, now, deadline), MarkProcessed(now))
  }

  /** mark_processed on each id, one after the other. */
  function MarkEach(rows: seq<Row>, ids: seq<int>, at: int): (out: seq<Row>)
    ensures |out| == |rows|
    decreases |ids|
  {
    if ids == [] then rows else MarkEach(MarkRows(rows, ById(ids[0]), MarkProcessed(at)), ids[1..], at)
  }

  function RunRound(config: Config, rows: seq<Row>, types: set<string>, worker: string, leaseSec: int, round: Round): (out: seq<Row>)
    ensures |out| == |rows|
  {
    var ids := SelectIds(config, rows, round.now, types, round.limit);
    MarkEach(ClaimAll(rows, ids, worker, round.now, round.now + Lease(config, leaseSec)), ids, round.now)
  }

  lemma {:induction false} MarkEachMarks(rows: seq<Row>, ids: seq<int>, at: int, i: int)
    requires 0 <= i < |rows|
    ensures MarkEach(rows, ids, at)[i] == if rows[i].id in ids then MarkRow(rows[i], MarkProcessed(at)) else rows[i]
    decreases |ids|
  {
    if ids != [] {
      var next := MarkRows(rows, ById(ids[0]), MarkProcessed(at));
      MarkEachMarks(next, ids[1..], at, i);
      assert ids == [ids[0]] + ids[1..];
    }
  }

  lemma RoundFinishesItsBatch(config: Config, rows: seq<Row>, types: set<string>, worker: string, leaseSec: int, round: Round, i: int)
    requires 0 <= i < |rows|
    ensures RunRound(config, rows, types, worker, leaseSec, round)[i] ==
              if rows[i].id in SelectIds(config, rows, round.now, types, round.limit)
              then Done(rows[i], worker, round.now, round.now + Lease(config, leaseSec)) else rows[i]
  {
    var ids := SelectIds(config, rows, round.now, types, round.limit);
    MarkEachMarks(ClaimAll(rows, ids, worker, round.now, round.now + Lease(config, leaseSec)), ids, round.now, i);
  }

  /** Every round takes at least one event and comes after every retry time. */
  ghost predicate GoodPlan(config: Config, rows: seq<Row>, types: set<string>, plan: nat -> Round) {
    config.maxPendingReplay >= 1
    && (forall k: nat :: plan(k).limit >= 1)
    && forall k: nat, i :: 0 <= i < |rows| && rows[i].status == RetryWait && Wanted(rows[i], types) ==>
         rows[i].nextRetryAt == Empty || rows[i].nextRetryAt.time <= plan(k).now
  }

  ghost function WaitingRows(rows: seq<Row>, types: set<string>): set<int> {
    set i | 0 <= i < |rows| && Waiting(rows[i], types)
  }

  /** slots lists, in ascending order, exactly the waiting rows. */
  ghost predicate ListsWaiting(rows: seq<Row>, types: set<string>, slots: seq<Slot>) {
    Ascending(slots)
    && forall s :: s in slots <==> exists i :: 0 <= i < |rows| && Waiting(rows[i], types) && SlotOf(rows[i]) == s
  }

  lemma BacklogListsWaiting(config: Config, rows: seq<Row>, types: set<string>, plan: nat -> Round, k: nat)
    requires Table(rows) && GoodPlan(config, rows, types, plan)
    ensures ListsWaiting(rows, types, Backlog(rows, plan(k).now, types))
  {
    BacklogIsTheQuery(rows, plan(k).now, types);
    assert forall i :: 0 <= i < |rows| ==> (Selected(rows[i], plan(k).now, types) <==> Waiting(rows[i], types));
  }

  /** The batch of a round is a head of the backlog, empty only with it. */
  lemma BatchIsHead(config: Config, rows: seq<Row>, types: set<string>, plan: nat -> Round, k: nat)
    requires GoodPlan(config, rows, types, plan)
    ensures var backlog := Backlog(rows, plan(k).now, types);
            var ids := SelectIds(config, rows, plan(k).now, types, plan(k).limit);
            |ids| <= |backlog| && (ids == [] <==> backlog == []) && forall j :: 0 <= j < |ids| ==> ids[j] == backlog[j].id
  {
  }

  predicate SameButStatus(r: Row, r': Row) {
    r'.id == r.id && r'.receivedAt == r.receivedAt && r'.eventType == r.eventType && r'.dedupeKey == r.dedupeKey
  }

  /** What a round does to the table: exactly its batch becomes processed. */
  ghost predicate Finishes(rows: seq<Row>, rows': seq<Row>, ids: seq<int>) {
    |rows'| == |rows|
    && forall i :: 0 <= i < |rows| ==>
         SameButStatus(rows[i], rows'[i])
         && if rows[i].id in ids then rows'[i].status == Processed else rows'[i] == rows[i]
  }

  lemma RoundFinishes(config: Config, rows: seq<Row>, types: set<string>, worker: string, leaseSec: int, round: Round)
    ensures Finishes(rows, RunRound(config, rows, types, worker, leaseSec, round), SelectIds(config, rows, round.now, types, round.limit))
  {
    forall i | 0 <= i < |rows|
      ensures var rows' := RunRound(config, rows, types, worker, leaseSec, round);
              SameButStatus(rows[i], rows'[i])
              && if rows[i].id in SelectIds(config, rows, round.now, types, round.limit)
                 then rows'[i].status == Processed else rows'[i] == rows[i]
    {
      RoundFinishesItsBatch(config, rows, types, worker, leaseSec, round, i);
    }
  }

  lemma FinishingKeepsTable(config: Config, rows: seq<Row>, types: set<string>, rows': seq<Row>, ids: seq<int>, plan: nat -> Round)
    requires Table(rows) && GoodPlan(config, rows, types, plan) && Finishes(rows, rows', ids)
    ensures Table(rows') && GoodPlan(config, rows', types, plan)
  {
  }

  /** The row behind the j-th listed slot. */
  lemma ListedRow(rows: seq<Row>, types: set<string>, slots: seq<Slot>, j: int)
    requires Table(rows) && ListsWaiting(rows, types, slots) && 0 <= j < |slots|
    ensures 1 <= slots[j].id <= |rows| && Waiting(rows[slots[j].id - 1], types) && SlotOf(rows[slots[j].id - 1]) == slots[j]
  {
    assert slots[j] in slots;
    var i :| 0 <= i < |rows| && Waiting(rows[i], types) && SlotOf(rows[i]) == slots[j];
    assert rows[i].id == i + 1;
  }

  /** A listed id occurs once. */
  lemma ListedOnce(rows: seq<Row>, types: set<string>, slots: seq<Slot>, j: int, l: int)
    requires Table(rows) && ListsWaiting(rows, types, slots) && 0 <= j < |slots| && 0 <= l < |slots|
    requires slots[j].id == slots[l].id
    ensures j == l
  {
    ListedRow(rows, types, slots, j);
    ListedRow(rows, types, slots, l);
  }

  /** Finishing the head of the listing of waiting rows leaves its rest. */
  lemma FinishingDropsHead(rows: seq<Row>, types: set<string>, rows': seq<Row>, slots: seq<Slot>, ids: seq<int>)
    requires Table(rows) && ListsWaiting(rows, types, slots)
    requires |ids| <= |slots| && forall j :: 0 <= j < |ids| ==> ids[j] == slots[j].id
    requires Finishes(rows, rows', ids)
    ensures ListsWaiting(rows', types, slots[|ids|..])
  {
    var rest := slots[|ids|..];
    forall s | s in rest ensures exists i :: 0 <= i < |rows'| && Waiting(rows'[i], types) && SlotOf(rows'[i]) == s {
      var j :| 0 <= j < |rest| && rest[j] == s;
      RestIsUntouched(rows, types, rows', slots, ids, |ids| + j);
    }
    forall i | 0 <= i < |rows'| && Waiting(rows'[i], types) ensures SlotOf(rows'[i]) in rest {
      assert rows'[i] == rows[i] && SlotOf(rows[i]) in slots;
      var j :| 0 <= j < |slots| && slots[j] == SlotOf(rows[i]);
      assert j >= |ids|;
      assert rest[j - |ids|] == slots[j];
    }
  }

  lemma RestIsUntouched(rows: seq<Row>, types: set<string>, rows': seq<Row>, slots: seq<Slot>, ids: seq<int>, j: int)
    requires Table(rows) && ListsWaiting(rows, types, slots)
    requires |ids| <= |slots| && forall j :: 0 <= j < |ids| ==> ids[j] == slots[j].id
    requires Finishes(rows, rows', ids) && |ids| <= j < |slots|
    ensures 1 <= slots[j].id <= |rows'| && Waiting(rows'[slots[j].id - 1], types) && SlotOf(rows'[slots[j].id - 1]) == slots[j]
  {
    ListedRow(rows, types, slots, j);
    if slots[j].id in ids {
      var l :| 0 <= l < |ids| && ids[l] == slots[j].id;
      ListedOnce(rows, types, slots, j, l);
    }
  }

  /** A round with a batch leaves strictly fewer rows waiting. */
  lemma FewerWait(rows: seq<Row>, types: set<string>, rows': seq<Row>, slots: seq<Slot>, ids: seq<int>)
    requires Table(rows) && ListsWaiting(rows, types, slots)
    requires 0 < |ids| <= |slots| && forall j :: 0 <= j < |ids| ==> ids[j] == slots[j].id
    requires Finishes(rows, rows', ids)
    ensures WaitingRows(rows', types) < WaitingRows(rows, types)
  {
    ListedRow(rows, types, slots, 0);
    var i := slots[0].id - 1;
    assert rows[i].id == ids[0];
    assert i in WaitingRows(rows, types) && i !in WaitingRows(rows', types);
  }

  /** The whole drain: rounds until a claim comes back empty.  It returns the
      table and the slots of the events handled, in the order they were taken. */
  ghost function Drain(config: Config, rows: seq<Row>, types: set<string>, worker: string, leaseSec: int, plan: nat -> Round, k: nat): (seq<Row>, seq<Slot>)
    requires Table(rows) && GoodPlan(config, rows, types, plan)
    decreases WaitingRows(rows, types)
  {
    var round := plan(k);
    var ids := SelectIds(config, rows, round.now, types, round.limit);
    if ids == [] then (rows, [])
    else
      var next := RunRound(config, rows, types, worker, leaseSec, round);
      RoundIsGood(config, rows, types, worker, leaseSec, plan, k);
      var (last, handled) := Drain(config, next, types, worker, leaseSec, plan, k + 1);
      (last, Backlog(rows, round.now, types)[..|ids|] + handled)
  }

  lemma RoundIsGood(config: Config, rows: seq<Row>, types: set<string>, worker: string, leaseSec: int, plan: nat -> Round, k: nat)
    requires Table(rows) && GoodPlan(config, rows, types, plan)
    ensures var next := RunRound(config, rows, types, worker, leaseSec, plan(k));
            var ids := SelectIds(config, rows, plan(k).now, types, plan(k).limit);
            var backlog := Backlog(rows, plan(k).now, types);
            && Table(next) && GoodPlan(config, next, types, plan) && Finishes(rows, next, ids)
            && |ids| <= |backlog| && (ids == [] <==> backlog == [])
            && ListsWaiting(rows, types, backlog) && ListsWaiting(next, types, backlog[|ids|..])
            && (ids != [] ==> WaitingRows(next, types) < WaitingRows(rows, types))
  {
    var next := RunRound(config, rows, types, worker, leaseSec, plan(k));
    var ids := SelectIds(config, rows, plan(k).now, types, plan(k).limit);
    BacklogListsWaiting(config, rows, types, plan, k);
    BatchIsHead(config, rows, types, plan, k);
    RoundFinishes(config, rows, types, worker, leaseSec, plan(k));
    FinishingKeepsTable(config, rows, types, next, ids, plan);
    FinishingDropsHead(rows, types, next, Backlog(rows, plan(k).now, types), ids);
    if ids != [] {
      FewerWait(rows, types, next, Backlog(rows, plan(k).now, types), ids);
    }
  }

  /** The table after a drain: every waiting row processed, the others as they were. */
  ghost predicate Drained(rows: seq<Row>, types: set<string>, last: seq<Row>) {
    |last| == |rows|
    && forall i :: 0 <= i < |rows| ==>
         SameButStatus(rows[i], last[i])
         && if Waiting(rows[i], types) then last[i].status == Processed else last[i] == rows[i]
  }

  /** Whatever the batch sizes, a drain ends and handles every waiting event
      exactly once, in (received_at, id) order. */
  lemma {:induction false} DrainIsCompleteAndOrdered(config: Config, rows: seq<Row>, types: set<string>, worker: string, leaseSec: int, plan: nat -> Round, k: nat)
    requires Table(rows) && GoodPlan(config, rows, types, plan)
    ensures ListsWaiting(rows, types, Drain(config, rows, types, worker, leaseSec, plan, k).1)
    ensures Drained(rows, types, Drain(config, rows, types, worker, leaseSec, plan, k).0)
    decreases WaitingRows(rows, types)
  {
    RoundIsGood(config, rows, types, worker, leaseSec, plan, k);
    var backlog := Backlog(rows, plan(k).now, types);
    var ids := SelectIds(config, rows, plan(k).now, types, plan(k).limit);
    if ids == [] {
      NothingWaits(rows, types);
    } else {
      var next := RunRound(config, rows, types, worker, leaseSec, plan(k));
      DrainIsCompleteAndOrdered(config, next, types, worker, leaseSec, plan, k + 1);
      AscendingIsUnique(Drain(config, next, types, worker, leaseSec, plan, k + 1).1, backlog[|ids|..]);
      assert backlog[..|ids|] + backlog[|ids|..] == backlog;
      BatchIsHead(config, rows, types, plan, k);
      BatchWaits(rows, types, backlog, ids);
    }
  }

  lemma NothingWaits(rows: seq<Row>, types: set<string>)
    requires ListsWaiting(rows, types, [])
    ensures Drained(rows, types, rows)
  {
    forall i | 0 <= i < |rows| ensures !Waiting(rows[i], types) {
      assert SlotOf(rows[i]) !in [];
    }
  }

  lemma BatchWaits(rows: seq<Row>, types: set<string>, backlog: seq<Slot>, ids: seq<int>)
    requires Table(rows) && ListsWaiting(rows, types, backlog)
    requires |ids| <= |backlog| && forall j :: 0 <= j < |ids| ==> ids[j] == backlog[j].id
    ensures forall i :: 0 <= i < |rows| && rows[i].id in ids ==> Waiting(rows[i], types)
  {
    forall i | 0 <= i < |rows| && rows[i].id in ids ensures Waiting(rows[i], types) {
      var j :| 0 <= j < |ids| && ids[j] == rows[i].id;
      ListedRow(rows, types, backlog, j);
    }
  }

  /** From any state a run reaches without a result marking PROCESSING: recover
      late enough, then drain.  Every open event of the wanted types is handled
      once, in order, and ends processed; every other row is as the recovery left
      it; and if they include the critical ones, the order lifecycle is ready exactly when no
      critical event was dead-lettered. */
  lemma RecoverThenDrain(config: Config, ops: seq<Op>, t: int, types: set<string>, worker: string, leaseSec: int, plan: nat -> Round)
    requires forall k :: 0 <= k < |ops| ==> !SetsProcessing(ops[k])
    requires DeadlinesReached(Run(config, ops, |ops|).rows, t)
    requires GoodPlan(config, RecoverRows(Run(config, ops, |ops|).rows, t), types, plan)
    ensures var rows := Run(config, ops, |ops|).rows;
            var start := RecoverRows(rows, t);
            && Table(start)
            && var (last, handled) := Drain(config, start, types, worker, leaseSec, plan, 0);
               Handles(rows, types, t, last, handled)
  {
    var rows := Run(config, ops, |ops|).rows;
    RunKeepsTable(config, ops, |ops|);
    forall i | 0 <= i < |rows| ensures HasDeadline(rows[i]) {
      ProcessingHasDeadline(config, ops, |ops|, i + 1);
    }
    RecoveryReopens(rows, t);
    var start := RecoverRows(rows, t);
    DrainIsCompleteAndOrdered(config, start, types, worker, leaseSec, plan, 0);
    var (last, handled) := Drain(config, start, types, worker, leaseSec, plan, 0);
    OpenAreHandled(rows, types, start, handled);
    WantedAreProcessed(rows, types, t, last);
    if CoversCritical(types) {
      ReadyAfterDrain(rows, types, start, last);
    }
  }

  /** The recovery at t comes at or after every deadline. */
  ghost predicate DeadlinesReached(rows: seq<Row>, t: int) {
    forall i :: 0 <= i < |rows| && rows[i].status == Processing && rows[i].nextRetryAt != Empty ==> rows[i].nextRetryAt.time <= t
  }

  ghost predicate CoversCritical(types: set<string>) {
    types == {} || REPLAYABLE_TYPES <= types
  }

  /** What recovery and drain do for the open rows of the wanted types. */
  ghost predicate Handles(rows: seq<Row>, types: set<string>, t: int, last: seq<Row>, handled: seq<Slot>) {
    Ascending(handled)
    && (forall i :: 0 <= i < |rows| ==> (SlotOf(rows[i]) in handled <==> Open(rows[i]) && Wanted(rows[i], types)))
    && |last| == |rows|
    && (forall i :: 0 <= i < |last| ==>
          if Open(rows[i]) && Wanted(rows[i], types) then last[i].status == Processed else last[i] == RecoverRow(rows[i], t))
    && (CoversCritical(types) ==>
          (LifecycleReady(last) <==> forall i :: 0 <= i < |rows| && Critical(rows[i]) ==> rows[i].status != DeadLetter))
  }

  /** A table after a late recovery: what was open waits, the rest is untouched. */
  ghost predicate Reopened(rows: seq<Row>, start: seq<Row>) {
    |start| == |rows|
    && forall i :: 0 <= i < |rows| ==>
         SlotOf(start[i]) == SlotOf(rows[i]) && start[i].eventType == rows[i].eventType
         && (Waiting(start[i], {}) <==> Open(rows[i])) && (Open(rows[i]) || start[i] == rows[i])
  }

  lemma RecoveryReopens(rows: seq<Row>, t: int)
    requires Table(rows) && DeadlinesReached(rows, t) && forall i :: 0 <= i < |rows| ==> HasDeadline(rows[i])
    ensures Table(RecoverRows(rows, t)) && Reopened(rows, RecoverRows(rows, t))
  {
    var start := RecoverRows(rows, t);
    forall i | 0 <= i < |rows|
      ensures SlotOf(start[i]) == SlotOf(rows[i]) && start[i].eventType == rows[i].eventType
      ensures (Waiting(start[i], {}) <==> Open(rows[i])) && (Open(rows[i]) || start[i] == rows[i])
    {
      assert HasDeadline(rows[i]);
    }
  }

  lemma OpenAreHandled(rows: seq<Row>, types: set<string>, start: seq<Row>, handled: seq<Slot>)
    requires Table(rows) && Reopened(rows, start) && ListsWaiting(start, types, handled)
    ensures forall i :: 0 <= i < |rows| ==> (SlotOf(rows[i]) in handled <==> Open(rows[i]) && Wanted(rows[i], types))
  {
    forall i | 0 <= i < |rows| ensures SlotOf(rows[i]) in handled <==> Open(rows[i]) && Wanted(rows[i], types) {
      if SlotOf(rows[i]) in handled {
        var j :| 0 <= j < |start| && Waiting(start[j], types) && SlotOf(start[j]) == SlotOf(rows[i]);
        assert SlotOf(rows[j]) == SlotOf(rows[i]) && j == i;
      }
    }
  }

  lemma WantedAreProcessed(rows: seq<Row>, types: set<string>, t: int, last: seq<Row>)
    requires Reopened(rows, RecoverRows(rows, t)) && Drained(RecoverRows(rows, t), types, last)
    ensures forall i :: 0 <= i < |last| ==>
              if Open(rows[i]) && Wanted(rows[i], types) then last[i].status == Processed else last[i] == RecoverRow(rows[i], t)
  {
    forall i | 0 <= i < |rows| ensures Waiting(RecoverRows(rows, t)[i], types) <==> Open(rows[i]) && Wanted(rows[i], types) {
    }
  }

  lemma ReadyAfterDrain(rows: seq<Row>, types: set<string>, start: seq<Row>, last: seq<Row>)
    requires Reopened(rows, start) && Drained(start, types, last) && CoversCritical(types)
    ensures LifecycleReady(last) <==> forall i :: 0 <= i < |rows| && Critical(rows[i]) ==> rows[i].status != DeadLetter
  {
    forall i | 0 <= i < |rows| && Critical(rows[i])
      ensures !Open(last[i]) && (last[i].status == DeadLetter <==> rows[i].status == DeadLetter)
    {
      assert Wanted(start[i], types);
    }
    assert forall i :: 0 <= i < |rows| ==> (Critical(last[i]) <==> Critical(rows[i]));
  }
}
