/** Every interleaving of several processes on one gateway event log.

    A batch claim is one SELECT followed, at any later moments, by one guarded
    UPDATE per selected row; the calls in flight are kept by number, so a call
    may also stop half way.  Everything else is one atomic step. */
module EventLogRuns {
  import opened Common
  import opened EventLog

  datatype Batch = Batch(worker: string, now: int, deadline: int, ids: seq<int>)

  datatype State = State(rows: seq<Row>, batches: map<nat, Batch>)

  datatype Op =
    | DoAppend(event: Event, explicit: string)
    | DoSelect(call: nat, worker: string, leaseSec: int, limit: int, types: set<string>, now: int)
    | DoUpdate(call: nat)
    | DoClaimEvent(ref: Ref, worker: string, leaseSec: int, now: int)
    | DoMark(ref: Ref, m: Marking)
    | DoRecover(now: int)

  const EMPTY_LOG := State([], map[])

  function Step(config: Config, s: State, op: Op): State {
    match op
    case DoAppend(e, explicit) => s.(rows := Append(config, s.rows, e, explicit).0)
    case DoSelect(call, worker, leaseSec, limit, types, now) =>
      s.(batches := s.batches[call :=
        Batch(worker, now, now + Lease(config, leaseSec), SelectIds(config, s.rows, now, types, limit))])
    case DoUpdate(call) =>
      if call !in s.batches || s.batches[call].ids == [] then s
      else
        var b := s.batches[call];
        State(GuardedClaim(s.rows, b.ids[0], b.worker, b.now, b.deadline), s.batches[call := b.(ids := b.ids[1..])])
    case DoClaimEvent(ref, worker, leaseSec, now) =>
      var row := Lookup(s.rows, ref);
      if row.None? || Final(row.value.status) then s
      else s.(rows := DirectClaim(s.rows, row.value.id, worker, now, now + Lease(config, leaseSec)))
    case DoMark(ref, m) => s.(rows := MarkRows(s.rows, ref, m))
    case DoRecover(now) => s.(rows := RecoverRows(s.rows, now))
  }

  /** The state after the first m steps. */
  function Run(config: Config, ops: seq<Op>, m: nat): State
    requires m <= |ops|
  {
    if m == 0 then EMPTY_LOG else Step(config, Run(config, ops, m - 1), ops[m - 1])
  }

  // ------------------------------------------------------- what a step does

  predicate HasRow(s: State, id: int) {
    1 <= id <= |s.rows|
  }

  /** The step is a guarded update that takes row id for its batch. */
  predicate BatchClaims(s: State, op: Op, id: int) {
    op.DoUpdate? && op.call in s.batches && s.batches[op.call].ids != [] && s.batches[op.call].ids[0] == id
    && HasRow(s, id) && Claimable(s.rows[id - 1], s.batches[op.call].now)
  }

  predicate DirectlyClaims(s: State, op: Op, id: int) {
    op.DoClaimEvent? && Lookup(s.rows, op.ref).Some? && Lookup(s.rows, op.ref).value.id == id
    && !Final(Lookup(s.rows, op.ref).value.status)
  }

  predicate Marks(s: State, op: Op, id: int) {
    op.DoMark? && HasRow(s, id) && Matches(s.rows[id - 1], op.ref)
  }

  lemma AppendKeepsTable(config: Config, rows: seq<Row>, e: Event, explicit: string)
    requires Table(rows)
    ensures Table(Append(config, rows, e, explicit).0)
  {
  }

  lemma SameKeysKeepTable(rows: seq<Row>, rows': seq<Row>)
    requires Table(rows) && |rows'| == |rows|
    requires forall i :: 0 <= i < |rows| ==> rows'[i].id == rows[i].id && rows'[i].dedupeKey == rows[i].dedupeKey
    ensures Table(rows')
  {
  }

  lemma StepKeepsTable(config: Config, s: State, op: Op)
    requires Table(s.rows)
    ensures Table(Step(config, s, op).rows)
  {
    if op.DoAppend? {
      AppendKeepsTable(config, s.rows, op.event, op.explicit);
    } else {
      SameKeysKeepTable(s.rows, Step(config, s, op).rows);
    }
  }

  lemma {:induction false} RunKeepsTable(config: Config, ops: seq<Op>, m: nat)
    requires m <= |ops|
    ensures Table(Run(config, ops, m).rows)
  {
    if m > 0 {
      RunKeepsTable(config, ops, m - 1);
      StepKeepsTable(config, Run(config, ops, m - 1), ops[m - 1]);
    }
  }

  /** What any step does to one stored row, case by case. */
  lemma StepOnRow(config: Config, s: State, op: Op, id: int)
    requires Table(s.rows) && HasRow(s, id)
    ensures HasRow(Step(config, s, op), id)
    ensures var r, r' := s.rows[id - 1], Step(config, s, op).rows[id - 1];
            r' == if BatchClaims(s, op, id) then ClaimRow(r, s.batches[op.call].worker, s.batches[op.call].now, s.batches[op.call].deadline)
                  else if DirectlyClaims(s, op, id) then ClaimRow(r, op.worker, op.now, op.now + Lease(config, op.leaseSec))
                  else if Marks(s, op, id) then MarkRow(r, op.m)
                  else if op.DoRecover? then RecoverRow(r, op.now)
                  else r
  {
  }

  predicate SameIdentity(r: Row, r': Row) {
    r'.id == r.id && r'.dedupeKey == r.dedupeKey && r'.eventId == r.eventId
    && r'.eventType == r.eventType && r'.receivedAt == r.receivedAt
  }

  lemma StepKeepsIdentity(config: Config, s: State, op: Op, id: int)
    requires Table(s.rows) && HasRow(s, id)
    ensures HasRow(Step(config, s, op), id) && SameIdentity(s.rows[id - 1], Step(config, s, op).rows[id - 1])
  {
    StepOnRow(config, s, op, id);
  }

  /** Once stored, a row keeps its place, identity and order for ever. */
  lemma {:induction false} IdentityIsKept(config: Config, ops: seq<Op>, i: nat, m: nat, id: int)
    requires i <= m <= |ops|
    requires HasRow(Run(config, ops, i), id)
    ensures HasRow(Run(config, ops, m), id)
    ensures SameIdentity(Run(config, ops, i).rows[id - 1], Run(config, ops, m).rows[id - 1])
    decreases m
  {
    if i < m {
      IdentityIsKept(config, ops, i, m - 1, id);
      RunKeepsTable(config, ops, m - 1);
      StepKeepsIdentity(config, Run(config, ops, m - 1), ops[m - 1], id);
    }
  }

  function Updates(config: Config, s: State, call: nat, n: nat): State {
    if n == 0 then s else Step(config, Updates(config, s, call, n - 1), DoUpdate(call))
  }

  /** The state after n updates of a batch, on the rows it was selected from. */
  ghost predicate Through(rows: seq<Row>, b: Batch, n: nat, call: nat, after: State) {
    n <= |b.ids| && call in after.batches && after.batches[call] == b.(ids := b.ids[n..])
    && after.rows == ClaimAll(rows, b.ids[..n], b.worker, b.now, b.deadline)
  }

  lemma OneMoreUpdate(config: Config, rows: seq<Row>, b: Batch, n: nat, call: nat, s: State)
    requires Table(rows) && ClaimableIds(rows, b.ids, b.now) && n < |b.ids|
    requires Through(rows, b, n, call, s)
    ensures Through(rows, b, n + 1, call, Step(config, s, DoUpdate(call)))
  {
    GuardedClaimExtends(rows, b.ids, n, b.worker, b.now, b.deadline);
    assert b.ids[n..][0] == b.ids[n] && b.ids[n..][1..] == b.ids[n + 1..];
  }

  lemma {:induction false} UpdatesGoThrough(config: Config, s: State, b: Batch, n: nat, call: nat)
    requires Table(s.rows) && ClaimableIds(s.rows, b.ids, b.now) && n <= |b.ids|
    requires call in s.batches && s.batches[call] == b
    ensures Through(s.rows, b, n, call, Updates(config, s, call, n))
    decreases n
  {
    if n == 0 {
      assert b.ids[0..] == b.ids;
      assert s.rows == ClaimAll(s.rows, b.ids[..0], b.worker, b.now, b.deadline);
    } else {
      UpdatesGoThrough(config, s, b, n - 1, call);
      OneMoreUpdate(config, s.rows, b, n - 1, call, Updates(config, s, call, n - 1));
    }
  }

  /** With nobody in between, a SELECT and its updates are the one-piece claim. */
  lemma UninterruptedBatchIsTheClaim(config: Config, s: State, op: Op, n: nat)
    requires Table(s.rows) && op.DoSelect?
    requires n <= |SelectIds(config, s.rows, op.now, op.types, op.limit)|
    ensures var ids := SelectIds(config, s.rows, op.now, op.types, op.limit);
            var after := Updates(config, Step(config, s, op), op.call, n);
            && op.call in after.batches
            && after.batches[op.call] == Batch(op.worker, op.now, op.now + Lease(config, op.leaseSec), ids[n..])
            && after.rows == ClaimAll(s.rows, ids[..n], op.worker, op.now, op.now + Lease(config, op.leaseSec))
  {
    SelectIdsAreClaimable(config, s.rows, op.now, op.types, op.limit);
    var selected := Step(config, s, op);
    SelectReadsOnly(config, s, op);
    UpdatesGoThrough(config, selected, selected.batches[op.call], n, op.call);
    assert Through(s.rows, selected.batches[op.call], n, op.call, Updates(config, selected, op.call, n));
  }

  lemma SelectReadsOnly(config: Config, s: State, op: Op)
    requires op.DoSelect?
    ensures var s' := Step(config, s, op);
            && s'.rows == s.rows && op.call in s'.batches
            && s'.batches[op.call] == Batch(op.worker, op.now, op.now + Lease(config, op.leaseSec),
                                            SelectIds(config, s.rows, op.now, op.types, op.limit))
  {
  }

  // ------------------------------------------------------- only due rows move

  /** ids is what is left of the chosen list. */
  predicate IsRest(ids: seq<int>, chosen: seq<int>) {
    |ids| <= |chosen| && ids == chosen[|chosen| - |ids|..]
  }

  lemma RestOfRest(ids: seq<int>, chosen: seq<int>)
    requires IsRest(ids, chosen) && ids != []
    ensures IsRest(ids[1..], chosen)
  {
    assert chosen[|chosen| - |ids|..][1..] == chosen[|chosen| - (|ids| - 1)..];
  }

  /** The batch is one that this SELECT on this table made, or what is left of it. */
  predicate BatchOf(config: Config, rows: seq<Row>, op: Op, b: Batch)
    requires op.DoSelect?
  {
    && b.worker == op.worker && b.now == op.now && b.deadline == op.now + Lease(config, op.leaseSec)
    && IsRest(b.ids, SelectIds(config, rows, op.now, op.types, op.limit))
  }

  lemma StepOnBatch(config: Config, s: State, op: Op, call: nat)
    requires call in Step(config, s, op).batches && !(op.DoSelect? && op.call == call)
    ensures call in s.batches
    ensures var b, b' := s.batches[call], Step(config, s, op).batches[call];
            b' == b || (b.ids != [] && b' == b.(ids := b.ids[1..]))
  {
  }

  lemma BatchStays(config: Config, rows: seq<Row>, select: Op, s: State, op: Op, call: nat)
    requires select.DoSelect? && call in Step(config, s, op).batches && !(op.DoSelect? && op.call == call)
    requires call in s.batches && BatchOf(config, rows, select, s.batches[call])
    ensures BatchOf(config, rows, select, Step(config, s, op).batches[call])
  {
    StepOnBatch(config, s, op, call);
    var b := s.batches[call];
    if Step(config, s, op).batches[call] != b {
      RestOfRest(b.ids, SelectIds(config, rows, select.now, select.types, select.limit));
    }
  }

  lemma SelectMakesABatch(config: Config, s: State, op: Op)
    requires op.DoSelect?
    ensures op.call in Step(config, s, op).batches && BatchOf(config, s.rows, op, Step(config, s, op).batches[op.call])
  {
  }

  /** Step j is the last SELECT of the call within the first m steps. */
  ghost predicate LastSelect(ops: seq<Op>, m: nat, call: nat, j: nat)
    requires m <= |ops|
  {
    j < m && ops[j].DoSelect? && ops[j].call == call && forall x :: j < x < m && ops[x].DoSelect? ==> ops[x].call != call
  }

  /** Of its batch in flight after m steps: step j selected it. */
  ghost predicate SelectedAt(config: Config, ops: seq<Op>, m: nat, call: nat, j: nat)
    requires m <= |ops| && call in Run(config, ops, m).batches
  {
    LastSelect(ops, m, call, j) && BatchOf(config, Run(config, ops, j).rows, ops[j], Run(config, ops, m).batches[call])
  }

  lemma SelectedAtLastStep(config: Config, ops: seq<Op>, m: nat, call: nat)
    requires m < |ops| && ops[m].DoSelect? && ops[m].call == call
    ensures call in Run(config, ops, m + 1).batches && SelectedAt(config, ops, m + 1, call, m)
  {
    SelectMakesABatch(config, Run(config, ops, m), ops[m]);
  }

  lemma SelectedAtStays(config: Config, ops: seq<Op>, m: nat, call: nat, j: nat)
    requires m < |ops| && !(ops[m].DoSelect? && ops[m].call == call)
    requires call in Run(config, ops, m).batches && call in Run(config, ops, m + 1).batches
    requires SelectedAt(config, ops, m, call, j)
    ensures SelectedAt(config, ops, m + 1, call, j)
  {
    BatchStays(config, Run(config, ops, j).rows, ops[j], Run(config, ops, m), ops[m], call);
  }

  /** Every batch in flight has the time, the worker and the lease of the last
      SELECT of its call, and of the rows chosen there those still to be updated. */
  lemma {:induction false} BatchesAreSelected(config: Config, ops: seq<Op>, m: nat, call: nat)
    requires m <= |ops| && call in Run(config, ops, m).batches
    ensures exists j: nat :: SelectedAt(config, ops, m, call, j)
  {
    if m == 0 {
      assert false;
    } else if ops[m - 1].DoSelect? && ops[m - 1].call == call {
      SelectedAtLastStep(config, ops, m - 1, call);
    } else {
      StepOnBatch(config, Run(config, ops, m - 1), ops[m - 1], call);
      BatchesAreSelected(config, ops, m - 1, call);
      var j: nat :| SelectedAt(config, ops, m - 1, call, j);
      SelectedAtStays(config, ops, m - 1, call, j);
    }
  }

  /** Over every run: a row that a guarded update changes is the one its batch names
      next, it was PENDING, or RETRY_WAIT with a retry time that is empty or had
      come by the time of the batch, and it is claimed for that batch. */
  lemma UpdatesClaimDueRowsOnly(config: Config, ops: seq<Op>, k: nat, id: int)
    requires k < |ops| && ops[k].DoUpdate? && HasRow(Run(config, ops, k), id)
    requires Run(config, ops, k + 1).rows[id - 1] != Run(config, ops, k).rows[id - 1]
    ensures var s, call := Run(config, ops, k), ops[k].call;
            && call in s.batches && s.batches[call].ids != [] && s.batches[call].ids[0] == id
            && var r, b := s.rows[id - 1], s.batches[call];
               && (r.status == Pending
                   || (r.status == RetryWait && (r.nextRetryAt == Empty || r.nextRetryAt.time <= b.now)))
               && ClaimedColumns(r, Run(config, ops, k + 1).rows[id - 1], b.worker, b.now, b.deadline)
  {
    RunKeepsTable(config, ops, k);
    StepOnRow(config, Run(config, ops, k), ops[k], id);
  }

  /** And such a row is claimed; any other, in particular one that waits for a
      later retry, stays as it is. */
  lemma UpdatesClaimExactlyTheDue(config: Config, ops: seq<Op>, k: nat)
    requires k < |ops| && ops[k].DoUpdate? && ops[k].call in Run(config, ops, k).batches
    requires Run(config, ops, k).batches[ops[k].call].ids != []
    requires HasRow(Run(config, ops, k), Run(config, ops, k).batches[ops[k].call].ids[0])
    ensures var b := Run(config, ops, k).batches[ops[k].call];
            var r, r' := Run(config, ops, k).rows[b.ids[0] - 1], Run(config, ops, k + 1).rows[b.ids[0] - 1];
            if r.status == Pending || (r.status == RetryWait && (r.nextRetryAt == Empty || r.nextRetryAt.time <= b.now))
            then ClaimedColumns(r, r', b.worker, b.now, b.deadline) else r' == r
  {
    RunKeepsTable(config, ops, k);
    StepOnRow(config, Run(config, ops, k), ops[k], Run(config, ops, k).batches[ops[k].call].ids[0]);
  }

  // -------------------------------------------------------- lease exclusivity

  function DeadlineOf(s: State, op: Op): int
    requires op.DoUpdate? && op.call in s.batches
  {
    s.batches[op.call].deadline
  }

  /** Row id is held by a claim that runs to the deadline. */
  predicate Holds(s: State, id: int, deadline: int) {
    HasRow(s, id) && s.rows[id - 1].status == Processing && s.rows[id - 1].nextRetryAt == At(deadline)
  }

  /** A marking or a direct claim of row id, both of which end a batch claim. */
  predicate Touches(s: State, op: Op, id: int) {
    Marks(s, op, id) || DirectlyClaims(s, op, id)
  }

  predicate Recovers(op: Op, deadline: int) {
    op.DoRecover? && deadline <= op.now
  }

  lemma ClaimTakesHold(config: Config, ops: seq<Op>, i: nat, id: int)
    requires i < |ops| && BatchClaims(Run(config, ops, i), ops[i], id)
    ensures Holds(Run(config, ops, i + 1), id, DeadlineOf(Run(config, ops, i), ops[i]))
  {
    RunKeepsTable(config, ops, i);
    StepOnRow(config, Run(config, ops, i), ops[i], id);
  }

  lemma HoldIsKept(config: Config, ops: seq<Op>, k: nat, id: int, deadline: int)
    requires k < |ops| && Holds(Run(config, ops, k), id, deadline)
    requires !Touches(Run(config, ops, k), ops[k], id) && !Recovers(ops[k], deadline)
    ensures Holds(Run(config, ops, k + 1), id, deadline)
  {
    RunKeepsTable(config, ops, k);
    StepOnRow(config, Run(config, ops, k), ops[k], id);
  }

  /** A claim stays in force until its row is touched or its lease recovered. */
  lemma {:induction false} ClaimStaysInForce(config: Config, ops: seq<Op>, i: nat, m: nat, id: int)
    requires i < m <= |ops|
    requires BatchClaims(Run(config, ops, i), ops[i], id)
    requires forall k :: i < k < m ==> !Touches(Run(config, ops, k), ops[k], id)
    requires forall k :: i < k < m ==> !Recovers(ops[k], DeadlineOf(Run(config, ops, i), ops[i]))
    ensures Holds(Run(config, ops, m), id, DeadlineOf(Run(config, ops, i), ops[i]))
    decreases m
  {
    if m == i + 1 {
      ClaimTakesHold(config, ops, i, id);
    } else {
      ClaimStaysInForce(config, ops, i, m - 1, id);
      HoldIsKept(config, ops, m - 1, id, DeadlineOf(Run(config, ops, i), ops[i]));
    }
  }

  /** Two batch claims of one row with no marking or direct claim between them
      are separated by a recovery that had reached the first one's deadline. */
  lemma LeaseExclusivity(config: Config, ops: seq<Op>, i: nat, j: nat, id: int)
    requires i < j < |ops|
    requires BatchClaims(Run(config, ops, i), ops[i], id)
    requires BatchClaims(Run(config, ops, j), ops[j], id)
    requires forall k :: i < k < j ==> !Touches(Run(config, ops, k), ops[k], id)
    ensures exists k :: i < k < j && Recovers(ops[k], DeadlineOf(Run(config, ops, i), ops[i]))
  {
    if forall k :: i < k < j ==> !Recovers(ops[k], DeadlineOf(Run(config, ops, i), ops[i])) {
      ClaimStaysInForce(config, ops, i, j, id);
      assert false;
    }
  }

  /** A batch in flight carries the time of its SELECT and a lease of at least a second. */
  ghost predicate Leased(s: State) {
    forall c :: c in s.batches ==> s.batches[c].now + 1 <= s.batches[c].deadline
  }

  lemma StepKeepsLeased(config: Config, s: State, op: Op)
    requires Leased(s)
    ensures Leased(Step(config, s, op))
  {
  }

  lemma {:induction false} BatchesAreLeased(config: Config, ops: seq<Op>, m: nat)
    requires m <= |ops|
    ensures Leased(Run(config, ops, m))
  {
    if m > 0 {
      BatchesAreLeased(config, ops, m - 1);
      StepKeepsLeased(config, Run(config, ops, m - 1), ops[m - 1]);
    }
  }

  /** On one clock: if steps happen at non-decreasing times and a recovery never
      looks ahead of its own time, then no two workers batch-claim a row
      within the lease of the first claim. */
  lemma OneWorkerPerLease(config: Config, ops: seq<Op>, wall: seq<int>, i: nat, j: nat, id: int)
    requires i < j < |ops| == |wall|
    requires forall k, l :: 0 <= k < l < |wall| ==> wall[k] <= wall[l]
    requires forall k :: 0 <= k < |ops| && ops[k].DoRecover? ==> ops[k].now <= wall[k]
    requires BatchClaims(Run(config, ops, i), ops[i], id)
    requires BatchClaims(Run(config, ops, j), ops[j], id)
    requires forall k :: i < k < j ==> !Touches(Run(config, ops, k), ops[k], id)
    ensures DeadlineOf(Run(config, ops, i), ops[i]) <= wall[j]
    ensures Run(config, ops, i).batches[ops[i].call].now + 1 <= wall[j]
  {
    LeaseExclusivity(config, ops, i, j, id);
    BatchesAreLeased(config, ops, i);
  }

  /** What the guard does not promise.  Over every run, a batch claim is stale at
      t the moment it is made exactly when the deadline that its SELECT computed
      has been reached by t, however late the update comes. */
  lemma ClaimIsBornStaleExactlyWhen(config: Config, ops: seq<Op>, j: nat, id: int, t: int)
    requires j < |ops| && BatchClaims(Run(config, ops, j), ops[j], id)
    ensures HasRow(Run(config, ops, j + 1), id)
    ensures Stale(Run(config, ops, j + 1).rows[id - 1], t) <==> DeadlineOf(Run(config, ops, j), ops[j]) <= t
  {
    ClaimTakesHold(config, ops, j, id);
  }

  /** A run of two workers on one event: both select it, the first claims it, its
      lease runs out and is recovered at t, then the update of the second lands. */
  function LateRun(e: Event, leaseSec: int, limit: int, t: int): (ops: seq<Op>)
    ensures |ops| == 6
  {
    [DoAppend(e, ""), DoSelect(1, "first", leaseSec, limit, {}, 0), DoSelect(2, "second", leaseSec, limit, {}, 0),
     DoUpdate(1), DoRecover(t), DoUpdate(2)]
  }

  lemma OneRowIsSelected(config: Config, row: Row, limit: int)
    requires row.id == 1 && row.status == Pending && ResolvedLimit(config, limit) >= 1
    ensures SelectIds(config, [row], 0, {}, limit) == [1]
  {
    assert [row][..0] == [] && [row][1..] == [];
    assert Backlog([row], 0, {}) == [SlotOf(row)];
  }

  lemma FirstSteps(config: Config, e: Event, leaseSec: int, limit: int, t: int)
    requires Accepts(config, e) && e.serializationError == "" && ResolvedLimit(config, limit) >= 1
    ensures var s := Run(config, LateRun(e, leaseSec, limit, t), 3);
            var row := NewRow(1, e, KeyOf(e, ""));
            var deadline := Lease(config, leaseSec);
            s == State([row], map[1 := Batch("first", 0, deadline, [1]), 2 := Batch("second", 0, deadline, [1])])
  {
    var ops, row := LateRun(e, leaseSec, limit, t), NewRow(1, e, KeyOf(e, ""));
    NextState(config, ops, 0);
    assert Run(config, ops, 1) == State([row], map[]);
    OneRowIsSelected(config, row, limit);
    NextState(config, ops, 1);
    NextState(config, ops, 2);
  }

  lemma NextState(config: Config, ops: seq<Op>, m: nat)
    requires m < |ops|
    ensures Run(config, ops, m + 1) == Step(config, Run(config, ops, m), ops[m])
  {
  }

  /** Update, recovery and the other update, on a row that both have selected. */
  lemma LastSteps(config: Config, s: State, first: nat, second: nat, id: int, t: int)
    requires Table(s.rows) && HasRow(s, id) && s.rows[id - 1].status == Pending && first != second
    requires first in s.batches && s.batches[first].ids != [] && s.batches[first].ids[0] == id
    requires second in s.batches && s.batches[second].ids != [] && s.batches[second].ids[0] == id
    requires s.batches[first].deadline <= t
    ensures var s1 := Step(config, s, DoUpdate(first));
            var s2 := Step(config, s1, DoRecover(t));
            && BatchClaims(s, DoUpdate(first), id) && BatchClaims(s2, DoUpdate(second), id)
            && s2.batches[second] == s.batches[second]
  {
    var s1 := Step(config, s, DoUpdate(first));
    StepOnRow(config, s, DoUpdate(first), id);
    StepKeepsTable(config, s, DoUpdate(first));
    StepOnRow(config, s1, DoRecover(t), id);
  }

  /** So in that run the second claim is stale at the very recovery time. */
  lemma LateUpdateMayBeBornStale(config: Config, e: Event, leaseSec: int, limit: int)
    requires Accepts(config, e) && e.serializationError == "" && ResolvedLimit(config, limit) >= 1
    ensures var t := Lease(config, leaseSec);
            var ops := LateRun(e, leaseSec, limit, t);
            && BatchClaims(Run(config, ops, 3), ops[3], 1) && BatchClaims(Run(config, ops, 5), ops[5], 1)
            && HasRow(Run(config, ops, 6), 1) && Stale(Run(config, ops, 6).rows[0], t)
  {
    var t := Lease(config, leaseSec);
    var ops := LateRun(e, leaseSec, limit, t);
    FirstSteps(config, e, leaseSec, limit, t);
    RunKeepsTable(config, ops, 3);
    LastSteps(config, Run(config, ops, 3), 1, 2, 1, t);
    NextState(config, ops, 3);
    NextState(config, ops, 4);
    ClaimIsBornStaleExactlyWhen(config, ops, 5, 1, t);
  }

  // ------------------------------------------------------------ row coherence

  predicate SetsProcessing(op: Op) {
    op.DoMark? && op.m.MarkResult? && op.m.status == Processing
  }

  predicate Coherent(r: Row) {
    (r.claimedAt != Empty ==> r.status == Processing)
    && (r.claimedBy != "" ==> r.status == Processing)
    && (r.nextRetryAt != Empty ==> r.status == Processing || r.status == RetryWait)
  }

  /** How often row id was claimed, by a batch or directly, in the first m steps. */
  function Claims(config: Config, ops: seq<Op>, m: nat, id: int): nat
    requires m <= |ops|
  {
    if m == 0 then 0
    else
      var s := Run(config, ops, m - 1);
      Claims(config, ops, m - 1, id) + if BatchClaims(s, ops[m - 1], id) || DirectlyClaims(s, ops[m - 1], id) then 1 else 0
  }

  lemma StepKeepsCoherence(config: Config, s: State, op: Op, id: int)
    requires Table(s.rows) && HasRow(s, id) && Coherent(s.rows[id - 1])
    ensures HasRow(Step(config, s, op), id) && Coherent(Step(config, s, op).rows[id - 1])
    ensures Step(config, s, op).rows[id - 1].attempts
            == s.rows[id - 1].attempts + if BatchClaims(s, op, id) || DirectlyClaims(s, op, id) then 1 else 0
  {
    StepOnRow(config, s, op, id);
  }

  lemma NewRowsAreCoherent(config: Config, s: State, op: Op, id: int)
    requires Table(s.rows) && !HasRow(s, id)
    ensures !BatchClaims(s, op, id) && !DirectlyClaims(s, op, id)
    ensures HasRow(Step(config, s, op), id) ==>
              Coherent(Step(config, s, op).rows[id - 1]) && Step(config, s, op).rows[id - 1].attempts == 0
              && Step(config, s, op).rows[id - 1].status != Processing
  {
  }

  /** In every reachable state a claim time or owner means PROCESSING, a retry
      time means PROCESSING or RETRY_WAIT, and the attempts are the claims. */
  lemma {:induction false} RowsStayCoherent(config: Config, ops: seq<Op>, m: nat, id: int)
    requires m <= |ops|
    ensures var s := Run(config, ops, m);
            && (HasRow(s, id) ==> Coherent(s.rows[id - 1]) && s.rows[id - 1].attempts == Claims(config, ops, m, id))
            && (!HasRow(s, id) ==> Claims(config, ops, m, id) == 0)
  {
    if m > 0 {
      var before := Run(config, ops, m - 1);
      RowsStayCoherent(config, ops, m - 1, id);
      RunKeepsTable(config, ops, m - 1);
      if HasRow(before, id) {
        StepKeepsCoherence(config, before, ops[m - 1], id);
      } else {
        NewRowsAreCoherent(config, before, ops[m - 1], id);
      }
    }
  }

  predicate HasDeadline(r: Row) {
    r.status == Processing ==> r.nextRetryAt != Empty
  }

  lemma StepKeepsDeadline(config: Config, s: State, op: Op, id: int)
    requires Table(s.rows) && HasRow(s, id) && HasDeadline(s.rows[id - 1]) && !SetsProcessing(op)
    ensures HasRow(Step(config, s, op), id) && HasDeadline(Step(config, s, op).rows[id - 1])
  {
    StepOnRow(config, s, op, id);
  }

  /** A PROCESSING row has a deadline, unless a result marking wrote PROCESSING. */
  lemma {:induction false} ProcessingHasDeadline(config: Config, ops: seq<Op>, m: nat, id: int)
    requires m <= |ops| && forall k :: 0 <= k < m ==> !SetsProcessing(ops[k])
    requires HasRow(Run(config, ops, m), id)
    ensures HasDeadline(Run(config, ops, m).rows[id - 1])
  {
    if m > 0 {
      var before := Run(config, ops, m - 1);
      RunKeepsTable(config, ops, m - 1);
      if HasRow(before, id) {
        ProcessingHasDeadline(config, ops, m - 1, id);
        StepKeepsDeadline(config, before, ops[m - 1], id);
      } else {
        NewRowsAreCoherent(config, before, ops[m - 1], id);
      }
    }
  }

  lemma StuckAtAStep(config: Config, s: State, op: Op, id: int)
    requires Table(s.rows) && HasRow(s, id) && !HasDeadline(s.rows[id - 1]) && !Touches(s, op, id)
    ensures HasRow(Step(config, s, op), id) && Step(config, s, op).rows[id - 1] == s.rows[id - 1]
  {
    StepOnRow(config, s, op, id);
  }

  /** A PROCESSING row without a deadline is out of reach of recovery and of
      batch claims: only a marking or a direct claim ever moves it again. */
  lemma {:induction false} WithoutDeadlineARowIsStuck(config: Config, ops: seq<Op>, i: nat, m: nat, id: int)
    requires i <= m <= |ops|
    requires HasRow(Run(config, ops, i), id) && !HasDeadline(Run(config, ops, i).rows[id - 1])
    requires forall k :: i <= k < m ==> !Touches(Run(config, ops, k), ops[k], id)
    ensures HasRow(Run(config, ops, m), id) && Run(config, ops, m).rows[id - 1] == Run(config, ops, i).rows[id - 1]
    decreases m
  {
    if i < m {
      WithoutDeadlineARowIsStuck(config, ops, i, m - 1, id);
      RunKeepsTable(config, ops, m - 1);
      StuckAtAStep(config, Run(config, ops, m - 1), ops[m - 1], id);
    }
  }

  /** Exactly which marking strands a row that way: a result marking with the
      status PROCESSING on a row whose retry time is empty. */
  lemma StrandedExactlyWhen(r: Row, m: Marking)
    requires HasDeadline(r)
    ensures !HasDeadline(MarkRow(r, m)) <==>
            m.MarkResult? && m.status == Processing && r.nextRetryAt == Empty
  {
  }

  // ------------------------------------------------------ idempotent ingestion

  predicate Stored(rows: seq<Row>, key: string) {
    FindByKey(rows, key).Some?
  }

  lemma {:induction false} FindByKeyIsTheRow(rows: seq<Row>, key: string, i: int)
    requires Table(rows) && 0 <= i < |rows| && rows[i].dedupeKey == key
    ensures FindByKey(rows, key) == Some(rows[i])
  {
    var found := FindByKey(rows, key);
    var k :| 0 <= k < |rows| && rows[k] == found.value;
    assert k == i;
  }

  /** Appending an accepted event whose key some row has returns that row. */
  lemma AppendFindsRow(config: Config, rows: seq<Row>, e: Event, explicit: string, id: int)
    requires Table(rows) && 1 <= id <= |rows| && rows[id - 1].dedupeKey == KeyOf(e, explicit) && Accepts(config, e)
    ensures Append(config, rows, e, explicit) == (rows, Duplicate(rows[id - 1]))
  {
    FindByKeyIsTheRow(rows, KeyOf(e, explicit), id - 1);
  }

  /** Whatever it answers, an accepted append leaves its record stored. */
  lemma AppendStores(config: Config, rows: seq<Row>, e: Event, explicit: string)
    requires Table(rows) && Accepts(config, e)
    ensures var (rows', result) := Append(config, rows, e, explicit);
            !result.AppendIgnored? && 1 <= result.record.id <= |rows'|
            && rows'[result.record.id - 1] == result.record && result.record.dedupeKey == KeyOf(e, explicit)
  {
    var found := FindByKey(rows, KeyOf(e, explicit));
    if found.Some? {
      var i :| 0 <= i < |rows| && rows[i] == found.value;
    }
  }

  /** The record an append at position i of a run leaves stored. */
  function FirstRecord(config: Config, ops: seq<Op>, i: nat): Row
    requires i < |ops| && ops[i].DoAppend? && Accepts(config, ops[i].event)
  {
    Append(config, Run(config, ops, i).rows, ops[i].event, ops[i].explicit).1.record
  }

  lemma AppendStep(config: Config, ops: seq<Op>, i: nat)
    requires i < |ops| && ops[i].DoAppend?
    ensures Run(config, ops, i + 1).rows == Append(config, Run(config, ops, i).rows, ops[i].event, ops[i].explicit).0
  {
    assert Run(config, ops, i + 1) == Step(config, Run(config, ops, i), ops[i]);
  }

  lemma FirstRecordIsStored(config: Config, ops: seq<Op>, i: nat)
    requires i < |ops| && ops[i].DoAppend? && Accepts(config, ops[i].event)
    ensures var first, rows := FirstRecord(config, ops, i), Run(config, ops, i + 1).rows;
            && 1 <= first.id <= |rows| && rows[first.id - 1] == first
            && first.dedupeKey == KeyOf(ops[i].event, ops[i].explicit)
  {
    RunKeepsTable(config, ops, i);
    AppendStep(config, ops, i);
    AppendStores(config, Run(config, ops, i).rows, ops[i].event, ops[i].explicit);
  }

  lemma FirstRecordStays(config: Config, ops: seq<Op>, i: nat, m: nat)
    requires i < m <= |ops| && ops[i].DoAppend? && Accepts(config, ops[i].event)
    ensures var first, rows := FirstRecord(config, ops, i), Run(config, ops, m).rows;
            && 1 <= first.id <= |rows| && SameIdentity(first, rows[first.id - 1])
            && first.dedupeKey == KeyOf(ops[i].event, ops[i].explicit)
  {
    FirstRecordIsStored(config, ops, i);
    RowStaysItself(config, ops, i + 1, m, FirstRecord(config, ops, i));
  }

  lemma RowStaysItself(config: Config, ops: seq<Op>, i: nat, m: nat, row: Row)
    requires i <= m <= |ops| && HasRow(Run(config, ops, i), row.id) && Run(config, ops, i).rows[row.id - 1] == row
    ensures HasRow(Run(config, ops, m), row.id) && SameIdentity(row, Run(config, ops, m).rows[row.id - 1])
  {
    IdentityIsKept(config, ops, i, m, row.id);
  }

  /** Replaying a stored event, anywhere in any run, changes no row and returns
      the row that was stored the first time, in its present state. */
  lemma ReplayChangesNothing(config: Config, ops: seq<Op>, i: nat, m: nat, e: Event, explicit: string)
    requires i < m <= |ops|
    requires ops[i].DoAppend? && KeyOf(ops[i].event, ops[i].explicit) == KeyOf(e, explicit)
    requires Accepts(config, ops[i].event) && Accepts(config, e)
    ensures var now, first := Run(config, ops, m).rows, FirstRecord(config, ops, i);
            && 1 <= first.id <= |now| && SameIdentity(first, now[first.id - 1])
            && Append(config, now, e, explicit) == (now, Duplicate(now[first.id - 1]))
  {
    FirstRecordStays(config, ops, i, m);
    RunKeepsTable(config, ops, m);
    var id := FirstRecord(config, ops, i).id;
    AppendFindsRow(config, Run(config, ops, m).rows, e, explicit, id);
  }

  /** Feed a sequence of events to an empty log. */
  function Ingest(config: Config, events: seq<Event>): seq<Row> {
    if events == [] then []
    else Append(config, Ingest(config, events[..|events| - 1]), events[|events| - 1], "").0
  }

  /** The positions whose event is accepted and whose key no earlier accepted event has. */
  ghost predicate FirstOfItsKey(config: Config, events: seq<Event>, i: nat)
    requires i < |events|
  {
    Accepts(config, events[i])
    && forall k :: 0 <= k < i && Accepts(config, events[k]) ==> KeyOf(events[k], "") != KeyOf(events[i], "")
  }

  /** first lists, in increasing order, exactly those positions. */
  ghost predicate ListsFirsts(config: Config, events: seq<Event>, first: seq<nat>) {
    (forall a, b :: 0 <= a < b < |first| ==> first[a] < first[b])
    && (forall a :: 0 <= a < |first| ==> first[a] < |events| && FirstOfItsKey(config, events, first[a]))
    && (forall i: nat :: i < |events| && FirstOfItsKey(config, events, i) ==> i in first)
  }

  ghost predicate RowsOf(events: seq<Event>, first: seq<nat>, rows: seq<Row>) {
    |rows| == |first|
    && forall a :: 0 <= a < |first| ==>
         first[a] < |events| && rows[a] == NewRow(a + 1, events[first[a]], KeyOf(events[first[a]], ""))
  }

  lemma KeyIsStoredIffSeen(config: Config, events: seq<Event>, first: seq<nat>, rows: seq<Row>, key: string)
    requires ListsFirsts(config, events, first) && RowsOf(events, first, rows)
    ensures Stored(rows, key) <==> exists i :: 0 <= i < |events| && Accepts(config, events[i]) && KeyOf(events[i], "") == key
  {
    if Stored(rows, key) {
      var a :| 0 <= a < |rows| && rows[a].dedupeKey == key;
      assert KeyOf(events[first[a]], "") == key;
    }
    if i :| 0 <= i < |events| && Accepts(config, events[i]) && KeyOf(events[i], "") == key {
      FirstWithKey(config, events, i);
      var f: nat :| f <= i && FirstOfItsKey(config, events, f) && KeyOf(events[f], "") == key;
      var a :| 0 <= a < |first| && first[a] == f;
      assert rows[a].dedupeKey == key;
    }
  }

  lemma {:induction false} FirstWithKey(config: Config, events: seq<Event>, i: nat)
    requires i < |events| && Accepts(config, events[i])
    ensures exists f: nat :: f <= i && FirstOfItsKey(config, events, f) && KeyOf(events[f], "") == KeyOf(events[i], "")
  {
    if !FirstOfItsKey(config, events, i) {
      var k :| 0 <= k < i && Accepts(config, events[k]) && KeyOf(events[k], "") == KeyOf(events[i], "");
      FirstWithKey(config, events, k);
    }
  }

  ghost function Firsts(config: Config, events: seq<Event>): seq<nat> {
    if events == [] then []
    else
      var n := |events| - 1;
      Firsts(config, events[..n]) + if FirstOfItsKey(config, events, n) then [n] else []
  }

  lemma FirstInAPrefix(config: Config, events: seq<Event>, n: nat, i: nat)
    requires i < n <= |events|
    ensures FirstOfItsKey(config, events[..n], i) <==> FirstOfItsKey(config, events, i)
  {
    assert forall k :: 0 <= k < n ==> events[..n][k] == events[k];
  }

  lemma OneMoreFirst(config: Config, events: seq<Event>, first: seq<nat>)
    requires events != [] && ListsFirsts(config, events[..|events| - 1], first)
    ensures ListsFirsts(config, events,
              first + if FirstOfItsKey(config, events, |events| - 1) then [|events| - 1] else [])
  {
    var n := |events| - 1;
    var first' := first + if FirstOfItsKey(config, events, n) then [n] else [];
    forall a | 0 <= a < |first'| ensures first'[a] < |events| && FirstOfItsKey(config, events, first'[a]) {
      if a < |first| {
        FirstInAPrefix(config, events, n, first[a]);
      }
    }
    forall i: nat | i < |events| && FirstOfItsKey(config, events, i) ensures i in first' {
      if i < n {
        FirstInAPrefix(config, events, n, i);
      } else {
        assert first'[|first|] == n;
      }
    }
  }

  lemma {:induction false} FirstsListsFirsts(config: Config, events: seq<Event>)
    ensures ListsFirsts(config, events, Firsts(config, events))
  {
    if events != [] {
      var before := events[..|events| - 1];
      FirstsListsFirsts(config, before);
      OneMoreFirst(config, events, Firsts(config, before));
    }
  }

  lemma FirstIffNotStored(config: Config, events: seq<Event>)
    requires events != []
    requires RowsOf(events[..|events| - 1], Firsts(config, events[..|events| - 1]), Ingest(config, events[..|events| - 1]))
    ensures FirstOfItsKey(config, events, |events| - 1) <==>
              Accepts(config, events[|events| - 1])
              && !Stored(Ingest(config, events[..|events| - 1]), KeyOf(events[|events| - 1], ""))
  {
    var n := |events| - 1;
    var before := events[..n];
    FirstsListsFirsts(config, before);
    KeyIsStoredIffSeen(config, before, Firsts(config, before), Ingest(config, before), KeyOf(events[n], ""));
    assert forall i :: 0 <= i < n ==> before[i] == events[i];
  }

  lemma IngestOne(config: Config, events: seq<Event>)
    requires events != []
    ensures var before, e := Ingest(config, events[..|events| - 1]), events[|events| - 1];
            Ingest(config, events) ==
              if Accepts(config, e) && !Stored(before, KeyOf(e, "")) then Insert(before, e, KeyOf(e, "")) else before
  {
  }

  lemma {:induction false} IngestKeepsTable(config: Config, events: seq<Event>)
    ensures Table(Ingest(config, events))
  {
    if events != [] {
      IngestKeepsTable(config, events[..|events| - 1]);
      AppendKeepsTable(config, Ingest(config, events[..|events| - 1]), events[|events| - 1], "");
    }
  }

  /** Appending any sequence of events to an empty log stores exactly one row
      per distinct accepted key, made from its first event, in first-occurrence
      order with ids 1, 2, 3, ... */
  lemma {:induction false} IngestionIsIdempotent(config: Config, events: seq<Event>)
    ensures ListsFirsts(config, events, Firsts(config, events))
    ensures RowsOf(events, Firsts(config, events), Ingest(config, events))
    ensures Table(Ingest(config, events))
  {
    FirstsListsFirsts(config, events);
    IngestKeepsTable(config, events);
    if events != [] {
      var n := |events| - 1;
      IngestionIsIdempotent(config, events[..n]);
      FirstIffNotStored(config, events);
      IngestOne(config, events);
      RowsOfOneMore(events, Firsts(config, events[..n]), Ingest(config, events[..n]));
    }
  }

  lemma RowsOfOneMore(events: seq<Event>, first: seq<nat>, rows: seq<Row>)
    requires events != [] && RowsOf(events[..|events| - 1], first, rows)
    ensures RowsOf(events, first, rows)
    ensures RowsOf(events, first + [|events| - 1], Insert(rows, events[|events| - 1], KeyOf(events[|events| - 1], "")))
  {
    var before := events[..|events| - 1];
    forall a | 0 <= a < |first| ensures first[a] < |events| && rows[a] == NewRow(a + 1, events[first[a]], KeyOf(events[first[a]], "")) {
      assert before[first[a]] == events[first[a]];
    }
  }
}
