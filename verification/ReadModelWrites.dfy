/** Every interleaving of dirty signals and writes in one service.

    A write is named by the step at which it entered.  It then either saves or
    fails, and leaves last; marks and other writes may come at any point, and so
    may a write whose inputs could not be fetched, which never enters. */
module ReadModelWrites {
  import opened Common
  import opened ReadModelService

  datatype Stage = Building | Ended

  datatype Write = Write(now: int, force: bool, stage: Stage)

  datatype State = State(writer: Writer, writes: map<nat, Write>)

  datatype Op =
    | Mark(reason: string)
    | InputsFailed
    | Enter(now: int, force: bool)
    | Save(write: nat)
    | Fail(write: nat, stale: bool)
    | Leave(write: nat)

  predicate IsBuilding(s: State, write: nat) {
    write in s.writes && s.writes[write].stage == Building
  }

  predicate HasEnded(s: State, write: nat) {
    write in s.writes && s.writes[write].stage == Ended
  }

  predicate Enters(config: Config, s: State, op: Op) {
    op.Enter? && Decision(config, s.writer, op.now, op.force) == Entered
  }

  function End(s: State, write: nat): map<nat, Write>
    requires write in s.writes
  {
    s.writes[write := s.writes[write].(stage := Ended)]
  }

  /** One step; `at` is its position and names the write it may begin. */
  function Step(config: Config, s: State, op: Op, at: nat): State {
    match op
    case Mark(reason) => s.(writer := AfterMark(s.writer, reason))
    case InputsFailed => s.(writer := AfterInputFailure(s.writer))
    case Enter(now, force) =>
      State(AfterEntry(config, s.writer, now, force),
            if Enters(config, s, op) then s.writes[at := Write(now, force, Building)] else s.writes)
    case Save(write) => if IsBuilding(s, write) then State(AfterSave(s.writer, s.writes[write].now), End(s, write)) else s
    case Fail(write, stale) => if IsBuilding(s, write) then State(AfterFailure(s.writer, stale), End(s, write)) else s
    case Leave(write) => if HasEnded(s, write) then State(AfterLeaving(s.writer), s.writes - {write}) else s
  }

  /** The state after the first m steps. */
  function Run(config: Config, ops: seq<Op>, m: nat): State
    requires m <= |ops|
  {
    if m == 0 then State(INITIAL_WRITER, map[]) else Step(config, Run(config, ops, m - 1), ops[m - 1], m - 1)
  }

  /** A write enters at step p. */
  predicate EntersAt(config: Config, ops: seq<Op>, p: nat) {
    p < |ops| && Enters(config, Run(config, ops, p), ops[p])
  }

  /** The write that entered at p saves its snapshot at step q. */
  predicate SavesAt(config: Config, ops: seq<Op>, q: nat, p: nat) {
    q < |ops| && ops[q] == Save(p) && IsBuilding(Run(config, ops, q), p)
  }

  /** It did so within the first m steps. */
  ghost predicate Succeeded(config: Config, ops: seq<Op>, m: nat, p: nat) {
    exists q: nat :: p < q < m && SavesAt(config, ops, q, p)
  }

  /** The last of the first m steps at which a write entered, or -1. */
  function LastEntry(config: Config, ops: seq<Op>, m: nat): int
    requires m <= |ops|
  {
    if m == 0 then -1 else if EntersAt(config, ops, m - 1) then m - 1 else LastEntry(config, ops, m - 1)
  }

  ghost predicate MarksBefore(ops: seq<Op>, m: nat, p: int)
    requires m <= |ops|
  {
    forall k :: 0 <= k < m && ops[k].Mark? ==> k < p
  }

  /** What one step does to the writes in flight. */
  lemma StepOnWrite(config: Config, s: State, op: Op, at: nat, p: nat)
    requires p in Step(config, s, op, at).writes
    ensures if p == at && Enters(config, s, op) then Step(config, s, op, at).writes[p] == Write(op.now, op.force, Building)
            else p in s.writes && Step(config, s, op, at).writes[p].now == s.writes[p].now
                 && Step(config, s, op, at).writes[p].force == s.writes[p].force
  {
  }

  /** Writes in flight entered in the past, at the steps that name them. */
  lemma {:induction false} WritesEntered(config: Config, ops: seq<Op>, m: nat, p: nat)
    requires m <= |ops| && p in Run(config, ops, m).writes
    ensures p < m && EntersAt(config, ops, p)
    ensures Run(config, ops, m).writes[p].now == ops[p].now && Run(config, ops, m).writes[p].force == ops[p].force
  {
    if m > 0 {
      StepOnWrite(config, Run(config, ops, m - 1), ops[m - 1], m - 1, p);
      if !(p == m - 1 && EntersAt(config, ops, p)) {
        WritesEntered(config, ops, m - 1, p);
      }
    }
  }

  // ------------------------------------------------------- no lost dirty signal

  lemma EntryBuilds(config: Config, s: State, op: Op, at: nat)
    requires Enters(config, s, op)
    ensures IsBuilding(Step(config, s, op, at), at) && Step(config, s, op, at).writer.status == Running
  {
  }

  /** A dirty model is written when it is due: an unforced write that finds no other
      running, and the last write at least the interval ago, or none, enters. */
  lemma DueWriteEnters(config: Config, s: State, now: int, force: bool, at: nat)
    requires config.enabled && s.writer.status != Running
    requires !force ==> s.writer.dirty
    requires !force && s.writer.lastWriteAt.Some? && config.writeIntervalSec > 0.0 ==>
               (now - s.writer.lastWriteAt.value) as real >= config.writeIntervalSec
    ensures var s' := Step(config, s, Enter(now, force), at);
            && at in s'.writes && s'.writes[at] == Write(now, force, Building)
            && s'.writer.status == Running && !s'.writer.dirty && s'.writer.reasons == []
  {
  }

  /** And only then. */
  lemma WriteEntersOnlyWhenDue(config: Config, s: State, now: int, force: bool, at: nat)
    requires at !in s.writes && at in Step(config, s, Enter(now, force), at).writes
    ensures config.enabled && s.writer.status != Running && (force || s.writer.dirty)
    ensures !force && s.writer.lastWriteAt.Some? && config.writeIntervalSec > 0.0 ==>
              (now - s.writer.lastWriteAt.value) as real >= config.writeIntervalSec
  {
  }

  /** A step that leaves the model clean and enters no write marks nothing, finds
      the model clean, and ends no building write but by saving it. */
  lemma StepStaysClean(config: Config, s: State, op: Op, at: nat, p: nat)
    requires !Step(config, s, op, at).writer.dirty && !Enters(config, s, op)
    ensures !s.writer.dirty && !op.Mark?
    ensures IsBuilding(s, p) ==> IsBuilding(Step(config, s, op, at), p) || op == Save(p)
  {
  }

  /** The write of p is building, or has saved. */
  ghost predicate Good(config: Config, ops: seq<Op>, m: nat, p: nat)
    requires m <= |ops|
  {
    p < m && (IsBuilding(Run(config, ops, m), p) || Succeeded(config, ops, m, p))
  }

  lemma GoodLasts(config: Config, ops: seq<Op>, m: nat, p: nat)
    requires m < |ops| && Good(config, ops, m, p)
    requires !EntersAt(config, ops, m) && !Run(config, ops, m + 1).writer.dirty
    ensures Good(config, ops, m + 1, p)
  {
    if Succeeded(config, ops, m, p) {
      var q: nat :| p < q < m && SavesAt(config, ops, q, p);
      assert p < q < m + 1 && SavesAt(config, ops, q, p);
    } else {
      StepStaysClean(config, Run(config, ops, m), ops[m], m, p);
      if ops[m] == Save(p) {
        assert SavesAt(config, ops, m, p);
      }
    }
  }

  /** While the model is clean, the last entry came after every mark, and its
      write is still building or has succeeded. */
  lemma {:induction false} CleanMeansWritten(config: Config, ops: seq<Op>, m: nat)
    requires m <= |ops| && !Run(config, ops, m).writer.dirty
    ensures var p := LastEntry(config, ops, m);
            0 <= p < m && EntersAt(config, ops, p) && MarksBefore(ops, m, p) && Good(config, ops, m, p)
  {
    if m > 0 {
      if EntersAt(config, ops, m - 1) {
        EntryBuilds(config, Run(config, ops, m - 1), ops[m - 1], m - 1);
      } else {
        StepStaysClean(config, Run(config, ops, m - 1), ops[m - 1], m - 1, 0);
        CleanMeansWritten(config, ops, m - 1);
        GoodLasts(config, ops, m - 1, LastEntry(config, ops, m - 1));
      }
    }
  }

  /** No dirty signal is lost: when the model is clean and no write is in
      progress, one write entered after every mark and saved its snapshot. */
  lemma NoMarkIsLost(config: Config, ops: seq<Op>, m: nat)
    requires m <= |ops| && !Run(config, ops, m).writer.dirty && Run(config, ops, m).writes == map[]
    ensures exists p: nat :: EntersAt(config, ops, p) && Succeeded(config, ops, m, p) && MarksBefore(ops, m, p)
  {
    CleanMeansWritten(config, ops, m);
  }

  // ---------------------------------------------------------- writer exclusion

  ghost predicate AtMostOneBuilds(s: State) {
    forall v, w :: IsBuilding(s, v) && IsBuilding(s, w) ==> v == w
  }

  ghost predicate ExclusiveUpTo(config: Config, ops: seq<Op>, m: nat)
    requires m <= |ops|
  {
    forall k: nat :: k <= m ==> AtMostOneBuilds(Run(config, ops, k))
  }

  /** In every state of the run at most one write is building. */
  ghost predicate Exclusive(config: Config, ops: seq<Op>) {
    ExclusiveUpTo(config, ops, |ops|)
  }

  /** Step k may clear the running status: a write leaves, or the inputs of one
      that never entered could not be fetched. */
  predicate Clears(config: Config, ops: seq<Op>, k: nat) {
    k < |ops|
    && (ops[k].InputsFailed? || (ops[k].Leave? && HasEnded(Run(config, ops, k), ops[k].write)))
  }

  /** A write enters at p while that of w is building and some step since w
      entered cleared the status. */
  ghost predicate EntersBeside(config: Config, ops: seq<Op>, p: nat, w: nat) {
    EntersAt(config, ops, p) && IsBuilding(Run(config, ops, p), w) && exists k: nat :: w < k < p && Clears(config, ops, k)
  }

  lemma BuildingBefore(config: Config, s: State, op: Op, at: nat, w: nat)
    requires IsBuilding(Step(config, s, op, at), w) && !(w == at && Enters(config, s, op))
    ensures IsBuilding(s, w) && op != Save(w) && !(op.Fail? && op.write == w)
  {
  }

  /** The status stays Running under a step that is no clearing, while one write
      builds and goes on building. */
  lemma StepKeepsRunning(config: Config, s: State, op: Op, at: nat, w: nat)
    requires s.writer.status == Running && AtMostOneBuilds(s)
    requires IsBuilding(s, w) && IsBuilding(Step(config, s, op, at), w)
    requires !op.InputsFailed? && !(op.Leave? && HasEnded(s, op.write))
    ensures Step(config, s, op, at).writer.status == Running
  {
  }

  /** Unless cleared, the status has been Running since a building write entered. */
  lemma {:induction false} StillRunning(config: Config, ops: seq<Op>, m: nat, w: nat)
    requires m <= |ops| && IsBuilding(Run(config, ops, m), w) && ExclusiveUpTo(config, ops, m)
    requires forall k: nat :: w < k < m ==> !Clears(config, ops, k)
    ensures Run(config, ops, m).writer.status == Running
  {
    WritesEntered(config, ops, m, w);
    if w == m - 1 {
      EntryBuilds(config, Run(config, ops, w), ops[w], w);
    } else {
      BuildingBefore(config, Run(config, ops, m - 1), ops[m - 1], m - 1, w);
      StillRunning(config, ops, m - 1, w);
      assert !Clears(config, ops, m - 1);
      StepKeepsRunning(config, Run(config, ops, m - 1), ops[m - 1], m - 1, w);
    }
  }

  /** A step makes a second write build only by letting one enter. */
  lemma StepKeepsExclusion(config: Config, s: State, op: Op, at: nat)
    requires AtMostOneBuilds(s)
    requires Enters(config, s, op) ==> forall w :: !IsBuilding(s, w)
    ensures AtMostOneBuilds(Step(config, s, op, at))
  {
    var s' := Step(config, s, op, at);
    forall v, w | IsBuilding(s', v) && IsBuilding(s', w) ensures v == w {
      if !(v == at && Enters(config, s, op)) {
        BuildingBefore(config, s, op, at, v);
      }
      if !(w == at && Enters(config, s, op)) {
        BuildingBefore(config, s, op, at, w);
      }
    }
  }

  lemma EntryFindsNoneBuilding(config: Config, ops: seq<Op>, p: nat, w: nat)
    requires EntersAt(config, ops, p) && ExclusiveUpTo(config, ops, p) && !EntersBeside(config, ops, p, w)
    ensures !IsBuilding(Run(config, ops, p), w)
  {
    if IsBuilding(Run(config, ops, p), w) {
      StillRunning(config, ops, p, w);
    }
  }

  lemma {:induction false} NoneBesideMeansExclusive(config: Config, ops: seq<Op>, m: nat)
    requires m <= |ops| && forall p: nat, w: nat :: !EntersBeside(config, ops, p, w)
    ensures ExclusiveUpTo(config, ops, m)
  {
    if m > 0 {
      NoneBesideMeansExclusive(config, ops, m - 1);
      var s := Run(config, ops, m - 1);
      if EntersAt(config, ops, m - 1) {
        forall w: nat ensures !IsBuilding(s, w) {
          EntryFindsNoneBuilding(config, ops, m - 1, w);
        }
      }
      StepKeepsExclusion(config, s, ops[m - 1], m - 1);
    }
  }

  lemma BesideMeansTwo(config: Config, ops: seq<Op>, p: nat, w: nat)
    requires EntersBeside(config, ops, p, w)
    ensures !AtMostOneBuilds(Run(config, ops, p + 1))
  {
    EntryBuilds(config, Run(config, ops, p), ops[p], p);
    var after := Run(config, ops, p + 1);
    assert IsBuilding(after, p) && IsBuilding(after, w);
  }

  /** The status flag lets at most one write build, in every state, exactly when
      no write enters beside a building one after a clearing: after another write
      left or the fetch of some inputs failed since the building one entered. */
  lemma WritesExcludeExactlyWhen(config: Config, ops: seq<Op>)
    ensures Exclusive(config, ops) <==> forall p: nat, w: nat :: !EntersBeside(config, ops, p, w)
  {
    if p: nat, w: nat :| EntersBeside(config, ops, p, w) {
      BesideMeansTwo(config, ops, p, w);
    } else {
      NoneBesideMeansExclusive(config, ops, |ops|);
    }
  }

  /** No write enters while another has still to leave. */
  ghost predicate NoOverlap(config: Config, ops: seq<Op>) {
    forall p: nat :: EntersAt(config, ops, p) ==> Run(config, ops, p).writes == map[]
  }

  lemma CallsApartExclude(config: Config, ops: seq<Op>)
    requires NoOverlap(config, ops)
    ensures Exclusive(config, ops)
  {
    WritesExcludeExactlyWhen(config, ops);
  }

  lemma StepByStep(config: Config, ops: seq<Op>, m: nat)
    requires m < |ops|
    ensures Run(config, ops, m + 1) == Step(config, Run(config, ops, m), ops[m], m)
  {
  }

  /** And it does break: a write enters after a failure, the failed one then
      clears the flag on leaving, and a third enters beside the second. */
  lemma ExclusionCanBreak(config: Config, t: int)
    requires config.enabled
    ensures var ops := [Enter(t, true), Fail(0, false), Enter(t, true), Leave(0), Enter(t, true)];
            IsBuilding(Run(config, ops, 5), 2) && IsBuilding(Run(config, ops, 5), 4)
  {
    var ops := [Enter(t, true), Fail(0, false), Enter(t, true), Leave(0), Enter(t, true)];
    StepByStep(config, ops, 0);
    StepByStep(config, ops, 1);
    StepByStep(config, ops, 2);
    StepByStep(config, ops, 3);
    StepByStep(config, ops, 4);
    assert Run(config, ops, 3).writer.status == Running;
    assert Run(config, ops, 4).writer.status == Idle;
  }

  /** Without any write failing, too: one builds, the inputs of a second cannot
      be fetched, and a third enters beside the first. */
  lemma InputFailureCanBreakExclusion(config: Config, t: int)
    requires config.enabled
    ensures var ops := [Enter(t, true), InputsFailed, Enter(t, true)];
            IsBuilding(Run(config, ops, 3), 0) && IsBuilding(Run(config, ops, 3), 2)
  {
    var ops := [Enter(t, true), InputsFailed, Enter(t, true)];
    StepByStep(config, ops, 0);
    StepByStep(config, ops, 1);
    StepByStep(config, ops, 2);
  }

  // -------------------------------------------------------- bounded write rate

  /** A write building at m was building ever since it entered. */
  lemma {:induction false} BuildingSince(config: Config, ops: seq<Op>, p: nat, k: nat, m: nat)
    requires p < k <= m <= |ops| && IsBuilding(Run(config, ops, m), p)
    ensures IsBuilding(Run(config, ops, k), p)
    decreases m - k
  {
    if k < m {
      BuildingBefore(config, Run(config, ops, m - 1), ops[m - 1], m - 1, p);
      BuildingSince(config, ops, p, k, m - 1);
    }
  }

  lemma OnlySavesDate(config: Config, s: State, op: Op, at: nat)
    requires !(op.Save? && IsBuilding(s, op.write))
    ensures Step(config, s, op, at).writer.lastWriteAt == s.writer.lastWriteAt
  {
  }

  lemma SaveDates(config: Config, s: State, p: nat, at: nat)
    requires IsBuilding(s, p)
    ensures Step(config, s, Save(p), at).writer.lastWriteAt == Some(s.writes[p].now)
    ensures !IsBuilding(Step(config, s, Save(p), at), p)
  {
  }

  lemma {:induction false} LastWriteIs(config: Config, ops: seq<Op>, q: nat, p: nat, m: nat)
    requires q < m <= |ops| && SavesAt(config, ops, q, p)
    requires forall k, w :: q < k < m ==> !SavesAt(config, ops, k, w)
    ensures Run(config, ops, m).writer.lastWriteAt == Some(Run(config, ops, q).writes[p].now)
    decreases m
  {
    var before := Run(config, ops, m - 1);
    if m == q + 1 {
      SaveDates(config, before, p, q);
    } else {
      LastWriteIs(config, ops, q, p, m - 1);
      assert ops[m - 1].Save? ==> !SavesAt(config, ops, m - 1, ops[m - 1].write);
      OnlySavesDate(config, before, ops[m - 1], m - 1);
    }
  }

  /** Writes that exclude each other save in the order in which they entered. */
  lemma SaveBeforeEntry(config: Config, ops: seq<Op>, q: nat, p: nat, q': nat, p': nat)
    requires Exclusive(config, ops)
    requires q < q' && SavesAt(config, ops, q, p) && SavesAt(config, ops, q', p')
    ensures q < p' < q' && EntersAt(config, ops, p')
  {
    WritesEntered(config, ops, q', p');
    if p' < q {
      BuildingSince(config, ops, p', q, q');
      BuildingSince(config, ops, p', q + 1, q');
      assert AtMostOneBuilds(Run(config, ops, q));
      SaveDates(config, Run(config, ops, q), p, q);
    }
  }

  /** Not coalesced: an unforced entry comes at least the interval after the last
      write. */
  lemma EntryIsDue(config: Config, s: State, op: Op)
    requires config.writeIntervalSec > 0.0 && Enters(config, s, op) && !op.force && s.writer.lastWriteAt.Some?
    ensures (op.now - s.writer.lastWriteAt.value) as real >= config.writeIntervalSec
  {
  }

  /** While at most one write builds, and so when calls do not overlap, and the
      interval is positive, an unforced write that saves carries a snapshot time
      at least the interval after that of the save before it. */
  lemma WriteRateIsBounded(config: Config, ops: seq<Op>, q: nat, p: nat, q': nat, p': nat)
    requires Exclusive(config, ops) && config.writeIntervalSec > 0.0
    requires q < q' && SavesAt(config, ops, q, p) && SavesAt(config, ops, q', p')
    requires forall k, w :: q < k < q' ==> !SavesAt(config, ops, k, w)
    requires p' < |ops| && ops[p'].Enter? && !ops[p'].force
    ensures EntersAt(config, ops, p') && EntersAt(config, ops, p)
    ensures (ops[p'].now - ops[p].now) as real >= config.writeIntervalSec
    ensures Run(config, ops, q' + 1).writer.lastWriteAt == Some(ops[p'].now)
  {
    SaveBeforeEntry(config, ops, q, p, q', p');
    WritesEntered(config, ops, q, p);
    WritesEntered(config, ops, q', p');
    LastWriteIs(config, ops, q, p, p');
    EntryIsDue(config, Run(config, ops, p'), ops[p']);
    LastWriteIs(config, ops, q', p', q' + 1);
  }
}
