/** Every interleaving of several services, each with several callers, that save
    and read the views of one store.  A read captures the cache, reads the store
    and updates the cache in three separate steps; a save or a recovery touches
    the store and the cache in two. */
module ReadModelReads {
  import opened Common
  import opened SnapshotChecksum
  import opened ReadModelStore
  import opened ReadModelService

  /** Where a call in flight stands. */
  datatype Phase =
    | Captured(service: nat, view: string, captured: Option<Record>)
    | Fetched(service: nat, view: string, captured: Option<Record>, stored: Option<Record>)
    | Saving(service: nat, saved: Record)
    | Recovering(service: nat, recovered: Option<Record>)

  datatype State = State(store: Store, caches: map<nat, Option<Record>>, calls: map<nat, Phase>)

  datatype Op =
    | SaveToStore(call: nat, service: nat, req: Request)
    | SaveToCache(call: nat)
    | Capture(call: nat, service: nat, view: string)
    | Fetch(call: nat)
    | Finish(call: nat)
    | RecoverFromStore(call: nat, service: nat, view: string)
    | RecoverToCache(call: nat)

  function CacheOf(s: State, service: nat): Option<Record> {
    if service in s.caches then s.caches[service] else None
  }

  function Step(digest: Json -> string, s: State, op: Op): State {
    match op
    case SaveToStore(call, service, req) =>
      var outcome := Decide(digest, s.store, req);
      s.(store := Save(digest, s.store, req),
         calls := if outcome.Rejected? then s.calls - {call} else s.calls[call := Saving(service, outcome.record)])
    case SaveToCache(call) =>
      if call in s.calls && s.calls[call].Saving?
      then s.(caches := s.caches[s.calls[call].service := Some(s.calls[call].saved)], calls := s.calls - {call})
      else s
    case Capture(call, service, view) =>
      s.(calls := s.calls[call := Captured(service, view, CachedFor(CacheOf(s, service), view))])
    case Fetch(call) =>
      if call in s.calls && s.calls[call].Captured?
      then
        var c := s.calls[call];
        s.(calls := s.calls[call := Fetched(c.service, c.view, c.captured, Stored(s.store, c.view))])
      else s
    case Finish(call) =>
      if call in s.calls && s.calls[call].Fetched?
      then
        var c := s.calls[call];
        s.(caches := if TakesStored(c.captured, c.stored) then s.caches[c.service := c.stored] else s.caches,
           calls := s.calls - {call})
      else s
    case RecoverFromStore(call, service, view) => s.(calls := s.calls[call := Recovering(service, Stored(s.store, view))])
    case RecoverToCache(call) =>
      if call in s.calls && s.calls[call].Recovering?
      then s.(caches := s.caches[s.calls[call].service := s.calls[call].recovered], calls := s.calls - {call})
      else s
  }

  const FRESH := State(map[], map[], map[])

  /** The state after the first m steps. */
  function Run(digest: Json -> string, ops: seq<Op>, m: nat): State
    requires m <= |ops|
  {
    if m == 0 then FRESH else Step(digest, Run(digest, ops, m - 1), ops[m - 1])
  }

  predicate Finishes(s: State, op: Op) {
    op.Finish? && op.call in s.calls && s.calls[op.call].Fetched?
  }

  /** What a finishing read returns to its caller. */
  function Returned(s: State, op: Op): Option<Record>
    requires Finishes(s, op)
  {
    ReadResult(s.calls[op.call].captured, s.calls[op.call].stored)
  }

  // ---------------------------------------------------- nothing runs ahead

  /** The record is one the store has or once had under its view. */
  predicate Behind(store: Store, record: Option<Record>) {
    record.Some? ==> record.value.view in store && record.value.generation <= store[record.value.view].generation
  }

  predicate PhaseBehind(store: Store, phase: Phase) {
    match phase
    case Captured(_, view, captured) => Behind(store, captured) && (captured.Some? ==> captured.value.view == view)
    case Fetched(_, view, captured, stored) =>
      Behind(store, captured) && Behind(store, stored)
      && (captured.Some? ==> captured.value.view == view)
      && (stored.Some? ==> stored.value.view == view)
      && (captured.Some? ==> stored.Some? && captured.value.generation <= stored.value.generation)
    case Saving(_, saved) => Behind(store, Some(saved))
    case Recovering(_, recovered) => Behind(store, recovered)
  }

  ghost predicate NothingAhead(s: State) {
    (forall v :: v in s.store ==> s.store[v].view == v)
    && (forall n :: n in s.caches ==> Behind(s.store, s.caches[n]))
    && forall c :: c in s.calls ==> PhaseBehind(s.store, s.calls[c])
  }

  lemma SaveKeepsBehind(digest: Json -> string, store: Store, req: Request)
    requires forall v :: v in store ==> store[v].view == v
    ensures var after := Save(digest, store, req);
            && (forall v :: v in after ==> after[v].view == v)
            && (forall r :: Behind(store, r) ==> Behind(after, r))
            && (forall p :: PhaseBehind(store, p) ==> PhaseBehind(after, p))
            && (!Decide(digest, store, req).Rejected? ==> Behind(after, Some(Decide(digest, store, req).record)))
  {
    forall v | v in store ensures v in Save(digest, store, req) && store[v].generation <= Save(digest, store, req)[v].generation {
      SaveOnView(digest, store, req, v);
    }
  }

  lemma StepKeepsNothingAhead(digest: Json -> string, s: State, op: Op)
    requires NothingAhead(s)
    ensures NothingAhead(Step(digest, s, op))
  {
    if op.SaveToStore? {
      SaveKeepsBehind(digest, s.store, op.req);
    }
  }

  /** In every reachable state no cache, and no call in flight, holds a
      generation above the stored one. */
  lemma {:induction false} CachesNeverRunAhead(digest: Json -> string, ops: seq<Op>, m: nat)
    requires m <= |ops|
    ensures NothingAhead(Run(digest, ops, m))
  {
    if m > 0 {
      CachesNeverRunAhead(digest, ops, m - 1);
      StepKeepsNothingAhead(digest, Run(digest, ops, m - 1), ops[m - 1]);
    }
  }

  lemma StepKeepsStored(digest: Json -> string, s: State, op: Op, view: string)
    requires view in s.store
    ensures view in Step(digest, s, op).store
    ensures s.store[view].generation <= Step(digest, s, op).store[view].generation
  {
    if op.SaveToStore? {
      SaveOnView(digest, s.store, op.req, view);
    }
  }

  /** The stored generation of a view only grows. */
  lemma {:induction false} StoreOnlyGrows(digest: Json -> string, ops: seq<Op>, i: nat, m: nat, view: string)
    requires i <= m <= |ops| && view in Run(digest, ops, i).store
    ensures view in Run(digest, ops, m).store
    ensures Run(digest, ops, i).store[view].generation <= Run(digest, ops, m).store[view].generation
    decreases m
  {
    if i < m {
      StoreOnlyGrows(digest, ops, i, m - 1, view);
      StepKeepsStored(digest, Run(digest, ops, m - 1), ops[m - 1], view);
    }
  }

  // ------------------------------------------------------------ monotone reads

  /** Call c starts a read of the view at j and only fetches before m. */
  ghost predicate Reading(ops: seq<Op>, j: nat, m: nat, c: nat, view: string)
    requires j < m <= |ops|
  {
    ops[j].Capture? && ops[j].call == c && ops[j].view == view
    && forall t :: j < t < m && ops[t].call == c ==> ops[t].Fetch?
  }

  /** The call is a read of the view that has fetched no generation below floor. */
  predicate AtLeast(s: State, c: nat, view: string, floor: int) {
    c in s.calls
    && match s.calls[c]
       case Captured(_, v, _) => v == view
       case Fetched(_, v, _, stored) => v == view && stored.Some? && floor <= stored.value.generation
       case _ => false
  }

  lemma StepKeepsAtLeast(digest: Json -> string, s: State, op: Op, c: nat, view: string, floor: int)
    requires AtLeast(s, c, view, floor) && view in s.store && floor <= s.store[view].generation
    requires op.call == c ==> op.Fetch?
    ensures AtLeast(Step(digest, s, op), c, view, floor)
  {
  }

  lemma CaptureStartsARead(digest: Json -> string, s: State, op: Op, view: string)
    requires op.Capture? && op.view == view && view in s.store
    ensures AtLeast(Step(digest, s, op), op.call, view, s.store[view].generation)
  {
  }

  /** While a read is in flight, what it has fetched is at least what was stored
      when it began. */
  lemma {:induction false} FetchIsFresh(digest: Json -> string, ops: seq<Op>, j: nat, m: nat, c: nat, view: string)
    requires j < m <= |ops| && Reading(ops, j, m, c, view)
    requires view in Run(digest, ops, j).store
    ensures AtLeast(Run(digest, ops, m), c, view, Run(digest, ops, j).store[view].generation)
    decreases m
  {
    if m == j + 1 {
      CaptureStartsARead(digest, Run(digest, ops, j), ops[j], view);
    } else {
      FetchIsFresh(digest, ops, j, m - 1, c, view);
      StoreOnlyGrows(digest, ops, j, m - 1, view);
      StepKeepsAtLeast(digest, Run(digest, ops, m - 1), ops[m - 1], c, view, Run(digest, ops, j).store[view].generation);
    }
  }

  /** A read returns a generation between the one stored when it began and the
      one stored when it ends. */
  lemma ReadIsFresh(digest: Json -> string, ops: seq<Op>, j: nat, k: nat, view: string)
    requires j < k < |ops| && ops[k].Finish? && Reading(ops, j, k, ops[k].call, view)
    requires Finishes(Run(digest, ops, k), ops[k])
    requires view in Run(digest, ops, j).store
    ensures Returned(Run(digest, ops, k), ops[k]).Some?
    ensures view in Run(digest, ops, k).store
    ensures Run(digest, ops, j).store[view].generation
            <= Returned(Run(digest, ops, k), ops[k]).value.generation
            <= Run(digest, ops, k).store[view].generation
  {
    FetchIsFresh(digest, ops, j, k, ops[k].call, view);
    CachesNeverRunAhead(digest, ops, k);
    StoreOnlyGrows(digest, ops, j, k, view);
  }

  /** A read that starts after another finished, in any service, never returns a
      lower generation of the view. */
  lemma ReadsAreMonotone(digest: Json -> string, ops: seq<Op>, i: nat, j: nat, k: nat, view: string)
    requires i < j < k < |ops|
    requires Finishes(Run(digest, ops, i), ops[i])
    requires Returned(Run(digest, ops, i), ops[i]).Some? && Returned(Run(digest, ops, i), ops[i]).value.view == view
    requires ops[k].Finish? && Reading(ops, j, k, ops[k].call, view) && Finishes(Run(digest, ops, k), ops[k])
    ensures Returned(Run(digest, ops, k), ops[k]).Some?
    ensures Returned(Run(digest, ops, i), ops[i]).value.generation
            <= Returned(Run(digest, ops, k), ops[k]).value.generation
  {
    CachesNeverRunAhead(digest, ops, i);
    StoreOnlyGrows(digest, ops, i, j, view);
    ReadIsFresh(digest, ops, j, k, view);
  }

  // --------------------------------------------------- nothing is made up

  /** The record, if there is one, was the stored one of its view after some of the
      first m steps. */
  ghost predicate WasStored(digest: Json -> string, ops: seq<Op>, m: nat, r: Option<Record>)
    requires m <= |ops|
  {
    r.Some? ==> exists k: nat :: k <= m && StoredAfter(digest, ops, k, r.value)
  }

  predicate StoredAfter(digest: Json -> string, ops: seq<Op>, k: nat, r: Record) {
    k <= |ops| && r.view in Run(digest, ops, k).store && Run(digest, ops, k).store[r.view] == r
  }

  ghost predicate PhaseWasStored(digest: Json -> string, ops: seq<Op>, m: nat, phase: Phase)
    requires m <= |ops|
  {
    match phase
    case Captured(_, _, captured) => WasStored(digest, ops, m, captured)
    case Fetched(_, _, captured, stored) => WasStored(digest, ops, m, captured) && WasStored(digest, ops, m, stored)
    case Saving(_, saved) => WasStored(digest, ops, m, Some(saved))
    case Recovering(_, recovered) => WasStored(digest, ops, m, recovered)
  }

  ghost predicate AllWereStored(digest: Json -> string, ops: seq<Op>, m: nat)
    requires m <= |ops|
  {
    var s := Run(digest, ops, m);
    (forall n :: n in s.caches ==> WasStored(digest, ops, m, s.caches[n]))
    && forall c :: c in s.calls ==> PhaseWasStored(digest, ops, m, s.calls[c])
  }

  lemma StoredNow(digest: Json -> string, ops: seq<Op>, m: nat, view: string)
    requires m <= |ops|
    ensures WasStored(digest, ops, m, Stored(Run(digest, ops, m).store, view))
  {
    var s := Run(digest, ops, m);
    CachesNeverRunAhead(digest, ops, m);
    if view in s.store {
      assert StoredAfter(digest, ops, m, s.store[view]);
    }
  }

  lemma WasStoredLasts(digest: Json -> string, ops: seq<Op>, m: nat, r: Option<Record>)
    requires m < |ops| && WasStored(digest, ops, m, r)
    ensures WasStored(digest, ops, m + 1, r)
  {
  }

  lemma PhaseLasts(digest: Json -> string, ops: seq<Op>, m: nat, phase: Phase)
    requires m < |ops| && PhaseWasStored(digest, ops, m, phase)
    ensures PhaseWasStored(digest, ops, m + 1, phase)
  {
  }

  lemma SavedIsStored(digest: Json -> string, ops: seq<Op>, m: nat)
    requires m < |ops| && ops[m].SaveToStore? && !Decide(digest, Run(digest, ops, m).store, ops[m].req).Rejected?
    ensures WasStored(digest, ops, m + 1, Some(Decide(digest, Run(digest, ops, m).store, ops[m].req).record))
  {
    var before, req := Run(digest, ops, m).store, ops[m].req;
    CachesNeverRunAhead(digest, ops, m);
    SaveStoresItsRequest(digest, before, req);
    assert Run(digest, ops, m + 1).store == Save(digest, before, req);
    assert StoredAfter(digest, ops, m + 1, Decide(digest, before, req).record);
  }

  /** The call that a step leaves for c: the one that was there, or a new phase. */
  lemma CallAfterStep(digest: Json -> string, ops: seq<Op>, m: nat, c: nat)
    requires m < |ops| && AllWereStored(digest, ops, m) && c in Run(digest, ops, m + 1).calls
    ensures PhaseWasStored(digest, ops, m + 1, Run(digest, ops, m + 1).calls[c])
  {
    var s, op := Run(digest, ops, m), ops[m];
    if c in s.calls {
      PhaseLasts(digest, ops, m, s.calls[c]);
    }
    if op.call == c {
      match op
      case SaveToStore(call, service, req) =>
        if !Decide(digest, s.store, req).Rejected? {
          SavedIsStored(digest, ops, m);
        }
      case Capture(call, service, view) =>
        if service in s.caches {
          WasStoredLasts(digest, ops, m, s.caches[service]);
        }
      case Fetch(call) =>
        if c in s.calls && s.calls[c].Captured? {
          StoredNow(digest, ops, m, s.calls[c].view);
          WasStoredLasts(digest, ops, m, Stored(s.store, s.calls[c].view));
        }
      case RecoverFromStore(call, service, view) =>
        StoredNow(digest, ops, m, view);
        WasStoredLasts(digest, ops, m, Stored(s.store, view));
      case _ =>
    }
  }

  lemma CacheAfterStep(digest: Json -> string, ops: seq<Op>, m: nat, n: nat)
    requires m < |ops| && AllWereStored(digest, ops, m) && n in Run(digest, ops, m + 1).caches
    ensures WasStored(digest, ops, m + 1, Run(digest, ops, m + 1).caches[n])
  {
    var s, op := Run(digest, ops, m), ops[m];
    if n in s.caches {
      WasStoredLasts(digest, ops, m, s.caches[n]);
    }
    if op.call in s.calls {
      PhaseLasts(digest, ops, m, s.calls[op.call]);
    }
  }

  /** Whatever any service caches, or any call holds, was once the stored record of
      its view. */
  lemma {:induction false} RecordsAreNotMadeUp(digest: Json -> string, ops: seq<Op>, m: nat)
    requires m <= |ops|
    ensures AllWereStored(digest, ops, m)
  {
    if m > 0 {
      RecordsAreNotMadeUp(digest, ops, m - 1);
      forall c | c in Run(digest, ops, m).calls ensures PhaseWasStored(digest, ops, m, Run(digest, ops, m).calls[c]) {
        CallAfterStep(digest, ops, m - 1, c);
      }
      forall n | n in Run(digest, ops, m).caches ensures WasStored(digest, ops, m, Run(digest, ops, m).caches[n]) {
        CacheAfterStep(digest, ops, m - 1, n);
      }
    }
  }

  predicate IsOf(r: Option<Record>, view: string) {
    r.Some? ==> r.value.view == view
  }

  /** What is stored under a view, and what a read of it holds, is of that view. */
  ghost predicate ViewsMatch(s: State) {
    (forall v :: v in s.store ==> s.store[v].view == v)
    && (forall c :: c in s.calls && s.calls[c].Captured? ==> IsOf(s.calls[c].captured, s.calls[c].view))
    && forall c :: c in s.calls && s.calls[c].Fetched? ==>
         IsOf(s.calls[c].captured, s.calls[c].view) && IsOf(s.calls[c].stored, s.calls[c].view)
  }

  lemma StepKeepsViews(digest: Json -> string, s: State, op: Op)
    requires ViewsMatch(s)
    ensures ViewsMatch(Step(digest, s, op))
  {
  }

  lemma {:induction false} RunKeepsViews(digest: Json -> string, ops: seq<Op>, m: nat)
    requires m <= |ops|
    ensures ViewsMatch(Run(digest, ops, m))
    decreases m
  {
    if m > 0 {
      RunKeepsViews(digest, ops, m - 1);
      StepKeepsViews(digest, Run(digest, ops, m - 1), ops[m - 1]);
    }
  }

  predicate ReadsView(s: State, c: nat, view: string) {
    c in s.calls && ((s.calls[c].Captured? && s.calls[c].view == view) || (s.calls[c].Fetched? && s.calls[c].view == view))
  }

  lemma {:induction false} ReadingKeepsView(digest: Json -> string, ops: seq<Op>, j: nat, m: nat, c: nat, view: string)
    requires j < m <= |ops| && Reading(ops, j, m, c, view)
    ensures ReadsView(Run(digest, ops, m), c, view)
    decreases m
  {
    if j + 1 < m {
      ReadingKeepsView(digest, ops, j, m - 1, c, view);
      ViewIsKept(digest, Run(digest, ops, m - 1), ops[m - 1], c, view);
    }
  }

  lemma ViewIsKept(digest: Json -> string, s: State, op: Op, c: nat, view: string)
    requires ReadsView(s, c, view) && (op.call == c ==> op.Fetch?)
    ensures ReadsView(Step(digest, s, op), c, view)
  {
  }

  /** So what a read returns is a record that was stored under the view it asked for. */
  lemma ReadReturnsAStoredRecord(digest: Json -> string, ops: seq<Op>, j: nat, k: nat, view: string)
    requires j < k < |ops| && ops[k].Finish? && Reading(ops, j, k, ops[k].call, view)
    requires Finishes(Run(digest, ops, k), ops[k]) && Returned(Run(digest, ops, k), ops[k]).Some?
    ensures WasStored(digest, ops, k, Returned(Run(digest, ops, k), ops[k]))
    ensures Returned(Run(digest, ops, k), ops[k]).value.view == view
  {
    RecordsAreNotMadeUp(digest, ops, k);
    RunKeepsViews(digest, ops, k);
    ReadingKeepsView(digest, ops, j, k, ops[k].call, view);
  }
}
