/** The versioned snapshot store of storage/dashboard_read_model.py: one row per
    view, overwritten in place by saves that pass the stale-writer guards.

    `digest` stands for the hash of a normal form and may be any function. */
module ReadModelStore {
  import opened Common
  import opened SnapshotChecksum

  datatype Record = Record(
    view: string,
    generation: int,
    snapshot: Json,
    checksum: string,
    snapshotAt: int,
    cycleCount: int)

  /** A save; generation 0 and checksum "" mean that the caller gave none. */
  datatype Request = Request(
    viewName: string,
    snapshot: Json,
    checksum: string,
    generation: int,
    cycleCount: int,
    snapshotAt: int,
    skipUnchanged: bool)

  datatype Outcome = Rejected(reason: string) | Unchanged(record: Record) | Accepted(record: Record)

  type Store = map<string, Record>

  function View(name: string): string {
    if name != "" then name else "main"
  }

  function ChecksumOf(digest: Json -> string, req: Request): string {
    if req.checksum != "" then req.checksum else digest(Stable(req.snapshot))
  }

  // ------------------------------------------------------------ writer epochs

  function Metadata(snapshot: Json): map<string, Json> {
    var fields := FieldsOf(snapshot);
    if READ_MODEL in fields then FieldsOf(fields[READ_MODEL]) else map[]
  }

  function Text(fields: map<string, Json>, name: string): string {
    if name in fields && fields[name].JString? then fields[name].text else ""
  }

  function Whole(fields: map<string, Json>, name: string): int {
    if name in fields && fields[name].JNumber? then
      var n := fields[name].number;
      if n >= 0.0 then n.Floor else -((-n).Floor)
    else 0
  }

  function EpochOf(fields: map<string, Json>): string {
    if Text(fields, "source_epoch_id") != "" then Text(fields, "source_epoch_id") else Text(fields, "boot_id")
  }

  /** Both name the count, and the new one is less. */
  predicate IsBehind(old': map<string, Json>, new': map<string, Json>, name: string) {
    Whole(new', name) != 0 && Whole(old', name) != 0 && Whole(new', name) < Whole(old', name)
  }

  /** A writer of another epoch whose generation or cycle count lies behind. */
  predicate EpochConflict(existing: Json, incoming: Json) {
    var old', new' := Metadata(existing), Metadata(incoming);
    EpochOf(old') != "" && EpochOf(new') != "" && EpochOf(old') != EpochOf(new')
    && (IsBehind(old', new', "generation") || IsBehind(old', new', "source_runtime_cycle_count"))
  }

  // -------------------------------------------------------------------- saves

  /** Why the guards refuse the save over an existing row, or "". */
  function Refusal(existing: Record, req: Request, checksum: string): string {
    if req.generation > 0 && req.generation < existing.generation then "STALE_GENERATION_REJECTED"
    else if req.generation > 0 && req.generation == existing.generation && existing.checksum != checksum
    then "STALE_GENERATION_REJECTED"
    else if req.cycleCount > 0 && existing.cycleCount > 0 && req.cycleCount < existing.cycleCount
    then "STALE_RUNTIME_CYCLE_REJECTED"
    else if EpochConflict(existing.snapshot, req.snapshot) then "WRITER_EPOCH_MISMATCH"
    else ""
  }

  function NextGeneration(store: Store, req: Request): int {
    if req.generation > 0 then req.generation
    else if View(req.viewName) in store then store[View(req.viewName)].generation + 1
    else 1
  }

  function NewRecord(digest: Json -> string, store: Store, req: Request): Record {
    Record(View(req.viewName), NextGeneration(store, req), req.snapshot, ChecksumOf(digest, req), req.snapshotAt, req.cycleCount)
  }

  function Decide(digest: Json -> string, store: Store, req: Request): Outcome {
    var view := View(req.viewName);
    var checksum := ChecksumOf(digest, req);
    if view in store && Refusal(store[view], req, checksum) != "" then Rejected(Refusal(store[view], req, checksum))
    else if view in store && req.skipUnchanged && store[view].checksum == checksum then Unchanged(store[view])
    else Accepted(NewRecord(digest, store, req))
  }

  function Stored(store: Store, view: string): Option<Record> {
    if view in store then Some(store[view]) else None
  }

  function Save(digest: Json -> string, store: Store, req: Request): Store {
    match Decide(digest, store, req)
    case Accepted(record) => store[View(req.viewName) := record]
    case _ => store
  }

  class ReadModelRepository {
    var views: Store
    const digest: Json -> string

    constructor (digest: Json -> string)
      ensures views == map[] && this.digest == digest
    {
      this.digest := digest;
      views := map[];
    }

    method SaveSnapshot(req: Request) returns (outcome: Outcome)
      modifies this`views
      ensures outcome == Decide(digest, old(views), req) && views == Save(digest, old(views), req)
      ensures outcome.Rejected? || outcome.Unchanged? ==> views == old(views)
      ensures outcome.Accepted? ==>
                outcome.record.snapshot == req.snapshot && outcome.record.snapshotAt == req.snapshotAt
                && outcome.record.cycleCount == req.cycleCount
      ensures !outcome.Rejected? ==> View(req.viewName) in views && views[View(req.viewName)] == outcome.record
      ensures forall v :: v != View(req.viewName) ==> (v in views <==> v in old(views)) && (v in views ==> views[v] == old(views)[v])
    {
      var view := View(req.viewName);
      var checksum := if req.checksum != "" then req.checksum else digest(Stable(req.snapshot));
      if view in views {
        var existing := views[view];
        if req.generation > 0 && req.generation < existing.generation {
          return Rejected("STALE_GENERATION_REJECTED");
        }
        if req.generation > 0 && req.generation == existing.generation && existing.checksum != checksum {
          return Rejected("STALE_GENERATION_REJECTED");
        }
        if req.cycleCount > 0 && existing.cycleCount > 0 && req.cycleCount < existing.cycleCount {
          return Rejected("STALE_RUNTIME_CYCLE_REJECTED");
        }
        if EpochConflict(existing.snapshot, req.snapshot) {
          return Rejected("WRITER_EPOCH_MISMATCH");
        }
        if req.skipUnchanged && existing.checksum == checksum {
          return Unchanged(existing);
        }
      }
      var generation := req.generation;
      if generation <= 0 {
        generation := if view in views then views[view].generation + 1 else 1;
      }
      views := views[view := Record(view, generation, req.snapshot, checksum, req.snapshotAt, req.cycleCount)];
      return Accepted(views[view]);
    }

    method ReadSnapshot(viewName: string) returns (record: Option<Record>)
      ensures record == Stored(views, View(viewName))
    {
      var view := View(viewName);
      if view !in views {
        return None;
      }
      return Some(views[view]);
    }
  }

  // ------------------------------------------------------------------ history

  /** The store after the first m requests. */
  function Run(digest: Json -> string, reqs: seq<Request>, m: nat): Store
    requires m <= |reqs|
  {
    if m == 0 then map[] else Save(digest, Run(digest, reqs, m - 1), reqs[m - 1])
  }

  /** One save against one view's row. */
  lemma SaveOnView(digest: Json -> string, store: Store, req: Request, view: string)
    ensures var after := Save(digest, store, req);
            && (view in store ==> view in after)
            && (view in after && (view !in store || after[view] != store[view]) ==>
                  view == View(req.viewName) && Decide(digest, store, req) == Accepted(after[view]))
            && (view in store ==>
                  store[view].generation <= after[view].generation
                  && (store[view].generation == after[view].generation ==> store[view].checksum == after[view].checksum))
  {
  }

  /** r' may stand where r stood: no smaller a generation, and under the same
      generation the same checksum. */
  predicate Follows(r: Record, r': Record) {
    r.generation <= r'.generation && (r.generation == r'.generation ==> r.checksum == r'.checksum)
  }

  lemma NextFollows(digest: Json -> string, reqs: seq<Request>, m: nat, view: string)
    requires m < |reqs| && view in Run(digest, reqs, m)
    ensures view in Run(digest, reqs, m + 1)
    ensures Follows(Run(digest, reqs, m)[view], Run(digest, reqs, m + 1)[view])
    ensures (View(reqs[m].viewName) == view ==> reqs[m].cycleCount > 0) ==>
              Run(digest, reqs, m)[view].cycleCount <= Run(digest, reqs, m + 1)[view].cycleCount
  {
    SaveOnView(digest, Run(digest, reqs, m), reqs[m], view);
  }

  /** From each of these stores to the next, the view stays and its row follows. */
  ghost predicate Chain(stores: seq<Store>, view: string) {
    forall k :: 0 < k < |stores| && view in stores[k - 1] ==>
      view in stores[k] && Follows(stores[k - 1][view], stores[k][view])
  }

  lemma {:induction false} ChainFollows(stores: seq<Store>, i: nat, m: nat, view: string)
    requires Chain(stores, view)
    requires i <= m < |stores| && view in stores[i]
    ensures view in stores[m] && Follows(stores[i][view], stores[m][view])
    decreases m
  {
    if i < m {
      ChainFollows(stores, i, m - 1, view);
    }
  }

  /** Over any history a view stays, its generation never decreases, and while
      it stays the same so does the checksum. */
  lemma {:induction false} HistoryIsVersioned(digest: Json -> string, reqs: seq<Request>, i: nat, m: nat, view: string)
    requires i <= m <= |reqs| && view in Run(digest, reqs, i)
    ensures view in Run(digest, reqs, m)
    ensures Follows(Run(digest, reqs, i)[view], Run(digest, reqs, m)[view])
  {
    var stores := seq(|reqs| + 1, k requires 0 <= k <= |reqs| => Run(digest, reqs, k));
    forall k | 0 < k < |stores| && view in stores[k - 1]
      ensures view in stores[k] && Follows(stores[k - 1][view], stores[k][view])
    {
      NextFollows(digest, reqs, k - 1, view);
    }
    ChainFollows(stores, i, m, view);
    assert stores[i] == Run(digest, reqs, i) && stores[m] == Run(digest, reqs, m);
  }

  /** Any two records ever stored under one view and generation share a checksum. */
  lemma SameGenerationSameChecksum(digest: Json -> string, reqs: seq<Request>, i: nat, j: nat, view: string)
    requires i <= |reqs| && j <= |reqs|
    requires view in Run(digest, reqs, i) && view in Run(digest, reqs, j)
    requires Run(digest, reqs, i)[view].generation == Run(digest, reqs, j)[view].generation
    ensures Run(digest, reqs, i)[view].checksum == Run(digest, reqs, j)[view].checksum
  {
    if i <= j {
      HistoryIsVersioned(digest, reqs, i, j, view);
    } else {
      HistoryIsVersioned(digest, reqs, j, i, view);
    }
  }

  predicate CountIsAtLeast(store: Store, view: string, floor: int) {
    view in store && floor <= store[view].cycleCount
  }

  lemma NextCountIsAtLeast(digest: Json -> string, reqs: seq<Request>, m: nat, view: string, floor: int)
    requires m < |reqs| && CountIsAtLeast(Run(digest, reqs, m), view, floor)
    requires View(reqs[m].viewName) == view ==> reqs[m].cycleCount > 0
    ensures CountIsAtLeast(Run(digest, reqs, m + 1), view, floor)
  {
    NextFollows(digest, reqs, m, view);
  }

  lemma {:induction false} CountStaysAtLeast(digest: Json -> string, reqs: seq<Request>, i: nat, m: nat, view: string, floor: int)
    requires i <= m <= |reqs| && CountIsAtLeast(Run(digest, reqs, i), view, floor)
    requires forall k :: i <= k < m && View(reqs[k].viewName) == view ==> reqs[k].cycleCount > 0
    ensures CountIsAtLeast(Run(digest, reqs, m), view, floor)
    decreases m
  {
    if i < m {
      assert View(reqs[m - 1].viewName) == view ==> reqs[m - 1].cycleCount > 0;
      CountStaysAtLeast(digest, reqs, i, m - 1, view, floor);
      NextCountIsAtLeast(digest, reqs, m - 1, view, floor);
    }
  }

  /** The runtime cycle count does not fall over a stretch of positive counts. */
  lemma CycleCountRises(digest: Json -> string, reqs: seq<Request>, i: nat, m: nat, view: string)
    requires i <= m <= |reqs| && view in Run(digest, reqs, i)
    requires forall k :: i <= k < m && View(reqs[k].viewName) == view ==> reqs[k].cycleCount > 0
    ensures view in Run(digest, reqs, m)
    ensures Run(digest, reqs, i)[view].cycleCount <= Run(digest, reqs, m)[view].cycleCount
  {
    CountStaysAtLeast(digest, reqs, i, m, view, Run(digest, reqs, i)[view].cycleCount);
  }

  // ------------------------------------------------------- what is stored

  /** The record holds what the request carries. */
  predicate Holds(record: Record, req: Request) {
    record.snapshot == req.snapshot && record.snapshotAt == req.snapshotAt && record.cycleCount == req.cycleCount
    && record.view == if req.viewName != "" then req.viewName else "main"
  }

  /** An accepted save stores what its request carries, under the checksum given or
      else that of the snapshot's normal form; it returns that record, and only it
      changes the store.  Any other answer is a record that was there, or none. */
  lemma SaveStoresItsRequest(digest: Json -> string, store: Store, req: Request)
    ensures var view, outcome, after := View(req.viewName), Decide(digest, store, req), Save(digest, store, req);
            && (outcome.Accepted? ==>
                  && view in after && after[view] == outcome.record && Holds(after[view], req)
                  && after[view].checksum == (if req.checksum != "" then req.checksum else digest(Stable(req.snapshot)))
                  && (req.generation > 0 ==> after[view].generation == req.generation)
                  && (req.generation <= 0 ==> after[view].generation == if view in store then store[view].generation + 1 else 1)
                  && (forall v :: v != view ==> (v in after <==> v in store) && (v in after ==> after[v] == store[v])))
            && (outcome.Unchanged? ==> after == store && view in store && outcome.record == store[view])
            && (outcome.Rejected? ==> after == store)
  {
  }

  /** So a read after an accepted save returns what was saved, under any name that
      means the view, and one after a rejected save what was there before. */
  lemma ReadAfterSave(digest: Json -> string, store: Store, req: Request, viewName: string)
    requires View(viewName) == View(req.viewName)
    ensures var outcome, read := Decide(digest, store, req), Stored(Save(digest, store, req), View(viewName));
            && (outcome.Accepted? ==> read.Some? && Holds(read.value, req))
            && (outcome.Unchanged? ==> read == Some(outcome.record))
            && (outcome.Rejected? ==> read == Stored(store, View(viewName)))
  {
    SaveStoresItsRequest(digest, store, req);
  }

  /** Which of the three it is, guard by guard, against what the view holds. */
  lemma SaveIsAcceptedExactlyWhen(digest: Json -> string, store: Store, req: Request)
    ensures var view, outcome := View(req.viewName), Decide(digest, store, req);
            var checksum := if req.checksum != "" then req.checksum else digest(Stable(req.snapshot));
            if view !in store then outcome.Accepted?
            else
              var old' := store[view];
              && (outcome.Rejected? <==>
                    || 0 < req.generation < old'.generation
                    || (req.generation > 0 && req.generation == old'.generation && checksum != old'.checksum)
                    || 0 < req.cycleCount < old'.cycleCount
                    || EpochConflict(old'.snapshot, req.snapshot))
              && (outcome.Unchanged? <==> !outcome.Rejected? && req.skipUnchanged && checksum == old'.checksum)
  {
  }

  /** What epochs conflict: both snapshots name one, the two differ, and of the
      generations, or of the cycle counts, both are there and the incoming is less. */
  lemma EpochsConflictExactlyWhen(existing: Json, incoming: Json)
    ensures EpochConflict(existing, incoming) <==>
            var old', new' := Metadata(existing), Metadata(incoming);
            && EpochOf(old') != "" && EpochOf(new') != "" && EpochOf(old') != EpochOf(new')
            && ((Whole(old', "generation") != 0 && Whole(new', "generation") != 0
                 && Whole(new', "generation") < Whole(old', "generation"))
                || (Whole(old', "source_runtime_cycle_count") != 0 && Whole(new', "source_runtime_cycle_count") != 0
                    && Whole(new', "source_runtime_cycle_count") < Whole(old', "source_runtime_cycle_count")))
  {
  }

  /** The metadata are the fields of the object under read_model, if there is one. */
  lemma MetadataMeans(fields: map<string, Json>)
    ensures "read_model" in fields && fields["read_model"].JObject? ==>
              Metadata(JObject(fields)) == fields["read_model"].fields
    ensures "read_model" !in fields || !fields["read_model"].JObject? ==> Metadata(JObject(fields)) == map[]
  {
  }

  /** The epoch is the source's own, or else the boot's; a count is the number in its
      field without its fraction, and nothing where there is no number. */
  lemma EpochsAndCounts(fields: map<string, Json>, name: string)
    ensures "source_epoch_id" in fields && fields["source_epoch_id"].JString? && fields["source_epoch_id"].text != "" ==>
              EpochOf(fields) == fields["source_epoch_id"].text
    ensures "source_epoch_id" !in fields && "boot_id" in fields && fields["boot_id"].JString? ==>
              EpochOf(fields) == fields["boot_id"].text
    ensures name in fields && fields[name].JNumber? ==>
              var n, w := fields[name].number, Whole(fields, name) as real;
              if n >= 0.0 then w <= n < w + 1.0 && w >= 0.0 else w - 1.0 < n <= w && w <= 0.0
    ensures name !in fields || !fields[name].JNumber? ==> Whole(fields, name) == 0
  {
  }

  predicate AcceptedAt(digest: Json -> string, reqs: seq<Request>, i: nat, view: string)
    requires i < |reqs|
  {
    View(reqs[i].viewName) == view && Decide(digest, Run(digest, reqs, i), reqs[i]).Accepted?
  }

  /** The last of the first m requests for the view that was accepted, or -1. */
  function LastAccepted(digest: Json -> string, reqs: seq<Request>, m: nat, view: string): (i: int)
    requires m <= |reqs|
    ensures -1 <= i < m
    decreases m
  {
    if m == 0 then -1
    else if AcceptedAt(digest, reqs, m - 1, view) then m - 1
    else LastAccepted(digest, reqs, m - 1, view)
  }

  lemma {:induction false} LastAcceptedIsTheLast(digest: Json -> string, reqs: seq<Request>, m: nat, view: string, k: nat)
    requires k < m <= |reqs|
    ensures k == LastAccepted(digest, reqs, m, view) ==> AcceptedAt(digest, reqs, k, view)
    ensures k > LastAccepted(digest, reqs, m, view) ==> !AcceptedAt(digest, reqs, k, view)
    decreases m
  {
    if k < m - 1 {
      LastAcceptedIsTheLast(digest, reqs, m - 1, view, k);
    }
  }

  lemma RowChangesOnAcceptance(digest: Json -> string, store: Store, req: Request, view: string)
    requires view in Save(digest, store, req)
    requires !(View(req.viewName) == view && Decide(digest, store, req).Accepted?)
    ensures view in store && Save(digest, store, req)[view] == store[view]
  {
  }

  /** The view has a record, and that is made of its last accepted request. */
  predicate MadeOfTheLast(digest: Json -> string, reqs: seq<Request>, m: nat, view: string)
    requires m <= |reqs| && view in Run(digest, reqs, m)
  {
    var i := LastAccepted(digest, reqs, m, view);
    i >= 0 && Holds(Run(digest, reqs, m)[view], reqs[i]) && Run(digest, reqs, m)[view].checksum == ChecksumOf(digest, reqs[i])
  }

  lemma MadeByAcceptance(digest: Json -> string, reqs: seq<Request>, m: nat, view: string)
    requires m < |reqs| && AcceptedAt(digest, reqs, m, view)
    ensures view in Run(digest, reqs, m + 1) && MadeOfTheLast(digest, reqs, m + 1, view)
  {
    SaveStoresItsRequest(digest, Run(digest, reqs, m), reqs[m]);
  }

  lemma MadeOfTheLastStays(digest: Json -> string, reqs: seq<Request>, m: nat, view: string)
    requires m < |reqs| && view in Run(digest, reqs, m + 1) && !AcceptedAt(digest, reqs, m, view)
    ensures view in Run(digest, reqs, m)
    ensures MadeOfTheLast(digest, reqs, m, view) ==> MadeOfTheLast(digest, reqs, m + 1, view)
  {
    RowChangesOnAcceptance(digest, Run(digest, reqs, m), reqs[m], view);
    assert Run(digest, reqs, m + 1)[view] == Run(digest, reqs, m)[view];
  }

  /** Over any history a view's record holds what its last accepted request carried,
      under that request's checksum. */
  lemma {:induction false} RecordIsOfTheLastAccepted(digest: Json -> string, reqs: seq<Request>, m: nat, view: string)
    requires m <= |reqs| && view in Run(digest, reqs, m)
    ensures MadeOfTheLast(digest, reqs, m, view)
    decreases m
  {
    if m == 0 {
      assert false;
    } else if AcceptedAt(digest, reqs, m - 1, view) {
      MadeByAcceptance(digest, reqs, m - 1, view);
    } else {
      MadeOfTheLastStays(digest, reqs, m - 1, view);
      RecordIsOfTheLastAccepted(digest, reqs, m - 1, view);
    }
  }

  /** Where every save leaves the checksum to the repository, each stored checksum is
      that of the normal form of the snapshot stored with it. */
  lemma ChecksumsMatchSnapshots(digest: Json -> string, reqs: seq<Request>, m: nat, view: string)
    requires m <= |reqs| && view in Run(digest, reqs, m)
    requires forall i :: 0 <= i < m ==> reqs[i].checksum == ""
    ensures Run(digest, reqs, m)[view].checksum == digest(Stable(Run(digest, reqs, m)[view].snapshot))
  {
    RecordIsOfTheLastAccepted(digest, reqs, m, view);
  }

  /** The stored cycle count falls exactly when the save carries a smaller one,
      one of the two is not positive, as when a save carries none, the generation
      is not behind or taken by another checksum, the epochs do not conflict, and
      the save is not skipped as unchanged. */
  lemma CycleCountFallsExactlyWhen(digest: Json -> string, store: Store, req: Request)
    requires View(req.viewName) in store
    ensures var old', checksum := store[View(req.viewName)], ChecksumOf(digest, req);
            Save(digest, store, req)[View(req.viewName)].cycleCount < old'.cycleCount
            <==> req.cycleCount < old'.cycleCount && (req.cycleCount <= 0 || old'.cycleCount <= 0)
                 && (req.generation <= 0 || req.generation > old'.generation
                     || (req.generation == old'.generation && checksum == old'.checksum))
                 && !EpochConflict(old'.snapshot, req.snapshot)
                 && !(req.skipUnchanged && checksum == old'.checksum)
  {
  }

  /** After a save that names a generation, that is the stored one exactly when
      the view is new, or already has it, or has a smaller one, and neither the
      cycle count nor the epoch is behind and the save is not skipped as
      unchanged: so a larger generation is lost on an unchanged checksum. */
  lemma GivenGenerationIsStoredExactlyWhen(digest: Json -> string, store: Store, req: Request)
    requires req.generation > 0
    ensures var view, checksum := View(req.viewName), ChecksumOf(digest, req);
            view in Save(digest, store, req)
            && (Save(digest, store, req)[view].generation == req.generation
                <==> view !in store || store[view].generation == req.generation
                     || (store[view].generation < req.generation
                         && !(0 < req.cycleCount < store[view].cycleCount)
                         && !EpochConflict(store[view].snapshot, req.snapshot)
                         && !(req.skipUnchanged && checksum == store[view].checksum)))
  {
  }

  /** A snapshot that agrees with the stored one up to volatile parts is skipped,
      unless a guard refuses it; either way the store does not change. */
  lemma AgreeingSnapshotsAreSkipped(digest: Json -> string, store: Store, first: Request, second: Request)
    requires first.checksum == "" && second.checksum == "" && second.skipUnchanged
    requires View(first.viewName) == View(second.viewName)
    requires Decide(digest, store, first).Accepted?
    requires Agree(first.snapshot, second.snapshot)
    ensures var stored := Save(digest, store, first);
            && Save(digest, stored, second) == stored
            && (Decide(digest, stored, second).Unchanged?
                <==> Refusal(stored[View(second.viewName)], second, ChecksumOf(digest, second)) == "")
  {
    SameFormExactlyWhenAgree(first.snapshot, second.snapshot);
  }
}
