/** The per-process read-model service of trading_app/dashboard_read_model.py:
    a cached record, a dirty flag and a coalescing writer.  The process holds
    the lock only in short sections, so each section is one method here. */
module ReadModelService {
  import opened Common
  import opened ReadModelStore

  datatype WriterStatus = Idle | Running | WriteFailed

  datatype Config = Config(enabled: bool, writeIntervalSec: real)

  datatype Writer = Writer(
    dirty: bool,
    reasons: seq<string>,
    lastWriteAt: Option<int>,
    status: WriterStatus,
    coalescedSignals: nat,
    concurrentSkips: nat,
    staleRejects: nat)

  datatype Entry = Disabled | NotDirty | Coalesced | WriterRunning | Entered

  const INITIAL_WRITER := Writer(true, ["INIT"], None, Idle, 0, 0, 0)

  // -------------------------------------------------------------- the reader

  predicate NewerThan(candidate: Record, current: Record) {
    if candidate.generation != current.generation then candidate.generation > current.generation
    else if candidate.cycleCount != current.cycleCount then candidate.cycleCount > current.cycleCount
    else candidate.snapshotAt > current.snapshotAt
  }

  /** The cached record, if it is one of this view. */
  function CachedFor(cache: Option<Record>, view: string): Option<Record> {
    if cache.Some? && cache.value.view == view then cache else None
  }

  /** The stored record wins over the captured one when it is newer. */
  predicate TakesStored(captured: Option<Record>, stored: Option<Record>) {
    stored.Some? && (captured.None? || NewerThan(stored.value, captured.value))
  }

  function ReadResult(captured: Option<Record>, stored: Option<Record>): Option<Record> {
    if TakesStored(captured, stored) then stored
    else if captured.Some? then captured
    else stored
  }

  /** Of two records the read returns the one with the greater generation, then the
      greater cycle count, then the later snapshot; if all agree, the captured one. */
  lemma NewerRecordWins(captured: Record, stored: Record)
    ensures ReadResult(Some(captured), Some(stored)) == Some(stored) || ReadResult(Some(captured), Some(stored)) == Some(captured)
    ensures var r := ReadResult(Some(captured), Some(stored)).value;
            && r.generation >= captured.generation && r.generation >= stored.generation
            && (captured.generation == stored.generation ==> r.cycleCount >= captured.cycleCount && r.cycleCount >= stored.cycleCount)
            && (captured.generation == stored.generation && captured.cycleCount == stored.cycleCount ==>
                  r.snapshotAt >= captured.snapshotAt && r.snapshotAt >= stored.snapshotAt)
            && (captured.(view := stored.view, snapshot := stored.snapshot, checksum := stored.checksum) == stored ==> r == captured)
  {
  }

  // -------------------------------------------------------------- the writer

  function AgeSec(start: int, end: int): int {
    if end > start then end - start else 0
  }

  function Decision(config: Config, w: Writer, now: int, force: bool): Entry {
    if !config.enabled then Disabled
    else if !force && !w.dirty then NotDirty
    else if !force && w.lastWriteAt.Some? && AgeSec(w.lastWriteAt.value, now) as real < config.writeIntervalSec then Coalesced
    else if w.status == Running then WriterRunning
    else Entered
  }

  function AfterEntry(config: Config, w: Writer, now: int, force: bool): Writer {
    match Decision(config, w, now, force)
    case Coalesced => w.(coalescedSignals := w.coalescedSignals + 1)
    case WriterRunning => w.(concurrentSkips := w.concurrentSkips + 1)
    case Entered => w.(status := Running, dirty := false, reasons := [])
    case _ => w
  }

  function LastTwenty(reasons: seq<string>): seq<string> {
    if |reasons| > 20 then reasons[|reasons| - 20..] else reasons
  }

  ghost predicate NoRepeats(reasons: seq<string>) {
    forall i, j :: 0 <= i < j < |reasons| ==> reasons[i] != reasons[j]
  }

  function AfterMark(w: Writer, reason: string): Writer {
    var text := Strip(if reason != "" then reason else "UPDATE");
    w.(coalescedSignals := w.coalescedSignals + if w.dirty then 1 else 0,
       dirty := true,
       reasons := if text != "" && text !in w.reasons then LastTwenty(w.reasons + [text]) else w.reasons)
  }

  function AfterSave(w: Writer, snapshotAt: int): Writer {
    w.(lastWriteAt := Some(snapshotAt))
  }

  function AfterFailure(w: Writer, stale: bool): Writer {
    w.(dirty := true, status := WriteFailed, staleRejects := w.staleRejects + if stale then 1 else 0)
  }

  /** The inputs of a write could not be fetched: nothing was entered, but the
      status is overwritten. */
  function AfterInputFailure(w: Writer): Writer {
    w.(status := WriteFailed)
  }

  function AfterLeaving(w: Writer): Writer {
    if w.status == Running then w.(status := Idle) else w
  }

  class DashboardReadModelService {
    const config: Config
    const viewName: string
    const repository: ReadModelRepository
    var latest: Option<Record>
    var writer: Writer

    constructor (config: Config, viewName: string, repository: ReadModelRepository)
      ensures this.config == config && this.viewName == viewName && this.repository == repository
      ensures latest == None && writer == INITIAL_WRITER
    {
      this.config := config;
      this.viewName := viewName;
      this.repository := repository;
      latest := None;
      writer := INITIAL_WRITER;
    }

    method MarkDirty(reason: string)
      modifies this`writer
      ensures writer == AfterMark(old(writer), reason)
      ensures writer.dirty && |writer.reasons| <= if |old(writer.reasons)| > 20 then |old(writer.reasons)| else 20
      ensures NoRepeats(old(writer.reasons)) ==> NoRepeats(writer.reasons)
      ensures forall r :: r in writer.reasons ==> r in old(writer.reasons) || r == Strip(if reason != "" then reason else "UPDATE")
      ensures var text := Strip(if reason != "" then reason else "UPDATE");
              (text != "" ==> text in writer.reasons) && (|old(writer.reasons)| < 20 ==> old(writer.reasons) <= writer.reasons)
    {
      var text := Strip(if reason != "" then reason else "UPDATE");
      if writer.dirty {
        writer := writer.(coalescedSignals := writer.coalescedSignals + 1);
      }
      writer := writer.(dirty := true);
      if text != "" && text !in writer.reasons {
        writer := writer.(reasons := LastTwenty(writer.reasons + [text]));
        assert writer.reasons[|writer.reasons| - 1] == text;
      }
    }

    /** The locked head of write_if_due. */
    method EnterWrite(now: int, force: bool) returns (entry: Entry)
      modifies this`writer
      ensures entry == Decision(config, old(writer), now, force)
      ensures writer == AfterEntry(config, old(writer), now, force)
      ensures entry == Entered ==> old(writer.status) != Running && writer.status == Running && !writer.dirty
      ensures entry == Entered && !force ==> old(writer.dirty)
      ensures entry == Entered <==>
                && config.enabled && old(writer.status) != Running
                && (force
                    || (old(writer.dirty)
                        && (old(writer.lastWriteAt).None?
                            || config.writeIntervalSec <= 0.0
                            || (now - old(writer.lastWriteAt).value) as real >= config.writeIntervalSec)))
    {
      if !config.enabled {
        return Disabled;
      }
      if !force && !writer.dirty {
        return NotDirty;
      }
      if !force && writer.lastWriteAt.Some? && AgeSec(writer.lastWriteAt.value, now) as real < config.writeIntervalSec {
        writer := writer.(coalescedSignals := writer.coalescedSignals + 1);
        return Coalesced;
      }
      if writer.status == Running {
        writer := writer.(concurrentSkips := writer.concurrentSkips + 1);
        return WriterRunning;
      }
      writer := writer.(status := Running);
      writer := writer.(dirty := false);
      writer := writer.(reasons := []);
      return Entered;
    }

    /** The locked tail of save_snapshot: an unchanged record is cached as it was
        stored, but the write is dated by the snapshot at hand. */
    method RecordSaved(record: Record, snapshotAt: int)
      modifies this`writer, this`latest
      ensures writer == AfterSave(old(writer), snapshotAt) && latest == Some(record)
    {
      writer := writer.(lastWriteAt := Some(snapshotAt));
      latest := Some(record);
    }

    /** A save with nobody in between: the repository decides, and unless it
        rejects, what it then holds is cached and the write dated. */
    method SaveSnapshot(req: Request) returns (outcome: Outcome)
      modifies this`writer, this`latest, repository`views
      ensures outcome == Decide(repository.digest, old(repository.views), req)
      ensures repository.views == Save(repository.digest, old(repository.views), req)
      ensures outcome.Rejected? ==> latest == old(latest) && writer == old(writer)
      ensures !outcome.Rejected? ==> latest == Stored(repository.views, View(req.viewName)) && writer == AfterSave(old(writer), req.snapshotAt)
    {
      outcome := repository.SaveSnapshot(req);
      if !outcome.Rejected? {
        RecordSaved(outcome.record, req.snapshotAt);
      }
    }

    /** The except section of write_if_due. */
    method RecordFailure(stale: bool)
      modifies this`writer
      ensures writer == AfterFailure(old(writer), stale)
      ensures writer.dirty && writer.status == WriteFailed && writer.lastWriteAt == old(writer.lastWriteAt)
      ensures writer.staleRejects == if stale then old(writer.staleRejects) + 1 else old(writer.staleRejects)
    {
      writer := writer.(dirty := true);
      writer := writer.(status := WriteFailed);
      if stale {
        writer := writer.(staleRejects := writer.staleRejects + 1);
      }
    }

    /** The except section of the writer around it, which takes no lock. */
    method RecordInputFailure()
      modifies this`writer
      ensures writer == AfterInputFailure(old(writer))
    {
      writer := writer.(status := WriteFailed);
    }

    /** The finally section of write_if_due. */
    method LeaveWrite()
      modifies this`writer
      ensures writer == AfterLeaving(old(writer))
      ensures if old(writer.status) == Running then writer == old(writer).(status := Idle) else writer == old(writer)
    {
      if writer.status == Running {
        writer := writer.(status := Idle);
      }
    }

    /** The first locked section of a read. */
    method CaptureLatest(view: string) returns (captured: Option<Record>)
      ensures captured == CachedFor(latest, view)
    {
      if latest.Some? && latest.value.view == view {
        return latest;
      }
      return None;
    }

    /** The second locked section of a read, after the store was read. */
    method FinishRead(captured: Option<Record>, stored: Option<Record>) returns (result: Option<Record>)
      modifies this`latest
      ensures result == ReadResult(captured, stored)
      ensures latest == if TakesStored(captured, stored) then stored else old(latest)
      ensures result == captured || (result == stored && latest == stored)
      ensures captured.Some? && stored.Some? ==>
                result.value.generation == if captured.value.generation < stored.value.generation then stored.value.generation
                                           else captured.value.generation
    {
      if stored.Some? && (captured.None? || NewerThan(stored.value, captured.value)) {
        latest := stored;
        return stored;
      }
      if captured.Some? {
        return captured;
      }
      return stored;
    }

    /** A read with nobody in between. */
    method RecordForRead(name: string) returns (result: Option<Record>)
      modifies this`latest
      ensures var view := if name != "" then name else viewName;
              var stored := Stored(repository.views, View(view));
              && result == ReadResult(CachedFor(old(latest), view), stored)
              && latest == if TakesStored(CachedFor(old(latest), view), stored) then stored else old(latest)
    {
      var view := if name != "" then name else viewName;
      var captured := CaptureLatest(view);
      var stored := repository.ReadSnapshot(view);
      result := FinishRead(captured, stored);
    }

    /** recover_latest_snapshot puts whatever the store holds into the cache. */
    method RecoverLatest()
      modifies this`latest
      ensures latest == Stored(repository.views, View(viewName))
    {
      var record := repository.ReadSnapshot(viewName);
      latest := record;
    }
  }
}
