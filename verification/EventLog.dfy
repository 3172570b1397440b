/** The durable gateway event log of storage/event_log.py.

    The table is a sequence of rows; AUTOINCREMENT ids with no deletion make the
    row with id n the n-th row.  Each SQL statement is a function on the table,
    and the repository's methods run those statements step by step on the field
    that holds it.  Times are integers, with `Empty` for the empty text. */
module EventLog {
  import opened Common

  datatype Stamp = Empty | At(time: int)

  datatype Status =
    | Pending
    | RetryWait
    | Processing
    | Processed
    | Ignored
    | DeadLetter
    | Failed
    | Other(name: string)

  datatype Row = Row(
    id: int,
    eventId: string,
    eventType: string,
    dedupeKey: string,
    receivedAt: int,
    status: Status,
    error: string,
    processedAt: Stamp,
    attempts: nat,
    claimedAt: Stamp,
    claimedBy: string,
    nextRetryAt: Stamp,
    lastAttemptAt: Stamp,
    deadLetteredAt: Stamp)

  datatype Config = Config(
    enabled: bool,
    priceTickEnabled: bool,
    heartbeatEnabled: bool,
    maxPendingReplay: int,
    processingLeaseSec: int)

  /** A gateway event; `bucket` is the one-second bucket of its time and
      `serializationError` is the empty text when its payload can be written. */
  datatype Event = Event(
    eventId: string,
    eventType: string,
    commandId: string,
    requestId: string,
    receivedAt: int,
    bucket: string,
    payload: map<string, string>,
    serializationError: string)

  /** How callers name a row: by its number, or by the event it carries. */
  datatype Ref = ById(id: int) | ByEventId(eventId: string)

  datatype Marking =
    | MarkProcessed(at: int)
    | MarkFailed(error: string)
    | MarkResult(status: Status, error: string, at: int)
    | MarkRetryWait(error: string, nextRetryAt: Stamp)
    | MarkDeadLetter(error: string, at: int)
    | MarkIgnored(at: int)

  datatype AppendResult =
    | AppendIgnored(reason: string)
    | Duplicate(record: Row)
    | Appended(record: Row)

  // ---------------------------------------------------------------- text keys

  function FirstText(a: string, b: string): string {
    if a != "" then a else b
  }

  function Field(payload: map<string, string>, name: string): string {
    if name in payload then payload[name] else ""
  }

  function Digits(s: string): string {
    if s == "" then ""
    else (if '0' <= s[0] <= '9' then [s[0]] else []) + Digits(s[1..])
  }

  function ZeroFill(s: string): string
    decreases 6 - |s|
  {
    if |s| >= 6 then s else ZeroFill("0" + s)
  }

  function EventCode(e: Event): string {
    var raw := Upper(Strip(FirstText(Field(e.payload, "code"), FirstText(Field(e.payload, "stock_code"), Field(e.payload, "symbol")))));
    var text := if |raw| == 7 && raw[0] == 'A' then raw[1..] else raw;
    var digits := Digits(text);
    if digits != "" then ZeroFill(digits) else text
  }

  const ORDER_TYPES := {"order_ack", "order_fill", "execution", "execution_event", "fill"}
  const CHEJAN_TYPES := {"kiwoom_order_chejan", "kiwoom_balance_chejan"}
  const CONDITION_TYPES := {"condition_event", "condition_include", "condition_remove"}

  function OrderNo(payload: map<string, string>): string {
    FirstText(Field(payload, "order_no"), Field(payload, "original_order_no"))
  }

  function ExecutionId(payload: map<string, string>): string {
    FirstText(Field(payload, "execution_id"), FirstText(Field(payload, "fill_id"), Field(payload, "chejan_id")))
  }

  function OrderKey(payload: map<string, string>): string {
    "order:" + Field(payload, "account") + ":" + OrderNo(payload) + ":" + ExecutionId(payload)
  }

  function DedupeKeyForEvent(e: Event): string {
    var command := FirstText(e.commandId, Field(e.payload, "command_id"));
    if e.eventId != "" then "event:" + e.eventId
    else if e.eventType == "command_ack" then
      "command_ack:" + command + ":" + FirstText(Field(e.payload, "status"), Field(e.payload, "command_status"))
    else if e.eventType in CHEJAN_TYPES && Field(e.payload, "broker_event_key") != "" then
      "kiwoom-chejan:" + Field(e.payload, "broker_event_key")
    else if e.eventType in ORDER_TYPES then OrderKey(e.payload)
    else if e.eventType in CONDITION_TYPES then
      "condition:" + Field(e.payload, "condition_name") + ":" + Field(e.payload, "condition_index")
      + ":" + EventCode(e) + ":" + e.bucket
    else if e.eventType == "tr_response" then
      "tr:" + FirstText(command, FirstText(e.requestId, Field(e.payload, "request_id")))
    else
      e.eventType + ":" + FirstText(command, FirstText(EventCode(e), e.bucket))
  }

  /** The key an event is stored under, from an explicit key or its own fields. */
  function KeyOf(e: Event, explicit: string): string {
    var key := Strip(FirstText(explicit, DedupeKeyForEvent(e)));
    if key == "" then e.eventId else key
  }

  lemma {:induction false} StripRightKeepsPrefix(p: string, s: string)
    requires p != "" && !IsSpace(p[|p| - 1])
    ensures StripRight(p + s) == p + StripRight(s)
  {
    if s == "" {
      assert p + s == p;
    } else if IsSpace(s[|s| - 1]) {
      assert (p + s)[..|p + s| - 1] == p + s[..|s| - 1];
      StripRightKeepsPrefix(p, s[..|s| - 1]);
    }
  }

  /** Keys made from event ids are unique up to trailing space: the key is
      stripped as a whole, so two ids meet exactly when they differ in that only. */
  lemma EventIdKeysMeetExactlyWhen(a: Event, b: Event)
    requires a.eventId != "" && b.eventId != ""
    ensures KeyOf(a, "") == KeyOf(b, "") <==> StripRight(a.eventId) == StripRight(b.eventId)
  {
    EventIdKey(a);
    EventIdKey(b);
    var x, y := "event:" + StripRight(a.eventId), "event:" + StripRight(b.eventId);
    assert x[6..] == StripRight(a.eventId) && y[6..] == StripRight(b.eventId);
  }

  lemma EventIdKey(e: Event)
    requires e.eventId != ""
    ensures KeyOf(e, "") == "event:" + StripRight(e.eventId)
  {
    var raw := "event:" + e.eventId;
    assert raw[0] == 'e' && StripLeft(raw) == raw;
    StripRightKeepsPrefix("event:", e.eventId);
  }

  /** An order event that is keyed by its order: it has no event id. */
  predicate KeyedByOrder(e: Event) {
    e.eventId == "" && e.eventType in ORDER_TYPES
  }

  lemma OrderEventKey(e: Event)
    requires KeyedByOrder(e)
    ensures DedupeKeyForEvent(e) == OrderKey(e.payload)
    ensures KeyOf(e, "") == OrderKeyStart(e.payload) + StripRight(ExecutionId(e.payload))
  {
    assert "command_ack" !in ORDER_TYPES && CHEJAN_TYPES !! ORDER_TYPES;
    var start, raw := OrderKeyStart(e.payload), OrderKey(e.payload);
    assert raw == start + ExecutionId(e.payload);
    assert raw[0] == 'o' && StripLeft(raw) == raw;
    assert start[|start| - 1] == ':';
    StripRightKeepsPrefix(start, ExecutionId(e.payload));
  }

  /** The key up to and with its last separator. */
  function OrderKeyStart(payload: map<string, string>): string {
    "order:" + Field(payload, "account") + ":" + OrderNo(payload) + ":"
  }

  /** Two order events have one key, for all payloads, exactly when these texts
      are one. */
  lemma OrderEventsMeetExactlyWhen(a: Event, b: Event)
    requires KeyedByOrder(a) && KeyedByOrder(b)
    ensures KeyOf(a, "") == KeyOf(b, "") <==>
            OrderKeyStart(a.payload) + StripRight(ExecutionId(a.payload)) == OrderKeyStart(b.payload) + StripRight(ExecutionId(b.payload))
  {
    OrderEventKey(a);
    OrderEventKey(b);
  }

  lemma NoColonBefore(x: string, y: string, i: nat)
    requires ':' !in x && i < |x|
    ensures (x + ":" + y)[i] != ':'
  {
    assert (x + ":" + y)[i] == x[i];
  }

  /** Texts split at their first colon in one way only. */
  lemma FirstColon(x: string, y: string, x': string, y': string)
    requires ':' !in x && ':' !in x'
    ensures x + ":" + y == x' + ":" + y' <==> x == x' && y == y'
  {
    var s, t := x + ":" + y, x' + ":" + y';
    assert s[|x|] == ':' && t[|x'|] == ':' && s[|x| + 1..] == y && t[|x'| + 1..] == y';
    assert s[..|x|] == x && t[..|x'|] == x';
    if |x| < |x'| {
      NoColonBefore(x', y', |x|);
    } else if |x'| < |x| {
      NoColonBefore(x, y, |x'|);
    }
  }

  /** With no colon in account and order number, order events without an event id
      have one key exactly when account, order number and, up to trailing space,
      execution id agree, whatever their types: so an acknowledgement and a fill
      of one order that carry no execution id are taken for one event. */
  lemma OrderEventsShareAKeyExactlyWhen(a: Event, b: Event)
    requires KeyedByOrder(a) && KeyedByOrder(b)
    requires ':' !in Field(a.payload, "account") && ':' !in Field(b.payload, "account")
    requires ':' !in OrderNo(a.payload) && ':' !in OrderNo(b.payload)
    ensures KeyOf(a, "") == KeyOf(b, "") <==>
            Field(a.payload, "account") == Field(b.payload, "account") && OrderNo(a.payload) == OrderNo(b.payload)
            && StripRight(ExecutionId(a.payload)) == StripRight(ExecutionId(b.payload))
  {
    OrderEventKey(a);
    OrderEventKey(b);
    var rest := OrderNo(a.payload) + ":" + StripRight(ExecutionId(a.payload));
    var rest' := OrderNo(b.payload) + ":" + StripRight(ExecutionId(b.payload));
    AfterOrder(Field(a.payload, "account"), OrderNo(a.payload), StripRight(ExecutionId(a.payload)));
    AfterOrder(Field(b.payload, "account"), OrderNo(b.payload), StripRight(ExecutionId(b.payload)));
    FirstColon(Field(a.payload, "account"), rest, Field(b.payload, "account"), rest');
    FirstColon(OrderNo(a.payload), StripRight(ExecutionId(a.payload)), OrderNo(b.payload), StripRight(ExecutionId(b.payload)));
  }

  lemma AfterOrder(account: string, orderNo: string, execution: string)
    ensures ("order:" + account + ":" + orderNo + ":" + execution)[6..] == account + ":" + (orderNo + ":" + execution)
  {
  }

  lemma ColonMoves(p: string, x: string, y: string, z: string)
    ensures p + (x + ":" + y) + ":" + z + ":" == p + x + ":" + (y + ":" + z) + ":"
  {
  }

  /** The colon is not escaped, so with one inside, different orders meet:
      account "1:2" with order "3" is account "1" with order "2:3". */
  lemma ColonsLetOrdersMeet(a: Event, b: Event, x: string, y: string, z: string)
    requires KeyedByOrder(a) && KeyedByOrder(b) && ExecutionId(a.payload) == ExecutionId(b.payload)
    requires Field(a.payload, "account") == x + ":" + y && OrderNo(a.payload) == z
    requires Field(b.payload, "account") == x && OrderNo(b.payload) == y + ":" + z
    ensures KeyOf(a, "") == KeyOf(b, "")
  {
    OrderEventKey(a);
    OrderEventKey(b);
    ColonMoves("order:", x, y, z);
  }

  predicate Accepts(config: Config, e: Event) {
    config.enabled
    && (e.eventType == "price_tick" ==> config.priceTickEnabled)
    && (e.eventType == "heartbeat" ==> config.heartbeatEnabled)
  }

  function IgnoreReason(config: Config, e: Event): string {
    if !config.enabled then "EVENT_LOG_DISABLED"
    else if e.eventType == "price_tick" then "PRICE_TICK_LOGGING_DISABLED"
    else "HEARTBEAT_LOGGING_DISABLED"
  }

  // --------------------------------------------------------------- statements

  /** Ids count up from one and no dedupe key is stored twice. */
  ghost predicate Table(rows: seq<Row>) {
    (forall i :: 0 <= i < |rows| ==> rows[i].id == i + 1)
    && (forall i, j :: 0 <= i < j < |rows| ==> rows[i].dedupeKey != rows[j].dedupeKey)
  }

  function FindByKey(rows: seq<Row>, key: string): (r: Option<Row>)
    ensures r.None? <==> forall i :: 0 <= i < |rows| ==> rows[i].dedupeKey != key
    ensures r.Some? ==> r.value in rows && r.value.dedupeKey == key
  {
    if rows == [] then None
    else if rows[0].dedupeKey == key then Some(rows[0])
    else FindByKey(rows[1..], key)
  }

  function NewRow(id: int, e: Event, key: string): Row {
    Row(id, e.eventId, e.eventType, key, e.receivedAt,
        if e.serializationError != "" then Failed else Pending, e.serializationError,
        Empty, 0, Empty, "", Empty, Empty, Empty)
  }

  function Insert(rows: seq<Row>, e: Event, key: string): seq<Row> {
    rows + [NewRow(|rows| + 1, e, key)]
  }

  predicate Matches(r: Row, ref: Ref) {
    match ref
    case ById(id) => r.id == id
    case ByEventId(eventId) => r.eventId == eventId
  }

  /** The row a reference reads: the only one by id, the newest by event. */
  function Lookup(rows: seq<Row>, ref: Ref): (r: Option<Row>)
    ensures r.Some? ==> r.value in rows && Matches(r.value, ref)
    ensures r.None? <==> forall i :: 0 <= i < |rows| ==> !Matches(rows[i], ref)
    ensures r.Some? ==> exists k :: 0 <= k < |rows| && r.value == rows[k] && forall i :: k < i < |rows| ==> !Matches(rows[i], ref)
  {
    if rows == [] then None
    else if Matches(rows[|rows| - 1], ref) then Some(rows[|rows| - 1])
    else Lookup(rows[..|rows| - 1], ref)
  }

  /** A waiting row whose retry time, if any, has come. */
  predicate Claimable(r: Row, now: int) {
    r.status == Pending
    || (r.status == RetryWait && (r.nextRetryAt == Empty || r.nextRetryAt.time <= now))
  }

  predicate Final(s: Status) {
    s == Processed || s == Ignored || s == DeadLetter
  }

  function ClaimRow(r: Row, worker: string, now: int, deadline: int): Row {
    r.(status := Processing, attempts := r.attempts + 1, claimedAt := At(now),
       claimedBy := worker, nextRetryAt := At(deadline), lastAttemptAt := At(now))
  }

  /** The guarded UPDATE of a batch claim: it re-checks the row it was told of. */
  function GuardedClaim(rows: seq<Row>, id: int, worker: string, now: int, deadline: int): (out: seq<Row>)
    ensures |out| == |rows|
  {
    seq(|rows|, i requires 0 <= i < |rows| =>
      if rows[i].id == id && Claimable(rows[i], now) then ClaimRow(rows[i], worker, now, deadline) else rows[i])
  }

  /** The UPDATE of a direct claim: any row that is not final. */
  function DirectClaim(rows: seq<Row>, id: int, worker: string, now: int, deadline: int): (out: seq<Row>)
    ensures |out| == |rows|
  {
    seq(|rows|, i requires 0 <= i < |rows| =>
      if rows[i].id == id && !Final(rows[i].status) then ClaimRow(rows[i], worker, now, deadline) else rows[i])
  }

  /** The one UPDATE behind every marking: it releases the claim, and clears the
      retry time unless it sets one or leaves the row waiting or processing. */
  function UpdateStatus(r: Row, status: Status, processedAt: Stamp, error: string,
                        nextRetryAt: Option<Stamp>, deadLetteredAt: Option<Stamp>): Row {
    r.(status := status, processedAt := processedAt, error := error, claimedAt := Empty, claimedBy := "",
       nextRetryAt :=
         if nextRetryAt.Some? then nextRetryAt.value
         else if status != Processing && status != RetryWait then Empty
         else r.nextRetryAt,
       deadLetteredAt := if deadLetteredAt.Some? then deadLetteredAt.value else r.deadLetteredAt)
  }

  function MarkRow(r: Row, m: Marking): Row {
    match m
    case MarkProcessed(at) => UpdateStatus(r, Processed, At(at), "", None, None)
    case MarkFailed(error) => UpdateStatus(r, Failed, Empty, error, None, None)
    case MarkResult(status, error, at) =>
      if status == Processed || status == Ignored
      then UpdateStatus(r, status, At(at), "", None, None)
      else UpdateStatus(r, status, Empty, error, None, None)
    case MarkRetryWait(error, next) => UpdateStatus(r, RetryWait, Empty, error, Some(next), None)
    case MarkDeadLetter(error, at) => UpdateStatus(r, DeadLetter, Empty, error, None, Some(At(at)))
    case MarkIgnored(at) => UpdateStatus(r, Ignored, At(at), "", None, None)
  }

  /** What each marking leaves, column by column. */
  predicate MarkedColumns(r: Row, r': Row, m: Marking) {
    // every marking releases the claim and leaves identity and attempts alone
    && r'.claimedAt == Empty && r'.claimedBy == "" && r'.attempts == r.attempts && r'.lastAttemptAt == r.lastAttemptAt
    && r'.id == r.id && r'.eventId == r.eventId && r'.eventType == r.eventType && r'.dedupeKey == r.dedupeKey
    && r'.receivedAt == r.receivedAt
    && (!m.MarkDeadLetter? ==> r'.deadLetteredAt == r.deadLetteredAt)
    && (m.MarkProcessed? ==> r'.status == Processed && r'.processedAt == At(m.at) && r'.error == "" && r'.nextRetryAt == Empty)
    && (m.MarkIgnored? ==> r'.status == Ignored && r'.processedAt == At(m.at) && r'.error == "" && r'.nextRetryAt == Empty)
    && (m.MarkFailed? ==> r'.status == Failed && r'.processedAt == Empty && r'.error == m.error && r'.nextRetryAt == Empty)
    && (m.MarkDeadLetter? ==>
          r'.status == DeadLetter && r'.processedAt == Empty && r'.error == m.error && r'.nextRetryAt == Empty
          && r'.deadLetteredAt == At(m.at))
    && (m.MarkRetryWait? ==>
          r'.status == RetryWait && r'.processedAt == Empty && r'.error == m.error && r'.nextRetryAt == m.nextRetryAt)
    && (m.MarkResult? ==>
          r'.status == m.status
          && (m.status == Processed || m.status == Ignored ==> r'.processedAt == At(m.at) && r'.error == "")
          && (m.status != Processed && m.status != Ignored ==> r'.processedAt == Empty && r'.error == m.error)
          && r'.nextRetryAt == if m.status == Processing || m.status == RetryWait then r.nextRetryAt else Empty)
  }

  lemma MarkingWritesItsColumns(r: Row, m: Marking)
    ensures MarkedColumns(r, MarkRow(r, m), m)
  {
  }

  function MarkRows(rows: seq<Row>, ref: Ref, m: Marking): (out: seq<Row>)
    ensures |out| == |rows|
  {
    seq(|rows|, i requires 0 <= i < |rows| => if Matches(rows[i], ref) then MarkRow(rows[i], m) else rows[i])
  }

  /** A marking writes its columns in every row that its reference names by id or by
      event, and touches no other. */
  lemma MarkedRowsAreNamed(rows: seq<Row>, ref: Ref, m: Marking)
    requires Table(rows)
    ensures Table(MarkRows(rows, ref, m))
    ensures forall i :: 0 <= i < |rows| ==>
              if (ref.ById? && ref.id == i + 1) || (ref.ByEventId? && ref.eventId == rows[i].eventId)
              then MarkedColumns(rows[i], MarkRows(rows, ref, m)[i], m) else MarkRows(rows, ref, m)[i] == rows[i]
  {
    forall i | 0 <= i < |rows| ensures MarkedColumns(rows[i], MarkRow(rows[i], m), m) {
      MarkingWritesItsColumns(rows[i], m);
    }
  }

  predicate Stale(r: Row, now: int) {
    r.status == Processing && r.nextRetryAt != Empty && r.nextRetryAt.time <= now
  }

  function RecoverRow(r: Row, now: int): Row {
    if Stale(r, now) then r.(status := Pending, claimedAt := Empty, claimedBy := "", nextRetryAt := Empty) else r
  }

  function RecoverRows(rows: seq<Row>, now: int): (out: seq<Row>)
    ensures |out| == |rows|
  {
    seq(|rows|, i requires 0 <= i < |rows| => RecoverRow(rows[i], now))
  }

  function StaleCount(rows: seq<Row>, now: int): nat {
    if rows == [] then 0
    else StaleCount(rows[..|rows| - 1], now) + if Stale(rows[|rows| - 1], now) then 1 else 0
  }

  /** The positions of the rows in a status that satisfy the deadline test. */
  ghost function Overdue(rows: seq<Row>, now: int): set<int> {
    set i | 0 <= i < |rows| && rows[i].status == Processing && rows[i].nextRetryAt != Empty && rows[i].nextRetryAt.time <= now
  }

  lemma {:induction false} StaleCountIsTheirNumber(rows: seq<Row>, now: int)
    ensures StaleCount(rows, now) == |Overdue(rows, now)|
  {
    if rows == [] {
      assert Overdue(rows, now) == {};
    } else {
      var n := |rows| - 1;
      StaleCountIsTheirNumber(rows[..n], now);
      if Stale(rows[n], now) {
        assert Overdue(rows, now) == Overdue(rows[..n], now) + {n};
      } else {
        assert Overdue(rows, now) == Overdue(rows[..n], now);
      }
    }
  }

  // ------------------------------------------------------- SELECT ... ORDER BY

  /** What the claim query sorts by. */
  datatype Slot = Slot(receivedAt: int, id: int)

  predicate Before(a: Slot, b: Slot) {
    a.receivedAt < b.receivedAt || (a.receivedAt == b.receivedAt && a.id < b.id)
  }

  function SlotOf(r: Row): Slot {
    Slot(r.receivedAt, r.id)
  }

  predicate Selected(r: Row, now: int, types: set<string>) {
    Claimable(r, now) && (types == {} || r.eventType in types)
  }

  function InsertSlot(s: Slot, sorted: seq<Slot>): seq<Slot> {
    if sorted == [] || Before(s, sorted[0]) then [s] + sorted
    else [sorted[0]] + InsertSlot(s, sorted[1..])
  }

  /** Every selected row, in the order of the query. */
  function Backlog(rows: seq<Row>, now: int, types: set<string>): seq<Slot> {
    if rows == [] then []
    else
      var rest := Backlog(rows[1..], now, types);
      if Selected(rows[0], now, types) then InsertSlot(SlotOf(rows[0]), rest) else rest
  }

  ghost predicate Ascending(slots: seq<Slot>) {
    forall i, j :: 0 <= i < j < |slots| ==> Before(slots[i], slots[j])
  }

  lemma {:induction false} InsertSlotSorts(s: Slot, sorted: seq<Slot>)
    requires Ascending(sorted) && s !in sorted
    ensures Ascending(InsertSlot(s, sorted))
    ensures forall x :: x in InsertSlot(s, sorted) <==> x == s || x in sorted
  {
    if sorted == [] || Before(s, sorted[0]) {
    } else {
      InsertSlotSorts(s, sorted[1..]);
      var tail := InsertSlot(s, sorted[1..]);
      assert sorted == [sorted[0]] + sorted[1..];
      assert forall x :: x in tail ==> Before(sorted[0], x);
    }
  }

  /** The query's answer: exactly the selected rows, strictly ascending. */
  lemma {:induction false} BacklogIsTheQuery(rows: seq<Row>, now: int, types: set<string>)
    requires forall i, j :: 0 <= i < j < |rows| ==> rows[i].id != rows[j].id
    ensures Ascending(Backlog(rows, now, types))
    ensures forall s :: s in Backlog(rows, now, types) <==>
              exists i :: 0 <= i < |rows| && Selected(rows[i], now, types) && SlotOf(rows[i]) == s
  {
    if rows != [] {
      BacklogIsTheQuery(rows[1..], now, types);
      var rest := Backlog(rows[1..], now, types);
      assert rows == [rows[0]] + rows[1..];
      assert SlotOf(rows[0]) !in rest;
      if Selected(rows[0], now, types) {
        InsertSlotSorts(SlotOf(rows[0]), rest);
      }
      forall s ensures s in Backlog(rows, now, types) <==>
          exists i :: 0 <= i < |rows| && Selected(rows[i], now, types) && SlotOf(rows[i]) == s
      {
        if s in rest {
          var i :| 0 <= i < |rows[1..]| && Selected(rows[1..][i], now, types) && SlotOf(rows[1..][i]) == s;
          assert Selected(rows[i + 1], now, types) && SlotOf(rows[i + 1]) == s;
        }
        if i :| 0 <= i < |rows| && Selected(rows[i], now, types) && SlotOf(rows[i]) == s {
          if i > 0 {
            assert rows[1..][i - 1] == rows[i];
          }
        }
      }
    }
  }

  lemma HasMember(a: seq<Slot>)
    requires a != []
    ensures exists s :: s in a
  {
    assert a[0] in a;
  }

  /** A set of slots has one ascending listing. */
  lemma {:induction false} AscendingIsUnique(a: seq<Slot>, b: seq<Slot>)
    requires Ascending(a) && Ascending(b)
    requires forall s :: s in a <==> s in b
    ensures a == b
  {
    if b != [] {
      HasMember(b);
    }
    if a != [] {
      assert a[0] in b;
      assert b[0] in a;
      assert a[0] == b[0];
      forall s ensures s in a[1..] <==> s in b[1..] {
        assert s in a <==> s in b;
        assert a == [a[0]] + a[1..] && b == [b[0]] + b[1..];
      }
      AscendingIsUnique(a[1..], b[1..]);
      assert a == [a[0]] + a[1..] && b == [b[0]] + b[1..];
    }
  }

  function ResolvedLimit(config: Config, limit: int): int {
    var asked := if limit > 0 then limit else 0;
    if asked < config.maxPendingReplay then asked else config.maxPendingReplay
  }

  function Lease(config: Config, leaseSec: int): int {
    var asked := if leaseSec != 0 then leaseSec else config.processingLeaseSec;
    if asked < 1 then 1 else asked
  }

  /** A claim is leased for the seconds asked, or, asked for none, for those of the
      configuration, but never for less than one. */
  lemma LeaseIsWhatWasAsked(config: Config, leaseSec: int)
    ensures leaseSec >= 1 ==> Lease(config, leaseSec) == leaseSec
    ensures leaseSec == 0 && config.processingLeaseSec >= 1 ==> Lease(config, leaseSec) == config.processingLeaseSec
    ensures leaseSec < 0 || (leaseSec == 0 && config.processingLeaseSec < 1) ==> Lease(config, leaseSec) == 1
  {
  }

  /** The ids a batch claim selects: the head of the backlog. */
  function SelectIds(config: Config, rows: seq<Row>, now: int, types: set<string>, limit: int): (ids: seq<int>) {
    var backlog := Backlog(rows, now, types);
    var k := ResolvedLimit(config, limit);
    var n := if k <= 0 then 0 else if k < |backlog| then k else |backlog|;
    seq(n, i requires 0 <= i < n => backlog[i].id)
  }

  /** Distinct ids of claimable rows of the table. */
  ghost predicate ClaimableIds(rows: seq<Row>, ids: seq<int>, now: int) {
    (forall k :: 0 <= k < |ids| ==> 1 <= ids[k] <= |rows| && Claimable(rows[ids[k] - 1], now))
    && (forall k, l :: 0 <= k < l < |ids| ==> ids[k] != ids[l])
  }

  lemma SelectIdsAreClaimable(config: Config, rows: seq<Row>, now: int, types: set<string>, limit: int)
    requires Table(rows)
    ensures ClaimableIds(rows, SelectIds(config, rows, now, types, limit), now)
  {
    BacklogIsTheQuery(rows, now, types);
    var backlog := Backlog(rows, now, types);
    var ids := SelectIds(config, rows, now, types, limit);
    forall k | 0 <= k < |ids|
      ensures 1 <= ids[k] <= |rows| && Selected(rows[ids[k] - 1], now, types) && SlotOf(rows[ids[k] - 1]) == backlog[k]
    {
      assert backlog[k] in backlog;
      var i :| 0 <= i < |rows| && Selected(rows[i], now, types) && SlotOf(rows[i]) == backlog[k];
    }
    forall k, l | 0 <= k < l < |ids| ensures ids[k] != ids[l] {
      assert Before(backlog[k], backlog[l]);
      assert SlotOf(rows[ids[k] - 1]) == backlog[k] && SlotOf(rows[ids[l] - 1]) == backlog[l];
    }
  }

  /** A whole uninterrupted batch: every listed row claimed, the others kept. */
  function ClaimAll(rows: seq<Row>, ids: seq<int>, worker: string, now: int, deadline: int): (out: seq<Row>)
    ensures |out| == |rows|
  {
    seq(|rows|, i requires 0 <= i < |rows| =>
      if rows[i].id in ids then ClaimRow(rows[i], worker, now, deadline) else rows[i])
  }

  lemma NothingClaimed(rows: seq<Row>, worker: string, now: int, deadline: int)
    ensures ClaimAll(rows, [], worker, now, deadline) == rows
  {
  }

  /** What a batch returns: the claimed rows in the order they were taken. */
  function Records(rows: seq<Row>, ids: seq<int>, worker: string, now: int, deadline: int): (records: seq<Row>)
    requires forall k :: 0 <= k < |ids| ==> 1 <= ids[k] <= |rows|
    ensures |records| == |ids|
  {
    seq(|ids|, k requires 0 <= k < |ids| => ClaimRow(rows[ids[k] - 1], worker, now, deadline))
  }

  lemma NothingSelected(config: Config, rows: seq<Row>, now: int, types: set<string>, limit: int, worker: string, deadline: int)
    requires Table(rows) && ResolvedLimit(config, limit) <= 0
    ensures var ids := SelectIds(config, rows, now, types, limit);
            ids == [] && ClaimAll(rows, ids, worker, now, deadline) == rows && Records(rows, [], worker, now, deadline) == []
    ensures ClaimsDueRows(rows, rows, [], types, worker, now, deadline)
  {
    NothingClaimed(rows, worker, now, deadline);
  }

  // ------------------------------------------------------ which rows are due

  /** A selected row was PENDING, or RETRY_WAIT with a retry time that is empty or
      has come, and of a wanted type; what it then becomes, column by column. */
  lemma SelectedRowsAreDue(config: Config, rows: seq<Row>, now: int, types: set<string>, limit: int, k: nat)
    requires Table(rows) && k < |SelectIds(config, rows, now, types, limit)|
    ensures var id := SelectIds(config, rows, now, types, limit)[k];
            && 1 <= id <= |rows|
            && (types == {} || rows[id - 1].eventType in types)
            && (rows[id - 1].status == RetryWait && rows[id - 1].nextRetryAt != Empty ==> rows[id - 1].nextRetryAt.time <= now)
            && (rows[id - 1].status == Pending || rows[id - 1].status == RetryWait)
  {
    BacklogIsTheQuery(rows, now, types);
    var slot := Backlog(rows, now, types)[k];
    assert slot in Backlog(rows, now, types);
    var i :| 0 <= i < |rows| && Selected(rows[i], now, types) && SlotOf(rows[i]) == slot;
    assert rows[i].id == i + 1;
  }

  /** Conversely a row that is due and wanted is in the backlog. */
  lemma DueRowsAreInTheBacklog(rows: seq<Row>, now: int, types: set<string>, i: int)
    requires Table(rows) && 0 <= i < |rows|
    requires types == {} || rows[i].eventType in types
    requires rows[i].status != Pending ==> rows[i].status == RetryWait
    requires rows[i].status == RetryWait && rows[i].nextRetryAt != Empty ==> rows[i].nextRetryAt.time <= now
    ensures Slot(rows[i].receivedAt, rows[i].id) in Backlog(rows, now, types)
  {
    BacklogIsTheQuery(rows, now, types);
    assert Selected(rows[i], now, types) && SlotOf(rows[i]) == Slot(rows[i].receivedAt, rows[i].id);
  }

  /** A row that waits for a later retry is in no batch. */
  lemma LaterRetriesAreNotSelected(config: Config, rows: seq<Row>, now: int, types: set<string>, limit: int, i: int)
    requires Table(rows) && 0 <= i < |rows|
    requires rows[i].status == RetryWait && rows[i].nextRetryAt != Empty && now < rows[i].nextRetryAt.time
    ensures rows[i].id !in SelectIds(config, rows, now, types, limit)
  {
    var ids := SelectIds(config, rows, now, types, limit);
    if rows[i].id in ids {
      var k :| 0 <= k < |ids| && ids[k] == rows[i].id;
      SelectedRowsAreDue(config, rows, now, types, limit, k);
    }
  }

  /** How many are selected when a due and wanted row is left out. */
  lemma LeftOutMeansFull(config: Config, rows: seq<Row>, now: int, types: set<string>, limit: int, j: nat)
    requires j < |Backlog(rows, now, types)|
    requires Backlog(rows, now, types)[j].id !in SelectIds(config, rows, now, types, limit)
    ensures var n := |SelectIds(config, rows, now, types, limit)|;
            n <= j
            && n == if limit <= 0 || config.maxPendingReplay <= 0 then 0
                    else if limit < config.maxPendingReplay then limit else config.maxPendingReplay
  {
    var ids := SelectIds(config, rows, now, types, limit);
    assert forall x :: 0 <= x < |ids| ==> ids[x] == Backlog(rows, now, types)[x].id;
  }

  /** A due and wanted row is left out only when the limit is used up by rows that
      come before it by (received_at, id). */
  lemma LeftOutOnlyByTheLimit(config: Config, rows: seq<Row>, now: int, types: set<string>, limit: int, i: int, k: nat)
    requires Table(rows) && 0 <= i < |rows|
    requires types == {} || rows[i].eventType in types
    requires rows[i].status != Pending ==> rows[i].status == RetryWait
    requires rows[i].status == RetryWait && rows[i].nextRetryAt != Empty ==> rows[i].nextRetryAt.time <= now
    requires rows[i].id !in SelectIds(config, rows, now, types, limit)
    ensures var n := |SelectIds(config, rows, now, types, limit)|;
            n == if limit <= 0 || config.maxPendingReplay <= 0 then 0
                 else if limit < config.maxPendingReplay then limit else config.maxPendingReplay
    ensures k < |SelectIds(config, rows, now, types, limit)| ==>
              var id := SelectIds(config, rows, now, types, limit)[k];
              1 <= id <= |rows| && (rows[id - 1].receivedAt < rows[i].receivedAt
                                    || (rows[id - 1].receivedAt == rows[i].receivedAt && id < rows[i].id))
  {
    BacklogIsTheQuery(rows, now, types);
    DueRowsAreInTheBacklog(rows, now, types, i);
    var backlog := Backlog(rows, now, types);
    var j: nat :| j < |backlog| && backlog[j] == SlotOf(rows[i]);
    LeftOutMeansFull(config, rows, now, types, limit, j);
    if k < |SelectIds(config, rows, now, types, limit)| {
      assert Before(backlog[k], backlog[j]) && backlog[k] in backlog;
      var x :| 0 <= x < |rows| && Selected(rows[x], now, types) && SlotOf(rows[x]) == backlog[k];
      assert rows[x].id == x + 1 == backlog[k].id;
    }
  }

  // --------------------------------------------------------------- repository

  function Append(config: Config, rows: seq<Row>, e: Event, explicit: string): (seq<Row>, AppendResult) {
    if !Accepts(config, e) then (rows, AppendIgnored(IgnoreReason(config, e)))
    else
      var key := KeyOf(e, explicit);
      match FindByKey(rows, key)
      case Some(record) => (rows, Duplicate(record))
      case None => (Insert(rows, e, key), Appended(NewRow(|rows| + 1, e, key)))
  }

  const REPLAYABLE_TYPES := {
    "command_ack", "command_failed", "command_timeout", "command_expired", "order_ack", "order_reject",
    "order_fill", "execution", "execution_event", "fill", "cancel_ack", "order_cancel", "order_cancelled",
    "order_status_snapshot", "balance_snapshot", "position_snapshot", "kiwoom_order_chejan",
    "kiwoom_balance_chejan", "kiwoom_special_chejan"}

  predicate Critical(r: Row) {
    r.eventType in REPLAYABLE_TYPES
  }

  datatype BacklogSnapshot = BacklogSnapshot(
    pending: nat, processing: nat, retryWait: nat, failed: nat, deadLetter: nat, ignored: nat, processed: nat,
    oldestPendingAt: Stamp, orderLifecycleReady: bool)

  predicate Open(r: Row) {
    r.status == Pending || r.status == Processing || r.status == RetryWait
  }

  function CriticalCount(rows: seq<Row>, status: Status): nat {
    if rows == [] then 0
    else
      var r := rows[|rows| - 1];
      CriticalCount(rows[..|rows| - 1], status) + if Critical(r) && r.status == status then 1 else 0
  }

  /** The positions of the critical rows in a status. */
  ghost function CriticalWith(rows: seq<Row>, status: Status): set<int> {
    set i | 0 <= i < |rows| && Critical(rows[i]) && rows[i].status == status
  }

  lemma OneMoreCritical(rows: seq<Row>, status: Status)
    requires rows != []
    ensures var n := |rows| - 1;
            n !in CriticalWith(rows[..n], status)
            && CriticalWith(rows, status) ==
                 CriticalWith(rows[..n], status) + if Critical(rows[n]) && rows[n].status == status then {n} else {}
  {
    var n := |rows| - 1;
    assert forall i :: 0 <= i < n ==> rows[..n][i] == rows[i];
  }

  lemma {:induction false} CriticalCountIsTheirNumber(rows: seq<Row>, status: Status)
    ensures CriticalCount(rows, status) == |CriticalWith(rows, status)|
  {
    if rows == [] {
      assert CriticalWith(rows, status) == {};
    } else {
      var n := |rows| - 1;
      CriticalCountIsTheirNumber(rows[..n], status);
      OneMoreCritical(rows, status);
    }
  }

  /** No critical row is waiting or being processed. */
  ghost predicate NoneOpen(rows: seq<Row>) {
    forall i :: 0 <= i < |rows| && Critical(rows[i]) ==> !Open(rows[i])
  }

  ghost predicate LifecycleReady(rows: seq<Row>) {
    forall i :: 0 <= i < |rows| && Critical(rows[i]) ==> !Open(rows[i]) && rows[i].status != DeadLetter
  }

  lemma CriticalCountIsZero(rows: seq<Row>, status: Status)
    ensures CriticalCount(rows, status) == 0 <==> forall i :: 0 <= i < |rows| && Critical(rows[i]) ==> rows[i].status != status
  {
    CriticalCountIsTheirNumber(rows, status);
    if i :| 0 <= i < |rows| && Critical(rows[i]) && rows[i].status == status {
      assert i in CriticalWith(rows, status);
    } else {
      assert CriticalWith(rows, status) == {};
    }
  }

  /** Nothing critical is open when no critical row is pending, processing or waiting
      for a retry; the lifecycle is ready when besides none is a dead letter. */
  lemma ReadyExactlyWhen(rows: seq<Row>)
    ensures NoneOpen(rows) <==>
            |CriticalWith(rows, Pending)| + |CriticalWith(rows, Processing)| + |CriticalWith(rows, RetryWait)| == 0
    ensures LifecycleReady(rows) <==> NoneOpen(rows) && |CriticalWith(rows, DeadLetter)| == 0
  {
    CriticalCountIsZero(rows, Pending);
    CriticalCountIsZero(rows, Processing);
    CriticalCountIsZero(rows, RetryWait);
    CriticalCountIsZero(rows, DeadLetter);
    CriticalCountIsTheirNumber(rows, Pending);
    CriticalCountIsTheirNumber(rows, Processing);
    CriticalCountIsTheirNumber(rows, RetryWait);
    CriticalCountIsTheirNumber(rows, DeadLetter);
  }

  /** One more guarded update extends the claimed part of a batch by its row. */
  lemma GuardedClaimExtends(rows: seq<Row>, ids: seq<int>, k: int, worker: string, now: int, deadline: int)
    requires Table(rows) && ClaimableIds(rows, ids, now) && 0 <= k < |ids|
    ensures var done := ClaimAll(rows, ids[..k], worker, now, deadline);
            && done[ids[k] - 1] == rows[ids[k] - 1]
            && GuardedClaim(done, ids[k], worker, now, deadline) == ClaimAll(rows, ids[..k + 1], worker, now, deadline)
  {
    assert ids[..k + 1] == ids[..k] + [ids[k]];
    var done := ClaimAll(rows, ids[..k], worker, now, deadline);
    assert forall i :: 0 <= i < |rows| ==> done[i].id == i + 1;
  }

  /** What a claim writes, column by column. */
  predicate ClaimedColumns(r: Row, r': Row, worker: string, now: int, deadline: int) {
    && r'.status == Processing && r'.attempts == r.attempts + 1
    && r'.claimedBy == worker && r'.claimedAt == At(now) && r'.lastAttemptAt == At(now) && r'.nextRetryAt == At(deadline)
    && r'.id == r.id && r'.eventId == r.eventId && r'.eventType == r.eventType && r'.dedupeKey == r.dedupeKey
    && r'.receivedAt == r.receivedAt && r'.error == r.error && r'.processedAt == r.processedAt
    && r'.deadLetteredAt == r.deadLetteredAt
  }

  /** What a batch claim at this time may do to a table: only rows that are due
      and wanted change, each is claimed and returned, and no row that waits for a
      later retry is touched. */
  ghost predicate ClaimsDueRows(rows: seq<Row>, after: seq<Row>, claimed: seq<Row>, types: set<string>,
                                worker: string, now: int, deadline: int)
  {
    |after| == |rows|
    && (forall i :: 0 <= i < |rows| && after[i] != rows[i] ==>
          && (rows[i].status == Pending
              || (rows[i].status == RetryWait && (rows[i].nextRetryAt == Empty || rows[i].nextRetryAt.time <= now)))
          && (types == {} || rows[i].eventType in types)
          && after[i] in claimed && ClaimedColumns(rows[i], after[i], worker, now, deadline))
    && (forall i :: 0 <= i < |rows| && rows[i].status == RetryWait && rows[i].nextRetryAt != Empty && now < rows[i].nextRetryAt.time
          ==> after[i] == rows[i])
  }

  lemma BatchClaimsDueRows(config: Config, rows: seq<Row>, now: int, types: set<string>, limit: int, worker: string, deadline: int)
    requires Table(rows)
    ensures var ids := SelectIds(config, rows, now, types, limit);
            ClaimableIds(rows, ids, now)
            && ClaimsDueRows(rows, ClaimAll(rows, ids, worker, now, deadline), Records(rows, ids, worker, now, deadline),
                             types, worker, now, deadline)
  {
    var ids := SelectIds(config, rows, now, types, limit);
    var after := ClaimAll(rows, ids, worker, now, deadline);
    SelectIdsAreClaimable(config, rows, now, types, limit);
    forall i | 0 <= i < |rows| && after[i] != rows[i]
      ensures rows[i].status == Pending
              || (rows[i].status == RetryWait && (rows[i].nextRetryAt == Empty || rows[i].nextRetryAt.time <= now))
      ensures types == {} || rows[i].eventType in types
      ensures after[i] in Records(rows, ids, worker, now, deadline)
      ensures ClaimedColumns(rows[i], after[i], worker, now, deadline)
    {
      var k :| 0 <= k < |ids| && ids[k] == rows[i].id;
      SelectedRowsAreDue(config, rows, now, types, limit, k);
      assert Records(rows, ids, worker, now, deadline)[k] == after[i];
    }
    forall i | 0 <= i < |rows| && rows[i].status == RetryWait && rows[i].nextRetryAt != Empty && now < rows[i].nextRetryAt.time
      ensures after[i] == rows[i]
    {
      LaterRetriesAreNotSelected(config, rows, now, types, limit, i);
    }
  }

  lemma BatchIsOfDueRows(config: Config, rows: seq<Row>, now: int, types: set<string>, limit: int, worker: string, deadline: int,
                         after: seq<Row>, claimed: seq<Row>)
    requires Table(rows) && ClaimableIds(rows, SelectIds(config, rows, now, types, limit), now)
    requires after == ClaimAll(rows, SelectIds(config, rows, now, types, limit), worker, now, deadline)
    requires claimed == Records(rows, SelectIds(config, rows, now, types, limit), worker, now, deadline)
    ensures ClaimsDueRows(rows, after, claimed, types, worker, now, deadline)
  {
    BatchClaimsDueRows(config, rows, now, types, limit, worker, deadline);
  }

  /** What a direct claim may do: of the rows the reference names only the newest
      changes, and that only if it is not final. */
  ghost predicate ClaimsNewest(rows: seq<Row>, after: seq<Row>, ref: Ref, record: Option<Row>,
                               worker: string, now: int, deadline: int)
  {
    |after| == |rows|
    && (record.None? ==> after == rows && forall i :: 0 <= i < |rows| ==> !Matches(rows[i], ref))
    && (record.Some? ==>
          var k := record.value.id - 1;
          && 0 <= k < |rows| && record.value == after[k] && Matches(rows[k], ref)
          && (ref.ById? ==> k + 1 == ref.id) && (ref.ByEventId? ==> rows[k].eventId == ref.eventId)
          && (forall i :: k < i < |rows| ==> !Matches(rows[i], ref))
          && (forall i :: 0 <= i < |rows| && i != k ==> after[i] == rows[i])
          && if rows[k].status == Processed || rows[k].status == Ignored || rows[k].status == DeadLetter
             then after[k] == rows[k]
             else ClaimedColumns(rows[k], after[k], worker, now, deadline))
  }

  lemma LookupIsNewest(rows: seq<Row>, ref: Ref)
    requires Table(rows) && Lookup(rows, ref).Some?
    ensures var k := Lookup(rows, ref).value.id - 1;
            0 <= k < |rows| && Lookup(rows, ref).value == rows[k] && Matches(rows[k], ref)
            && forall i :: k < i < |rows| ==> !Matches(rows[i], ref)
  {
    var r := Lookup(rows, ref).value;
    var k :| 0 <= k < |rows| && r == rows[k] && forall i :: k < i < |rows| ==> !Matches(rows[i], ref);
    assert rows[k].id == k + 1;
  }

  /** A direct claim: the table after it and what it returns. */
  function ClaimOne(rows: seq<Row>, ref: Ref, worker: string, now: int, deadline: int): (seq<Row>, Option<Row>) {
    match Lookup(rows, ref)
    case None => (rows, None)
    case Some(r) =>
      if Final(r.status) then (rows, Some(r))
      else (DirectClaim(rows, r.id, worker, now, deadline), Some(ClaimRow(r, worker, now, deadline)))
  }

  lemma DirectClaimColumns(rows: seq<Row>, id: int, worker: string, now: int, deadline: int)
    requires Table(rows) && 1 <= id <= |rows| && !Final(rows[id - 1].status)
    ensures var after := DirectClaim(rows, id, worker, now, deadline);
            && Table(after) && after[id - 1] == ClaimRow(rows[id - 1], worker, now, deadline)
            && ClaimedColumns(rows[id - 1], after[id - 1], worker, now, deadline)
            && forall i :: 0 <= i < |rows| && i != id - 1 ==> after[i] == rows[i]
  {
  }

  lemma ClaimOneIsOfTheNewest(rows: seq<Row>, ref: Ref, worker: string, now: int, deadline: int)
    requires Table(rows)
    ensures var (after, record) := ClaimOne(rows, ref, worker, now, deadline);
            Table(after) && ClaimsNewest(rows, after, ref, record, worker, now, deadline)
  {
    if Lookup(rows, ref).Some? {
      LookupIsNewest(rows, ref);
      var r := Lookup(rows, ref).value;
      if !Final(r.status) {
        DirectClaimColumns(rows, r.id, worker, now, deadline);
      }
    }
  }

  lemma ClaimOneByCase(rows: seq<Row>, ref: Ref, worker: string, now: int, deadline: int)
    ensures Lookup(rows, ref).None? ==> ClaimOne(rows, ref, worker, now, deadline) == (rows, None)
    ensures Lookup(rows, ref).Some? ==>
              var r := Lookup(rows, ref).value;
              ClaimOne(rows, ref, worker, now, deadline) ==
              if Final(r.status) then (rows, Some(r))
              else (DirectClaim(rows, r.id, worker, now, deadline), Some(ClaimRow(r, worker, now, deadline)))
  {
  }

  class EventLogRepository {
    const config: Config
    var rows: seq<Row>

    constructor (config: Config)
      ensures this.config == config && rows == [] && Table(rows)
    {
      this.config := config;
      rows := [];
    }

    method AppendGatewayEvent(e: Event, explicit: string) returns (result: AppendResult)
      requires Table(rows)
      modifies this`rows
      ensures Table(rows)
      ensures (rows, result) == Append(config, old(rows), e, explicit)
      ensures result.Appended? ==> rows == old(rows) + [result.record] && result.record.dedupeKey == KeyOf(e, explicit)
      ensures !result.Appended? ==> rows == old(rows)
      ensures result.Duplicate? ==> result.record in rows && result.record.dedupeKey == KeyOf(e, explicit)
      ensures result.AppendIgnored? <==>
                !config.enabled || (e.eventType == "price_tick" && !config.priceTickEnabled)
                || (e.eventType == "heartbeat" && !config.heartbeatEnabled)
      ensures result.Duplicate? <==> !result.AppendIgnored? && exists i :: 0 <= i < |old(rows)| && old(rows)[i].dedupeKey == KeyOf(e, explicit)
      ensures result.Appended? ==>
                var r := result.record;
                && r.eventId == e.eventId && r.eventType == e.eventType && r.receivedAt == e.receivedAt
                && r.status == (if e.serializationError != "" then Failed else Pending) && r.error == e.serializationError
                && r.attempts == 0 && r.processedAt == Empty && r.claimedAt == Empty && r.claimedBy == ""
                && r.nextRetryAt == Empty && r.lastAttemptAt == Empty && r.deadLetteredAt == Empty
    {
      if !config.enabled {
        return AppendIgnored("EVENT_LOG_DISABLED");
      }
      if e.eventType == "price_tick" && !config.priceTickEnabled {
        return AppendIgnored("PRICE_TICK_LOGGING_DISABLED");
      }
      if e.eventType == "heartbeat" && !config.heartbeatEnabled {
        return AppendIgnored("HEARTBEAT_LOGGING_DISABLED");
      }
      var key := Strip(FirstText(explicit, DedupeKeyForEvent(e)));
      if key == "" {
        key := e.eventId;
      }
      var duplicate := FindByKey(rows, key);
      if duplicate.Some? {
        return Duplicate(duplicate.value);
      }
      rows := Insert(rows, e, key);
      return Appended(rows[|rows| - 1]);
    }

    /** The guarded updates of one batch, row by row. */
    method UpdateSelected(ids: seq<int>, worker: string, now: int, deadline: int) returns (claimed: seq<Row>)
      requires Table(rows) && ClaimableIds(rows, ids, now)
      modifies this`rows
      ensures Table(rows)
      ensures rows == ClaimAll(old(rows), ids, worker, now, deadline)
      ensures claimed == Records(old(rows), ids, worker, now, deadline)
    {
      claimed := [];
      ghost var before := rows;
      NothingClaimed(before, worker, now, deadline);
      for k := 0 to |ids|
        invariant rows == ClaimAll(before, ids[..k], worker, now, deadline)
        invariant claimed == Records(before, ids, worker, now, deadline)[..k]
      {
        var id := ids[k];
        GuardedClaimExtends(before, ids, k, worker, now, deadline);
        var rowcount := if Claimable(rows[id - 1], now) then 1 else 0;
        rows := GuardedClaim(rows, id, worker, now, deadline);
        if rowcount != 0 {
          claimed := claimed + [rows[id - 1]];
        }
      }
      assert ids[..|ids|] == ids;
    }

    /** One batch claim with nobody else writing: it takes the head of the
        backlog, each selected row passes its re-check, and nothing else moves. */
    method ClaimPendingEvents(limit: int, types: set<string>, worker: string, leaseSec: int, now: int)
      returns (claimed: seq<Row>)
      requires Table(rows)
      modifies this`rows
      ensures Table(rows)
      ensures ClaimableIds(old(rows), SelectIds(config, old(rows), now, types, limit), now)
      ensures rows == ClaimAll(old(rows), SelectIds(config, old(rows), now, types, limit), worker, now, now + Lease(config, leaseSec))
      ensures claimed == Records(old(rows), SelectIds(config, old(rows), now, types, limit), worker, now, now + Lease(config, leaseSec))
      ensures ClaimsDueRows(old(rows), rows, claimed, types, worker, now, now + Lease(config, leaseSec))
    {
      var deadline := now + Lease(config, leaseSec);
      SelectIdsAreClaimable(config, rows, now, types, limit);
      if ResolvedLimit(config, limit) <= 0 {
        NothingSelected(config, rows, now, types, limit, worker, deadline);
        return [];
      }
      ghost var before := rows;
      claimed := UpdateSelected(SelectIds(config, rows, now, types, limit), worker, now, deadline);
      BatchIsOfDueRows(config, before, now, types, limit, worker, deadline, rows, claimed);
    }

    /** The UPDATE of a direct claim, and the row as it then reads. */
    method UpdateDirectly(id: int, worker: string, now: int, deadline: int) returns (record: Row)
      requires Table(rows) && 1 <= id <= |rows| && !Final(rows[id - 1].status)
      modifies this`rows
      ensures Table(rows) && rows == DirectClaim(old(rows), id, worker, now, deadline)
      ensures record == ClaimRow(old(rows)[id - 1], worker, now, deadline)
    {
      DirectClaimColumns(rows, id, worker, now, deadline);
      rows := DirectClaim(rows, id, worker, now, deadline);
      record := rows[id - 1];
    }

    /** A direct claim takes any row that is not final, whoever holds it. */
    method ClaimEvent(ref: Ref, worker: string, leaseSec: int, now: int) returns (record: Option<Row>)
      requires Table(rows)
      modifies this`rows
      ensures Table(rows)
      ensures rows == ClaimOne(old(rows), ref, worker, now, now + Lease(config, leaseSec)).0
      ensures record == ClaimOne(old(rows), ref, worker, now, now + Lease(config, leaseSec)).1
    {
      var deadline := now + Lease(config, leaseSec);
      ClaimOneByCase(rows, ref, worker, now, deadline);
      var row := Lookup(rows, ref);
      if row.None? {
        return None;
      }
      if Final(row.value.status) {
        return row;
      }
      LookupIsNewest(rows, ref);
      assert rows[row.value.id - 1] == row.value;
      var claimed := UpdateDirectly(row.value.id, worker, now, deadline);
      return Some(claimed);
    }

    /** Every marking goes through one UPDATE over all rows the reference names. */
    method Mark(ref: Ref, m: Marking)
      requires Table(rows)
      modifies this`rows
      ensures Table(rows) && |rows| == |old(rows)|
      ensures forall i :: 0 <= i < |rows| ==>
                rows[i] == if Matches(old(rows)[i], ref) then MarkRow(old(rows)[i], m) else old(rows)[i]
      ensures forall i :: 0 <= i < |rows| ==>
                if (ref.ById? && ref.id == i + 1) || (ref.ByEventId? && ref.eventId == old(rows)[i].eventId)
                then MarkedColumns(old(rows)[i], rows[i], m) else rows[i] == old(rows)[i]
    {
      MarkedRowsAreNamed(rows, ref, m);
      rows := MarkRows(rows, ref, m);
    }

    method RecoverStaleClaims(now: int) returns (recovered: nat)
      requires Table(rows)
      modifies this`rows
      ensures Table(rows)
      ensures rows == RecoverRows(old(rows), now)
      ensures recovered == StaleCount(old(rows), now) == |Overdue(old(rows), now)|
      ensures forall i :: 0 <= i < |rows| ==> !Stale(rows[i], now)
      ensures |rows| == |old(rows)|
      ensures forall i :: 0 <= i < |rows| ==>
                if i in Overdue(old(rows), now)
                then rows[i] == old(rows)[i].(status := Pending, claimedAt := Empty, claimedBy := "", nextRetryAt := Empty)
                else rows[i] == old(rows)[i]
    {
      StaleCountIsTheirNumber(rows, now);
      recovered := StaleCount(rows, now);
      rows := RecoverRows(rows, now);
    }

    method OldestOpenCritical() returns (oldest: Stamp)
      ensures oldest == Empty <==> NoneOpen(rows)
      ensures oldest != Empty ==>
                (forall i :: 0 <= i < |rows| && Critical(rows[i]) && Open(rows[i]) ==> oldest.time <= rows[i].receivedAt)
                && exists i :: 0 <= i < |rows| && Critical(rows[i]) && Open(rows[i]) && oldest.time == rows[i].receivedAt
    {
      oldest := Empty;
      for i := 0 to |rows|
        invariant oldest == Empty <==> NoneOpen(rows[..i])
        invariant oldest != Empty ==>
            (forall k :: 0 <= k < i && Critical(rows[k]) && Open(rows[k]) ==> oldest.time <= rows[k].receivedAt)
            && exists k :: 0 <= k < i && Critical(rows[k]) && Open(rows[k]) && oldest.time == rows[k].receivedAt
      {
        assert rows[..i + 1] == rows[..i] + [rows[i]];
        if Critical(rows[i]) && Open(rows[i]) && (oldest == Empty || rows[i].receivedAt < oldest.time) {
          oldest := At(rows[i].receivedAt);
        }
      }
      assert rows[..|rows|] == rows;
    }

    method CriticalBacklogSnapshot() returns (s: BacklogSnapshot)
      ensures s.pending == CriticalCount(rows, Pending) && s.processing == CriticalCount(rows, Processing)
      ensures s.retryWait == CriticalCount(rows, RetryWait) && s.failed == CriticalCount(rows, Failed)
      ensures s.deadLetter == CriticalCount(rows, DeadLetter) && s.ignored == CriticalCount(rows, Ignored)
      ensures s.processed == CriticalCount(rows, Processed)
      ensures s.orderLifecycleReady <==> LifecycleReady(rows)
      ensures s.oldestPendingAt == Empty <==> NoneOpen(rows)
    {
      var pending := CriticalCount(rows, Pending);
      var processing := CriticalCount(rows, Processing);
      var retryWait := CriticalCount(rows, RetryWait);
      var deadLetter := CriticalCount(rows, DeadLetter);
      CriticalCountIsZero(rows, Pending);
      CriticalCountIsZero(rows, Processing);
      CriticalCountIsZero(rows, RetryWait);
      CriticalCountIsZero(rows, DeadLetter);
      var oldest := OldestOpenCritical();
      s := BacklogSnapshot(
        pending, processing, retryWait, CriticalCount(rows, Failed), deadLetter,
        CriticalCount(rows, Ignored), CriticalCount(rows, Processed), oldest,
        pending == 0 && processing == 0 && retryWait == 0 && deadLetter == 0);
    }
  }
}
