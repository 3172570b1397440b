/** When two events without an event id share a dedupe key, type by type. */
module EventLogKeys {
  import opened Common
  import opened EventLog

  lemma {:induction false} StripLeftStopsInside(p: string, s: string)
    requires p != "" && !IsSpace(p[|p| - 1])
    ensures StripLeft(p) != "" && StripLeft(p)[|StripLeft(p)| - 1] == p[|p| - 1]
    ensures StripLeft(p + s) == StripLeft(p) + s
  {
    if IsSpace(p[0]) {
      assert (p + s)[1..] == p[1..] + s;
      StripLeftStopsInside(p[1..], s);
    }
  }

  /** Keys with one prefix that ends in no space. */
  lemma PrefixedKeys(p: string, s: string, t: string)
    requires p != "" && !IsSpace(p[|p| - 1])
    ensures Strip(p + s) != ""
    ensures Strip(p + s) == Strip(p + t) <==> StripRight(s) == StripRight(t)
  {
    StripLeftStopsInside(p, s);
    StripLeftStopsInside(p, t);
    var q := StripLeft(p);
    StripRightKeepsPrefix(q, s);
    StripRightKeepsPrefix(q, t);
    assert (q + StripRight(s))[|q|..] == StripRight(s) && (q + StripRight(t))[|q|..] == StripRight(t);
  }

  lemma {:induction false} StripRightKeepsColon(x: string, y: string)
    ensures StripRight(x + ":" + y) == x + ":" + StripRight(y)
  {
    StripRightKeepsPrefix(x + ":", y);
  }

  /** Two fields joined by a colon, the first of them without one. */
  lemma JoinedFields(x: string, y: string, x': string, y': string)
    requires ':' !in x && ':' !in x'
    ensures StripRight(x + ":" + y) == StripRight(x' + ":" + y') <==> x == x' && StripRight(y) == StripRight(y')
  {
    StripRightKeepsColon(x, y);
    StripRightKeepsColon(x', y');
    FirstColon(x, StripRight(y), x', StripRight(y'));
  }

  /** An explicit key is all that counts: it identifies whatever event comes with it. */
  lemma ExplicitKeysMeetExactlyWhen(a: Event, b: Event, x: string, y: string)
    requires Strip(x) != "" && Strip(y) != ""
    ensures KeyOf(a, x) == KeyOf(b, y) <==> Strip(x) == Strip(y)
  {
    assert x != "" && y != "";
  }

  function CommandOf(e: Event): string {
    if e.commandId != "" then e.commandId else if "command_id" in e.payload then e.payload["command_id"] else ""
  }

  function StatusOf(e: Event): string {
    if "status" in e.payload && e.payload["status"] != "" then e.payload["status"]
    else if "command_status" in e.payload then e.payload["command_status"]
    else ""
  }

  /** Acknowledgements share a key when command and status agree. */
  lemma CommandAcksMeetExactlyWhen(a: Event, b: Event)
    requires a.eventId == "" && b.eventId == "" && a.eventType == "command_ack" && b.eventType == "command_ack"
    requires ':' !in CommandOf(a) && ':' !in CommandOf(b)
    ensures KeyOf(a, "") == KeyOf(b, "") <==> CommandOf(a) == CommandOf(b) && StripRight(StatusOf(a)) == StripRight(StatusOf(b))
  {
    var x, y := CommandOf(a) + ":" + StatusOf(a), CommandOf(b) + ":" + StatusOf(b);
    assert DedupeKeyForEvent(a) == "command_ack:" + x && DedupeKeyForEvent(b) == "command_ack:" + y;
    PrefixedKeys("command_ack:", x, y);
    JoinedFields(CommandOf(a), StatusOf(a), CommandOf(b), StatusOf(b));
  }

  function TrIdOf(e: Event): string {
    if CommandOf(e) != "" then CommandOf(e)
    else if e.requestId != "" then e.requestId
    else if "request_id" in e.payload then e.payload["request_id"]
    else ""
  }

  /** Query responses share a key when their command, or else their request, agrees. */
  lemma TrResponsesMeetExactlyWhen(a: Event, b: Event)
    requires a.eventId == "" && b.eventId == "" && a.eventType == "tr_response" && b.eventType == "tr_response"
    ensures KeyOf(a, "") == KeyOf(b, "") <==> StripRight(TrIdOf(a)) == StripRight(TrIdOf(b))
  {
    assert DedupeKeyForEvent(a) == "tr:" + TrIdOf(a) && DedupeKeyForEvent(b) == "tr:" + TrIdOf(b);
    PrefixedKeys("tr:", TrIdOf(a), TrIdOf(b));
  }

  /** Chejan events of either kind share a key when the broker's key agrees. */
  lemma ChejansMeetExactlyWhen(a: Event, b: Event)
    requires a.eventId == "" && b.eventId == ""
    requires a.eventType == "kiwoom_order_chejan" || a.eventType == "kiwoom_balance_chejan"
    requires b.eventType == "kiwoom_order_chejan" || b.eventType == "kiwoom_balance_chejan"
    requires "broker_event_key" in a.payload && a.payload["broker_event_key"] != ""
    requires "broker_event_key" in b.payload && b.payload["broker_event_key"] != ""
    ensures KeyOf(a, "") == KeyOf(b, "") <==>
            StripRight(a.payload["broker_event_key"]) == StripRight(b.payload["broker_event_key"])
  {
    var x, y := a.payload["broker_event_key"], b.payload["broker_event_key"];
    assert DedupeKeyForEvent(a) == "kiwoom-chejan:" + x && DedupeKeyForEvent(b) == "kiwoom-chejan:" + y;
    PrefixedKeys("kiwoom-chejan:", x, y);
  }

  /** A blank explicit key counts for nothing and leaves the event its id. */
  lemma BlankKeysLeaveTheId(e: Event, x: string)
    requires x != "" && AllSpace(x)
    ensures KeyOf(e, x) == e.eventId
  {
    StripsToNothingExactlyWhen(x);
  }

  // -------------------------------------------------------------- stock codes

  predicate AllDigits(s: string) {
    forall i :: 0 <= i < |s| ==> '0' <= s[i] <= '9'
  }

  /** The text an event is coded by: the first of three fields that is not empty. */
  function CodeText(e: Event): string {
    if "code" in e.payload && e.payload["code"] != "" then e.payload["code"]
    else if "stock_code" in e.payload && e.payload["stock_code"] != "" then e.payload["stock_code"]
    else if "symbol" in e.payload then e.payload["symbol"]
    else ""
  }

  lemma {:induction false} DigitsOfDigits(s: string)
    requires AllDigits(s)
    ensures Digits(s) == s
  {
    if s != "" {
      DigitsOfDigits(s[1..]);
      assert s == [s[0]] + s[1..];
    }
  }

  lemma {:induction false} ZeroFillFills(s: string)
    requires |s| <= 6
    ensures ZeroFill(s) == "000000"[..6 - |s|] + s
    decreases 6 - |s|
  {
    if |s| == 6 {
      assert "000000"[..0] + s == s;
    } else {
      ZeroFillFills("0" + s);
      assert "000000"[..5 - |s|] + ("0" + s) == "000000"[..6 - |s|] + s;
    }
  }

  /** A code of up to six digits is filled with zeros to six, and the letter before
      a full one is dropped, whatever case and space it comes in. */
  lemma CodesAreSixDigits(e: Event, d: string)
    requires 1 <= |d| <= 6 && AllDigits(d)
    requires Upper(Strip(CodeText(e))) == d || (|d| == 6 && Upper(Strip(CodeText(e))) == "A" + d)
    ensures EventCode(e) == "000000"[..6 - |d|] + d
  {
    DigitsOfDigits(d);
    ZeroFillFills(d);
    assert ("A" + d)[1..] == d;
  }

  /** A code without a digit keeps its letters but for an A before six others. */
  lemma CodesWithoutDigits(e: Event, text: string)
    requires text == Upper(Strip(CodeText(e))) && forall i :: 0 <= i < |text| ==> !('0' <= text[i] <= '9')
    ensures EventCode(e) == if |text| == 7 && text[0] == 'A' then text[1..] else text
  {
    NoDigits(text);
    if |text| == 7 {
      NoDigits(text[1..]);
    }
  }

  lemma {:induction false} NoDigits(s: string)
    requires forall i :: 0 <= i < |s| ==> !('0' <= s[i] <= '9')
    ensures Digits(s) == ""
  {
    if s != "" {
      NoDigits(s[1..]);
    }
  }

  // -------------------------------------------------------------- order events

  /** The order number is the event's own or else that of the order it changes; the
      execution's is the first of three that is there. */
  lemma OrderFieldsAre(payload: map<string, string>)
    ensures "order_no" in payload && payload["order_no"] != "" ==> OrderNo(payload) == payload["order_no"]
    ensures "order_no" !in payload && "original_order_no" in payload ==> OrderNo(payload) == payload["original_order_no"]
    ensures "execution_id" in payload && payload["execution_id"] != "" ==> ExecutionId(payload) == payload["execution_id"]
    ensures "execution_id" !in payload && "fill_id" in payload && payload["fill_id"] != "" ==>
              ExecutionId(payload) == payload["fill_id"]
    ensures "execution_id" !in payload && "fill_id" !in payload && "chejan_id" in payload ==>
              ExecutionId(payload) == payload["chejan_id"]
    ensures {"execution_id", "fill_id", "chejan_id"} !! payload.Keys ==> ExecutionId(payload) == ""
  {
  }

  /** So two fills of one account and order that name their executions share a key
      exactly when they are the same execution, whatever their types. */
  lemma FillsMeetExactlyWhen(a: Event, b: Event)
    requires KeyedByOrder(a) && KeyedByOrder(b)
    requires {"account", "order_no", "execution_id"} <= a.payload.Keys && {"account", "order_no", "execution_id"} <= b.payload.Keys
    requires a.payload["order_no"] != "" && a.payload["execution_id"] != ""
    requires b.payload["order_no"] != "" && b.payload["execution_id"] != ""
    requires ':' !in a.payload["account"] && ':' !in a.payload["order_no"]
    requires ':' !in b.payload["account"] && ':' !in b.payload["order_no"]
    ensures KeyOf(a, "") == KeyOf(b, "") <==>
            && a.payload["account"] == b.payload["account"] && a.payload["order_no"] == b.payload["order_no"]
            && StripRight(a.payload["execution_id"]) == StripRight(b.payload["execution_id"])
  {
    OrderFieldsAre(a.payload);
    OrderFieldsAre(b.payload);
    OrderEventsShareAKeyExactlyWhen(a, b);
  }

  // ---------------------------------------------- conditions and other events

  function ConditionText(name: string, index: string, code: string, second: string): string {
    name + ":" + (index + ":" + (code + ":" + second))
  }

  lemma ConditionTextJoins(name: string, index: string, code: string, second: string)
    ensures "condition:" + name + ":" + index + ":" + code + ":" + second == "condition:" + ConditionText(name, index, code, second)
  {
  }

  lemma ConditionTextsAgree(name: string, index: string, code: string, second: string,
                            name': string, index': string, code': string, second': string)
    requires ':' !in name && ':' !in index && ':' !in code && ':' !in name' && ':' !in index' && ':' !in code'
    ensures StripRight(ConditionText(name, index, code, second)) == StripRight(ConditionText(name', index', code', second'))
            <==> name == name' && index == index' && code == code' && StripRight(second) == StripRight(second')
  {
    JoinedFields(name, index + ":" + (code + ":" + second), name', index' + ":" + (code' + ":" + second'));
    JoinedFields(index, code + ":" + second, index', code' + ":" + second');
    JoinedFields(code, second, code', second');
  }

  predicate NamesCondition(e: Event) {
    e.eventId == "" && (e.eventType == "condition_event" || e.eventType == "condition_include" || e.eventType == "condition_remove")
    && "condition_name" in e.payload && "condition_index" in e.payload
    && ':' !in e.payload["condition_name"] && ':' !in e.payload["condition_index"] && ':' !in EventCode(e)
  }

  lemma ConditionKey(e: Event)
    requires NamesCondition(e)
    ensures DedupeKeyForEvent(e)
            == "condition:" + ConditionText(e.payload["condition_name"], e.payload["condition_index"], EventCode(e), e.bucket)
  {
    ConditionTextJoins(e.payload["condition_name"], e.payload["condition_index"], EventCode(e), e.bucket);
  }

  /** Condition events share a key when the condition's name and index, the code and
      the second agree, whether they tell of one or include or remove it. */
  lemma ConditionsMeetExactlyWhen(a: Event, b: Event)
    requires NamesCondition(a) && NamesCondition(b)
    ensures KeyOf(a, "") == KeyOf(b, "") <==>
            && a.payload["condition_name"] == b.payload["condition_name"]
            && a.payload["condition_index"] == b.payload["condition_index"]
            && EventCode(a) == EventCode(b) && StripRight(a.bucket) == StripRight(b.bucket)
  {
    var name, index, code := a.payload["condition_name"], a.payload["condition_index"], EventCode(a);
    var name', index', code' := b.payload["condition_name"], b.payload["condition_index"], EventCode(b);
    ConditionKey(a);
    ConditionKey(b);
    PrefixedKeys("condition:", ConditionText(name, index, code, a.bucket), ConditionText(name', index', code', b.bucket));
    ConditionTextsAgree(name, index, code, a.bucket, name', index', code', b.bucket);
  }

  /** What identifies any other event: its command, or its code, or its second. */
  function OtherIdOf(e: Event): string {
    if CommandOf(e) != "" then CommandOf(e) else if EventCode(e) != "" then EventCode(e) else e.bucket
  }

  /** An event of no listed type, such as a tick, a heartbeat or a rejection. */
  predicate Other(e: Event) {
    && e.eventType != "command_ack" && e.eventType != "tr_response"
    && e.eventType !in ORDER_TYPES && e.eventType !in CONDITION_TYPES
    && (e.eventType in CHEJAN_TYPES ==> "broker_event_key" !in e.payload || e.payload["broker_event_key"] == "")
    && e.eventType != "" && ':' !in e.eventType && !IsSpace(e.eventType[0])
  }

  lemma StartStays(x: string, s: string)
    requires x != "" && !IsSpace(x[0])
    ensures Strip(x + ":" + s) == x + ":" + StripRight(s)
  {
    assert StripLeft(x + ":" + s) == x + ":" + s;
    StripRightKeepsColon(x, s);
  }

  /** Such events share a key when type and identification agree. */
  lemma OtherEventsMeetExactlyWhen(a: Event, b: Event)
    requires a.eventId == "" && b.eventId == "" && Other(a) && Other(b)
    ensures KeyOf(a, "") == KeyOf(b, "") <==> a.eventType == b.eventType && StripRight(OtherIdOf(a)) == StripRight(OtherIdOf(b))
  {
    assert DedupeKeyForEvent(a) == a.eventType + ":" + OtherIdOf(a) && DedupeKeyForEvent(b) == b.eventType + ":" + OtherIdOf(b);
    StartStays(a.eventType, OtherIdOf(a));
    StartStays(b.eventType, OtherIdOf(b));
    FirstColon(a.eventType, StripRight(OtherIdOf(a)), b.eventType, StripRight(OtherIdOf(b)));
  }
}
