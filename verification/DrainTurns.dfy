/** What one turn of the drain does with the command at the head, by the fields of
    what it meets. */
module DrainTurns {
  import opened Common
  import opened CommandDrain

  predicate IsOrder(kind: string) {
    kind == "send_order" || kind == "cancel_order" || kind == "modify_order"
  }

  /** One of the account fields, read without outer space or case, is such a name. */
  predicate Says(payload: map<string, string>, names: set<string>) {
    exists f :: f in {"broker_env", "account_mode", "server_mode", "server_gubun"}
                && f in payload && Upper(Strip(payload[f])) in names
  }

  const REAL_ACCOUNT := {"0", "REAL", "LIVE", "PROD", "PRODUCTION", "LIVE_REAL"}
  const SIMULATED_ACCOUNT := {"1", "SIM", "SIMULATION", "MOCK", "PAPER", "PAPER_TRADING", "LIVE_SIM", "DEMO", "TEST"}

  /** No field says real and some field says simulation. */
  predicate SaysSimulation(payload: map<string, string>) {
    !Says(payload, REAL_ACCOUNT) && Says(payload, SIMULATED_ACCOUNT)
  }

  predicate SaysNothing(payload: map<string, string>) {
    !Says(payload, REAL_ACCOUNT) && !Says(payload, SIMULATED_ACCOUNT)
  }

  /** The heartbeat says so, or it says nothing and the live client does. */
  predicate KnownSimulation(c: Context) {
    SaysSimulation(c.heartbeat) || (SaysNothing(c.heartbeat) && c.live.Some? && SaysSimulation(c.live.value))
  }

  /** What lets a command through to the client. */
  predicate LetThrough(c: Context, kind: string) {
    || !c.pilot
    || (IsOrder(kind) && c.policy.Some? && c.policy.value.allowOrders && !c.policy.value.blockOrders && KnownSimulation(c))
    || (!IsOrder(kind) && (c.policy.None? || kind in c.policy.value.allowed))
  }

  lemma FieldSays(value: string)
    ensures Normalize(value) == REAL <==> Upper(Strip(value)) in REAL_ACCOUNT
    ensures Normalize(value) == SIMULATION <==> Upper(Strip(value)) in SIMULATED_ACCOUNT
  {
  }

  lemma PayloadSays(payload: map<string, string>)
    ensures EnvOf(payload) == REAL <==> Says(payload, REAL_ACCOUNT)
    ensures EnvOf(payload) == SIMULATION <==> SaysSimulation(payload)
    ensures EnvOf(payload) == UNKNOWN <==> SaysNothing(payload)
  {
    forall f | f in payload
      ensures Normalize(payload[f]) == REAL <==> Upper(Strip(payload[f])) in REAL_ACCOUNT
      ensures Normalize(payload[f]) == SIMULATION <==> Upper(Strip(payload[f])) in SIMULATED_ACCOUNT
    {
      FieldSays(payload[f]);
    }
  }

  lemma OrderKinds(kind: string)
    ensures kind in ORDER_COMMANDS <==> IsOrder(kind)
  {
  }

  lemma NothingIsRejectedExactlyWhen(c: Context, kind: string)
    ensures Rejection(c, kind) == "" <==> LetThrough(c, kind)
  {
    OrderKinds(kind);
    PayloadSays(c.heartbeat);
    if c.live.Some? {
      PayloadSays(c.live.value);
    }
  }

  /** At every turn of every run that finds a command: held back, the head goes to
      the back of the queue; otherwise it leaves it, and it is executed exactly when
      it is let through and the execution is made. */
  lemma TurnExecutesExactlyWhen(ops: seq<Op>, contexts: Contexts, m: nat)
    requires m < |ops| && ops[m].TakeTurn? && Run(ops, contexts, m).queue != []
    ensures var s, s' := Run(ops, contexts, m), Run(ops, contexts, m + 1);
            var head, c := s.queue[0], contexts(s.turn);
            && s'.turn == s.turn + 1
            && s'.queue == s.queue[1..] + (if c.wait > 0.0 then [head] else [])
            && s'.executed == s.executed
                 + if c.wait <= 0.0 && LetThrough(c, head.kind) && !c.execution.NotMade? then [Executed(head, s.turn)] else []
  {
    var s := Run(ops, contexts, m);
    NothingIsRejectedExactlyWhen(contexts(s.turn), s.queue[0].kind);
    assert s.queue[1..] + [] == s.queue[1..] && s.executed + [] == s.executed;
  }

  /** And how it is told: held back, by the wait; not let through, by a rejected
      acknowledgement with a reason; else by its start and then, if the execution
      returned and nothing raised after, an acknowledgement with its status, and
      otherwise a failure, to be retried exactly for what is no order. */
  lemma TurnTellsItsOutcome(ops: seq<Op>, contexts: Contexts, m: nat)
    requires m < |ops| && ops[m].TakeTurn? && Run(ops, contexts, m).queue != []
    ensures var s, s' := Run(ops, contexts, m), Run(ops, contexts, m + 1);
            var head, c := s.queue[0], contexts(s.turn);
            if c.wait > 0.0 then s'.events == s.events + [RateLimited(head, c.wait)]
            else if !LetThrough(c, head.kind) then
              |s'.events| == |s.events| + 1 && s'.events[..|s.events|] == s.events
              && var e := s'.events[|s.events|];
                 e.Ack? && e.command == head && e.status == "REJECTED" && e.rejection != ""
            else
              s'.events == s.events
                + [Started(head),
                   if c.execution.Returns? && !c.execution.raisesAfter then Ack(head, c.execution.status, "")
                   else Failed(head, !IsOrder(head.kind), !c.execution.NotMade?)]
  {
    var s := Run(ops, contexts, m);
    NothingIsRejectedExactlyWhen(contexts(s.turn), s.queue[0].kind);
    OrderKinds(s.queue[0].kind);
  }

  /** Blocked orders are counted: the count goes up exactly when an order is neither
      held back nor let through. */
  lemma BlockedOrdersAreCounted(ops: seq<Op>, contexts: Contexts, m: nat)
    requires m < |ops| && ops[m].TakeTurn? && Run(ops, contexts, m).queue != []
    ensures var s, s' := Run(ops, contexts, m), Run(ops, contexts, m + 1);
            var head, c := s.queue[0], contexts(s.turn);
            s'.blocked == s.blocked + if c.wait <= 0.0 && IsOrder(head.kind) && !LetThrough(c, head.kind) then 1 else 0
  {
    var s := Run(ops, contexts, m);
    NothingIsRejectedExactlyWhen(contexts(s.turn), s.queue[0].kind);
    OrderKinds(s.queue[0].kind);
  }

  /** Off the pilot transport everything that is not held back is executed, unless
      the execution cannot be made. */
  lemma OrdinaryTransportExecutesAll(ops: seq<Op>, contexts: Contexts, m: nat)
    requires m < |ops| && ops[m].TakeTurn? && Run(ops, contexts, m).queue != []
    requires var c := contexts(Run(ops, contexts, m).turn); !c.pilot && c.wait <= 0.0 && !c.execution.NotMade?
    ensures var s := Run(ops, contexts, m);
            Run(ops, contexts, m + 1).executed == s.executed + [Executed(s.queue[0], s.turn)]
  {
    TurnExecutesExactlyWhen(ops, contexts, m);
  }
}
