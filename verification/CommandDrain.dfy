/** The command drain of apps/kiwoom_gateway.py: a queue of commands, each of
    which is put back by the rate limiter, rejected, or executed.

    contexts(n) is what the n-th command taken off the queue meets: the wait the
    limiter asks for, the transport and its policy, what is known of the broker
    account, and how the execution ends. */
module CommandDrain {
  import opened Common

  datatype Command = Command(id: string, kind: string)

  datatype Policy = Policy(blockOrders: bool, allowOrders: bool, allowed: set<string>)

  /** An execution is not made, since the query runner cannot be built; or the
      client call raises, or returns a status; after it returned, the steps before
      the acknowledgement may still raise. */
  datatype Execution = NotMade | Raises | Returns(status: string, raisesAfter: bool)

  datatype Context = Context(
    wait: real,
    pilot: bool,
    policy: Option<Policy>,
    heartbeat: map<string, string>,
    live: Option<map<string, string>>,
    execution: Execution)

  datatype Event =
    | RateLimited(command: Command, wait: real)
    | Started(command: Command)
    | Ack(command: Command, status: string, rejection: string)
    /** The error of a failure; made tells whether the client was called before. */
    | Failed(command: Command, retryable: bool, made: bool)

  type Contexts = nat -> Context

  const ORDER_COMMANDS := {"send_order", "cancel_order", "modify_order"}

  // --------------------------------------------------------------- rejection

  datatype BrokerEnv = REAL | SIMULATION | UNKNOWN

  const SIMULATION_NAMES := {"1", "SIM", "SIMULATION", "MOCK", "PAPER", "PAPER_TRADING", "LIVE_SIM", "DEMO", "TEST"}
  const REAL_NAMES := {"0", "REAL", "LIVE", "PROD", "PRODUCTION", "LIVE_REAL"}

  function Normalize(value: string): BrokerEnv {
    var text := Upper(Strip(value));
    if text in SIMULATION_NAMES then SIMULATION else if text in REAL_NAMES then REAL else UNKNOWN
  }

  const ENV_FIELDS := {"broker_env", "account_mode", "server_mode", "server_gubun"}

  /** One field that says REAL outweighs any that say SIMULATION. */
  function EnvOf(payload: map<string, string>): BrokerEnv {
    if exists f :: f in ENV_FIELDS && f in payload && Normalize(payload[f]) == REAL then REAL
    else if exists f :: f in ENV_FIELDS && f in payload && Normalize(payload[f]) == SIMULATION then SIMULATION
    else UNKNOWN
  }

  /** The heartbeat decides; only if it does not is the live client asked. */
  function AccountEnv(c: Context): BrokerEnv {
    if EnvOf(c.heartbeat) != UNKNOWN || c.live.None? then EnvOf(c.heartbeat) else EnvOf(c.live.value)
  }

  predicate AllowedBy(policy: Policy, kind: string) {
    if kind in ORDER_COMMANDS then policy.allowOrders && !policy.blockOrders else kind in policy.allowed
  }

  /** Why the pilot transport rejects a command, or "". */
  function Rejection(c: Context, kind: string): string {
    if !c.pilot then ""
    else if kind in ORDER_COMMANDS && (c.policy.None? || c.policy.value.blockOrders || !c.policy.value.allowOrders)
    then "WEBSOCKET_PILOT_ORDER_COMMAND_BLOCKED"
    else if kind in ORDER_COMMANDS && AccountEnv(c) == REAL then "WEBSOCKET_PILOT_ORDER_COMMAND_BLOCKED_REAL_ACCOUNT"
    else if kind in ORDER_COMMANDS && AccountEnv(c) != SIMULATION then "WEBSOCKET_PILOT_ORDER_COMMAND_BLOCKED_ACCOUNT_UNKNOWN"
    else if c.policy.Some? && !AllowedBy(c.policy.value, kind) then "WEBSOCKET_PILOT_COMMAND_NOT_ALLOWED"
    else ""
  }

  // ------------------------------------------------------------------- drain

  /** An execution at the client: which command, and the how-manieth taken. */
  datatype Executed = Executed(command: Command, turn: nat)

  datatype State = State(queue: seq<Command>, events: seq<Event>, executed: seq<Executed>, blocked: nat, turn: nat)

  predicate Limited(c: Context) {
    c.wait > 0.0
  }

  function FinalEvent(command: Command, execution: Execution): Event {
    if !execution.Returns? || execution.raisesAfter then Failed(command, command.kind !in ORDER_COMMANDS, !execution.NotMade?)
    else Ack(command, execution.status, "")
  }

  /** One turn of the loop on a queue that is not empty. */
  function Turn(s: State, contexts: Contexts): State
    requires s.queue != []
  {
    var command, rest, c := s.queue[0], s.queue[1..], contexts(s.turn);
    if Limited(c) then
      s.(queue := rest + [command], events := s.events + [RateLimited(command, c.wait)], turn := s.turn + 1)
    else if Rejection(c, command.kind) != "" then
      s.(queue := rest, events := s.events + [Ack(command, "REJECTED", Rejection(c, command.kind))],
         blocked := s.blocked + if command.kind in ORDER_COMMANDS then 1 else 0, turn := s.turn + 1)
    else
      s.(queue := rest, events := s.events + [Started(command), FinalEvent(command, c.execution)],
         executed := s.executed + if c.execution.NotMade? then [] else [Executed(command, s.turn)], turn := s.turn + 1)
  }

  /** One drain call: turns until the queue is empty or the limiter says wait. */
  function Drain(s: State, contexts: Contexts): State
    decreases |s.queue|
  {
    if s.queue == [] then s
    else if Limited(contexts(s.turn)) then Turn(s, contexts)
    else Drain(Turn(s, contexts), contexts)
  }

  class GatewayRuntime {
    const contexts: Contexts
    var commands: seq<Command>
    var events: seq<Event>
    var executed: seq<Executed>
    var blocked: nat
    var turn: nat

    function View(): State
      reads this
    {
      State(commands, events, executed, blocked, turn)
    }

    constructor (contexts: Contexts)
      ensures this.contexts == contexts && View() == State([], [], [], 0, 0)
    {
      this.contexts := contexts;
      commands := [];
      events := [];
      executed := [];
      blocked := 0;
      turn := 0;
    }

    method Receive(command: Command)
      modifies this
      ensures View() == old(View()).(queue := old(commands) + [command])
    {
      commands := commands + [command];
    }

    /** Takes the command off the queue that is first. */
    method Get() returns (command: Command, c: Context)
      requires commands != []
      modifies this
      ensures View() == old(View()).(queue := old(commands)[1..], turn := old(turn) + 1)
      ensures command == old(commands)[0] && c == contexts(old(turn))
    {
      command := commands[0];
      commands := commands[1..];
      c := contexts(turn);
      turn := turn + 1;
    }

    method Reject(command: Command, rejection: string)
      modifies this
      ensures View() == old(View()).(
        events := old(events) + [Ack(command, "REJECTED", rejection)],
        blocked := old(blocked) + if command.kind in ORDER_COMMANDS then 1 else 0)
    {
      if command.kind in ORDER_COMMANDS {
        blocked := blocked + 1;
      }
      events := events + [Ack(command, "REJECTED", rejection)];
    }

    method Execute(command: Command, execution: Execution)
      requires turn > 0
      modifies this
      ensures View() == old(View()).(
        events := old(events) + [Started(command), FinalEvent(command, execution)],
        executed := old(executed) + if execution.NotMade? then [] else [Executed(command, old(turn) - 1)])
    {
      events := events + [Started(command)];
      if execution.NotMade? {
        events := events + [Failed(command, command.kind !in ORDER_COMMANDS, false)];
        assert events == old(events) + [Started(command), FinalEvent(command, execution)];
        return;
      }
      executed := executed + [Executed(command, turn - 1)];
      if execution.Raises? || execution.raisesAfter {
        events := events + [Failed(command, command.kind !in ORDER_COMMANDS, true)];
      } else {
        events := events + [Ack(command, execution.status, "")];
      }
      assert events == old(events) + [Started(command), FinalEvent(command, execution)];
    }

    method DrainRealCommands()
      modifies this
      ensures View() == Drain(old(View()), contexts)
    {
      while commands != []
        invariant Drain(View(), contexts) == Drain(old(View()), contexts)
        decreases |commands|
      {
        ghost var before := View();
        var command, c := Get();
        if c.wait > 0.0 {
          events := events + [RateLimited(command, c.wait)];
          commands := commands + [command];
          assert View() == Turn(before, contexts);
          return;
        }
        var rejection := Rejection(c, command.kind);
        if rejection != "" {
          Reject(command, rejection);
        } else {
          Execute(command, c.execution);
        }
        assert View() == Turn(before, contexts);
      }
    }
  }

  // ------------------------------------------------------------ conservation

  /** A received command, or one turn of some drain call. */
  datatype Op = Received(command: Command) | TakeTurn

  function Step(s: State, op: Op, contexts: Contexts): State {
    match op
    case Received(command) => s.(queue := s.queue + [command])
    case TakeTurn => if s.queue == [] then s else Turn(s, contexts)
  }

  /** The state after the first m receipts and turns. */
  function Run(ops: seq<Op>, contexts: Contexts, m: nat): State
    requires m <= |ops|
  {
    if m == 0 then State([], [], [], 0, 0) else Step(Run(ops, contexts, m - 1), ops[m - 1], contexts)
  }

  function WithReceipt(received: seq<Command>, op: Op): seq<Command> {
    if op.Received? then received + [op.command] else received
  }

  function ReceivedIn(ops: seq<Op>, m: nat): seq<Command>
    requires m <= |ops|
  {
    if m == 0 then [] else WithReceipt(ReceivedIn(ops, m - 1), ops[m - 1])
  }

  predicate Terminal(e: Event) {
    e.Ack? || e.Failed?
  }

  /** The final event of a command that reached the client. */
  predicate Made(e: Event) {
    (e.Ack? && e.rejection == "") || (e.Failed? && e.made)
  }

  /** The commands that got their final event, once per final event. */
  function Resolved(events: seq<Event>): seq<Command> {
    if events == [] then []
    else Resolved(events[..|events| - 1]) + if Terminal(events[|events| - 1]) then [events[|events| - 1].command] else []
  }

  /** Those of them that reached the client. */
  function Carried(events: seq<Event>): seq<Command> {
    if events == [] then []
    else
      var e := events[|events| - 1];
      Carried(events[..|events| - 1]) + if Made(e) then [e.command] else []
  }

  function CommandsOf(executed: seq<Executed>): seq<Command> {
    seq(|executed|, i requires 0 <= i < |executed| => executed[i].command)
  }

  lemma OneMoreEvent(events: seq<Event>, e: Event)
    ensures Resolved(events + [e]) == Resolved(events) + if Terminal(e) then [e.command] else []
    ensures Carried(events + [e]) == Carried(events) + if Made(e) then [e.command] else []
  {
    assert (events + [e])[..|events|] == events;
  }

  /** The final events a turn adds, as a list of none or one. */
  function TurnEvents(s: State, contexts: Contexts): (events: seq<Event>)
    requires s.queue != []
    ensures Turn(s, contexts).events == s.events + events
  {
    var command, c := s.queue[0], contexts(s.turn);
    if Limited(c) then [RateLimited(command, c.wait)]
    else if Rejection(c, command.kind) != "" then [Ack(command, "REJECTED", Rejection(c, command.kind))]
    else [Started(command), FinalEvent(command, c.execution)]
  }

  /** A turn resolves the head of the queue, unless the limiter holds it back;
      then it moves it to the back and resolves nothing. */
  lemma TurnResolvesItsHead(s: State, contexts: Contexts)
    requires s.queue != []
    ensures var s' := Turn(s, contexts);
            var head := [s.queue[0]];
            if Limited(contexts(s.turn))
            then Resolved(s'.events) == Resolved(s.events) && s'.queue == s.queue[1..] + head
            else Resolved(s'.events) == Resolved(s.events) + head && s'.queue == s.queue[1..]
  {
    var added := TurnEvents(s, contexts);
    OneMoreEvent(s.events, added[0]);
    if |added| == 2 {
      OneMoreEvent(s.events + [added[0]], added[1]);
      assert s.events + [added[0]] + [added[1]] == s.events + added;
    }
  }

  lemma TurnKeepsBooks(s: State, contexts: Contexts)
    requires s.queue != []
    ensures var s' := Turn(s, contexts);
            multiset(s'.queue) + multiset(Resolved(s'.events)) == multiset(s.queue) + multiset(Resolved(s.events))
  {
    TurnResolvesItsHead(s, contexts);
    assert s.queue == [s.queue[0]] + s.queue[1..];
  }

  /** A turn carries out what it executes, and executes at most the head. */
  lemma TurnCarriesWhatItExecutes(s: State, contexts: Contexts)
    requires s.queue != []
    ensures var s' := Turn(s, contexts);
            Carried(s.events) == CommandsOf(s.executed) ==> Carried(s'.events) == CommandsOf(s'.executed)
  {
    var added := TurnEvents(s, contexts);
    OneMoreEvent(s.events, added[0]);
    if |added| == 2 {
      OneMoreEvent(s.events + [added[0]], added[1]);
      assert s.events + [added[0]] + [added[1]] == s.events + added;
      assert CommandsOf(s.executed + [Executed(s.queue[0], s.turn)]) == CommandsOf(s.executed) + [s.queue[0]];
      assert Carried(s.events) + [] == Carried(s.events) && s.executed + [] == s.executed;
    }
  }

  /** What was received is what is queued plus what was resolved, and the client
      executions are, in order, exactly the resolved commands that reached it. */
  predicate Balanced(received: seq<Command>, s: State) {
    multiset(received) == multiset(s.queue) + multiset(Resolved(s.events)) && Carried(s.events) == CommandsOf(s.executed)
  }

  lemma ReceiptBalances(received: seq<Command>, s: State, command: Command, contexts: Contexts)
    requires Balanced(received, s)
    ensures Balanced(received + [command], Step(s, Received(command), contexts))
  {
  }

  lemma TurnBalances(received: seq<Command>, s: State, contexts: Contexts)
    requires Balanced(received, s)
    ensures Balanced(received, Step(s, TakeTurn, contexts))
  {
    if s.queue != [] {
      TurnKeepsBooks(s, contexts);
      TurnCarriesWhatItExecutes(s, contexts);
    }
  }

  lemma StepBalances(received: seq<Command>, s: State, op: Op, contexts: Contexts)
    requires Balanced(received, s)
    ensures Balanced(WithReceipt(received, op), Step(s, op, contexts))
  {
    match op
    case Received(command) => ReceiptBalances(received, s, command, contexts);
    case TakeTurn => TurnBalances(received, s, contexts);
  }

  lemma NothingBalances(ops: seq<Op>, contexts: Contexts)
    ensures Balanced(ReceivedIn(ops, 0), Run(ops, contexts, 0))
  {
  }

  lemma NextBalances(ops: seq<Op>, contexts: Contexts, m: nat)
    requires 0 < m <= |ops|
    ensures Balanced(ReceivedIn(ops, m), Run(ops, contexts, m))
    decreases m, 0
  {
    CommandsAreConserved(ops, contexts, m - 1);
    var received, s, op := ReceivedIn(ops, m - 1), Run(ops, contexts, m - 1), ops[m - 1];
    StepBalances(received, s, op, contexts);
    assert ReceivedIn(ops, m) == WithReceipt(received, op) && Run(ops, contexts, m) == Step(s, op, contexts);
  }

  /** Over any number of receipts and turns: what was received is what is queued
      plus what was resolved, each with exactly one final event; and the client
      executions are, in order, exactly the resolved commands that were neither
      rejected nor failed before the client was called. */
  lemma {:induction false} CommandsAreConserved(ops: seq<Op>, contexts: Contexts, m: nat)
    requires m <= |ops|
    ensures Balanced(ReceivedIn(ops, m), Run(ops, contexts, m))
    decreases m, 1
  {
    if m == 0 {
      NothingBalances(ops, contexts);
    } else {
      NextBalances(ops, contexts, m);
    }
  }

  /** No turn executes a command that the limiter held back or the pilot
      transport rejected, and none executes two. */
  ghost predicate ExecutedRightly(s: State, contexts: Contexts) {
    forall i :: 0 <= i < |s.executed| ==>
      s.executed[i].turn < s.turn && !Limited(contexts(s.executed[i].turn))
      && Rejection(contexts(s.executed[i].turn), s.executed[i].command.kind) == ""
      && forall j :: 0 <= j < i ==> s.executed[j].turn < s.executed[i].turn
  }

  lemma StepExecutesRightly(s: State, op: Op, contexts: Contexts)
    requires ExecutedRightly(s, contexts)
    ensures ExecutedRightly(Step(s, op, contexts), contexts)
  {
  }

  lemma {:induction false} RunExecutesRightly(ops: seq<Op>, contexts: Contexts, m: nat)
    requires m <= |ops|
    ensures ExecutedRightly(Run(ops, contexts, m), contexts)
  {
    if m > 0 {
      RunExecutesRightly(ops, contexts, m - 1);
      StepExecutesRightly(Run(ops, contexts, m - 1), ops[m - 1], contexts);
    }
  }

  /** On the pilot transport an order reaches the broker only if the policy lets
      orders through and the account is known to be a simulation: nothing known
      of it says REAL, and something says SIMULATION. */
  lemma PilotOrdersNeedSimulation(ops: seq<Op>, contexts: Contexts, m: nat, i: nat)
    requires m <= |ops| && i < |Run(ops, contexts, m).executed|
    requires Run(ops, contexts, m).executed[i].command.kind in ORDER_COMMANDS
    requires contexts(Run(ops, contexts, m).executed[i].turn).pilot
    ensures var c := contexts(Run(ops, contexts, m).executed[i].turn);
            && c.policy.Some? && c.policy.value.allowOrders && !c.policy.value.blockOrders
            && AccountEnv(c) == SIMULATION
            && forall f :: f in ENV_FIELDS && f in c.heartbeat ==> Normalize(c.heartbeat[f]) != REAL
  {
    RunExecutesRightly(ops, contexts, m);
  }

  // -------------------------------------------------------------- drain calls

  /** How many commands at the front a drain call takes before it is empty or
      the limiter says wait. */
  function FrontLength(n: nat, turn: nat, contexts: Contexts): (k: nat)
    ensures k <= n
  {
    if n == 0 || Limited(contexts(turn)) then 0 else 1 + FrontLength(n - 1, turn + 1, contexts)
  }

  ghost predicate NoneLimited(turn: nat, n: nat, contexts: Contexts) {
    forall i :: turn <= i < turn + n ==> !Limited(contexts(i))
  }

  /** None of those is limited; the one after them is. */
  lemma {:induction false} FrontEndsAtTheLimited(n: nat, turn: nat, contexts: Contexts)
    ensures var k := FrontLength(n, turn, contexts);
            NoneLimited(turn, k, contexts) && (k < n ==> Limited(contexts(turn + k)))
  {
    if n != 0 && !Limited(contexts(turn)) {
      FrontEndsAtTheLimited(n - 1, turn + 1, contexts);
      assert forall i :: turn + 1 <= i < turn + 1 + FrontLength(n - 1, turn + 1, contexts) ==> !Limited(contexts(i));
    }
  }

  /** The state after n turns in a row. */
  function Turns(s: State, n: nat, contexts: Contexts): State
    requires n <= |s.queue|
    ensures |Turns(s, n, contexts).queue| >= |s.queue| - n
    decreases n
  {
    if n == 0 then s else Turn(Turns(s, n - 1, contexts), contexts)
  }

  lemma LastTurn(s: State, n: nat, contexts: Contexts)
    requires n < |s.queue|
    ensures Turns(s, n + 1, contexts) == Turn(Turns(s, n, contexts), contexts)
  {
  }

  lemma {:induction false} FirstTurn(s: State, n: nat, contexts: Contexts)
    requires n < |s.queue| && !Limited(contexts(s.turn)) && n <= |Turn(s, contexts).queue|
    ensures Turns(s, n + 1, contexts) == Turns(Turn(s, contexts), n, contexts)
    decreases n
  {
    LastTurn(s, n, contexts);
    if n > 0 {
      FirstTurn(s, n - 1, contexts);
      LastTurn(Turn(s, contexts), n - 1, contexts);
    }
  }

  /** How many turns a drain call takes that finds n commands in the queue. */
  function TurnCount(n: nat, turn: nat, contexts: Contexts): (count: nat)
    ensures count <= n
  {
    var k := FrontLength(n, turn, contexts);
    if k < n then k + 1 else k
  }

  function TurnsOf(s: State, contexts: Contexts): (n: nat)
    ensures n <= |s.queue|
  {
    TurnCount(|s.queue|, s.turn, contexts)
  }

  lemma CountByOne(n: nat, turn: nat, contexts: Contexts)
    requires n > 0
    ensures TurnCount(n, turn, contexts) == if Limited(contexts(turn)) then 1 else TurnCount(n - 1, turn + 1, contexts) + 1
  {
  }

  lemma TurnTakesOne(s: State, contexts: Contexts)
    requires s.queue != [] && !Limited(contexts(s.turn))
    ensures |Turn(s, contexts).queue| == |s.queue| - 1 && Turn(s, contexts).turn == s.turn + 1
  {
  }

  lemma DrainByOne(s: State, contexts: Contexts)
    requires s.queue != []
    ensures Drain(s, contexts) == if Limited(contexts(s.turn)) then Turn(s, contexts) else Drain(Turn(s, contexts), contexts)
  {
  }

  lemma FreeTurnCounts(s: State, contexts: Contexts)
    requires s.queue != [] && !Limited(contexts(s.turn))
    ensures |Turn(s, contexts).queue| == |s.queue| - 1
    ensures TurnsOf(s, contexts) == TurnsOf(Turn(s, contexts), contexts) + 1
  {
    TurnTakesOne(s, contexts);
    CountByOne(|s.queue|, s.turn, contexts);
  }

  lemma LimitedDrainIsOneTurn(s: State, contexts: Contexts)
    requires s.queue != [] && Limited(contexts(s.turn))
    ensures Drain(s, contexts) == Turns(s, TurnsOf(s, contexts), contexts)
  {
    CountByOne(|s.queue|, s.turn, contexts);
    LastTurn(s, 0, contexts);
  }

  /** A turn at an unlimited head comes before the turns of the rest. */
  lemma FreeTurnComesFirst(s: State, n: nat, contexts: Contexts)
    requires s.queue != [] && !Limited(contexts(s.turn)) && n == TurnsOf(Turn(s, contexts), contexts)
    ensures TurnsOf(s, contexts) == n + 1 && Turns(s, n + 1, contexts) == Turns(Turn(s, contexts), n, contexts)
  {
    FreeTurnCounts(s, contexts);
    FirstTurn(s, n, contexts);
  }

  lemma {:induction false} DrainIsTurns(s: State, contexts: Contexts)
    ensures Drain(s, contexts) == Turns(s, TurnsOf(s, contexts), contexts)
    decreases |s.queue|
  {
    if s.queue != [] {
      if Limited(contexts(s.turn)) {
        LimitedDrainIsOneTurn(s, contexts);
      } else {
        var next := Turn(s, contexts);
        FreeTurnCounts(s, contexts);
        FreeTurnComesFirst(s, TurnsOf(next, contexts), contexts);
        DrainIsTurns(next, contexts);
        DrainByOne(s, contexts);
      }
    }
  }

  lemma {:induction false} RunOfTurns(ops: seq<Op>, contexts: Contexts, m: nat, n: nat)
    requires m + n <= |ops| && n <= |Run(ops, contexts, m).queue|
    requires forall k :: m <= k < m + n ==> ops[k].TakeTurn?
    ensures Run(ops, contexts, m + n) == Turns(Run(ops, contexts, m), n, contexts)
    decreases n
  {
    if n > 0 {
      RunOfTurns(ops, contexts, m, n - 1);
      assert ops[m + n - 1].TakeTurn?;
      LastTurn(Run(ops, contexts, m), n - 1, contexts);
    }
  }

  /** A drain call is so many turns in a row, so what holds of every run of
      receipts and turns holds of every run of receipts and drain calls. */
  lemma DrainIsARunOfTurns(ops: seq<Op>, contexts: Contexts, m: nat, n: nat)
    requires m + n <= |ops| && n == TurnsOf(Run(ops, contexts, m), contexts)
    requires forall k :: m <= k < m + n ==> ops[k].TakeTurn?
    ensures Run(ops, contexts, m + n) == Drain(Run(ops, contexts, m), contexts)
  {
    DrainIsTurns(Run(ops, contexts, m), contexts);
    RunOfTurns(ops, contexts, m, n);
  }

  /** The first n commands were resolved, in order, and no others. */
  predicate TookFront(s: State, n: nat, s': State) {
    n <= |s.queue| && s'.turn == s.turn + n && s'.queue == s.queue[n..] && Resolved(s'.events) == Resolved(s.events) + s.queue[..n]
  }

  lemma TookOneMore(s: State, n: nat, s': State, contexts: Contexts)
    requires n < |s.queue| && TookFront(s, n, s') && !Limited(contexts(s.turn + n))
    ensures TookFront(s, n + 1, Turn(s', contexts))
  {
    TurnResolvesItsHead(s', contexts);
    assert s.queue[..n + 1] == s.queue[..n] + [s.queue[n]];
    assert s.queue[n..][1..] == s.queue[n + 1..];
  }

  lemma {:induction false} TurnsTakeTheFront(s: State, n: nat, contexts: Contexts)
    requires n <= |s.queue| && NoneLimited(s.turn, n, contexts)
    ensures TookFront(s, n, Turns(s, n, contexts))
    decreases n
  {
    if n == 0 {
      assert s.queue[0..] == s.queue && Resolved(s.events) + s.queue[..0] == Resolved(s.events);
    } else {
      TurnsTakeTheFront(s, n - 1, contexts);
      TookOneMore(s, n - 1, Turns(s, n - 1, contexts), contexts);
    }
  }

  /** The first k commands were resolved, in order, and no others; the next, if
      there is one, went to the back. */
  predicate TookUpTo(s: State, k: nat, s': State) {
    k <= |s.queue| && Resolved(s'.events) == Resolved(s.events) + s.queue[..k]
    && s'.queue == if k == |s.queue| then [] else s.queue[k + 1..] + [s.queue[k]]
  }

  lemma LimitedGoesBack(s: State, k: nat, front: State, contexts: Contexts)
    requires k < |s.queue| && TookFront(s, k, front) && Limited(contexts(s.turn + k))
    ensures TookUpTo(s, k, Turn(front, contexts))
  {
    TurnResolvesItsHead(front, contexts);
    assert s.queue[k..][1..] == s.queue[k + 1..] && s.queue[k..][0] == s.queue[k];
  }

  lemma AllAreTaken(s: State, front: State)
    requires TookFront(s, |s.queue|, front)
    ensures TookUpTo(s, |s.queue|, front)
  {
  }

  lemma TurnsAtTheFront(s: State, k: nat, contexts: Contexts)
    requires k == FrontLength(|s.queue|, s.turn, contexts)
    ensures Turns(s, TurnsOf(s, contexts), contexts)
            == if k < |s.queue| then Turn(Turns(s, k, contexts), contexts) else Turns(s, k, contexts)
  {
    if k < |s.queue| {
      LastTurn(s, k, contexts);
    }
  }

  lemma DrainAtTheFront(s: State, k: nat, contexts: Contexts)
    requires k == FrontLength(|s.queue|, s.turn, contexts)
    ensures Drain(s, contexts) == if k < |s.queue| then Turn(Turns(s, k, contexts), contexts) else Turns(s, k, contexts)
  {
    DrainIsTurns(s, contexts);
    TurnsAtTheFront(s, k, contexts);
  }

  lemma TurnsUpTo(s: State, k: nat, last: State, contexts: Contexts)
    requires k == FrontLength(|s.queue|, s.turn, contexts)
    requires last == if k < |s.queue| then Turn(Turns(s, k, contexts), contexts) else Turns(s, k, contexts)
    ensures TookUpTo(s, k, last)
  {
    FrontEndsAtTheLimited(|s.queue|, s.turn, contexts);
    TurnsTakeTheFront(s, k, contexts);
    if k < |s.queue| {
      LimitedGoesBack(s, k, Turns(s, k, contexts), contexts);
    } else {
      AllAreTaken(s, Turns(s, k, contexts));
    }
  }

  /** A drain call resolves the front part of the queue in order, each command
      once, and stops with nothing left or with the limited command at the back. */
  lemma DrainTakesAFrontPart(s: State, contexts: Contexts)
    ensures TookUpTo(s, FrontLength(|s.queue|, s.turn, contexts), Drain(s, contexts))
  {
    var k := FrontLength(|s.queue|, s.turn, contexts);
    DrainAtTheFront(s, k, contexts);
    TurnsUpTo(s, k, Drain(s, contexts), contexts);
  }

  // ---------------------------------------------------------------- sending

  const CONTROL_EVENT_TYPES := {
    "heartbeat", "login_status", "orderability", "condition_load_result", "condition_loaded", "condition_event",
    "command_started", "command_ack", "command_failed", "rate_limited", "gateway_error", "error"
  }

  /** An event on its way to the core, as far as its place in a batch goes. */
  datatype Outgoing = Outgoing(kind: string, serial: int)

  predicate IsControl(e: Outgoing) {
    e.kind in CONTROL_EVENT_TYPES
  }

  type Key = Outgoing -> bool

  /** The events with the given key, in order. */
  function Of(events: seq<Outgoing>, key: Key, first: bool): (r: seq<Outgoing>)
    ensures forall e :: e in r ==> key(e) == first
  {
    if events == [] then []
    else Of(events[..|events| - 1], key, first)
         + if key(events[|events| - 1]) == first then [events[|events| - 1]] else []
  }

  /** Where a stable sort puts one more event. */
  function Placed(sorted: seq<Outgoing>, e: Outgoing, key: Key): seq<Outgoing>
    decreases |sorted|
  {
    if sorted == [] || !key(e) || key(sorted[|sorted| - 1]) then sorted + [e]
    else Placed(sorted[..|sorted| - 1], e, key) + [sorted[|sorted| - 1]]
  }

  /** A stable sort on a two-valued key, here by insertion. */
  function Sorted(events: seq<Outgoing>, key: Key): seq<Outgoing> {
    if events == [] then [] else Placed(Sorted(events[..|events| - 1], key), events[|events| - 1], key)
  }

  /** A batch in sending order. */
  function Prioritized(events: seq<Outgoing>): seq<Outgoing> {
    if |events| < 2 then events else Sorted(events, IsControl)
  }

  lemma {:induction false} PlacedBehindItsKind(control: seq<Outgoing>, other: seq<Outgoing>, e: Outgoing, key: Key)
    requires forall c :: c in control ==> key(c)
    requires forall o :: o in other ==> !key(o)
    ensures Placed(control + other, e, key) == if key(e) then control + [e] + other else control + other + [e]
    decreases |other|
  {
    if other == [] {
      assert control + other == control && control + [e] + other == control + [e];
    } else if key(e) {
      var front, last := other[..|other| - 1], other[|other| - 1];
      assert (control + other)[..|control + other| - 1] == control + front;
      PlacedBehindItsKind(control, front, e, key);
      assert control + [e] + front + [last] == control + [e] + other;
    }
  }

  lemma {:induction false} SortedByKind(events: seq<Outgoing>, key: Key)
    ensures Sorted(events, key) == Of(events, key, true) + Of(events, key, false)
  {
    if events != [] {
      var front, e := events[..|events| - 1], events[|events| - 1];
      var control, other := Of(front, key, true), Of(front, key, false);
      SortedByKind(front, key);
      PlacedBehindItsKind(control, other, e, key);
      if key(e) {
        assert Of(events, key, true) == control + [e] && Of(events, key, false) == other + [] == other;
      } else {
        assert Of(events, key, true) == control + [] == control && Of(events, key, false) == other + [e];
        assert control + other + [e] == control + (other + [e]);
      }
    }
  }

  lemma {:induction false} KindsMakeTheWhole(events: seq<Outgoing>, key: Key)
    ensures multiset(Of(events, key, true) + Of(events, key, false)) == multiset(events)
  {
    if events != [] {
      assert events == events[..|events| - 1] + [events[|events| - 1]];
      KindsMakeTheWhole(events[..|events| - 1], key);
    }
  }

  /** No other event is sent before a control event of its batch. */
  lemma NothingGoesBeforeControl(events: seq<Outgoing>, i: nat, j: nat)
    requires i < j < |Prioritized(events)| && Prioritized(events)[j].kind in CONTROL_EVENT_TYPES
    ensures Prioritized(events)[i].kind in CONTROL_EVENT_TYPES
  {
    ControlEventsGoFirst(events);
    var control, other := Of(events, IsControl, true), Of(events, IsControl, false);
    KindOfPlace(control, other, i);
    KindOfPlace(control, other, j);
  }

  lemma KindOfPlace(control: seq<Outgoing>, other: seq<Outgoing>, i: nat)
    requires (forall e :: e in control ==> IsControl(e)) && forall e :: e in other ==> !IsControl(e)
    requires i < |control + other|
    ensures IsControl((control + other)[i]) <==> i < |control|
  {
    if i < |control| {
      assert (control + other)[i] in control;
    } else {
      assert (control + other)[i] == other[i - |control|] && other[i - |control|] in other;
    }
  }

  /** Control events go first, both kinds keep the order they came in, and the
      batch loses and gains nothing. */
  lemma ControlEventsGoFirst(events: seq<Outgoing>)
    ensures Prioritized(events) == Of(events, IsControl, true) + Of(events, IsControl, false)
    ensures multiset(Prioritized(events)) == multiset(events)
  {
    SortedByKind(events, IsControl);
    KindsMakeTheWhole(events, IsControl);
    if |events| == 1 {
      assert Sorted(events[..0], IsControl) == [];
      assert Sorted(events, IsControl) == events;
    }
  }
}
