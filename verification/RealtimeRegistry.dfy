/** The realtime registrations of kiwoom/client.py: a local map of screens to
    codes that mirrors what the broker's control has registered.

    The control is a small machine: option "0" replaces the codes of a screen,
    "1" adds to them, a negative result changes nothing, and removing the code
    "ALL" empties the target.  reply(n) answers its n-th registration. */
module RealtimeRegistry {
  import opened Common

  type Screens = map<string, set<string>>

  /** A registration call; dropped is what it took off its screen. */
  datatype Call = Call(screen: string, codes: seq<string>, option: string, result: int, dropped: set<string>)

  datatype State = State(local: Screens, server: Screens, calls: seq<Call>)

  type Reply = nat -> int

  function CodesOn(screens: Screens, screen: string): set<string> {
    if screen in screens then screens[screen] else {}
  }

  function AsSet(codes: seq<string>): set<string> {
    set c | c in codes
  }

  function NonEmpty(codes: seq<string>): (kept: seq<string>)
    ensures forall c :: c in kept <==> c in codes && c != ""
  {
    if codes == [] then []
    else (if codes[0] != "" then [codes[0]] else []) + NonEmpty(codes[1..])
  }

  lemma NonEmptyByOne(codes: seq<string>)
    requires codes != []
    ensures NonEmpty(codes) == (if codes[0] != "" then [codes[0]] else []) + NonEmpty(codes[1..])
  {
  }

  /** The empty codes are left out of a list and the others stay in their order. */
  lemma {:induction false} NonEmptyKeepsOrder(front: seq<string>, back: seq<string>)
    ensures NonEmpty(front + back) == NonEmpty(front) + NonEmpty(back)
  {
    if front == [] {
      assert front + back == back && NonEmpty(front) + NonEmpty(back) == NonEmpty(back);
    } else {
      NonEmptyKeepsOrder(front[1..], back);
      NonEmptyOfLonger(front, back, NonEmpty(front[1..]), NonEmpty(back));
    }
  }

  lemma NonEmptyOfLonger(front: seq<string>, back: seq<string>, r: seq<string>, b: seq<string>)
    requires front != [] && NonEmpty(front[1..] + back) == r + b && NonEmpty(front[1..]) == r
    ensures NonEmpty(front + back) == NonEmpty(front) + b
  {
    NonEmptyByOne(front);
    NonEmptyByOne(front + back);
    assert (front + back)[0] == front[0] && (front + back)[1..] == front[1..] + back;
  }

  lemma {:induction false} NonEmptyLeavesTheRest(codes: seq<string>)
    requires "" !in codes
    ensures NonEmpty(codes) == codes
  {
    if codes != [] {
      NonEmptyLeavesTheRest(codes[1..]);
      assert [codes[0]] + codes[1..] == codes;
    }
  }

  // -------------------------------------------------------------- the control

  function ServerReg(server: Screens, screen: string, codes: seq<string>, option: string, result: int): Screens {
    if result < 0 then server
    else server[screen := if option == "0" then AsSet(codes) else CodesOn(server, screen) + AsSet(codes)]
  }

  function Dropped(server: Screens, screen: string, codes: seq<string>, option: string, result: int): set<string> {
    CodesOn(server, screen) - CodesOn(ServerReg(server, screen, codes, option, result), screen)
  }

  /** What removing one code leaves of a screen's codes. */
  function Without(codes: set<string>, code: string): set<string> {
    if code == "ALL" then {} else codes - {code}
  }

  function ServerRemove(server: Screens, target: string, code: string): Screens {
    map screen | screen in server :: if target == "ALL" || target == screen then Without(server[screen], code) else server[screen]
  }

  class Control {
    const reply: Reply
    var screens: Screens
    var calls: seq<Call>

    constructor (reply: Reply)
      ensures this.reply == reply && screens == map[] && calls == []
    {
      this.reply := reply;
      screens := map[];
      calls := [];
    }

    method SetRealReg(screen: string, codes: seq<string>, option: string) returns (result: int)
      modifies this
      ensures result == reply(|old(calls)|)
      ensures screens == ServerReg(old(screens), screen, codes, option, result)
      ensures calls == old(calls) + [Call(screen, codes, option, result, Dropped(old(screens), screen, codes, option, result))]
    {
      result := reply(|calls|);
      calls := calls + [Call(screen, codes, option, result, Dropped(screens, screen, codes, option, result))];
      screens := ServerReg(screens, screen, codes, option, result);
    }

    method SetRealRemove(target: string, code: string)
      modifies this`screens
      ensures screens == ServerRemove(old(screens), target, code)
    {
      screens := ServerRemove(screens, target, code);
    }
  }

  // --------------------------------------------------------------- the client

  /** The screen of the n-th chunk: the given one, or one per chunk from 5000 on. */
  function ScreenOf(screen: string, n: nat): string {
    if screen != "" then screen else Decimal(5000 + n)
  }

  function Chunk(codes: seq<string>, n: nat): seq<string>
    requires n * 100 <= |codes|
  {
    codes[n * 100..if (n + 1) * 100 < |codes| then (n + 1) * 100 else |codes|]
  }

  function WithScreen(local: Screens, screen: string): Screens {
    if screen in local then local else local[screen := {}]
  }

  /** One chunk; the flag tells whether the control accepted it. */
  function RegisterChunk(s: State, screen: string, chunk: seq<string>, reply: Reply): (State, bool) {
    var local := WithScreen(s.local, screen);
    var option := if local[screen] != {} then "1" else "0";
    var result := reply(|s.calls|);
    (State(if result < 0 then local else local[screen := local[screen] + AsSet(chunk)],
           ServerReg(s.server, screen, chunk, option, result),
           s.calls + [Call(screen, chunk, option, result, Dropped(s.server, screen, chunk, option, result))]),
     result >= 0)
  }

  /** The chunks from the n-th on, up to the first that is refused. */
  function RegisterFrom(s: State, codes: seq<string>, screen: string, reply: Reply, n: nat): (State, bool)
    decreases |codes| - n * 100
  {
    if n * 100 >= |codes| then (s, true)
    else
      var (s', ok) := RegisterChunk(s, ScreenOf(screen, n), Chunk(codes, n), reply);
      if ok then RegisterFrom(s', codes, screen, reply, n + 1) else (s', false)
  }

  lemma OneMoreChunk(s: State, codes: seq<string>, screen: string, reply: Reply, n: nat)
    requires n * 100 < |codes|
    ensures var (s', ok) := RegisterChunk(s, ScreenOf(screen, n), Chunk(codes, n), reply);
            RegisterFrom(s, codes, screen, reply, n)
            == if ok then RegisterFrom(s', codes, screen, reply, n + 1) else (s', false)
  {
  }

  function Register(s: State, codes: seq<string>, screen: string, reply: Reply): (State, bool) {
    RegisterFrom(s, NonEmpty(codes), screen, reply, 0)
  }

  function TargetOf(screen: string): string {
    if screen != "" then screen else "ALL"
  }

  function LocalDiscard(local: Screens, target: string, code: string): Screens {
    if target == "ALL" then map screen | screen in local :: local[screen] - {code}
    else if target in local then
      (if local[target] - {code} == {} then local - {target} else local[target := local[target] - {code}])
    else local
  }

  function RemoveFrom(s: State, codes: seq<string>, target: string): State
    decreases |codes|
  {
    if codes == [] then s
    else RemoveFrom(s.(server := ServerRemove(s.server, target, codes[0]), local := LocalDiscard(s.local, target, codes[0])),
                    codes[1..], target)
  }

  function Prune(local: Screens): Screens {
    map screen | screen in local && local[screen] != {} :: local[screen]
  }

  function Remove(s: State, codes: seq<string>, screen: string): State {
    var removed := RemoveFrom(s, NonEmpty(codes), TargetOf(screen));
    if TargetOf(screen) == "ALL" then removed.(local := Prune(removed.local)) else removed
  }

  function RemoveAll(s: State): State {
    s.(server := ServerRemove(s.server, "ALL", "ALL"), local := map[])
  }

  class KiwoomClient {
    const ocx: Control
    var screenCodes: Screens

    function View(): State
      reads this, ocx
    {
      State(screenCodes, ocx.screens, ocx.calls)
    }

    constructor (ocx: Control)
      ensures this.ocx == ocx && screenCodes == map[]
    {
      this.ocx := ocx;
      screenCodes := map[];
    }

    method RegisterRealtime(codes: seq<string>, screen: string) returns (ok: bool)
      modifies this, ocx
      ensures (View(), ok) == Register(old(View()), codes, screen, ocx.reply)
    {
      var codeList := NonEmpty(codes);
      var n := 0;
      ok := true;
      while n * 100 < |codeList|
        invariant ok
        invariant RegisterFrom(View(), codeList, screen, ocx.reply, n) == Register(old(View()), codes, screen, ocx.reply)
      {
        OneMoreChunk(View(), codeList, screen, ocx.reply, n);
        var accepted := RegisterOne(Chunk(codeList, n), ScreenOf(screen, n));
        if !accepted {
          return false;
        }
        n := n + 1;
      }
    }

    method RegisterOne(chunk: seq<string>, screen: string) returns (ok: bool)
      modifies this, ocx
      ensures (View(), ok) == RegisterChunk(old(View()), screen, chunk, ocx.reply)
    {
      screenCodes := WithScreen(screenCodes, screen);
      var option := if screenCodes[screen] != {} then "1" else "0";
      var result := ocx.SetRealReg(screen, chunk, option);
      if result < 0 {
        return false;
      }
      screenCodes := screenCodes[screen := screenCodes[screen] + AsSet(chunk)];
      return true;
    }

    method RemoveRealtime(codes: seq<string>, screen: string)
      modifies this, ocx
      ensures View() == Remove(old(View()), codes, screen)
    {
      var target := TargetOf(screen);
      var codeList := NonEmpty(codes);
      var n := 0;
      while n < |codeList|
        invariant n <= |codeList|
        invariant RemoveFrom(View(), codeList[n..], target) == RemoveFrom(old(View()), codeList, target)
      {
        var code := codeList[n];
        ghost var before := screenCodes;
        ocx.SetRealRemove(target, code);
        if target == "ALL" {
          screenCodes := map s | s in screenCodes :: screenCodes[s] - {code};
        } else if target in screenCodes {
          screenCodes := screenCodes[target := screenCodes[target] - {code}];
          if screenCodes[target] == {} {
            screenCodes := screenCodes - {target};
          }
        }
        assert screenCodes == LocalDiscard(before, target, code);
        assert codeList[n..][0] == code && codeList[n..][1..] == codeList[n + 1..];
        n := n + 1;
      }
      if target == "ALL" {
        screenCodes := Prune(screenCodes);
      }
    }

    method RemoveAllRealtime()
      modifies this, ocx
      ensures View() == RemoveAll(old(View()))
      ensures screenCodes == map[] && forall x :: CodesOn(ocx.screens, x) == {}
    {
      ocx.SetRealRemove("ALL", "ALL");
      screenCodes := map[];
    }
  }

  // --------------------------------------------------------------- the mirror

  /** Screen by screen, both sides have the same codes. */
  ghost predicate Mirrors(s: State) {
    forall screen :: CodesOn(s.local, screen) == CodesOn(s.server, screen)
  }

  /** The control has nothing that the client does not know of. */
  ghost predicate Covers(s: State) {
    forall screen :: CodesOn(s.server, screen) <= CodesOn(s.local, screen)
  }

  lemma ChunkEffect(s: State, screen: string, chunk: seq<string>, reply: Reply)
    ensures var (s', ok) := RegisterChunk(s, screen, chunk, reply);
            && (forall x :: CodesOn(s'.local, x) == CodesOn(s.local, x) + if ok && x == screen then AsSet(chunk) else {})
            && (Covers(s) ==>
                  && (forall x :: CodesOn(s'.server, x) == CodesOn(s.server, x) + if ok && x == screen then AsSet(chunk) else {})
                  && s'.calls[|s.calls|].dropped == {})
  {
  }

  /** From s to s' the cover and the mirror are kept, and no code is lost at the
      control. */
  ghost predicate Keeps(s: State, s': State) {
    (Covers(s) ==> Covers(s')) && (Mirrors(s) ==> Mirrors(s')) && forall x :: CodesOn(s.server, x) <= CodesOn(s'.server, x)
  }

  lemma ChunkKeeps(s: State, screen: string, chunk: seq<string>, reply: Reply)
    requires Covers(s)
    ensures Covers(RegisterChunk(s, screen, chunk, reply).0) && Keeps(s, RegisterChunk(s, screen, chunk, reply).0)
  {
    ChunkEffect(s, screen, chunk, reply);
  }

  lemma KeepsOnward(s: State, s': State, s'': State)
    requires Keeps(s, s') && Keeps(s', s'')
    ensures Keeps(s, s'')
  {
  }

  /** Registering keeps the mirror, also when a chunk fails half way, and only
      ever adds codes at the control. */
  lemma {:induction false} RegisterKeepsMirror(s: State, codes: seq<string>, screen: string, reply: Reply, n: nat)
    requires Covers(s)
    ensures Keeps(s, RegisterFrom(s, codes, screen, reply, n).0)
    decreases |codes| - n * 100
  {
    if n * 100 < |codes| {
      var chunk, on := Chunk(codes, n), ScreenOf(screen, n);
      ChunkKeeps(s, on, chunk, reply);
      OneMoreChunk(s, codes, screen, reply, n);
      var (s', ok) := RegisterChunk(s, on, chunk, reply);
      if ok {
        RegisterKeepsMirror(s', codes, screen, reply, n + 1);
        KeepsOnward(s, s', RegisterFrom(s', codes, screen, reply, n + 1).0);
      }
    }
  }

  /** The position i of a list falls into chunk i / 100. */
  lemma ChunkHolds(codes: seq<string>, n: nat, i: nat)
    requires n * 100 <= i < |codes|
    ensures i < (n + 1) * 100 ==> i / 100 == n && codes[i] in AsSet(Chunk(codes, n))
  {
    if i < (n + 1) * 100 {
      assert Chunk(codes, n)[i - n * 100] == codes[i];
    }
  }

  /** A registration that succeeds has every non-empty code on the screen of its
      chunk, at the control too. */
  lemma {:induction false} RegisterCovers(s: State, codes: seq<string>, screen: string, reply: Reply, n: nat, i: nat)
    requires n * 100 <= i < |codes|
    requires Covers(s) && RegisterFrom(s, codes, screen, reply, n).1
    ensures codes[i] in CodesOn(RegisterFrom(s, codes, screen, reply, n).0.server, ScreenOf(screen, i / 100))
    decreases |codes| - n * 100
  {
    ChunkHolds(codes, n, i);
    ChunkEffect(s, ScreenOf(screen, n), Chunk(codes, n), reply);
    var (s', ok) := RegisterChunk(s, ScreenOf(screen, n), Chunk(codes, n), reply);
    if i < (n + 1) * 100 {
      RegisterKeepsMirror(s', codes, screen, reply, n + 1);
    } else {
      RegisterCovers(s', codes, screen, reply, n + 1, i);
    }
  }

  function Concat(calls: seq<Call>): seq<string> {
    if calls == [] then [] else calls[0].codes + Concat(calls[1..])
  }

  /** What is left of the list from chunk n on. */
  function RestFrom(codes: seq<string>, n: nat): seq<string> {
    if n * 100 < |codes| then codes[n * 100..] else []
  }

  lemma ChunkThenRest(codes: seq<string>, n: nat)
    requires n * 100 < |codes|
    ensures 1 <= |Chunk(codes, n)| <= 100 && RestFrom(codes, n) == Chunk(codes, n) + RestFrom(codes, n + 1)
  {
  }

  /** calls are new ones on top of old, each with one to a hundred codes. */
  ghost predicate Extends(old': seq<Call>, calls: seq<Call>) {
    |old'| <= |calls| && calls[..|old'|] == old'
    && forall k :: |old'| <= k < |calls| ==> 1 <= |calls[k].codes| <= 100
  }

  lemma ExtendsByOne(old': seq<Call>, call: Call, calls: seq<Call>)
    requires Extends(old' + [call], calls) && 1 <= |call.codes| <= 100
    ensures Extends(old', calls) && Concat(calls[|old'|..]) == call.codes + Concat(calls[|old'| + 1..])
  {
    assert calls[..|old'|] == calls[..|old'| + 1][..|old'|];
    assert calls[|old'|] == calls[..|old'| + 1][|old'|];
    assert calls[|old'|..][1..] == calls[|old'| + 1..];
  }

  /** One chunk is one call. */
  lemma ChunkIsOneCall(s: State, screen: string, chunk: seq<string>, reply: Reply)
    ensures exists call :: RegisterChunk(s, screen, chunk, reply).0.calls == s.calls + [call] && call.codes == chunk
  {
    var calls := RegisterChunk(s, screen, chunk, reply).0.calls;
    assert calls == s.calls + [calls[|s.calls|]];
  }

  /** calls continue old' with the rest of the list from chunk n on. */
  ghost predicate Continues(old': seq<Call>, calls: seq<Call>, codes: seq<string>, n: nat, ok: bool) {
    Extends(old', calls) && (ok ==> Concat(calls[|old'|..]) == RestFrom(codes, n))
  }

  lemma ContinuesByOne(old': seq<Call>, call: Call, calls: seq<Call>, codes: seq<string>, n: nat, ok: bool)
    requires n * 100 < |codes| && call.codes == Chunk(codes, n)
    requires Continues(old' + [call], calls, codes, n + 1, ok)
    ensures Continues(old', calls, codes, n, ok)
  {
    ChunkThenRest(codes, n);
    ExtendsByOne(old', call, calls);
  }

  lemma ContinuesWithNothing(calls: seq<Call>, codes: seq<string>, n: nat, ok: bool)
    requires ok ==> n * 100 >= |codes|
    ensures Continues(calls, calls, codes, n, ok)
  {
  }

  lemma ChunkContinues(s: State, codes: seq<string>, screen: string, reply: Reply, n: nat, calls: seq<Call>, ok: bool)
    requires n * 100 < |codes|
    requires Continues(RegisterChunk(s, screen, Chunk(codes, n), reply).0.calls, calls, codes, n + 1, ok)
    ensures Continues(s.calls, calls, codes, n, ok)
  {
    ChunkIsOneCall(s, screen, Chunk(codes, n), reply);
    var after := RegisterChunk(s, screen, Chunk(codes, n), reply).0.calls;
    var call :| after == s.calls + [call] && call.codes == Chunk(codes, n);
    ContinuesByOne(s.calls, call, calls, codes, n, ok);
  }

  lemma FailedChunkContinues(s: State, codes: seq<string>, screen: string, reply: Reply, n: nat)
    requires n * 100 < |codes|
    ensures Continues(s.calls, RegisterChunk(s, screen, Chunk(codes, n), reply).0.calls, codes, n, false)
  {
    var calls := RegisterChunk(s, screen, Chunk(codes, n), reply).0.calls;
    ContinuesWithNothing(calls, codes, n + 1, false);
    ChunkContinues(s, codes, screen, reply, n, calls, false);
  }

  /** The calls of a registration carry at most a hundred codes each and, if it
      succeeds, together exactly the codes asked for, in order. */
  lemma {:induction false} RegisterCallsInChunks(s: State, codes: seq<string>, screen: string, reply: Reply, n: nat)
    ensures var (s', ok) := RegisterFrom(s, codes, screen, reply, n); Continues(s.calls, s'.calls, codes, n, ok)
    decreases |codes| - n * 100
  {
    if n * 100 >= |codes| {
      ContinuesWithNothing(s.calls, codes, n, true);
    } else {
      var (s', ok) := RegisterChunk(s, ScreenOf(screen, n), Chunk(codes, n), reply);
      if ok {
        RegisterCallsInChunks(s', codes, screen, reply, n + 1);
        var (last, done) := RegisterFrom(s', codes, screen, reply, n + 1);
        ChunkContinues(s, codes, ScreenOf(screen, n), reply, n, last.calls, done);
      } else {
        FailedChunkContinues(s, codes, ScreenOf(screen, n), reply, n);
      }
    }
  }

  lemma EarlierCallStays(s: State, codes: seq<string>, screen: string, reply: Reply, n: nat, k: nat)
    requires k < |s.calls|
    ensures k < |RegisterFrom(s, codes, screen, reply, n).0.calls| && RegisterFrom(s, codes, screen, reply, n).0.calls[k] == s.calls[k]
  {
    RegisterCallsInChunks(s, codes, screen, reply, n);
    var calls := RegisterFrom(s, codes, screen, reply, n).0.calls;
    assert calls[k] == calls[..|s.calls|][k];
  }

  /** A call replaces what is on its screen when the client knows of no code there,
      and adds to it otherwise. */
  lemma OptionMeans(s: State, screen: string, chunk: seq<string>, reply: Reply)
    ensures var (s', ok) := RegisterChunk(s, screen, chunk, reply);
            |s'.calls| == |s.calls| + 1 && s'.calls[..|s.calls|] == s.calls
            && var call := s'.calls[|s.calls|];
               && call.screen == screen && call.codes == chunk && call.result == reply(|s.calls|) && (ok <==> call.result >= 0)
               && (call.option == "0" <==> CodesOn(s.local, screen) == {})
               && (call.option == "1" <==> CodesOn(s.local, screen) != {})
               && CodesOn(s'.server, screen) ==
                    if !ok then CodesOn(s.server, screen)
                    else AsSet(chunk) + if CodesOn(s.local, screen) == {} then {} else CodesOn(s.server, screen)
  {
  }

  /** Without a screen of its own a list goes to screens of one chunk each. */
  lemma ScreensAreApart(m: nat, n: nat)
    ensures ScreenOf("", m) == ScreenOf("", n) <==> m == n
    ensures ScreenOf("", 0) == "5000"
  {
    if ScreenOf("", m) == ScreenOf("", n) {
      DecimalIsInjective(5000 + m, 5000 + n);
    }
    var thousands := Decimal(5);
    assert Decimal(50) == thousands + [Digit(0)] && Decimal(500) == Decimal(50) + [Digit(0)] && Decimal(5000) == Decimal(500) + [Digit(0)];
  }

  lemma ChunkAtScreen(s: State, on: string, chunk: seq<string>, reply: Reply, x: string)
    requires Covers(s)
    ensures var (s', ok) := RegisterChunk(s, on, chunk, reply);
            Covers(s') && CodesOn(s'.server, x) == CodesOn(s.server, x) + if ok && x == on then AsSet(chunk) else {}
  {
    ChunkEffect(s, on, chunk, reply);
    ChunkKeeps(s, on, chunk, reply);
  }

  /** A screen that is of no chunk from the n-th on stays as it is. */
  lemma {:induction false} OtherScreensStay(s: State, codes: seq<string>, screen: string, reply: Reply, n: nat, x: string)
    requires Covers(s) && forall m: nat :: n <= m ==> ScreenOf(screen, m) != x
    ensures CodesOn(RegisterFrom(s, codes, screen, reply, n).0.server, x) == CodesOn(s.server, x)
    decreases |codes| - n * 100
  {
    if n * 100 < |codes| {
      var on := ScreenOf(screen, n);
      OneMoreChunk(s, codes, screen, reply, n);
      ChunkAtScreen(s, on, Chunk(codes, n), reply, x);
      var (s', ok) := RegisterChunk(s, on, Chunk(codes, n), reply);
      if ok {
        OtherScreensStay(s', codes, screen, reply, n + 1, x);
      }
    }
  }

  lemma NextChunkStays(s: State, codes: seq<string>, screen: string, reply: Reply, k: nat, x: string)
    requires Covers(s) && k * 100 < |codes| && RegisterFrom(s, codes, screen, reply, k).1
    requires x == ScreenOf(screen, k) && forall m: nat :: k < m ==> ScreenOf(screen, m) != x
    ensures CodesOn(RegisterFrom(s, codes, screen, reply, k).0.server, x) == CodesOn(s.server, x) + AsSet(Chunk(codes, k))
  {
    OneMoreChunk(s, codes, screen, reply, k);
    ChunkAtScreen(s, x, Chunk(codes, k), reply, x);
    OtherScreensStay(RegisterChunk(s, x, Chunk(codes, k), reply).0, codes, screen, reply, k + 1, x);
  }

  lemma EarlierChunkPasses(s: State, codes: seq<string>, screen: string, reply: Reply, n: nat, x: string) returns (s': State)
    requires Covers(s) && n * 100 < |codes| && RegisterFrom(s, codes, screen, reply, n).1
    requires ScreenOf(screen, n) != x
    ensures Covers(s') && CodesOn(s'.server, x) == CodesOn(s.server, x)
    ensures RegisterFrom(s, codes, screen, reply, n) == RegisterFrom(s', codes, screen, reply, n + 1)
  {
    var on := ScreenOf(screen, n);
    OneMoreChunk(s, codes, screen, reply, n);
    ChunkAtScreen(s, on, Chunk(codes, n), reply, x);
    s' := RegisterChunk(s, on, Chunk(codes, n), reply).0;
  }

  lemma {:induction false} EarlierChunksPass(s: State, codes: seq<string>, screen: string, reply: Reply, k: nat, x: string)
    returns (s': State)
    requires Covers(s) && k * 100 < |codes| && RegisterFrom(s, codes, screen, reply, 0).1
    requires forall m: nat :: m < k ==> ScreenOf(screen, m) != x
    ensures Covers(s') && CodesOn(s'.server, x) == CodesOn(s.server, x)
    ensures RegisterFrom(s, codes, screen, reply, 0) == RegisterFrom(s', codes, screen, reply, k)
  {
    s' := s;
    if k > 0 {
      s' := EarlierChunksPass(s, codes, screen, reply, k - 1, x);
      s' := EarlierChunkPasses(s', codes, screen, reply, k - 1, x);
    }
  }

  /** So, without a screen of its own and on a screen that was empty, a list that is
      accepted leaves exactly its k-th hundred codes on the k-th screen. */
  lemma EachScreenItsHundred(s: State, codes: seq<string>, reply: Reply, k: nat)
    requires Covers(s) && k * 100 < |codes| && RegisterFrom(s, codes, "", reply, 0).1
    requires CodesOn(s.server, ScreenOf("", k)) == {}
    ensures CodesOn(RegisterFrom(s, codes, "", reply, 0).0.server, ScreenOf("", k))
            == set i | k * 100 <= i < |codes| && i < (k + 1) * 100 :: codes[i]
  {
    forall m: nat | m != k ensures ScreenOf("", m) != ScreenOf("", k) {
      ScreensAreApart(m, k);
    }
    var s' := EarlierChunksPass(s, codes, "", reply, k, ScreenOf("", k));
    NextChunkStays(s', codes, "", reply, k, ScreenOf("", k));
    ChunkAsSet(codes, k);
  }

  lemma ChunkAsSet(codes: seq<string>, k: nat)
    requires k * 100 < |codes|
    ensures AsSet(Chunk(codes, k)) == set i | k * 100 <= i < |codes| && i < (k + 1) * 100 :: codes[i]
  {
    var chunk := Chunk(codes, k);
    forall c | c in chunk ensures exists i :: k * 100 <= i < |codes| && i < (k + 1) * 100 && codes[i] == c {
      var j :| 0 <= j < |chunk| && chunk[j] == c;
      assert codes[k * 100 + j] == c;
    }
    forall i | k * 100 <= i < |codes| && i < (k + 1) * 100 ensures codes[i] in chunk {
      assert chunk[i - k * 100] == codes[i];
    }
  }

  /** No call of a registration takes a live code off its screen. */
  lemma {:induction false} RegisterDropsNothing(s: State, codes: seq<string>, screen: string, reply: Reply, n: nat, k: nat)
    requires Covers(s)
    requires |s.calls| <= k < |RegisterFrom(s, codes, screen, reply, n).0.calls|
    ensures RegisterFrom(s, codes, screen, reply, n).0.calls[k].dropped == {}
    decreases |codes| - n * 100
  {
    ChunkEffect(s, ScreenOf(screen, n), Chunk(codes, n), reply);
    var (s', ok) := RegisterChunk(s, ScreenOf(screen, n), Chunk(codes, n), reply);
    if ok {
      if k == |s.calls| {
        EarlierCallStays(s', codes, screen, reply, n + 1, k);
      } else {
        RegisterDropsNothing(s', codes, screen, reply, n + 1, k);
      }
    }
  }

  predicate Targets(target: string, screen: string) {
    target == "ALL" || target == screen
  }

  lemma {:induction false} RemoveEffect(s: State, codes: seq<string>, target: string, x: string)
    ensures var s' := RemoveFrom(s, codes, target);
            && s'.calls == s.calls
            && CodesOn(s'.local, x) == CodesOn(s.local, x) - (if Targets(target, x) then AsSet(codes) else {})
            && CodesOn(s'.server, x) ==
                 if !Targets(target, x) then CodesOn(s.server, x)
                 else if "ALL" in codes then {}
                 else CodesOn(s.server, x) - AsSet(codes)
    decreases |codes|
  {
    if codes != [] {
      var next := s.(server := ServerRemove(s.server, target, codes[0]), local := LocalDiscard(s.local, target, codes[0]));
      RemoveEffect(next, codes[1..], target, x);
      assert codes == [codes[0]] + codes[1..];
      assert AsSet(codes) == {codes[0]} + AsSet(codes[1..]);
    }
  }

  lemma PruneKeepsCodes(local: Screens, x: string)
    ensures CodesOn(Prune(local), x) == CodesOn(local, x)
  {
  }

  lemma RemoveOnScreen(s: State, codes: seq<string>, screen: string, x: string)
    ensures var s' := Remove(s, codes, screen);
            var removed := AsSet(NonEmpty(codes));
            && s'.calls == s.calls
            && CodesOn(s'.local, x) == CodesOn(s.local, x) - (if Targets(TargetOf(screen), x) then removed else {})
            && CodesOn(s'.server, x) ==
                 if !Targets(TargetOf(screen), x) then CodesOn(s.server, x)
                 else if "ALL" in codes then {}
                 else CodesOn(s.server, x) - removed
  {
    RemoveEffect(s, NonEmpty(codes), TargetOf(screen), x);
    PruneKeepsCodes(RemoveFrom(s, NonEmpty(codes), TargetOf(screen)).local, x);
  }

  /** A removal that names a screen touches that one only; without a name, or under
      the name ALL, it takes every screen. */
  lemma RemovalIsOfItsScreen(s: State, codes: seq<string>, screen: string, x: string)
    requires "ALL" !in codes
    ensures var s' := Remove(s, codes, screen);
            var removed := if screen == "" || screen == "ALL" || screen == x then (set c | c in codes && c != "") else {};
            && CodesOn(s'.local, x) == CodesOn(s.local, x) - removed
            && CodesOn(s'.server, x) == CodesOn(s.server, x) - removed
  {
    RemoveOnScreen(s, codes, screen, x);
    assert AsSet(NonEmpty(codes)) == set c | c in codes && c != "";
  }

  lemma RemoveAgreesAt(s: State, codes: seq<string>, screen: string, x: string)
    requires CodesOn(s.local, x) == CodesOn(s.server, x)
    ensures CodesOn(Remove(s, codes, screen).local, x) == CodesOn(Remove(s, codes, screen).server, x)
            <==> ("ALL" in codes && Targets(TargetOf(screen), x) ==> CodesOn(s.local, x) <= AsSet(NonEmpty(codes)))
  {
    RemoveOnScreen(s, codes, screen, x);
    var kept := CodesOn(s.local, x) - AsSet(NonEmpty(codes));
    if kept == {} {
      forall c | c in CodesOn(s.local, x) ensures c in AsSet(NonEmpty(codes)) {
        assert c !in kept;
      }
    }
  }

  /** Removing keeps the mirror exactly when the code "ALL" is not among the
      removed codes, or nothing else was left on the target for it to empty. */
  lemma RemoveKeepsMirrorExactlyWhen(s: State, codes: seq<string>, screen: string)
    requires Mirrors(s)
    ensures Mirrors(Remove(s, codes, screen)) <==>
              ("ALL" in codes ==> forall x :: Targets(TargetOf(screen), x) ==> CodesOn(s.local, x) <= AsSet(NonEmpty(codes)))
  {
    var s' := Remove(s, codes, screen);
    forall x
      ensures CodesOn(s'.local, x) == CodesOn(s'.server, x)
              <==> ("ALL" in codes && Targets(TargetOf(screen), x) ==> CodesOn(s.local, x) <= AsSet(NonEmpty(codes)))
    {
      RemoveAgreesAt(s, codes, screen, x);
    }
  }

  lemma RemoveKeepsCover(s: State, codes: seq<string>, screen: string)
    requires Covers(s)
    ensures Covers(Remove(s, codes, screen)) && Remove(s, codes, screen).calls == s.calls
  {
    RemoveOnScreen(s, codes, screen, "");
    forall x ensures CodesOn(Remove(s, codes, screen).server, x) <= CodesOn(Remove(s, codes, screen).local, x) {
      RemoveOnScreen(s, codes, screen, x);
    }
  }

  // --------------------------------------------------------------------- runs

  datatype Op =
    | DoRegister(codes: seq<string>, screen: string)
    | DoRemove(codes: seq<string>, screen: string)
    | DoRemoveAll

  function Step(s: State, op: Op, reply: Reply): State {
    match op
    case DoRegister(codes, screen) => Register(s, codes, screen, reply).0
    case DoRemove(codes, screen) => Remove(s, codes, screen)
    case DoRemoveAll => RemoveAll(s)
  }

  function Run(ops: seq<Op>, reply: Reply): State {
    if ops == [] then State(map[], map[], [])
    else Step(Run(ops[..|ops| - 1], reply), ops[|ops| - 1], reply)
  }

  /** Over any sequence of calls, refused chunks included, the client knows of
      every registered code, and no registration ever took a live code off. */
  lemma {:induction false} NoLiveCodeIsDropped(ops: seq<Op>, reply: Reply)
    ensures Covers(Run(ops, reply))
    ensures forall i :: 0 <= i < |Run(ops, reply).calls| ==> Run(ops, reply).calls[i].dropped == {}
  {
    if ops != [] {
      var before := Run(ops[..|ops| - 1], reply);
      NoLiveCodeIsDropped(ops[..|ops| - 1], reply);
      match ops[|ops| - 1]
      case DoRegister(codes, screen) =>
        RegisterKeepsMirror(before, NonEmpty(codes), screen, reply, 0);
        forall k | 0 <= k < |Run(ops, reply).calls| ensures Run(ops, reply).calls[k].dropped == {} {
          if k < |before.calls| {
            EarlierCallStays(before, NonEmpty(codes), screen, reply, 0, k);
          } else {
            RegisterDropsNothing(before, NonEmpty(codes), screen, reply, 0, k);
          }
        }
      case DoRemove(codes, screen) => RemoveKeepsCover(before, codes, screen);
      case DoRemoveAll =>
    }
  }

  /** And as long as nobody removes a code spelled "ALL", the local map and the
      control agree screen by screen. */
  lemma {:induction false} LocalMapMirrorsControl(ops: seq<Op>, reply: Reply)
    requires forall k :: 0 <= k < |ops| && ops[k].DoRemove? ==> "ALL" !in ops[k].codes
    ensures Mirrors(Run(ops, reply))
  {
    if ops != [] {
      var before := Run(ops[..|ops| - 1], reply);
      LocalMapMirrorsControl(ops[..|ops| - 1], reply);
      NoLiveCodeIsDropped(ops[..|ops| - 1], reply);
      match ops[|ops| - 1]
      case DoRegister(codes, screen) => RegisterKeepsMirror(before, NonEmpty(codes), screen, reply, 0);
      case DoRemove(codes, screen) => RemoveKeepsMirrorExactlyWhen(before, codes, screen);
      case DoRemoveAll =>
    }
  }
}
