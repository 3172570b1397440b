/** The paged query capture of kiwoom/tr.py against an abstract server.

    A request with flag 0 opens the server's list for it and asks for its first
    page; flag 2 asks for the next.  A request is refused, or its page is
    delivered to the runner some time: while the runner waits for it (inside the
    request call at poll 0, or at a later poll), in the wait of a later request,
    or when nobody waits, which is as good as never. */
module TrCapture {
  import opened Common

  type Record = map<string, string>

  datatype Page = Page(prevNext: string, trCode: string, errorCode: string, single: map<string, string>, rows: seq<Record>)

  /** lists(n, k) is page k of the list that request n opens, codes(n) the result
      code of request n, and deliveries(n, p) the requests whose pages are
      delivered at poll p of the wait of request n, in order. */
  datatype Control = Control(
    lists: (nat, nat) -> Page,
    codes: nat -> int,
    deliveries: (nat, nat) -> seq<nat>)

  /** Only pages that were asked for are delivered, and at one poll in the order
      of their requests. */
  ghost predicate Orderly(c: Control) {
    forall n: nat, p: nat :: DeliversInOrder(c.deliveries(n, p), n)
  }

  ghost predicate DeliversInOrder(delivered: seq<nat>, n: nat) {
    (forall i :: 0 <= i < |delivered| ==> delivered[i] <= n)
    && forall i, j :: 0 <= i < j < |delivered| ==> delivered[i] < delivered[j]
  }

  datatype Error = RequestFailed(code: int) | TimedOut(flag: int) | ResponseError(errorCode: string)

  datatype Warning = CodeMismatch(trCode: string) | MaxPagesReached | Empty

  datatype Result = Result(pages: seq<Page>, requestCount: nat, errors: seq<Error>, warnings: seq<Warning>, complete: bool)

  /** More pages follow this one. */
  predicate More(page: Page) {
    Strip(page.prevNext) == "2"
  }

  function MaxPages(asked: int): nat {
    if asked == 0 then 20 else if asked < 1 then 1 else asked
  }

  // ------------------------------------------------------------------ server

  class Server {
    const control: Control
    /** The flags of all requests so far, and the page each asked for. */
    var flags: seq<int>
    var asked: seq<Page>
    /** The request that opened the current list, and the page last asked for. */
    var opener: nat
    var cursor: nat

    ghost predicate Valid()
      reads this
    {
      |flags| == |asked| && Orderly(control)
    }

    constructor (control: Control)
      requires Orderly(control)
      ensures this.control == control && flags == [] && asked == [] && Valid()
    {
      this.control := control;
      flags := [];
      asked := [];
      opener := 0;
      cursor := 0;
    }

    method Request(flag: int) returns (code: int)
      requires Valid()
      modifies this
      ensures Valid() && flags == old(flags) + [flag] && code == control.codes(|old(flags)|)
      ensures opener == (if flag == 2 then old(opener) else |old(flags)|) && cursor == (if flag == 2 then old(cursor) + 1 else 0)
      ensures asked == old(asked) + [control.lists(opener, cursor)]
    {
      code := control.codes(|flags|);
      opener := if flag == 2 then opener else |flags|;
      cursor := if flag == 2 then cursor + 1 else 0;
      flags := flags + [flag];
      asked := asked + [control.lists(opener, cursor)];
    }
  }

  // --------------------------------------------------------- what a wait takes

  /** The request whose page a wait takes: of the first poll that delivers any,
      the last one delivered. */
  function FirstDelivery(c: Control, n: nat, p: nat, patience: nat): Option<nat>
    requires p <= patience
    decreases patience - p
  {
    var delivered := c.deliveries(n, p);
    if delivered != [] then Some(delivered[|delivered| - 1])
    else if p < patience then FirstDelivery(c, n, p + 1, patience)
    else None
  }

  /** The request whose page request n returns, if it returns one. */
  function Taken(c: Control, n: nat, patience: nat): Option<nat> {
    if c.codes(n) < 0 then None else FirstDelivery(c, n, 0, patience)
  }

  function PageErrors(code: int, flag: int, page: Option<Page>): seq<Error> {
    if code < 0 then [RequestFailed(code)]
    else if page.None? then [TimedOut(flag)]
    else if Strip(page.value.errorCode) != "" && Strip(page.value.errorCode) != "0" then [ResponseError(page.value.errorCode)]
    else []
  }

  // ------------------------------------------------------------------ runner

  class Runner {
    const server: Server
    /** How many polls fit into the time limit of one request. */
    const patience: nat
    var pendingPage: Option<Page>
    var activeRequest: bool
    var sentRequestCount: nat

    constructor (server: Server, patience: nat)
      ensures this.server == server && this.patience == patience
      ensures pendingPage == None && !activeRequest && sentRequestCount == 0
    {
      this.server := server;
      this.patience := patience;
      pendingPage := None;
      activeRequest := false;
      sentRequestCount := 0;
    }

    /** A page arrives; without an active request its rows are not even read.
        Nothing is asked about whose page it is. */
    method HandleTrData(page: Page)
      modifies this`pendingPage
      ensures pendingPage == Some(if activeRequest then page else page.(single := map[], rows := []))
    {
      if !activeRequest {
        pendingPage := Some(page.(single := map[], rows := []));
      } else {
        pendingPage := Some(page);
      }
    }

    /** The deliveries of one poll in the wait of request n. */
    method ProcessEvents(n: nat, p: nat)
      requires server.Valid() && n < |server.asked| && activeRequest
      modifies this`pendingPage
      ensures var delivered := server.control.deliveries(n, p);
              DeliversInOrder(delivered, n)
              && pendingPage == if delivered == [] then old(pendingPage) else Some(server.asked[delivered[|delivered| - 1]])
    {
      var delivered := server.control.deliveries(n, p);
      assert DeliversInOrder(delivered, n);
      for i := 0 to |delivered|
        invariant pendingPage == if i == 0 then old(pendingPage) else Some(server.asked[delivered[i - 1]])
      {
        HandleTrData(server.asked[delivered[i]]);
      }
    }

    /** One page: what the wait of an accepted request takes, whatever had been
        pending before. */
    method RequestPage(result: Result, trCode: string, flag: int) returns (page: Option<Page>, result': Result)
      requires server.Valid()
      modifies this, server
      ensures server.Valid() && server.flags == old(server.flags) + [flag]
      ensures server.opener == (if flag == 2 then old(server.opener) else |old(server.flags)|)
      ensures server.cursor == (if flag == 2 then old(server.cursor) + 1 else 0)
      ensures server.asked == old(server.asked) + [server.control.lists(server.opener, server.cursor)]
      ensures sentRequestCount == old(sentRequestCount) + 1 && !activeRequest
      ensures var taken := Taken(server.control, |old(server.flags)|, patience);
              page.Some? == taken.Some? && (taken.Some? ==> taken.value < |server.asked| && page.value == server.asked[taken.value])
      ensures result'.pages == result.pages && result'.complete == result.complete
      ensures result'.requestCount == result.requestCount + 1
      ensures result'.errors == result.errors + PageErrors(server.control.codes(|old(server.flags)|), flag, page)
      ensures result'.warnings == result.warnings
                + if page.Some? && page.value.trCode != "" && Lower(page.value.trCode) != Lower(trCode)
                  then [CodeMismatch(page.value.trCode)] else []
    {
      var n := |server.flags|;
      pendingPage := None;
      activeRequest := true;
      var code := server.Request(flag);
      ProcessEvents(n, 0);
      result' := result.(requestCount := result.requestCount + 1);
      sentRequestCount := sentRequestCount + 1;
      if code < 0 {
        result' := result'.(errors := result'.errors + [RequestFailed(code)]);
        activeRequest := false;
        return None, result';
      }
      Wait(n);
      if pendingPage.None? {
        result' := result'.(errors := result'.errors + [TimedOut(flag)]);
        activeRequest := false;
        return None, result';
      }
      page := pendingPage;
      pendingPage := None;
      activeRequest := false;
      if page.value.trCode != "" && Lower(page.value.trCode) != Lower(trCode) {
        result' := result'.(warnings := result'.warnings + [CodeMismatch(page.value.trCode)]);
      }
      if Strip(page.value.errorCode) != "" && Strip(page.value.errorCode) != "0" {
        result' := result'.(errors := result'.errors + [ResponseError(page.value.errorCode)]);
      }
    }

    /** Poll until something is pending or the time is up. */
    method Wait(n: nat)
      requires server.Valid() && n < |server.asked| && activeRequest
      requires var delivered := server.control.deliveries(n, 0);
               DeliversInOrder(delivered, n)
               && pendingPage == if delivered == [] then None else Some(server.asked[delivered[|delivered| - 1]])
      modifies this`pendingPage
      ensures var taken := FirstDelivery(server.control, n, 0, patience);
              pendingPage.Some? == taken.Some?
              && (taken.Some? ==> taken.value < |server.asked| && pendingPage.value == server.asked[taken.value])
    {
      var polls := 0;
      while pendingPage.None? && polls < patience
        invariant polls <= patience
        invariant FirstDelivery(server.control, n, polls, patience) == FirstDelivery(server.control, n, 0, patience)
        invariant var delivered := server.control.deliveries(n, polls);
                  DeliversInOrder(delivered, n)
                  && pendingPage == if delivered == [] then None else Some(server.asked[delivered[|delivered| - 1]])
      {
        polls := polls + 1;
        ProcessEvents(n, polls);
      }
    }

    method RequestCapture(trCode: string, maxPages: int) returns (result: Result)
      requires server.Valid()
      modifies this, server
      ensures server.Valid()
      ensures Captures(server.control, old(server.asked), patience, MaxPages(maxPages), result)
      ensures Sent(server.control, old(server.flags), old(server.asked), result.requestCount, server.flags, server.asked)
      ensures sentRequestCount == old(sentRequestCount) + result.requestCount
      ensures maxPages >= 1 ==> |result.pages| <= maxPages && (MaxPagesReached in result.warnings ==> |result.pages| == maxPages)
      ensures maxPages == 0 ==> |result.pages| <= 20 && (MaxPagesReached in result.warnings ==> |result.pages| == 20)
      ensures maxPages < 0 ==> |result.pages| <= 1
    {
      var max := MaxPages(maxPages);
      result := Result([], 0, [], [], true);
      ghost var flags, asked := server.flags, server.asked;
      var flag := 0;
      var stopped := false;
      while !stopped && |result.pages| < max
        invariant server.Valid() && |result.pages| <= max
        invariant Underway(server.control, asked, patience, result)
        invariant stopped == LastTaken(result)
        invariant Sent(server.control, flags, asked, result.requestCount, server.flags, server.asked)
        invariant sentRequestCount == old(sentRequestCount) + result.requestCount
        invariant !stopped ==> flag == if result.pages == [] then 0 else 2
        invariant result.pages != [] ==> server.opener == |asked| && server.cursor == |result.pages| - 1
        decreases max - |result.pages|
      {
        ghost var earlier := result;
        var page;
        page, result := NextPage(result, trCode, flag, flags, asked);
        if page.None? {
          result := result.(complete := false);
          if result.pages == [] {
            result := result.(warnings := result.warnings + [Empty]);
          }
          FailedCaptures(server.control, asked, patience, max, earlier, result);
          return result;
        }
        result := result.(pages := result.pages + [page.value]);
        TakenOneMore(server.control, asked, patience, earlier, result);
        if !More(page.value) {
          stopped := true;
        } else {
          flag := 2;
        }
      }
      RightlyEnded(server.control, asked, patience, max, result);
      if !stopped {
        result := result.(complete := false, warnings := result.warnings + [MaxPagesReached]);
      }
    }

    /** The request for the next page of a capture under way. */
    method NextPage(result: Result, trCode: string, flag: int, ghost flags: seq<int>, ghost asked: seq<Page>)
      returns (page: Option<Page>, result': Result)
      requires server.Valid() && result.requestCount == |result.pages|
      requires Sent(server.control, flags, asked, result.requestCount, server.flags, server.asked) && |flags| == |asked|
      requires flag == if result.pages == [] then 0 else 2
      requires result.pages != [] ==> server.opener == |asked| && server.cursor == |result.pages| - 1
      modifies this, server
      ensures server.Valid() && server.opener == |asked| && server.cursor == |result.pages|
      ensures Sent(server.control, flags, asked, result.requestCount + 1, server.flags, server.asked)
      ensures sentRequestCount == old(sentRequestCount) + 1 && !activeRequest
      ensures page.Some? == Answered(server.control, asked, patience, |result.pages|)
      ensures page.Some? ==>
                page.value == PageOf(server.control, asked, Source(server.control, asked, patience, |result.pages|).value)
      ensures result'.pages == result.pages && result'.complete == result.complete
      ensures result'.requestCount == result.requestCount + 1
      ensures page.None? ==>
                result'.warnings == result.warnings
                && result'.errors != [] && (result'.errors[|result'.errors| - 1].RequestFailed? || result'.errors[|result'.errors| - 1].TimedOut?)
      ensures MaxPagesReached !in result.warnings ==> MaxPagesReached !in result'.warnings
      ensures Empty !in result.warnings ==> Empty !in result'.warnings
    {
      SentGrows(server.control, flags, asked, result.requestCount);
      page, result' := RequestPage(result, trCode, flag);
    }
  }

  /** After count requests of a capture: the flags and the pages asked for. */
  ghost predicate Sent(c: Control, flags: seq<int>, asked: seq<Page>, count: nat, flags': seq<int>, asked': seq<Page>) {
    flags' == flags + CaptureFlags(count) && asked' == asked + FirstPages(c, |asked|, count)
  }

  /** Flag 0 once, then flag 2. */
  function CaptureFlags(n: nat): (flags: seq<int>)
    ensures |flags| == n
  {
    seq(n, i requires 0 <= i < n => if i == 0 then 0 else 2)
  }

  /** The first n pages of the list that request first opens. */
  function FirstPages(c: Control, first: nat, n: nat): (pages: seq<Page>)
    ensures |pages| == n
  {
    seq(n, i requires 0 <= i < n => c.lists(first, i))
  }

  // ------------------------------------------------------------ what it means

  /** The request whose page the k-th request of a capture returns; before holds
      the pages asked for earlier, so it is request |before| + k. */
  function Source(c: Control, before: seq<Page>, patience: nat, k: nat): Option<nat> {
    Taken(c, |before| + k, patience)
  }

  /** The page that request m asked for. */
  function PageOf(c: Control, before: seq<Page>, m: nat): Page {
    if m < |before| then before[m] else c.lists(|before|, m - |before|)
  }

  predicate Answered(c: Control, before: seq<Page>, patience: nat, k: nat) {
    Source(c, before, patience, k).Some?
  }

  /** The k-th request of a capture returns the page it asked for. */
  predicate Own(c: Control, before: seq<Page>, patience: nat, k: nat) {
    Source(c, before, patience, k) == Some(|before| + k)
  }

  /** The pages so far are what the waits took, and all but the last announce more. */
  ghost predicate TakenSoFar(c: Control, before: seq<Page>, patience: nat, r: Result) {
    (forall k :: 0 <= k < |r.pages| ==>
       Answered(c, before, patience, k) && r.pages[k] == PageOf(c, before, Source(c, before, patience, k).value))
    && forall k :: 0 <= k < |r.pages| - 1 ==> More(r.pages[k])
  }

  predicate LastTaken(r: Result) {
    r.pages != [] && !More(r.pages[|r.pages| - 1])
  }

  /** The loop so far: as many requests as pages. */
  ghost predicate Underway(c: Control, before: seq<Page>, patience: nat, r: Result) {
    TakenSoFar(c, before, patience, r) && r.complete && r.requestCount == |r.pages|
    && MaxPagesReached !in r.warnings && Empty !in r.warnings
  }

  lemma TakenOneMore(c: Control, before: seq<Page>, patience: nat, r: Result, r': Result)
    requires Underway(c, before, patience, r) && !LastTaken(r)
    requires Answered(c, before, patience, |r.pages|)
    requires r'.pages == r.pages + [PageOf(c, before, Source(c, before, patience, |r.pages|).value)]
    requires r'.complete && r'.requestCount == r.requestCount + 1
    requires MaxPagesReached !in r'.warnings && Empty !in r'.warnings
    ensures Underway(c, before, patience, r')
  {
  }

  lemma SentGrows(c: Control, flags: seq<int>, before: seq<Page>, n: nat)
    ensures flags + CaptureFlags(n) + [if n == 0 then 0 else 2] == flags + CaptureFlags(n + 1)
    ensures before + FirstPages(c, |before|, n) + [c.lists(|before|, n)] == before + FirstPages(c, |before|, n + 1)
    ensures forall m: nat :: m <= |before| + n ==>
              (before + FirstPages(c, |before|, n + 1))[m] == PageOf(c, before, m)
  {
  }

  /** A capture stops at the last page, at the page limit, or at the first
      request that fails; only the first of these makes it complete. */
  ghost predicate Captures(c: Control, before: seq<Page>, patience: nat, max: nat, r: Result) {
    var n := |r.pages|;
    TakenSoFar(c, before, patience, r)
    && n <= max
    && (r.complete <==> n > 0 && !More(r.pages[n - 1]))
    && (r.requestCount == n || r.requestCount == n + 1)
    && (r.complete ==> r.requestCount == n)
    && (!r.complete && r.requestCount == n ==> n == max)
    && (r.requestCount == n + 1 ==> n < max && !Answered(c, before, patience, n) && (n > 0 ==> More(r.pages[n - 1])))
    && (r.requestCount == n + 1 ==>
          r.errors != [] && (r.errors[|r.errors| - 1].RequestFailed? || r.errors[|r.errors| - 1].TimedOut?))
    && (MaxPagesReached in r.warnings <==> !r.complete && r.requestCount == n)
    && (Empty in r.warnings <==> n == 0)
  }

  lemma FailedCaptures(c: Control, before: seq<Page>, patience: nat, max: nat, r: Result, r': Result)
    requires Underway(c, before, patience, r) && !LastTaken(r) && |r.pages| < max
    requires !Answered(c, before, patience, |r.pages|)
    requires r'.pages == r.pages && !r'.complete && r'.requestCount == r.requestCount + 1
    requires r'.errors != [] && (r'.errors[|r'.errors| - 1].RequestFailed? || r'.errors[|r'.errors| - 1].TimedOut?)
    requires r'.warnings == r.warnings + if r.pages == [] then [Empty] else []
    ensures Captures(c, before, patience, max, r')
  {
  }

  lemma RightlyEnded(c: Control, before: seq<Page>, patience: nat, max: nat, r: Result)
    requires Underway(c, before, patience, r) && 1 <= max
    requires LastTaken(r) || max <= |r.pages|
    requires |r.pages| <= max
    ensures LastTaken(r) ==> Captures(c, before, patience, max, r)
    ensures !LastTaken(r) ==> Captures(c, before, patience, max,
              r.(complete := false, warnings := r.warnings + [MaxPagesReached]))
  {
  }

  function Rows(pages: seq<Page>): seq<Record> {
    if pages == [] then [] else Rows(pages[..|pages| - 1]) + pages[|pages| - 1].rows
  }

  /** The rows of the first n pages of a list. */
  function ServerRows(c: Control, first: nat, n: nat): seq<Record> {
    if n == 0 then [] else ServerRows(c, first, n - 1) + c.lists(first, n - 1).rows
  }

  lemma {:induction false} RowsOfPrefix(c: Control, first: nat, taken: seq<Page>)
    requires forall k :: 0 <= k < |taken| ==> taken[k] == c.lists(first, k)
    ensures Rows(taken) == ServerRows(c, first, |taken|)
  {
    if taken != [] {
      RowsOfPrefix(c, first, taken[..|taken| - 1]);
    }
  }

  /** The list that request first opens ends with page n. */
  ghost predicate ListEnds(c: Control, first: nat, n: nat) {
    n >= 1 && !More(c.lists(first, n - 1)) && forall k: nat :: k < n - 1 ==> More(c.lists(first, k))
  }

  lemma TakenPage(c: Control, before: seq<Page>, patience: nat, r: Result, k: nat)
    requires TakenSoFar(c, before, patience, r) && k < |r.pages|
    ensures Answered(c, before, patience, k)
    ensures Own(c, before, patience, k) ==> r.pages[k] == c.lists(|before|, k) && (k < |r.pages| - 1 ==> More(c.lists(|before|, k)))
  {
    assert r.pages[k] == PageOf(c, before, Source(c, before, patience, k).value);
  }

  lemma OwnRows(c: Control, before: seq<Page>, patience: nat, r: Result)
    requires TakenSoFar(c, before, patience, r) && forall k :: 0 <= k < |r.pages| ==> Own(c, before, patience, k)
    ensures Rows(r.pages) == ServerRows(c, |before|, |r.pages|)
  {
    forall k | 0 <= k < |r.pages| ensures r.pages[k] == c.lists(|before|, k) {
      TakenPage(c, before, patience, r, k);
    }
    RowsOfPrefix(c, |before|, r.pages);
  }

  /** With every request answered by its own page, a capture of a list of n pages
      holds the rows of its first min(n, max) pages, and is complete exactly when
      n <= max. */
  lemma CaptureIsTheServersList(c: Control, before: seq<Page>, patience: nat, max: nat, r: Result, n: nat)
    requires Captures(c, before, patience, max, r) && ListEnds(c, |before|, n)
    requires forall k: nat :: k < n && k < max ==> Own(c, before, patience, k)
    ensures |r.pages| == r.requestCount == (if n <= max then n else max)
    ensures r.complete <==> n <= max
    ensures Rows(r.pages) == ServerRows(c, |before|, if n <= max then n else max)
  {
    var taken := |r.pages|;
    if taken >= n {
      assert Own(c, before, patience, n - 1);
      TakenPage(c, before, patience, r, n - 1);
    } else {
      assert taken < max ==> Own(c, before, patience, taken);
      if taken > 0 {
        assert Own(c, before, patience, taken - 1);
        TakenPage(c, before, patience, r, taken - 1);
      }
    }
    OwnRows(c, before, patience, r);
  }

  /** A list without an end is cut at the limit and never complete. */
  lemma EndlessListIsCut(c: Control, before: seq<Page>, patience: nat, max: nat, r: Result)
    requires Captures(c, before, patience, max, r) && forall k: nat :: More(c.lists(|before|, k))
    requires forall k: nat :: k < max ==> Own(c, before, patience, k)
    ensures |r.pages| == r.requestCount == max && !r.complete
  {
    var taken := |r.pages|;
    assert taken < max ==> Own(c, before, patience, taken);
    if taken > 0 {
      assert Own(c, before, patience, taken - 1);
      TakenPage(c, before, patience, r, taken - 1);
    }
  }

  /** A request that is refused or times out before the list has ended leaves
      exactly the pages before it, that one request more, and no completeness. */
  lemma FaultLeavesThePrefix(c: Control, before: seq<Page>, patience: nat, max: nat, r: Result, k: nat)
    requires Captures(c, before, patience, max, r)
    requires k < max && !Answered(c, before, patience, k)
    requires forall j: nat :: j < k ==> Own(c, before, patience, j) && More(c.lists(|before|, j))
    ensures |r.pages| == k && r.requestCount == k + 1 && !r.complete
    ensures Rows(r.pages) == ServerRows(c, |before|, k)
  {
    var taken := |r.pages|;
    if taken > k {
      TakenPage(c, before, patience, r, k);
    } else {
      assert taken < k ==> Own(c, before, patience, taken);
      if taken > 0 {
        assert Own(c, before, patience, taken - 1) && More(c.lists(|before|, taken - 1));
        TakenPage(c, before, patience, r, taken - 1);
      }
    }
    OwnRows(c, before, patience, r);
  }

  // -------------------------------------------------------------- late pages

  /** In the wait of request n a page is delivered, in time, before its own. */
  ghost predicate Overtaken(c: Control, n: nat, patience: nat) {
    exists p: nat :: p <= patience && c.deliveries(n, p) != [] && forall q: nat :: q <= p ==> n !in c.deliveries(n, q)
  }

  /** Its own page is delivered in time and nothing before it. */
  ghost predicate InTime(c: Control, n: nat, patience: nat) {
    exists p: nat :: p <= patience && n in c.deliveries(n, p) && forall q: nat :: q < p ==> c.deliveries(n, q) == []
  }

  /** From poll p on, poll q is the first that delivers, and m comes last there. */
  ghost predicate FirstAt(c: Control, n: nat, p: nat, q: nat, m: nat) {
    p <= q && Delivers(c, n, q, m) && forall x: nat :: p <= x < q ==> c.deliveries(n, x) == []
  }

  lemma {:induction false} FirstDeliveryMeans(c: Control, n: nat, p: nat, patience: nat)
    requires p <= patience
    ensures FirstDelivery(c, n, p, patience).None? ==> forall q: nat :: p <= q <= patience ==> c.deliveries(n, q) == []
    ensures FirstDelivery(c, n, p, patience).Some? ==>
              exists q: nat :: q <= patience && FirstAt(c, n, p, q, FirstDelivery(c, n, p, patience).value)
    decreases patience - p
  {
    if c.deliveries(n, p) != [] {
      assert FirstAt(c, n, p, p, FirstDelivery(c, n, p, patience).value);
    } else if p < patience {
      FirstDeliveryMeans(c, n, p + 1, patience);
      var later := FirstDelivery(c, n, p + 1, patience);
      if later.Some? {
        var q: nat :| q <= patience && FirstAt(c, n, p + 1, q, later.value);
        assert FirstAt(c, n, p, q, later.value);
      }
    }
  }

  /** m is the last delivered at that poll. */
  predicate Delivers(c: Control, n: nat, p: nat, m: nat) {
    c.deliveries(n, p) != [] && c.deliveries(n, p)[|c.deliveries(n, p)| - 1] == m
  }

  /** At one poll the own page comes last. */
  lemma OwnComesLast(c: Control, n: nat, p: nat)
    requires Orderly(c)
    ensures n in c.deliveries(n, p) <==> Delivers(c, n, p, n)
  {
    assert DeliversInOrder(c.deliveries(n, p), n);
  }

  /** An accepted request returns its own page exactly when that is in time and
      nothing was delivered before it, and the page of another request exactly
      when one is delivered before its own: nothing tells the two apart. */
  lemma RequestReturnsItsOwnExactlyWhen(c: Control, n: nat, patience: nat)
    requires Orderly(c) && c.codes(n) >= 0
    ensures Taken(c, n, patience) == Some(n) <==> InTime(c, n, patience)
    ensures (Taken(c, n, patience).Some? && Taken(c, n, patience) != Some(n)) <==> Overtaken(c, n, patience)
  {
    FirstDeliveryMeans(c, n, 0, patience);
    forall p: nat ensures n in c.deliveries(n, p) <==> Delivers(c, n, p, n) {
      OwnComesLast(c, n, p);
    }
  }

  /** The wait of the k-th request of a capture is. */
  ghost predicate OvertakenAt(c: Control, before: seq<Page>, patience: nat, k: nat) {
    Overtaken(c, |before| + k, patience)
  }

  lemma OwnExactlyWhen(c: Control, before: seq<Page>, patience: nat, k: nat)
    requires Orderly(c) && Answered(c, before, patience, k)
    ensures Own(c, before, patience, k) <==> !OvertakenAt(c, before, patience, k)
  {
    RequestReturnsItsOwnExactlyWhen(c, |before| + k, patience);
  }

  ghost predicate AllOwn(c: Control, before: seq<Page>, patience: nat, r: Result) {
    forall k: nat :: k < |r.pages| ==> Own(c, before, patience, k)
  }

  ghost predicate NoneOvertaken(c: Control, before: seq<Page>, patience: nat, r: Result) {
    forall k: nat :: k < |r.pages| ==> !OvertakenAt(c, before, patience, k)
  }

  /** So the pages of a capture are its own requests' pages exactly when none of
      its waits was overtaken. */
  lemma CaptureIsItsOwnExactlyWhen(c: Control, before: seq<Page>, patience: nat, max: nat, r: Result)
    requires Orderly(c) && Captures(c, before, patience, max, r)
    ensures AllOwn(c, before, patience, r) <==> NoneOvertaken(c, before, patience, r)
  {
    forall k: nat | k < |r.pages| ensures Own(c, before, patience, k) <==> !OvertakenAt(c, before, patience, k) {
      TakenPage(c, before, patience, r, k);
      OwnExactlyWhen(c, before, patience, k);
    }
  }

  /** And it can be: request 0 times out, its page is delivered at the first poll
      of request 1, whose own page comes a poll later. */
  function LateControl(lists: (nat, nat) -> Page): Control {
    Control(lists, n => 0, (n, p) => if n == 1 && p == 1 then [0] else if n == 1 && p == 2 then [1] else [])
  }

  /** Then a first capture holds nothing, and a second one, opening a list of its
      own, holds the first one's page; if that announces no more, it is taken for
      the complete answer. */
  lemma LatePageIsTakenForAnother(lists: (nat, nat) -> Page, patience: nat, max: nat, first: Result, second: Result)
    requires patience >= 2 && max >= 1 && !More(lists(0, 0))
    requires Captures(LateControl(lists), [], patience, max, first)
    requires Captures(LateControl(lists), [lists(0, 0)], patience, max, second)
    ensures Orderly(LateControl(lists))
    ensures first.pages == [] && !first.complete && first.requestCount == 1
    ensures second.pages == [lists(0, 0)] && second.complete && second.requestCount == 1
  {
    var c := LateControl(lists);
    FirstDeliveryMeans(c, 0, 0, patience);
    assert FirstDelivery(c, 1, 0, patience) == FirstDelivery(c, 1, 1, patience) == Some(0);
    assert Source(c, [], patience, 0) == None && Source(c, [lists(0, 0)], patience, 0) == Some(0);
    assert second.pages != [] ==> second.pages[0] == lists(0, 0);
  }

  method CollectRows(pages: seq<Page>) returns (rows: seq<Record>)
    ensures rows == Rows(pages)
  {
    rows := [];
    for i := 0 to |pages|
      invariant rows == Rows(pages[..i])
    {
      rows := rows + pages[i].rows;
      assert pages[..i + 1][..i] == pages[..i];
    }
    assert pages[..|pages|] == pages;
  }

  // ------------------------------------------------------------ merged single

  ghost predicate Has(page: Page, key: string) {
    key in page.single
  }

  /** merged holds every key of the pages with its last non-empty value. */
  ghost predicate Merges(pages: seq<Page>, merged: map<string, string>) {
    (forall key :: key in merged <==> exists k :: 0 <= k < |pages| && Has(pages[k], key))
    && forall key :: key in merged ==> LastValue(pages, key, merged[key])
  }

  ghost predicate LastValue(pages: seq<Page>, key: string, value: string) {
    if value == "" then forall k :: 0 <= k < |pages| && Has(pages[k], key) ==> pages[k].single[key] == ""
    else exists k :: 0 <= k < |pages| && Has(pages[k], key) && pages[k].single[key] == value
           && forall j :: k < j < |pages| && Has(pages[j], key) ==> pages[j].single[key] == ""
  }

  function MergePage(merged: map<string, string>, single: map<string, string>): map<string, string> {
    map key | key in merged.Keys + single.Keys ::
      if key in single && (single[key] != "" || key !in merged) then single[key] else merged[key]
  }

  lemma MergeOnePage(pages: seq<Page>, merged: map<string, string>, page: Page)
    requires Merges(pages, merged)
    ensures Merges(pages + [page], MergePage(merged, page.single))
  {
    var all, merged' := pages + [page], MergePage(merged, page.single);
    forall key ensures key in merged' <==> exists k :: 0 <= k < |all| && Has(all[k], key) {
      if key in merged {
        var k :| 0 <= k < |pages| && Has(pages[k], key);
        assert Has(all[k], key);
      }
      if key in page.single {
        assert Has(all[|pages|], key);
      }
    }
    forall key | key in merged' ensures LastValue(all, key, merged'[key]) {
      MergeOneKey(pages, merged, page, key);
    }
  }

  lemma MergeOneKey(pages: seq<Page>, merged: map<string, string>, page: Page, key: string)
    requires Merges(pages, merged) && key in MergePage(merged, page.single)
    ensures LastValue(pages + [page], key, MergePage(merged, page.single)[key])
  {
    var all, value := pages + [page], MergePage(merged, page.single)[key];
    if key in page.single && page.single[key] != "" {
      assert Has(all[|pages|], key) && all[|pages|].single[key] == value;
    } else if key in merged {
      if value != "" {
        var k :| 0 <= k < |pages| && Has(pages[k], key) && pages[k].single[key] == value
          && forall j :: k < j < |pages| && Has(pages[j], key) ==> pages[j].single[key] == "";
        assert Has(all[k], key) && all[k].single[key] == value;
      }
    } else {
      assert forall k :: 0 <= k < |pages| ==> !Has(pages[k], key);
    }
  }

  method MergedSingle(pages: seq<Page>) returns (merged: map<string, string>)
    ensures Merges(pages, merged)
  {
    merged := map[];
    for i := 0 to |pages|
      invariant Merges(pages[..i], merged)
    {
      MergeOnePage(pages[..i], merged, pages[i]);
      assert pages[..i + 1] == pages[..i] + [pages[i]];
      merged := MergeInto(merged, pages[i].single);
    }
    assert pages[..|pages|] == pages;
  }

  /** The fields of a page that have been looked at. */
  function Seen(single: map<string, string>, todo: set<string>): map<string, string> {
    map key | key in single && key !in todo :: single[key]
  }

  lemma MergeOneField(merged: map<string, string>, single: map<string, string>, todo: set<string>, key: string)
    requires key in todo && key in single
    ensures var before := MergePage(merged, Seen(single, todo));
            MergePage(merged, Seen(single, todo - {key})) ==
              if single[key] != "" || key !in before then before[key := single[key]] else before
  {
    var before, after := MergePage(merged, Seen(single, todo)), MergePage(merged, Seen(single, todo - {key}));
    assert after.Keys == before.Keys + {key};
  }

  /** The loop over one page's fields, in any order. */
  method MergeInto(merged: map<string, string>, single: map<string, string>) returns (merged': map<string, string>)
    ensures merged' == MergePage(merged, single)
  {
    merged' := merged;
    var todo := single.Keys;
    assert merged' == MergePage(merged, Seen(single, todo));
    while |todo| > 0
      invariant todo <= single.Keys && merged' == MergePage(merged, Seen(single, todo))
      decreases |todo|
    {
      var key :| key in todo;
      MergeOneField(merged, single, todo, key);
      if single[key] != "" || key !in merged' {
        merged' := merged'[key := single[key]];
      }
      todo := todo - {key};
    }
    assert Seen(single, todo) == single;
  }
}
