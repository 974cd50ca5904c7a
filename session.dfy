/**
  session.go: the keep-alive loop's failure budget, the resize decision of
  SendWinChange, and SetEnvs' "last error wins" loop. The keep-alive ticker,
  the terminal measurement and the SSH requests are foreign: the loop sees a
  sequence of events, the resize decision sees the measurement's and the
  request's results, SetEnvs sees the result of each Setenv request.
*/
module Session {
  import opened Wrappers
  import opened Errors

  // ---------------------------------------------------------------------------
  // KeepAlive

  /** What the keep-alive goroutine's select receives: a tick (with whether that send failed) or the cancellation. */
  datatype KeepAliveEvent = Tick(sendFailed: bool) | Cancel

  /** How the keep-alive activity ended, or that it is still running when the events run out. */
  datatype LoopExit = NotStarted | CancelledExit | BudgetExhausted | StillRunning

  /**
    The keep-alive activity over a sequence of events: how it ended, how many
    events it consumed, how many keepalive requests it sent, and the failure
    budget it has left.
  */
  datatype KeepAliveRun = KeepAliveRun(exit: LoopExit, consumed: nat, sends: nat, budget: int)

  /** The run after k earlier events, s of them sends. */
  function Later(k: nat, s: nat, r: KeepAliveRun): KeepAliveRun
  {
    r.(consumed := r.consumed + k, sends := r.sends + s)
  }

  /** The loop for maxErrRetries <= 0: every tick sends and send errors are ignored. */
  function UnlimitedLoop(events: seq<KeepAliveEvent>, budget: int): (r: KeepAliveRun)
    ensures r.consumed <= |events|
    ensures r.exit != StillRunning ==> 1 <= r.consumed
  {
    if events == [] then KeepAliveRun(StillRunning, 0, 0, budget)
    else if events[0].Cancel? then KeepAliveRun(CancelledExit, 1, 0, budget)
    else Later(1, 1, UnlimitedLoop(events[1..], budget))
  }

  /**
    The loop for maxErrRetries > 0, as written: a failed send when the budget
    is 0 ends the loop, any other failed send takes one from the budget.
  */
  function LimitedLoop(events: seq<KeepAliveEvent>, budget: int): (r: KeepAliveRun)
    ensures r.consumed <= |events|
    ensures r.exit != StillRunning ==> 1 <= r.consumed
  {
    if events == [] then KeepAliveRun(StillRunning, 0, 0, budget)
    else if events[0].Cancel? then KeepAliveRun(CancelledExit, 1, 0, budget)
    else if !events[0].sendFailed then Later(1, 1, LimitedLoop(events[1..], budget))
    else if budget <= 0 then KeepAliveRun(BudgetExhausted, 1, 1, budget)
    else Later(1, 1, LimitedLoop(events[1..], budget - 1))
  }

  /** KeepAlive: no activity for a non-positive interval, otherwise one of the two loops. */
  function KeepAliveSpec(interval: int, maxErrRetries: int, events: seq<KeepAliveEvent>): KeepAliveRun
  {
    if interval <= 0 then KeepAliveRun(NotStarted, 0, 0, maxErrRetries)
    else if maxErrRetries <= 0 then UnlimitedLoop(events, maxErrRetries)
    else LimitedLoop(events, maxErrRetries)
  }

  /**
    KeepAlive with its background activity run over `events`: a non-positive
    interval starts nothing; otherwise the loop for the given maxErrRetries runs.
  */
  method KeepAlive(interval: int, maxErrRetries: int, events: seq<KeepAliveEvent>) returns (r: KeepAliveRun)
    ensures r == KeepAliveSpec(interval, maxErrRetries, events)
  {
    if interval <= 0 {
      return KeepAliveRun(NotStarted, 0, 0, maxErrRetries);
    }
    var k, sends := 0, 0;
    if maxErrRetries <= 0 {
      while k < |events|
        invariant 0 <= k <= |events| && sends == k
        invariant UnlimitedLoop(events, maxErrRetries) == Later(k, sends, UnlimitedLoop(events[k..], maxErrRetries))
      {
        assert events[k..][1..] == events[k + 1..];
        if events[k].Cancel? {
          return KeepAliveRun(CancelledExit, k + 1, sends, maxErrRetries);
        }
        sends, k := sends + 1, k + 1;
      }
      return KeepAliveRun(StillRunning, k, sends, maxErrRetries);
    }
    var budget := maxErrRetries;
    while k < |events|
      invariant 0 <= k <= |events| && sends == k
      invariant LimitedLoop(events, maxErrRetries) == Later(k, sends, LimitedLoop(events[k..], budget))
    {
      assert events[k..][1..] == events[k + 1..];
      match events[k]
      case Cancel =>
        return KeepAliveRun(CancelledExit, k + 1, sends, budget);
      case Tick(failed) =>
        sends := sends + 1;
        if failed {
          if budget <= 0 {
            return KeepAliveRun(BudgetExhausted, k + 1, sends, budget);
          }
          budget := budget - 1;
        }
        k := k + 1;
    }
    return KeepAliveRun(StillRunning, k, sends, budget);
  }

  /** The number of failed sends among the events. */
  function Failures(events: seq<KeepAliveEvent>): nat
  {
    if events == [] then 0
    else (if events[0] == Tick(true) then 1 else 0) + Failures(events[1..])
  }

  /** The number of ticks among the events. */
  function Ticks(events: seq<KeepAliveEvent>): nat
  {
    if events == [] then 0
    else (if events[0].Tick? then 1 else 0) + Ticks(events[1..])
  }

  /** A prefix of a non-empty event sequence splits into its first event and a prefix of the rest. */
  lemma ConsPrefix(events: seq<KeepAliveEvent>, m: nat)
    requires m < |events|
    ensures var tail := events[1..][..m];
      && events[..m + 1] == [events[0]] + tail
      && Ticks(events[..m + 1]) == (if events[0].Tick? then 1 else 0) + Ticks(tail)
      && Failures(events[..m + 1]) == (if events[0] == Tick(true) then 1 else 0) + Failures(tail)
      && (Cancel in events[..m + 1] <==> events[0] == Cancel || Cancel in tail)
  {
    var tail := events[1..][..m];
    assert events[..m + 1] == [events[0]] + tail;
    assert ([events[0]] + tail)[1..] == tail;
  }

  /**
    What a budgeted run says about the events it consumed, for a loop that
    started with `budget` and stops at the `limit`-th failed send.
  */
  ghost predicate Accounts(events: seq<KeepAliveEvent>, r: KeepAliveRun, budget: int, limit: int)
  {
    && r.consumed <= |events| && r.sends == Ticks(events[..r.consumed]) && r.exit != NotStarted
    && (r.exit == StillRunning ==>
          r.consumed == |events| && Cancel !in events && Failures(events) < limit
          && r.budget == budget - Failures(events))
    && (r.exit == CancelledExit ==>
          r.consumed >= 1 && events[r.consumed - 1] == Cancel && Cancel !in events[..r.consumed - 1]
          && Failures(events[..r.consumed]) < limit && r.budget == budget - Failures(events[..r.consumed]))
    && (r.exit == BudgetExhausted ==>
          r.consumed >= 1 && events[r.consumed - 1] == Tick(true) && Cancel !in events[..r.consumed]
          && Failures(events[..r.consumed]) == limit && r.budget == 0)
  }

  /** A tick that does not end the loop keeps what the rest of the run accounts for. */
  lemma TickStep(events: seq<KeepAliveEvent>, rest: KeepAliveRun, budget: int, limit: int)
    requires events != [] && events[0].Tick?
    requires var f := if events[0].sendFailed then 1 else 0;
      Accounts(events[1..], rest, budget - f, limit - f)
    ensures Accounts(events, Later(1, 1, rest), budget, limit)
  {
    var tail := events[1..];
    ConsPrefix(events, rest.consumed);
    if rest.exit == StillRunning {
      assert events[..|events|] == events;
      assert tail[..|tail|] == tail;
    }
    if rest.exit == CancelledExit {
      ConsPrefix(events, rest.consumed - 1);
    }
  }

  /**
    With maxErrRetries = N > 0, as written: the budget never goes negative and
    is N less the failures so far (successes never restore it); the loop ends
    on the failure that finds it at 0, the (N+1)-th, unless a cancellation
    comes first; every tick it consumed sent a request.
  */
  lemma {:induction false} LimitedLoopBudget(events: seq<KeepAliveEvent>, budget: nat)
    ensures var r := LimitedLoop(events, budget); var done := events[..r.consumed];
      && r.consumed <= |events| && r.budget >= 0 && r.sends == Ticks(done)
      && (r.exit == StillRunning ==>
            r.consumed == |events| && Cancel !in events && Failures(events) <= budget
            && r.budget == budget - Failures(events))
      && (r.exit == CancelledExit ==>
            r.consumed >= 1 && events[r.consumed - 1] == Cancel && Cancel !in events[..r.consumed - 1]
            && Failures(done) <= budget && r.budget == budget - Failures(done))
      && (r.exit == BudgetExhausted ==>
            r.consumed >= 1 && events[r.consumed - 1] == Tick(true) && Cancel !in done
            && Failures(done) == budget + 1 && r.budget == 0)
      && r.exit != NotStarted
  {
    if events != [] {
      var r := LimitedLoop(events, budget);
      var e := events[0];
      if e.Tick? && !(e.sendFailed && budget == 0) {
        var b' := if e.sendFailed then budget - 1 else budget;
        LimitedLoopBudget(events[1..], b');
        var rest := LimitedLoop(events[1..], b');
        assert r == Later(1, 1, rest);
        TickStep(events, rest, budget, budget + 1);
      } else {
        ConsPrefix(events, 0);
      }
    }
  }

  /**
    With maxErrRetries <= 0: send failures never stop the loop; it ends
    exactly when a cancellation arrives, and every tick before it sent a request.
  */
  lemma {:induction false} UnlimitedLoopRunsUntilCancel(events: seq<KeepAliveEvent>, budget: int)
    ensures var r := UnlimitedLoop(events, budget);
      && (r.exit == CancelledExit <==> Cancel in events)
      && (r.exit != CancelledExit ==> r.exit == StillRunning && r.consumed == |events|)
      && (r.exit == CancelledExit ==> r.consumed >= 1 && events[r.consumed - 1] == Cancel
                                      && Cancel !in events[..r.consumed - 1])
      && r.sends == Ticks(events[..r.consumed]) && r.budget == budget
  {
    if events != [] {
      var r := UnlimitedLoop(events, budget);
      var e := events[0];
      assert events == [e] + events[1..];
      if e.Tick? {
        UnlimitedLoopRunsUntilCancel(events[1..], budget);
        var rest := UnlimitedLoop(events[1..], budget);
        assert events[..r.consumed] == [e] + events[1..][..rest.consumed];
        assert ([e] + events[1..][..rest.consumed])[1..] == events[1..][..rest.consumed];
        if rest.exit == CancelledExit {
          assert events[..r.consumed - 1] == [e] + events[1..][..rest.consumed - 1];
        }
      } else {
        assert events[..r.consumed] == [Cancel];
        assert [Cancel][1..] == [];
        assert events[..r.consumed - 1] == [];
      }
    }
  }

  /**
    The loop the doc comment of KeepAlive describes: it stops once the number
    of failed sends reaches maxErrRetries.
  */
  function LimitedLoopIntended(events: seq<KeepAliveEvent>, budget: int): (r: KeepAliveRun)
    ensures r.consumed <= |events|
    ensures r.exit != StillRunning ==> 1 <= r.consumed
  {
    if events == [] then KeepAliveRun(StillRunning, 0, 0, budget)
    else if events[0].Cancel? then KeepAliveRun(CancelledExit, 1, 0, budget)
    else if !events[0].sendFailed then Later(1, 1, LimitedLoopIntended(events[1..], budget))
    else if budget <= 1 then KeepAliveRun(BudgetExhausted, 1, 1, budget - 1)
    else Later(1, 1, LimitedLoopIntended(events[1..], budget - 1))
  }

  /** The intended loop, for maxErrRetries = N > 0, stops at the N-th failed send and not before. */
  lemma {:induction false} IntendedLoopStopsAtNthFailure(events: seq<KeepAliveEvent>, budget: nat)
    requires budget >= 1
    ensures var r := LimitedLoopIntended(events, budget); var done := events[..r.consumed];
      && r.consumed <= |events| && r.sends == Ticks(done)
      && (r.exit == BudgetExhausted ==>
            r.consumed >= 1 && events[r.consumed - 1] == Tick(true) && Cancel !in done
            && Failures(done) == budget && r.budget == 0)
      && (r.exit == StillRunning ==>
            r.consumed == |events| && Cancel !in events && Failures(events) < budget
            && r.budget == budget - Failures(events))
      && (r.exit == CancelledExit ==>
            r.consumed >= 1 && events[r.consumed - 1] == Cancel && Cancel !in events[..r.consumed - 1]
            && Failures(done) < budget && r.budget == budget - Failures(done))
      && r.exit != NotStarted
  {
    if events != [] {
      var r := LimitedLoopIntended(events, budget);
      var e := events[0];
      if e.Tick? && !(e.sendFailed && budget <= 1) {
        var b' := if e.sendFailed then budget - 1 else budget;
        IntendedLoopStopsAtNthFailure(events[1..], b');
        var rest := LimitedLoopIntended(events[1..], b');
        assert r == Later(1, 1, rest);
        TickStep(events, rest, budget, budget);
      } else {
        ConsPrefix(events, 0);
      }
    }
  }

  /**
    The discrepancy: with maxErrRetries = 1, one failed send leaves the loop
    as written running, while the documented loop stops.
  */
  lemma OneFailureWithBudgetOne()
    ensures LimitedLoop([Tick(true)], 1).exit == StillRunning
    ensures LimitedLoopIntended([Tick(true)], 1).exit == BudgetExhausted
  {
    assert [Tick(true)][1..] == [];
  }

  // ---------------------------------------------------------------------------
  // SendWinChange

  datatype TermSize = TermSize(width: int, height: int)

  /**
    What SendWinChange returns (width, height, error) and the window-change
    request it sent, if any; the request goes out as WindowChange(height, width).
  */
  datatype WinChange = WinChange(width: int, height: int, err: Option<Err>, request: Option<TermSize>)

  /**
    SendWinChange: `measured` is term.GetSize's result and `sendErr` the
    result of the request, consulted only when one is sent. A failed
    measurement returns the old size and its error; an unchanged size returns
    it with nil and sends nothing; a changed size is sent, and the result is
    the old size with the request's error or the new size with nil.
  */
  function SendWinChange(oldHeight: int, oldWidth: int, measured: Result<TermSize, Err>, sendErr: Option<Err>): (r: WinChange)
    ensures measured.Failure? ==> r == WinChange(oldWidth, oldHeight, Some(measured.error), None)
    ensures measured.Success? && measured.value == TermSize(oldWidth, oldHeight) ==>
              r == WinChange(oldWidth, oldHeight, None, None)
    ensures r.request.Some? <==> measured.Success? && measured.value != TermSize(oldWidth, oldHeight)
    ensures r.request.Some? ==> r.request.value == measured.value && r.err == sendErr
    ensures r.err.None? ==> measured.Success? && TermSize(r.width, r.height) == measured.value
    ensures r.err.Some? ==> TermSize(r.width, r.height) == TermSize(oldWidth, oldHeight)
  {
    if measured.Failure? then WinChange(oldWidth, oldHeight, Some(measured.error), None)
    else
      var size := measured.value;
      if size.height == oldHeight && size.width == oldWidth then WinChange(size.width, size.height, None, None)
      else if sendErr.Some? then WinChange(oldWidth, oldHeight, sendErr, Some(size))
      else WinChange(size.width, size.height, None, Some(size))
  }

  /** The size the remote side knows after a call: the request's, if it was sent without error. */
  function RemoteAfter(remote: TermSize, r: WinChange): TermSize
  {
    if r.request.Some? && r.err.None? then r.request.value else remote
  }

  /**
    The size SendWinChange returns is the size the remote side knows, provided
    the size passed in was: feeding each result into the next call keeps the
    caller's size and the remote's in step.
  */
  lemma WinChangeTracksRemote(remote: TermSize, oldHeight: int, oldWidth: int,
                              measured: Result<TermSize, Err>, sendErr: Option<Err>)
    requires remote == TermSize(oldWidth, oldHeight)
    ensures var r := SendWinChange(oldHeight, oldWidth, measured, sendErr);
      RemoteAfter(remote, r) == TermSize(r.width, r.height)
  {
  }

  // ---------------------------------------------------------------------------
  // SetEnvs

  /** `order` is an iteration order of the map: each key exactly once. */
  predicate IsIterationOrder(order: seq<string>, envs: map<string, string>)
  {
    && (forall j | 0 <= j < |order| :: order[j] in envs)
    && (forall key | key in envs :: key in order)
    && (forall a, b | 0 <= a < b < |order| :: order[a] != order[b])
  }

  /** The result of the j-th Setenv request; past the script, success. */
  function ReplyOf(replies: seq<Option<Err>>, j: nat): Option<Err>
  {
    if j < |replies| then replies[j] else None
  }

  /** The error of the last failing request among the first n, or nil. */
  function LastFailure(replies: seq<Option<Err>>, n: nat): Option<Err>
  {
    if n == 0 then None
    else if ReplyOf(replies, n - 1).Some? then ReplyOf(replies, n - 1)
    else LastFailure(replies, n - 1)
  }

  /**
    LastFailure is nil exactly when every request succeeded, and otherwise the
    error of a failed request after which every request succeeded.
  */
  lemma {:induction false} LastFailureIsLast(replies: seq<Option<Err>>, n: nat)
    ensures LastFailure(replies, n).None? <==> forall j | 0 <= j < n :: ReplyOf(replies, j).None?
    ensures LastFailure(replies, n).Some? ==>
      exists j | 0 <= j < n :: && ReplyOf(replies, j) == LastFailure(replies, n)
                               && forall l | j < l < n :: ReplyOf(replies, l).None?
  {
    if n > 0 && ReplyOf(replies, n - 1).None? {
      LastFailureIsLast(replies, n - 1);
      if LastFailure(replies, n).Some? {
        var j :| 0 <= j < n - 1 && ReplyOf(replies, j) == LastFailure(replies, n - 1)
                 && forall l | j < l < n - 1 :: ReplyOf(replies, l).None?;
        assert forall l | j < l < n :: ReplyOf(replies, l).None?;
      }
    }
  }

  /**
    SetEnvs: a nil map sets nothing and returns nil; otherwise every entry is
    requested, in iteration order, whatever the earlier requests returned,
    and the error of the last failing request is returned.
  */
  method SetEnvs(envs: Option<map<string, string>>, order: seq<string>, replies: seq<Option<Err>>)
    returns (err: Option<Err>, requests: seq<(string, string)>)
    requires envs.Some? ==> IsIterationOrder(order, envs.value)
    ensures envs.None? ==> err.None? && requests == []
    ensures envs.Some? ==> && |requests| == |order|
                           && (forall j | 0 <= j < |order| :: requests[j] == (order[j], envs.value[order[j]]))
                           && (forall key | key in envs.value :: (key, envs.value[key]) in requests)
                           && err == LastFailure(replies, |order|)
  {
    err, requests := None, [];
    if envs.None? {
      return;
    }
    var m := envs.value;
    for j := 0 to |order|
      invariant |requests| == j
      invariant forall l | 0 <= l < j :: requests[l] == (order[l], m[order[l]])
      invariant err == LastFailure(replies, j)
    {
      var key := order[j];
      var e := ReplyOf(replies, j);
      requests := requests + [(key, m[key])];
      if e.Some? {
        err := e;
      }
    }
    forall key | key in m
      ensures (key, m[key]) in requests
    {
      var j :| 0 <= j < |order| && order[j] == key;
      assert requests[j] == (key, m[key]);
    }
  }
}
