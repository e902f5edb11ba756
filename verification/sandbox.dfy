/** The round trip to the isolated rendering frame (utils/sandbox.ts): the
    `retry` policy and the request/response correlation of `sendMessage`.
    Time is abstract: a wait is recorded as its delay, and the timer firing
    and incoming messages are events. */
module Sandbox {

  // ---------------------------------------------------------------------
  // retry

  /** What one call of the task did. */
  datatype Attempt<T> = Returned(value: T) | Threw(error: string)

  /** How a run of `retry` ended: with the task's value, by rethrowing its
      last error, or still waiting to call the task again when the given
      attempts ran out. */
  datatype RetryEnd<T> = Resolves(value: T) | Rethrows(error: string) | StillRetrying

  /** A run of `retry`: how it ended, the delays it waited in order, and how
      many times it called the task. */
  datatype RetryRun<T> = RetryRun(end: RetryEnd<T>, waits: seq<int>, calls: nat)

  const DefaultBaseMs: int := 500
  const DefaultAttempts: int := 5

  /** All of the first `n` attempts threw. */
  predicate AllThrew<T>(outcomes: seq<Attempt<T>>, n: nat)
    requires n <= |outcomes|
  {
    forall i :: 0 <= i < n ==> outcomes[i].Threw?
  }

  /** The `(baseMs, attempts)` pair the `k`-th call (from 0) receives. */
  function RetryArgs(baseMs: int, attempts: int, k: nat): (int, int)
    decreases k
  {
    if k == 0 then (baseMs, attempts) else RetryArgs(attempts - 1, baseMs * 2, k - 1)
  }

  /** `retry(task, baseMs, attempts)` run against the outcomes of successive
      task calls. On a failure with `attempts >= 1` it waits `baseMs` and
      recurses with `(attempts - 1)` in the `baseMs` position and
      `(baseMs * 2)` in the `attempts` position, exactly as the source
      passes them. The run resolves with the first returned value, rejects
      with the error of the call that found `attempts < 1`, and waits once
      before every call but the first. */
  function Retry<T>(outcomes: seq<Attempt<T>>, baseMs: int, attempts: int): (r: RetryRun<T>)
    ensures r.calls <= |outcomes|
    ensures r.end.StillRetrying? ==> r.calls == |outcomes| && |r.waits| == r.calls
    ensures !r.end.StillRetrying? ==> r.calls > 0 && |r.waits| == r.calls - 1
    ensures r.end.Resolves? ==>
              AllThrew(outcomes, r.calls - 1) && outcomes[r.calls - 1] == Returned(r.end.value)
    ensures r.end.Rethrows? ==>
              AllThrew(outcomes, r.calls) && outcomes[r.calls - 1] == Threw(r.end.error)
    ensures r.end.StillRetrying? ==> AllThrew(outcomes, |outcomes|)
    ensures |r.waits| > 0 ==> r.waits[0] == baseMs
    ensures forall k :: 0 <= k < |r.waits| ==>
              r.waits[k] == RetryArgs(baseMs, attempts, k).0 && RetryArgs(baseMs, attempts, k).1 >= 1
    ensures r.end.Rethrows? ==> RetryArgs(baseMs, attempts, r.calls - 1).1 < 1
    decreases |outcomes|
  {
    if |outcomes| == 0 then RetryRun(StillRetrying, [], 0)
    else
      match outcomes[0]
      case Returned(v) => RetryRun(Resolves(v), [], 1)
      case Threw(e) =>
        if attempts < 1 then RetryRun(Rethrows(e), [], 1)
        else
          var rest := Retry(outcomes[1..], attempts - 1, baseMs * 2);
          RetryRun(rest.end, [baseMs] + rest.waits, rest.calls + 1)
  }

  /** A first call that returns is the result, with no wait. */
  lemma FirstSuccessNoWait<T>(outcomes: seq<Attempt<T>>, baseMs: int, attempts: int)
    requires |outcomes| > 0 && outcomes[0].Returned?
    ensures Retry(outcomes, baseMs, attempts) == RetryRun(Resolves(outcomes[0].value), [], 1)
  {
  }

  /** A failure while `attempts < 1` rethrows that very error, with no wait. */
  lemma NoAttemptsLeftRethrows<T>(outcomes: seq<Attempt<T>>, baseMs: int, attempts: int)
    requires |outcomes| > 0 && outcomes[0].Threw? && attempts < 1
    ensures Retry(outcomes, baseMs, attempts) == RetryRun(Rethrows(outcomes[0].error), [], 1)
  {
  }

  /** With the defaults, one failure and then a success resolves with that
      success after two calls and a single 500 ms wait. */
  lemma OneFailureThenSuccess<T>(e: string, v: T)
    ensures Retry([Threw(e), Returned(v)], DefaultBaseMs, DefaultAttempts)
            == RetryRun(Resolves(v), [500], 2)
  {
    assert [Threw(e), Returned(v)][1..] == [Returned(v)];
  }

  /** The pairs reachable from the defaults: the swapped recursion keeps
      `baseMs >= 2` and `attempts >= 3`. */
  predicate SwappedInvariant(baseMs: int, attempts: int) {
    baseMs >= 2 && attempts >= 3
  }

  /** From the defaults the `attempts` argument runs 5, 1000, 8, 1998, 14,
      and never falls below 1 however deep the recursion goes. */
  lemma {:induction false} AttemptsNeverRunOut(baseMs: int, attempts: int, k: nat)
    requires SwappedInvariant(baseMs, attempts)
    ensures SwappedInvariant(RetryArgs(baseMs, attempts, k).0, RetryArgs(baseMs, attempts, k).1)
    ensures RetryArgs(baseMs, attempts, k).1 >= 1
    decreases k
  {
    if k > 0 {
      AttemptsNeverRunOut(attempts - 1, baseMs * 2, k - 1);
    }
  }

  lemma DefaultAttemptsSequence()
    ensures SwappedInvariant(DefaultBaseMs, DefaultAttempts)
    ensures RetryArgs(500, 5, 1).1 == 1000 && RetryArgs(500, 5, 2).1 == 8
    ensures RetryArgs(500, 5, 3).1 == 1998 && RetryArgs(500, 5, 4).1 == 14
  {
  }

  /** A task that always throws is never given up on: however many failing
      calls are observed, `retry` has waited after each and is about to call
      again. */
  lemma {:induction false} AlwaysFailingNeverAbandoned<T>(outcomes: seq<Attempt<T>>, baseMs: int, attempts: int)
    requires SwappedInvariant(baseMs, attempts)
    requires AllThrew(outcomes, |outcomes|)
    ensures Retry(outcomes, baseMs, attempts).end == StillRetrying
    ensures Retry(outcomes, baseMs, attempts).calls == |outcomes|
    decreases |outcomes|
  {
    if |outcomes| > 0 {
      assert outcomes[0].Threw?;
      AlwaysFailingNeverAbandoned(outcomes[1..], attempts - 1, baseMs * 2);
    }
  }

  /** `retry` with the arguments in the order its signature declares:
      `retry(task, baseMs * 2, attempts - 1)`. */
  function RetryIntended<T>(outcomes: seq<Attempt<T>>, baseMs: int, attempts: int): (r: RetryRun<T>)
    ensures r.calls <= |outcomes|
    ensures r.end.StillRetrying? ==> r.calls == |outcomes| && |r.waits| == r.calls
    ensures !r.end.StillRetrying? ==> r.calls > 0 && |r.waits| == r.calls - 1
    ensures r.end.Resolves? ==>
              AllThrew(outcomes, r.calls - 1) && outcomes[r.calls - 1] == Returned(r.end.value)
    ensures r.end.Rethrows? ==>
              AllThrew(outcomes, r.calls) && outcomes[r.calls - 1] == Threw(r.end.error)
    ensures |r.waits| > 0 ==> r.waits[0] == baseMs
    ensures attempts >= 0 ==> r.calls <= attempts + 1
    decreases |outcomes|
  {
    if |outcomes| == 0 then RetryRun(StillRetrying, [], 0)
    else
      match outcomes[0]
      case Returned(v) => RetryRun(Resolves(v), [], 1)
      case Threw(e) =>
        if attempts < 1 then RetryRun(Rethrows(e), [], 1)
        else
          var rest := RetryIntended(outcomes[1..], baseMs * 2, attempts - 1);
          RetryRun(rest.end, [baseMs] + rest.waits, rest.calls + 1)
  }

  /** With the intended order and the defaults, an always-failing task is
      called six times, waits 500, 1000, 2000, 4000 and 8000 ms in between,
      and then its last error is rethrown. */
  lemma {:induction false} IntendedGivesUpAfterSixCalls<T>(outcomes: seq<Attempt<T>>)
    requires |outcomes| >= 6 && AllThrew(outcomes, |outcomes|)
    ensures RetryIntended(outcomes, DefaultBaseMs, DefaultAttempts)
            == RetryRun(Rethrows(outcomes[5].error), [500, 1000, 2000, 4000, 8000], 6)
  {
    IntendedDoubling(outcomes[5..], 16000, 0);
    IntendedDoubling(outcomes[4..], 8000, 1);
    IntendedDoubling(outcomes[3..], 4000, 2);
    IntendedDoubling(outcomes[2..], 2000, 3);
    IntendedDoubling(outcomes[1..], 1000, 4);
    IntendedDoubling(outcomes, 500, 5);
  }

  /** Unrolled form of the intended policy on failing calls. */
  lemma IntendedDoubling<T>(outcomes: seq<Attempt<T>>, baseMs: int, attempts: int)
    requires |outcomes| > 0 && outcomes[0].Threw?
    ensures attempts < 1 ==>
              RetryIntended(outcomes, baseMs, attempts) == RetryRun(Rethrows(outcomes[0].error), [], 1)
    ensures attempts >= 1 ==>
              var rest := RetryIntended(outcomes[1..], baseMs * 2, attempts - 1);
              RetryIntended(outcomes, baseMs, attempts) == RetryRun(rest.end, [baseMs] + rest.waits, rest.calls + 1)
  {
  }

  /** The same six failures under the source's argument order: still
      retrying, after waits of 500, 4, 999, 7, 1997 and 13 ms. */
  lemma {:induction false} AsWrittenSixFailures<T>(outcomes: seq<Attempt<T>>)
    requires |outcomes| == 6 && AllThrew(outcomes, 6)
    ensures Retry(outcomes, DefaultBaseMs, DefaultAttempts)
            == RetryRun(StillRetrying, [500, 4, 999, 7, 1997, 13], 6)
  {
    assert outcomes[5..][1..] == [];
    SwappedStep(outcomes[5..], 13, 3994);
    SwappedStep(outcomes[4..], 1997, 14);
    SwappedStep(outcomes[3..], 7, 1998);
    SwappedStep(outcomes[2..], 999, 8);
    SwappedStep(outcomes[1..], 4, 1000);
    SwappedStep(outcomes, 500, 5);
  }

  /** Unrolled form of the source's policy on a failing call with attempts left. */
  lemma SwappedStep<T>(outcomes: seq<Attempt<T>>, baseMs: int, attempts: int)
    requires |outcomes| > 0 && outcomes[0].Threw? && attempts >= 1
    ensures var rest := Retry(outcomes[1..], attempts - 1, baseMs * 2);
            Retry(outcomes, baseMs, attempts) == RetryRun(rest.end, [baseMs] + rest.waits, rest.calls + 1)
  {
  }

  // ---------------------------------------------------------------------
  // sendMessage

  datatype Command = RenderCommand | ValidateCommand

  /** What is posted to the frame. */
  datatype Envelope<Q> = Envelope(command: Command, messageId: string, message: Q)

  /** The state of the promise `sendMessage` returns. */
  datatype Status<M> = Pending | Fulfilled(response: M) | Rejected(reason: string)

  /** One outstanding request: its id, its promise, whether its message
      listener is still registered and whether its timer is still armed. */
  datatype Request<M> = Request(messageId: string, status: Status<M>, listening: bool, timerArmed: bool)

  /** What can happen to a request: a message event on the window, or the
      timer firing. */
  datatype Event<M> = MessageEvent(messageId: string, message: M) | TimerFired

  const TimeoutReason: string := "Request timed out"

  /** `sendMessage`: a fresh id (supplied by the caller in place of
      `crypto.randomUUID`), a registered listener, an armed timer, and the
      envelope posted to the frame under that id. */
  function SendMessage<Q, M>(command: Command, message: Q, messageId: string): (r: (Request<M>, Envelope<Q>))
    ensures r.0.status.Pending? && r.0.listening && r.0.timerArmed
    ensures r.1.messageId == r.0.messageId == messageId
    ensures r.1.command == command && r.1.message == message
  {
    (Request(messageId, Pending, true, true), Envelope(command, messageId, message))
  }

  /** A promise settles once: a later resolve or reject is ignored. */
  function Settle<M>(status: Status<M>, outcome: Status<M>): Status<M> {
    if status.Pending? then outcome else status
  }

  /** `cleanUp`: removes the listener and clears the timer. */
  function CleanUp<M>(r: Request<M>): Request<M> {
    r.(listening := false, timerArmed := false)
  }

  /** One event reaching the request: a message with its id (while the
      listener is registered) resolves it, the timer (while armed) rejects
      it; both clean up first. */
  function Deliver<M>(r: Request<M>, e: Event<M>): (r': Request<M>)
    ensures r'.messageId == r.messageId
    ensures !r.status.Pending? ==> r'.status == r.status
    ensures e.MessageEvent? && e.messageId != r.messageId ==> r' == r
  {
    match e
    case MessageEvent(id, m) =>
      if r.listening && id == r.messageId then CleanUp(r).(status := Settle(r.status, Fulfilled(m))) else r
    case TimerFired =>
      if r.timerArmed then CleanUp(r).(status := Settle(r.status, Rejected(TimeoutReason))) else r
  }

  /** The listener and the timer are live exactly while the request is
      pending. */
  predicate Consistent<M>(r: Request<M>) {
    r.listening == r.timerArmed && (r.status.Pending? <==> r.listening)
  }

  lemma DeliverConsistent<M>(r: Request<M>, e: Event<M>)
    requires Consistent(r)
    ensures Consistent(Deliver(r, e))
  {
  }

  /** The events, in the order they occur. */
  function Run<M>(r: Request<M>, events: seq<Event<M>>): (r': Request<M>)
    ensures r'.messageId == r.messageId
    ensures !r.status.Pending? ==> r'.status == r.status
    decreases |events|
  {
    if |events| == 0 then r else Run(Deliver(r, events[0]), events[1..])
  }

  /** Reference definition: the first event that settles a request with id
      `id` decides its outcome. */
  function FirstSettlement<M>(id: string, events: seq<Event<M>>): Status<M>
    decreases |events|
  {
    if |events| == 0 then Pending
    else
      match events[0]
      case TimerFired => Rejected(TimeoutReason)
      case MessageEvent(i, m) => if i == id then Fulfilled(m) else FirstSettlement(id, events[1..])
  }

  /** A settled request stays settled with the same outcome, and its
      listener and timer stay gone, whatever else happens. */
  lemma {:induction false} SettledStaysSettled<M>(r: Request<M>, events: seq<Event<M>>)
    requires Consistent(r) && !r.status.Pending?
    ensures Run(r, events) == r
    decreases |events|
  {
    if |events| > 0 {
      SettledStaysSettled(Deliver(r, events[0]), events[1..]);
    }
  }

  /** Whichever of a matching response and the timeout comes first decides
      the outcome; messages for other ids change nothing; after settling the
      listener is removed and the timer cleared. */
  lemma {:induction false} FirstEventWins<M>(r: Request<M>, events: seq<Event<M>>)
    requires Consistent(r) && r.status.Pending?
    ensures Run(r, events).status == FirstSettlement(r.messageId, events)
    ensures Run(r, events).status.Pending? <==> Run(r, events).listening
    ensures Run(r, events).listening == Run(r, events).timerArmed
    ensures Run(r, events).messageId == r.messageId
    decreases |events|
  {
    if |events| > 0 {
      var next := Deliver(r, events[0]);
      if next.status.Pending? {
        FirstEventWins(next, events[1..]);
      } else {
        SettledStaysSettled(next, events[1..]);
      }
    }
  }

  /** A request that times out first is rejected with "Request timed out". */
  lemma TimeoutRejects<M>(r: Request<M>, events: seq<Event<M>>)
    requires Consistent(r) && r.status.Pending?
    requires forall i :: 0 <= i < |events| ==> events[i].MessageEvent? && events[i].messageId != r.messageId
    ensures Run(r, events + [TimerFired]).status == Rejected(TimeoutReason)
  {
    FirstEventWins(r, events + [TimerFired]);
    FirstSettlementSkips(r.messageId, events, [TimerFired]);
  }

  lemma {:induction false} FirstSettlementSkips<M>(id: string, skipped: seq<Event<M>>, rest: seq<Event<M>>)
    requires forall i :: 0 <= i < |skipped| ==> skipped[i].MessageEvent? && skipped[i].messageId != id
    ensures FirstSettlement(id, skipped + rest) == FirstSettlement(id, rest)
    decreases |skipped|
  {
    if |skipped| > 0 {
      assert (skipped + rest)[1..] == skipped[1..] + rest;
      FirstSettlementSkips(id, skipped[1..], rest);
    } else {
      assert skipped + rest == rest;
    }
  }
}
