/**
 The monitoring loop after submission. The submission response is the first
 observation; each later observation is the response to one order-status query. The
 loop checks for a fill first, then for the timeout, then for cancellation, and
 otherwise sleeps one poll interval and overwrites the order with the next
 observation. Exactly one terminal notification follows.

 The server's answers are given as a finite sequence; when the loop would need more
 answers than were supplied the run stops with OutOfObservations, which
 EnoughObservationsReachEnd rules out once the sequence is long enough.
 */
module Monitoring {
  import opened Decimals
  import opened GeminiApi

  /** Seconds slept between two polls. */
  const PollInterval: nat := 60

  /** The fields of an order response the monitor reads. */
  datatype OrderView = OrderView(orderId: string, remaining: Decimal, isCancelled: bool)

  datatype Outcome = Complete | OpenUnfilled | Cancelled | OutOfObservations

  /** The kinds of notification the bot publishes. */
  datatype Notice = OrderErrorNotice | OpenUnfilledNotice | CancelledNotice | CompleteNotice

  /** What the bot does, in order: a request to the exchange, a sleep, a notification. */
  datatype Event = Send(request: ApiRequest) | Sleep(seconds: nat) | Publish(notice: Notice)

  function NoticeFor(o: Outcome): Notice
    requires o != OutOfObservations
  {
    match o
    case Complete => CompleteNotice
    case OpenUnfilled => OpenUnfilledNotice
    case Cancelled => CancelledNotice
  }

  /** The result of monitoring: how it ended, how often it slept, the last order seen,
      and everything it did. */
  datatype MonitorRun = MonitorRun(outcome: Outcome, sleeps: nat, last: OrderView, trace: seq<Event>)

  /** The observation sequence: the submission response, then the polled responses. */
  function Observations(first: OrderView, polls: seq<OrderView>): seq<OrderView> {
    [first] + polls
  }

  /** The loop neither ends nor times out nor sees a cancellation at this observation. */
  predicate Continues(o: OrderView, waited: int, warnAfter: int) {
    o.remaining.IsPositive() && waited <= warnAfter && !o.isCancelled
  }

  /** How each outcome is decided from the observation the loop stopped at, with the
      checks in the source's order: fill, then timeout, then cancellation. */
  predicate StopsAs(outcome: Outcome, o: OrderView, waited: int, warnAfter: int) {
    match outcome
    case Complete => !o.remaining.IsPositive()
    case OpenUnfilled => o.remaining.IsPositive() && waited > warnAfter
    case Cancelled => o.remaining.IsPositive() && waited <= warnAfter && o.isCancelled
    case OutOfObservations => Continues(o, waited, warnAfter)
  }

  /** One pass of the loop: sleep the poll interval, then ask for the order's status. */
  function PollRound(sandbox: bool, orderId: string): seq<Event> {
    [Sleep(PollInterval), Send(OrderStatus(sandbox, orderId))]
  }

  /** A round waits the poll interval first and then sends one status query for the
      order, and publishes nothing. */
  lemma PollRoundShape(sandbox: bool, orderId: string)
    ensures var s := PollRound(sandbox, orderId);
      && |s| == 2 && s[0] == Sleep(PollInterval)
      && s[1].Send? && IsStatusQuery(s[1].request, sandbox, orderId)
      && PublishCount(s) == 0
  {
    var s := PollRound(sandbox, orderId);
    assert s[1..][1..] == [];
    assert PublishCount(s[1..][1..]) == 0;
    assert PublishCount(s[1..]) == 0;
  }

  function Rounds(sandbox: bool, orderId: string, n: nat): (s: seq<Event>)
    ensures |s| == 2 * n
  {
    if n == 0 then [] else Rounds(sandbox, orderId, n - 1) + PollRound(sandbox, orderId)
  }

  function Ending(outcome: Outcome): seq<Event> {
    if outcome == OutOfObservations then [] else [Publish(NoticeFor(outcome))]
  }

  lemma {:induction false} RoundsCommute(sandbox: bool, orderId: string, n: nat)
    ensures PollRound(sandbox, orderId) + Rounds(sandbox, orderId, n)
         == Rounds(sandbox, orderId, n) + PollRound(sandbox, orderId)
  {
    if n > 0 {
      RoundsCommute(sandbox, orderId, n - 1);
      var p, r := PollRound(sandbox, orderId), Rounds(sandbox, orderId, n - 1);
      calc {
        p + Rounds(sandbox, orderId, n);
        p + (r + p);
        (p + r) + p;
        (r + p) + p;
        Rounds(sandbox, orderId, n) + p;
      }
    }
  }

  /** The loop from observation `order` on, having waited `waited` seconds so far, with
      `polls` the answers to the status queries still to come. */
  function Monitor(sandbox: bool, orderId: string, order: OrderView, polls: seq<OrderView>,
                   waited: int, warnAfter: int): (r: MonitorRun)
    decreases |polls|
    ensures r.sleeps <= |polls|
    ensures r.outcome == OutOfObservations ==> r.sleeps == |polls|
    ensures r.trace == Rounds(sandbox, orderId, r.sleeps) + Ending(r.outcome)
  {
    if !order.remaining.IsPositive() then MonitorRun(Complete, 0, order, [Publish(CompleteNotice)])
    else if waited > warnAfter then MonitorRun(OpenUnfilled, 0, order, [Publish(OpenUnfilledNotice)])
    else if order.isCancelled then MonitorRun(Cancelled, 0, order, [Publish(CancelledNotice)])
    else if |polls| == 0 then MonitorRun(OutOfObservations, 0, order, [])
    else
      var rest := Monitor(sandbox, orderId, polls[0], polls[1..], waited + PollInterval, warnAfter);
      RoundsCommute(sandbox, orderId, rest.sleeps);
      MonitorRun(rest.outcome, rest.sleeps + 1, rest.last, PollRound(sandbox, orderId) + rest.trace)
  }

  lemma ObservationsShift(order: OrderView, polls: seq<OrderView>, i: nat)
    requires 1 <= i <= |polls|
    ensures Observations(order, polls)[i] == Observations(polls[0], polls[1..])[i - 1]
  {
  }

  /** The run stops at the observation after its last sleep, for the reason StopsAs gives,
      and every earlier observation let the loop go on. */
  lemma {:induction false} MonitorDecision(sandbox: bool, orderId: string, order: OrderView,
                                           polls: seq<OrderView>, waited: int, warnAfter: int)
    decreases |polls|
    ensures var r := Monitor(sandbox, orderId, order, polls, waited, warnAfter);
      && r.last == Observations(order, polls)[r.sleeps]
      && StopsAs(r.outcome, r.last, waited + PollInterval * r.sleeps, warnAfter)
      && forall i :: 0 <= i < r.sleeps ==>
           Continues(Observations(order, polls)[i], waited + PollInterval * i, warnAfter)
  {
    var r := Monitor(sandbox, orderId, order, polls, waited, warnAfter);
    if r.sleeps > 0 {
      MonitorDecision(sandbox, orderId, polls[0], polls[1..], waited + PollInterval, warnAfter);
      var rest := Monitor(sandbox, orderId, polls[0], polls[1..], waited + PollInterval, warnAfter);
      assert r.sleeps == rest.sleeps + 1 && r.last == rest.last && r.outcome == rest.outcome;
      ObservationsShift(order, polls, r.sleeps);
      forall i | 0 <= i < r.sleeps
        ensures Continues(Observations(order, polls)[i], waited + PollInterval * i, warnAfter)
      {
        if i > 0 {
          ObservationsShift(order, polls, i);
          assert waited + PollInterval * i == (waited + PollInterval) + PollInterval * (i - 1);
        }
      }
    }
  }

  /** The loop as the source writes it, over the same observations: `pending` holds
      the answers to the status queries not yet made. */
  method MonitorLoop(sandbox: bool, orderId: string, first: OrderView, polls: seq<OrderView>, warnAfter: int)
    returns (run: MonitorRun)
    ensures run == Monitor(sandbox, orderId, first, polls, 0, warnAfter)
  {
    ghost var whole := Monitor(sandbox, orderId, first, polls, 0, warnAfter);
    var order := first;
    var pending := polls;
    var totalWait := 0;
    var sleeps := 0;
    var trace: seq<Event> := [];
    while order.remaining.IsPositive()
      invariant var tail := Monitor(sandbox, orderId, order, pending, totalWait, warnAfter);
        whole == MonitorRun(tail.outcome, tail.sleeps + sleeps, tail.last, trace + tail.trace)
      decreases |pending|
    {
      if totalWait > warnAfter {
        return MonitorRun(OpenUnfilled, sleeps, order, trace + [Publish(OpenUnfilledNotice)]);
      }
      if order.isCancelled {
        return MonitorRun(Cancelled, sleeps, order, trace + [Publish(CancelledNotice)]);
      }
      if pending == [] {
        return MonitorRun(OutOfObservations, sleeps, order, trace);
      }
      trace := trace + [Sleep(PollInterval), Send(OrderStatus(sandbox, orderId))];
      totalWait := totalWait + PollInterval;
      sleeps := sleeps + 1;
      order, pending := pending[0], pending[1..];
    }
    run := MonitorRun(Complete, sleeps, order, trace + [Publish(CompleteNotice)]);
  }

  /** How many notifications a trace publishes. */
  function PublishCount(trace: seq<Event>): nat {
    if trace == [] then 0
    else (if trace[0].Publish? then 1 else 0) + PublishCount(trace[1..])
  }

  lemma {:induction false} PublishCountAppend(a: seq<Event>, b: seq<Event>)
    ensures PublishCount(a + b) == PublishCount(a) + PublishCount(b)
    decreases |a|
  {
    if a == [] {
      assert a + b == b;
    } else {
      assert (a + b)[1..] == a[1..] + b;
      PublishCountAppend(a[1..], b);
    }
  }

  /** Every request in the trace is a status query for the order: the monitor never
      cancels or modifies the order. */
  predicate OnlyStatusQueries(trace: seq<Event>, sandbox: bool, orderId: string) {
    forall i :: 0 <= i < |trace| && trace[i].Send? ==> IsStatusQuery(trace[i].request, sandbox, orderId)
  }

  lemma {:induction false} RoundsOnlyQueryAndSleep(sandbox: bool, orderId: string, n: nat)
    ensures PublishCount(Rounds(sandbox, orderId, n)) == 0
    ensures OnlyStatusQueries(Rounds(sandbox, orderId, n), sandbox, orderId)
    ensures forall i :: 0 <= i < 2 * n && i % 2 == 0 ==> Rounds(sandbox, orderId, n)[i] == Sleep(PollInterval)
  {
    if n > 0 {
      RoundsOnlyQueryAndSleep(sandbox, orderId, n - 1);
      PublishCountAppend(Rounds(sandbox, orderId, n - 1), PollRound(sandbox, orderId));
      var p := PollRound(sandbox, orderId);
      assert p[1..][1..] == [];
      assert PublishCount(p[1..][1..]) == 0;
      assert PublishCount(p[1..]) == 0;
      assert PublishCount(p) == 0;
    }
  }

  /** A run that reaches a verdict publishes exactly one notification, as its last
      event, matching the verdict; a run that ran out of observations publishes none.
      Every other event is a sleep of one poll interval or a status query. */
  lemma ExactlyOneNotice(sandbox: bool, orderId: string, order: OrderView, polls: seq<OrderView>,
                         waited: int, warnAfter: int)
    ensures var r := Monitor(sandbox, orderId, order, polls, waited, warnAfter);
      && (r.outcome != OutOfObservations ==>
            PublishCount(r.trace) == 1 && r.trace[|r.trace| - 1] == Publish(NoticeFor(r.outcome)))
      && (r.outcome == OutOfObservations ==> PublishCount(r.trace) == 0)
      && OnlyStatusQueries(r.trace, sandbox, orderId)
  {
    var r := Monitor(sandbox, orderId, order, polls, waited, warnAfter);
    RoundsOnlyQueryAndSleep(sandbox, orderId, r.sleeps);
    PublishCountAppend(Rounds(sandbox, orderId, r.sleeps), Ending(r.outcome));
    if r.outcome != OutOfObservations {
      assert PublishCount(Ending(r.outcome)) == 1;
    }
  }

  /** Every sleep happens before the timeout check fires, so the last sleep starts at
      most warnAfter seconds in: from the start, at most warnAfter/60 + 1 sleeps. */
  lemma SleepsBounded(sandbox: bool, orderId: string, order: OrderView, polls: seq<OrderView>, warnAfter: int)
    requires warnAfter >= 0
    ensures Monitor(sandbox, orderId, order, polls, 0, warnAfter).sleeps <= warnAfter / PollInterval + 1
  {
    var r := Monitor(sandbox, orderId, order, polls, 0, warnAfter);
    MonitorDecision(sandbox, orderId, order, polls, 0, warnAfter);
    if r.sleeps > 0 {
      assert Continues(Observations(order, polls)[r.sleeps - 1], PollInterval * (r.sleeps - 1), warnAfter);
    }
  }

  /** Enough observations to outlast the timeout: the run always reaches a verdict. */
  lemma EnoughObservationsReachEnd(sandbox: bool, orderId: string, order: OrderView, polls: seq<OrderView>,
                                   waited: int, warnAfter: int)
    requires waited + PollInterval * |polls| > warnAfter
    ensures Monitor(sandbox, orderId, order, polls, waited, warnAfter).outcome != OutOfObservations
  {
    MonitorDecision(sandbox, orderId, order, polls, waited, warnAfter);
  }

  /** An order that never fills and is never cancelled raises the open/unfilled alert
      after exactly warnAfter/60 + 1 sleeps. */
  lemma UnfilledOrderTimesOut(sandbox: bool, orderId: string, order: OrderView, polls: seq<OrderView>, warnAfter: int)
    requires warnAfter >= 0 && |polls| >= warnAfter / PollInterval + 1
    requires forall o :: o in Observations(order, polls) ==> o.remaining.IsPositive() && !o.isCancelled
    ensures Monitor(sandbox, orderId, order, polls, 0, warnAfter).outcome == OpenUnfilled
    ensures Monitor(sandbox, orderId, order, polls, 0, warnAfter).sleeps == warnAfter / PollInterval + 1
  {
    var r := Monitor(sandbox, orderId, order, polls, 0, warnAfter);
    EnoughObservationsReachEnd(sandbox, orderId, order, polls, 0, warnAfter);
    MonitorDecision(sandbox, orderId, order, polls, 0, warnAfter);
    SleepsBounded(sandbox, orderId, order, polls, warnAfter);
    assert r.last in Observations(order, polls);
  }

  /** remaining 1.0, 0.5, 0.5, 0 with no cancellation: complete after exactly three
      sleeps, with one completion notice. */
  lemma ThreeSleepsExample(sandbox: bool, orderId: string, warnAfter: int)
    requires warnAfter >= 120
    ensures var r := Monitor(sandbox, orderId, OrderView(orderId, Decimal(10, -1), false),
                             [OrderView(orderId, Decimal(5, -1), false),
                              OrderView(orderId, Decimal(5, -1), false),
                              OrderView(orderId, Decimal(0, 0), false)], 0, warnAfter);
      r.outcome == Complete && r.sleeps == 3 && r.trace[6] == Publish(CompleteNotice)
  {
    var half, done := OrderView(orderId, Decimal(5, -1), false), OrderView(orderId, Decimal(0, 0), false);
    var polls := [half, half, done];
    assert polls[1..] == [half, done] && polls[1..][1..] == [done] && polls[1..][1..][1..] == [];
    var r3 := Monitor(sandbox, orderId, done, [], 180, warnAfter);
    assert r3.outcome == Complete && r3.sleeps == 0;
    var r2 := Monitor(sandbox, orderId, half, [done], 120, warnAfter);
    assert r2.outcome == Complete && r2.sleeps == 1;
    var r1 := Monitor(sandbox, orderId, half, [half, done], 60, warnAfter);
    assert r1.outcome == Complete && r1.sleeps == 2;
  }
}
