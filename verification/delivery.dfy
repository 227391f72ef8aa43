/**
 * The outbound delivery protocol for one message: outbox row, publishers, job queues, dispatching
 * workers and their leases. Each database statement or broker operation is one step; workers and
 * publishers interleave freely, crash, and have their deliveries returned to the queue.
 */
module Delivery {
  import opened Backoffs
  import opened FreshNumbers
  import opened Wrappers
  import opened MessageRows

  // ----- queues -----

  /** A job copy waiting in a retry queue of some delay. */
  datatype Delayed = Delayed(attempt: nat, delay: int)

  function Least(delays: seq<int>): (m: int)
    requires delays != []
    ensures m in delays && forall d :: d in delays ==> m <= d
  {
    if |delays| == 1 then delays[0]
    else
      var rest := Least(delays[1..]);
      assert forall d :: d in delays ==> d == delays[0] || d in delays[1..];
      if delays[0] < rest then delays[0] else rest
  }

  class RetryQueues {
    const delays: seq<int>
    var waiting: multiset<Delayed>

    constructor (delays: seq<int>)
      ensures this.delays == delays && waiting == multiset{}
    {
      this.delays, waiting := delays, multiset{};
    }

    /** `scheduleRetry`: a retry costs one unit of the budget, or is refused when none is left. */
    method ScheduleRetry(attempt: nat) returns (scheduled: bool)
      modifies this
      ensures scheduled <==> attempt < |delays|
      ensures waiting == old(waiting)
                       + if scheduled then multiset{Delayed(attempt + 1, delays[attempt])} else multiset{}
    {
      if attempt >= |delays| {
        return false;
      }
      waiting := waiting + multiset{Delayed(attempt + 1, delays[attempt])};
      return true;
    }

    /** `scheduleDeferredRetry`: the shortest delay, the budget untouched. */
    method ScheduleDeferredRetry(attempt: nat)
      requires delays != []
      modifies this
      ensures waiting == old(waiting) + multiset{Delayed(attempt, Least(delays))}
    {
      waiting := waiting + multiset{Delayed(attempt, Least(delays))};
    }
  }

  // ----- outbox -----

  datatype Outbox = Outbox(published: bool, attempts: nat, nextAttemptAt: int, lease: Option<int>)

  predicate OutboxClaimable(outbox: Outbox, now: int)
  {
    !outbox.published && outbox.nextAttemptAt <= now && (outbox.lease == None || outbox.lease.value <= now)
  }

  function OutboxClaimed(outbox: Outbox, now: int, leaseMs: int): Outbox
  {
    outbox.(lease := Some(now + leaseMs), attempts := outbox.attempts + 1)
  }

  function OutboxPublished(outbox: Outbox): Outbox
  {
    outbox.(published := true, lease := None)
  }

  function OutboxFailed(outbox: Outbox, now: int, attempts: nat): Outbox
  {
    outbox.(nextAttemptAt := now + Backoff(attempts), lease := None)
  }

  class OutboxEvent {
    var published: bool
    var attempts: nat
    var nextAttemptAt: int
    var processingLeaseUntil: Option<int>

    function Value(): Outbox
      reads this
    {
      Outbox(published, attempts, nextAttemptAt, processingLeaseUntil)
    }

    /** One row of `claimEvents`. */
    method ClaimEvent(now: int, leaseMs: int) returns (claimed: bool)
      modifies this
      ensures claimed == OutboxClaimable(old(Value()), now)
      ensures Value() == if claimed then OutboxClaimed(old(Value()), now, leaseMs) else old(Value())
      ensures claimed <==>
                && !old(published) && old(nextAttemptAt) <= now
                && (old(processingLeaseUntil) == None || old(processingLeaseUntil).value <= now)
      ensures claimed ==>
                && processingLeaseUntil == Some(now + leaseMs) && attempts == old(attempts) + 1
                && !published && nextAttemptAt == old(nextAttemptAt)
    {
      claimed := !published && nextAttemptAt <= now && (processingLeaseUntil == None || processingLeaseUntil.value <= now);
      if claimed {
        processingLeaseUntil, attempts := Some(now + leaseMs), attempts + 1;
      }
    }

    /** The update of `publish` once the queue confirmed the job. */
    method MarkPublished()
      modifies this
      ensures Value() == OutboxPublished(old(Value()))
      ensures published && processingLeaseUntil == None
      ensures attempts == old(attempts) && nextAttemptAt == old(nextAttemptAt)
    {
      published, processingLeaseUntil := true, None;
    }

    /** The update of `publish` after an error: try again after a capped, doubling delay. */
    method RecordFailure(now: int, attemptsAtClaim: nat)
      modifies this
      ensures Value() == OutboxFailed(old(Value()), now, attemptsAtClaim)
      ensures published == old(published) && attempts == old(attempts) && processingLeaseUntil == None
      ensures now + 1000 <= nextAttemptAt <= now + 60000
    {
      nextAttemptAt, processingLeaseUntil := now + Backoff(attemptsAtClaim), None;
    }
  }

  // ----- the protocol state -----

  /** Where a worker holding an unacknowledged delivery stands. */
  datatype Pc =
    | Received
    | NotClaimed                                // the claim matched no row; the row is read next
    | Deferring
    | Sending(lease: int)                       // claimed; about to reserve a slot and call the provider
    | Accepted(lease: int, provider: nat)       // the provider took it; the row does not say so yet
    | RetryableError(lease: int)                // about to mark the row queued
    | PermanentError(lease: int)                // about to mark the row failed
    | Retrying                                  // row marked queued; about to schedule a retry or give up
    | GivingUp                                  // found the row unleased; about to mark it failed
    | DeadLettering
    | Acking

  datatype Worker = Worker(attempt: nat, pc: Pc)

  datatype Publisher = Publisher(sent: bool)

  datatype Config = Config(delays: seq<int>, leaseMs: int, outboxLeaseMs: int)

  datatype State = State(
    now: int,
    row: Row,
    outbox: Outbox,
    publishers: map<nat, Publisher>,
    main: multiset<nat>,
    retry: multiset<Delayed>,
    workers: map<nat, Worker>,
    everPublished: bool,
    sends: nat,
    accepts: nat)

  /** What the clock, the publishers, the broker and the provider's receipts do. */
  datatype Event =
    | Tick(to: int)
    | OutboxClaim(p: nat)
    | OutboxSend(p: nat)
    | OutboxMark(p: nat)
    | OutboxFail(p: nat, attempts: nat)
    | PublisherCrash(p: nat)
    | Expire(delayed: Delayed)
    | Deliver(w: nat, attempt: nat)
    | Receipt(status: Status)

  /** What a worker holding a delivery does next. */
  datatype Step =
    | Claim
    | ReadUnclaimed
    | FailBeforeSend(retryable: bool)
    | SendAccepted(provider: nat)
    | SendRefused(retryable: bool)
    | SendUnseen(retryable: bool)   // the provider takes it, but the reply is lost, late or has no message id
    | Record
    | RecordFails(stored: bool)     // the update reports an error, whether it was stored or not
    | MarkQueued
    | MarkFailure
    | Schedule
    | ReadExhausted
    | Defer
    | DeadLetter
    | Ack
    | Return      // an error is nacked, or the worker dies and the broker redelivers

  datatype Action = Environment(event: Event) | Work(w: nat, step: Step)

  /** Message and outbox row as one transaction creates them; no job copy exists yet. */
  function Start(now: int): State
  {
    State(now, Row(Queued, 0, None, None), Outbox(false, 0, now, None), map[], multiset{}, multiset{}, map[], false, 0, 0)
  }

  predicate Claimable(row: Row, now: int)
  {
    !Done(row) && !Leased(row, now)
  }

  predicate StepEnabled(c: Config, worker: Worker, step: Step)
  {
    match step
    case Claim => worker.pc.Received?
    case ReadUnclaimed => worker.pc.NotClaimed?
    case FailBeforeSend(_) => worker.pc.Sending?
    case SendAccepted(_) => worker.pc.Sending?
    case SendRefused(_) => worker.pc.Sending?
    case SendUnseen(_) => worker.pc.Sending?
    case Record => worker.pc.Accepted?
    case RecordFails(_) => worker.pc.Accepted?
    case MarkQueued => worker.pc.RetryableError?
    case MarkFailure => worker.pc.PermanentError? || worker.pc.GivingUp?
    case Schedule => worker.pc.Retrying? && worker.attempt < |c.delays|
    case ReadExhausted => worker.pc.Retrying? && worker.attempt >= |c.delays|
    case Defer => worker.pc.Deferring?
    case DeadLetter => worker.pc.DeadLettering?
    case Ack => worker.pc.Acking?
    case Return => true
  }

  predicate Enabled(c: Config, s: State, a: Action)
  {
    match a
    case Work(w, step) => w in s.workers && StepEnabled(c, s.workers[w], step)
    case Environment(event) =>
      match event
      case Tick(to) => to >= s.now
      case OutboxClaim(p) => p !in s.publishers && OutboxClaimable(s.outbox, s.now)
      case OutboxSend(p) => p in s.publishers && !s.publishers[p].sent
      case OutboxMark(p) => p in s.publishers && s.publishers[p].sent
      case OutboxFail(p, _) => p in s.publishers
      case PublisherCrash(p) => p in s.publishers
      case Expire(delayed) => delayed in s.retry
      case Deliver(w, attempt) => w !in s.workers && attempt in s.main
      case Receipt(status) =>
        s.row.providerMessageId.Some? && (status.Sent? || status.Delivered? || status.Read? || status.Failed?)
  }

  /** Where the step takes the worker; None once it has let go of the delivery. */
  function NextPc(c: Config, row: Row, now: int, worker: Worker, step: Step): Option<Pc>
    requires StepEnabled(c, worker, step)
  {
    match step
    case Claim => Some(if Claimable(row, now) then Sending(now + c.leaseMs) else NotClaimed)
    case ReadUnclaimed => Some(if !Done(row) && row.status.Processing? then Deferring else Acking)
    case FailBeforeSend(retryable) =>
      Some(if retryable then RetryableError(worker.pc.lease) else PermanentError(worker.pc.lease))
    case SendAccepted(provider) => Some(Accepted(worker.pc.lease, provider))
    case SendRefused(retryable) =>
      Some(if retryable then RetryableError(worker.pc.lease) else PermanentError(worker.pc.lease))
    case SendUnseen(retryable) =>
      Some(if retryable then RetryableError(worker.pc.lease) else PermanentError(worker.pc.lease))
    case Record => Some(Acking)
    case RecordFails(_) => Some(PermanentError(worker.pc.lease))
    case MarkQueued => Some(Retrying)
    case MarkFailure => Some(DeadLettering)
    case Schedule => Some(Acking)
    case ReadExhausted => Some(if TerminalOrSubmitted(row.status) || Leased(row, now) then DeadLettering else GivingUp)
    case Defer => Some(Acking)
    case DeadLetter => Some(Acking)
    case Ack => None
    case Return => None
  }

  function NextRow(c: Config, row: Row, now: int, worker: Worker, step: Step): Row
    requires StepEnabled(c, worker, step)
  {
    match step
    case Claim => if Claimable(row, now) then Claimed(row, now, c.leaseMs) else row
    case Record => Recorded(row, worker.pc.provider)
    case RecordFails(stored) => if stored then Recorded(row, worker.pc.provider) else row
    case MarkQueued => Requeued(row)
    case MarkFailure => MarkedFailed(row)
    case _ => row
  }

  /** Copies the step puts in a retry queue: `RetryQueues.ScheduleRetry` and `ScheduleDeferredRetry`. */
  function Scheduled(c: Config, worker: Worker, step: Step): multiset<Delayed>
    requires c.delays != [] && StepEnabled(c, worker, step)
  {
    match step
    case Schedule => multiset{Delayed(worker.attempt + 1, c.delays[worker.attempt])}
    case Defer => multiset{Delayed(worker.attempt, Least(c.delays))}
    case _ => multiset{}
  }

  function Moved(workers: map<nat, Worker>, w: nat, pc: Option<Pc>): map<nat, Worker>
    requires w in workers
  {
    match pc
    case Some(next) => workers[w := workers[w].(pc := next)]
    case None => workers - {w}
  }

  function AfterStep(c: Config, s: State, w: nat, step: Step): State
    requires c.delays != [] && w in s.workers && StepEnabled(c, s.workers[w], step)
  {
    var worker := s.workers[w];
    s.(row := NextRow(c, s.row, s.now, worker, step),
       workers := Moved(s.workers, w, NextPc(c, s.row, s.now, worker, step)),
       retry := s.retry + Scheduled(c, worker, step),
       main := s.main + if step.Return? then multiset{worker.attempt} else multiset{},
       sends := s.sends + if step.SendAccepted? || step.SendRefused? || step.SendUnseen? then 1 else 0,
       accepts := s.accepts + if step.SendAccepted? || step.SendUnseen? then 1 else 0)
  }

  function AfterEvent(c: Config, s: State, event: Event): State
    requires Enabled(c, s, Environment(event))
  {
    match event
    case Tick(to) => s.(now := to)
    case OutboxClaim(p) =>
      s.(publishers := s.publishers[p := Publisher(false)],
         outbox := OutboxClaimed(s.outbox, s.now, c.outboxLeaseMs))
    case OutboxSend(p) =>
      s.(publishers := s.publishers[p := Publisher(true)], main := s.main + multiset{0}, everPublished := true)
    case OutboxMark(p) =>
      s.(publishers := s.publishers - {p}, outbox := OutboxPublished(s.outbox))
    case OutboxFail(p, attempts) =>
      s.(publishers := s.publishers - {p},
         outbox := OutboxFailed(s.outbox, s.now, attempts))
    case PublisherCrash(p) => s.(publishers := s.publishers - {p})
    case Expire(delayed) => s.(retry := s.retry - multiset{delayed}, main := s.main + multiset{delayed.attempt})
    case Deliver(w, attempt) =>
      s.(main := s.main - multiset{attempt}, workers := s.workers[w := Worker(attempt, Received)])
    case Receipt(status) => s.(row := s.row.(status := status))
  }

  /** One step. Only the row guards decide the branch; everything else is the scheduler's choice. */
  function Apply(c: Config, s: State, a: Action): State
    requires c.delays != [] && Enabled(c, s, a)
  {
    match a
    case Environment(event) => AfterEvent(c, s, event)
    case Work(w, step) => AfterStep(c, s, w, step)
  }

  /** An error that may pass puts the message back in the queue, any other ends it. */
  lemma ErrorsAreAnswered(c: Config, s: State, w: nat, step: Step)
    requires c.delays != [] && Enabled(c, s, Work(w, step))
    requires step.FailBeforeSend? || step.SendRefused? || step.SendUnseen?
    ensures var t := Apply(c, s, Work(w, step));
            && (Enabled(c, t, Work(w, MarkQueued)) <==> step.retryable)
            && (Enabled(c, t, Work(w, MarkFailure)) <==> !step.retryable)
  {
    hide OutboxClaimable, Backoff, Least;
  }

  /** A requeued message gets the next configured delay until all are used, and then no other. */
  lemma RetriesFollowDelays(c: Config, s: State, w: nat)
    requires c.delays != [] && w in s.workers && s.workers[w].pc.Retrying?
    ensures var attempt := s.workers[w].attempt;
            && (Enabled(c, s, Work(w, Schedule)) <==> attempt < |c.delays|)
            && (Enabled(c, s, Work(w, ReadExhausted)) <==> attempt >= |c.delays|)
            && (attempt < |c.delays| ==>
                  Apply(c, s, Work(w, Schedule)).retry == s.retry + multiset{Delayed(attempt + 1, c.delays[attempt])})
  {
    hide OutboxClaimable, Backoff, Least;
  }

  /** A run: each action is enabled where it is taken. */
  ghost predicate IsRun(c: Config, s: State, actions: seq<Action>, t: State)
    requires c.delays != []
    decreases |actions|
  {
    if actions == [] then s == t
    else Enabled(c, s, actions[0]) && IsRun(c, Apply(c, s, actions[0]), actions[1..], t)
  }

  lemma Then(c: Config, s: State, a: Action, rest: seq<Action>, t: State)
    requires c.delays != [] && Enabled(c, s, a) && IsRun(c, Apply(c, s, a), rest, t)
    ensures IsRun(c, s, [a] + rest, t)
  {
    hide Enabled, Apply;
    assert ([a] + rest)[1..] == rest;
  }

  lemma NoAction(c: Config, s: State)
    requires c.delays != []
    ensures IsRun(c, s, [], s)
  {
  }

  /** Once the provider id is there, the receipts move the status, one after the other. */
  lemma ReceiptsArrive(c: Config, s: State)
    requires c.delays != [] && s.row.providerMessageId.Some?
    ensures IsRun(c, s, [Environment(Receipt(Sent)), Environment(Receipt(Delivered)), Environment(Receipt(Read))],
                  s.(row := s.row.(status := Read)))
  {
    hide IsRun, AfterStep;
    var r1, r2 := s.(row := s.row.(status := Sent)), s.(row := s.row.(status := Delivered));
    var t := s.(row := s.row.(status := Read));
    NoAction(c, t);
    Then(c, r2, Environment(Receipt(Read)), [], t);
    Then(c, r1, Environment(Receipt(Delivered)), [Environment(Receipt(Read))] + [], t);
    Then(c, s, Environment(Receipt(Sent)), [Environment(Receipt(Delivered))] + ([Environment(Receipt(Read))] + []), t);
    assert [Environment(Receipt(Sent))] + ([Environment(Receipt(Delivered))] + ([Environment(Receipt(Read))] + []))
        == [Environment(Receipt(Sent)), Environment(Receipt(Delivered)), Environment(Receipt(Read))];
  }

  lemma RecordAndAck(c: Config, s: State, w: nat, attempt: nat, lease: int, provider: nat)
    requires c.delays != [] && w !in s.workers
    ensures IsRun(c, s.(workers := s.workers[w := Worker(attempt, Accepted(lease, provider))]), [Work(w, Record), Work(w, Ack)],
                  s.(row := Row(Submitted, s.row.attemptCount, None, Some(provider))))
  {
    hide IsRun, AfterEvent;
    var accepted, acking := Worker(attempt, Accepted(lease, provider)), Worker(attempt, Acking);
    var s2 := s.(workers := s.workers[w := accepted]);
    var t := s.(row := Row(Submitted, s.row.attemptCount, None, Some(provider)));
    var s3 := t.(workers := s.workers[w := acking]);
    Reassigned(s.workers, w, accepted, acking);
    Reassigned(s.workers, w, acking, acking);
    assert Apply(c, s3, Work(w, Ack)) == t && Apply(c, s2, Work(w, Record)) == s3;
    hide Apply;
    NoAction(c, t);
    Then(c, s3, Work(w, Ack), [], t);
    Then(c, s2, Work(w, Record), [Work(w, Ack)] + [], t);
    assert [Work(w, Record)] + ([Work(w, Ack)] + []) == [Work(w, Record), Work(w, Ack)];
  }

  /** A worker claims, sends, records and acknowledges: the row is submitted and the worker is gone. */
  lemma WorkerSubmits(c: Config, s: State, w: nat, attempt: nat, provider: nat)
    requires c.delays != [] && w !in s.workers && s.row.status == Queued && s.row.providerMessageId == None
    ensures IsRun(c, s.(workers := s.workers[w := Worker(attempt, Received)]),
                  [Work(w, Claim), Work(w, SendAccepted(provider)), Work(w, Record), Work(w, Ack)],
                  s.(row := Row(Submitted, s.row.attemptCount + 1, None, Some(provider)),
                     sends := s.sends + 1, accepts := s.accepts + 1))
  {
    hide IsRun, AfterEvent;
    var lease := s.now + c.leaseMs;
    var received, sending := Worker(attempt, Received), Worker(attempt, Sending(lease));
    var s0 := s.(workers := s.workers[w := received]);
    var claimed := s.(row := Row(Processing, s.row.attemptCount + 1, Some(lease), None));
    var s1 := claimed.(workers := s.workers[w := sending]);
    var sent := claimed.(sends := s.sends + 1, accepts := s.accepts + 1);
    var t := sent.(row := Row(Submitted, s.row.attemptCount + 1, None, Some(provider)));
    var s2 := sent.(workers := s.workers[w := Worker(attempt, Accepted(lease, provider))]);
    Reassigned(s.workers, w, received, sending);
    Reassigned(s.workers, w, sending, s2.workers[w]);
    assert Apply(c, s0, Work(w, Claim)) == s1 && Apply(c, s1, Work(w, SendAccepted(provider))) == s2;
    hide Apply;
    RecordAndAck(c, sent, w, attempt, lease, provider);
    Then(c, s1, Work(w, SendAccepted(provider)), [Work(w, Record), Work(w, Ack)], t);
    Then(c, s0, Work(w, Claim), [Work(w, SendAccepted(provider))] + [Work(w, Record), Work(w, Ack)], t);
    assert [Work(w, Claim)] + ([Work(w, SendAccepted(provider))] + [Work(w, Record), Work(w, Ack)])
        == [Work(w, Claim), Work(w, SendAccepted(provider)), Work(w, Record), Work(w, Ack)];
  }

  lemma Reassigned(workers: map<nat, Worker>, w: nat, a: Worker, b: Worker)
    ensures workers[w := a][w := b] == workers[w := b]
    ensures w !in workers ==> workers[w := a] - {w} == workers
  {
  }

  /** A publisher claims the event, sends the job and marks the event: one job waits, and nobody publishes again. */
  lemma PublisherPublishes(c: Config, now: int, p: nat)
    requires c.delays != []
    ensures IsRun(c, Start(now), [Environment(OutboxClaim(p)), Environment(OutboxSend(p)), Environment(OutboxMark(p))],
                  Start(now).(outbox := Outbox(true, 1, now, None), main := multiset{0}, everPublished := true))
    ensures forall q, at: int ::
              !Enabled(c, Start(at).(outbox := Outbox(true, 1, now, None)), Environment(OutboxClaim(q)))
  {
    hide IsRun, AfterStep;
    var s := Start(now);
    var s1 := s.(outbox := Outbox(false, 1, now, Some(now + c.outboxLeaseMs)), publishers := map[p := Publisher(false)]);
    var s2 := s1.(publishers := map[p := Publisher(true)], main := multiset{0}, everPublished := true);
    var t := s2.(outbox := Outbox(true, 1, now, None), publishers := map[]);
    assert map[p := Publisher(false)][p := Publisher(true)] == map[p := Publisher(true)];
    assert map[p := Publisher(true)] - {p} == map[];
    assert multiset{} + multiset{0} == multiset{0};
    NoAction(c, t);
    Then(c, s2, Environment(OutboxMark(p)), [], t);
    Then(c, s1, Environment(OutboxSend(p)), [Environment(OutboxMark(p))] + [], t);
    Then(c, s, Environment(OutboxClaim(p)), [Environment(OutboxSend(p))] + ([Environment(OutboxMark(p))] + []), t);
    assert [Environment(OutboxClaim(p))] + ([Environment(OutboxSend(p))] + ([Environment(OutboxMark(p))] + []))
        == [Environment(OutboxClaim(p)), Environment(OutboxSend(p)), Environment(OutboxMark(p))];
  }

  lemma {:induction false} RunsJoin(c: Config, s: State, a: seq<Action>, t: State, b: seq<Action>, u: State)
    requires c.delays != [] && IsRun(c, s, a, t) && IsRun(c, t, b, u)
    ensures IsRun(c, s, a + b, u)
    decreases |a|
  {
    hide Enabled, Apply;
    if a == [] {
      assert a + b == b;
    } else {
      RunsJoin(c, Apply(c, s, a[0]), a[1..], t, b, u);
      assert (a + b)[0] == a[0] && (a + b)[1..] == a[1..] + b;
    }
  }

  /**
   * Nobody interferes and nothing fails: a publisher, a worker and three receipts take the message
   * from its creation to a read row, accepted once, with nothing left in any queue.
   */
  lemma UndisturbedDelivery(c: Config, now: int, p: nat, w: nat, provider: nat) returns (actions: seq<Action>, t: State)
    requires c.delays != []
    ensures IsRun(c, Start(now), actions, t)
    ensures t == State(now, Row(Read, 1, None, Some(provider)), Outbox(true, 1, now, None), map[], multiset{}, multiset{},
                       map[], true, 1, 1)
  {
    hide IsRun, Apply, Enabled;
    var s1 := Start(now).(outbox := Outbox(true, 1, now, None), main := multiset{0}, everPublished := true);
    var s2 := s1.(main := multiset{});
    var s3 := s2.(row := Row(Submitted, 1, None, Some(provider)), sends := 1, accepts := 1);
    t := s3.(row := Row(Read, 1, None, Some(provider)));
    var publish := [Environment(OutboxClaim(p)), Environment(OutboxSend(p)), Environment(OutboxMark(p))];
    var submit := [Work(w, Claim), Work(w, SendAccepted(provider)), Work(w, Record), Work(w, Ack)];
    var receipts := [Environment(Receipt(Sent)), Environment(Receipt(Delivered)), Environment(Receipt(Read))];
    PublisherPublishes(c, now, p);
    WorkerSubmits(c, s2, w, 0, provider);
    ReceiptsArrive(c, s3);
    DeliveryStarts(c, s1, w);
    RunsJoin(c, Apply(c, s1, Environment(Deliver(w, 0))), submit, s3, receipts, t);
    Then(c, s1, Environment(Deliver(w, 0)), submit + receipts, t);
    RunsJoin(c, Start(now), publish, s1, [Environment(Deliver(w, 0))] + (submit + receipts), t);
    actions := publish + ([Environment(Deliver(w, 0))] + (submit + receipts));
  }

  lemma DeliveryStarts(c: Config, s: State, w: nat)
    requires c.delays != [] && s.main == multiset{0} && w !in s.workers
    ensures Enabled(c, s, Environment(Deliver(w, 0)))
    ensures Apply(c, s, Environment(Deliver(w, 0)))
         == s.(main := multiset{}, workers := s.workers[w := Worker(0, Received)])
  {
    hide AfterStep;
  }

  // ----- no accepted message is lost -----

  /**
   * The worker's copy is enough to finish a row of this status: before it lets go of the copy it
   * will finish the row, put another copy in a queue, or see that somebody else must. A worker
   * that found a lease does not count for a row that was put back in the queue meanwhile, and one
   * whose budget is spent does not count for a row that somebody else has claimed.
   */
  predicate Carries(c: Config, status: Status, worker: Worker)
  {
    match worker.pc
    case NotClaimed => status.Processing?
    case Retrying => status.Processing? ==> worker.attempt < |c.delays|
    case DeadLettering => false
    case Acking => false
    case _ => true
  }

  ghost predicate Covered(c: Config, s: State)
  {
    || s.main != multiset{}
    || s.retry != multiset{}
    || exists w :: w in s.workers && Carries(c, s.row.status, s.workers[w])
  }

  ghost predicate NotLost(c: Config, s: State)
  {
    && (s.outbox.published ==> s.everPublished)
    && (forall p :: p in s.publishers && s.publishers[p].sent ==> s.everPublished)
    && (s.everPublished && !Done(s.row) ==> Covered(c, s))
  }

  lemma CarriedBy(c: Config, s: State, w: nat)
    requires w in s.workers && Carries(c, s.row.status, s.workers[w])
    ensures Covered(c, s)
  {
  }

  lemma QueuedCopy(c: Config, s: State)
    requires s.main != multiset{} || s.retry != multiset{}
    ensures Covered(c, s)
  {
  }

  /**
   * A carrying worker, and any worker that changes the row, carries the row afterwards, finishes
   * it, or leaves a queued copy.
   */
  lemma StepCarries(c: Config, row: Row, now: int, worker: Worker, step: Step)
    requires c.delays != [] && StepEnabled(c, worker, step)
    requires (!Done(row) && Carries(c, row.status, worker)) || NextRow(c, row, now, worker, step) != row
    ensures var next, pc := NextRow(c, row, now, worker, step), NextPc(c, row, now, worker, step);
            || Done(next)
            || step.Return? || step.Schedule? || step.Defer?
            || (pc.Some? && Carries(c, next.status, worker.(pc := pc.value)))
  {
    hide Least;
  }

  lemma StepKeepsCover(c: Config, s: State, w: nat, step: Step)
    requires c.delays != [] && w in s.workers && StepEnabled(c, s.workers[w], step)
    requires s.everPublished && !Done(s.row) ==> Covered(c, s)
    ensures var t := AfterStep(c, s, w, step); t.everPublished && !Done(t.row) ==> Covered(c, t)
  {
    hide NextPc, NextRow, StepEnabled, Done, Carries, Least;
    var t, worker := AfterStep(c, s, w, step), s.workers[w];
    if s.main != multiset{} || s.retry != multiset{} || step.Return? || step.Schedule? || step.Defer? {
      QueuesGrow(c, s, w, step);
      QueuedCopy(c, t);
    } else if t.everPublished && !Done(t.row) {
      if t.row != s.row || Carries(c, s.row.status, worker) {
        StepCarries(c, s.row, s.now, worker, step);
        CarriedBy(c, t, w);
      } else {
        var v :| v in s.workers && Carries(c, s.row.status, s.workers[v]);
        assert v in t.workers && t.workers[v] == s.workers[v];
        CarriedBy(c, t, v);
      }
    }
  }

  lemma QueuesGrow(c: Config, s: State, w: nat, step: Step)
    requires c.delays != [] && w in s.workers && StepEnabled(c, s.workers[w], step)
    requires s.main != multiset{} || s.retry != multiset{} || step.Return? || step.Schedule? || step.Defer?
    ensures var t := AfterStep(c, s, w, step); t.main != multiset{} || t.retry != multiset{}
  {
    hide NextPc, NextRow, Least, Moved;
    var t := AfterStep(c, s, w, step);
    assert |t.main| >= |s.main| && |t.retry| >= |s.retry|;
    assert step.Return? ==> |t.main| > 0;
    assert step.Schedule? || step.Defer? ==> |t.retry| > 0;
  }

  lemma EventKeepsCover(c: Config, s: State, event: Event)
    requires Enabled(c, s, Environment(event))
    requires s.everPublished && !Done(s.row) ==> Covered(c, s)
    ensures var t := AfterEvent(c, s, event); t.everPublished && !Done(t.row) ==> Covered(c, t)
  {
    hide OutboxClaimable, Backoff, Carries;
    var t := AfterEvent(c, s, event);
    match event
    case Deliver(w, attempt) =>
      FreshWorkerCarries(c, s.row.status, attempt);
      CarriedBy(c, t, w);
    case Expire(delayed) =>
      assert delayed.attempt in t.main;
    case OutboxSend(p) =>
      assert 0 in t.main;
    case _ =>
  }

  lemma FreshWorkerCarries(c: Config, status: Status, attempt: nat)
    ensures Carries(c, status, Worker(attempt, Received))
  {
  }

  lemma NotLostKept(c: Config, s: State, a: Action)
    requires c.delays != [] && Enabled(c, s, a) && NotLost(c, s)
    ensures NotLost(c, Apply(c, s, a))
  {
    hide Done, Covered, NextPc, NextRow, Moved, Scheduled, StepEnabled, Backoff, OutboxClaimable;
    match a
    case Environment(event) => EventKeepsCover(c, s, event);
    case Work(w, step) => StepKeepsCover(c, s, w, step);
  }

  lemma {:induction false} NotLostOverRuns(c: Config, s: State, actions: seq<Action>, t: State)
    requires c.delays != [] && IsRun(c, s, actions, t) && NotLost(c, s)
    ensures NotLost(c, t)
    decreases |actions|
  {
    hide Enabled, Apply, NotLost;
    if actions != [] {
      NotLostKept(c, s, actions[0]);
      NotLostOverRuns(c, Apply(c, s, actions[0]), actions[1..], t);
    }
  }

  /**
   * At every point of every run the message is finished, or its outbox row is still unpublished,
   * or a copy of its job waits in a queue or is held by a worker that carries it.
   */
  lemma NoMessageIsLost(c: Config, now: int, actions: seq<Action>, t: State)
    requires c.delays != [] && IsRun(c, Start(now), actions, t)
    ensures || Done(t.row)
            || !t.outbox.published
            || t.main != multiset{}
            || t.retry != multiset{}
            || exists w :: w in t.workers && Carries(c, t.row.status, t.workers[w])
  {
    hide IsRun, Done, Carries;
    NotLostOverRuns(c, Start(now), actions, t);
  }

  // ----- and it can still be finished -----

  /** Steps in which nothing fails: no crash, no refused send, no lost write. */
  predicate Faultless(a: Action)
  {
    match a
    case Environment(event) => !event.PublisherCrash? && !event.OutboxFail?
    case Work(_, step) =>
      !step.Return? && !step.FailBeforeSend? && !step.SendRefused? && !step.SendUnseen? && !step.RecordFails?
  }

  ghost predicate CanFinish(c: Config, s: State)
    requires c.delays != []
  {
    exists actions, t ::
      IsRun(c, s, actions, t) && Done(t.row) && forall a :: a in actions ==> Faultless(a)
  }

  lemma Finished(c: Config, s: State)
    requires c.delays != [] && Done(s.row)
    ensures CanFinish(c, s)
  {
    assert IsRun(c, s, [], s);
  }

  lemma ThenFinish(c: Config, s: State, a: Action)
    requires c.delays != [] && Enabled(c, s, a) && Faultless(a) && CanFinish(c, Apply(c, s, a))
    ensures CanFinish(c, s)
  {
    hide Enabled, Apply, Done, Faultless;
    var actions, t :|
      IsRun(c, Apply(c, s, a), actions, t) && Done(t.row) && forall x :: x in actions ==> Faultless(x);
    var all := [a] + actions;
    assert all[0] == a && all[1..] == actions;
    assert IsRun(c, s, all, t);
  }

  lemma FinishFromSending(c: Config, s: State, w: nat)
    requires c.delays != [] && w in s.workers && s.workers[w].pc.Sending?
    ensures CanFinish(c, s)
  {
    hide CanFinish, IsRun, OutboxClaimable, Backoff, Least;
    var s1 := Apply(c, s, Work(w, SendAccepted(0)));
    Finished(c, Apply(c, s1, Work(w, Record)));
    ThenFinish(c, s1, Work(w, Record));
    ThenFinish(c, s, Work(w, SendAccepted(0)));
  }

  lemma FinishFromReceived(c: Config, s: State, w: nat)
    requires c.delays != [] && w in s.workers && s.workers[w].pc.Received?
    ensures CanFinish(c, s)
  {
    hide CanFinish, IsRun, OutboxClaimable, Backoff, Least;
    if Done(s.row) {
      Finished(c, s);
      return;
    }
    var to := if Leased(s.row, s.now) then s.row.lease.value else s.now;
    var wait := Environment(Tick(to));
    var s1 := Apply(c, s, wait);
    FinishFromSending(c, Apply(c, s1, Work(w, Claim)), w);
    ThenFinish(c, s1, Work(w, Claim));
    ThenFinish(c, s, wait);
  }

  lemma FinishFromMain(c: Config, s: State, attempt: nat)
    requires c.delays != [] && attempt in s.main
    ensures CanFinish(c, s)
  {
    hide CanFinish, IsRun, OutboxClaimable, Backoff, Least;
    var w := Unused(s.workers.Keys);
    var a := Environment(Deliver(w, attempt));
    FinishFromReceived(c, Apply(c, s, a), w);
    ThenFinish(c, s, a);
  }

  lemma FinishFromRetry(c: Config, s: State, delayed: Delayed)
    requires c.delays != [] && delayed in s.retry
    ensures CanFinish(c, s)
  {
    hide CanFinish, IsRun, OutboxClaimable, Backoff, Least;
    FinishFromMain(c, Apply(c, s, Environment(Expire(delayed))), delayed.attempt);
    ThenFinish(c, s, Environment(Expire(delayed)));
  }

  lemma FinishFromClaimedEvent(c: Config, s: State, p: nat)
    requires c.delays != [] && p in s.publishers && !s.publishers[p].sent
    ensures CanFinish(c, s)
  {
    hide CanFinish, IsRun, OutboxClaimable, Backoff, Least;
    var a := Environment(OutboxSend(p));
    assert 0 in Apply(c, s, a).main;
    FinishFromMain(c, Apply(c, s, a), 0);
    ThenFinish(c, s, a);
  }

  lemma FinishFromOutbox(c: Config, s: State)
    requires c.delays != [] && !s.outbox.published
    ensures CanFinish(c, s)
  {
    hide CanFinish, IsRun, Backoff, Least;
    var p := Unused(s.publishers.Keys);
    var at := if s.outbox.nextAttemptAt > s.now then s.outbox.nextAttemptAt else s.now;
    var to := if s.outbox.lease.Some? && s.outbox.lease.value > at then s.outbox.lease.value else at;
    var wait, claim := Environment(Tick(to)), Environment(OutboxClaim(p));
    var s1 := Apply(c, s, wait);
    FinishFromClaimedEvent(c, Apply(c, s1, claim), p);
    ThenFinish(c, s1, claim);
    ThenFinish(c, s, wait);
  }

  lemma FinishByFailing(c: Config, s: State, w: nat)
    requires c.delays != [] && w in s.workers && (s.workers[w].pc.PermanentError? || s.workers[w].pc.GivingUp?)
    ensures CanFinish(c, s)
  {
    hide CanFinish, IsRun, OutboxClaimable, Backoff, Least;
    Finished(c, Apply(c, s, Work(w, MarkFailure)));
    ThenFinish(c, s, Work(w, MarkFailure));
  }

  lemma FinishFromRetrying(c: Config, s: State, w: nat)
    requires c.delays != [] && w in s.workers && s.workers[w].pc.Retrying? && Carries(c, s.row.status, s.workers[w])
    ensures CanFinish(c, s)
  {
    hide CanFinish, IsRun, OutboxClaimable, Backoff, Least;
    var attempt := s.workers[w].attempt;
    if Done(s.row) {
      Finished(c, s);
    } else if attempt < |c.delays| {
      FinishFromRetry(c, Apply(c, s, Work(w, Schedule)), Delayed(attempt + 1, c.delays[attempt]));
      ThenFinish(c, s, Work(w, Schedule));
    } else {
      FinishByFailing(c, Apply(c, s, Work(w, ReadExhausted)), w);
      ThenFinish(c, s, Work(w, ReadExhausted));
    }
  }

  lemma FinishByDeferring(c: Config, s: State, w: nat)
    requires c.delays != [] && w in s.workers && s.workers[w].pc.Deferring?
    ensures CanFinish(c, s)
  {
    hide CanFinish, IsRun, OutboxClaimable, Backoff, Least;
    FinishFromRetry(c, Apply(c, s, Work(w, Defer)), Delayed(s.workers[w].attempt, Least(c.delays)));
    ThenFinish(c, s, Work(w, Defer));
  }

  lemma FinishFromCarrier(c: Config, s: State, w: nat)
    requires c.delays != [] && w in s.workers && Carries(c, s.row.status, s.workers[w]) && !Done(s.row)
    ensures CanFinish(c, s)
  {
    hide CanFinish, IsRun, OutboxClaimable, Backoff, Least;
    match s.workers[w].pc
    case Received => FinishFromReceived(c, s, w);
    case NotClaimed =>
      FinishByDeferring(c, Apply(c, s, Work(w, ReadUnclaimed)), w);
      ThenFinish(c, s, Work(w, ReadUnclaimed));
    case Deferring => FinishByDeferring(c, s, w);
    case Sending(_) => FinishFromSending(c, s, w);
    case Accepted(_, _) =>
      Finished(c, Apply(c, s, Work(w, Record)));
      ThenFinish(c, s, Work(w, Record));
    case RetryableError(_) =>
      FinishFromRetrying(c, Apply(c, s, Work(w, MarkQueued)), w);
      ThenFinish(c, s, Work(w, MarkQueued));
    case PermanentError(_) => FinishByFailing(c, s, w);
    case Retrying => FinishFromRetrying(c, s, w);
    case GivingUp => FinishByFailing(c, s, w);
  }

  /** From every reachable state, crashes and races included, the message can still be finished without a fault. */
  lemma EveryMessageCanStillFinish(c: Config, now: int, actions: seq<Action>, t: State)
    requires c.delays != [] && IsRun(c, Start(now), actions, t)
    ensures CanFinish(c, t)
  {
    hide IsRun, CanFinish, Carries, Done;
    NoMessageIsLost(c, now, actions, t);
    if Done(t.row) {
      Finished(c, t);
    } else if !t.outbox.published {
      FinishFromOutbox(c, t);
    } else if t.main != multiset{} {
      var attempt :| attempt in t.main;
      FinishFromMain(c, t, attempt);
    } else if t.retry != multiset{} {
      var delayed :| delayed in t.retry;
      FinishFromRetry(c, t, delayed);
    } else {
      var w :| w in t.workers && Carries(c, t.row.status, t.workers[w]);
      FinishFromCarrier(c, t, w);
    }
  }

  // ----- sends, claims and the retry budget -----

  function Senders(workers: map<nat, Worker>): set<nat>
  {
    set w | w in workers && workers[w].pc.Sending?
  }

  ghost predicate Counted(s: State)
  {
    s.accepts <= s.sends && s.sends + |Senders(s.workers)| <= s.row.attemptCount
  }

  /** Every job copy was retried at most as often as delays are configured. */
  ghost predicate WithinBudget(c: Config, s: State)
  {
    && (forall a :: a in s.main ==> a <= |c.delays|)
    && (forall d :: d in s.retry ==> d.attempt <= |c.delays| && d.delay in c.delays)
    && (forall w :: w in s.workers ==> s.workers[w].attempt <= |c.delays|)
  }

  lemma SendersMoved(workers: map<nat, Worker>, w: nat, pc: Option<Pc>)
    requires w in workers
    ensures |Senders(Moved(workers, w, pc))| + (if workers[w].pc.Sending? then 1 else 0)
         == |Senders(workers)| + (if pc.Some? && pc.value.Sending? then 1 else 0)
  {
    var before, after := Senders(workers), Senders(Moved(workers, w, pc));
    assert w in before <==> workers[w].pc.Sending?;
    if !(pc.Some? && pc.value.Sending?) {
      assert after == before - {w};
    } else if w in before {
      assert after == before;
    } else {
      assert after == before + {w};
    }
  }

  /** A worker starts sending only by a claim, which is counted, and every send ends its sending. */
  lemma SendIsCounted(c: Config, row: Row, now: int, worker: Worker, step: Step)
    requires StepEnabled(c, worker, step)
    ensures var pc := NextPc(c, row, now, worker, step);
            && (step.SendAccepted? || step.SendRefused? || step.SendUnseen? ==> worker.pc.Sending? && !pc.value.Sending?)
            && (pc.Some? && pc.value.Sending? ==> !worker.pc.Sending?)
            && NextRow(c, row, now, worker, step).attemptCount
               == row.attemptCount + if pc.Some? && pc.value.Sending? then 1 else 0
  {
  }

  lemma CountedKept(c: Config, s: State, a: Action)
    requires c.delays != [] && Enabled(c, s, a) && Counted(s)
    ensures Counted(Apply(c, s, a))
  {
    hide NextPc, NextRow, Moved, Scheduled, StepEnabled, Backoff, OutboxClaimable, Senders;
    match a
    case Work(w, step) =>
      SendersMoved(s.workers, w, NextPc(c, s.row, s.now, s.workers[w], step));
      SendIsCounted(c, s.row, s.now, s.workers[w], step);
    case Environment(event) =>
      match event
      case Deliver(w, attempt) => SendersJoined(s.workers, w, attempt);
      case _ =>
  }

  lemma SendersJoined(workers: map<nat, Worker>, w: nat, attempt: nat)
    requires w !in workers
    ensures Senders(workers[w := Worker(attempt, Received)]) == Senders(workers)
  {
  }

  lemma ScheduledWithinBudget(c: Config, worker: Worker, step: Step, d: Delayed)
    requires c.delays != [] && StepEnabled(c, worker, step) && worker.attempt <= |c.delays|
    requires d in Scheduled(c, worker, step)
    ensures d.attempt <= |c.delays| && d.delay in c.delays
  {
  }

  lemma StepWithinBudget(c: Config, s: State, w: nat, step: Step)
    requires c.delays != [] && w in s.workers && StepEnabled(c, s.workers[w], step) && WithinBudget(c, s)
    ensures WithinBudget(c, AfterStep(c, s, w, step))
  {
    hide NextPc, NextRow, Scheduled, StepEnabled;
    var t := AfterStep(c, s, w, step);
    forall d | d in t.retry
      ensures d.attempt <= |c.delays| && d.delay in c.delays
    {
      if d !in s.retry {
        ScheduledWithinBudget(c, s.workers[w], step, d);
      }
    }
  }

  lemma QuietEvent(c: Config, s: State, event: Event)
    requires Enabled(c, s, Environment(event)) && !event.Expire? && !event.OutboxSend? && !event.Deliver?
    ensures var t := AfterEvent(c, s, event);
            && t.main == s.main && t.retry == s.retry && t.workers == s.workers && t.accepts == s.accepts
            && (event.Tick? || t.now == s.now) && (event.Receipt? || t.row == s.row)
  {
    hide Backoff, OutboxClaimable;
  }

  lemma CopyArrives(c: Config, s: State, x: nat, retry: multiset<Delayed>, t: State)
    requires WithinBudget(c, s) && x <= |c.delays| && retry <= s.retry
    requires t.main == s.main + multiset{x} && t.retry == retry && t.workers == s.workers
    ensures WithinBudget(c, t)
  {
  }

  lemma CopyIsTaken(c: Config, s: State, w: nat, attempt: nat)
    requires WithinBudget(c, s) && attempt in s.main
    ensures WithinBudget(c, s.(main := s.main - multiset{attempt}, workers := s.workers[w := Worker(attempt, Received)]))
  {
  }

  lemma ExpiryWithinBudget(c: Config, s: State, delayed: Delayed)
    requires delayed in s.retry && WithinBudget(c, s)
    ensures WithinBudget(c, AfterEvent(c, s, Expire(delayed)))
  {
    assert delayed.attempt <= |c.delays|;
    hide WithinBudget;
    CopyArrives(c, s, delayed.attempt, s.retry - multiset{delayed}, AfterEvent(c, s, Expire(delayed)));
  }

  lemma EventWithinBudget(c: Config, s: State, event: Event)
    requires Enabled(c, s, Environment(event)) && WithinBudget(c, s)
    ensures WithinBudget(c, AfterEvent(c, s, event))
  {
    hide Backoff, OutboxClaimable, WithinBudget;
    if event.Expire? {
      ExpiryWithinBudget(c, s, event.delayed);
    } else if event.OutboxSend? {
      CopyArrives(c, s, 0, s.retry, AfterEvent(c, s, event));
    } else if event.Deliver? {
      CopyIsTaken(c, s, event.w, event.attempt);
    } else {
      QuietEvent(c, s, event);
      hide AfterEvent, Enabled;
      QuietWithinBudget(c, s, AfterEvent(c, s, event));
    }
  }

  lemma QuietWithinBudget(c: Config, s: State, t: State)
    requires WithinBudget(c, s) && t.main == s.main && t.retry == s.retry && t.workers == s.workers
    ensures WithinBudget(c, t)
  {
  }

  lemma WithinBudgetKept(c: Config, s: State, a: Action)
    requires c.delays != [] && Enabled(c, s, a) && WithinBudget(c, s)
    ensures WithinBudget(c, Apply(c, s, a))
  {
    hide WithinBudget, AfterStep, AfterEvent, StepEnabled;
    match a
    case Environment(event) => EventWithinBudget(c, s, event);
    case Work(w, step) => StepWithinBudget(c, s, w, step);
  }

  lemma {:induction false} CountsOverRuns(c: Config, s: State, actions: seq<Action>, t: State)
    requires c.delays != [] && IsRun(c, s, actions, t) && Counted(s) && WithinBudget(c, s)
    ensures Counted(t) && WithinBudget(c, t)
    decreases |actions|
  {
    hide Enabled, Apply, Counted, WithinBudget;
    if actions != [] {
      CountedKept(c, s, actions[0]);
      WithinBudgetKept(c, s, actions[0]);
      CountsOverRuns(c, Apply(c, s, actions[0]), actions[1..], t);
    }
  }

  /** Provider calls never exceed the recorded attempts, and retries never exceed the configured delays. */
  lemma SendsAreCounted(c: Config, now: int, actions: seq<Action>, t: State)
    requires c.delays != [] && IsRun(c, Start(now), actions, t)
    ensures t.accepts <= t.sends <= t.row.attemptCount
    ensures WithinBudget(c, t)
  {
    hide IsRun;
    CountsOverRuns(c, Start(now), actions, t);
  }

  lemma ProviderIdStays(c: Config, s: State, a: Action)
    requires c.delays != [] && Enabled(c, s, a) && s.row.providerMessageId.Some?
    ensures var t := Apply(c, s, a);
            t.row.providerMessageId.Some? && t.row.attemptCount == s.row.attemptCount
  {
    hide OutboxClaimable, Backoff, Least, NextPc, Moved, Scheduled, Leased;
    match a
    case Environment(event) =>
    case Work(w, step) =>
  }

  /** Once a provider id is recorded it stays, and no claim ever succeeds again. */
  lemma {:induction false} NoClaimAfterProviderId(c: Config, s: State, actions: seq<Action>, t: State)
    requires c.delays != [] && IsRun(c, s, actions, t) && s.row.providerMessageId.Some?
    ensures t.row.providerMessageId.Some? && t.row.attemptCount == s.row.attemptCount
    decreases |actions|
  {
    hide Apply, Enabled;
    if actions != [] {
      ProviderIdStays(c, s, actions[0]);
      NoClaimAfterProviderId(c, Apply(c, s, actions[0]), actions[1..], t);
    }
  }

  // ----- where a status comes from -----

  /** The actions that can put the row in a status. */
  predicate Writes(a: Action, status: Status)
  {
    || a == Environment(Receipt(status))
    || (a.Work? && (|| (status.Processing? && a.step.Claim?)
                    || (status.Queued? && a.step.MarkQueued?)
                    || (status.Submitted? && (a.step.Record? || a.step == RecordFails(true)))
                    || (status.Failed? && a.step.MarkFailure?)))
  }

  /** What each action leaves in the status column. */
  lemma StatusAfter(c: Config, s: State, a: Action)
    requires c.delays != [] && Enabled(c, s, a)
    ensures var row := Apply(c, s, a).row;
            && (a.Environment? ==> row.status == if a.event.Receipt? then a.event.status else s.row.status)
            && (a.Work? && a.step.MarkFailure? ==> row.status == Failed && row.lease == None)
            && (a.Work? && a.step.MarkQueued? ==> row.status == Queued && row.lease == None)
            && (a.Work? && (a.step.Record? || a.step == RecordFails(true)) ==>
                  row.status == Submitted && row.lease == None && row.providerMessageId.Some?)
            && (a.Work? && a.step.Claim? && row != s.row ==>
                  && row.status == Processing && row.lease == Some(s.now + c.leaseMs)
                  && row.attemptCount == s.row.attemptCount + 1)
            && (row.status == s.row.status || Writes(a, row.status))
  {
    hide OutboxClaimable, Backoff, Least, Moved, Scheduled, NextPc, Claimable;
  }

  lemma {:induction false} StatusIsWritten(c: Config, s: State, actions: seq<Action>, t: State)
    requires c.delays != [] && IsRun(c, s, actions, t)
    ensures t.row.status == s.row.status || exists a :: a in actions && Writes(a, t.row.status)
    decreases |actions|
  {
    hide Enabled, Apply, Writes;
    if actions != [] {
      StatusAfter(c, s, actions[0]);
      StatusIsWritten(c, Apply(c, s, actions[0]), actions[1..], t);
    }
  }

  /**
   * In every run the row's status was put there by an action of its own kind: sent, delivered and
   * read only by such a receipt, submitted only by a record, failed only by a failure or a receipt.
   */
  lemma StatusHasItsCause(c: Config, now: int, actions: seq<Action>, t: State)
    requires c.delays != [] && IsRun(c, Start(now), actions, t)
    ensures t.row.status.Sent? || t.row.status.Delivered? || t.row.status.Read? ==>
              Environment(Receipt(t.row.status)) in actions
    ensures t.row.status.Submitted? ==>
              exists a :: a in actions && a.Work? && (a.step.Record? || a.step == RecordFails(true))
    ensures t.row.status.Failed? ==>
              Environment(Receipt(Failed)) in actions || exists a :: a in actions && a.Work? && a.step.MarkFailure?
    ensures t.row.status.Processing? ==> exists a :: a in actions && a.Work? && a.step.Claim?
    ensures !t.row.status.Created? && !t.row.status.Cancelled? && !t.row.status.Expired?
  {
    StatusIsWritten(c, Start(now), actions, t);
    ReceiptsAreReceipts(c, Start(now), actions, t);
    hide IsRun;
  }

  lemma {:induction false} ReceiptsAreReceipts(c: Config, s: State, actions: seq<Action>, t: State)
    requires c.delays != [] && IsRun(c, s, actions, t)
    ensures forall status :: Environment(Receipt(status)) in actions ==>
              status.Sent? || status.Delivered? || status.Read? || status.Failed?
    decreases |actions|
  {
    hide Apply;
    if actions != [] {
      ReceiptsAreReceipts(c, Apply(c, s, actions[0]), actions[1..], t);
      assert actions == [actions[0]] + actions[1..];
    }
  }

  // ----- when every dispatch is recorded within its lease -----

  predicate InFlight(pc: Pc)
  {
    pc.Sending? || pc.Accepted? || pc.RetryableError? || pc.PermanentError?
  }

  predicate Flying(s: State, w: nat)
  {
    w in s.workers && InFlight(s.workers[w].pc)
  }

  /**
   * What may go wrong with a dispatch under way: it outlasts its lease; its worker lets go of the
   * job after seeing the provider's acceptance; the update that records it reports an error; or
   * the worker never sees the acceptance, because the request timed out or the reply is unusable.
   */
  datatype Faults = Faults(outlast: bool, crash: bool, lose: bool, unseen: bool)

  const PROMPT := Faults(false, false, false, false)

  predicate Permits(e: Faults, s: State, a: Action)
  {
    match a
    case Environment(event) =>
      event.Tick? && !e.outlast ==> forall w :: w in s.workers && Flying(s, w) ==> event.to < s.workers[w].pc.lease
    case Work(w, step) =>
      && (step.RecordFails? ==> e.lose)
      && (step.SendUnseen? ==> e.unseen)
      && (step.Return? && w in s.workers && s.workers[w].pc.Accepted? ==> e.crash)
  }

  /** A run in which nothing else goes wrong with a dispatch. */
  ghost predicate IsRunUnder(c: Config, e: Faults, s: State, actions: seq<Action>, t: State)
    requires c.delays != []
    decreases |actions|
  {
    if actions == [] then s == t
    else
      && Enabled(c, s, actions[0]) && Permits(e, s, actions[0])
      && IsRunUnder(c, e, Apply(c, s, actions[0]), actions[1..], t)
  }

  ghost predicate OneInFlight(s: State)
  {
    forall v, w :: Flying(s, v) && Flying(s, w) ==> v == w
  }

  /** A dispatch under way keeps the row from being claimed: out of play, or under its running lease. */
  predicate GuardedBy(row: Row, now: int, lease: int)
  {
    && now < lease && row.providerMessageId == None
    && (TerminalOrSubmitted(row.status) || (row.status.Processing? && row.lease == Some(lease)))
  }

  ghost predicate Guarded(s: State)
  {
    forall w :: Flying(s, w) ==> GuardedBy(s.row, s.now, s.workers[w].pc.lease)
  }

  ghost predicate AcceptedOnce(s: State)
  {
    && (s.accepts == 0 || s.accepts == 1)
    && (s.row.providerMessageId.Some? ==> s.accepts == 1)
    && (forall w :: Flying(s, w) ==> s.accepts == if s.workers[w].pc.Accepted? then 1 else 0)
    && (s.accepts == 1 && s.row.providerMessageId == None ==> exists w :: Flying(s, w) && s.workers[w].pc.Accepted?)
  }

  ghost predicate Exclusive(s: State)
  {
    OneInFlight(s) && Guarded(s) && AcceptedOnce(s)
  }

  /** A flight goes on under its lease, or begins by a claim of a row that nobody guards. */
  lemma StepFlight(c: Config, row: Row, now: int, worker: Worker, step: Step)
    requires StepEnabled(c, worker, step) && !step.RecordFails?
    ensures var pc := NextPc(c, row, now, worker, step);
            && (pc.Some? && InFlight(pc.value) ==>
                  if step.Claim? then Claimable(row, now) && pc == Some(Sending(now + c.leaseMs))
                  else InFlight(worker.pc) && pc.value.lease == worker.pc.lease && NextRow(c, row, now, worker, step) == row)
            && (pc.Some? && pc.value.Accepted? ==> step.SendAccepted?)
            && (step.SendAccepted? ==> worker.pc.Sending? && pc.Some? && pc.value.Accepted?)
            && (step.Record? ==> worker.pc.Accepted? && pc == Some(Acking))
            && (worker.pc.Accepted? ==> step.Record? || step.Return?)
            && (if step.Record? then NextRow(c, row, now, worker, step).providerMessageId.Some?
                else NextRow(c, row, now, worker, step).providerMessageId == row.providerMessageId)
  {
  }

  lemma ClaimGuards(row: Row, now: int, leaseMs: int)
    requires leaseMs > 0 && Claimable(row, now)
    ensures GuardedBy(Claimed(row, now, leaseMs), now, now + leaseMs)
  {
  }

  lemma ClaimedRow(c: Config, row: Row, now: int, worker: Worker)
    requires StepEnabled(c, worker, Claim) && Claimable(row, now)
    ensures NextRow(c, row, now, worker, Claim) == Claimed(row, now, c.leaseMs)
  {
  }

  lemma GuardsAgainstClaims(row: Row, now: int, lease: int)
    requires GuardedBy(row, now, lease)
    ensures !Claimable(row, now) && row.providerMessageId == None
  {
  }

  /** Whatever another worker does to a guarded row leaves it as it is or takes it out of play. */
  lemma OthersKeepGuard(c: Config, row: Row, now: int, worker: Worker, step: Step, lease: int)
    requires StepEnabled(c, worker, step) && GuardedBy(row, now, lease) && !InFlight(worker.pc)
    ensures GuardedBy(NextRow(c, row, now, worker, step), now, lease)
  {
  }

  lemma StepKeepsFlight(c: Config, s: State, w: nat, step: Step)
    requires c.delays != [] && c.leaseMs > 0 && Enabled(c, s, Work(w, step)) && !step.RecordFails?
    requires OneInFlight(s) && Guarded(s)
    ensures var t := AfterStep(c, s, w, step); OneInFlight(t) && Guarded(t)
  {
    hide NextPc, NextRow, Scheduled, StepEnabled, GuardedBy, Claimable, Claimed, Least;
    var t, worker := AfterStep(c, s, w, step), s.workers[w];
    StepFlight(c, s.row, s.now, worker, step);
    forall v | v != w && Flying(t, v)
      ensures Flying(s, v) && !Flying(t, w) && GuardedBy(t.row, t.now, t.workers[v].pc.lease)
    {
      assert Flying(s, v) && !Flying(s, w);
      GuardsAgainstClaims(s.row, s.now, s.workers[v].pc.lease);
      OthersKeepGuard(c, s.row, s.now, worker, step, s.workers[v].pc.lease);
    }
    if Flying(t, w) {
      if step.Claim? {
        ClaimGuards(s.row, s.now, c.leaseMs);
        ClaimedRow(c, s.row, s.now, worker);
      } else {
        assert Flying(s, w);
      }
    }
  }

  lemma FlightCounted(c: Config, s: State, w: nat, step: Step)
    requires c.delays != [] && Enabled(c, s, Work(w, step)) && Permits(PROMPT, s, Work(w, step)) && Exclusive(s)
    requires Flying(AfterStep(c, s, w, step), w)
    ensures var t := AfterStep(c, s, w, step); t.accepts == if t.workers[w].pc.Accepted? then 1 else 0
  {
    hide NextPc, NextRow, Scheduled, StepEnabled, GuardedBy, Claimable, Claimed, Least;
    StepFlight(c, s.row, s.now, s.workers[w], step);
    if step.Claim? {
      ClaimableIsUnaccepted(s);
    } else {
      assert Flying(s, w);
    }
  }

  lemma ClaimableIsUnaccepted(s: State)
    requires Exclusive(s) && Claimable(s.row, s.now)
    ensures s.accepts == 0
  {
    hide GuardedBy, InFlight;
    if s.accepts == 1 {
      var u :| Flying(s, u) && s.workers[u].pc.Accepted?;
      GuardsAgainstClaims(s.row, s.now, s.workers[u].pc.lease);
    }
  }

  lemma StepKeepsAcceptance(c: Config, s: State, w: nat, step: Step)
    requires c.delays != [] && Enabled(c, s, Work(w, step)) && Permits(PROMPT, s, Work(w, step)) && Exclusive(s)
    ensures AcceptedOnce(AfterStep(c, s, w, step))
  {
    hide NextPc, NextRow, Scheduled, StepEnabled, GuardedBy, Claimable, Claimed, Least;
    var t := AfterStep(c, s, w, step);
    StepFlight(c, s.row, s.now, s.workers[w], step);
    if step.SendAccepted? || step.Record? {
      assert Flying(s, w);
      GuardsAgainstClaims(s.row, s.now, s.workers[w].pc.lease);
    }
    forall v | Flying(t, v)
      ensures t.accepts == if t.workers[v].pc.Accepted? then 1 else 0
    {
      if v == w {
        FlightCounted(c, s, w, step);
      } else {
        assert Flying(s, v);
      }
    }
    if step.SendAccepted? {
      assert Flying(t, w) && t.workers[w].pc.Accepted?;
    } else if t.accepts == 1 && t.row.providerMessageId == None {
      var u :| Flying(s, u) && s.workers[u].pc.Accepted?;
      assert Flying(t, u) && t.workers[u].pc.Accepted?;
    }
  }

  lemma StepKeepsExclusive(c: Config, s: State, w: nat, step: Step)
    requires c.delays != [] && c.leaseMs > 0 && Enabled(c, s, Work(w, step))
    requires Permits(PROMPT, s, Work(w, step)) && Exclusive(s)
    ensures Exclusive(AfterStep(c, s, w, step))
  {
    hide Enabled, AfterStep, OneInFlight, Guarded, AcceptedOnce;
    StepKeepsFlight(c, s, w, step);
    StepKeepsAcceptance(c, s, w, step);
  }

  lemma SameWorkersStayExclusive(s: State, t: State)
    requires Exclusive(s) && t.workers == s.workers && t.row == s.row && t.accepts == s.accepts
    requires t.now == s.now || forall w :: Flying(s, w) ==> t.now < s.workers[w].pc.lease
    ensures Exclusive(t)
  {
    hide GuardedBy;
    assert forall w :: Flying(t, w) <==> Flying(s, w);
    forall w | Flying(t, w)
      ensures GuardedBy(t.row, t.now, t.workers[w].pc.lease)
    {
      if t.now != s.now {
        GuardLasts(s.row, s.now, t.now, s.workers[w].pc.lease);
      }
    }
  }

  lemma ReceiptKeepsExclusive(s: State, status: Status)
    requires Exclusive(s) && s.row.providerMessageId.Some?
    ensures Exclusive(s.(row := s.row.(status := status)))
  {
    hide GuardedBy;
    forall w
      ensures !Flying(s, w)
    {
      if Flying(s, w) {
        GuardsAgainstClaims(s.row, s.now, s.workers[w].pc.lease);
      }
    }
    assert forall w :: Flying(s.(row := s.row.(status := status)), w) ==> Flying(s, w);
  }

  lemma JoinKeepsExclusive(s: State, w: nat, attempt: nat)
    requires Exclusive(s) && w !in s.workers && attempt in s.main
    ensures Exclusive(s.(main := s.main - multiset{attempt}, workers := s.workers[w := Worker(attempt, Received)]))
  {
    hide GuardedBy;
    var t := s.(main := s.main - multiset{attempt}, workers := s.workers[w := Worker(attempt, Received)]);
    assert forall v :: Flying(t, v) ==> Flying(s, v) && t.workers[v] == s.workers[v];
    assert forall v :: Flying(s, v) ==> Flying(t, v) && t.workers[v] == s.workers[v];
  }

  lemma EventKeepsExclusive(c: Config, s: State, event: Event)
    requires Enabled(c, s, Environment(event)) && Permits(PROMPT, s, Environment(event)) && Exclusive(s)
    ensures Exclusive(AfterEvent(c, s, event))
  {
    hide OutboxClaimable, Backoff, Exclusive;
    var t := AfterEvent(c, s, event);
    match event
    case Deliver(w, attempt) => JoinKeepsExclusive(s, w, attempt);
    case Receipt(status) => ReceiptKeepsExclusive(s, status);
    case _ => SameWorkersStayExclusive(s, t);
  }

  lemma GuardLasts(row: Row, now: int, to: int, lease: int)
    requires GuardedBy(row, now, lease) && to < lease
    ensures GuardedBy(row, to, lease)
  {
  }

  lemma {:induction false} ExclusiveOverRuns(c: Config, s: State, actions: seq<Action>, t: State)
    requires c.delays != [] && c.leaseMs > 0 && IsRunUnder(c, PROMPT, s, actions, t) && Exclusive(s)
    ensures Exclusive(t)
    decreases |actions|
  {
    hide Enabled, AfterStep, AfterEvent, Permits, Exclusive;
    if actions != [] {
      match actions[0]
      case Environment(event) =>
        EventKeepsExclusive(c, s, event);
        ExclusiveOverRuns(c, Apply(c, s, actions[0]), actions[1..], t);
      case Work(w, step) =>
        StepKeepsExclusive(c, s, w, step);
        ExclusiveOverRuns(c, Apply(c, s, actions[0]), actions[1..], t);
    }
  }

  /** Then dispatches never overlap and the provider accepts the message at most once. */
  lemma PromptDispatchIsExclusive(c: Config, now: int, actions: seq<Action>, t: State)
    requires c.delays != [] && c.leaseMs > 0 && IsRunUnder(c, PROMPT, Start(now), actions, t)
    ensures t.accepts <= 1
    ensures forall v, w :: Flying(t, v) && Flying(t, w) ==> v == w
  {
    hide IsRunUnder;
    ExclusiveOverRuns(c, Start(now), actions, t);
  }

  ghost predicate MayAcceptTwice(c: Config, e: Faults, s: State)
    requires c.delays != []
  {
    exists actions, t :: IsRunUnder(c, e, s, actions, t) && t.accepts == 2
  }

  lemma TwiceLater(c: Config, e: Faults, s: State, a: Action)
    requires c.delays != [] && Enabled(c, s, a) && Permits(e, s, a) && MayAcceptTwice(c, e, Apply(c, s, a))
    ensures MayAcceptTwice(c, e, s)
  {
    hide Enabled, Apply, Permits;
    var actions, t :| IsRunUnder(c, e, Apply(c, s, a), actions, t) && t.accepts == 2;
    assert ([a] + actions)[0] == a && ([a] + actions)[1..] == actions;
    assert IsRunUnder(c, e, s, [a] + actions, t);
  }

  lemma TwiceNow(c: Config, e: Faults, s: State)
    requires c.delays != [] && s.accepts == 2
    ensures MayAcceptTwice(c, e, s)
  {
    assert IsRunUnder(c, e, s, [], s);
  }

  lemma TwiceOnceFree(c: Config, e: Faults, s: State, w: nat)
    requires c.delays != [] && s.accepts == 1 && Claimable(s.row, s.now)
    requires w in s.workers && s.workers[w].pc.Received?
    ensures MayAcceptTwice(c, e, s)
  {
    hide MayAcceptTwice, IsRunUnder, OutboxClaimable, Backoff, Least;
    var s1 := Apply(c, s, Work(w, Claim));
    TwiceNow(c, e, Apply(c, s1, Work(w, SendAccepted(1))));
    TwiceLater(c, e, s1, Work(w, SendAccepted(1)));
    TwiceLater(c, e, s, Work(w, Claim));
  }

  /** The clock may pass the lease in the row. */
  ghost predicate MayWait(e: Faults, s: State)
  {
    e.outlast || forall w :: !Flying(s, w)
  }

  lemma TwiceAfterWait(c: Config, e: Faults, s: State, w: nat)
    requires c.delays != [] && s.accepts == 1 && !Done(s.row) && MayWait(e, s)
    requires w in s.workers && s.workers[w].pc.Received?
    ensures MayAcceptTwice(c, e, s)
  {
    hide MayAcceptTwice, IsRunUnder, OutboxClaimable, Backoff, Least;
    var wait := Environment(Tick(if Leased(s.row, s.now) then s.row.lease.value else s.now));
    TwiceOnceFree(c, e, Apply(c, s, wait), w);
    TwiceLater(c, e, s, wait);
  }

  /** An accepted message that the row does not show: another copy of its job is sent again. */
  lemma TwiceFromQueue(c: Config, e: Faults, s: State, attempt: nat)
    requires c.delays != [] && s.accepts == 1 && !Done(s.row) && MayWait(e, s) && attempt in s.main
    ensures MayAcceptTwice(c, e, s)
  {
    hide MayAcceptTwice, IsRunUnder, OutboxClaimable, Backoff, Least;
    var w := Unused(s.workers.Keys);
    var take := Environment(Deliver(w, attempt));
    var s1 := Apply(c, s, take);
    assert forall v :: Flying(s1, v) ==> Flying(s, v);
    TwiceAfterWait(c, e, s1, w);
    TwiceLater(c, e, s, take);
  }

  /** The worker lets go of the job, and nobody else is sending. */
  lemma TwiceAfterReturn(c: Config, e: Faults, s: State, w: nat)
    requires c.delays != [] && s.accepts == 1 && !Done(s.row) && forall v :: Flying(s, v) ==> v == w
    requires w in s.workers && (s.workers[w].pc.Accepted? ==> e.crash)
    ensures MayAcceptTwice(c, e, s)
  {
    hide MayAcceptTwice, IsRunUnder, OutboxClaimable, Backoff, Least, Done;
    var s1 := Apply(c, s, Work(w, Return));
    assert s.workers[w].attempt in s1.main;
    assert forall v :: Flying(s1, v) ==> Flying(s, v) && v != w;
    TwiceFromQueue(c, e, s1, s.workers[w].attempt);
    TwiceLater(c, e, s, Work(w, Return));
  }

  lemma TwiceAfterLoss(c: Config, e: Faults, s: State, w: nat)
    requires c.delays != [] && s.accepts == 1 && !Done(s.row) && forall v :: Flying(s, v) ==> v == w
    requires w in s.workers && s.workers[w].pc.Accepted? && e.lose
    ensures MayAcceptTwice(c, e, s)
  {
    hide MayAcceptTwice, IsRunUnder, OutboxClaimable, Backoff, Least, Done;
    var s1 := Apply(c, s, Work(w, RecordFails(false)));
    assert forall v :: Flying(s1, v) ==> Flying(s, v);
    TwiceAfterReturn(c, e, s1, w);
    TwiceLater(c, e, s, Work(w, RecordFails(false)));
  }

  lemma TwiceAfterAcceptance(c: Config, e: Faults, s: State, w: nat)
    requires c.delays != [] && s.accepts == 1 && !Done(s.row) && forall v :: Flying(s, v) ==> v == w
    requires w in s.workers && s.workers[w].pc.Accepted? && 0 in s.main && (e.outlast || e.crash || e.lose)
    ensures MayAcceptTwice(c, e, s)
  {
    hide MayAcceptTwice, Done;
    if e.outlast {
      TwiceFromQueue(c, e, s, 0);
    } else if e.crash {
      TwiceAfterReturn(c, e, s, w);
    } else {
      TwiceAfterLoss(c, e, s, w);
    }
  }

  lemma TwiceFromRetry(c: Config, e: Faults, s: State, delayed: Delayed)
    requires c.delays != [] && s.accepts == 1 && !Done(s.row) && MayWait(e, s) && delayed in s.retry
    ensures MayAcceptTwice(c, e, s)
  {
    hide MayAcceptTwice, IsRunUnder, OutboxClaimable, Backoff, Least, Done;
    var s1 := Apply(c, s, Environment(Expire(delayed)));
    assert delayed.attempt in s1.main;
    assert forall v :: Flying(s1, v) ==> Flying(s, v);
    TwiceFromQueue(c, e, s1, delayed.attempt);
    TwiceLater(c, e, s, Environment(Expire(delayed)));
  }

  /** The worker takes the acceptance for a passing error: it requeues the message and schedules a retry. */
  lemma TwiceAfterRequeue(c: Config, e: Faults, s: State, w: nat)
    requires c.delays != [] && s.accepts == 1 && !Done(s.row) && forall v :: !Flying(s, v)
    requires w in s.workers && s.workers[w] == Worker(0, Retrying)
    ensures MayAcceptTwice(c, e, s)
  {
    hide MayAcceptTwice, IsRunUnder, OutboxClaimable, Backoff, Least, Done;
    var s1 := Apply(c, s, Work(w, Schedule));
    assert Delayed(1, c.delays[0]) in s1.retry;
    assert forall v :: Flying(s1, v) ==> Flying(s, v);
    TwiceFromRetry(c, e, s1, Delayed(1, c.delays[0]));
    TwiceLater(c, e, s, Work(w, Schedule));
  }

  lemma TwiceAfterUnseen(c: Config, e: Faults, s: State, w: nat)
    requires c.delays != [] && e.unseen && s.accepts == 0 && s.row.providerMessageId == None
    requires s.workers.Keys == {w} && s.workers[w].attempt == 0 && s.workers[w].pc.Sending?
    ensures MayAcceptTwice(c, e, s)
  {
    hide MayAcceptTwice, IsRunUnder, OutboxClaimable, Backoff, Least;
    var s1 := Apply(c, s, Work(w, SendUnseen(true)));
    TwiceAfterRequeue(c, e, Apply(c, s1, Work(w, MarkQueued)), w);
    TwiceLater(c, e, s1, Work(w, MarkQueued));
    TwiceLater(c, e, s, Work(w, SendUnseen(true)));
  }

  /** A message that nobody handles yet, with its job in the queue. */
  predicate Fresh(s: State)
  {
    s.row == Row(Queued, 0, None, None) && s.workers == map[] && s.accepts == 0
  }

  lemma TwiceAfterClaim(c: Config, e: Faults, s: State, w: nat)
    requires c.delays != [] && e != PROMPT && 0 in s.main && s.accepts == 0 && s.workers.Keys == {w}
    requires s.workers[w].attempt == 0 && s.workers[w].pc.Sending? && !Done(s.row)
    ensures MayAcceptTwice(c, e, s)
  {
    hide MayAcceptTwice, IsRunUnder, OutboxClaimable, Backoff, Least;
    if e.unseen {
      TwiceAfterUnseen(c, e, s, w);
    } else {
      TwiceAfterAcceptance(c, e, Apply(c, s, Work(w, SendAccepted(0))), w);
      TwiceLater(c, e, s, Work(w, SendAccepted(0)));
    }
  }

  lemma TwiceFromCopies(c: Config, e: Faults, s: State)
    requires c.delays != [] && e != PROMPT && Fresh(s) && s.main == multiset{0, 0}
    ensures MayAcceptTwice(c, e, s)
  {
    hide MayAcceptTwice, IsRunUnder, OutboxClaimable, Backoff, Least;
    var take := Environment(Deliver(0, 0));
    var s1 := Apply(c, s, take);
    TwiceAfterClaim(c, e, Apply(c, s1, Work(0, Claim)), 0);
    TwiceLater(c, e, s1, Work(0, Claim));
    TwiceLater(c, e, s, take);
  }

  lemma TwiceBySecondPublisher(c: Config, e: Faults, s: State)
    requires c.delays != [] && e != PROMPT && Fresh(s) && s.main == multiset{0}
    requires 1 !in s.publishers && OutboxClaimable(s.outbox, s.now)
    ensures MayAcceptTwice(c, e, s)
  {
    hide MayAcceptTwice, IsRunUnder, OutboxClaimable, Backoff, Least;
    var claim, send := Environment(OutboxClaim(1)), Environment(OutboxSend(1));
    var s1 := Apply(c, s, claim);
    TwiceFromCopies(c, e, Apply(c, s1, send));
    TwiceLater(c, e, s1, send);
    TwiceLater(c, e, s, claim);
  }

  /** The job is published twice: the first publisher's lease runs out before it marks the row. */
  lemma TwiceFromStart(c: Config, e: Faults, now: int)
    requires c.delays != [] && e != PROMPT
    ensures MayAcceptTwice(c, e, Start(now))
  {
    hide MayAcceptTwice, IsRunUnder, Backoff, Least;
    var claim, send := Environment(OutboxClaim(0)), Environment(OutboxSend(0));
    var wait := Environment(Tick(if c.outboxLeaseMs > 0 then now + c.outboxLeaseMs else now));
    var s1 := Apply(c, Start(now), claim);
    var s2 := Apply(c, s1, send);
    TwiceBySecondPublisher(c, e, Apply(c, s2, wait));
    TwiceLater(c, e, s2, wait);
    TwiceLater(c, e, s1, send);
    TwiceLater(c, e, Start(now), claim);
  }

  /** Any one of the faults is enough for the provider to accept the message twice. */
  lemma AcceptedTwiceWithoutPromptness(c: Config, e: Faults, now: int)
    requires c.delays != [] && (e.outlast || e.crash || e.lose || e.unseen)
    ensures exists actions, t :: IsRunUnder(c, e, Start(now), actions, t) && t.accepts == 2
  {
    assert MayAcceptTwice(c, e, Start(now)) by {
      hide MayAcceptTwice, IsRunUnder;
      TwiceFromStart(c, e, now);
    }
  }

  /**
   * The provider accepts the message at most once in every run exactly when no dispatch may
   * outlast its lease, no worker may let go of a message it saw accepted, no record of an
   * acceptance may fail, and no acceptance may go unseen.
   */
  lemma AcceptedOnceExactly(c: Config, e: Faults)
    requires c.delays != [] && c.leaseMs > 0
    ensures (forall now, actions, t :: IsRunUnder(c, e, Start(now), actions, t) ==> t.accepts <= 1)
        <==> !e.outlast && !e.crash && !e.lose && !e.unseen
  {
    hide IsRunUnder, Start;
    if e == PROMPT {
      forall now, actions, t | IsRunUnder(c, e, Start(now), actions, t)
        ensures t.accepts <= 1
      {
        PromptDispatchIsExclusive(c, now, actions, t);
      }
    } else {
      AcceptedTwiceWithoutPromptness(c, e, 0);
      var actions, t :| IsRunUnder(c, e, Start(0), actions, t) && t.accepts == 2;
    }
  }
}
