/** One outbound message row and the guarded updates that the dispatcher makes to it. */
module MessageRows {
  import opened Wrappers

  datatype Status =
    Created | Queued | Processing | Submitted | Sent | Delivered | Read | Failed | Cancelled | Expired

  datatype Row = Row(status: Status, attemptCount: nat, lease: Option<int>, providerMessageId: Option<nat>)

  const MIN_LEASE_MS: int := 5000

  /** `OUTBOUND_MESSAGE_LEASE_MS` as it is read: absent, a finite number, or anything else. */
  datatype Setting = Unset | Milliseconds(ms: int) | NotFinite

  /** At least five seconds; a setting that is no finite number gives no time at all. */
  function LeaseMs(setting: Setting): (ms: Option<int>)
    ensures ms == None <==> setting.NotFinite?
    ensures ms.Some? ==> ms.value >= MIN_LEASE_MS
  {
    if setting.NotFinite? then None
    else
      var value := if setting.Unset? then 30000 else setting.ms;
      Some(if value < MIN_LEASE_MS then MIN_LEASE_MS else value)
  }

  /** Thirty seconds unless configured, and any configured time of five seconds or more as it is. */
  lemma LeaseKeepsSetting(ms: int)
    ensures LeaseMs(Unset) == Some(30000)
    ensures LeaseMs(Milliseconds(ms)) == Some(if ms >= 5000 then ms else 5000)
  {
  }

  predicate TerminalOrSubmitted(status: Status)
  {
    !status.Created? && !status.Queued? && !status.Processing?
  }

  /** Nothing more is to be sent for this row. */
  predicate Done(row: Row)
  {
    row.providerMessageId.Some? || TerminalOrSubmitted(row.status)
  }

  predicate Leased(row: Row, now: int)
  {
    row.status.Processing? && row.lease.Some? && row.lease.value > now
  }

  function Claimed(row: Row, now: int, leaseMs: int): Row
  {
    Row(Processing, row.attemptCount + 1, Some(now + leaseMs), row.providerMessageId)
  }

  function Requeued(row: Row): Row
  {
    row.(status := Queued, lease := None)
  }

  function MarkedFailed(row: Row): Row
  {
    row.(status := Failed, lease := None)
  }

  function Recorded(row: Row, provider: nat): Row
  {
    row.(status := Submitted, lease := None, providerMessageId := Some(provider))
  }

  class OutboundMessage {
    var status: Status
    var attemptCount: nat
    var processingLeaseUntil: Option<int>
    var providerMessageId: Option<nat>

    function Value(): Row
      reads this
    {
      Row(status, attemptCount, processingLeaseUntil, providerMessageId)
    }

    /** The row as `MessagesService.create` inserts it. */
    constructor ()
      ensures Value() == Row(Queued, 0, None, None)
    {
      status, attemptCount, processingLeaseUntil, providerMessageId := Queued, 0, None, None;
    }

    /**
     * `claimMessage`: only a row that is neither done nor under a running lease changes hands. An
     * update with an invalid lease time is an error.
     */
    method ClaimMessage(now: int, setting: Setting) returns (r: Result<bool, string>)
      modifies this
      ensures r.Err? <==> setting.NotFinite?
      ensures r.Ok? ==>
                (r.value <==>
                   && old(providerMessageId) == None
                   && (|| old(status) == Created || old(status) == Queued
                       || (old(status) == Processing
                           && (old(processingLeaseUntil) == None || old(processingLeaseUntil).value <= now))))
      ensures r.Ok? ==> (r.value <==> !Done(old(Value())) && !Leased(old(Value()), now))
      ensures Value() == if r == Ok(true) then Claimed(old(Value()), now, LeaseMs(setting).value) else old(Value())
      ensures r == Ok(true) ==>
                && status == Processing && attemptCount == old(attemptCount) + 1 && providerMessageId == None
                && processingLeaseUntil.Some? && processingLeaseUntil.value >= now + 5000
      ensures r == Ok(true) && setting.Milliseconds? && setting.ms >= 5000 ==> processingLeaseUntil == Some(now + setting.ms)
    {
      var leaseMs := LeaseMs(setting);
      if leaseMs == None {
        return Err("invalid lease time");
      }
      var matches :=
        && providerMessageId == None
        && (|| status == Created
            || status == Queued
            || (status == Processing && (processingLeaseUntil == None || processingLeaseUntil.value <= now)));
      if matches {
        status := Processing;
        attemptCount := attemptCount + 1;
        processingLeaseUntil := Some(now + leaseMs.value);
      }
      return Ok(matches);
    }

    /** `markRetryableFailure`: unconditional, so a late worker can put a finished row back. */
    method MarkRetryableFailure()
      modifies this
      ensures status == Queued && processingLeaseUntil == None
      ensures attemptCount == old(attemptCount) && providerMessageId == old(providerMessageId)
      ensures Value() == Requeued(old(Value()))
    {
      status, processingLeaseUntil := Queued, None;
    }

    /** `markFailed`. */
    method MarkFailed()
      modifies this
      ensures status == Failed && processingLeaseUntil == None
      ensures attemptCount == old(attemptCount) && providerMessageId == old(providerMessageId)
      ensures Value() == MarkedFailed(old(Value()))
    {
      status, processingLeaseUntil := Failed, None;
    }

    /** The update after the provider accepted the message. */
    method RecordSubmitted(provider: nat)
      modifies this
      ensures status == Submitted && processingLeaseUntil == None
      ensures attemptCount == old(attemptCount) && providerMessageId == Some(provider)
      ensures Value() == Recorded(old(Value()), provider)
    {
      status, providerMessageId, processingLeaseUntil := Submitted, Some(provider), None;
    }

    /** The read of `markRetryExhausted`: nothing was sent for the row and nobody is sending it. */
    method MayGiveUp(now: int) returns (exhausted: bool)
      ensures exhausted <==> !TerminalOrSubmitted(status) && !Leased(Value(), now)
      ensures exhausted <==>
                || status == Created || status == Queued
                || (status == Processing && (processingLeaseUntil == None || processingLeaseUntil.value <= now))
    {
      if TerminalOrSubmitted(status) {
        return false;
      }
      if status == Processing && processingLeaseUntil.Some? && processingLeaseUntil.value > now {
        return false;
      }
      return true;
    }

    /** `markRetryExhausted` when nobody else writes between its read and its update. */
    method MarkRetryExhausted(now: int)
      modifies this
      ensures TerminalOrSubmitted(old(status)) || Leased(old(Value()), now) ==> Value() == old(Value())
      ensures !TerminalOrSubmitted(old(status)) && !Leased(old(Value()), now) ==>
                status == Failed && Value() == MarkedFailed(old(Value()))
    {
      var exhausted := MayGiveUp(now);
      if exhausted {
        MarkFailed();
      }
    }
  }
}
