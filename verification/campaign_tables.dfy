/** A campaign row with its recipient rows, and the guarded transactions that change them. */
module CampaignTables {
  import opened Wrappers

  type Contact = string

  datatype CampaignStatus = Draft | Scheduled | Running | Paused | Completed | Failed | Cancelled

  datatype RecipientStatus = Pending | Processing | Queued | Skipped | RecipientFailed | RecipientCancelled

  datatype Recipient = Recipient(
    status: RecipientStatus,
    attemptCount: nat,
    lease: Option<nat>,
    messageId: Option<nat>,
    nextAttemptAt: int)

  datatype Tables = Tables(
    status: CampaignStatus,
    scheduledAt: Option<int>,
    launched: bool,
    totalRecipients: nat,
    recipients: map<Contact, Recipient>)

  const LAUNCH_BATCH: nat := 1000

  function NewRecipient(now: int): Recipient
  {
    Recipient(Pending, 0, None, None, now)
  }

  predicate IsFinal(status: CampaignStatus)
  {
    status.Completed? || status.Failed? || status.Cancelled?
  }

  predicate IsTerminal(status: RecipientStatus)
  {
    !status.Pending? && !status.Processing?
  }

  predicate Distinct(contacts: seq<Contact>)
  {
    forall i, j :: 0 <= i < j < |contacts| ==> contacts[i] != contacts[j]
  }

  /** The rows after an insert that skips contacts which already have one. */
  function Inserted(recipients: map<Contact, Recipient>, contacts: seq<Contact>, now: int): map<Contact, Recipient>
  {
    map c | c in recipients.Keys + (set x | x in contacts) :: if c in recipients then recipients[c] else NewRecipient(now)
  }

  function Later(scheduledAt: Option<int>, now: int): bool
  {
    scheduledAt.Some? && scheduledAt.value > now
  }

  datatype LaunchOutcome = Launched | AlreadyLaunched | NotDraft | Misconfigured | TooManyRecipients

  function LaunchVerdict(t: Tables, audience: seq<Contact>, configured: bool, maxRecipients: nat): LaunchOutcome
  {
    if t.launched && (t.status.Scheduled? || t.status.Running? || t.status.Completed?) then AlreadyLaunched
    else if !t.status.Draft? then NotDraft
    else if !configured then Misconfigured
    else if |audience| > maxRecipients then TooManyRecipients
    else Launched
  }

  function AfterLaunch(t: Tables, now: int, audience: seq<Contact>): Tables
  {
    var status := if audience == [] then Completed else if Later(t.scheduledAt, now) then Scheduled else Running;
    Tables(status, t.scheduledAt, true, |audience|, Inserted(t.recipients, audience, now))
  }

  /** Every waiting recipient gets a final status; recipients being processed are left to their claim. */
  function Closed(recipients: map<Contact, Recipient>, status: RecipientStatus): map<Contact, Recipient>
  {
    map c | c in recipients ::
      if recipients[c].status.Pending? then recipients[c].(status := status, lease := None) else recipients[c]
  }

  function AfterCancel(t: Tables): Tables
  {
    if IsFinal(t.status) then t
    else t.(status := Cancelled, recipients := Closed(t.recipients, RecipientCancelled))
  }

  function AfterFail(t: Tables): Tables
  {
    if t.status.Running? || t.status.Scheduled?
    then t.(status := Failed, recipients := Closed(t.recipients, RecipientFailed))
    else t
  }

  predicate Claimable(t: Tables, c: Contact, now: nat)
  {
    && c in t.recipients
    && var r := t.recipients[c];
       || (r.status.Pending? && r.nextAttemptAt <= now && (r.lease == None || r.lease.value <= now) && t.status.Running?)
       || (r.status.Processing? && r.lease.Some? && r.lease.value <= now)
  }

  function AfterClaim(t: Tables, c: Contact, token: nat): Tables
    requires c in t.recipients
  {
    var r := t.recipients[c];
    t.(recipients := t.recipients[c := r.(status := Processing, attemptCount := r.attemptCount + 1, lease := Some(token))])
  }

  /** What a claim completes with; a delay is counted from the completion. */
  datatype Outcome = Outcome(status: RecipientStatus, messageId: Option<nat>, delay: Option<nat>)

  /** The fence of `completeClaim`: the row is still processed under the claim's own lease. */
  predicate Holds(r: Recipient, token: nat)
  {
    r.status.Processing? && r.lease == Some(token)
  }

  function Finish(r: Recipient, token: nat, outcome: Outcome, now: int): Recipient
  {
    if Holds(r, token)
    then Recipient(
      outcome.status, r.attemptCount, None,
      if outcome.messageId.Some? then outcome.messageId else r.messageId,
      if outcome.delay.Some? then now + outcome.delay.value else r.nextAttemptAt)
    else r
  }

  lemma {:induction false} CountDistinct(contacts: seq<Contact>)
    requires Distinct(contacts)
    ensures |set c | c in contacts| == |contacts|
  {
    if contacts != [] {
      var n := |contacts| - 1;
      var init := contacts[..n];
      CountDistinct(init);
      assert contacts == init + [contacts[n]];
      assert contacts[n] !in init;
      assert (set c | c in contacts) == (set c | c in init) + {contacts[n]};
    }
  }

  /** A launch leaves as many recipients as the campaign says it has. */
  lemma LaunchCountsRecipients(t: Tables, now: int, audience: seq<Contact>)
    requires Distinct(audience) && t.recipients == map[]
    ensures var l := AfterLaunch(t, now, audience);
            |l.recipients| == l.totalRecipients && forall c :: c in l.recipients <==> c in audience
  {
    CountDistinct(audience);
    assert AfterLaunch(t, now, audience).recipients.Keys == set c | c in audience;
  }

  /** Cancelling or failing a campaign ends every recipient that waits and touches no other. */
  lemma EndingLeavesNobodyWaiting(t: Tables, c: Contact)
    requires c in t.recipients
    ensures var u, r := AfterCancel(t), t.recipients[c];
            var ends := t.status in [Draft, Scheduled, Running, Paused];
            && u.status == (if ends then Cancelled else t.status)
            && c in u.recipients
            && u.recipients[c] == if ends && r.status == Pending
                                  then Recipient(RecipientCancelled, r.attemptCount, None, r.messageId, r.nextAttemptAt) else r
    ensures var u, r := AfterFail(t), t.recipients[c];
            var ends := t.status in [Scheduled, Running];
            && u.status == (if ends then CampaignStatus.Failed else t.status)
            && c in u.recipients
            && u.recipients[c] == if ends && r.status == Pending
                                  then Recipient(RecipientFailed, r.attemptCount, None, r.messageId, r.nextAttemptAt) else r
  {
  }

  class CampaignStore {
    var status: CampaignStatus
    var scheduledAt: Option<int>
    var launched: bool
    var totalRecipients: nat
    var recipients: map<Contact, Recipient>

    function Value(): Tables
      reads this
    {
      Tables(status, scheduledAt, launched, totalRecipients, recipients)
    }

    /** `launch`, one transaction: the whole audience is snapshotted, in batches, or nothing changes. */
    method Launch(now: int, audience: seq<Contact>, configured: bool, maxRecipients: nat) returns (outcome: LaunchOutcome)
      modifies this
      ensures outcome == LaunchVerdict(old(Value()), audience, configured, maxRecipients)
      ensures Value() == if outcome.Launched? then AfterLaunch(old(Value()), now, audience) else old(Value())
      ensures outcome.AlreadyLaunched? <==>
                old(launched) && (old(status) == Scheduled || old(status) == Running || old(status) == Completed)
      ensures outcome.Launched? <==> old(status) == Draft && configured && |audience| <= maxRecipients
      ensures outcome.NotDraft? <==> !outcome.AlreadyLaunched? && old(status) != Draft
      ensures outcome.Launched? ==>
                && old(status) == Draft && configured && |audience| <= maxRecipients
                && launched && totalRecipients == |audience| && scheduledAt == old(scheduledAt)
                && (status == Completed <==> audience == [])
                && (status == Scheduled <==> audience != [] && scheduledAt.Some? && scheduledAt.value > now)
                && (status == Running <==> audience != [] && !(scheduledAt.Some? && scheduledAt.value > now))
                && (forall c :: c in audience && c !in old(recipients) ==>
                      c in recipients && recipients[c] == Recipient(Pending, 0, None, None, now))
    {
      if launched && (status == Scheduled || status == Running || status == Completed) {
        return AlreadyLaunched;
      }
      if status != Draft {
        return NotDraft;
      }
      if !configured {
        return Misconfigured;
      }
      var take := maxRecipients + 1;
      var contactIds := audience[..if take < |audience| then take else |audience|];
      if |contactIds| > maxRecipients {
        return TooManyRecipients;
      }
      assert contactIds == audience;
      var offset := 0;
      assert recipients == Inserted(recipients, contactIds[..0], now);
      while offset < |contactIds|
        invariant 0 <= offset && recipients == Inserted(old(recipients), contactIds[..Least(offset, |contactIds|)], now)
        invariant status == old(status) && scheduledAt == old(scheduledAt)
      {
        var next := Least(offset + LAUNCH_BATCH, |contactIds|);
        InsertedTwice(old(recipients), contactIds[..offset], contactIds[offset..next], now);
        assert contactIds[..offset] + contactIds[offset..next] == contactIds[..next];
        recipients := Inserted(recipients, contactIds[offset..next], now);
        offset := offset + LAUNCH_BATCH;
      }
      assert contactIds[..|contactIds|] == audience;
      status := if |contactIds| == 0 then Completed else if Later(scheduledAt, now) then Scheduled else Running;
      launched, totalRecipients := true, |contactIds|;
      return Launched;
    }

    method Pause() returns (paused: bool)
      modifies this`status
      ensures paused == (old(status).Running? || old(status).Scheduled?)
      ensures status == if paused then Paused else old(status)
    {
      paused := status == Running || status == Scheduled;
      if paused {
        status := Paused;
      }
    }

    method Resume(now: int) returns (resumed: bool)
      modifies this`status
      ensures resumed == old(status).Paused?
      ensures resumed ==> (status == Scheduled <==> scheduledAt.Some? && scheduledAt.value > now)
      ensures resumed ==> (status == Running <==> !(scheduledAt.Some? && scheduledAt.value > now))
      ensures !resumed ==> status == old(status)
    {
      resumed := status == Paused;
      if resumed {
        status := if scheduledAt.Some? && scheduledAt.value > now then Scheduled else Running;
      }
    }

    /** `cancel`: the campaign and all its waiting recipients together. */
    method Cancel() returns (transitioned: bool)
      modifies this
      ensures transitioned == !IsFinal(old(status))
      ensures Value() == AfterCancel(old(Value()))
      ensures transitioned <==>
                old(status) == Draft || old(status) == Scheduled || old(status) == Running || old(status) == Paused
      ensures transitioned ==> status == Cancelled
    {
      transitioned := status == Draft || status == Scheduled || status == Running || status == Paused;
      if transitioned {
        status := Cancelled;
        recipients := Closed(recipients, RecipientCancelled);
      }
    }

    /** `failCampaign`: never overrides a pause, a cancellation or an earlier end. */
    method FailCampaign() returns (transitioned: bool)
      modifies this
      ensures transitioned == (old(status).Running? || old(status).Scheduled?)
      ensures Value() == AfterFail(old(Value()))
      ensures transitioned ==> status == CampaignStatus.Failed
    {
      transitioned := status == Running || status == Scheduled;
      if transitioned {
        status := Failed;
        recipients := Closed(recipients, RecipientFailed);
      }
    }

    /** One row of `claimRecipients`. */
    method ClaimRecipient(c: Contact, now: nat, leaseMs: nat) returns (claimed: bool)
      modifies this`recipients
      ensures claimed == Claimable(old(Value()), c, now)
      ensures Value() == if claimed then AfterClaim(old(Value()), c, now + leaseMs) else old(Value())
      ensures claimed ==>
                && c in old(recipients) && c in recipients
                && recipients[c].status == Processing && recipients[c].lease == Some(now + leaseMs)
                && recipients[c].attemptCount == old(recipients)[c].attemptCount + 1
      ensures claimed <==>
                && c in old(recipients)
                && var r := old(recipients)[c];
                   || (&& r.status == Pending && status == Running && r.nextAttemptAt <= now
                       && (r.lease == None || r.lease.value <= now))
                   || (r.status == Processing && r.lease.Some? && r.lease.value <= now)
    {
      claimed := false;
      if c in recipients {
        var r := recipients[c];
        claimed :=
          || (&& r.status == Pending && r.nextAttemptAt <= now
              && (r.lease == None || r.lease.value <= now) && status == Running)
          || (r.status == Processing && r.lease.Some? && r.lease.value <= now);
        if claimed {
          recipients := recipients[c := r.(status := Processing, attemptCount := r.attemptCount + 1, lease := Some(now + leaseMs))];
        }
      }
    }

    /** `completeClaim`. */
    method CompleteClaim(c: Contact, token: nat, outcome: Outcome, now: int)
      requires c in recipients
      modifies this`recipients
      ensures recipients == old(recipients)[c := Finish(old(recipients)[c], token, outcome, now)]
      ensures var r, q := old(recipients)[c], recipients[c];
              if r.status == Processing && r.lease == Some(token) then
                && q.status == outcome.status && q.lease == None && q.attemptCount == r.attemptCount
                && q.messageId == (if outcome.messageId.Some? then outcome.messageId else r.messageId)
                && q.nextAttemptAt == if outcome.delay.Some? then now + outcome.delay.value else r.nextAttemptAt
              else q == r
    {
      var r := recipients[c];
      if r.status == Processing && r.lease == Some(token) {
        var messageId := if outcome.messageId.Some? then outcome.messageId else r.messageId;
        var nextAttemptAt := if outcome.delay.Some? then now + outcome.delay.value else r.nextAttemptAt;
        recipients := recipients[c := Recipient(outcome.status, r.attemptCount, None, messageId, nextAttemptAt)];
      }
    }
  }

  function Least(a: nat, b: nat): nat
  {
    if a < b then a else b
  }

  lemma InsertedTwice(recipients: map<Contact, Recipient>, a: seq<Contact>, b: seq<Contact>, now: int)
    ensures Inserted(Inserted(recipients, a, now), b, now) == Inserted(recipients, a + b, now)
  {
  }
}
