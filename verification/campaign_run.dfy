/**
 * Campaign runs: lifecycle calls, statistics refreshes and any number of processors with their
 * recipient claims, interleaved one database statement at a time. Leases may run out at any
 * moment and processors may stop at any point.
 */
module CampaignRuns {
  import opened Backoffs
  import opened FreshNumbers
  import opened Wrappers
  import opened CampaignTables

  // ----- idempotency keys -----

  function IdempotencyKey(campaignId: string, contactId: string): string
  {
    "campaign:" + campaignId + ":contact:" + contactId
  }

  lemma KeySpells(campaignId: string, contactId: string)
    ensures var key := IdempotencyKey(campaignId, contactId);
            && |key| == 18 + |campaignId| + |contactId|
            && key[9..9 + |campaignId|] == campaignId && key[9 + |campaignId|] == ':'
            && key[18 + |campaignId|..] == contactId
  {
  }

  lemma ColonEndsCampaignId(key: string, short: nat, campaignId: string)
    requires 9 + |campaignId| <= |key| && key[9..9 + |campaignId|] == campaignId
    requires ':' !in campaignId && short < |campaignId|
    ensures key[9 + short] != ':'
  {
    assert key[9..9 + |campaignId|][short] == key[9 + short];
  }

  /** Campaign ids are UUIDs: without a colon in them, no two recipients of any campaigns share a key. */
  lemma KeysAreDistinct(campaignA: string, contactA: string, campaignB: string, contactB: string)
    requires ':' !in campaignA && ':' !in campaignB
    requires IdempotencyKey(campaignA, contactA) == IdempotencyKey(campaignB, contactB)
    ensures campaignA == campaignB && contactA == contactB
  {
    hide IdempotencyKey;
    var key := IdempotencyKey(campaignA, contactA);
    KeySpells(campaignA, contactA);
    KeySpells(campaignB, contactB);
    if |campaignA| < |campaignB| {
      ColonEndsCampaignId(key, |campaignA|, campaignB);
    } else if |campaignB| < |campaignA| {
      ColonEndsCampaignId(key, |campaignB|, campaignA);
    }
  }

  // ----- state -----

  datatype Message = Message(id: nat, key: string)

  /** Where a claim stands in `processRecipient`. */
  datatype Pc =
    | Claimed                             // recipient and campaign are read next
    | Known(status: CampaignStatus)       // the campaign state it read; existing messages are looked up next
    | FailingCampaign
    | ReadingState                        // the campaign did not fail: its current state decides
    | Creating                            // `MessagesService.create` looks the key up
    | Inserting                           // its transaction inserts message and outbox event
    | Completing(outcome: Outcome, retry: bool)

  datatype Claim = Claim(contact: Contact, token: nat, attempt: nat, pc: Pc)

  datatype Config = Config(campaignId: string, maxAttempts: nat)

  datatype State = State(
    tables: Tables,
    messages: set<Message>,
    outbox: multiset<nat>,
    claims: map<nat, Claim>,
    refreshers: map<nat, bool>,           // whether the recipient count found nobody waiting
    lastToken: map<Contact, nat>,
    errorRetries: map<Contact, nat>)

  datatype Event =
    | Launch(now: int, audience: seq<Contact>)
    | Pause
    | Resume(now: int)
    | Cancel
    | Promote(now: int)
    | ClaimOne(k: nat, contact: Contact, clock: nat, token: nat)
    | CountRecipients(k: nat, contact: Contact)
    | CompleteCampaign(k: nat)

  datatype Step =
    | Read
    | Find(configured: bool)
    | FailIt
    | ReadState
    | Lookup
    | Insert(id: nat)
    | Skip                // consent, policy or personalization value
    | Misconfigure        // personalization template or template validation
    | Throw               // any other error, anywhere
    | Complete(acknowledged: bool, now: int)
    | Stop                // the processor dies

  datatype Action = Environment(event: Event) | Work(k: nat, step: Step)

  function Start(scheduledAt: Option<int>): State
  {
    State(Tables(Draft, scheduledAt, false, 0, map[]), {}, multiset{}, map[], map[], map[], map[])
  }

  function Last(s: State, c: Contact): nat
  {
    if c in s.lastToken then s.lastToken[c] else 0
  }

  function Retries(s: State, c: Contact): nat
  {
    if c in s.errorRetries then s.errorRetries[c] else 0
  }

  predicate Settled(recipients: map<Contact, Recipient>)
  {
    forall c :: c in recipients ==> IsTerminal(recipients[c].status)
  }

  // ----- steps of a claim -----

  function OutcomeFor(status: CampaignStatus): Outcome
  {
    match status
    case Cancelled => Outcome(RecipientCancelled, None, None)
    case Failed => Outcome(RecipientFailed, None, None)
    case Completed => Outcome(RecipientCancelled, None, None)
    case _ => Outcome(Pending, None, Some(0))
  }

  /** `retryOrFail`. */
  function AfterError(maxAttempts: nat, attempt: nat): Pc
  {
    if attempt >= maxAttempts then Completing(Outcome(RecipientFailed, None, None), false)
    else Completing(Outcome(Pending, None, Some(Backoff(attempt))), true)
  }

  predicate StepEnabled(pc: Pc, step: Step)
  {
    match step
    case Read => pc.Claimed?
    case Find(_) => pc.Known?
    case FailIt => pc.FailingCampaign?
    case ReadState => pc.ReadingState?
    case Lookup => pc.Creating?
    case Insert(_) => pc.Inserting?
    case Skip => pc.Creating? || pc.Inserting?
    case Misconfigure => pc.Creating? || pc.Inserting?
    case Throw => true
    case Complete(_, _) => pc.Completing?
    case Stop => true
  }

  ghost predicate HasMessage(messages: set<Message>, key: string)
  {
    exists m :: m in messages && m.key == key
  }

  ghost function MessageId(messages: set<Message>, key: string): nat
    requires HasMessage(messages, key)
  {
    var m :| m in messages && m.key == key; m.id
  }

  ghost function Linked(messages: set<Message>, key: string): Pc
    requires HasMessage(messages, key)
  {
    Completing(Outcome(Queued, Some(MessageId(messages, key)), None), false)
  }

  ghost function NextPc(c: Config, s: State, claim: Claim, step: Step): Option<Pc>
    requires StepEnabled(claim.pc, step)
  {
    var key := IdempotencyKey(c.campaignId, claim.contact);
    match step
    case Read => Some(Known(s.tables.status))
    case Find(configured) => Some(
      if HasMessage(s.messages, key) then Linked(s.messages, key)
      else if !claim.pc.status.Running? then Completing(OutcomeFor(claim.pc.status), false)
      else if !configured then FailingCampaign
      else Creating)
    case FailIt => Some(
      if s.tables.status.Running? || s.tables.status.Scheduled? then Completing(Outcome(RecipientFailed, None, None), false)
      else ReadingState)
    case ReadState => Some(Completing(OutcomeFor(s.tables.status), false))
    case Lookup => Some(if HasMessage(s.messages, key) then Linked(s.messages, key) else Inserting)
    case Insert(id) => Some(
      if HasMessage(s.messages, key) then Linked(s.messages, key) else Completing(Outcome(Queued, Some(id), None), false))
    case Skip => Some(Completing(Outcome(Skipped, None, None), false))
    case Misconfigure => Some(FailingCampaign)
    case Throw => Some(AfterError(c.maxAttempts, claim.attempt))
    case Complete(acknowledged, _) => if acknowledged then None else Some(AfterError(c.maxAttempts, claim.attempt))
    case Stop => None
  }

  function NextTables(t: Tables, claim: Claim, step: Step): Tables
    requires claim.contact in t.recipients && StepEnabled(claim.pc, step)
  {
    match step
    case FailIt => AfterFail(t)
    case Complete(_, now) =>
      var row := Finish(t.recipients[claim.contact], claim.token, claim.pc.outcome, now);
      t.(recipients := t.recipients[claim.contact := row])
    case _ => t
  }

  ghost function NewMessages(c: Config, s: State, claim: Claim, step: Step): set<Message>
  {
    var key := IdempotencyKey(c.campaignId, claim.contact);
    if step.Insert? && !HasMessage(s.messages, key) then {Message(step.id, key)} else {}
  }

  predicate CountsAsRetry(t: Tables, claim: Claim, step: Step)
    requires claim.contact in t.recipients && StepEnabled(claim.pc, step)
  {
    step.Complete? && claim.pc.retry && Holds(t.recipients[claim.contact], claim.token)
  }

  function Moved(claims: map<nat, Claim>, k: nat, pc: Option<Pc>): map<nat, Claim>
    requires k in claims
  {
    match pc
    case Some(next) => claims[k := claims[k].(pc := next)]
    case None => claims - {k}
  }

  ghost predicate Enabled(c: Config, s: State, a: Action)
  {
    match a
    case Work(k, step) =>
      && k in s.claims && StepEnabled(s.claims[k].pc, step) && s.claims[k].contact in s.tables.recipients
      && (step.Insert? ==> forall m :: m in s.messages ==> m.id != step.id)
    case Environment(event) =>
      match event
      case Launch(_, audience) => Distinct(audience) && LaunchVerdict(s.tables, audience, true, |audience|).Launched?
      case Pause => s.tables.status.Running? || s.tables.status.Scheduled?
      case Resume(_) => s.tables.status.Paused?
      case Cancel => true
      case Promote(now) => s.tables.status.Scheduled? && s.tables.scheduledAt.Some? && s.tables.scheduledAt.value <= now
      case ClaimOne(k, contact, clock, token) =>
        k !in s.claims && Claimable(s.tables, contact, clock) && token > Last(s, contact)
      case CountRecipients(k, contact) =>
        k !in s.refreshers && (contact in s.tables.recipients || s.tables.status.Cancelled?)
      case CompleteCampaign(k) => k in s.refreshers
  }

  ghost function AfterStep(c: Config, s: State, k: nat, step: Step): State
    requires Enabled(c, s, Work(k, step))
  {
    var claim := s.claims[k];
    var inserted := NewMessages(c, s, claim, step);
    s.(tables := NextTables(s.tables, claim, step),
       claims := Moved(s.claims, k, NextPc(c, s, claim, step)),
       messages := s.messages + inserted,
       outbox := s.outbox + if inserted == {} then multiset{} else multiset{step.id},
       errorRetries :=
         if CountsAsRetry(s.tables, claim, step) then s.errorRetries[claim.contact := Retries(s, claim.contact) + 1]
         else s.errorRetries)
  }

  function EventTables(t: Tables, event: Event): Tables
    requires event.ClaimOne? ==> event.contact in t.recipients
  {
    match event
    case Launch(now, audience) => AfterLaunch(t, now, audience)
    case Pause => t.(status := Paused)
    case Resume(now) => t.(status := if Later(t.scheduledAt, now) then Scheduled else Running)
    case Cancel => AfterCancel(t)
    case Promote(_) => t.(status := Running)
    case ClaimOne(_, contact, _, token) => AfterClaim(t, contact, token)
    case CountRecipients(_, _) => t
    case CompleteCampaign(_) => t
  }

  ghost function AfterEvent(c: Config, s: State, event: Event): State
    requires Enabled(c, s, Environment(event))
  {
    var t := EventTables(s.tables, event);
    match event
    case ClaimOne(k, contact, _, token) =>
      s.(tables := t,
         claims := s.claims[k := Claim(contact, token, t.recipients[contact].attemptCount, Claimed)],
         lastToken := s.lastToken[contact := token])
    case CountRecipients(k, _) => s.(refreshers := s.refreshers[k := Settled(s.tables.recipients)])
    case CompleteCampaign(k) =>
      s.(refreshers := s.refreshers - {k},
         tables := if s.refreshers[k] && t.status.Running? then t.(status := Completed) else t)
    case _ => s.(tables := t)
  }

  ghost function Apply(c: Config, s: State, a: Action): State
    requires Enabled(c, s, a)
  {
    match a
    case Environment(event) => AfterEvent(c, s, event)
    case Work(k, step) => AfterStep(c, s, k, step)
  }

  ghost predicate IsRun(c: Config, s: State, actions: seq<Action>, t: State)
    decreases |actions|
  {
    if actions == [] then s == t
    else Enabled(c, s, actions[0]) && IsRun(c, Apply(c, s, actions[0]), actions[1..], t)
  }

  // ----- what a claim does about what it finds -----

  /** A retry waits at least a second, and only the last attempt fails the recipient. */
  lemma ErrorsAreRetried(c: Config, s: State, k: nat)
    requires Enabled(c, s, Work(k, Throw))
    ensures var attempt, pc := s.claims[k].attempt, Apply(c, s, Work(k, Throw)).claims[k].pc;
            && pc.Completing?
            && (attempt >= c.maxAttempts ==> pc.outcome.status == RecipientFailed)
            && (attempt < c.maxAttempts ==>
                  pc.outcome.status == Pending && pc.outcome.delay.Some? && 1000 <= pc.outcome.delay.value <= 60000)
            && (pc.retry <==> attempt < c.maxAttempts)
  {
    hide IdempotencyKey, Backoff;
  }

  /** A message under the recipient's key queues it; otherwise a campaign that does not run decides. */
  lemma ClaimFollowsCampaign(c: Config, s: State, k: nat, configured: bool)
    requires Enabled(c, s, Work(k, Find(configured)))
    ensures var status, pc := s.claims[k].pc.status, Apply(c, s, Work(k, Find(configured))).claims[k].pc;
            if HasMessage(s.messages, IdempotencyKey(c.campaignId, s.claims[k].contact)) then
              pc.Completing? && pc.outcome.status == RecipientStatus.Queued
            else if status == Running then
              if configured then pc.Creating? else pc.FailingCampaign?
            else
              && pc.Completing?
              && (status == CampaignStatus.Failed ==> pc.outcome.status == RecipientFailed)
              && (status == Cancelled || status == Completed ==> pc.outcome.status == RecipientCancelled)
              && (status == Paused || status == Scheduled ==> pc.outcome.status == Pending && pc.outcome.delay == Some(0))
  {
    hide IdempotencyKey;
  }

  /** A created or already existing message queues the recipient, a refusal skips it. */
  lemma CreationQueues(c: Config, s: State, k: nat, step: Step)
    requires Enabled(c, s, Work(k, step)) && (step.Insert? || step.Skip?)
    ensures var pc := Apply(c, s, Work(k, step)).claims[k].pc;
            && pc.Completing?
            && pc.outcome.status == if step.Skip? then Skipped else RecipientStatus.Queued
  {
    hide IdempotencyKey;
  }

  /** An error or a stop may come at any point of a claim, a refusal only while its message is being created. */
  lemma ClaimsMayStopAnywhere(c: Config, s: State, k: nat)
    requires k in s.claims && s.claims[k].contact in s.tables.recipients
    ensures Enabled(c, s, Work(k, Throw)) && Enabled(c, s, Work(k, Stop))
    ensures s.claims[k].pc.Creating? || s.claims[k].pc.Inserting? <==> Enabled(c, s, Work(k, Skip))
    ensures s.claims[k].pc.Creating? || s.claims[k].pc.Inserting? <==> Enabled(c, s, Work(k, Misconfigure))
    ensures Apply(c, s, Work(k, Stop)) == s.(claims := s.claims - {k})
  {
    hide IdempotencyKey;
    assert s.messages + {} == s.messages && s.outbox + multiset{} == s.outbox;
  }

  /** What an operator and the scheduler do to the campaign, by its columns. */
  lemma OperatorWrites(c: Config, s: State, event: Event)
    requires Enabled(c, s, Environment(event)) && (event.Pause? || event.Resume? || event.Promote?)
    ensures var t := Apply(c, s, Environment(event));
            && t == s.(tables := s.tables.(status := t.tables.status))
            && (event.Pause? ==> t.tables.status == Paused)
            && (event.Promote? ==> t.tables.status == Running)
            && (event.Resume? ==>
                  t.tables.status == if s.tables.scheduledAt.Some? && s.tables.scheduledAt.value > event.now then Scheduled
                                     else Running)
  {
  }

  // ----- rows: final states are final -----

  /** What any step may do to the rows: nobody disappears, and what is terminal stays as it is. */
  ghost predicate RowsGrow(a: Tables, b: Tables)
  {
    && (a.recipients == map[] || b.recipients.Keys == a.recipients.Keys)
    && (forall c :: c in a.recipients && IsTerminal(a.recipients[c].status) ==>
          c in b.recipients && b.recipients[c] == a.recipients[c])
    && (IsFinal(a.status) ==> b.status == a.status)
    && (a.launched ==> b.launched && b.totalRecipients == a.totalRecipients && b.recipients.Keys == a.recipients.Keys)
  }

  /** Rows exist only after the launch, as many as it counted. */
  predicate Snapshotted(t: Tables)
  {
    && (t.status.Draft? ==> !t.launched)
    && (!t.launched ==> t.recipients == map[])
    && (t.launched ==> |t.recipients| == t.totalRecipients)
  }

  lemma SameKeysSameSize(a: map<Contact, Recipient>, b: map<Contact, Recipient>)
    requires a.Keys == b.Keys
    ensures |a| == |b|
  {
    assert |a.Keys| == |a| && |b.Keys| == |b|;
  }

  lemma ClosedKeepsRows(recipients: map<Contact, Recipient>, status: RecipientStatus)
    ensures Closed(recipients, status).Keys == recipients.Keys
  {
  }

  lemma RowsAfterStep(t: Tables, claim: Claim, step: Step)
    requires claim.contact in t.recipients && StepEnabled(claim.pc, step) && Snapshotted(t)
    ensures RowsGrow(t, NextTables(t, claim, step)) && Snapshotted(NextTables(t, claim, step))
  {
    var u := NextTables(t, claim, step);
    ClosedKeepsRows(t.recipients, RecipientFailed);
    assert u.recipients.Keys == t.recipients.Keys;
    SameKeysSameSize(t.recipients, u.recipients);
  }

  lemma StatusMoves(t: Tables, status: CampaignStatus)
    requires Snapshotted(t) && !IsFinal(t.status) && !t.status.Draft? && !status.Draft?
    ensures var u := t.(status := status); RowsGrow(t, u) && Snapshotted(u)
  {
  }

  lemma NothingMoves(t: Tables)
    ensures RowsGrow(t, t)
  {
  }

  lemma RowsAfterLaunch(t: Tables, now: int, audience: seq<Contact>)
    requires Snapshotted(t) && t.status.Draft? && Distinct(audience)
    ensures var u := AfterLaunch(t, now, audience); RowsGrow(t, u) && Snapshotted(u)
  {
    hide Inserted, Distinct;
    LaunchCountsRecipients(t, now, audience);
  }

  lemma RowsAfterCancel(t: Tables)
    requires Snapshotted(t)
    ensures var u := AfterCancel(t); RowsGrow(t, u) && Snapshotted(u)
  {
    ClosedKeepsRows(t.recipients, RecipientCancelled);
    SameKeysSameSize(t.recipients, AfterCancel(t).recipients);
  }

  lemma RowsAfterClaim(t: Tables, c: Contact, clock: nat, token: nat)
    requires Snapshotted(t) && Claimable(t, c, clock)
    ensures var u := AfterClaim(t, c, token); RowsGrow(t, u) && Snapshotted(u)
  {
    var u := AfterClaim(t, c, token);
    assert u.recipients.Keys == t.recipients.Keys;
    SameKeysSameSize(t.recipients, u.recipients);
  }

  lemma RowsAfterEvent(c: Config, s: State, event: Event)
    requires Enabled(c, s, Environment(event)) && Snapshotted(s.tables)
    ensures var t := AfterEvent(c, s, event).tables; RowsGrow(s.tables, t) && Snapshotted(t)
  {
    hide RowsGrow, Snapshotted, Settled, Claimable, AfterLaunch, AfterCancel, AfterClaim, Distinct;
    match event
    case Launch(now, audience) => RowsAfterLaunch(s.tables, now, audience);
    case Cancel => RowsAfterCancel(s.tables);
    case ClaimOne(_, contact, clock, token) => RowsAfterClaim(s.tables, contact, clock, token);
    case CountRecipients(_, _) => NothingMoves(s.tables);
    case CompleteCampaign(k) =>
      if s.refreshers[k] && s.tables.status.Running? {
        StatusMoves(s.tables, Completed);
      } else {
        NothingMoves(s.tables);
      }
    case _ => StatusMoves(s.tables, AfterEvent(c, s, event).tables.status);
  }

  lemma RowsKept(c: Config, s: State, a: Action)
    requires Enabled(c, s, a) && Snapshotted(s.tables)
    ensures var t := Apply(c, s, a); RowsGrow(s.tables, t.tables) && Snapshotted(t.tables)
  {
    hide RowsGrow, Snapshotted, NextPc, NextTables, AfterEvent;
    match a
    case Environment(event) => RowsAfterEvent(c, s, event);
    case Work(k, step) => RowsAfterStep(s.tables, s.claims[k], step);
  }

  lemma RowsGrowOn(x: Tables, y: Tables, z: Tables)
    requires RowsGrow(x, y) && RowsGrow(y, z) && Snapshotted(x) && Snapshotted(y)
    ensures RowsGrow(x, z)
  {
  }

  lemma {:induction false} RowsOverRuns(c: Config, s: State, actions: seq<Action>, t: State)
    requires IsRun(c, s, actions, t) && Snapshotted(s.tables)
    ensures RowsGrow(s.tables, t.tables) && Snapshotted(t.tables)
    decreases |actions|
  {
    hide Enabled, Apply, Snapshotted;
    if actions != [] {
      var u := Apply(c, s, actions[0]);
      RowsKept(c, s, actions[0]);
      RowsOverRuns(c, u, actions[1..], t);
      hide RowsGrow;
      RowsGrowOn(s.tables, u.tables, t.tables);
    }
  }

  lemma {:induction false} RunsCompose(c: Config, s: State, first: seq<Action>, t: State, second: seq<Action>, u: State)
    requires IsRun(c, s, first, t) && IsRun(c, t, second, u)
    ensures IsRun(c, s, first + second, u)
    decreases |first|
  {
    hide Enabled, Apply;
    if first == [] {
      assert first + second == second;
    } else {
      assert (first + second)[0] == first[0] && (first + second)[1..] == first[1..] + second;
      RunsCompose(c, Apply(c, s, first[0]), first[1..], t, second, u);
    }
  }

  /**
   * From any reachable state on: an ended campaign keeps its state, a recipient that reached its
   * end keeps its row, and after the launch there are always as many recipients as were counted.
   */
  lemma EndsAreFinal(c: Config, at: Option<int>, past: seq<Action>, s: State, future: seq<Action>, t: State)
    requires IsRun(c, Start(at), past, s) && IsRun(c, s, future, t)
    ensures IsFinal(s.tables.status) ==> t.tables.status == s.tables.status
    ensures forall x :: x in s.tables.recipients && IsTerminal(s.tables.recipients[x].status) ==>
              x in t.tables.recipients && t.tables.recipients[x] == s.tables.recipients[x]
    ensures t.tables.launched ==> |t.tables.recipients| == t.tables.totalRecipients
    ensures s.tables.launched ==> t.tables.totalRecipients == s.tables.totalRecipients
  {
    hide IsRun;
    RowsOverRuns(c, Start(at), past, s);
    RowsOverRuns(c, s, future, t);
  }

  // ----- a scheduled campaign waits for its time -----

  /** The time at which an action that looks at a clock is taken. */
  function TimeOf(a: Action): Option<int>
  {
    match a
    case Work(_, step) => if step.Complete? then Some(step.now) else None
    case Environment(event) =>
      match event
      case Launch(now, _) => Some(now)
      case Resume(now) => Some(now)
      case Promote(now) => Some(now)
      case ClaimOne(_, _, clock, _) => Some(clock)
      case _ => None
  }

  function TimeAfter(from: int, a: Action): int
  {
    if TimeOf(a).Some? && TimeOf(a).value > from then TimeOf(a).value else from
  }

  /** The clock after the actions, when it stood at `from` before them. */
  function Clock(from: int, actions: seq<Action>): int
    decreases |actions|
  {
    if actions == [] then from else Clock(TimeAfter(from, actions[0]), actions[1..])
  }

  /** The clock does not go back from one action to the next. */
  predicate InTimeOrder(from: int, actions: seq<Action>)
    decreases |actions|
  {
    actions == [] ||
    ((TimeOf(actions[0]).Some? ==> TimeOf(actions[0]).value >= from)
     && InTimeOrder(TimeAfter(from, actions[0]), actions[1..]))
  }

  predicate OnTime(t: Tables, scheduled: int, clock: int)
  {
    t.scheduledAt == Some(scheduled) && (t.status.Running? ==> scheduled <= clock)
  }

  lemma StepsStartNothing(t: Tables, claim: Claim, step: Step)
    requires claim.contact in t.recipients && StepEnabled(claim.pc, step)
    ensures var u := NextTables(t, claim, step);
            u.scheduledAt == t.scheduledAt && (u.status.Running? ==> t.status.Running?)
  {
    hide Closed, Finish;
  }

  lemma EventsStartOnTime(c: Config, s: State, event: Event, scheduled: int, clock: int)
    requires Enabled(c, s, Environment(event)) && OnTime(s.tables, scheduled, clock)
    requires TimeOf(Environment(event)).Some? ==> TimeOf(Environment(event)).value >= clock
    ensures OnTime(AfterEvent(c, s, event).tables, scheduled, TimeAfter(clock, Environment(event)))
  {
    hide Closed, Inserted, Settled, Distinct, Claimable;
  }

  lemma OnTimeKept(c: Config, s: State, a: Action, scheduled: int, clock: int)
    requires Enabled(c, s, a) && OnTime(s.tables, scheduled, clock)
    requires TimeOf(a).Some? ==> TimeOf(a).value >= clock
    ensures OnTime(Apply(c, s, a).tables, scheduled, TimeAfter(clock, a))
  {
    hide NextPc, NextTables, NewMessages, Moved, AfterEvent, StepEnabled, CountsAsRetry;
    match a
    case Work(k, step) => StepsStartNothing(s.tables, s.claims[k], step);
    case Environment(event) => EventsStartOnTime(c, s, event, scheduled, clock);
  }

  lemma {:induction false} OnTimeOverRuns(c: Config, s: State, actions: seq<Action>, t: State, scheduled: int, from: int)
    requires IsRun(c, s, actions, t) && OnTime(s.tables, scheduled, from) && InTimeOrder(from, actions)
    ensures OnTime(t.tables, scheduled, Clock(from, actions))
    decreases |actions|
  {
    hide Enabled, Apply, OnTime;
    if actions != [] {
      OnTimeKept(c, s, actions[0], scheduled, from);
      OnTimeOverRuns(c, Apply(c, s, actions[0]), actions[1..], t, scheduled, TimeAfter(from, actions[0]));
    }
  }

  /**
   * While the clock does not go back, a campaign scheduled for some time never runs before it, no
   * waiting recipient is claimed before it, and from then on it may be promoted.
   */
  lemma NeverBeforeItsTime(c: Config, scheduled: int, from: int, actions: seq<Action>, t: State)
    requires IsRun(c, Start(Some(scheduled)), actions, t) && InTimeOrder(from, actions)
    ensures t.tables.status.Running? ==> Clock(from, actions) >= scheduled
    ensures forall k: nat, x, clock: nat, token: nat ::
              && Enabled(c, t, Environment(ClaimOne(k, x, clock, token))) && clock >= Clock(from, actions)
              && t.tables.recipients[x].status.Pending?
              ==> clock >= scheduled
    ensures forall now :: Enabled(c, t, Environment(Promote(now))) <==> t.tables.status.Scheduled? && scheduled <= now
  {
    hide IsRun, InTimeOrder, Clock;
    OnTimeOverRuns(c, Start(Some(scheduled)), actions, t, scheduled, from);
  }

  // ----- a completed campaign has nobody waiting -----

  /** A count that found nobody waiting stays true until the campaign completes on it. */
  ghost predicate CountsHold(s: State)
  {
    && Snapshotted(s.tables)
    && (forall k :: k in s.refreshers && s.refreshers[k] ==>
          s.tables.status.Cancelled? || (s.tables.launched && Settled(s.tables.recipients)))
    && (s.tables.status.Completed? ==> s.tables.launched && Settled(s.tables.recipients))
  }

  lemma SettledStays(a: Tables, b: Tables)
    requires RowsGrow(a, b) && a.launched && Settled(a.recipients)
    ensures b.launched && Settled(b.recipients)
  {
  }

  lemma StepKeepsCounts(c: Config, s: State, k: nat, step: Step)
    requires Enabled(c, s, Work(k, step)) && CountsHold(s)
    ensures var t := AfterStep(c, s, k, step);
            t.refreshers == s.refreshers && (t.tables.status.Completed? ==> s.tables.status.Completed?)
  {
    hide NextPc, Settled, Closed, Finish, Enabled;
  }

  lemma EventKeepsCounts(c: Config, s: State, event: Event)
    requires Enabled(c, s, Environment(event))
    ensures var t := AfterEvent(c, s, event);
            forall k :: k in t.refreshers && t.refreshers[k] ==>
              || (k in s.refreshers && s.refreshers[k])
              || (&& s.tables == t.tables && Settled(t.tables.recipients) && event.CountRecipients?
                  && (event.contact in t.tables.recipients || t.tables.status.Cancelled?))
  {
    hide Settled, Distinct, Claimable, AfterLaunch, AfterCancel, AfterClaim;
  }

  lemma EmptyLaunch(t: Tables, now: int)
    ensures t.recipients == map[] ==> AfterLaunch(t, now, []).recipients == map[]
  {
  }

  lemma EventCompletes(c: Config, s: State, event: Event)
    requires Enabled(c, s, Environment(event)) && CountsHold(s)
    ensures var t := AfterEvent(c, s, event);
            t.tables.status.Completed? ==>
              || s.tables.status.Completed?
              || (t.tables.launched && t.tables.recipients == map[])
              || (s.tables.launched && Settled(s.tables.recipients))
  {
    hide Settled, Closed, Distinct, Claimable, Inserted;
    match event
    case Launch(now, audience) =>
      hide CountsHold;
      EmptyLaunch(s.tables, now);
    case CompleteCampaign(_) =>
    case _ =>
      hide CountsHold;
  }

  lemma CountsHoldKept(c: Config, s: State, a: Action)
    requires Enabled(c, s, a) && CountsHold(s)
    ensures CountsHold(Apply(c, s, a))
  {
    hide AfterStep, AfterEvent, Enabled, Settled, RowsGrow;
    var t := Apply(c, s, a);
    RowsKept(c, s, a);
    FinalStays(s.tables, t.tables);
    EmptyIsSettled();
    if s.tables.launched && Settled(s.tables.recipients) {
      SettledStays(s.tables, t.tables);
    }
    match a
    case Environment(event) =>
      EventKeepsCounts(c, s, event);
      EventCompletes(c, s, event);
    case Work(k, step) => StepKeepsCounts(c, s, k, step);
  }

  lemma EmptyIsSettled()
    ensures Settled(map[])
  {
  }

  lemma FinalStays(a: Tables, b: Tables)
    requires RowsGrow(a, b)
    ensures IsFinal(a.status) ==> b.status == a.status
  {
  }

  lemma {:induction false} CountsHoldOverRuns(c: Config, s: State, actions: seq<Action>, t: State)
    requires IsRun(c, s, actions, t) && CountsHold(s)
    ensures CountsHold(t)
    decreases |actions|
  {
    hide Enabled, Apply, CountsHold;
    if actions != [] {
      CountsHoldKept(c, s, actions[0]);
      CountsHoldOverRuns(c, Apply(c, s, actions[0]), actions[1..], t);
    }
  }

  /** Though the count and the completion are separate statements, no completed campaign has anybody waiting. */
  lemma CompletedMeansNobodyWaits(c: Config, at: Option<int>, actions: seq<Action>, t: State)
    requires IsRun(c, Start(at), actions, t) && t.tables.status.Completed?
    ensures forall x :: x in t.tables.recipients ==> IsTerminal(t.tables.recipients[x].status)
  {
    hide IsRun;
    CountsHoldOverRuns(c, Start(at), actions, t);
  }

  // ----- one message per recipient -----

  /** Message ids and keys are unique, and every message has exactly one outbox event. */
  ghost predicate SentOnce(messages: set<Message>, outbox: multiset<nat>)
  {
    && (forall m, n :: m in messages && n in messages && (m.id == n.id || m.key == n.key) ==> m == n)
    && (forall m :: m in messages ==> outbox[m.id] == 1)
    && |outbox| == |messages|
  }

  ghost predicate MessagesOnce(s: State)
  {
    SentOnce(s.messages, s.outbox)
  }

  lemma OneMoreIsSentOnce(messages: set<Message>, outbox: multiset<nat>, m: Message)
    requires SentOnce(messages, outbox)
    requires forall n :: n in messages ==> n.id != m.id && n.key != m.key
    ensures SentOnce(messages + {m}, outbox + multiset{m.id})
  {
    EventsOf(messages, outbox, m.id);
    assert m !in messages;
  }

  lemma MessagesOnceKept(c: Config, s: State, a: Action)
    requires Enabled(c, s, a) && MessagesOnce(s)
    ensures MessagesOnce(Apply(c, s, a))
  {
    hide NextPc, NextTables, EventTables, AfterEvent;
    if a.Work? {
      OneMoreMessage(c, s, a.k, a.step);
    } else {
      EventsSendNothing(c, s, a.event);
    }
  }

  lemma EventsSendNothing(c: Config, s: State, event: Event)
    requires Enabled(c, s, Environment(event))
    ensures var t := AfterEvent(c, s, event);
            t.messages == s.messages && t.outbox == s.outbox && t.errorRetries == s.errorRetries
  {
    hide EventTables, Enabled;
  }

  lemma OneMoreMessage(c: Config, s: State, k: nat, step: Step)
    requires Enabled(c, s, Work(k, step)) && MessagesOnce(s)
    ensures MessagesOnce(AfterStep(c, s, k, step))
  {
    hide NextPc, NextTables, Moved, IdempotencyKey, SentOnce;
    var t, key := AfterStep(c, s, k, step), IdempotencyKey(c.campaignId, s.claims[k].contact);
    if step.Insert? && !HasMessage(s.messages, key) {
      OneMoreIsSentOnce(s.messages, s.outbox, Message(step.id, key));
    } else {
      assert t.messages == s.messages && t.outbox == s.outbox;
    }
  }

  lemma {:induction false} EventsOf(messages: set<Message>, outbox: multiset<nat>, id: nat)
    requires forall m, n :: m in messages && n in messages && m.id == n.id ==> m == n
    requires forall m :: m in messages ==> m.id != id && outbox[m.id] >= 1
    requires |outbox| == |messages|
    ensures outbox[id] == 0
    decreases |messages|
  {
    if messages == {} {
      assert outbox == multiset{};
    } else {
      var m :| m in messages;
      EventsOf(messages - {m}, outbox - multiset{m.id}, id);
    }
  }

  /** A queued recipient, and a claim about to queue it, link the message of that recipient's key. */
  predicate Links(c: Config, messages: set<Message>, contact: Contact, status: RecipientStatus, messageId: Option<nat>)
  {
    status.Queued? ==>
      messageId.Some? && Message(messageId.value, IdempotencyKey(c.campaignId, contact)) in messages
  }

  ghost predicate Linking(c: Config, s: State)
  {
    && (forall x :: x in s.tables.recipients ==>
          Links(c, s.messages, x, s.tables.recipients[x].status, s.tables.recipients[x].messageId))
    && (forall k :: k in s.claims && s.claims[k].pc.Completing? ==>
          Links(c, s.messages, s.claims[k].contact, s.claims[k].pc.outcome.status, s.claims[k].pc.outcome.messageId))
  }

  lemma NextPcLinks(c: Config, s: State, claim: Claim, step: Step)
    requires StepEnabled(claim.pc, step)
    ensures var pc := NextPc(c, s, claim, step);
            pc.Some? && pc.value.Completing? ==>
              Links(c, s.messages + NewMessages(c, s, claim, step), claim.contact, pc.value.outcome.status, pc.value.outcome.messageId)
  {
    hide IdempotencyKey;
  }

  lemma TablesLink(c: Config, s: State, claim: Claim, step: Step, x: Contact)
    requires claim.contact in s.tables.recipients && StepEnabled(claim.pc, step) && x in s.tables.recipients
    requires Links(c, s.messages, x, s.tables.recipients[x].status, s.tables.recipients[x].messageId)
    requires claim.pc.Completing? ==> Links(c, s.messages, claim.contact, claim.pc.outcome.status, claim.pc.outcome.messageId)
    ensures var t := NextTables(s.tables, claim, step);
            x in t.recipients && Links(c, s.messages, x, t.recipients[x].status, t.recipients[x].messageId)
  {
    hide IdempotencyKey;
  }

  lemma StepLinks(c: Config, s: State, k: nat, step: Step)
    requires Enabled(c, s, Work(k, step)) && Linking(c, s) && Snapshotted(s.tables)
    ensures Linking(c, AfterStep(c, s, k, step))
  {
    hide NextPc, NextTables, IdempotencyKey, NewMessages, RowsGrow, StepEnabled, Snapshotted;
    var t, claim := AfterStep(c, s, k, step), s.claims[k];
    NextPcLinks(c, s, claim, step);
    forall x | x in t.tables.recipients
      ensures Links(c, t.messages, x, t.tables.recipients[x].status, t.tables.recipients[x].messageId)
    {
      RowsAfterStep(s.tables, claim, step);
      SameRows(s.tables, t.tables, claim.contact);
      TablesLink(c, s, claim, step, x);
    }
  }

  lemma SameRows(a: Tables, b: Tables, c: Contact)
    requires RowsGrow(a, b) && c in a.recipients
    ensures a.recipients.Keys == b.recipients.Keys
  {
  }

  lemma EventLinks(c: Config, s: State, event: Event)
    requires Enabled(c, s, Environment(event)) && Linking(c, s)
    ensures Linking(c, AfterEvent(c, s, event))
  {
    hide IdempotencyKey, Distinct, Settled;
    EventsSendNothing(c, s, event);
  }

  lemma {:induction false} MessagesOverRuns(c: Config, s: State, actions: seq<Action>, t: State)
    requires IsRun(c, s, actions, t) && MessagesOnce(s) && Linking(c, s) && Snapshotted(s.tables)
    ensures MessagesOnce(t) && Linking(c, t)
    decreases |actions|
  {
    hide Enabled, AfterStep, AfterEvent, MessagesOnce, Linking, Snapshotted, RowsGrow;
    if actions != [] {
      MessagesOnceKept(c, s, actions[0]);
      RowsKept(c, s, actions[0]);
      match actions[0] {
        case Environment(event) => EventLinks(c, s, event);
        case Work(k, step) => StepLinks(c, s, k, step);
      }
      MessagesOverRuns(c, Apply(c, s, actions[0]), actions[1..], t);
    }
  }

  /**
   * Whatever crashes, expires or races: a contact of the campaign has at most one message and that
   * message one outbox event, and a queued recipient links exactly that message.
   */
  lemma OneMessagePerRecipient(c: Config, at: Option<int>, actions: seq<Action>, t: State)
    requires IsRun(c, Start(at), actions, t)
    ensures forall m, n :: m in t.messages && n in t.messages && m.key == n.key ==> m == n
    ensures forall m :: m in t.messages ==> t.outbox[m.id] == 1
    ensures |t.outbox| == |t.messages|
    ensures forall x :: x in t.tables.recipients && t.tables.recipients[x].status.Queued? ==>
              && t.tables.recipients[x].messageId.Some?
              && Message(t.tables.recipients[x].messageId.value, IdempotencyKey(c.campaignId, x)) in t.messages
  {
    hide IsRun, IdempotencyKey;
    MessagesOverRuns(c, Start(at), actions, t);
  }

  // ----- fenced claims and error retries -----

  /** The newest claim of a recipient holds its row until it completes, and error retries are paid for by claims. */
  predicate RowFenced(c: Config, r: Recipient, last: nat, retries: nat)
  {
    && (r.status.Processing? ==> r.lease == Some(last))
    && retries + (if r.status.Processing? then 1 else 0) <= r.attemptCount
    && (retries == 0 || retries < c.maxAttempts)
  }

  predicate ClaimFenced(c: Config, claim: Claim, r: Recipient, last: nat)
  {
    && claim.token <= last
    && claim.attempt <= r.attemptCount
    && (claim.token == last ==> claim.attempt == r.attemptCount)
    && (claim.pc.Completing? ==> !claim.pc.outcome.status.Processing?)
    && (claim.pc.Completing? && claim.pc.retry ==> claim.pc.outcome.status.Pending? && claim.attempt < c.maxAttempts)
  }

  ghost predicate Fenced(c: Config, s: State)
  {
    && (forall x :: x in s.tables.recipients ==> RowFenced(c, s.tables.recipients[x], Last(s, x), Retries(s, x)))
    && (forall x :: x !in s.tables.recipients ==> Retries(s, x) == 0)
    && (forall k :: k in s.claims ==>
          && s.claims[k].contact in s.tables.recipients
          && ClaimFenced(c, s.claims[k], s.tables.recipients[s.claims[k].contact], Last(s, s.claims[k].contact)))
  }

  predicate Superseded(s: State, k: nat)
  {
    k in s.claims && s.claims[k].token < Last(s, s.claims[k].contact)
  }

  /** A claim that has been superseded by a later one changes no row, whatever it completes with. */
  lemma SupersededClaimCompletesNothing(c: Config, s: State, k: nat, acknowledged: bool, now: int)
    requires Enabled(c, s, Work(k, Complete(acknowledged, now))) && Fenced(c, s) && Superseded(s, k)
    ensures AfterStep(c, s, k, Complete(acknowledged, now)).tables == s.tables
  {
    hide NextPc, NewMessages, Moved, ClaimFenced;
    var x := s.claims[k].contact;
    assert RowFenced(c, s.tables.recipients[x], Last(s, x), Retries(s, x));
    assert s.tables.recipients[x := s.tables.recipients[x]] == s.tables.recipients;
  }

  lemma RowAfterStep(c: Config, t: Tables, claim: Claim, step: Step, x: Contact, last: nat, retries: nat)
    requires claim.contact in t.recipients && StepEnabled(claim.pc, step) && x in t.recipients
    requires RowFenced(c, t.recipients[x], last, retries)
    requires claim.contact == x ==> ClaimFenced(c, claim, t.recipients[x], last)
    ensures var u := NextTables(t, claim, step);
            && x in u.recipients
            && u.recipients[x].attemptCount == t.recipients[x].attemptCount
            && RowFenced(c, u.recipients[x], last,
                         retries + if claim.contact == x && CountsAsRetry(t, claim, step) then 1 else 0)
  {
  }

  lemma PcStaysFenced(c: Config, s: State, claim: Claim, step: Step, r: Recipient, last: nat)
    requires StepEnabled(claim.pc, step) && ClaimFenced(c, claim, r, last)
    ensures var pc := NextPc(c, s, claim, step);
            pc.Some? ==> ClaimFenced(c, claim.(pc := pc.value), r, last)
  {
    hide IdempotencyKey;
  }

  lemma SameCount(c: Config, claim: Claim, r: Recipient, q: Recipient, last: nat)
    requires ClaimFenced(c, claim, r, last) && r.attemptCount == q.attemptCount
    ensures ClaimFenced(c, claim, q, last)
  {
  }

  lemma StepKeepsFence(c: Config, s: State, k: nat, step: Step)
    requires Enabled(c, s, Work(k, step)) && Fenced(c, s) && Snapshotted(s.tables)
    ensures Fenced(c, AfterStep(c, s, k, step))
  {
    hide NextPc, NextTables, NewMessages, RowFenced, ClaimFenced, RowsGrow, Snapshotted, CountsAsRetry, StepEnabled;
    var t, claim := AfterStep(c, s, k, step), s.claims[k];
    RowsAfterStep(s.tables, claim, step);
    SameRows(s.tables, t.tables, claim.contact);
    forall x | x in t.tables.recipients
      ensures RowFenced(c, t.tables.recipients[x], Last(t, x), Retries(t, x))
      ensures t.tables.recipients[x].attemptCount == s.tables.recipients[x].attemptCount
    {
      RowAfterStep(c, s.tables, claim, step, x, Last(s, x), Retries(s, x));
    }
    forall j | j in t.claims
      ensures t.claims[j].contact in t.tables.recipients
      ensures ClaimFenced(c, t.claims[j], t.tables.recipients[t.claims[j].contact], Last(t, t.claims[j].contact))
    {
      var x := s.claims[j].contact;
      if j == k {
        PcStaysFenced(c, s, claim, step, s.tables.recipients[x], Last(s, x));
      }
      SameCount(c, t.claims[j], s.tables.recipients[x], t.tables.recipients[x], Last(s, x));
    }
  }

  lemma LaunchedRow(t: Tables, now: int, audience: seq<Contact>, x: Contact)
    requires t.recipients == map[]
    ensures var u := AfterLaunch(t, now, audience); x in u.recipients ==> u.recipients[x] == NewRecipient(now)
  {
  }

  lemma ClosedRow(t: Tables, x: Contact)
    ensures var u := AfterCancel(t);
            && (x in t.recipients <==> x in u.recipients)
            && (x in t.recipients ==>
                  && u.recipients[x].attemptCount == t.recipients[x].attemptCount
                  && (u.recipients[x] == t.recipients[x] || !u.recipients[x].status.Processing?))
  {
  }

  /** Everything but a claim leaves tokens, attempts and claims alone. */
  lemma OtherEventRows(c: Config, s: State, event: Event, x: Contact)
    requires Enabled(c, s, Environment(event)) && !event.ClaimOne? && Snapshotted(s.tables)
    ensures var t := AfterEvent(c, s, event);
            && t.claims == s.claims && t.lastToken == s.lastToken && t.errorRetries == s.errorRetries
            && (x in s.tables.recipients ==>
                  && x in t.tables.recipients
                  && t.tables.recipients[x].attemptCount == s.tables.recipients[x].attemptCount
                  && (t.tables.recipients[x] == s.tables.recipients[x] || !t.tables.recipients[x].status.Processing?))
            && (x in t.tables.recipients && x !in s.tables.recipients ==>
                  event.Launch? && t.tables.recipients[x] == NewRecipient(event.now))
  {
    hide Distinct, Settled, Claimable, AfterLaunch, AfterCancel, AfterClaim, NewRecipient;
    match event
    case Launch(now, audience) => LaunchedRow(s.tables, now, audience, x);
    case Cancel => ClosedRow(s.tables, x);
    case _ =>
  }

  lemma OtherEventKeepsFence(c: Config, s: State, event: Event)
    requires Enabled(c, s, Environment(event)) && !event.ClaimOne? && Fenced(c, s) && Snapshotted(s.tables)
    ensures Fenced(c, AfterEvent(c, s, event))
  {
    hide AfterEvent, Enabled, ClaimFenced;
    var t := AfterEvent(c, s, event);
    OtherEventRows(c, s, event, "");
    forall x
      ensures x in t.tables.recipients ==> RowFenced(c, t.tables.recipients[x], Last(t, x), Retries(t, x))
      ensures x in s.tables.recipients ==>
                x in t.tables.recipients && t.tables.recipients[x].attemptCount == s.tables.recipients[x].attemptCount
    {
      OtherEventRows(c, s, event, x);
    }
    forall j | j in t.claims
      ensures t.claims[j].contact in t.tables.recipients
      ensures ClaimFenced(c, t.claims[j], t.tables.recipients[t.claims[j].contact], Last(t, t.claims[j].contact))
    {
      var x := s.claims[j].contact;
      SameCount(c, s.claims[j], s.tables.recipients[x], t.tables.recipients[x], Last(s, x));
    }
  }

  lemma ClaimKeepsFence(c: Config, s: State, k: nat, contact: Contact, clock: nat, token: nat)
    requires Enabled(c, s, Environment(ClaimOne(k, contact, clock, token))) && Fenced(c, s)
    ensures Fenced(c, AfterEvent(c, s, ClaimOne(k, contact, clock, token)))
  {
    var t := AfterEvent(c, s, ClaimOne(k, contact, clock, token));
    forall x | x in t.tables.recipients
      ensures RowFenced(c, t.tables.recipients[x], Last(t, x), Retries(t, x))
    {
      assert RowFenced(c, s.tables.recipients[x], Last(s, x), Retries(s, x));
    }
  }

  lemma {:induction false} FenceOverRuns(c: Config, s: State, actions: seq<Action>, t: State)
    requires IsRun(c, s, actions, t) && Fenced(c, s) && Snapshotted(s.tables)
    ensures Fenced(c, t)
    decreases |actions|
  {
    hide AfterStep, AfterEvent, Fenced, Snapshotted, RowsGrow;
    if actions != [] {
      RowsKept(c, s, actions[0]);
      match actions[0] {
        case Environment(event) =>
          if event.ClaimOne? {
            ClaimKeepsFence(c, s, event.k, event.contact, event.clock, event.token);
          } else {
            OtherEventKeepsFence(c, s, event);
          }
        case Work(k, step) => StepKeepsFence(c, s, k, step);
      }
      FenceOverRuns(c, Apply(c, s, actions[0]), actions[1..], t);
    }
  }

  /** In every reachable state a superseded claim is powerless, and nobody was error-retried maxAttempts times. */
  lemma ClaimsAreFenced(c: Config, at: Option<int>, actions: seq<Action>, t: State)
    requires IsRun(c, Start(at), actions, t) && c.maxAttempts > 0
    ensures forall x :: Retries(t, x) <= c.maxAttempts - 1
    ensures forall k, ok, now ::
              Enabled(c, t, Work(k, Complete(ok, now))) && Superseded(t, k) ==>
                AfterStep(c, t, k, Complete(ok, now)).tables == t.tables
  {
    hide IsRun, AfterStep, Enabled;
    FenceOverRuns(c, Start(at), actions, t);
    forall x
      ensures Retries(t, x) <= c.maxAttempts - 1
    {
      if x in t.tables.recipients {
        assert RowFenced(c, t.tables.recipients[x], Last(t, x), Retries(t, x));
      }
    }
    forall k, ok, now | Enabled(c, t, Work(k, Complete(ok, now))) && Superseded(t, k)
      ensures AfterStep(c, t, k, Complete(ok, now)).tables == t.tables
    {
      SupersededClaimCompletesNothing(c, t, k, ok, now);
    }
  }

  // ----- who may wait again after a cancellation or a failure -----

  lemma EventEnds(c: Config, s: State, event: Event)
    requires Enabled(c, s, Environment(event)) && !IsFinal(s.tables.status) && !event.Cancel?
    ensures var t := AfterEvent(c, s, event).tables; !t.status.Cancelled? && !t.status.Failed?
  {
    hide Settled, Distinct, Inserted, Claimable, Closed, Snapshotted;
  }

  lemma StepEnds(t: Tables, claim: Claim, step: Step)
    requires claim.contact in t.recipients && StepEnabled(claim.pc, step) && !IsFinal(t.status)
    ensures var u := NextTables(t, claim, step);
            u.status.Cancelled? || u.status.Failed? ==> u == AfterFail(t) && u.status != t.status
  {
    hide Closed, Finish;
  }

  /** The step that cancels or fails a campaign leaves nobody waiting. */
  lemma EndingClosesWaiters(c: Config, s: State, a: Action, x: Contact)
    requires Enabled(c, s, a) && !IsFinal(s.tables.status) && x in s.tables.recipients
    requires Apply(c, s, a).tables.status.Cancelled? || Apply(c, s, a).tables.status.Failed?
    ensures var t := Apply(c, s, a).tables; x in t.recipients && !t.recipients[x].status.Pending?
  {
    hide NextPc, NextTables, NewMessages, Moved, Closed, AfterCancel, AfterFail, Claimable, AfterClaim, AfterLaunch;
    hide StepEnabled, CountsAsRetry;
    EndingLeavesNobodyWaiting(s.tables, x);
    match a
    case Environment(event) =>
      if !event.Cancel? {
        hide Apply, Enabled;
        EventEnds(c, s, event);
      }
    case Work(k, step) => StepEnds(s.tables, s.claims[k], step);
  }

  ghost predicate MayWaitAgain(c: Config, s: State, x: Contact)
  {
    exists actions, t ::
      IsRun(c, s, actions, t) && x in t.tables.recipients && t.tables.recipients[x].status.Pending?
  }

  lemma ThenWait(c: Config, s: State, a: Action, x: Contact)
    requires Enabled(c, s, a) && MayWaitAgain(c, Apply(c, s, a), x)
    ensures MayWaitAgain(c, s, x)
  {
    hide Enabled, Apply;
    var actions, t :|
      IsRun(c, Apply(c, s, a), actions, t) && x in t.tables.recipients && t.tables.recipients[x].status.Pending?;
    assert ([a] + actions)[0] == a && ([a] + actions)[1..] == actions;
    assert IsRun(c, s, [a] + actions, t);
  }

  lemma WaitsNow(c: Config, s: State, x: Contact)
    requires x in s.tables.recipients && s.tables.recipients[x].status.Pending?
    ensures MayWaitAgain(c, s, x)
  {
    assert IsRun(c, s, [], s);
  }

  lemma WaitsAfterError(c: Config, s: State, k: nat, x: Contact)
    requires k in s.claims && s.claims[k].contact == x && s.claims[k].attempt < c.maxAttempts
    requires x in s.tables.recipients && Holds(s.tables.recipients[x], s.claims[k].token)
    ensures MayWaitAgain(c, s, x)
  {
    hide MayWaitAgain, IsRun, Backoff, IdempotencyKey;
    var s1 := Apply(c, s, Work(k, Throw));
    WaitsNow(c, Apply(c, s1, Work(k, Complete(true, 0))), x);
    ThenWait(c, s1, Work(k, Complete(true, 0)), x);
    ThenWait(c, s, Work(k, Throw), x);
  }

  lemma WaitsAfterReclaim(c: Config, s: State, x: Contact)
    requires x in s.tables.recipients && s.tables.recipients[x].status.Processing?
    requires s.tables.recipients[x].lease.Some? && s.tables.recipients[x].attemptCount + 1 < c.maxAttempts
    ensures MayWaitAgain(c, s, x)
  {
    hide MayWaitAgain, IsRun, Backoff;
    var k := Unused(s.claims.Keys);
    var reclaim := Environment(ClaimOne(k, x, s.tables.recipients[x].lease.value, Last(s, x) + 1));
    WaitsAfterError(c, Apply(c, s, reclaim), k, x);
    ThenWait(c, s, reclaim, x);
  }

  /** The claim has a way left to put its recipient back although the campaign has ended. */
  ghost predicate CanPutBack(c: Config, messages: set<Message>, claim: Claim)
  {
    || claim.attempt < c.maxAttempts
    || (claim.pc.Completing? && claim.pc.outcome.status.Pending?)
    || (claim.pc.Known? && (claim.pc.status.Paused? || claim.pc.status.Scheduled? || claim.pc.status.Draft?)
        && !HasMessage(messages, IdempotencyKey(c.campaignId, claim.contact)))
  }

  predicate Current(s: State, k: nat, x: Contact)
  {
    k in s.claims && s.claims[k].contact == x && s.claims[k].token == Last(s, x)
  }

  /** The recipient is being processed, and an error may still send it back: in this claim or in the next. */
  ghost predicate MayComeBack(c: Config, s: State, x: Contact)
    requires x in s.tables.recipients
  {
    && s.tables.recipients[x].status.Processing?
    && (|| s.tables.recipients[x].attemptCount + 1 < c.maxAttempts
        || exists k :: Current(s, k, x) && CanPutBack(c, s.messages, s.claims[k]))
  }

  lemma WaitsWhenCompleted(c: Config, s: State, k: nat, x: Contact)
    requires k in s.claims && s.claims[k].contact == x
    requires s.claims[k].pc.Completing? && s.claims[k].pc.outcome.status.Pending?
    requires x in s.tables.recipients && Holds(s.tables.recipients[x], s.claims[k].token)
    ensures MayWaitAgain(c, s, x)
  {
    hide MayWaitAgain, IsRun, IdempotencyKey, Backoff;
    WaitsNow(c, Apply(c, s, Work(k, Complete(true, 0))), x);
    ThenWait(c, s, Work(k, Complete(true, 0)), x);
  }

  lemma WaitsWhenPutBack(c: Config, s: State, k: nat, x: Contact)
    requires Current(s, k, x) && CanPutBack(c, s.messages, s.claims[k])
    requires x in s.tables.recipients && Holds(s.tables.recipients[x], s.claims[k].token)
    ensures MayWaitAgain(c, s, x)
  {
    hide MayWaitAgain, IsRun, IdempotencyKey, Backoff;
    if s.claims[k].attempt < c.maxAttempts {
      WaitsAfterError(c, s, k, x);
    } else if s.claims[k].pc.Completing? {
      WaitsWhenCompleted(c, s, k, x);
    } else {
      WaitsWhenCompleted(c, Apply(c, s, Work(k, Find(true))), k, x);
      ThenWait(c, s, Work(k, Find(true)), x);
    }
  }

  /** Nobody can make the recipient wait again. */
  ghost predicate Closing(c: Config, s: State, x: Contact)
  {
    && IsFinal(s.tables.status) && x in s.tables.recipients
    && !s.tables.recipients[x].status.Pending? && !MayComeBack(c, s, x)
  }

  lemma PutBackStaysLost(c: Config, s: State, claim: Claim, step: Step)
    requires StepEnabled(claim.pc, step) && IsFinal(s.tables.status) && !CanPutBack(c, s.messages, claim)
    ensures var pc := NextPc(c, s, claim, step);
            pc.Some? ==> !CanPutBack(c, s.messages + NewMessages(c, s, claim, step), claim.(pc := pc.value))
  {
    hide IdempotencyKey, Backoff, MessageId;
  }

  lemma MoreMessages(c: Config, messages: set<Message>, more: set<Message>, claim: Claim)
    requires !CanPutBack(c, messages, claim)
    ensures !CanPutBack(c, messages + more, claim)
  {
    hide IdempotencyKey;
  }

  lemma RowWhileClosing(c: Config, s: State, claim: Claim, step: Step, x: Contact)
    requires claim.contact in s.tables.recipients && StepEnabled(claim.pc, step)
    requires IsFinal(s.tables.status) && x in s.tables.recipients && !s.tables.recipients[x].status.Pending?
    requires claim.contact == x ==> ClaimFenced(c, claim, s.tables.recipients[x], Last(s, x))
    requires s.tables.recipients[x].status.Processing? ==> s.tables.recipients[x].lease == Some(Last(s, x))
    requires s.tables.recipients[x].status.Processing? && claim.contact == x && claim.token == Last(s, x) ==>
               !CanPutBack(c, s.messages, claim)
    ensures var t := NextTables(s.tables, claim, step);
            && t.status == s.tables.status && x in t.recipients && !t.recipients[x].status.Pending?
            && (t.recipients[x].status.Processing? ==> t.recipients[x] == s.tables.recipients[x])
  {
    hide IdempotencyKey, HasMessage;
  }

  lemma StepKeepsClosing(c: Config, s: State, k: nat, step: Step, x: Contact)
    requires Enabled(c, s, Work(k, step)) && Closing(c, s, x) && Fenced(c, s)
    ensures Closing(c, AfterStep(c, s, k, step), x)
  {
    hide NextPc, NextTables, NewMessages, CanPutBack, ClaimFenced, StepEnabled, CountsAsRetry;
    var t, claim := AfterStep(c, s, k, step), s.claims[k];
    assert RowFenced(c, s.tables.recipients[x], Last(s, x), Retries(s, x));
    assert claim.contact == x && claim.token == Last(s, x) ==> Current(s, k, x);
    RowWhileClosing(c, s, claim, step, x);
    if t.tables.recipients[x].status.Processing? {
      forall j | Current(t, j, x)
        ensures !CanPutBack(c, t.messages, t.claims[j])
      {
        assert Current(s, j, x);
        if j == k {
          PutBackStaysLost(c, s, claim, step);
        } else {
          MoreMessages(c, s.messages, NewMessages(c, s, claim, step), s.claims[j]);
        }
      }
    }
  }

  lemma ReclaimKeepsClosing(c: Config, s: State, k: nat, contact: Contact, clock: nat, token: nat, x: Contact)
    requires Enabled(c, s, Environment(ClaimOne(k, contact, clock, token))) && Closing(c, s, x) && Fenced(c, s)
    ensures Closing(c, AfterEvent(c, s, ClaimOne(k, contact, clock, token)), x)
  {
    hide RowFenced, IdempotencyKey, HasMessage;
    var t := AfterEvent(c, s, ClaimOne(k, contact, clock, token));
    if t.tables.recipients[x].status.Processing? {
      forall j | Current(t, j, x)
        ensures !CanPutBack(c, t.messages, t.claims[j])
      {
        if j != k {
          assert ClaimFenced(c, s.claims[j], s.tables.recipients[x], Last(s, x));
          assert Current(s, j, x);
        }
      }
    }
  }

  lemma EventKeepsClosing(c: Config, s: State, event: Event, x: Contact)
    requires Enabled(c, s, Environment(event)) && Closing(c, s, x) && !event.ClaimOne?
    ensures Closing(c, AfterEvent(c, s, event), x)
  {
    hide CanPutBack, Settled, Distinct;
    var t := AfterEvent(c, s, event);
    assert t.tables == s.tables && t.claims == s.claims && t.messages == s.messages && t.lastToken == s.lastToken;
    assert forall k :: Current(t, k, x) <==> Current(s, k, x);
  }

  lemma {:induction false} ClosingOverRuns(c: Config, s: State, actions: seq<Action>, t: State, x: Contact)
    requires IsRun(c, s, actions, t) && Closing(c, s, x) && Fenced(c, s) && Snapshotted(s.tables)
    ensures Closing(c, t, x)
    decreases |actions|
  {
    hide AfterStep, AfterEvent, Fenced, Snapshotted, RowsGrow, Closing, Enabled;
    if actions != [] {
      RowsKept(c, s, actions[0]);
      assert IsRun(c, s, [actions[0]], Apply(c, s, actions[0])) by {
        OneStep(c, s, actions[0]);
      }
      FenceOverRuns(c, s, [actions[0]], Apply(c, s, actions[0]));
      match actions[0] {
        case Environment(event) =>
          if event.ClaimOne? {
            ReclaimKeepsClosing(c, s, event.k, event.contact, event.clock, event.token, x);
          } else {
            EventKeepsClosing(c, s, event, x);
          }
        case Work(k, step) => StepKeepsClosing(c, s, k, step, x);
      }
      ClosingOverRuns(c, Apply(c, s, actions[0]), actions[1..], t, x);
    }
  }

  lemma OneStep(c: Config, s: State, a: Action)
    requires Enabled(c, s, a)
    ensures IsRun(c, s, [a], Apply(c, s, a))
  {
    hide Enabled, Apply;
    assert [a][1..] == [];
    assert IsRun(c, Apply(c, s, a), [], Apply(c, s, a));
  }

  /**
   * In an ended campaign a recipient that does not wait may wait again exactly when it is being
   * processed and its claim, or one more claim after it, may still end in an error that is retried.
   */
  lemma WhoMayWaitAgain(c: Config, at: Option<int>, past: seq<Action>, s: State, x: Contact)
    requires IsRun(c, Start(at), past, s) && IsFinal(s.tables.status)
    requires x in s.tables.recipients && !s.tables.recipients[x].status.Pending?
    ensures MayWaitAgain(c, s, x) <==> MayComeBack(c, s, x)
  {
    hide IsRun, CanPutBack;
    FenceOverRuns(c, Start(at), past, s);
    RowsOverRuns(c, Start(at), past, s);
    assert RowFenced(c, s.tables.recipients[x], Last(s, x), Retries(s, x));
    if MayComeBack(c, s, x) {
      hide MayWaitAgain;
      if s.tables.recipients[x].attemptCount + 1 < c.maxAttempts {
        WaitsAfterReclaim(c, s, x);
      } else {
        var k :| Current(s, k, x) && CanPutBack(c, s.messages, s.claims[k]);
        WaitsWhenPutBack(c, s, k, x);
      }
    } else {
      hide Fenced, Snapshotted;
      forall actions, t | IsRun(c, s, actions, t)
        ensures !(x in t.tables.recipients && t.tables.recipients[x].status.Pending?)
      {
        ClosingOverRuns(c, s, actions, t, x);
      }
    }
  }

  // ----- an ended campaign in which somebody waits again -----

  lemma RunOn(c: Config, s: State, actions: seq<Action>, t: State, a: Action)
    requires IsRun(c, s, actions, t) && Enabled(c, t, a)
    ensures IsRun(c, s, actions + [a], Apply(c, t, a))
  {
    hide IsRun, Enabled, Apply;
    OneStep(c, t, a);
    RunsCompose(c, s, actions, t, [a], Apply(c, t, a));
  }

  /** The only recipient of a campaign is being processed in its first attempt, and nothing was sent. */
  ghost predicate FirstAttempt(s: State, x: Contact)
  {
    && s.tables.recipients.Keys == {x} && s.tables.recipients[x].status.Processing?
    && s.tables.recipients[x].attemptCount == 1 && Holds(s.tables.recipients[x], 1) && Last(s, x) == 1
    && s.claims.Keys == {0} && s.claims[0].contact == x && s.claims[0].token == 1 && s.claims[0].attempt == 1
    && s.messages == {}
  }

  lemma LaunchAndClaim(c: Config, x: Contact) returns (actions: seq<Action>, s: State)
    ensures IsRun(c, Start(None), actions, s) && FirstAttempt(s, x)
    ensures s.tables.status.Running? && s.claims[0].pc.Claimed?
  {
    hide IsRun;
    var launch, claim := Environment(Launch(0, [x])), Environment(ClaimOne(0, x, 0, 1));
    OneStep(c, Start(None), launch);
    var launched := Apply(c, Start(None), launch);
    RunOn(c, Start(None), [launch], launched, claim);
    actions, s := [launch] + [claim], Apply(c, launched, claim);
  }

  /** The claim reads the campaign while it is paused. */
  lemma PauseAndRead(c: Config, x: Contact) returns (actions: seq<Action>, s: State)
    ensures IsRun(c, Start(None), actions, s) && FirstAttempt(s, x)
    ensures s.tables.status.Paused? && s.claims[0].pc == Known(Paused)
  {
    hide IsRun;
    var before, claimed := LaunchAndClaim(c, x);
    RunOn(c, Start(None), before, claimed, Environment(Pause));
    var paused := Apply(c, claimed, Environment(Pause));
    RunOn(c, Start(None), before + [Environment(Pause)], paused, Work(0, Read));
    actions, s := before + [Environment(Pause)] + [Work(0, Read)], Apply(c, paused, Work(0, Read));
  }

  lemma CancelKeepsAttempt(c: Config, s: State, x: Contact)
    requires FirstAttempt(s, x) && !IsFinal(s.tables.status)
    ensures var t := Apply(c, s, Environment(Cancel));
            t.tables.status.Cancelled? && FirstAttempt(t, x) && t.claims == s.claims
  {
  }

  /**
   * A run that cancels a campaign and ends with its recipient waiting: the claim in flight ends in
   * an error that is retried, or had read the campaign while it was paused, which any number of
   * attempts allows.
   */
  lemma CancelledRecipientWaitsAgain(c: Config, x: Contact, error: bool)
    returns (past: seq<Action>, s: State, future: seq<Action>, t: State)
    requires error ==> c.maxAttempts >= 2
    ensures IsRun(c, Start(None), past, s) && s.tables.status.Cancelled?
    ensures x in s.tables.recipients && !s.tables.recipients[x].status.Pending? && MayComeBack(c, s, x)
    ensures IsRun(c, s, future, t) && t.tables.status.Cancelled?
    ensures x in t.tables.recipients && t.tables.recipients[x].status.Pending?
  {
    hide IsRun, Enabled, Apply, IdempotencyKey;
    if error {
      past, s := LaunchAndClaim(c, x);
    } else {
      past, s := PauseAndRead(c, x);
    }
    CancelIsEnabled(c, s);
    RunOn(c, Start(None), past, s, Environment(Cancel));
    CancelKeepsAttempt(c, s, x);
    past, s := past + [Environment(Cancel)], Apply(c, s, Environment(Cancel));
    assert Current(s, 0, x) && CanPutBack(c, s.messages, s.claims[0]);
    WhoMayWaitAgain(c, None, past, s, x);
    future, t :| IsRun(c, s, future, t) && x in t.tables.recipients && t.tables.recipients[x].status.Pending?;
    EndsAreFinal(c, None, past, s, future, t);
  }

  lemma CancelIsEnabled(c: Config, s: State)
    ensures Enabled(c, s, Environment(Cancel))
  {
  }

  // ----- a campaign that nobody disturbs -----

  /** A step that only looks moves nothing but its claim. */
  lemma LookingMovesClaim(c: Config, s: State, claim: Claim, step: Step, pc: Pc)
    requires s.claims == map[0 := claim] && claim.contact in s.tables.recipients
    requires (step.Read? || step.Find? || step.Lookup?) && StepEnabled(claim.pc, step)
    requires NextPc(c, s, claim, step) == Some(pc)
    ensures Enabled(c, s, Work(0, step)) && Apply(c, s, Work(0, step)) == s.(claims := map[0 := claim.(pc := pc)])
  {
    hide IdempotencyKey, NextPc, Moved;
    OnlyClaimMoves(claim, pc);
    assert s.messages + {} == s.messages && s.outbox + multiset{} == s.outbox;
  }

  lemma InsertCreates(c: Config, s: State, claim: Claim, id: nat)
    requires s.claims == map[0 := claim] && claim.contact in s.tables.recipients && claim.pc.Inserting?
    requires s.messages == {} && s.outbox == multiset{}
    ensures Enabled(c, s, Work(0, Insert(id)))
    ensures Apply(c, s, Work(0, Insert(id)))
         == s.(messages := {Message(id, IdempotencyKey(c.campaignId, claim.contact))}, outbox := multiset{id},
               claims := map[0 := claim.(pc := Completing(Outcome(Queued, Some(id), None), false))])
  {
    hide IdempotencyKey, Moved;
    OnlyClaimMoves(claim, Completing(Outcome(Queued, Some(id), None), false));
    assert {} + {Message(id, IdempotencyKey(c.campaignId, claim.contact))}
        == {Message(id, IdempotencyKey(c.campaignId, claim.contact))};
    assert multiset{} + multiset{id} == multiset{id};
  }

  /** The claim finds a running campaign and no message, and creates one under the recipient's key. */
  lemma ClaimCreates(c: Config, s: State, x: Contact, token: nat, id: nat) returns (t: State)
    requires s.claims == map[0 := Claim(x, token, 1, Claimed)] && s.messages == {} && s.outbox == multiset{}
    requires s.tables.status.Running? && x in s.tables.recipients
    ensures IsRun(c, s, [Work(0, Read), Work(0, Find(true)), Work(0, Lookup), Work(0, Insert(id))], t)
    ensures t == s.(messages := {Message(id, IdempotencyKey(c.campaignId, x))}, outbox := multiset{id},
                    claims := map[0 := Claim(x, token, 1, Completing(Outcome(Queued, Some(id), None), false))])
  {
    hide IsRun, IdempotencyKey, Apply, Enabled;
    var s1 := s.(claims := map[0 := Claim(x, token, 1, Known(Running))]);
    var s2 := s.(claims := map[0 := Claim(x, token, 1, Creating)]);
    var s3 := s.(claims := map[0 := Claim(x, token, 1, Inserting)]);
    LookingMovesClaim(c, s, s.claims[0], Read, Known(Running));
    LookingMovesClaim(c, s1, s1.claims[0], Find(true), Creating);
    LookingMovesClaim(c, s2, s2.claims[0], Lookup, Inserting);
    InsertCreates(c, s3, s3.claims[0], id);
    t := Apply(c, s3, Work(0, Insert(id)));
    OneStep(c, s, Work(0, Read));
    RunOn(c, s, [Work(0, Read)], s1, Work(0, Find(true)));
    RunOn(c, s, [Work(0, Read)] + [Work(0, Find(true))], s2, Work(0, Lookup));
    RunOn(c, s, [Work(0, Read)] + [Work(0, Find(true))] + [Work(0, Lookup)], s3, Work(0, Insert(id)));
    assert [Work(0, Read)] + [Work(0, Find(true))] + [Work(0, Lookup)] + [Work(0, Insert(id))]
        == [Work(0, Read), Work(0, Find(true)), Work(0, Lookup), Work(0, Insert(id))];
  }

  lemma OnlyClaimMoves(claim: Claim, pc: Pc)
    ensures Moved(map[0 := claim], 0, Some(pc)) == map[0 := claim.(pc := pc)]
    ensures Moved(map[0 := claim], 0, None) == map[]
  {
  }

  /** The completed claim settles the only recipient, and the next count completes the campaign. */
  lemma ClaimCompletesCampaign(c: Config, s: State, x: Contact, token: nat, outcome: Outcome, now: int) returns (t: State)
    requires s.claims == map[0 := Claim(x, token, 1, Completing(outcome, false))] && s.refreshers == map[]
    requires s.tables.status.Running? && s.tables.recipients.Keys == {x} && Holds(s.tables.recipients[x], token)
    requires outcome.status == RecipientStatus.Queued && outcome.messageId.Some? && outcome.delay == None
    ensures IsRun(c, s, [Work(0, Complete(true, now)), Environment(CountRecipients(0, x)), Environment(CompleteCampaign(0))], t)
    ensures var r := s.tables.recipients[x];
            t == s.(claims := map[], tables := s.tables.(
                      status := Completed,
                      recipients := map[x := Recipient(Queued, r.attemptCount, None, outcome.messageId, r.nextAttemptAt)]))
  {
    hide IsRun, IdempotencyKey, Moved;
    var r := s.tables.recipients[x];
    var rows := map[x := Recipient(Queued, r.attemptCount, None, outcome.messageId, r.nextAttemptAt)];
    var s1 := s.(claims := map[], tables := s.tables.(recipients := rows));
    var s2 := s1.(refreshers := map[0 := true]);
    t := s1.(tables := s1.tables.(status := Completed));
    OnlyClaimMoves(s.claims[0], Claimed);
    assert Apply(c, s, Work(0, Complete(true, now))) == s1 by {
      assert s.tables.recipients[x := rows[x]] == rows;
      assert s.messages + {} == s.messages && s.outbox + multiset{} == s.outbox;
    }
    assert Apply(c, s1, Environment(CountRecipients(0, x))) == s2;
    assert Apply(c, s2, Environment(CompleteCampaign(0))) == t;
    OneStep(c, s, Work(0, Complete(true, now)));
    RunOn(c, s, [Work(0, Complete(true, now))], s1, Environment(CountRecipients(0, x)));
    RunOn(c, s, [Work(0, Complete(true, now))] + [Environment(CountRecipients(0, x))], s2, Environment(CompleteCampaign(0)));
    assert [Work(0, Complete(true, now))] + [Environment(CountRecipients(0, x))] + [Environment(CompleteCampaign(0))]
        == [Work(0, Complete(true, now)), Environment(CountRecipients(0, x)), Environment(CompleteCampaign(0))];
  }

  /** Launch and claim, with the row they leave. */
  lemma LaunchThenClaim(c: Config, x: Contact, launched: int, clock: nat, token: nat) returns (s: State)
    requires launched <= clock && token > 0
    ensures IsRun(c, Start(None), [Environment(Launch(launched, [x])), Environment(ClaimOne(0, x, clock, token))], s)
    ensures s == Start(None).(
              tables := Tables(Running, None, true, 1, map[x := Recipient(Processing, 1, Some(token), None, launched)]),
              claims := map[0 := Claim(x, token, 1, Claimed)], lastToken := map[x := token])
  {
    hide IsRun, AfterStep;
    var launch, claim := Environment(Launch(launched, [x])), Environment(ClaimOne(0, x, clock, token));
    var s1 := Start(None).(tables := Tables(Running, None, true, 1, map[x := Recipient(Pending, 0, None, None, launched)]));
    s := s1.(tables := s1.tables.(recipients := map[x := Recipient(Processing, 1, Some(token), None, launched)]),
             claims := map[0 := Claim(x, token, 1, Claimed)], lastToken := map[x := token]);
    assert Apply(c, Start(None), launch) == s1;
    assert Apply(c, s1, claim) == s;
    OneStep(c, Start(None), launch);
    RunOn(c, Start(None), [launch], s1, claim);
    assert [launch] + [claim] == [launch, claim];
  }

  /**
   * Nobody interferes and nothing fails: a campaign to one contact is launched, claimed once, sends
   * one message under the contact's key, and ends completed with its recipient queued.
   */
  lemma UndisturbedCampaign(c: Config, x: Contact, launched: int, clock: nat, token: nat, id: nat, now: int)
    returns (actions: seq<Action>, t: State)
    requires launched <= clock && token > 0
    ensures IsRun(c, Start(None), actions, t)
    ensures t.tables == Tables(Completed, None, true, 1, map[x := Recipient(Queued, 1, None, Some(id), launched)])
    ensures t.messages == {Message(id, IdempotencyKey(c.campaignId, x))} && t.outbox == multiset{id} && t.claims == map[]
  {
    hide IsRun, Enabled, Apply, IdempotencyKey;
    var s := LaunchThenClaim(c, x, launched, clock, token);
    var u := ClaimCreates(c, s, x, token, id);
    t := ClaimCompletesCampaign(c, u, x, token, Outcome(Queued, Some(id), None), now);
    var start := [Environment(Launch(launched, [x])), Environment(ClaimOne(0, x, clock, token))];
    var create := [Work(0, Read), Work(0, Find(true)), Work(0, Lookup), Work(0, Insert(id))];
    var end := [Work(0, Complete(true, now)), Environment(CountRecipients(0, x)), Environment(CompleteCampaign(0))];
    RunsCompose(c, Start(None), start, s, create, u);
    RunsCompose(c, Start(None), start + create, u, end, t);
    actions := start + create + end;
  }
}
