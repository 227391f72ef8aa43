/**
 * The conversation row: activity times, unread count and the response-SLA cycle, under customer
 * messages, replies, escalation scans, status changes and team assignments in any order.
 */
module ConversationSla {
  import opened Wrappers

  datatype Status = Open | Pending | Resolved

  /** `responseSla…At`: when the cycle started, is due, was answered and was escalated. */
  datatype Sla = Sla(started: Option<int>, due: Option<int>, responded: Option<int>, escalated: Option<int>)

  datatype Row = Row(
    status: Status,
    unreadCount: nat,
    lastMessageAt: int,
    lastInboundAt: Option<int>,
    lastOutboundAt: Option<int>,
    sla: Sla)

  const NO_CYCLE := Sla(None, None, None, None)
  const MINUTE_MS := 60000

  function Max(a: int, b: int): int
  {
    if a > b then a else b
  }

  function Latest(at: Option<int>, other: int): int
  {
    if at.Some? then Max(at.value, other) else other
  }

  /** Later than a recorded time, or nothing is recorded yet. */
  predicate After(at: int, other: Option<int>)
  {
    other.Some? ==> at > other.value
  }

  function NewCycle(at: int, minutes: Option<nat>): Sla
  {
    if minutes.Some? then Sla(Some(at), Some(at + minutes.value * MINUTE_MS), None, None) else NO_CYCLE
  }

  // ----- what each statement does to the row -----

  predicate Unanswered(sla: Sla)
  {
    sla.due.Some? && sla.responded == None
  }

  predicate InboundStarts(row: Row, at: int)
  {
    && After(at, row.lastInboundAt) && After(at, row.lastOutboundAt)
    && (row.status.Resolved? || !Unanswered(row.sla))
  }

  function AfterInbound(row: Option<Row>, at: int, minutes: Option<nat>): Row
  {
    match row
    case None => Row(Open, 1, at, Some(at), None, NO_CYCLE)
    case Some(r) =>
      Row(Open, r.unreadCount + 1, Max(r.lastMessageAt, at), Some(Latest(r.lastInboundAt, at)), r.lastOutboundAt,
          if InboundStarts(r, at) then NewCycle(at, minutes) else r.sla)
  }

  predicate OutboundCloses(row: Row, at: int)
  {
    && !row.status.Resolved?
    && row.sla.started.Some? && Unanswered(row.sla)
    && at >= row.sla.started.value && After(at, row.lastOutboundAt)
  }

  function AfterOutbound(row: Option<Row>, at: int): Row
  {
    match row
    case None => Row(Open, 0, at, None, Some(at), NO_CYCLE)
    case Some(r) =>
      Row(Open, r.unreadCount, Max(r.lastMessageAt, at), r.lastInboundAt, Some(Latest(r.lastOutboundAt, at)),
          if r.status.Resolved? then NO_CYCLE
          else if OutboundCloses(r, at) then r.sla.(responded := Some(at))
          else r.sla)
  }

  predicate Overdue(row: Row, now: int)
  {
    && !row.status.Resolved? && row.sla.started.Some?
    && Unanswered(row.sla) && row.sla.due.value <= now && row.sla.escalated == None
  }

  function AfterEscalation(row: Row, now: int): Row
  {
    if Overdue(row, now) then row.(sla := row.sla.(escalated := Some(now))) else row
  }

  predicate AssignmentStarts(row: Row)
  {
    && !row.status.Resolved? && row.lastInboundAt.Some?
    && After(row.lastInboundAt.value, row.lastOutboundAt)
    && !Unanswered(row.sla)
  }

  function AfterAssignment(row: Row, now: int, minutes: Option<nat>): Row
  {
    if minutes.Some? && AssignmentStarts(row) then row.(sla := NewCycle(now, minutes)) else row
  }

  // ----- the same, column by column -----

  /** A customer message opens the conversation, counts as unread and moves the activity times forward. */
  lemma InboundWrites(row: Option<Row>, at: int, minutes: Option<nat>)
    ensures var next := AfterInbound(row, at, minutes);
            && next.status == Open
            && next.unreadCount == (if row.Some? then row.value.unreadCount else 0) + 1
            && next.lastMessageAt == (if row.Some? && row.value.lastMessageAt >= at then row.value.lastMessageAt else at)
            && next.lastOutboundAt == (if row.Some? then row.value.lastOutboundAt else None)
            && next.lastInboundAt ==
               if row.Some? && row.value.lastInboundAt.Some? && row.value.lastInboundAt.value >= at
               then row.value.lastInboundAt else Some(at)
  {
  }

  /**
   * It starts a cycle, due after the team's minutes of 60,000 ms, exactly if it is newer than all
   * activity and no open conversation waits for an answer; then a team without a target ends any cycle.
   */
  lemma InboundCycle(row: Row, at: int, minutes: Option<nat>)
    ensures var was, next := row.sla, AfterInbound(Some(row), at, minutes).sla;
            if && (row.lastInboundAt.Some? ==> at > row.lastInboundAt.value)
               && (row.lastOutboundAt.Some? ==> at > row.lastOutboundAt.value)
               && (row.status == Resolved || was.due == None || was.responded.Some?)
            then
              && next.responded == None && next.escalated == None
              && (minutes == None ==> next.started == None && next.due == None)
              && (minutes.Some? ==> next.started == Some(at) && next.due == Some(at + 60000 * minutes.value))
            else next == was
  {
  }

  /** A reply opens the conversation and moves the activity times forward; nothing is read or unread by it. */
  lemma OutboundWrites(row: Option<Row>, at: int)
    ensures var next := AfterOutbound(row, at);
            && next.status == Open
            && next.unreadCount == (if row.Some? then row.value.unreadCount else 0)
            && next.lastMessageAt == (if row.Some? && row.value.lastMessageAt >= at then row.value.lastMessageAt else at)
            && next.lastInboundAt == (if row.Some? then row.value.lastInboundAt else None)
            && next.lastOutboundAt ==
               if row.Some? && row.value.lastOutboundAt.Some? && row.value.lastOutboundAt.value >= at
               then row.value.lastOutboundAt else Some(at)
  {
  }

  /** It answers a cycle that it does not precede, once; of a resolved conversation it drops the cycle. */
  lemma OutboundCycle(row: Row, at: int)
    ensures var was, next := row.sla, AfterOutbound(Some(row), at).sla;
            if row.status == Resolved then
              next.started == None && next.due == None && next.responded == None && next.escalated == None
            else
              && next.started == was.started && next.due == was.due && next.escalated == was.escalated
              && next.responded ==
                 if && was.started.Some? && was.due.Some? && was.responded == None && at >= was.started.value
                    && (row.lastOutboundAt.Some? ==> at > row.lastOutboundAt.value)
                 then Some(at) else was.responded
  {
  }

  /** Only the escalation time is written, once the due time of an open, unanswered cycle has come. */
  lemma EscalationWrites(row: Row, now: int)
    ensures var was, next := row.sla, AfterEscalation(row, now);
            && next == row.(sla := next.sla)
            && next.sla.started == was.started && next.sla.due == was.due && next.sla.responded == was.responded
            && next.sla.escalated ==
               if && (row.status == Open || row.status == Pending) && was.started.Some? && was.due.Some?
                  && was.responded == None && was.escalated == None && was.due.value <= now
               then Some(now) else was.escalated
  {
  }

  /** An assignment starts a cycle of the team's minutes if the customer wrote last and no cycle waits. */
  lemma AssignmentWrites(row: Row, now: int, minutes: Option<nat>)
    ensures var was, next := row.sla, AfterAssignment(row, now, minutes);
            && next == row.(sla := next.sla)
            && next.sla ==
               if && minutes.Some? && (row.status == Open || row.status == Pending) && row.lastInboundAt.Some?
                  && (row.lastOutboundAt.Some? ==> row.lastInboundAt.value > row.lastOutboundAt.value)
                  && (was.due == None || was.responded.Some?)
               then Sla(Some(now), Some(now + 60000 * minutes.value), None, None) else was
  {
  }

  // ----- the row in the database -----

  class Conversation {
    var present: bool
    var status: Status
    var unreadCount: nat
    var lastMessageAt: int
    var lastInboundAt: Option<int>
    var lastOutboundAt: Option<int>
    var responseSlaStartedAt: Option<int>
    var responseSlaDueAt: Option<int>
    var responseSlaRespondedAt: Option<int>
    var responseSlaEscalatedAt: Option<int>

    function Cycle(): Sla
      reads this
    {
      Sla(responseSlaStartedAt, responseSlaDueAt, responseSlaRespondedAt, responseSlaEscalatedAt)
    }

    function Value(): Option<Row>
      reads this
    {
      if present then Some(Row(status, unreadCount, lastMessageAt, lastInboundAt, lastOutboundAt, Cycle())) else None
    }

    /** `recordInbound`: one upsert whose assignments all read the row as it was. */
    method RecordInbound(at: int, minutes: Option<nat>)
      modifies this
      ensures Value() == Some(AfterInbound(old(Value()), at, minutes))
    {
      hide Max, Latest;
      if !present {
        present, status, unreadCount, lastMessageAt, lastInboundAt, lastOutboundAt := true, Open, 1, at, Some(at), None;
        responseSlaStartedAt, responseSlaDueAt, responseSlaRespondedAt, responseSlaEscalatedAt := None, None, None, None;
        return;
      }
      var starts :=
        && (lastInboundAt == None || at > lastInboundAt.value)
        && (lastOutboundAt == None || at > lastOutboundAt.value)
        && (status == Resolved || responseSlaDueAt == None || responseSlaRespondedAt.Some?);
      assert starts <==> InboundStarts(old(Value()).value, at);
      hide InboundStarts;
      if starts {
        responseSlaStartedAt := if minutes == None then None else Some(at);
        responseSlaDueAt := if minutes == None then None else Some(at + minutes.value * MINUTE_MS);
        responseSlaRespondedAt, responseSlaEscalatedAt := None, None;
      }
      status, unreadCount := Open, unreadCount + 1;
      lastMessageAt := Max(lastMessageAt, at);
      lastInboundAt := Some(Latest(lastInboundAt, at));
    }

    /** `recordOutbound`: templates and messages to unknown contacts leave the conversation alone. */
    method RecordOutbound(at: int, isTemplate: bool, knownContact: bool) returns (recorded: bool)
      modifies this
      ensures recorded <==> !isTemplate && knownContact
      ensures Value() == if recorded then Some(AfterOutbound(old(Value()), at)) else old(Value())
    {
      if isTemplate || !knownContact {
        return false;
      }
      recorded := true;
      if !present {
        present, status, unreadCount, lastMessageAt, lastInboundAt, lastOutboundAt := true, Open, 0, at, None, Some(at);
        responseSlaStartedAt, responseSlaDueAt, responseSlaRespondedAt, responseSlaEscalatedAt := None, None, None, None;
        return;
      }
      if status == Resolved {
        responseSlaStartedAt, responseSlaDueAt, responseSlaRespondedAt, responseSlaEscalatedAt := None, None, None, None;
      } else if
        && responseSlaStartedAt.Some? && responseSlaDueAt.Some? && responseSlaRespondedAt == None
        && at >= responseSlaStartedAt.value && (lastOutboundAt == None || at > lastOutboundAt.value)
      {
        responseSlaRespondedAt := Some(at);
      }
      status := Open;
      lastMessageAt := Max(lastMessageAt, at);
      lastOutboundAt := Some(Latest(lastOutboundAt, at));
    }

    /** `escalateOverdue` for this row. */
    method EscalateIfOverdue(now: int) returns (escalated: bool)
      requires present
      modifies this`responseSlaEscalatedAt
      ensures escalated == Overdue(old(Value()).value, now)
      ensures Value() == Some(AfterEscalation(old(Value()).value, now))
    {
      escalated :=
        && (status == Open || status == Pending)
        && responseSlaStartedAt.Some? && responseSlaDueAt.Some? && responseSlaDueAt.value <= now
        && responseSlaRespondedAt == None && responseSlaEscalatedAt == None;
      if escalated {
        responseSlaEscalatedAt := Some(now);
      }
    }

    /** The database trigger on a team assignment; `now` is when the assigning transaction started. */
    method ApplyTeamResponseSla(now: int, minutes: Option<nat>)
      requires present
      modifies this
      ensures Value() == Some(AfterAssignment(old(Value()).value, now, minutes))
    {
      if minutes == None {
        return;
      }
      if && (status == Open || status == Pending)
         && lastInboundAt.Some? && (lastOutboundAt == None || lastInboundAt.value > lastOutboundAt.value)
         && (responseSlaDueAt == None || responseSlaRespondedAt.Some?)
      {
        responseSlaStartedAt, responseSlaDueAt := Some(now), Some(now + minutes.value * MINUTE_MS);
        responseSlaRespondedAt, responseSlaEscalatedAt := None, None;
      }
    }
  }

  // ----- events in any order -----

  datatype Event =
    | Inbound(at: int, minutes: Option<nat>)
    | Outbound(at: int)
    | Escalate(at: int)
    | SetStatus(status: Status)
    | AssignTeam(at: int, minutes: Option<nat>)
    | MarkRead

  /** Team targets are between one minute and a week. */
  predicate ValidEvent(e: Event)
  {
    (e.Inbound? || e.AssignTeam?) && e.minutes.Some? ==> 1 <= e.minutes.value <= 10080
  }

  function Apply(row: Option<Row>, e: Event): Option<Row>
  {
    match e
    case Inbound(at, minutes) => Some(AfterInbound(row, at, minutes))
    case Outbound(at) => Some(AfterOutbound(row, at))
    case Escalate(at) => if row == None then None else Some(AfterEscalation(row.value, at))
    case SetStatus(status) => if row == None then None else Some(row.value.(status := status))
    case AssignTeam(at, minutes) => if row == None then None else Some(AfterAssignment(row.value, at, minutes))
    case MarkRead => if row == None then None else Some(row.value.(unreadCount := 0))
  }

  function ApplyAll(row: Option<Row>, events: seq<Event>): Option<Row>
    decreases |events|
  {
    if events == [] then row else ApplyAll(Apply(row, events[0]), events[1..])
  }

  // ----- the status over histories -----

  predicate IsMessage(e: Event)
  {
    e.Inbound? || e.Outbound?
  }

  /** The last event that touched the status set it to something else than open. */
  ghost predicate EndsSetAside(events: seq<Event>)
  {
    exists i :: 0 <= i < |events| && events[i].SetStatus? && events[i].status != Open
      && forall j :: i < j < |events| ==> !IsMessage(events[j]) && !events[j].SetStatus?
  }

  lemma StatusStep(row: Row, e: Event)
    ensures Apply(Some(row), e).Some?
    ensures Apply(Some(row), e).value.status == if IsMessage(e) then Open else if e.SetStatus? then e.status else row.status
  {
  }

  lemma SetAsideStep(events: seq<Event>)
    requires events != []
    ensures var rest, e := events[1..], events[0];
            EndsSetAside(events) <==>
              || EndsSetAside(rest)
              || (e.SetStatus? && e.status != Open
                  && forall j :: 0 <= j < |rest| ==> !IsMessage(rest[j]) && !rest[j].SetStatus?)
  {
    var rest := events[1..];
    assert forall j :: 1 <= j < |events| ==> events[j] == rest[j - 1];
    if i :| 0 <= i < |rest| && rest[i].SetStatus? && rest[i].status != Open
            && forall j :: i < j < |rest| ==> !IsMessage(rest[j]) && !rest[j].SetStatus? {
      assert events[i + 1].SetStatus?;
    }
    if i :| 0 <= i < |events| && events[i].SetStatus? && events[i].status != Open
            && forall j :: i < j < |events| ==> !IsMessage(events[j]) && !events[j].SetStatus? {
      if i > 0 {
        assert rest[i - 1].SetStatus?;
      } else {
        assert forall j :: 0 <= j < |rest| ==> rest[j] == events[j + 1];
      }
    }
  }

  predicate NoneTouches(events: seq<Event>)
  {
    forall j :: 0 <= j < |events| ==> !IsMessage(events[j]) && !events[j].SetStatus?
  }

  lemma {:induction false} StatusOverHistory(row: Row, events: seq<Event>)
    ensures ApplyAll(Some(row), events).Some?
    ensures ApplyAll(Some(row), events).value.status != Open <==>
              EndsSetAside(events) || (row.status != Open && NoneTouches(events))
    decreases |events|
  {
    hide Apply, EndsSetAside;
    if events == [] {
      NothingSetAside();
    } else {
      var rest := events[1..];
      StatusStep(row, events[0]);
      SetAsideStep(events);
      StatusOverHistory(Apply(Some(row), events[0]).value, rest);
      assert events == [events[0]] + rest;
      assert NoneTouches(events) <==> !IsMessage(events[0]) && !events[0].SetStatus? && NoneTouches(rest);
    }
  }

  lemma NothingSetAside()
    ensures !EndsSetAside([])
  {
  }

  /**
   * From its first message on, a conversation is not open if and only if somebody set another
   * status after the last message, and nobody a later one.
   */
  lemma NotOpenExactly(first: Event, events: seq<Event>)
    requires IsMessage(first)
    ensures ApplyAll(None, [first] + events).Some?
    ensures ApplyAll(None, [first] + events).value.status != Open <==> EndsSetAside(events)
  {
    hide EndsSetAside;
    var all := [first] + events;
    assert all[0] == first && all[1..] == events;
    var row := Apply(None, first);
    assert row.Some? && row.value.status == Open;
    StatusOverHistory(row.value, events);
  }

  /** Customer messages since somebody last read the conversation. */
  function UnreadSince(n: nat, events: seq<Event>): nat
    decreases |events|
  {
    if events == [] then n
    else UnreadSince(if events[0].MarkRead? then 0 else if events[0].Inbound? then n + 1 else n, events[1..])
  }

  lemma UnreadStep(row: Option<Row>, e: Event)
    ensures var n := if row.Some? then row.value.unreadCount else 0;
            var next := Apply(row, e);
            (if next.Some? then next.value.unreadCount else 0)
            == if e.MarkRead? then 0 else if e.Inbound? then n + 1 else n
  {
  }

  /** Over every history the unread count is the number of customer messages since the last reading. */
  lemma {:induction false} UnreadOverHistory(row: Option<Row>, events: seq<Event>)
    ensures ApplyAll(row, events).Some? ==>
              ApplyAll(row, events).value.unreadCount == UnreadSince(if row.Some? then row.value.unreadCount else 0, events)
    decreases |events|
  {
    hide Apply;
    if events != [] {
      UnreadStep(row, events[0]);
      UnreadOverHistory(Apply(row, events[0]), events[1..]);
    }
  }

  /** A started cycle belongs to an event with a target, and is due that many minutes after it. */
  ghost predicate DueAsTargeted(row: Option<Row>, events: seq<Event>)
  {
    row.Some? && row.value.sla.started.Some? ==>
      exists e :: e in events && (e.Inbound? || e.AssignTeam?) && e.minutes.Some?
        && row.value.sla.started == Some(e.at) && row.value.sla.due == Some(e.at + 60000 * e.minutes.value)
  }

  lemma DueStep(row: Option<Row>, e: Event)
    ensures var t := Apply(row, e);
            t.Some? && t.value.sla.started.Some? ==>
              || (row.Some? && t.value.sla.started == row.value.sla.started && t.value.sla.due == row.value.sla.due)
              || ((e.Inbound? || e.AssignTeam?) && e.minutes.Some?
                  && t.value.sla.started == Some(e.at) && t.value.sla.due == Some(e.at + 60000 * e.minutes.value))
  {
  }

  lemma {:induction false} DueOverHistory(row: Option<Row>, past: seq<Event>, events: seq<Event>)
    requires DueAsTargeted(row, past)
    ensures DueAsTargeted(ApplyAll(row, events), past + events)
    decreases |events|
  {
    hide Apply;
    if events == [] {
      assert past + events == past;
    } else {
      DueStep(row, events[0]);
      var next := Apply(row, events[0]);
      assert forall e :: e in past ==> e in past + [events[0]];
      assert events[0] in past + [events[0]];
      DueOverHistory(next, past + [events[0]], events[1..]);
      assert past + [events[0]] + events[1..] == past + events;
    }
  }

  /** Over any history from no row at all. */
  lemma DueFollowsTarget(events: seq<Event>)
    ensures DueAsTargeted(ApplyAll(None, events), events)
  {
    hide ApplyAll;
    DueOverHistory(None, [], events);
    assert [] + events == events;
  }

  // ----- invariants of the row -----

  ghost predicate WellTimed(row: Option<Row>)
  {
    row.Some? ==>
      var sla := row.value.sla;
      && (sla.started == None <==> sla.due == None)
      && (sla.started == None ==> sla == NO_CYCLE)
      && (sla.started.Some? ==> sla.started.value < sla.due.value)
      && (sla.responded.Some? ==>
            && sla.responded.value >= sla.started.value
            && row.value.lastOutboundAt.Some? && sla.responded.value <= row.value.lastOutboundAt.value)
      && (sla.escalated.Some? ==> sla.escalated.value >= sla.due.value)
  }

  /** Every recorded reply is older than an unanswered cycle. */
  ghost predicate RepliesAreOlder(row: Option<Row>)
  {
    row.Some? && Unanswered(row.value.sla) && row.value.sla.started.Some? ==>
      After(row.value.sla.started.value, row.value.lastOutboundAt)
  }

  lemma WellTimedKept(row: Option<Row>, e: Event)
    requires WellTimed(row) && ValidEvent(e)
    ensures WellTimed(Apply(row, e))
  {
  }

  lemma {:induction false} AlwaysWellTimed(row: Option<Row>, events: seq<Event>)
    requires WellTimed(row) && forall e :: e in events ==> ValidEvent(e)
    ensures WellTimed(ApplyAll(row, events))
    decreases |events|
  {
    hide Apply, WellTimed, ValidEvent;
    if events != [] {
      WellTimedKept(row, events[0]);
      AlwaysWellTimed(Apply(row, events[0]), events[1..]);
    }
  }

  /** A team assignment that starts a cycle no later than a reply already recorded. */
  predicate StartsBehindReply(row: Option<Row>, e: Event)
  {
    && row.Some? && e.AssignTeam? && e.minutes.Some? && AssignmentStarts(row.value)
    && !After(e.at, row.value.lastOutboundAt)
  }

  /** Replies stay older than an unanswered cycle at every step but exactly those assignments. */
  lemma RepliesAreOlderExactly(row: Option<Row>, e: Event)
    requires WellTimed(row) && RepliesAreOlder(row) && ValidEvent(e)
    ensures RepliesAreOlder(Apply(row, e)) <==> !StartsBehindReply(row, e)
  {
  }

  /**
   * The customer's last message is then dated after the start of the assigning transaction: either
   * its clock runs ahead, or reply and message were stored while the transaction waited for the row.
   */
  lemma BehindReplyMeansMessageAfterStart(row: Option<Row>, e: Event)
    requires StartsBehindReply(row, e)
    ensures row.value.lastInboundAt.value > e.at
  {
  }

  ghost predicate NeverBehindReply(row: Option<Row>, events: seq<Event>)
    decreases |events|
  {
    events == [] || (!StartsBehindReply(row, events[0]) && NeverBehindReply(Apply(row, events[0]), events[1..]))
  }

  lemma {:induction false} RepliesAlwaysOlder(row: Option<Row>, events: seq<Event>)
    requires WellTimed(row) && RepliesAreOlder(row) && NeverBehindReply(row, events)
    requires forall e :: e in events ==> ValidEvent(e)
    ensures RepliesAreOlder(ApplyAll(row, events))
    decreases |events|
  {
    hide Apply, WellTimed, ValidEvent, RepliesAreOlder, StartsBehindReply;
    if events != [] {
      WellTimedKept(row, events[0]);
      RepliesAreOlderExactly(row, events[0]);
      RepliesAlwaysOlder(Apply(row, events[0]), events[1..]);
    }
  }

  /** A reply, a message one tick later, and an assignment whose transaction started at the reply's tick. */
  lemma AssignmentBehindReplyHappens()
    ensures !RepliesAreOlder(ApplyAll(None, [Outbound(5), Inbound(6, None), AssignTeam(5, Some(1))]))
  {
    var r1 := Apply(None, Outbound(5));
    var r2 := Apply(r1, Inbound(6, None));
    var events := [Outbound(5), Inbound(6, None), AssignTeam(5, Some(1))];
    assert events[1..] == [Inbound(6, None), AssignTeam(5, Some(1))];
    assert events[1..][1..] == [AssignTeam(5, Some(1))];
    assert ApplyAll(None, events) == ApplyAll(r2, [AssignTeam(5, Some(1))]);
    var last := [AssignTeam(5, Some(1))];
    assert last[1..] == [];
    assert ApplyAll(r2, last) == Apply(r2, last[0]);
  }

  // ----- one cycle -----

  predicate BeginsCycle(row: Option<Row>, e: Event)
  {
    row == None
    || (e.Inbound? && InboundStarts(row.value, e.at))
    || (e.AssignTeam? && e.minutes.Some? && AssignmentStarts(row.value))
  }

  /** A reply to a resolved conversation reopens it without a cycle. */
  predicate DropsCycle(row: Option<Row>, e: Event)
  {
    row.Some? && e.Outbound? && row.value.status.Resolved?
  }

  /** Times already written in a cycle. */
  predicate Extends(a: Sla, b: Sla)
  {
    && b.started == a.started && b.due == a.due
    && (a.responded.Some? ==> b.responded == a.responded)
    && (a.escalated.Some? ==> b.escalated == a.escalated)
  }

  ghost predicate SameCycle(row: Option<Row>, events: seq<Event>)
    decreases |events|
  {
    events == [] ||
    (!BeginsCycle(row, events[0]) && !DropsCycle(row, events[0]) && SameCycle(Apply(row, events[0]), events[1..]))
  }

  lemma WithinCycle(row: Option<Row>, e: Event)
    requires row.Some? && !BeginsCycle(row, e) && !DropsCycle(row, e)
    ensures Apply(row, e).Some? && Extends(row.value.sla, Apply(row, e).value.sla)
  {
  }

  /** However long a cycle lasts, its start and due time stay, and its answer and escalation are written once. */
  lemma {:induction false} WrittenOncePerCycle(row: Option<Row>, events: seq<Event>)
    requires row.Some? && SameCycle(row, events)
    ensures ApplyAll(row, events).Some? && Extends(row.value.sla, ApplyAll(row, events).value.sla)
    decreases |events|
  {
    hide Apply, BeginsCycle, DropsCycle;
    if events != [] {
      WithinCycle(row, events[0]);
      WrittenOncePerCycle(Apply(row, events[0]), events[1..]);
    }
  }

  /** No customer message moves an open unanswered cycle, and a late or repeated one moves none. */
  lemma CustomerCannotMoveCycle(row: Row, at: int, minutes: Option<nat>)
    requires (!row.status.Resolved? && Unanswered(row.sla)) || (row.lastInboundAt.Some? && at <= row.lastInboundAt.value)
    ensures AfterInbound(Some(row), at, minutes).sla == row.sla
  {
  }

  // ----- activity times do not depend on the order -----

  function InboundTimes(events: seq<Event>): multiset<int>
  {
    if events == [] then multiset{}
    else InboundTimes(events[..|events| - 1])
         + if events[|events| - 1].Inbound? then multiset{events[|events| - 1].at} else multiset{}
  }

  function OutboundTimes(events: seq<Event>): multiset<int>
  {
    if events == [] then multiset{}
    else OutboundTimes(events[..|events| - 1])
         + if events[|events| - 1].Outbound? then multiset{events[|events| - 1].at} else multiset{}
  }

  predicate IsMaximum(at: Option<int>, times: multiset<int>)
  {
    match at
    case None => times == multiset{}
    case Some(t) => t in times && forall u :: u in times ==> u <= t
  }

  lemma {:induction false} ApplySnoc(row: Option<Row>, events: seq<Event>, e: Event)
    ensures ApplyAll(row, events + [e]) == Apply(ApplyAll(row, events), e)
    decreases |events|
  {
    hide Apply;
    if events == [] {
      assert (events + [e])[1..] == [];
    } else {
      assert (events + [e])[0] == events[0] && (events + [e])[1..] == events[1..] + [e];
      ApplySnoc(Apply(row, events[0]), events[1..], e);
    }
  }

  function LastInbound(row: Option<Row>): Option<int>
  {
    if row.Some? then row.value.lastInboundAt else None
  }

  function LastOutbound(row: Option<Row>): Option<int>
  {
    if row.Some? then row.value.lastOutboundAt else None
  }

  function LastMessage(row: Option<Row>): Option<int>
  {
    if row.Some? then Some(row.value.lastMessageAt) else None
  }

  /** The recorded time after one more time. */
  function Raised(at: Option<int>, more: bool, t: int): Option<int>
  {
    if more then Some(Latest(at, t)) else at
  }

  function Times(more: bool, t: int): multiset<int>
  {
    if more then multiset{t} else multiset{}
  }

  lemma MaximumGrows(at: Option<int>, times: multiset<int>, more: bool, t: int)
    requires IsMaximum(at, times)
    ensures IsMaximum(Raised(at, more, t), times + Times(more, t))
  {
  }

  lemma TimesAfter(row: Option<Row>, e: Event)
    ensures var r, t := Apply(row, e), if e.Inbound? || e.Outbound? then e.at else 0;
            && LastInbound(r) == Raised(LastInbound(row), e.Inbound?, t)
            && LastOutbound(r) == Raised(LastOutbound(row), e.Outbound?, t)
            && LastMessage(r) == Raised(LastMessage(row), e.Inbound? || e.Outbound?, t)
  {
  }

  lemma OneMoreTime(events: seq<Event>, e: Event)
    ensures var all, t := events + [e], if e.Inbound? || e.Outbound? then e.at else 0;
            && InboundTimes(all) == InboundTimes(events) + Times(e.Inbound?, t)
            && OutboundTimes(all) == OutboundTimes(events) + Times(e.Outbound?, t)
            && InboundTimes(all) + OutboundTimes(all)
               == (InboundTimes(events) + OutboundTimes(events)) + Times(e.Inbound? || e.Outbound?, t)
  {
    assert (events + [e])[..|events|] == events;
  }

  ghost predicate TimesRecorded(row: Option<Row>, inbound: multiset<int>, outbound: multiset<int>)
  {
    && IsMaximum(LastInbound(row), inbound)
    && IsMaximum(LastOutbound(row), outbound)
    && IsMaximum(LastMessage(row), inbound + outbound)
  }

  /** The recorded activity times are the latest of the messages handled, in whatever order they came. */
  lemma {:induction false} TimesAreMaxima(events: seq<Event>)
    ensures TimesRecorded(ApplyAll(None, events), InboundTimes(events), OutboundTimes(events))
    decreases |events|
  {
    hide ApplyAll, Apply, IsMaximum, Raised, LastInbound, LastOutbound, LastMessage, InboundTimes, OutboundTimes;
    if events == [] {
      NothingApplied();
    } else {
      var init, e := events[..|events| - 1], events[|events| - 1];
      var row, t := ApplyAll(None, init), if e.Inbound? || e.Outbound? then e.at else 0;
      assert events == init + [e];
      ApplySnoc(None, init, e);
      TimesAreMaxima(init);
      TimesAfter(row, e);
      OneMoreTime(init, e);
      MaximumGrows(LastInbound(row), InboundTimes(init), e.Inbound?, t);
      MaximumGrows(LastOutbound(row), OutboundTimes(init), e.Outbound?, t);
      MaximumGrows(LastMessage(row), InboundTimes(init) + OutboundTimes(init), e.Inbound? || e.Outbound?, t);
    }
  }

  lemma NothingApplied()
    ensures TimesRecorded(ApplyAll(None, []), InboundTimes([]), OutboundTimes([]))
  {
  }

  /** Two histories with the same message times end with the same activity times, whatever their order. */
  lemma OrderDoesNotMatter(a: seq<Event>, b: seq<Event>)
    requires InboundTimes(a) == InboundTimes(b) && OutboundTimes(a) == OutboundTimes(b)
    ensures LastInbound(ApplyAll(None, a)) == LastInbound(ApplyAll(None, b))
    ensures LastOutbound(ApplyAll(None, a)) == LastOutbound(ApplyAll(None, b))
    ensures LastMessage(ApplyAll(None, a)) == LastMessage(ApplyAll(None, b))
  {
    hide ApplyAll, InboundTimes, OutboundTimes;
    TimesAreMaxima(a);
    TimesAreMaxima(b);
  }
}
