/** The shared inbox: automatic routing, claiming, release and assignment of conversations. */
module InboxRouting {
  import opened Wrappers
  import opened InboxSkills

  datatype Status = Open | Pending | Resolved

  datatype Conversation = Conversation(status: Status, agent: Option<AgentId>, team: Option<nat>, requirements: seq<Requirement>)

  datatype Agent = Agent(active: bool, available: bool, cap: Option<nat>)

  datatype Inbox = Inbox(
    conversations: map<nat, Conversation>,
    agents: map<AgentId, Agent>,
    members: map<nat, set<AgentId>>,
    activeTeams: set<nat>,
    rows: seq<Proficiency>)

  // ----- load -----

  predicate Loads(c: Conversation, a: AgentId)
  {
    c.agent == Some(a) && !c.status.Resolved?
  }

  function OpenOf(conversations: map<nat, Conversation>, a: AgentId): set<nat>
  {
    set id | id in conversations && Loads(conversations[id], a)
  }

  function Load(conversations: map<nat, Conversation>, a: AgentId): nat
  {
    |OpenOf(conversations, a)|
  }

  lemma OnlyOneMoves(before: set<nat>, after: set<nat>, id: nat)
    requires forall x :: x != id ==> (x in before <==> x in after)
    ensures |after| + (if id in before then 1 else 0) == |before| + if id in after then 1 else 0
  {
    assert after - {id} == before - {id};
    assert |after - {id}| == |after| - (if id in after then 1 else 0);
    assert |before - {id}| == |before| - (if id in before then 1 else 0);
  }

  lemma LoadAfter(conversations: map<nat, Conversation>, id: nat, c: Conversation, a: AgentId)
    requires id in conversations
    ensures Load(conversations[id := c], a) + (if Loads(conversations[id], a) then 1 else 0)
         == Load(conversations, a) + if Loads(c, a) then 1 else 0
  {
    OnlyOneMoves(OpenOf(conversations, a), OpenOf(conversations[id := c], a), id);
  }

  // ----- who may take a conversation -----

  predicate HasCapacity(conversations: map<nat, Conversation>, agent: Agent, a: AgentId)
  {
    agent.cap == None || Load(conversations, a) < agent.cap.value
  }

  predicate InTeam(i: Inbox, c: Conversation, a: AgentId)
  {
    c.team.Some? && c.team.value in i.members && a in i.members[c.team.value]
  }

  predicate TeamIsActive(i: Inbox, c: Conversation)
  {
    c.team.Some? && c.team.value in i.activeTeams
  }

  predicate Available(i: Inbox, a: AgentId)
  {
    a in i.agents && i.agents[a].active && i.agents[a].available
  }

  predicate Eligible(i: Inbox, c: Conversation, a: AgentId)
  {
    && InTeam(i, c, a) && Available(i, a)
    && AllActive(c.requirements) && MeetsSkills(i.rows, a, c.requirements)
    && HasCapacity(i.conversations, i.agents[a], a)
  }

  /** Less load first, then the smaller agent id. */
  predicate Before(i: Inbox, a: AgentId, b: AgentId)
  {
    || Load(i.conversations, a) < Load(i.conversations, b)
    || (Load(i.conversations, a) == Load(i.conversations, b) && a <= b)
  }

  ghost predicate Best(i: Inbox, c: Conversation, a: AgentId)
  {
    Eligible(i, c, a) && forall b :: Eligible(i, c, b) ==> Before(i, a, b)
  }

  function Assigned(i: Inbox, id: nat, agent: Option<AgentId>): Inbox
    requires id in i.conversations
  {
    i.(conversations := i.conversations[id := i.conversations[id].(agent := agent)])
  }

  datatype RouteError =
    | NotFound | NoTeam | InactiveTeam | NoActiveMembers | NoneAvailable | InactiveSkills | NoneSkilled | NoneBelowCap
    | AssignedElsewhere | NotEligible

  // ----- every agent's load stays within its cap, but for the reopened conversations it holds -----

  /** Open conversations of the agent that came back to it by a reopening. */
  function ReopenedOf(conversations: map<nat, Conversation>, reopened: set<nat>, a: AgentId): set<nat>
  {
    OpenOf(conversations, a) * reopened
  }

  predicate WithinCap(i: Inbox, reopened: set<nat>, a: AgentId)
  {
    a in i.agents && i.agents[a].cap.Some? ==>
      Load(i.conversations, a) <= i.agents[a].cap.value + |ReopenedOf(i.conversations, reopened, a)|
  }

  ghost predicate WithinCaps(i: Inbox, reopened: set<nat>)
  {
    forall a: AgentId :: WithinCap(i, reopened, a)
  }

  /** The conversation comes back to the agent who holds it. */
  predicate Reopens(before: Conversation, after: Conversation)
  {
    before.status.Resolved? && !after.status.Resolved? && after.agent.Some? && after.agent == before.agent
  }

  /** A conversation counts as reopened until it is given to somebody else. */
  function Marked(reopened: set<nat>, id: nat, before: Conversation, after: Conversation): set<nat>
  {
    if Reopens(before, after) then reopened + {id}
    else if after.agent != before.agent then reopened - {id}
    else reopened
  }

  lemma ReopenedAfter(conversations: map<nat, Conversation>, reopened: set<nat>, id: nat, c: Conversation, a: AgentId)
    requires id in conversations
    ensures var now := Marked(reopened, id, conversations[id], c);
            |ReopenedOf(conversations[id := c], now, a)| + (if Loads(conversations[id], a) && id in reopened then 1 else 0)
            == |ReopenedOf(conversations, reopened, a)| + if Loads(c, a) && id in now then 1 else 0
  {
    var now := Marked(reopened, id, conversations[id], c);
    var before, after := ReopenedOf(conversations, reopened, a), ReopenedOf(conversations[id := c], now, a);
    assert forall x :: x != id ==> (x in now <==> x in reopened);
    OnlyOneMoves(before, after, id);
  }

  /**
   * A change of one conversation that hands it to another agent only within that agent's cap
   * keeps every load within its cap plus the reopened conversations that the agent holds.
   */
  lemma CapsKept(i: Inbox, reopened: set<nat>, id: nat, after: Conversation)
    requires id in i.conversations && WithinCaps(i, reopened)
    requires after.agent.Some? && after.agent != i.conversations[id].agent && after.agent.value in i.agents ==>
               HasCapacity(i.conversations, i.agents[after.agent.value], after.agent.value)
    ensures WithinCaps(i.(conversations := i.conversations[id := after]), Marked(reopened, id, i.conversations[id], after))
  {
    hide Load, ReopenedOf;
    var j, now := i.(conversations := i.conversations[id := after]), Marked(reopened, id, i.conversations[id], after);
    forall a: AgentId
      ensures WithinCap(j, now, a)
    {
      assert WithinCap(i, reopened, a);
      LoadAfter(i.conversations, id, after, a);
      ReopenedAfter(i.conversations, reopened, id, after, a);
    }
  }

  /** An agent none of whose open conversations was reopened is within its cap. */
  lemma WithinCapWithoutReopenings(i: Inbox, reopened: set<nat>, a: AgentId)
    requires WithinCaps(i, reopened) && a in i.agents && i.agents[a].cap.Some?
    requires OpenOf(i.conversations, a) !! reopened
    ensures Load(i.conversations, a) <= i.agents[a].cap.value
  {
    assert ReopenedOf(i.conversations, reopened, a) == {};
    assert WithinCap(i, reopened, a);
  }

  /** The conversation as an update would leave it. */
  function Updated(c: Conversation, agent: Option<Option<AgentId>>, team: Option<Option<nat>>, status: Option<Status>): Conversation
  {
    Conversation(
      if status.Some? then status.value else c.status,
      if agent.Some? then agent.value else c.agent,
      if team.Some? then team.value else c.team,
      c.requirements)
  }

  /** A named agent must be active and skilled, a named team active, the final agent in the final team, and a new agent has to be admitted. */
  predicate MayUpdate(i: Inbox, before: Conversation, agent: Option<Option<AgentId>>, team: Option<Option<nat>>)
  {
    var after := Updated(before, agent, team, None);
    && (agent.Some? && after.agent.Some? ==>
          && after.agent.value in i.agents && i.agents[after.agent.value].active
          && AllActive(before.requirements) && MeetsSkills(i.rows, after.agent.value, before.requirements))
    && (team.Some? && after.team.Some? ==> TeamIsActive(i, after))
    && ((agent.Some? || team.Some?) && after.agent.Some? && after.team.Some? ==> InTeam(i, after, after.agent.value))
    && (agent.Some? && after.agent.Some? && after.agent != before.agent ==>
          && Available(i, after.agent.value)
          && HasCapacity(i.conversations, i.agents[after.agent.value], after.agent.value))
  }

  class InboxStore {
    var value: Inbox
    ghost var reopened: set<nat>

    ghost predicate Valid()
      reads this
    {
      WithinCaps(value, reopened)
    }

    /** Any inbox whose loads are within their caps, such as one without conversations. */
    constructor (value: Inbox)
      requires forall a :: a in value.agents && value.agents[a].cap.Some? ==>
                 Load(value.conversations, a) <= value.agents[a].cap.value
      ensures Valid() && this.value == value && reopened == {}
    {
      this.value, reopened := value, {};
    }

    /** `routeConversation`; `candidates` is the team's active membership in agent-id order. */
    method RouteConversation(id: nat, candidates: seq<AgentId>) returns (r: Result<bool, RouteError>)
      requires Valid()
      requires Ascending(candidates)
      requires id in value.conversations ==> forall a ::
        a in candidates <==> InTeam(value, value.conversations[id], a) && a in value.agents && value.agents[a].active
      modifies this
      ensures Valid()
      ensures reopened == if r == Ok(true) then old(reopened) - {id} else old(reopened)
      ensures !(r == Ok(true)) ==> value == old(value)
      ensures r == Ok(false) <==> id in old(value).conversations && old(value).conversations[id].agent.Some?
      ensures r == Ok(true) <==>
                && id in old(value).conversations && old(value).conversations[id].agent == None
                && TeamIsActive(old(value), old(value).conversations[id])
                && exists a :: Eligible(old(value), old(value).conversations[id], a)
      ensures r == Ok(true) ==>
                exists a :: Best(old(value), old(value).conversations[id], a) && value == Assigned(old(value), id, Some(a))
    {
      hide Load, MeetsSkills, WithinCaps, Skilled, AvailableOf, BelowCap, HasCapacity, Before, Ascending;
      if id !in value.conversations {
        return Err(NotFound);
      }
      var existing := value.conversations[id];
      if existing.agent.Some? {
        return Ok(false);
      }
      if existing.team == None {
        return Err(NoTeam);
      }
      if existing.team.value !in value.activeTeams {
        return Err(InactiveTeam);
      }
      if |candidates| == 0 {
        return Err(NoActiveMembers);
      }
      var available := AvailableOf(value, candidates);
      if |available| == 0 {
        return Err(NoneAvailable);
      }
      var skilled := FilterAgentsBySkills(value.rows, existing.requirements, available);
      if skilled.Err? {
        return Err(InactiveSkills);
      }
      FilteredAreEligible(value, existing, candidates);
      if |skilled.value| == 0 {
        return Err(NoneSkilled);
      }
      var below := BelowCap(value, skilled.value);
      if |below| == 0 {
        return Err(NoneBelowCap);
      }
      var selected := LeastLoaded(value, below);
      assert Best(value, existing, selected);
      CapsKept(value, reopened, id, existing.(agent := Some(selected)));
      reopened := reopened - {id};
      value := Assigned(value, id, Some(selected));
      return Ok(true);
    }

    /** `claimConversation`. */
    method ClaimConversation(id: nat, a: AgentId) returns (r: Result<bool, RouteError>)
      requires Valid()
      modifies this
      ensures Valid()
      ensures reopened == if r == Ok(true) then old(reopened) - {id} else old(reopened)
      ensures r == Ok(true) <==>
                && id in old(value).conversations && old(value).conversations[id].agent == None && Available(old(value), a)
                && var c := old(value).conversations[id];
                   && (c.team.Some? ==> InTeam(old(value), c, a))
                   && AllActive(c.requirements) && MeetsSkills(old(value).rows, a, c.requirements)
                   && HasCapacity(old(value).conversations, old(value).agents[a], a)
      ensures value == if r == Ok(true) then Assigned(old(value), id, Some(a)) else old(value)
    {
      hide Load, MeetsSkills, WithinCaps;
      if id !in value.conversations {
        return Err(NotFound);
      }
      var existing := value.conversations[id];
      if a !in value.agents || !value.agents[a].active {
        return Err(NotEligible);
      }
      if existing.agent == Some(a) {
        return Ok(false);
      }
      if existing.agent.Some? {
        return Err(AssignedElsewhere);
      }
      if !value.agents[a].available {
        return Err(NoneAvailable);
      }
      if existing.team.Some? && !InTeam(value, existing, a) {
        return Err(NotEligible);
      }
      var skills := AssertAgentMeetsSkills(value.rows, existing.requirements, a);
      if skills.Err? {
        return Err(NoneSkilled);
      }
      if value.agents[a].cap.Some? && Load(value.conversations, a) >= value.agents[a].cap.value {
        return Err(NoneBelowCap);
      }
      CapsKept(value, reopened, id, existing.(agent := Some(a)));
      reopened := reopened - {id};
      value := Assigned(value, id, Some(a));
      return Ok(true);
    }

    /** `releaseConversation`. */
    method ReleaseConversation(id: nat, a: AgentId) returns (r: Result<bool, RouteError>)
      requires Valid()
      modifies this
      ensures Valid()
      ensures reopened == if r == Ok(true) then old(reopened) - {id} else old(reopened)
      ensures r == Ok(true) <==>
                id in old(value).conversations && a in old(value).agents && old(value).conversations[id].agent == Some(a)
      ensures value == if r == Ok(true) then Assigned(old(value), id, None) else old(value)
    {
      hide Load, WithinCaps;
      if id !in value.conversations {
        return Err(NotFound);
      }
      var existing := value.conversations[id];
      if a !in value.agents {
        return Err(NotEligible);
      }
      if existing.agent == None {
        return Ok(false);
      }
      if existing.agent != Some(a) {
        return Err(AssignedElsewhere);
      }
      CapsKept(value, reopened, id, existing.(agent := None));
      reopened := reopened - {id};
      value := Assigned(value, id, None);
      return Ok(true);
    }

    /** `updateConversation`: only a change of agent is an admission; reopening is not. */
    method UpdateConversation(id: nat, agent: Option<Option<AgentId>>, team: Option<Option<nat>>, status: Option<Status>)
      returns (r: Result<bool, RouteError>)
      requires Valid()
      modifies this
      ensures Valid()
      ensures r.Ok? <==> id in old(value).conversations && MayUpdate(old(value), old(value).conversations[id], agent, team)
      ensures r.Err? ==> value == old(value) && reopened == old(reopened)
      ensures r.Ok? ==>
                var before := old(value).conversations[id];
                var after := Updated(before, agent, team, status);
                && value == old(value).(conversations := old(value).conversations[id := after])
                && reopened == Marked(old(reopened), id, before, after)
    {
      hide Load, MeetsSkills, WithinCaps, AllActive, Marked;
      if id !in value.conversations {
        return Err(NotFound);
      }
      var existing := value.conversations[id];
      if agent.Some? && agent.value.Some? && (agent.value.value !in value.agents || !value.agents[agent.value.value].active) {
        return Err(NotEligible);
      }
      if team.Some? && team.value.Some? && team.value.value !in value.activeTeams {
        return Err(InactiveTeam);
      }
      var finalAgent := if agent.Some? then agent.value else existing.agent;
      var finalTeam := if team.Some? then team.value else existing.team;
      var admission := agent.Some? && finalAgent.Some? && finalAgent != existing.agent;
      if (agent.Some? || team.Some?) && finalAgent.Some? && finalTeam.Some?
         && !(finalTeam.value in value.members && finalAgent.value in value.members[finalTeam.value]) {
        return Err(NotEligible);
      }
      if agent.Some? && finalAgent.Some? {
        var skills := AssertAgentMeetsSkills(value.rows, existing.requirements, finalAgent.value);
        if skills.Err? {
          return Err(NoneSkilled);
        }
      }
      if admission {
        var taker := value.agents[finalAgent.value];
        if !taker.available {
          return Err(NoneAvailable);
        }
        if taker.cap.Some? && Load(value.conversations, finalAgent.value) >= taker.cap.value {
          return Err(NoneBelowCap);
        }
      }
      var updated := Conversation(if status.Some? then status.value else existing.status, finalAgent, finalTeam, existing.requirements);
      CapsKept(value, reopened, id, updated);
      value := value.(conversations := value.conversations[id := updated]);
      reopened := Marked(reopened, id, existing, updated);
      return Ok(true);
    }

    /** A customer message or a reply reopens a resolved conversation. */
    method MessageArrives(id: nat)
      requires Valid() && id in value.conversations
      modifies this
      ensures Valid()
      ensures value == old(value).(conversations := old(value).conversations[id := old(value).conversations[id].(status := Open)])
      ensures reopened == Marked(old(reopened), id, old(value).conversations[id], value.conversations[id])
    {
      var existing := value.conversations[id];
      var after := existing.(status := Open);
      CapsKept(value, reopened, id, after);
      value := value.(conversations := value.conversations[id := after]);
      reopened := Marked(reopened, id, existing, after);
    }
  }

  // ----- the filters of the route query -----

  lemma AscendingInit(agents: seq<AgentId>)
    requires agents != []
    ensures var n := |agents| - 1;
            Ascending(agents) ==> Ascending(agents[..n]) && forall a :: a in agents[..n] ==> a < agents[n]
  {
    var n := |agents| - 1;
    var init := agents[..n];
    if Ascending(agents) {
      assert forall k :: 0 <= k < n ==> init[k] == agents[k] && init[k] < agents[n];
      assert Ascending(init);
    }
  }

  lemma AscendingSnoc(agents: seq<AgentId>, a: AgentId)
    ensures Ascending(agents) && (forall b :: b in agents ==> b < a) ==> Ascending(agents + [a])
  {
    assert forall k :: 0 <= k < |agents| ==> agents[k] in agents && (agents + [a])[k] == agents[k];
  }

  function AvailableOf(i: Inbox, agents: seq<AgentId>): (r: seq<AgentId>)
    requires forall a :: a in agents ==> a in i.agents
    ensures forall a :: a in r <==> a in agents && i.agents[a].available
    ensures Ascending(agents) ==> Ascending(r)
  {
    if agents == [] then []
    else
      var last, kept := agents[|agents| - 1], AvailableOf(i, agents[..|agents| - 1]);
      assert agents == agents[..|agents| - 1] + [last];
      AscendingInit(agents);
      AscendingSnoc(kept, last);
      if i.agents[last].available then kept + [last] else kept
  }

  function BelowCap(i: Inbox, agents: seq<AgentId>): (r: seq<AgentId>)
    requires forall a :: a in agents ==> a in i.agents
    ensures forall a :: a in r <==> a in agents && HasCapacity(i.conversations, i.agents[a], a)
    ensures Ascending(agents) ==> Ascending(r)
  {
    if agents == [] then []
    else
      var last, kept := agents[|agents| - 1], BelowCap(i, agents[..|agents| - 1]);
      assert agents == agents[..|agents| - 1] + [last];
      AscendingInit(agents);
      AscendingSnoc(kept, last);
      if HasCapacity(i.conversations, i.agents[last], last) then kept + [last] else kept
  }

  /** The three filters of the route query together keep exactly the eligible members, in id order. */
  lemma FilteredAreEligible(i: Inbox, c: Conversation, candidates: seq<AgentId>)
    requires Ascending(candidates) && AllActive(c.requirements)
    requires forall a :: a in candidates <==> InTeam(i, c, a) && a in i.agents && i.agents[a].active
    ensures var skilled := Skilled(i.rows, AvailableOf(i, candidates), c.requirements);
            && (forall a :: a in skilled ==> a in i.agents)
            && (skilled == [] ==> forall a :: !Eligible(i, c, a))
            && Ascending(BelowCap(i, skilled))
            && forall a :: a in BelowCap(i, skilled) <==> Eligible(i, c, a)
  {
    hide Load, MeetsSkills, HasCapacity, Skilled, AvailableOf, BelowCap, Ascending;
    var available := AvailableOf(i, candidates);
    FilterKeepsOrder(i.rows, available, c.requirements);
    forall a: AgentId
      ensures a in Skilled(i.rows, available, c.requirements) <==> a in available && MeetsSkills(i.rows, a, c.requirements)
    {
      FilterIsTheClaimRule(i.rows, available, c.requirements, a);
    }
  }

  /** The selection loop: of equal loads the first, which is the smallest id. */
  method LeastLoaded(i: Inbox, agents: seq<AgentId>) returns (selected: AgentId)
    requires Ascending(agents) && agents != []
    ensures selected in agents && forall b :: b in agents ==> Before(i, selected, b)
  {
    hide Load;
    selected := agents[0];
    var selectedLoad := Load(i.conversations, selected);
    for k := 1 to |agents|
      invariant selected in agents[..k] && selectedLoad == Load(i.conversations, selected)
      invariant forall b :: b in agents[..k] ==> Before(i, selected, b)
    {
      var candidate := agents[k];
      var load := Load(i.conversations, candidate);
      assert forall b :: b in agents[..k] ==> b < candidate;
      assert agents[..k + 1] == agents[..k] + [candidate];
      if load < selectedLoad {
        selected, selectedLoad := candidate, load;
      }
    }
    assert agents[..|agents|] == agents;
  }

  // ----- routing evens out the load -----

  ghost predicate RouteStep(i: Inbox, id: nat, j: Inbox)
  {
    && id in i.conversations && i.conversations[id].agent == None
    && exists a :: Best(i, i.conversations[id], a) && j == Assigned(i, id, Some(a))
  }

  /** Exactly these agents may take the conversation, and none of them has a cap. */
  ghost predicate FixedEligible(i: Inbox, id: nat, group: set<AgentId>)
  {
    && id in i.conversations && i.conversations[id].agent == None && !i.conversations[id].status.Resolved?
    && (forall a :: Eligible(i, i.conversations[id], a) <==> a in group)
    && (forall a :: a in group ==> a in i.agents && i.agents[a].cap == None)
  }

  ghost predicate SpreadAtMost(i: Inbox, group: set<AgentId>, d: nat)
  {
    forall a, b :: a in group && b in group ==> Load(i.conversations, a) <= Load(i.conversations, b) + d
  }

  lemma SpreadKept(i: Inbox, id: nat, j: Inbox, group: set<AgentId>, d: nat)
    requires RouteStep(i, id, j) && FixedEligible(i, id, group) && SpreadAtMost(i, group, d) && d >= 1
    ensures SpreadAtMost(j, group, d)
  {
    hide Load, MeetsSkills;
    var c := i.conversations[id];
    var best :| Best(i, c, best) && j == Assigned(i, id, Some(best));
    forall a, b | a in group && b in group
      ensures Load(j.conversations, a) <= Load(j.conversations, b) + d
    {
      LoadAfter(i.conversations, id, c.(agent := Some(best)), a);
      LoadAfter(i.conversations, id, c.(agent := Some(best)), b);
      assert Eligible(i, c, b);
    }
  }

  lemma EligibleStays(i: Inbox, id: nat, j: Inbox, group: set<AgentId>, other: nat)
    requires RouteStep(i, id, j) && FixedEligible(i, id, group) && FixedEligible(i, other, group) && other != id
    ensures FixedEligible(j, other, group)
  {
    hide Load, MeetsSkills;
    var c := i.conversations[id];
    var best :| Best(i, c, best) && j == Assigned(i, id, Some(best));
    forall a
      ensures Eligible(j, j.conversations[other], a) <==> Eligible(i, i.conversations[other], a)
    {
      LoadAfter(i.conversations, id, c.(agent := Some(best)), a);
      assert best in group;
    }
  }

  ghost predicate RoutedAll(states: seq<Inbox>, ids: seq<nat>)
  {
    |states| == |ids| + 1 && forall k :: 0 <= k < |ids| ==> RouteStep(states[k], ids[k], states[k + 1])
  }

  /** Routing any number of open conversations over one uncapped group never widens a spread beyond one. */
  lemma {:induction false} RoutingEvensOut(states: seq<Inbox>, ids: seq<nat>, group: set<AgentId>, d: nat)
    requires RoutedAll(states, ids) && forall i, j :: 0 <= i < j < |ids| ==> ids[i] != ids[j]
    requires forall id :: id in ids ==> FixedEligible(states[0], id, group)
    requires SpreadAtMost(states[0], group, d)
    ensures SpreadAtMost(states[|ids|], group, if d > 1 then d else 1)
    decreases |ids|
  {
    hide RouteStep, FixedEligible, SpreadAtMost;
    var bound := if d > 1 then d else 1;
    SpreadWidens(states[0], group, d, bound);
    if ids != [] {
      SpreadKept(states[0], ids[0], states[1], group, bound);
      forall id | id in ids[1..]
        ensures FixedEligible(states[1], id, group)
      {
        EligibleStays(states[0], ids[0], states[1], group, id);
      }
      RoutingEvensOut(states[1..], ids[1..], group, bound);
    }
  }

  lemma SpreadWidens(i: Inbox, group: set<AgentId>, d: nat, e: nat)
    requires SpreadAtMost(i, group, d) && d <= e
    ensures SpreadAtMost(i, group, e)
  {
  }

  // ----- the rules, on the columns -----

  /** An agent is busy with every conversation assigned to it that is not resolved. */
  lemma LoadExactly(i: Inbox, a: AgentId)
    ensures Load(i.conversations, a)
         == |set id | id in i.conversations && i.conversations[id].agent == Some(a) && i.conversations[id].status != Resolved|
  {
    assert OpenOf(i.conversations, a)
        == set id | id in i.conversations && i.conversations[id].agent == Some(a) && i.conversations[id].status != Resolved;
  }

  /** Routing may take active, available, skilled members of the team below their cap, and takes the least busy, then the smallest id. */
  lemma BestExactly(i: Inbox, c: Conversation, a: AgentId)
    ensures Eligible(i, c, a) <==>
              && c.team.Some? && c.team.value in i.members && a in i.members[c.team.value]
              && a in i.agents && i.agents[a].active && i.agents[a].available
              && (forall r :: r in c.requirements ==> r.active) && MeetsSkills(i.rows, a, c.requirements)
              && (i.agents[a].cap.Some? ==> Load(i.conversations, a) < i.agents[a].cap.value)
    ensures Best(i, c, a) ==> forall b :: Eligible(i, c, b) ==>
              Load(i.conversations, a) <= Load(i.conversations, b) && (Load(i.conversations, a) == Load(i.conversations, b) ==> a <= b)
    ensures c.team.Some? && c.team.value in i.activeTeams <==> TeamIsActive(i, c)
  {
    hide Load, MeetsSkills;
  }

  /** Giving a conversation to another agent and leaving its team: who may take it. */
  lemma AssignExactly(i: Inbox, c: Conversation, a: AgentId)
    requires c.agent != Some(a)
    ensures MayUpdate(i, c, Some(Some(a)), None) <==>
              && a in i.agents && i.agents[a].active && i.agents[a].available
              && (forall r :: r in c.requirements ==> r.active) && MeetsSkills(i.rows, a, c.requirements)
              && (c.team.Some? ==> c.team.value in i.members && a in i.members[c.team.value])
              && (i.agents[a].cap.Some? ==> Load(i.conversations, a) < i.agents[a].cap.value)
  {
    hide Load, MeetsSkills;
  }

  /** Naming both: the agent has to be a member of the named team, which has to be active. */
  lemma AssignIntoTeamExactly(i: Inbox, c: Conversation, a: AgentId, t: nat)
    requires c.agent != Some(a)
    ensures MayUpdate(i, c, Some(Some(a)), Some(Some(t))) <==>
              && a in i.agents && i.agents[a].active && i.agents[a].available
              && (forall r :: r in c.requirements ==> r.active) && MeetsSkills(i.rows, a, c.requirements)
              && t in i.activeTeams && t in i.members && a in i.members[t]
              && (i.agents[a].cap.Some? ==> Load(i.conversations, a) < i.agents[a].cap.value)
  {
    hide Load, MeetsSkills;
  }

  /** Naming the agent it already has takes neither availability nor capacity. */
  lemma KeepExactly(i: Inbox, c: Conversation, a: AgentId)
    requires c.agent == Some(a)
    ensures MayUpdate(i, c, Some(Some(a)), None) <==>
              && a in i.agents && i.agents[a].active
              && (forall r :: r in c.requirements ==> r.active) && MeetsSkills(i.rows, a, c.requirements)
              && (c.team.Some? ==> c.team.value in i.members && a in i.members[c.team.value])
  {
    hide Load, MeetsSkills;
  }

  /** A new team has to be active and to have the agent among its members; dropping agent or team is free. */
  lemma TeamChangeExactly(i: Inbox, c: Conversation, t: nat)
    ensures MayUpdate(i, c, None, Some(Some(t))) <==>
              t in i.activeTeams && (c.agent.Some? ==> t in i.members && c.agent.value in i.members[t])
    ensures MayUpdate(i, c, None, Some(None)) && MayUpdate(i, c, Some(None), None) && MayUpdate(i, c, None, None)
  {
    hide Load, MeetsSkills;
  }

  /** Every column keeps its value unless the update names it. */
  lemma UpdatedColumns(c: Conversation, agent: Option<AgentId>, team: Option<nat>, status: Status)
    ensures Updated(c, Some(agent), None, None) == c.(agent := agent)
    ensures Updated(c, None, Some(team), None) == c.(team := team)
    ensures Updated(c, None, None, Some(status)) == c.(status := status)
    ensures Updated(c, Some(agent), Some(team), Some(status)) == Conversation(status, agent, team, c.requirements)
  {
  }

  /** A conversation joins the reopened ones when its resolved row opens again under the same agent, and leaves them with a new one. */
  lemma MarkedExactly(reopened: set<nat>, id: nat, before: Conversation, after: Conversation)
    ensures id in Marked(reopened, id, before, after) <==>
              || (before.status == Resolved && after.status != Resolved && after.agent.Some? && after.agent == before.agent)
              || (id in reopened && after.agent == before.agent)
    ensures forall x :: x != id ==> (x in Marked(reopened, id, before, after) <==> x in reopened)
  {
  }
}
