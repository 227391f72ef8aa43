/** Skill admission: the one rule behind automatic routing, claiming and assignment. */
module InboxSkills {
  import opened Wrappers

  type AgentId = nat
  type SkillId = nat

  datatype Requirement = Requirement(skillId: SkillId, minLevel: int, active: bool)

  datatype Proficiency = Proficiency(agentId: AgentId, skillId: SkillId, level: int)

  datatype SkillError = InactiveSkill | Mismatch

  /** The level of an agent in a skill; zero when no row records one. */
  function Level(rows: seq<Proficiency>, agent: AgentId, skill: SkillId): int
  {
    if rows == [] then 0
    else
      var last := rows[|rows| - 1];
      if last.agentId == agent && last.skillId == skill then last.level
      else Level(rows[..|rows| - 1], agent, skill)
  }

  predicate MeetsSkills(rows: seq<Proficiency>, agent: AgentId, requirements: seq<Requirement>)
  {
    forall r :: r in requirements ==> Level(rows, agent, r.skillId) >= r.minLevel
  }

  predicate AllActive(requirements: seq<Requirement>)
  {
    forall r :: r in requirements ==> r.active
  }

  /** `lockProficiencies`: the rows of these agents in these skills. */
  function Selected(rows: seq<Proficiency>, agents: seq<AgentId>, requirements: seq<Requirement>): seq<Proficiency>
  {
    if rows == [] then []
    else
      var n := |rows| - 1;
      Selected(rows[..n], agents, requirements)
      + if rows[n].agentId in agents && exists r :: r in requirements && r.skillId == rows[n].skillId then [rows[n]] else []
  }

  lemma LevelSnoc(rows: seq<Proficiency>, row: Proficiency, agent: AgentId, skill: SkillId)
    ensures Level(rows + [row], agent, skill)
         == if row.agentId == agent && row.skillId == skill then row.level else Level(rows, agent, skill)
  {
    assert (rows + [row])[..|rows|] == rows;
  }

  lemma {:induction false} SelectionKeepsLevels(rows: seq<Proficiency>, agents: seq<AgentId>, requirements: seq<Requirement>,
    agent: AgentId, r: Requirement)
    requires agent in agents && r in requirements
    ensures Level(Selected(rows, agents, requirements), agent, r.skillId) == Level(rows, agent, r.skillId)
    decreases |rows|
  {
    if rows != [] {
      var init, row := rows[..|rows| - 1], rows[|rows| - 1];
      var selected := Selected(init, agents, requirements);
      SelectionKeepsLevels(init, agents, requirements, agent, r);
      assert rows == init + [row];
      LevelSnoc(init, row, agent, r.skillId);
      LevelSnoc(selected, row, agent, r.skillId);
      assert selected + [] == selected;
    }
  }

  lemma SelectionKeepsRule(rows: seq<Proficiency>, agents: seq<AgentId>, requirements: seq<Requirement>, agent: AgentId)
    requires agent in agents
    ensures MeetsSkills(Selected(rows, agents, requirements), agent, requirements) <==> MeetsSkills(rows, agent, requirements)
  {
    hide Level, Selected;
    forall r | r in requirements
      ensures Level(Selected(rows, agents, requirements), agent, r.skillId) == Level(rows, agent, r.skillId)
    {
      SelectionKeepsLevels(rows, agents, requirements, agent, r);
    }
  }

  /** The nested map holds exactly the levels of the rows read so far. */
  ghost predicate Indexes(byAgent: map<AgentId, map<SkillId, int>>, rows: seq<Proficiency>)
  {
    forall a: AgentId, k: SkillId ::
      Level(rows, a, k) == if a in byAgent && k in byAgent[a] then byAgent[a][k] else 0
  }

  lemma IndexesMore(byAgent: map<AgentId, map<SkillId, int>>, rows: seq<Proficiency>, row: Proficiency)
    requires Indexes(byAgent, rows)
    ensures var skills := if row.agentId in byAgent then byAgent[row.agentId] else map[];
            Indexes(byAgent[row.agentId := skills[row.skillId := row.level]], rows + [row])
  {
    hide Level;
    forall a: AgentId, k: SkillId
      ensures Level(rows + [row], a, k) == if row.agentId == a && row.skillId == k then row.level else Level(rows, a, k)
    {
      LevelSnoc(rows, row, a, k);
    }
  }

  /** `assertAgentMeetsConversationSkills`. */
  method AssertAgentMeetsSkills(rows: seq<Proficiency>, requirements: seq<Requirement>, agent: AgentId)
    returns (verdict: Result<nat, SkillError>)
    ensures verdict.Ok? <==> AllActive(requirements) && MeetsSkills(rows, agent, requirements)
    ensures verdict == Err(InactiveSkill) <==> !AllActive(requirements)
  {
    if |requirements| == 0 {
      return Ok(0);
    }
    if exists i :: 0 <= i < |requirements| && !requirements[i].active {
      return Err(InactiveSkill);
    }
    var found := Selected(rows, [agent], requirements);
    SelectionKeepsRule(rows, [agent], requirements, agent);
    if exists i :: 0 <= i < |requirements| && Level(found, agent, requirements[i].skillId) < requirements[i].minLevel {
      return Err(Mismatch);
    }
    return Ok(|requirements|);
  }

  function Skilled(rows: seq<Proficiency>, agents: seq<AgentId>, requirements: seq<Requirement>): seq<AgentId>
  {
    if agents == [] then []
    else
      var n := |agents| - 1;
      Skilled(rows, agents[..n], requirements) + if MeetsSkills(rows, agents[n], requirements) then [agents[n]] else []
  }

  /** `filterAgentsByConversationSkills`: the skilled agents, in their order. */
  method FilterAgentsBySkills(rows: seq<Proficiency>, requirements: seq<Requirement>, agents: seq<AgentId>)
    returns (verdict: Result<seq<AgentId>, SkillError>)
    ensures verdict == if AllActive(requirements) then Ok(Skilled(rows, agents, requirements)) else Err(InactiveSkill)
  {
    hide Level, Selected, Indexes, MeetsSkills;
    if |requirements| == 0 {
      NoRequirements(rows, agents);
      return Ok(agents);
    }
    if exists i :: 0 <= i < |requirements| && !requirements[i].active {
      return Err(InactiveSkill);
    }
    if |agents| == 0 {
      return Ok([]);
    }
    var found := Selected(rows, agents, requirements);
    var byAgent: map<AgentId, map<SkillId, int>> := map[];
    NothingIndexed();
    for i := 0 to |found|
      invariant Indexes(byAgent, found[..i])
    {
      var row := found[i];
      var skills := if row.agentId in byAgent then byAgent[row.agentId] else map[];
      IndexesMore(byAgent, found[..i], row);
      assert found[..i] + [row] == found[..i + 1];
      byAgent := byAgent[row.agentId := skills[row.skillId := row.level]];
    }
    assert found[..|found|] == found;
    var kept: seq<AgentId> := [];
    for i := 0 to |agents|
      invariant kept == Skilled(rows, agents[..i], requirements)
    {
      assert agents[..i + 1][..i] == agents[..i];
      IndexedRule(byAgent, found, agents[i], requirements);
      SelectionKeepsRule(rows, agents, requirements, agents[i]);
      if EveryLevelReached(byAgent, agents[i], requirements) {
        kept := kept + [agents[i]];
      }
    }
    assert agents[..|agents|] == agents;
    return Ok(kept);
  }

  predicate EveryLevelReached(byAgent: map<AgentId, map<SkillId, int>>, agent: AgentId, requirements: seq<Requirement>)
  {
    forall i :: 0 <= i < |requirements| ==>
      var k := requirements[i].skillId;
      (if agent in byAgent && k in byAgent[agent] then byAgent[agent][k] else 0) >= requirements[i].minLevel
  }

  lemma IndexedRule(byAgent: map<AgentId, map<SkillId, int>>, rows: seq<Proficiency>, agent: AgentId, requirements: seq<Requirement>)
    requires Indexes(byAgent, rows)
    ensures EveryLevelReached(byAgent, agent, requirements) <==> MeetsSkills(rows, agent, requirements)
  {
    hide Level;
    if EveryLevelReached(byAgent, agent, requirements) {
      forall r | r in requirements
        ensures Level(rows, agent, r.skillId) >= r.minLevel
      {
        var i :| 0 <= i < |requirements| && requirements[i] == r;
      }
    }
    if MeetsSkills(rows, agent, requirements) {
      forall i | 0 <= i < |requirements|
        ensures Level(rows, agent, requirements[i].skillId) >= requirements[i].minLevel
      {
        assert requirements[i] in requirements;
      }
    }
  }

  lemma NothingIndexed()
    ensures Indexes(map[], [])
  {
  }

  lemma {:induction false} NoRequirements(rows: seq<Proficiency>, agents: seq<AgentId>)
    ensures Skilled(rows, agents, []) == agents
    decreases |agents|
  {
    if agents != [] {
      NoRequirements(rows, agents[..|agents| - 1]);
    }
  }

  predicate Ascending(agents: seq<AgentId>)
  {
    forall i, j :: 0 <= i < j < |agents| ==> agents[i] < agents[j]
  }

  /** Routing keeps an agent exactly when claiming would admit it. */
  lemma {:induction false} FilterIsTheClaimRule(rows: seq<Proficiency>, agents: seq<AgentId>, requirements: seq<Requirement>, a: AgentId)
    ensures a in Skilled(rows, agents, requirements) <==> a in agents && MeetsSkills(rows, a, requirements)
    decreases |agents|
  {
    hide MeetsSkills;
    if agents != [] {
      var init, last := agents[..|agents| - 1], agents[|agents| - 1];
      FilterIsTheClaimRule(rows, init, requirements, a);
      assert agents == init + [last];
    }
  }

  lemma {:induction false} FilterKeepsOrder(rows: seq<Proficiency>, agents: seq<AgentId>, requirements: seq<Requirement>)
    requires Ascending(agents)
    ensures Ascending(Skilled(rows, agents, requirements))
    decreases |agents|
  {
    hide MeetsSkills;
    if agents != [] {
      var init, last := agents[..|agents| - 1], agents[|agents| - 1];
      FilterKeepsOrder(rows, init, requirements);
      var kept := Skilled(rows, init, requirements);
      forall i | 0 <= i < |kept|
        ensures kept[i] < last
      {
        FilterIsTheClaimRule(rows, init, requirements, kept[i]);
        assert kept[i] in init;
      }
    }
  }

  // ----- the rule, on the rows of the table -----

  /** At most one row for an agent and a skill, as the table's key has it. */
  predicate OneRowEach(rows: seq<Proficiency>)
  {
    forall i, j :: 0 <= i < j < |rows| ==> rows[i].agentId != rows[j].agentId || rows[i].skillId != rows[j].skillId
  }

  lemma {:induction false} LevelIsTheRow(rows: seq<Proficiency>, agent: AgentId, skill: SkillId, k: nat)
    requires OneRowEach(rows) && k < |rows| && rows[k].agentId == agent && rows[k].skillId == skill
    ensures Level(rows, agent, skill) == rows[k].level
    decreases |rows|
  {
    if k < |rows| - 1 {
      LevelIsTheRow(rows[..|rows| - 1], agent, skill, k);
    }
  }

  lemma {:induction false} NoRowNoLevel(rows: seq<Proficiency>, agent: AgentId, skill: SkillId)
    requires forall row :: row in rows ==> row.agentId != agent || row.skillId != skill
    ensures Level(rows, agent, skill) == 0
    decreases |rows|
  {
    if rows != [] {
      NoRowNoLevel(rows[..|rows| - 1], agent, skill);
    }
  }

  /** An agent meets a requirement by a row of at least its level, or without any row if level zero is enough. */
  lemma MeetsSkillsExactly(rows: seq<Proficiency>, agent: AgentId, requirements: seq<Requirement>)
    requires OneRowEach(rows)
    ensures MeetsSkills(rows, agent, requirements) <==> forall r :: r in requirements ==>
              || (exists row :: row in rows && row.agentId == agent && row.skillId == r.skillId && row.level >= r.minLevel)
              || (r.minLevel <= 0 && forall row :: row in rows ==> row.agentId != agent || row.skillId != r.skillId)
  {
    hide OneRowEach, Level;
    forall r | r in requirements
      ensures Level(rows, agent, r.skillId) >= r.minLevel <==>
                || (exists row :: row in rows && row.agentId == agent && row.skillId == r.skillId && row.level >= r.minLevel)
                || (r.minLevel <= 0 && forall row :: row in rows ==> row.agentId != agent || row.skillId != r.skillId)
    {
      MeetsOneExactly(rows, agent, r);
    }
  }

  lemma MeetsOneExactly(rows: seq<Proficiency>, agent: AgentId, r: Requirement)
    requires OneRowEach(rows)
    ensures Level(rows, agent, r.skillId) >= r.minLevel <==>
              || (exists row :: row in rows && row.agentId == agent && row.skillId == r.skillId && row.level >= r.minLevel)
              || (r.minLevel <= 0 && forall row :: row in rows ==> row.agentId != agent || row.skillId != r.skillId)
  {
    hide OneRowEach, Level;
    if row :| row in rows && row.agentId == agent && row.skillId == r.skillId {
      forall other | other in rows && other.agentId == agent && other.skillId == r.skillId
        ensures Level(rows, agent, r.skillId) == other.level
      {
        var k :| 0 <= k < |rows| && rows[k] == other;
        LevelIsTheRow(rows, agent, r.skillId, k);
      }
    } else {
      NoRowNoLevel(rows, agent, r.skillId);
    }
  }
}
