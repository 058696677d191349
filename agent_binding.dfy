/** The bind operation of the binding API: full replacement of the tools
    bound to one agent, after deduplication and all-or-nothing validation,
    and the cascade that removes a deleted tool's bindings. */
module AgentBinding {
  import opened Wrappers
  import opened Sequences
  import opened BindingModel
  import opened BindingSchemas
  import opened BindingQueries

  /** `list(set(toolIds))`: every requested id exactly once. The order the
      source produces is unspecified; this one keeps last occurrences. */
  function Dedup(ids: seq<ToolId>): (r: seq<ToolId>)
    ensures NoDups(r)
    ensures Elems(r) == Elems(ids)
    ensures |r| <= |ids|
  {
    if ids == [] then []
    else
      assert ids == [ids[0]] + ids[1..];
      var rest := Dedup(ids[1..]);
      assert Elems(ids) == {ids[0]} + Elems(ids[1..]);
      if ids[0] in ids[1..] then
        rest
      else
        assert ids[0] !in Elems(rest);
        NoDupsCons(ids[0], rest);
        assert Elems([ids[0]] + rest) == {ids[0]} + Elems(rest);
        [ids[0]] + rest
  }

  /** The deduplicated list has one entry per distinct requested id. */
  lemma DedupLength(ids: seq<ToolId>)
    ensures |Dedup(ids)| == |Elems(ids)|
  {
    NoDupsLength(Dedup(ids));
  }

  /** The ids of the catalogue's ACTIVE tools. */
  function ActiveIds(tools: seq<Tool>): (r: set<ToolId>)
    ensures r <= ToolIds(tools)
    ensures forall t :: t in tools && t.status == Active ==> t.id in r
    ensures forall id :: id in r <==> exists t :: t in tools && t.id == id && t.status == Active
  {
    set t | t in tools && t.status == Active :: t.id
  }

  function KeepOtherAgents(agent: string): Binding -> bool {
    (b: Binding) => b.agentId != agent
  }

  /** `DELETE FROM agent_tool_bindings WHERE agent_id = agent`. */
  function RemoveAgent(bindings: seq<Binding>, agent: string): (r: seq<Binding>)
    ensures forall b :: b in r <==> b in bindings && b.agentId != agent
    ensures UniquePairs(bindings) ==> UniquePairs(r)
  {
    Filter(bindings, KeepOtherAgents(agent))
  }

  /** The rows inserted for `agent`, one per id, in list order. */
  function RowsFor(agent: string, ids: seq<ToolId>): (r: seq<Binding>)
    ensures |r| == |ids|
    ensures NoDups(ids) ==> NoDups(r)
  {
    seq(|ids|, i requires 0 <= i < |ids| => Binding(agent, ids[i]))
  }

  /** The inserted rows are exactly the agent paired with each given id. */
  lemma RowsForMembers(agent: string, ids: seq<ToolId>)
    ensures forall b :: b in RowsFor(agent, ids) <==> b.agentId == agent && b.toolId in ids
  {
    var r := RowsFor(agent, ids);
    forall b: Binding | b.agentId == agent && b.toolId in ids ensures b in r {
      var k :| 0 <= k < |ids| && ids[k] == b.toolId;
      assert r[k] == b;
    }
  }

  lemma RowsForSnoc(agent: string, ids: seq<ToolId>, i: nat)
    requires i < |ids|
    ensures RowsFor(agent, ids[..i + 1]) == RowsFor(agent, ids[..i]) + [Binding(agent, ids[i])]
  {
    var a, b := RowsFor(agent, ids[..i + 1]), RowsFor(agent, ids[..i]) + [Binding(agent, ids[i])];
    assert |a| == |b|;
    forall k | 0 <= k < |a| ensures a[k] == b[k] {
      assert ids[..i + 1][k] == ids[k];
    }
  }

  /** Inserting the row for the next id extends the rows inserted so far. */
  lemma InsertStep(kept: seq<Binding>, agent: string, ids: seq<ToolId>, i: nat)
    requires i < |ids|
    ensures kept + RowsFor(agent, ids[..i]) + [Binding(agent, ids[i])] == kept + RowsFor(agent, ids[..i + 1])
  {
    RowsForSnoc(agent, ids, i);
  }

  /** The table after the bind's delete-then-insert for `agent`. */
  function Replace(bindings: seq<Binding>, agent: string, ids: seq<ToolId>): (r: seq<Binding>)
    ensures BoundIds(r, agent) == Elems(ids)
    ensures forall a :: a != agent ==> BoundIds(r, a) == BoundIds(bindings, a)
    ensures forall b :: b in r <==> (b in bindings && b.agentId != agent) || (b.agentId == agent && b.toolId in ids)
  {
    var r := RemoveAgent(bindings, agent) + RowsFor(agent, ids);
    RowsForMembers(agent, ids);
    BoundIdsMembership(r, agent);
    assert BoundIds(r, agent) == Elems(ids);
    assert forall a :: a != agent ==> BoundIds(r, a) == BoundIds(bindings, a) by {
      forall a | a != agent ensures BoundIds(r, a) == BoundIds(bindings, a) {
        BoundIdsMembership(r, a);
        BoundIdsMembership(bindings, a);
      }
    }
    r
  }

  /** What the bind handler does: its response or error, and the binding table afterwards. */
  datatype BindStep = BindStep(result: Result<BindingResult, BindError>, bindings: seq<Binding>)

  /** The ids of a request that are missing from the catalogue or not ACTIVE.
      An empty request skips validation. */
  function InvalidIds(tools: seq<Tool>, unique: seq<ToolId>): (r: set<ToolId>)
    ensures forall id :: id in r <==> id in unique && id !in ActiveIds(tools)
  {
    if unique != [] then Elems(unique) - ActiveIds(tools) else {}
  }

  /** `bind_tools` as a function of the catalogue and the binding table. */
  function BindSpec(tools: seq<Tool>, bindings: seq<Binding>, req: BindToolsRequest): (s: BindStep)
    ensures s.result.Failure? <==> !(Elems(req.toolIds) <= ActiveIds(tools))
    ensures s.result.Failure? ==> s.bindings == bindings
    ensures s.result.Failure? ==> s.result.error.invalidIds == Elems(req.toolIds) - ActiveIds(tools)
    ensures s.result.Success? ==>
      && s.result.value.agentId == req.agentId
      && NoDups(s.result.value.toolIds)
      && Elems(s.result.value.toolIds) == Elems(req.toolIds)
      && s.result.value.boundToolCount == |s.result.value.toolIds| == |Elems(req.toolIds)|
    ensures s.result.Success? ==> BoundIds(s.bindings, req.agentId) == Elems(req.toolIds)
    ensures s.result.Success? ==>
      forall a :: a != req.agentId ==> BoundIds(s.bindings, a) == BoundIds(bindings, a)
  {
    var unique := Dedup(req.toolIds);
    DedupLength(req.toolIds);
    var invalid := InvalidIds(tools, unique);
    if invalid != {} then
      BindStep(Failure(InvalidToolIds(invalid)), bindings)
    else
      assert Elems(req.toolIds) <= ActiveIds(tools) by {
        forall id | id in Elems(req.toolIds) ensures id in ActiveIds(tools) {
          assert id in unique;
        }
      }
      BindStep(Success(BindingResult(req.agentId, |unique|, unique)), Replace(bindings, req.agentId, unique))
  }

  /** A successful bind keeps every table constraint: the pairs stay unique,
      every bound tool exists, and agent ids fit their column. */
  lemma BindKeepsInvariant(tools: seq<Tool>, bindings: seq<Binding>, req: BindToolsRequest)
    requires StoreInvariant(tools, bindings) && ValidBindRequest(req)
    ensures StoreInvariant(tools, BindSpec(tools, bindings, req).bindings)
  {
    var s := BindSpec(tools, bindings, req);
    if s.result.Success? {
      var unique := Dedup(req.toolIds);
      var kept, added := RemoveAgent(bindings, req.agentId), RowsFor(req.agentId, unique);
      RowsForMembers(req.agentId, unique);
      assert s.bindings == kept + added;
      assert Elems(kept) !! Elems(added);
      NoDupsAppend(kept, added);
    }
  }

  /** Deleting the agent's rows twice is deleting them once; the freshly
      inserted rows are all the agent's. */
  lemma ReplaceIdempotent(bindings: seq<Binding>, agent: string, ids: seq<ToolId>)
    ensures Replace(Replace(bindings, agent, ids), agent, ids) == Replace(bindings, agent, ids)
  {
    var kept, added := RemoveAgent(bindings, agent), RowsFor(agent, ids);
    RowsForMembers(agent, ids);
    var once := Replace(bindings, agent, ids);
    assert once == kept + added;
    FilterAppend(kept, added, KeepOtherAgents(agent));
    FilterKeepsAll(kept, KeepOtherAgents(agent));
    FilterDropsAll(added, KeepOtherAgents(agent));
    assert RemoveAgent(once, agent) == kept;
    assert Replace(once, agent, ids) == kept + added;
  }

  /** Binding the same list twice gives the same table and the same response
      as binding it once. */
  lemma BindIdempotent(tools: seq<Tool>, bindings: seq<Binding>, req: BindToolsRequest)
    ensures var once := BindSpec(tools, bindings, req);
      var twice := BindSpec(tools, once.bindings, req);
      twice.bindings == once.bindings && twice.result == once.result
  {
    var once := BindSpec(tools, bindings, req);
    if once.result.Success? {
      ReplaceIdempotent(bindings, req.agentId, Dedup(req.toolIds));
    }
  }

  /** An empty list is an explicit "unbind all": it succeeds, reports zero
      tools, and leaves the agent without bindings, so the bound query finds
      nothing for it. */
  lemma EmptyBindUnbindsAll(tools: seq<Tool>, bindings: seq<Binding>, agent: string, query: MembershipRequest)
    requires query.agentId == agent && ValidMembershipRequest(query)
    ensures var s := BindSpec(tools, bindings, BindToolsRequest(agent, []));
      && s.result.Success? && s.result.value.boundToolCount == 0 && s.result.value.toolIds == []
      && BoundIds(s.bindings, agent) == {}
      && QueryBound(tools, s.bindings, query).totalElements == 0
  {
    var s := BindSpec(tools, bindings, BindToolsRequest(agent, []));
    assert Elems<ToolId>([]) == {};
    var full := BoundResult(tools, s.bindings, query);
    assert forall t :: t !in full;
  }

  /** After a successful bind, the bound query for that agent lists exactly
      the requested tools that pass its filters, and the unbound query lists
      exactly the other filter-passing ACTIVE tools. */
  lemma BindThenQuery(tools: seq<Tool>, bindings: seq<Binding>, req: BindToolsRequest, query: MembershipRequest)
    requires query.agentId == req.agentId
    requires BindSpec(tools, bindings, req).result.Success?
    ensures var after := BindSpec(tools, bindings, req).bindings;
      && (forall t :: t in BoundResult(tools, after, query) <==> t in tools && PassesFilters(query, t) && t.id in req.toolIds)
      && (forall t :: t in UnboundResult(tools, after, query) <==> t in tools && PassesFilters(query, t) && t.id !in req.toolIds)
  {
  }

  /** The binding table and the catalogue it refers to. The catalogue is
      read-only for binding; deleting a tool cascades to its bindings. */
  class BindingStore {
    var tools: seq<Tool>
    var bindings: seq<Binding>

    ghost predicate Valid()
      reads this
    {
      StoreInvariant(tools, bindings)
    }

    constructor (catalogue: seq<Tool>)
      requires UniqueToolIds(catalogue)
      ensures Valid()
      ensures tools == catalogue && bindings == []
    {
      tools := catalogue;
      bindings := [];
    }

    /** The validation query: which of `ids` name an ACTIVE tool. */
    method ActiveAmong(ids: seq<ToolId>) returns (valid: set<ToolId>)
      ensures forall id :: id in valid <==> id in ids && id in ActiveIds(tools)
    {
      valid := set t | t in tools && t.id in ids && t.status == Active :: t.id;
    }

    /** `bind_tools`: deduplicate, validate every id, then delete the
        agent's rows and insert one row per unique id. */
    method BindTools(req: BindToolsRequest) returns (r: Result<BindingResult, BindError>)
      requires Valid() && ValidBindRequest(req)
      modifies this`bindings
      ensures Valid()
      ensures BindStep(r, bindings) == BindSpec(tools, old(bindings), req)
      ensures r.Failure? ==> bindings == old(bindings)
      ensures r.Success? ==> bindings == Replace(old(bindings), req.agentId, r.value.toolIds)
    {
      BindKeepsInvariant(tools, bindings, req);
      ghost var before := bindings;
      ghost var spec := BindSpec(tools, before, req);
      var unique := Dedup(req.toolIds);
      if |unique| > 0 {
        var valid := ActiveAmong(unique);
        var invalid := Elems(unique) - valid;
        assert invalid == InvalidIds(tools, unique);
        if invalid != {} {
          r := Failure(InvalidToolIds(invalid));
          assert spec == BindStep(r, bindings);
          return;
        }
      }
      assert InvalidIds(tools, unique) == {};
      assert spec == BindStep(Success(BindingResult(req.agentId, |unique|, unique)), Replace(before, req.agentId, unique));
      var bound := ReplaceBindings(req.agentId, unique);
      r := Success(BindingResult(req.agentId, |bound|, bound));
    }

    /** The full replacement: delete the agent's rows, then insert one row
        per id, collecting the ids bound. */
    method ReplaceBindings(agent: string, unique: seq<ToolId>) returns (bound: seq<ToolId>)
      modifies this`bindings
      ensures bound == unique
      ensures bindings == Replace(old(bindings), agent, unique)
    {
      var kept := RemoveAgent(bindings, agent);
      bindings := kept;
      bound := [];
      var i := 0;
      while i < |unique|
        invariant 0 <= i <= |unique|
        invariant bound == unique[..i]
        invariant bindings == kept + RowsFor(agent, unique[..i])
      {
        InsertStep(kept, agent, unique, i);
        bindings := bindings + [Binding(agent, unique[i])];
        bound := bound + [unique[i]];
        i := i + 1;
      }
      assert unique[..i] == unique;
    }

    /** Deleting a tool row; the foreign key's `ON DELETE CASCADE` removes
        every binding that refers to it and no other. */
    method DeleteTool(id: ToolId)
      requires Valid()
      modifies this
      ensures Valid()
      ensures tools == RemoveTool(old(tools), id)
      ensures bindings == CascadeDelete(old(bindings), id)
      ensures forall agent :: BoundIds(bindings, agent) == BoundIds(old(bindings), agent) - {id}
    {
      CascadeDeleteKeepsInvariant(tools, bindings, id);
      tools := RemoveTool(tools, id);
      bindings := CascadeDelete(bindings, id);
    }
  }
}
