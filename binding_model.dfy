/** The persistence model: rows of the tools catalogue as far as the binding
    logic reads them, rows of the `agent_tool_bindings` table, and the
    constraints the database keeps on that table: the unique
    (agent_id, tool_id) index, the foreign key to `tools.id` with its
    cascading delete, and the width of the `agent_id` column. */
module BindingModel {
  import opened Wrappers
  import opened Sequences

  /** Tool and category primary keys are UUIDs; only their identity matters. */
  type ToolId = nat
  type CategoryId = nat

  /** Only ACTIVE tools take part in binding; every other status behaves alike. */
  datatype ToolStatus = Active | Inactive

  /** A row of the tools catalogue, reduced to the columns the binding logic reads. */
  datatype Tool = Tool(
    id: ToolId,
    name: string,
    description: string,
    status: ToolStatus,
    category: Option<CategoryId>)

  /** A row of `agent_tool_bindings`: one grant of one tool to one external agent. */
  datatype Binding = Binding(agentId: string, toolId: ToolId)

  /** `agent_id` is declared as `String(255)`. */
  const AgentIdColumnWidth: nat := 255

  function ToolIds(tools: seq<Tool>): set<ToolId> {
    set t | t in tools :: t.id
  }

  /** `tools.id` is a primary key: no row twice, and no two rows share an id. */
  predicate UniqueToolIds(tools: seq<Tool>) {
    && NoDups(tools)
    && forall t1, t2 :: t1 in tools && t2 in tools && t1.id == t2.id ==> t1 == t2
  }

  /** The unique index `idx_agent_tool_bindings_agent_tool`: a (agent, tool)
      pair occurs in at most one row. A row has no other observable column,
      so this is absence of duplicate rows. */
  function UniquePairs(bindings: seq<Binding>): (r: bool)
    ensures r <==> forall i, j ::
      (0 <= i < |bindings| && 0 <= j < |bindings| &&
       bindings[i].agentId == bindings[j].agentId && bindings[i].toolId == bindings[j].toolId) ==> i == j
  {
    NoDups(bindings)
  }

  /** Foreign key `tool_id -> tools.id`. */
  function ToolKeysExist(tools: seq<Tool>, bindings: seq<Binding>): (r: bool)
    ensures r <==> forall agent :: BoundIds(bindings, agent) <= ToolIds(tools)
  {
    assert forall b :: b in bindings ==> b.toolId in BoundIds(bindings, b.agentId);
    forall b :: b in bindings ==> b.toolId in ToolIds(tools)
  }

  /** `agent_id` fits its column. */
  function AgentIdsFit(bindings: seq<Binding>): (r: bool)
    ensures r ==> forall agent :: |agent| > AgentIdColumnWidth ==> BoundIds(bindings, agent) == {}
  {
    forall b :: b in bindings ==> |b.agentId| <= AgentIdColumnWidth
  }

  /** Everything the database guarantees about the two tables together. */
  function StoreInvariant(tools: seq<Tool>, bindings: seq<Binding>): (r: bool)
    ensures r ==> forall agent :: BoundIds(bindings, agent) <= ToolIds(tools)
    ensures r ==> forall agent :: |agent| > AgentIdColumnWidth ==> BoundIds(bindings, agent) == {}
  {
    && UniqueToolIds(tools)
    && UniquePairs(bindings)
    && ToolKeysExist(tools, bindings)
    && AgentIdsFit(bindings)
  }

  /** The ids of the tools bound to `agent`. */
  function BoundIds(bindings: seq<Binding>, agent: string): set<ToolId> {
    set b | b in bindings && b.agentId == agent :: b.toolId
  }

  lemma BoundIdsMembership(bindings: seq<Binding>, agent: string)
    ensures forall id :: id in BoundIds(bindings, agent) <==> Binding(agent, id) in bindings
  {
  }

  /** The catalogue after deleting the row of tool `id`. */
  function RemoveTool(tools: seq<Tool>, id: ToolId): (r: seq<Tool>)
    ensures ToolIds(r) == ToolIds(tools) - {id}
    ensures forall t :: t in r <==> t in tools && t.id != id
  {
    Filter(tools, (t: Tool) => t.id != id)
  }

  /** `ondelete="CASCADE"`: the binding rows left after tool `id` is deleted. */
  function CascadeDelete(bindings: seq<Binding>, id: ToolId): (r: seq<Binding>)
    ensures forall b :: b in r <==> b in bindings && b.toolId != id
    ensures forall agent :: BoundIds(r, agent) == BoundIds(bindings, agent) - {id}
  {
    Filter(bindings, (b: Binding) => b.toolId != id)
  }

  /** Deleting a tool, together with its cascade, keeps every table constraint. */
  lemma CascadeDeleteKeepsInvariant(tools: seq<Tool>, bindings: seq<Binding>, id: ToolId)
    requires StoreInvariant(tools, bindings)
    ensures StoreInvariant(RemoveTool(tools, id), CascadeDelete(bindings, id))
    ensures id !in ToolIds(RemoveTool(tools, id))
    ensures forall b :: b in CascadeDelete(bindings, id) ==> b.toolId != id
  {
    var tools', bindings' := RemoveTool(tools, id), CascadeDelete(bindings, id);
    forall b | b in bindings' ensures b.toolId in ToolIds(tools') {
      assert b in bindings && b.toolId in ToolIds(tools);
    }
  }
}
