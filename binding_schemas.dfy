/** Request and response shapes of the binding API, and the field
    constraints request validation enforces before a handler runs. */
module BindingSchemas {
  import opened Wrappers
  import opened BindingModel

  const AgentIdMinLength: nat := 1
  const AgentIdMaxLength: nat := 255
  const KeywordMaxLength: nat := 100
  const ToolIdsMaxLength: nat := 100

  /** `BoundToolsRequest` and `UnboundToolsRequest` carry the same fields:
      the agent, the two optional filters and the paging request. */
  datatype MembershipRequest = MembershipRequest(
    agentId: string,
    keyword: Option<string>,
    categoryId: Option<CategoryId>,
    page: int,
    size: int)

  /** `BindToolsRequest`. */
  datatype BindToolsRequest = BindToolsRequest(agentId: string, toolIds: seq<ToolId>)

  /** `BindingPaginatedData`: one page of tools plus the paging metadata. */
  datatype BindingPaginatedData = BindingPaginatedData(
    content: seq<Tool>,
    page: int,
    size: int,
    totalElements: nat,
    totalPages: nat,
    first: bool,
    last: bool)

  /** `BindingResult`. */
  datatype BindingResult = BindingResult(agentId: string, boundToolCount: nat, toolIds: seq<ToolId>)

  /** `ValidationError` raised by a bind: the requested ids that are missing or not ACTIVE. */
  datatype BindError = InvalidToolIds(invalidIds: set<ToolId>)

  predicate ValidAgentId(agentId: string) {
    AgentIdMinLength <= |agentId| <= AgentIdMaxLength
  }

  predicate ValidKeyword(keyword: Option<string>) {
    keyword.None? || |keyword.value| <= KeywordMaxLength
  }

  /** The paging bounds of `PaginationRequest`, which these requests extend. */
  predicate ValidPaging(page: int, size: int) {
    page >= 1 && size > 0
  }

  function ValidMembershipRequest(req: MembershipRequest): (r: bool)
    ensures r ==> req.agentId != [] && |req.agentId| <= AgentIdColumnWidth
    ensures r ==> req.page >= 1 && req.size >= 1
  {
    && ValidAgentId(req.agentId)
    && ValidKeyword(req.keyword)
    && ValidPaging(req.page, req.size)
  }

  function ValidBindRequest(req: BindToolsRequest): (r: bool)
    ensures r ==> req.agentId != [] && |req.agentId| <= AgentIdColumnWidth
  {
    ValidAgentId(req.agentId) && |req.toolIds| <= ToolIdsMaxLength
  }

  /** Validation of a bound/unbound query body. The paging fields are
      passed through; their bounds belong to `PaginationRequest`. */
  function ParseMembershipRequest(agentId: string, keyword: Option<string>, categoryId: Option<CategoryId>,
                                  page: int, size: int): (r: Option<MembershipRequest>)
    ensures r.Some? <==> 1 <= |agentId| <= 255 && (keyword.Some? ==> |keyword.value| <= 100)
    ensures r.Some? ==> r.value.agentId == agentId && r.value.keyword == keyword && r.value.categoryId == categoryId
    ensures r.Some? ==> r.value.page == page && r.value.size == size
    ensures r.Some? && ValidPaging(page, size) ==> ValidMembershipRequest(r.value)
  {
    if ValidAgentId(agentId) && ValidKeyword(keyword) then
      Some(MembershipRequest(agentId, keyword, categoryId, page, size))
    else
      None
  }

  /** Validation of a bind body. An absent `toolIds` defaults to the empty
      list, which asks to unbind everything. */
  function ParseBindToolsRequest(agentId: string, toolIds: Option<seq<ToolId>>): (r: Option<BindToolsRequest>)
    ensures r.Some? <==> 1 <= |agentId| <= 255 && (toolIds.Some? ==> |toolIds.value| <= 100)
    ensures r.Some? ==> ValidBindRequest(r.value) && r.value.agentId == agentId
    ensures r.Some? && toolIds.None? ==> r.value.toolIds == []
    ensures r.Some? && toolIds.Some? ==> r.value.toolIds == toolIds.value
  {
    var ids := toolIds.GetOr([]);
    if ValidAgentId(agentId) && |ids| <= ToolIdsMaxLength then
      Some(BindToolsRequest(agentId, ids))
    else
      None
  }
}
