# Agent-to-tool binding: a Dafny model

This project models the agent binding layer of an AIOps tool-management API.
The API keeps a catalogue of invocable tools. External agents, known only by a
string id, are granted a subset of those tools through the `agent_tool_bindings`
table. The model covers three operations:

- **bind** (`bind_tools`): a full replacement of one agent's tool set. The
  requested ids are deduplicated. Every id must name an existing ACTIVE tool,
  or the whole request fails with a `ValidationError` listing all the bad ids
  and nothing changes. Otherwise the agent's rows are deleted and one row per
  unique id is inserted.
- **bound query** (`query_bound_tools`): the ACTIVE tools joined with the
  agent's bindings. The optional keyword filter is a case-insensitive
  substring of the name or the description. The optional category filter is
  an exact match. The result is ordered by name and returned one page at a time.
- **unbound query** (`query_unbound_tools`): the ACTIVE tools whose id is not
  among the agent's bindings, with the same filters, order and paging.

The table constraints are modelled too: the unique `(agent_id, tool_id)` index,
the foreign key to `tools.id` with its cascading delete, and the 255-character
`agent_id` column. So are the request limits that validation enforces before a
handler runs.

Layout:

- `wrappers.dfy` (`Wrappers`): `Option` and `Result` (a helper; no source counterpart).
- `sequences.dfy` (`Sequences`): element sets, absence of duplicates, and
  order-preserving filtering of sequences, which stand for tables and id lists
  (a helper; no source counterpart).
- `binding_model.dfy` (`BindingModel`): tool and binding rows, the store
  invariant, and the cascade on tool deletion.
- `binding_schemas.dfy` (`BindingSchemas`): request and response shapes, and
  field validation.
- `binding_queries.dfy` (`BindingQueries`): the two query handlers of
  `endpoints/agent_binding.py`: filters, name order, the bound and unbound
  result sets, paging, and the partition lemmas.
- `agent_binding.dfy` (`AgentBinding`): the bind handler of
  `endpoints/agent_binding.py`: deduplication, validation and
  replacement as functions (`BindSpec`). It also holds the class
  `BindingStore`, whose `BindTools` method performs the bind step by step and is
  proved equal to `BindSpec`.
- `binding_scenario.dfy` (`BindingScenario`): a worked scenario on three tools
  (no source counterpart).

Tables are sequences of rows. Tool and category UUIDs are natural numbers.

## Model

| member | source | states |
|---|---|---|
| `BindingModel.RemoveTool` | src/aiops_tools/models/agent_binding.py:26-31 | after deleting tool `id`, the catalogue holds exactly the other rows, and `id` is no longer a tool id |
| `BindingModel.UniquePairs` | src/aiops_tools/models/agent_binding.py:36-43 | the unique index: no two rows agree on both `agent_id` and `tool_id` |
| `BindingModel.ToolKeysExist` | src/aiops_tools/models/agent_binding.py:26-28 | the foreign key holds iff every agent's bound ids are tool ids of the catalogue |
| `BindingModel.AgentIdsFit` | src/aiops_tools/models/agent_binding.py:20-21 | with every `agent_id` within its 255-character column, no longer agent id has any binding |
| `BindingModel.StoreInvariant` | src/aiops_tools/models/agent_binding.py:20-43 | under all table constraints, every agent's bound ids are catalogue tool ids and agent ids longer than the column have no bindings |
| `BindingModel.CascadeDelete` | src/aiops_tools/models/agent_binding.py:29 | the cascade keeps exactly the binding rows that do not reference the deleted tool; every agent loses that tool and nothing else |
| `BindingModel.CascadeDeleteKeepsInvariant` | src/aiops_tools/models/agent_binding.py:20-43 | deleting a tool together with its cascade keeps unique tool ids, unique (agent, tool) pairs, the foreign key and the agent-id width; no remaining binding references the deleted tool |
| `BindingSchemas.ParseMembershipRequest` | src/aiops_tools/schemas/agent_binding.py:11-48 | a bound/unbound request is accepted iff `agentId` has 1..255 characters and a present keyword has at most 100; all five fields, `page` and `size` included, are kept as given (an absent category filters nothing, as `CategoryMatches` states) |
| `BindingSchemas.ValidMembershipRequest` | src/aiops_tools/schemas/agent_binding.py:14-24 | a valid query request has an agent id that is non-empty and fits the `agent_id` column, and valid paging (page >= 1, size >= 1) |
| `BindingSchemas.ValidBindRequest` | src/aiops_tools/schemas/agent_binding.py:54-64 | a valid bind request has an agent id that is non-empty and fits the `agent_id` column |
| `BindingSchemas.ParseBindToolsRequest` | src/aiops_tools/schemas/agent_binding.py:51-64 | a bind request is accepted iff `agentId` has 1..255 characters and `toolIds` has at most 100 entries; an absent `toolIds` becomes the empty list |
| `BindingQueries.KeywordCaseIrrelevant` | src/aiops_tools/api/v1/endpoints/agent_binding.py:54-62 | two keywords that differ only in the case of ASCII letters select exactly the same tools |
| `BindingQueries.NameContainingKeywordMatches` | src/aiops_tools/api/v1/endpoints/agent_binding.py:55-61 | a tool whose name contains the keyword passes the keyword filter |
| `BindingQueries.KeywordMatches` | src/aiops_tools/api/v1/endpoints/agent_binding.py:54-62 | an absent or empty keyword filters nothing; a keyword longer than both name and description matches neither |
| `BindingQueries.CategoryMatches` | src/aiops_tools/api/v1/endpoints/agent_binding.py:64-66 | an absent category filters nothing; a requested category passes exactly the tools of that category |
| `BindingQueries.PassesFilters` | src/aiops_tools/api/v1/endpoints/agent_binding.py:50-66 | only ACTIVE tools pass; an ACTIVE tool passes when neither keyword nor category is given |
| `BindingQueries.ContainsIgnoringCaseAgrees` | src/aiops_tools/api/v1/endpoints/agent_binding.py:56-61 | matching after folding both sides to lower case finds a keyword exactly when it occurs at some position with every character equal up to ASCII letter case |
| `BindingQueries.KeywordMatchesAgrees` | src/aiops_tools/api/v1/endpoints/agent_binding.py:54-62 | a given keyword matches iff it is empty or occurs, up to letter case, in the name or in the description |
| `BindingQueries.PassesFiltersAgrees` | src/aiops_tools/api/v1/endpoints/agent_binding.py:50-66 | a tool passes the filters iff it is ACTIVE, the keyword is absent, empty or found up to case in name or description, and the category is absent or equal to the tool's |
| `BindingQueries.SortByName` | src/aiops_tools/api/v1/endpoints/agent_binding.py:68 | the ordered result is non-decreasing by name and is a permutation of the rows it orders |
| `BindingQueries.SortedArrangementUnique` | src/aiops_tools/api/v1/endpoints/agent_binding.py:68 | when no two rows share a name, any two name-sorted arrangements of the same rows are equal |
| `BindingQueries.AnyNameOrderIsSortByName` | src/aiops_tools/api/v1/endpoints/agent_binding.py:68-77 | with distinct names, every name-sorted arrangement of the rows the database may return equals the model's ordered result, so separate page requests slice one order |
| `BindingQueries.EqualNamesAdmitTwoOrders` | src/aiops_tools/api/v1/endpoints/agent_binding.py:68 | two tools with the same name can be ordered either way, both sorted by name with the same rows |
| `BindingQueries.BindingCount` | src/aiops_tools/api/v1/endpoints/agent_binding.py:46-49 | the join finds some row for (agent, tool) iff the tool is bound to the agent, and at most one when pairs are unique |
| `BindingQueries.BoundCandidates` | src/aiops_tools/api/v1/endpoints/agent_binding.py:46-66 | the joined and filtered rows are exactly the catalogue's ACTIVE, filter-passing tools bound to the agent |
| `BindingQueries.UnboundCandidates` | src/aiops_tools/api/v1/endpoints/agent_binding.py:118-143 | the rows are exactly the catalogue's ACTIVE, filter-passing tools not bound to the agent |
| `BindingQueries.FilteredActive` | src/aiops_tools/api/v1/endpoints/agent_binding.py:124-143 | the rows are exactly the ACTIVE, filter-passing tools, without duplicates when tool ids are unique |
| `BindingQueries.BoundResult` | src/aiops_tools/api/v1/endpoints/agent_binding.py:46-68 | the whole bound result is sorted by name and holds exactly the ACTIVE, filter-passing tools bound to the agent |
| `BindingQueries.UnboundResult` | src/aiops_tools/api/v1/endpoints/agent_binding.py:118-145 | the whole unbound result is sorted by name and holds exactly the ACTIVE, filter-passing tools not bound to the agent |
| `BindingQueries.BoundResultSelects` | src/aiops_tools/api/v1/endpoints/agent_binding.py:46-66 | a tool is in the bound result iff it is in the catalogue, the WHERE clause (status, keyword in name or description, category) selects it, and the agent has a binding row for it |
| `BindingQueries.UnboundResultSelects` | src/aiops_tools/api/v1/endpoints/agent_binding.py:118-143 | a tool is in the unbound result iff it is in the catalogue, the same WHERE clause selects it, and the agent has no binding row for it |
| `BindingQueries.CandidateCounts` | src/aiops_tools/api/v1/endpoints/agent_binding.py:46-52 | with unique (agent, tool) pairs, the bound and unbound row counts add up to the number of ACTIVE, filter-passing tools |
| `BindingQueries.BoundUnboundPartition` | src/aiops_tools/api/v1/endpoints/agent_binding.py:119-127 | for one agent and filter, the bound and unbound results are disjoint, their union is the ACTIVE filter-passing tools, their sizes add up to that set's size, and neither lists a tool twice |
| `BindingQueries.TotalPages` | src/aiops_tools/api/v1/endpoints/agent_binding.py:80 | for a positive size, `totalPages` is the ceiling of totalElements / size, so (n-1)*size < total <= n*size; it is 0 iff there are no elements, and 0 for a size that is not positive |
| `BindingQueries.PageSlice` | src/aiops_tools/api/v1/endpoints/agent_binding.py:75 | a page holds at most `size` rows: the rows starting at offset (page-1)*size, as many as remain up to `size`, and none past the end |
| `BindingQueries.Offset` | src/aiops_tools/api/v1/endpoints/agent_binding.py:75 | the first page starts at offset 0 and no later page does; a later page starts at least one page size in |
| `BindingQueries.MakePage` | src/aiops_tools/api/v1/endpoints/agent_binding.py:79-82 | `first` iff page is 1; `last` iff the next page would be empty; the page has content iff page <= totalPages; totalElements counts the whole result |
| `BindingQueries.OffsetIsProduct` | src/aiops_tools/api/v1/endpoints/agent_binding.py:75 | the offset counted page by page equals (page-1)*size, the source's offset expression |
| `BindingQueries.PageAgainstCount` | src/aiops_tools/api/v1/endpoints/agent_binding.py:80-82 | with a ceiling page count, the next page starts past the end iff page >= totalPages, and a page starts inside the result iff page <= totalPages |
| `BindingQueries.BoundPageMembers` | src/aiops_tools/api/v1/endpoints/agent_binding.py:46-76 | every tool on a page of the bound result is an ACTIVE, filter-passing catalogue tool bound to the agent, and the page is sorted by name |
| `BindingQueries.UnboundPageMembers` | src/aiops_tools/api/v1/endpoints/agent_binding.py:118-153 | every tool on a page of the unbound result is an ACTIVE, filter-passing catalogue tool not bound to the agent, and the page is sorted by name |
| `BindingQueries.AllPagesCoverResult` | src/aiops_tools/api/v1/endpoints/agent_binding.py:75-80 | pages 1..totalPages, read in turn, give back the whole ordered result exactly once |
| `BindingQueries.EmptyResultPage` | src/aiops_tools/api/v1/endpoints/agent_binding.py:80-82 | an empty result has 0 pages, empty content, `last` set, and `first` iff page is 1 |
| `BindingQueries.QueryBound` | src/aiops_tools/api/v1/endpoints/agent_binding.py:34-104 | the page is sorted by name, has at most `size` tools, lists only ACTIVE filter-passing tools bound to the agent, and counts the whole bound result; `totalPages` is `TotalPages` of that count, `first` iff page is 1, `last` iff the next page of the result is empty; `page` and `size` echo the request |
| `BindingQueries.QueryUnbound` | src/aiops_tools/api/v1/endpoints/agent_binding.py:107-181 | the same as `QueryBound`, but for ACTIVE filter-passing tools not bound to the agent |
| `BindingQueries.QueryTotalsPartition` | src/aiops_tools/api/v1/endpoints/agent_binding.py:145-149 | the bound and unbound `totalElements` add up to the number of distinct ACTIVE tools passing the filter |
| `AgentBinding.Dedup` | src/aiops_tools/api/v1/endpoints/agent_binding.py:196-197 | the unique ids have no duplicates and the same set of ids as the request |
| `AgentBinding.DedupLength` | src/aiops_tools/api/v1/endpoints/agent_binding.py:246-250 | the number of unique ids, and so `boundToolCount`, equals the number of distinct requested ids |
| `AgentBinding.ActiveIds` | src/aiops_tools/api/v1/endpoints/agent_binding.py:201-206 | the catalogue's ACTIVE ids: an id is in the set iff some ACTIVE tool has it, so an id held only by an INACTIVE tool is excluded |
| `AgentBinding.InvalidIds` | src/aiops_tools/api/v1/endpoints/agent_binding.py:199-209 | the invalid ids are exactly the requested ids that are not ACTIVE tool ids; an empty request has none |
| `AgentBinding.RemoveAgent` | src/aiops_tools/api/v1/endpoints/agent_binding.py:223-226 | the delete keeps exactly the rows of other agents and keeps pairs unique |
| `AgentBinding.RowsFor` | src/aiops_tools/api/v1/endpoints/agent_binding.py:228-233 | one inserted row per given id, without duplicates when the ids have none |
| `AgentBinding.RowsForMembers` | src/aiops_tools/api/v1/endpoints/agent_binding.py:228-233 | the inserted rows are exactly the agent paired with each given id |
| `AgentBinding.Replace` | src/aiops_tools/api/v1/endpoints/agent_binding.py:223-233 | after the replacement the agent is bound to exactly the given ids, and every other agent's bindings are unchanged |
| `AgentBinding.BindSpec` | src/aiops_tools/api/v1/endpoints/agent_binding.py:184-251 | a bind fails iff some requested id is not an ACTIVE tool; then `invalidIds` is exactly those ids and the table is unchanged. Otherwise the result has the agent id, duplicate-free `toolIds` equal as a set to the request, and `boundToolCount` equal to its length and to the number of distinct ids; the agent is bound to exactly those ids and other agents are untouched |
| `AgentBinding.BindKeepsInvariant` | src/aiops_tools/models/agent_binding.py:20-43 | a bind keeps the unique (agent, tool) index, the foreign key to existing tools, and the agent-id width |
| `AgentBinding.ReplaceIdempotent` | src/aiops_tools/api/v1/endpoints/agent_binding.py:223-233 | replacing an agent's bindings twice with the same ids gives the same table as once |
| `AgentBinding.BindIdempotent` | src/aiops_tools/api/v1/endpoints/agent_binding.py:184-251 | binding the same request twice gives the same table and the same response, including `boundToolCount`, as binding it once |
| `AgentBinding.EmptyBindUnbindsAll` | src/aiops_tools/api/v1/endpoints/agent_binding.py:186-190 | an empty `toolIds` succeeds with zero tools, leaves the agent with no bindings, and the bound query then counts 0 elements |
| `AgentBinding.BindThenQuery` | src/aiops_tools/api/v1/endpoints/agent_binding.py:223-233 | after a successful bind, the bound query lists exactly the requested tools passing its filters; the unbound query lists exactly the other ACTIVE tools passing them |
| `AgentBinding.BindingStore.ActiveAmong` | src/aiops_tools/api/v1/endpoints/agent_binding.py:200-206 | the validation query returns exactly the requested ids that name an ACTIVE tool |
| `AgentBinding.BindingStore.BindTools` | src/aiops_tools/api/v1/endpoints/agent_binding.py:184-251 | the imperative bind gives the same response and new table as `BindSpec`, and keeps the store invariant; a failure leaves the table untouched |
| `AgentBinding.BindingStore.ReplaceBindings` | src/aiops_tools/api/v1/endpoints/agent_binding.py:223-235 | the delete followed by the insert loop leaves exactly `Replace(old table, agent, ids)` and returns the ids bound, in order |
| `AgentBinding.BindingStore.DeleteTool` | src/aiops_tools/models/agent_binding.py:26-31 | deleting a tool removes its row and, by cascade, exactly its bindings; every agent loses only that tool, and the store invariant holds afterwards |
| `BindingScenario.BindWithInactiveToolFails` | src/aiops_tools/api/v1/endpoints/agent_binding.py:199-221 | binding an ACTIVE and an INACTIVE tool fails, names only the INACTIVE one, and binds nothing |
| `BindingScenario.BindActiveToolSucceeds` | src/aiops_tools/api/v1/endpoints/agent_binding.py:223-250 | binding one ACTIVE tool stores one row and reports `boundToolCount` 1 |
| `BindingScenario.CatalogueActiveIds` | src/aiops_tools/api/v1/endpoints/agent_binding.py:201-206 | the ACTIVE ids of the example catalogue are exactly those of A and B |
| `BindingScenario.KeywordInDescription` | src/aiops_tools/api/v1/endpoints/agent_binding.py:54-62 | the keyword "SECOND" matches B through its description "second tool", in the other case |
| `BindingScenario.KeywordNotInOtherTool` | src/aiops_tools/api/v1/endpoints/agent_binding.py:54-62 | the keyword "SECOND" matches neither A's name nor its description |
| `BindingScenario.KeywordQueryAfterBinding` | src/aiops_tools/api/v1/endpoints/agent_binding.py:46-77 | with A and B bound, the bound query with keyword "SECOND" returns [B] |
| `BindingScenario.BoundQueryAfterBinding` | src/aiops_tools/api/v1/endpoints/agent_binding.py:46-68 | with one tool bound, the bound query returns exactly that tool |
| `BindingScenario.UnboundRowsAfterBinding` | src/aiops_tools/api/v1/endpoints/agent_binding.py:118-143 | with one of two ACTIVE tools bound, the unbound rows are the other ACTIVE tool only; the INACTIVE tool is excluded |
| `BindingScenario.UnboundQueryAfterBinding` | src/aiops_tools/api/v1/endpoints/agent_binding.py:118-145 | with one of two ACTIVE tools bound, the unbound query returns the other ACTIVE tool and not the INACTIVE one |

## Left out

- HTTP routing, the response envelope (`code`, `message`, `success`), `ToolResponse` serialisation, and logging are not modelled.
- The session and its transaction are not modelled. `BindingStore.BindTools` is one atomic method, so storage failures and rollback are not modelled either.
- Concurrency is not modelled. The unique index is kept as an invariant; its role as a guard against racing binds, and the conflict error such a race raises, are not.
- The binding row's own UUID primary key and timestamps are not modelled. A row is only its (agent, tool) pair.
- `models/tool.py` is not part of this model. A tool has the columns the binding logic reads: id, name, description, status and optional category. Every status other than ACTIVE is modelled as `Inactive`, and the description is never NULL.
- `BindingQueries.ContainsIgnoringCase`: `%` and `_` in the keyword are not escaped by the source, so the database treats them as wildcards, and neither is the LIKE escape character `\`, which changes how the character after it matches. The model matches the keyword as a literal substring.
- `BindingQueries.Lower`: case folding covers ASCII letters only; Unicode folding is the database's business.
- `BindingQueries.NameLe`: name order compares character codes; the database collation is not modelled.
- `BindingQueries.SortByName`: tools with equal names come out in one fixed insertion-sort order, and `QueryBound`, `QueryUnbound` and `AllPagesCoverResult` page through that one order. The source orders by name only, so the database may order ties differently from one request to the next (`EqualNamesAdmitTwoOrders`). With distinct names the order is forced (`AnyNameOrderIsSortByName`). The code has no tie-break by identity, and the model follows the code.
- `BindingQueries.AllPagesCoverResult`: holds for one fixed ordered result. Across separate page requests, the source guarantees it only when no two rows of the result share a name; with equal names a tool can appear on two pages and another on none.
- `AgentBinding.Dedup`: keeps the last occurrence of each id, whereas `list(set(...))` gives an unspecified order. Only the absence of duplicates and the set of ids are claimed.
- `BindingSchemas.BindError`: `invalidIds` is a set. The source builds its list from a set, so the order is unspecified.
- `BindingSchemas.ValidPaging`: `page >= 1` and `size > 0` come from `PaginationRequest` in `schemas/tool.py`, which is not part of this model. They are taken as preconditions of the queries. `TotalPages` still models the source's `else 0` branch for a size that is not positive.
- Tool creation, update and status changes belong to tool management and are not modelled. Only the catalogue row deletion that triggers the cascade is modelled (`BindingStore.DeleteTool`).
