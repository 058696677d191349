/** The two membership queries of the binding API: the ACTIVE tools bound to
    an agent, and the ACTIVE tools not bound to it. Both apply the same
    optional keyword and category filters, order by tool name, count the
    whole result and return one page of it. */
module BindingQueries {
  import opened Wrappers
  import opened Sequences
  import opened BindingModel
  import opened BindingSchemas

  // ---------------------------------------------------------------------
  // Filters
  // ---------------------------------------------------------------------

  /** Case folding of one character (ASCII letters only). */
  function Lower(c: char): char {
    if 'A' <= c <= 'Z' then (c as int + 32) as char else c
  }

  function LowerStr(s: string): string {
    seq(|s|, i requires 0 <= i < |s| => Lower(s[i]))
  }

  /** `needle` occurs in `haystack` starting at position `i`. */
  predicate OccursAt(haystack: string, needle: string, i: int) {
    0 <= i <= |haystack| - |needle| && haystack[i..i + |needle|] == needle
  }

  /** `haystack ILIKE '%needle%'`: `needle` occurs in `haystack`, ignoring case. */
  predicate ContainsIgnoringCase(haystack: string, needle: string) {
    var h, n := LowerStr(haystack), LowerStr(needle);
    exists i :: 0 <= i <= |h| - |n| && OccursAt(h, n, i)
  }

  /** The keyword filter is applied only to a non-empty keyword, and then
      asks for a match in the name OR the description. */
  function KeywordMatches(keyword: Option<string>, t: Tool): (r: bool)
    ensures keyword == None || keyword == Some("") ==> r
    ensures keyword.Some? && |keyword.value| > |t.name| && |keyword.value| > |t.description| ==> !r
  {
    match keyword
    case None => true
    case Some(k) => k == "" || ContainsIgnoringCase(t.name, k) || ContainsIgnoringCase(t.description, k)
  }

  /** The category filter compares the tool's category with the requested one. */
  function CategoryMatches(categoryId: Option<CategoryId>, t: Tool): (r: bool)
    ensures categoryId.None? ==> r
    ensures categoryId.Some? && t.category != categoryId ==> !r
    ensures categoryId.Some? && t.category == categoryId ==> r
  {
    categoryId.None? || t.category == categoryId
  }

  /** The conditions both queries put on a tool besides its binding. */
  function PassesFilters(req: MembershipRequest, t: Tool): (r: bool)
    ensures r ==> t.status == Active
    ensures t.status == Active && req.keyword.None? && req.categoryId.None? ==> r
  {
    && t.status == Active
    && KeywordMatches(req.keyword, t)
    && CategoryMatches(req.categoryId, t)
  }

  lemma LowerIdempotent(s: string)
    ensures LowerStr(LowerStr(s)) == LowerStr(s)
  {
  }

  // The filters read column by column, as a reference for the definitions
  // above: ILIKE compares characters up to the case of ASCII letters.

  /** `a` and `b` are the same character, or the same ASCII letter in two cases. */
  predicate SameLetterIgnoringCase(a: char, b: char) {
    || a == b
    || ('A' <= a <= 'Z' && b as int == a as int + 32)
    || ('A' <= b <= 'Z' && a as int == b as int + 32)
  }

  /** `needle` occurs in `haystack` at position `i`, up to letter case. */
  predicate MatchesAt(haystack: string, needle: string, i: int) {
    && 0 <= i && i + |needle| <= |haystack|
    && forall j :: 0 <= j < |needle| ==> SameLetterIgnoringCase(haystack[i + j], needle[j])
  }

  predicate HasSubstringIgnoringCase(haystack: string, needle: string) {
    exists i :: 0 <= i <= |haystack| - |needle| && MatchesAt(haystack, needle, i)
  }

  /** The WHERE clause of both queries apart from the binding condition:
      `status = ACTIVE`, then `name ILIKE '%k%' OR description ILIKE '%k%'`
      for a non-empty keyword k, then `category_id = c` for a given c. */
  predicate SelectedBy(req: MembershipRequest, t: Tool) {
    && t.status == Active
    && (|| req.keyword.None? || req.keyword.value == ""
        || HasSubstringIgnoringCase(t.name, req.keyword.value)
        || HasSubstringIgnoringCase(t.description, req.keyword.value))
    && (req.categoryId.None? || t.category == req.categoryId)
  }

  lemma LowerAgrees(a: char, b: char)
    ensures Lower(a) == Lower(b) <==> SameLetterIgnoringCase(a, b)
  {
  }

  lemma OccursAtAgrees(haystack: string, needle: string, i: int)
    requires 0 <= i <= |haystack| - |needle|
    ensures OccursAt(LowerStr(haystack), LowerStr(needle), i) <==> MatchesAt(haystack, needle, i)
  {
    var h, n := LowerStr(haystack), LowerStr(needle);
    if OccursAt(h, n, i) {
      forall j | 0 <= j < |needle| ensures SameLetterIgnoringCase(haystack[i + j], needle[j]) {
        assert h[i..i + |n|][j] == n[j];
        LowerAgrees(haystack[i + j], needle[j]);
      }
    }
    if MatchesAt(haystack, needle, i) {
      forall j | 0 <= j < |needle| ensures h[i..i + |n|][j] == n[j] {
        LowerAgrees(haystack[i + j], needle[j]);
      }
      assert h[i..i + |n|] == n;
    }
  }

  /** Folding both sides to lower case finds exactly the case-insensitive
      occurrences. */
  lemma {:induction false} ContainsIgnoringCaseAgrees(haystack: string, needle: string)
    ensures ContainsIgnoringCase(haystack, needle) <==> HasSubstringIgnoringCase(haystack, needle)
  {
    var h, n := LowerStr(haystack), LowerStr(needle);
    if ContainsIgnoringCase(haystack, needle) {
      var i :| 0 <= i <= |h| - |n| && OccursAt(h, n, i);
      OccursAtAgrees(haystack, needle, i);
    }
    if HasSubstringIgnoringCase(haystack, needle) {
      var i :| 0 <= i <= |haystack| - |needle| && MatchesAt(haystack, needle, i);
      OccursAtAgrees(haystack, needle, i);
    }
  }

  /** A given keyword matches iff it is empty or occurs, up to letter case,
      in the name or in the description. */
  lemma KeywordMatchesAgrees(k: string, t: Tool)
    ensures KeywordMatches(Some(k), t) <==>
      k == "" || HasSubstringIgnoringCase(t.name, k) || HasSubstringIgnoringCase(t.description, k)
  {
    ContainsIgnoringCaseAgrees(t.name, k);
    ContainsIgnoringCaseAgrees(t.description, k);
  }

  /** The filters pass exactly the tools the WHERE clause selects. */
  lemma PassesFiltersAgrees(req: MembershipRequest, t: Tool)
    ensures PassesFilters(req, t) <==> SelectedBy(req, t)
  {
    if req.keyword.Some? {
      KeywordMatchesAgrees(req.keyword.value, t);
    }
  }

  /** Matching ignores the case of the keyword: two keywords that differ
      only in the case of letters select the same tools. */
  lemma KeywordCaseIrrelevant(k1: string, k2: string, t: Tool)
    requires |k1| == |k2| && forall j :: 0 <= j < |k1| ==> SameLetterIgnoringCase(k1[j], k2[j])
    ensures KeywordMatches(Some(k1), t) == KeywordMatches(Some(k2), t)
  {
    forall j | 0 <= j < |k1| ensures LowerStr(k1)[j] == LowerStr(k2)[j] {
      LowerAgrees(k1[j], k2[j]);
    }
    assert LowerStr(k1) == LowerStr(k2);
  }

  /** A tool whose name contains the keyword verbatim passes the keyword filter. */
  lemma NameContainingKeywordMatches(k: string, t: Tool, i: nat)
    requires i + |k| <= |t.name| && t.name[i..i + |k|] == k
    ensures KeywordMatches(Some(k), t)
  {
    var h, n := LowerStr(t.name), LowerStr(k);
    assert h[i..i + |n|] == n by {
      forall j | 0 <= j < |n| ensures h[i + j] == n[j] {
        assert t.name[i + j] == k[j];
      }
    }
    assert OccursAt(h, n, i);
  }

  // ---------------------------------------------------------------------
  // Ordering by name
  // ---------------------------------------------------------------------

  /** `ORDER BY name`: lexicographic order on character codes. */
  predicate NameLe(a: string, b: string) {
    if |a| == 0 then true
    else if |b| == 0 then false
    else if a[0] != b[0] then a[0] < b[0]
    else NameLe(a[1..], b[1..])
  }

  lemma {:induction false} NameLeTotal(a: string, b: string)
    ensures NameLe(a, b) || NameLe(b, a)
  {
    if |a| > 0 && |b| > 0 && a[0] == b[0] {
      NameLeTotal(a[1..], b[1..]);
    }
  }

  lemma {:induction false} NameLeTransitive(a: string, b: string, c: string)
    requires NameLe(a, b) && NameLe(b, c)
    ensures NameLe(a, c)
  {
    if |a| > 0 && |b| > 0 && |c| > 0 && a[0] == b[0] == c[0] {
      NameLeTransitive(a[1..], b[1..], c[1..]);
    }
  }

  /** Non-decreasing by name. */
  predicate SortedByName(s: seq<Tool>) {
    forall i, j :: 0 <= i < j < |s| ==> NameLe(s[i].name, s[j].name)
  }

  lemma SortedCons(t: Tool, s: seq<Tool>)
    requires SortedByName(s)
    requires forall u :: u in s ==> NameLe(t.name, u.name)
    ensures SortedByName([t] + s)
  {
    var r := [t] + s;
    forall i, j | 0 <= i < j < |r| ensures NameLe(r[i].name, r[j].name) {
      assert r[j] == s[j - 1];
      if i > 0 {
        assert r[i] == s[i - 1];
      }
    }
  }

  lemma SortedHeadLeast(s: seq<Tool>)
    requires SortedByName(s) && s != []
    ensures forall u :: u in s ==> NameLe(s[0].name, u.name)
  {
    forall u | u in s ensures NameLe(s[0].name, u.name) {
      var k :| 0 <= k < |s| && s[k] == u;
      if k == 0 {
        NameLeTotal(u.name, u.name);
      }
    }
  }

  lemma InsertAtFront(t: Tool, s: seq<Tool>)
    requires SortedByName(s) && s != [] && NameLe(t.name, s[0].name)
    ensures SortedByName([t] + s)
  {
    SortedHeadLeast(s);
    forall u | u in s ensures NameLe(t.name, u.name) {
      NameLeTransitive(t.name, s[0].name, u.name);
    }
    SortedCons(t, s);
  }

  lemma InsertBehind(t: Tool, s: seq<Tool>, rest: seq<Tool>)
    requires SortedByName(s) && s != [] && !NameLe(t.name, s[0].name)
    requires SortedByName(rest) && multiset(rest) == multiset(s[1..]) + multiset{t}
    ensures SortedByName([s[0]] + rest)
  {
    NameLeTotal(t.name, s[0].name);
    SortedHeadLeast(s);
    forall u | u in rest ensures NameLe(s[0].name, u.name) {
      assert u in multiset(rest);
      if u != t {
        assert u in multiset(s[1..]);
        assert u in s;
      }
    }
    SortedCons(s[0], rest);
  }

  function InsertByName(t: Tool, s: seq<Tool>): (r: seq<Tool>)
    requires SortedByName(s)
    ensures SortedByName(r)
    ensures multiset(r) == multiset(s) + multiset{t}
  {
    if s == [] then [t]
    else if NameLe(t.name, s[0].name) then
      InsertAtFront(t, s);
      [t] + s
    else
      var rest := InsertByName(t, s[1..]);
      InsertBehind(t, s, rest);
      assert s == [s[0]] + s[1..];
      [s[0]] + rest
  }

  /** The order the database returns rows in. Rows with equal names may come
      in any order; only sortedness and the multiset of rows are promised. */
  function SortByName(s: seq<Tool>): (r: seq<Tool>)
    ensures SortedByName(r)
    ensures multiset(r) == multiset(s)
    ensures |r| == |s|
    ensures forall t :: t in r <==> t in s
  {
    if s == [] then []
    else
      assert s == [s[0]] + s[1..];
      var r := InsertByName(s[0], SortByName(s[1..]));
      assert forall t :: t in r <==> t in multiset(r);
      assert forall t :: t in s <==> t in multiset(s);
      r
  }

  lemma {:induction false} NameLeAntisymmetric(a: string, b: string)
    requires NameLe(a, b) && NameLe(b, a)
    ensures a == b
  {
    if |a| > 0 && |b| > 0 {
      NameLeAntisymmetric(a[1..], b[1..]);
      assert a == [a[0]] + a[1..] && b == [b[0]] + b[1..];
    }
  }

  /** No two rows share a name. */
  predicate DistinctNames(s: seq<Tool>) {
    forall i, j :: 0 <= i < j < |s| ==> s[i].name != s[j].name
  }

  /** When no two rows share a name, ordering by name leaves no choice: any
      two name-sorted arrangements of the same rows are equal. */
  lemma {:induction false} SortedArrangementUnique(s1: seq<Tool>, s2: seq<Tool>)
    requires SortedByName(s1) && SortedByName(s2) && multiset(s1) == multiset(s2)
    requires DistinctNames(s1)
    ensures s1 == s2
  {
    assert |s1| == |multiset(s1)| == |multiset(s2)| == |s2|;
    if s1 != [] {
      SameLeastRow(s1, s2);
      TailsAgree(s1, s2);
      SortedArrangementUnique(s1[1..], s2[1..]);
      assert s1 == [s1[0]] + s1[1..] && s2 == [s2[0]] + s2[1..];
    }
  }

  /** Dropping the common first row keeps both arrangements sorted, of the
      same rows, and the names distinct. */
  lemma TailsAgree(s1: seq<Tool>, s2: seq<Tool>)
    requires SortedByName(s1) && SortedByName(s2) && multiset(s1) == multiset(s2)
    requires DistinctNames(s1) && s1 != [] && s2 != [] && s1[0] == s2[0]
    ensures SortedByName(s1[1..]) && SortedByName(s2[1..]) && DistinctNames(s1[1..])
    ensures multiset(s1[1..]) == multiset(s2[1..])
  {
    SortedTail(s1);
    SortedTail(s2);
    DistinctTail(s1);
    MultisetTail(s1);
    MultisetTail(s2);
  }

  lemma DistinctTail(s: seq<Tool>)
    requires DistinctNames(s) && s != []
    ensures DistinctNames(s[1..])
  {
    var t := s[1..];
    forall i, j | 0 <= i < j < |t| ensures t[i].name != t[j].name {
      assert t[i] == s[i + 1] && t[j] == s[j + 1];
    }
  }

  lemma MultisetTail(s: seq<Tool>)
    requires s != []
    ensures multiset(s[1..]) == multiset(s) - multiset{s[0]}
  {
    assert s == [s[0]] + s[1..];
  }

  lemma SortedTail(s: seq<Tool>)
    requires SortedByName(s) && s != []
    ensures SortedByName(s[1..])
  {
    var t := s[1..];
    forall i, j | 0 <= i < j < |t| ensures NameLe(t[i].name, t[j].name) {
      assert t[i] == s[i + 1] && t[j] == s[j + 1];
    }
  }

  /** The two arrangements start with the same row. */
  lemma SameLeastRow(s1: seq<Tool>, s2: seq<Tool>)
    requires SortedByName(s1) && SortedByName(s2) && multiset(s1) == multiset(s2)
    requires DistinctNames(s1) && s1 != [] && s2 != []
    ensures s1[0] == s2[0]
  {
    var a, b := s1[0], s2[0];
    assert b in multiset(s1) && a in multiset(s2);
    var k :| 0 <= k < |s1| && s1[k] == b;
    var m :| 0 <= m < |s2| && s2[m] == a;
    NameLeRefl(a.name);
    assert NameLe(a.name, b.name);
    assert NameLe(b.name, a.name);
    NameLeAntisymmetric(a.name, b.name);
    assert k == 0;
  }

  lemma {:induction false} NameLeRefl(a: string)
    ensures NameLe(a, a)
  {
    if |a| > 0 {
      NameLeRefl(a[1..]);
    }
  }

  /** With distinct names, every name-sorted arrangement the database may
      return for a request is the one this model pages through, so separate
      page requests slice one and the same order. */
  lemma AnyNameOrderIsSortByName(rows: seq<Tool>, ordered: seq<Tool>)
    requires SortedByName(ordered) && multiset(ordered) == multiset(rows)
    requires DistinctNames(SortByName(rows))
    ensures ordered == SortByName(rows)
  {
    SortedArrangementUnique(SortByName(rows), ordered);
  }

  /** Two tools with the same name admit two name-sorted arrangements, so a
      page boundary between them is not fixed by `ORDER BY name`. */
  lemma EqualNamesAdmitTwoOrders()
    ensures var t1, t2 := Tool(1, "same", "", Active, None), Tool(2, "same", "", Active, None);
      && SortedByName([t1, t2]) && SortedByName([t2, t1])
      && multiset([t1, t2]) == multiset([t2, t1]) && [t1, t2] != [t2, t1]
  {
    NameLeRefl("same");
  }

  // ---------------------------------------------------------------------
  // The filtered result sets, before paging
  // ---------------------------------------------------------------------

  /** The number of binding rows (agent, id). */
  function BindingCount(bindings: seq<Binding>, agent: string, id: ToolId): (n: nat)
    ensures n > 0 <==> id in BoundIds(bindings, agent)
    ensures UniquePairs(bindings) ==> n <= 1
  {
    if bindings == [] then 0
    else
      assert bindings == [bindings[0]] + bindings[1..];
      NoDupsCons(bindings[0], bindings[1..]);
      var rest := BindingCount(bindings[1..], agent, id);
      assert BoundIds(bindings, agent) == BoundIds([bindings[0]], agent) + BoundIds(bindings[1..], agent);
      (if bindings[0] == Binding(agent, id) then 1 else 0) + rest
  }

  /** `n` copies of one row. */
  function Copies(t: Tool, n: nat): (r: seq<Tool>)
    ensures |r| == n
    ensures forall u :: u in r <==> n > 0 && u == t
  {
    if n == 0 then [] else [t] + Copies(t, n - 1)
  }

  /** The tools joined with the agent's binding rows (one copy of a tool per
      matching row) and restricted by the filters: the rows the bound query
      counts and orders. */
  function BoundCandidates(tools: seq<Tool>, bindings: seq<Binding>, req: MembershipRequest): (r: seq<Tool>)
    ensures forall t :: t in r <==> t in tools && PassesFilters(req, t) && t.id in BoundIds(bindings, req.agentId)
  {
    if tools == [] then []
    else
      var t := tools[0];
      var copies := if PassesFilters(req, t) then BindingCount(bindings, req.agentId, t.id) else 0;
      var rest := BoundCandidates(tools[1..], bindings, req);
      assert forall u :: u in tools <==> u == t || u in tools[1..];
      Copies(t, copies) + rest
  }

  /** The unbound query's row condition: passes the filters and its id is
      `NOT IN` the agent's bound ids. */
  function KeepUnbound(bindings: seq<Binding>, req: MembershipRequest): Tool -> bool {
    (t: Tool) => PassesFilters(req, t) && t.id !in BoundIds(bindings, req.agentId)
  }

  /** The filter condition alone, whatever the binding. */
  function KeepFiltered(req: MembershipRequest): Tool -> bool {
    (t: Tool) => PassesFilters(req, t)
  }

  /** The ACTIVE, filter-passing tools whose id is not among the agent's bindings. */
  function UnboundCandidates(tools: seq<Tool>, bindings: seq<Binding>, req: MembershipRequest): (r: seq<Tool>)
    ensures forall t :: t in r <==> t in tools && PassesFilters(req, t) && t.id !in BoundIds(bindings, req.agentId)
  {
    Filter(tools, KeepUnbound(bindings, req))
  }

  /** All ACTIVE tools that pass the filters, whatever their binding. */
  function FilteredActive(tools: seq<Tool>, req: MembershipRequest): (r: seq<Tool>)
    ensures forall t :: t in r <==> t in tools && PassesFilters(req, t)
    ensures UniqueToolIds(tools) ==> NoDups(r)
  {
    Filter(tools, KeepFiltered(req))
  }

  /** The whole bound result, in name order. */
  function BoundResult(tools: seq<Tool>, bindings: seq<Binding>, req: MembershipRequest): (r: seq<Tool>)
    ensures SortedByName(r)
    ensures forall t :: t in r <==> t in tools && PassesFilters(req, t) && t.id in BoundIds(bindings, req.agentId)
  {
    SortByName(BoundCandidates(tools, bindings, req))
  }

  /** The whole unbound result, in name order. */
  function UnboundResult(tools: seq<Tool>, bindings: seq<Binding>, req: MembershipRequest): (r: seq<Tool>)
    ensures SortedByName(r)
    ensures forall t :: t in r <==> t in tools && PassesFilters(req, t) && t.id !in BoundIds(bindings, req.agentId)
  {
    SortByName(UnboundCandidates(tools, bindings, req))
  }

  /** The bound result holds exactly the catalogue tools the WHERE clause
      selects and the agent has a binding row for. */
  lemma BoundResultSelects(tools: seq<Tool>, bindings: seq<Binding>, req: MembershipRequest, t: Tool)
    ensures t in BoundResult(tools, bindings, req) <==>
      t in tools && SelectedBy(req, t) && Binding(req.agentId, t.id) in bindings
  {
    PassesFiltersAgrees(req, t);
    BoundIdsMembership(bindings, req.agentId);
  }

  /** The unbound result holds exactly the catalogue tools the WHERE clause
      selects and the agent has no binding row for. */
  lemma UnboundResultSelects(tools: seq<Tool>, bindings: seq<Binding>, req: MembershipRequest, t: Tool)
    ensures t in UnboundResult(tools, bindings, req) <==>
      t in tools && SelectedBy(req, t) && Binding(req.agentId, t.id) !in bindings
  {
    PassesFiltersAgrees(req, t);
    BoundIdsMembership(bindings, req.agentId);
  }

  /** With the unique (agent, tool) index, the join yields each bound tool
      once, so the bound and unbound row counts add up to the filtered ACTIVE
      tools. */
  lemma {:induction false} CandidateCounts(tools: seq<Tool>, bindings: seq<Binding>, req: MembershipRequest)
    requires UniquePairs(bindings)
    ensures |BoundCandidates(tools, bindings, req)| + |UnboundCandidates(tools, bindings, req)|
         == |FilteredActive(tools, req)|
  {
    if tools != [] {
      CandidateCounts(tools[1..], bindings, req);
    }
  }

  /** The complement relation: for one agent and one filter, the bound and
      unbound results never share a tool, together hold exactly the ACTIVE
      tools passing the filter, and their sizes add up to that set's size. */
  lemma BoundUnboundPartition(tools: seq<Tool>, bindings: seq<Binding>, req: MembershipRequest)
    requires StoreInvariant(tools, bindings)
    ensures Elems(BoundResult(tools, bindings, req)) !! Elems(UnboundResult(tools, bindings, req))
    ensures Elems(BoundResult(tools, bindings, req)) + Elems(UnboundResult(tools, bindings, req))
         == Elems(FilteredActive(tools, req))
    ensures |BoundResult(tools, bindings, req)| + |UnboundResult(tools, bindings, req)|
         == |Elems(FilteredActive(tools, req))|
    ensures |BoundResult(tools, bindings, req)| == |Elems(BoundResult(tools, bindings, req))|
    ensures |UnboundResult(tools, bindings, req)| == |Elems(UnboundResult(tools, bindings, req))|
  {
    var b, u, f := BoundResult(tools, bindings, req), UnboundResult(tools, bindings, req), FilteredActive(tools, req);
    CandidateCounts(tools, bindings, req);
    NoDupsLength(f);
    assert Elems(b) + Elems(u) == Elems(f);
    assert |Elems(b) + Elems(u)| == |Elems(b)| + |Elems(u)|;
    ElemsLength(b);
    ElemsLength(u);
  }

  // ---------------------------------------------------------------------
  // Paging
  // ---------------------------------------------------------------------

  lemma CeilingDivision(total: nat, size: int)
    requires size > 0
    ensures ((total + size - 1) / size - 1) * size < total <= ((total + size - 1) / size) * size
  {
    var q, r := (total + size - 1) / size, (total + size - 1) % size;
    assert total + size - 1 == q * size + r;
    assert (q - 1) * size == q * size - size;
  }

  /** `totalPages`: the ceiling of totalElements / size, and 0 when size is not positive. */
  function TotalPages(totalElements: nat, size: int): (n: nat)
    ensures size > 0 ==> (n - 1) * size < totalElements <= n * size
    ensures size > 0 ==> (n == 0 <==> totalElements == 0)
    ensures size <= 0 ==> n == 0
  {
    if size > 0 then
      CeilingDivision(totalElements, size);
      (totalElements + size - 1) / size
    else 0
  }

  /** The number of rows skipped before a page, counted up page by page. */
  function Offset(page: int, size: int): (o: nat)
    requires ValidPaging(page, size)
    ensures o == 0 <==> page == 1
    ensures page > 1 ==> o >= size
    decreases page
  {
    if page == 1 then 0 else Offset(page - 1, size) + size
  }

  /** The offset is the source's `(page - 1) * size`. */
  lemma {:induction false} OffsetIsProduct(page: int, size: int)
    requires ValidPaging(page, size)
    ensures Offset(page, size) == (page - 1) * size
  {
    if page > 1 {
      OffsetIsProduct(page - 1, size);
      assert (page - 1) * size == (page - 2) * size + size;
    }
  }

  /** `OFFSET (page - 1) * size LIMIT size` over the ordered result. */
  function PageSlice(full: seq<Tool>, page: int, size: int): (r: seq<Tool>)
    requires ValidPaging(page, size)
    ensures |r| <= size
    ensures Offset(page, size) >= |full| ==> r == []
    ensures Offset(page, size) < |full| ==> |r| == if |full| - Offset(page, size) < size then |full| - Offset(page, size) else size
    ensures forall i :: 0 <= i < |r| ==> Offset(page, size) + i < |full| && r[i] == full[Offset(page, size) + i]
  {
    var offset := Offset(page, size);
    if offset >= |full| then []
    else if offset + size <= |full| then full[offset..offset + size]
    else full[offset..]
  }

  lemma MulLeft(a: int, b: int, size: int)
    requires size > 0
    ensures a < b <==> a * size < b * size
  {
    if a < b {
      assert b * size - a * size == (b - a) * size;
    } else {
      assert a * size - b * size == (a - b) * size;
    }
  }

  /** Where a page stands against the page count, for a count that is the
      ceiling of total / size. */
  lemma PageAgainstCount(total: nat, size: int, pages: nat, page: int)
    requires ValidPaging(page, size)
    requires (pages - 1) * size < total <= pages * size
    ensures Offset(page + 1, size) >= total <==> page >= pages
    ensures Offset(page, size) < total <==> page <= pages
  {
    OffsetIsProduct(page, size);
    OffsetIsProduct(page + 1, size);
    assert (page + 1 - 1) * size == page * size;
    MulLeft(page, pages, size);
    MulLeft(pages - 1, page, size);
    MulLeft(pages - 1, page - 1, size);
    MulLeft(page - 1, pages, size);
  }

  /** Builds `BindingPaginatedData` for one page of an ordered result. */
  function MakePage(full: seq<Tool>, page: int, size: int): (p: BindingPaginatedData)
    requires ValidPaging(page, size)
    ensures p.content == PageSlice(full, page, size)
    ensures p.page == page && p.size == size
    ensures p.totalElements == |full|
    ensures p.totalPages == TotalPages(|full|, size)
    ensures (p.totalPages - 1) * size < |full| <= p.totalPages * size
    ensures p.first <==> page == 1
    ensures p.last <==> PageSlice(full, page + 1, size) == []
    ensures p.content != [] <==> page <= p.totalPages
  {
    var total := |full|;
    var pages := TotalPages(total, size);
    PageAgainstCount(total, size, pages, page);
    BindingPaginatedData(
      PageSlice(full, page, size),
      page,
      size,
      total,
      pages,
      page == 1,
      if pages > 0 then page >= pages else true)
  }

  /** Pages 1..k of an ordered result, one after the other. */
  function PagesUpTo(full: seq<Tool>, size: int, k: nat): seq<Tool>
    requires size > 0
  {
    if k == 0 then [] else PagesUpTo(full, size, k - 1) + PageSlice(full, k, size)
  }

  /** A prefix ending where page k starts, followed by page k, is the prefix
      ending where page k ends. */
  lemma PrefixThenPage(full: seq<Tool>, k: int, size: int)
    requires ValidPaging(k, size) && Offset(k, size) <= |full|
    ensures var off := Offset(k, size);
      full[..off] + PageSlice(full, k, size) == full[..if off + size <= |full| then off + size else |full|]
  {
    var off := Offset(k, size);
    var hi := if off + size <= |full| then off + size else |full|;
    assert PageSlice(full, k, size) == full[off..hi];
  }

  lemma {:induction false} PagesUpToPrefix(full: seq<Tool>, size: int, k: nat)
    requires size > 0
    ensures Offset(k + 1, size) <= |full| ==> PagesUpTo(full, size, k) == full[..Offset(k + 1, size)]
    ensures Offset(k + 1, size) > |full| ==> PagesUpTo(full, size, k) == full
  {
    if k > 0 {
      PagesUpToPrefix(full, size, k - 1);
      var off := Offset(k, size);
      assert Offset(k + 1, size) == off + size;
      if off > |full| {
        assert PagesUpTo(full, size, k) == full + [];
      } else {
        PrefixThenPage(full, k, size);
        assert full[..|full|] == full;
      }
    }
  }

  /** Reading pages 1..totalPages in turn returns the whole result exactly once. */
  lemma AllPagesCoverResult(full: seq<Tool>, size: int)
    requires size > 0
    ensures PagesUpTo(full, size, TotalPages(|full|, size)) == full
  {
    var pages := TotalPages(|full|, size);
    PagesUpToPrefix(full, size, pages);
    OffsetIsProduct(pages + 1, size);
    assert (pages + 1 - 1) * size == pages * size;
    assert full[..|full|] == full;
  }

  /** An empty result gives no pages, an empty page, and the last flag. */
  lemma EmptyResultPage(page: int, size: int)
    requires ValidPaging(page, size)
    ensures var p := MakePage([], page, size);
      p.totalPages == 0 && p.last && p.content == [] && p.totalElements == 0 && (p.first <==> page == 1)
  {
  }

  // ---------------------------------------------------------------------
  // The two queries
  // ---------------------------------------------------------------------

  /** `query_bound_tools`. */
  function QueryBound(tools: seq<Tool>, bindings: seq<Binding>, req: MembershipRequest): (p: BindingPaginatedData)
    requires ValidMembershipRequest(req)
    ensures p.totalElements == |BoundResult(tools, bindings, req)|
    ensures p.page == req.page && p.size == req.size
    ensures p.content == PageSlice(BoundResult(tools, bindings, req), req.page, req.size)
    ensures SortedByName(p.content) && |p.content| <= req.size
    ensures forall t :: t in p.content ==>
      t in tools && PassesFilters(req, t) && t.id in BoundIds(bindings, req.agentId)
    ensures p.totalPages == TotalPages(p.totalElements, req.size)
    ensures p.first <==> req.page == 1
    ensures p.last <==> PageSlice(BoundResult(tools, bindings, req), req.page + 1, req.size) == []
  {
    BoundPageMembers(tools, bindings, req);
    MakePage(BoundResult(tools, bindings, req), req.page, req.size)
  }

  lemma BoundPageMembers(tools: seq<Tool>, bindings: seq<Binding>, req: MembershipRequest)
    requires ValidMembershipRequest(req)
    ensures SortedByName(PageSlice(BoundResult(tools, bindings, req), req.page, req.size))
    ensures forall t :: t in PageSlice(BoundResult(tools, bindings, req), req.page, req.size) ==>
      t in tools && PassesFilters(req, t) && t.id in BoundIds(bindings, req.agentId)
  {
    SlicePreservesOrder(BoundResult(tools, bindings, req), req.page, req.size);
  }

  /** `query_unbound_tools`. */
  function QueryUnbound(tools: seq<Tool>, bindings: seq<Binding>, req: MembershipRequest): (p: BindingPaginatedData)
    requires ValidMembershipRequest(req)
    ensures p.totalElements == |UnboundResult(tools, bindings, req)|
    ensures p.page == req.page && p.size == req.size
    ensures p.content == PageSlice(UnboundResult(tools, bindings, req), req.page, req.size)
    ensures SortedByName(p.content) && |p.content| <= req.size
    ensures forall t :: t in p.content ==>
      t in tools && PassesFilters(req, t) && t.id !in BoundIds(bindings, req.agentId)
    ensures p.totalPages == TotalPages(p.totalElements, req.size)
    ensures p.first <==> req.page == 1
    ensures p.last <==> PageSlice(UnboundResult(tools, bindings, req), req.page + 1, req.size) == []
  {
    UnboundPageMembers(tools, bindings, req);
    MakePage(UnboundResult(tools, bindings, req), req.page, req.size)
  }

  lemma UnboundPageMembers(tools: seq<Tool>, bindings: seq<Binding>, req: MembershipRequest)
    requires ValidMembershipRequest(req)
    ensures SortedByName(PageSlice(UnboundResult(tools, bindings, req), req.page, req.size))
    ensures forall t :: t in PageSlice(UnboundResult(tools, bindings, req), req.page, req.size) ==>
      t in tools && PassesFilters(req, t) && t.id !in BoundIds(bindings, req.agentId)
  {
    SlicePreservesOrder(UnboundResult(tools, bindings, req), req.page, req.size);
  }

  lemma SlicePreservesOrder(full: seq<Tool>, page: int, size: int)
    requires ValidPaging(page, size) && SortedByName(full)
    ensures SortedByName(PageSlice(full, page, size))
    ensures forall t :: t in PageSlice(full, page, size) ==> t in full
  {
    var r := PageSlice(full, page, size);
    var off := Offset(page, size);
    if off < |full| {
      var hi := if off + size <= |full| then off + size else |full|;
      assert r == full[off..hi];
      forall i, j | 0 <= i < j < |r| ensures NameLe(r[i].name, r[j].name) {
        assert r[i] == full[off + i] && r[j] == full[off + j];
      }
    }
  }

  /** The two queries' totals add up to the number of ACTIVE tools passing
      the filter, for every agent and filter. */
  lemma QueryTotalsPartition(tools: seq<Tool>, bindings: seq<Binding>, req: MembershipRequest)
    requires StoreInvariant(tools, bindings) && ValidMembershipRequest(req)
    ensures QueryBound(tools, bindings, req).totalElements + QueryUnbound(tools, bindings, req).totalElements
         == |set t | t in tools && PassesFilters(req, t)|
  {
    BoundUnboundPartition(tools, bindings, req);
    assert Elems(FilteredActive(tools, req)) == set t | t in tools && PassesFilters(req, t);
  }
}
