/** A worked scenario of the binding API on a three-tool catalogue: two ACTIVE
    tools A and B and an INACTIVE tool C. */
module BindingScenario {
  import opened Wrappers
  import opened Sequences
  import opened BindingModel
  import opened BindingSchemas
  import opened BindingQueries
  import opened AgentBinding

  const A: Tool := Tool(1, "alpha", "first tool", Active, None)
  const B: Tool := Tool(2, "beta", "second tool", Active, None)
  const C: Tool := Tool(3, "gamma", "retired tool", Inactive, None)

  function Catalogue(): seq<Tool> { [A, B, C] }

  function Everything(agent: string): MembershipRequest {
    MembershipRequest(agent, None, None, 1, 10)
  }

  /** A and B are the catalogue's ACTIVE tools. */
  lemma CatalogueActiveIds()
    ensures ActiveIds(Catalogue()) == {1, 2}
  {
    var tools := Catalogue();
    assert A in tools && B in tools;
    forall id | id in ActiveIds(tools) ensures id == 1 || id == 2 {
      var t :| t in tools && t.id == id && t.status == Active;
    }
  }

  /** Binding [A, C] is refused with C as the only invalid id, and the
      binding table is left as it was. */
  lemma BindWithInactiveToolFails()
    ensures BindSpec(Catalogue(), [], BindToolsRequest("a1", [1, 3])) == BindStep(Failure(InvalidToolIds({3})), [])
  {
    CatalogueActiveIds();
    assert Elems([1, 3]) == {1, 3};
    assert Dedup([1, 3]) == [1, 3];
    assert InvalidIds(Catalogue(), [1, 3]) == {3};
  }

  /** Binding [A] succeeds and stores the single row (a1, A). */
  lemma BindActiveToolSucceeds()
    ensures var s := BindSpec(Catalogue(), [], BindToolsRequest("a1", [1]));
      && s.result == Success(BindingResult("a1", 1, [1]))
      && s.bindings == [Binding("a1", 1)]
  {
    CatalogueActiveIds();
    assert Dedup([1]) == [1];
    assert RemoveAgent([], "a1") == [];
    assert RowsFor("a1", [1]) == [Binding("a1", 1)];
  }

  /** With A bound to a1, the bound query returns [A]. */
  lemma BoundQueryAfterBinding()
    ensures QueryBound(Catalogue(), [Binding("a1", 1)], Everything("a1")).content == [A]
  {
    var tools, bindings, req := Catalogue(), [Binding("a1", 1)], Everything("a1");
    assert BindingCount(bindings, "a1", 1) == 1;
    assert BindingCount(bindings, "a1", 3) == 0;
    assert BoundCandidates(tools, bindings, req) == [A];
    assert SortByName([A]) == [A];
    assert PageSlice([A], 1, 10) == [A];
  }

  /** The keyword "SECOND" occurs, in another case, in B's description. */
  lemma KeywordInDescription()
    ensures KeywordMatches(Some("SECOND"), B)
  {
    KeywordMatchesAgrees("SECOND", B);
    assert MatchesAt(B.description, "SECOND", 0);
  }

  /** The keyword "SECOND" occurs nowhere in A. */
  lemma KeywordNotInOtherTool()
    ensures !KeywordMatches(Some("SECOND"), A)
  {
    KeywordMatchesAgrees("SECOND", A);
    var h, n := A.description, "SECOND";
    assert h == "first tool" && n[0] == 'S' && n[1] == 'E';
    forall i | 0 <= i <= |h| - |n| ensures !MatchesAt(h, n, i) {
      if i == 3 {
        assert !SameLetterIgnoringCase(h[i + 1], n[1]);
      } else {
        assert !SameLetterIgnoringCase(h[i + 0], n[0]);
      }
    }
  }

  /** With A and B bound to a1, the keyword "SECOND" narrows the bound query to [B]. */
  lemma KeywordQueryAfterBinding()
    ensures QueryBound(Catalogue(), [Binding("a1", 1), Binding("a1", 2)],
                       MembershipRequest("a1", Some("SECOND"), None, 1, 10)).content == [B]
  {
    var tools, bindings := Catalogue(), [Binding("a1", 1), Binding("a1", 2)];
    var req := MembershipRequest("a1", Some("SECOND"), None, 1, 10);
    KeywordInDescription();
    KeywordNotInOtherTool();
    assert !PassesFilters(req, A) && PassesFilters(req, B) && !PassesFilters(req, C);
    assert BindingCount(bindings, "a1", 2) == 1;
    assert tools[1..] == [B, C] && [B, C][1..] == [C] && [C][1..] == [];
    assert BoundCandidates([C], bindings, req) == [];
    assert BoundCandidates([B, C], bindings, req) == [B];
    assert BoundCandidates(tools, bindings, req) == [B];
    assert SortByName([B]) == [B];
    assert Offset(1, 10) == 0;
    assert PageSlice([B], 1, 10) == [B];
  }

  /** With A bound to a1, the unbound rows are [B]; C is excluded, being INACTIVE. */
  lemma UnboundRowsAfterBinding()
    ensures UnboundCandidates(Catalogue(), [Binding("a1", 1)], Everything("a1")) == [B]
  {
    var tools, bindings, req := Catalogue(), [Binding("a1", 1)], Everything("a1");
    var keep := KeepUnbound(bindings, req);
    assert BoundIds(bindings, "a1") == {1};
    assert !keep(A) && keep(B) && !keep(C);
    assert tools[1..] == [B, C] && [B, C][1..] == [C] && [C][1..] == [];
    assert Filter([C], keep) == [];
    assert Filter([B, C], keep) == [B];
  }

  /** With A bound to a1, the unbound query returns [B]. */
  lemma UnboundQueryAfterBinding()
    ensures QueryUnbound(Catalogue(), [Binding("a1", 1)], Everything("a1")).content == [B]
  {
    var tools, bindings, req := Catalogue(), [Binding("a1", 1)], Everything("a1");
    UnboundRowsAfterBinding();
    assert SortByName([B]) == [B];
    assert UnboundResult(tools, bindings, req) == [B];
    assert Offset(1, 10) == 0;
    assert PageSlice([B], 1, 10) == [B];
  }
}
