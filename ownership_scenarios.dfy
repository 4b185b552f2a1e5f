/** A worked example of the network endpoint: company A is owned 40% by B, and
    B 50% by C. With a 25% threshold the indirect path through B scores 0.2 and
    is dropped, so the network holds A and B only. The example is checked for
    both listings of the path's nodes, target first and owner first: the nodes
    come out the same, and the one edge runs from the listing's first node to
    its second. */
module OwnershipScenarios {
  import opened Options
  import opened Entities
  import opened Sequences
  import opened Sorting
  import opened FirstSeen
  import opened OwnershipQuery
  import opened OwnershipNetwork

  function Alpha(): Entity { Entity("A", "Alpha", Some("Corporation")) }
  function Beta(): Entity { Entity("B", "Beta", Some("Corporation")) }
  function Gamma(): Entity { Entity("C", "Gamma", Some("Person")) }

  /** B's direct 40% stake, listed target first or owner first. */
  function Direct(targetFirst: bool): MatchedPath
  {
    MatchedPath(Beta(), if targetFirst then [Alpha(), Beta()] else [Beta(), Alpha()],
                [Relationship(Some(40.0), None)])
  }

  /** C's stake in A through B; the relationships follow the node listing. */
  function Indirect(targetFirst: bool): MatchedPath
  {
    if targetFirst then
      MatchedPath(Gamma(), [Alpha(), Beta(), Gamma()], [Relationship(Some(40.0), None), Relationship(Some(50.0), None)])
    else
      MatchedPath(Gamma(), [Gamma(), Beta(), Alpha()], [Relationship(Some(50.0), None), Relationship(Some(40.0), None)])
  }

  lemma ScenarioRows(targetFirst: bool)
    ensures QueryRows(Some(Alpha()), [Direct(targetFirst), Indirect(targetFirst)], 25.0)
         == [MakeRow(Alpha(), Direct(targetFirst))]
  {
    var direct, indirect := Direct(targetFirst), Indirect(targetFirst);
    var cands := CandidateRows(Alpha(), [direct, indirect]);
    assert cands == [MakeRow(Alpha(), direct), MakeRow(Alpha(), indirect)];
    assert EffectiveControl(indirect.rels) == 0.2 by {
      assert indirect.rels[..1][..0] == [];
    }
    assert EffectiveControl(direct.rels) == 0.4 by {
      assert direct.rels[..0] == [];
    }
    var kept := Filter(cands, r => RowSurvives(25.0, r));
    assert kept == [MakeRow(Alpha(), direct)];
    RowBeforeIsTotalPreorder();
    SortBySorted(kept, RowBefore);
  }

  lemma ScenarioMentions(targetFirst: bool)
    ensures var row := MakeRow(Alpha(), Direct(targetFirst));
      && Mentions("A", [row])
         == [Node("A", "Alpha", "Corporation", 0), Node("B", "Beta", "Corporation", 1)]
            + (if targetFirst then [Node("A", "Alpha", "Corporation", 1), Node("B", "Beta", "Corporation", 0)]
               else [Node("B", "Beta", "Corporation", 1), Node("A", "Alpha", "Corporation", 0)])
      && CandidateEdges([row], 25.0)
         == [if targetFirst then Edge("A", "B", 40.0, None) else Edge("B", "A", 40.0, None)]
  {
    var rows := [MakeRow(Alpha(), Direct(targetFirst))];
    assert PairCount(rows[0]) == 1;
    assert rows[..0] == [];
    assert RowsMentions(rows) == RowMentions(rows[0]);
    assert PairMentions(rows[0], 1) == [SourceNode(rows[0], 0), PairTargetNode(rows[0], 0)];
    assert CandidateEdges(rows, 25.0) == PairEdges(rows[0], 25.0, 1);
  }

  lemma ScenarioNodes(later: seq<Node>)
    requires |later| == 2 && later[0].id in {"A", "B"} && later[1].id in {"A", "B"}
    ensures FirstOccurrences([Node("A", "Alpha", "Corporation", 0), Node("B", "Beta", "Corporation", 1)] + later, NodeId)
         == [Node("A", "Alpha", "Corporation", 0), Node("B", "Beta", "Corporation", 1)]
  {
    var na, nb := Node("A", "Alpha", "Corporation", 0), Node("B", "Beta", "Corporation", 1);
    FirstOccurrencesSnoc([], na, NodeId);
    assert [] + [na] == [na];
    FirstOccurrencesSnoc([na], nb, NodeId);
    KeysSnoc([na], nb, NodeId);
    FirstOccurrencesSnoc([na, nb], later[0], NodeId);
    KeysSnoc([na, nb], later[0], NodeId);
    FirstOccurrencesSnoc([na, nb, later[0]], later[1], NodeId);
    assert [na] + [nb] == [na, nb] && [na, nb] + [later[0]] == [na, nb, later[0]];
    assert [na, nb, later[0]] + [later[1]] == [na, nb] + later;
  }

  /** The network of the example: A at level 0 and B at level 1, and the
      single 40% edge between them, whichever way round the path is listed. */
  lemma ScenarioNetwork(targetFirst: bool)
    ensures var net := NetworkOf("A", QueryRows(Some(Alpha()), [Direct(targetFirst), Indirect(targetFirst)], 25.0), 25.0);
      && net.nodes == [Node("A", "Alpha", "Corporation", 0), Node("B", "Beta", "Corporation", 1)]
      && net.edges == [if targetFirst then Edge("A", "B", 40.0, None) else Edge("B", "A", 40.0, None)]
      && net.totalNodes == 2 && net.totalEdges == 1
  {
    ScenarioRows(targetFirst);
    ScenarioMentions(targetFirst);
    var later := if targetFirst then [Node("A", "Alpha", "Corporation", 1), Node("B", "Beta", "Corporation", 0)]
                 else [Node("B", "Beta", "Corporation", 1), Node("A", "Alpha", "Corporation", 0)];
    ScenarioNodes(later);
    var e := if targetFirst then Edge("A", "B", 40.0, None) else Edge("B", "A", 40.0, None);
    FirstOccurrencesSnoc([], e, EdgeKey);
    assert [] + [e] == [e];
  }
}
