/** Collapsing the query's ordered rows into the ownership network: the node
    dictionary and edge list built by the assembly loop, the edge dedup loop and
    the packaged result. Nodes and edges both follow the first-seen-wins
    policy of module FirstSeen. */
module OwnershipNetwork {
  import opened Options
  import opened Entities
  import opened FirstSeen
  import opened OwnershipQuery

  datatype Node = Node(id: string, name: string, nodeType: string, level: int)

  datatype Edge = Edge(source: string, target: string, percentage: real, votingRights: Option<real>)

  /** The response; the measured query time is not part of the model. */
  datatype Network = Network(nodes: seq<Node>, edges: seq<Edge>, totalNodes: int, totalEdges: int)

  function NodeId(n: Node): string { n.id }

  function EdgeKey(e: Edge): (string, string) { (e.source, e.target) }

  // ---------------------------------------------------------------------
  // What each row contributes, read off the row exactly as the loop does.
  // ---------------------------------------------------------------------

  /** The node the target is seeded with when some row exists. */
  function TargetNode(entityId: string, rows: seq<Row>): Node
    requires rows != []
  {
    Node(entityId, rows[0].companyName, "Corporation", 0)
  }

  function OwnerNode(r: Row): Node
  {
    Node(r.ownerId, r.ownerName, OrUnknown(r.ownerType), r.level)
  }

  /** The number of consecutive node pairs the loop visits: range(len - 1). */
  function PairCount(r: Row): nat
  {
    if |r.pathNodes| == 0 then 0 else |r.pathNodes| - 1
  }

  /** The source of pair `i`, at level `level - i`. */
  function SourceNode(r: Row, i: nat): Node
    requires i < PairCount(r)
  {
    var n := r.pathNodes[i];
    Node(n.id, n.name, OrUnknown(n.entityType), r.level - i)
  }

  /** The target of pair `i`, at level `level - i - 1`. */
  function PairTargetNode(r: Row, i: nat): Node
    requires i < PairCount(r)
  {
    var n := r.pathNodes[i + 1];
    Node(n.id, n.name, OrUnknown(n.entityType), r.level - i - 1)
  }

  /** Relationship `i`, or none when the list is too short (the `{}` default). */
  function RelationshipAt(r: Row, i: nat): Option<Relationship>
  {
    if i < |r.pathRels| then Some(r.pathRels[i]) else None
  }

  /** `relationship.get('percentage', 0)`. */
  function PercentageAt(r: Row, i: nat): Option<real>
  {
    match RelationshipAt(r, i)
    case Some(rel) => rel.percentage
    case None => Some(0.0)
  }

  /** `relationship.get('voting_rights')`. */
  function VotingRightsAt(r: Row, i: nat): Option<real>
  {
    match RelationshipAt(r, i)
    case Some(rel) => rel.votingRights
    case None => None
  }

  /** `percentage and percentage >= min_percentage`: present, nonzero (Python
      truthiness) and at least the threshold. */
  predicate EdgeQualifies(percentage: Option<real>, minPercentage: real)
  {
    percentage.Some? && percentage.value != 0.0 && percentage.value >= minPercentage
  }

  /** The edge pair `i` would produce. */
  function PairEdge(r: Row, i: nat): Edge
    requires i < PairCount(r)
  {
    Edge(r.pathNodes[i].id, r.pathNodes[i + 1].id, PercentageAt(r, i).GetOr(0.0), VotingRightsAt(r, i))
  }

  // ---------------------------------------------------------------------
  // The reference definition: every candidate node in visiting order, and
  // every candidate edge in appending order.
  // ---------------------------------------------------------------------

  /** Candidate nodes of the first `k` pairs: source then target of each. */
  function PairMentions(r: Row, k: nat): seq<Node>
    requires k <= PairCount(r)
  {
    if k == 0 then [] else PairMentions(r, k - 1) + [SourceNode(r, k - 1), PairTargetNode(r, k - 1)]
  }

  function RowMentions(r: Row): seq<Node>
  {
    [OwnerNode(r)] + PairMentions(r, PairCount(r))
  }

  function RowsMentions(rows: seq<Row>): seq<Node>
  {
    if rows == [] then [] else RowsMentions(rows[..|rows| - 1]) + RowMentions(rows[|rows| - 1])
  }

  function Seed(entityId: string, rows: seq<Row>): seq<Node>
  {
    if rows == [] then [] else [TargetNode(entityId, rows)]
  }

  /** Every node the assembly loop offers to the dictionary, in order. */
  function Mentions(entityId: string, rows: seq<Row>): seq<Node>
  {
    Seed(entityId, rows) + RowsMentions(rows)
  }

  function PairEdges(r: Row, minPercentage: real, k: nat): seq<Edge>
    requires k <= PairCount(r)
  {
    if k == 0 then []
    else PairEdges(r, minPercentage, k - 1)
         + (if EdgeQualifies(PercentageAt(r, k - 1), minPercentage) then [PairEdge(r, k - 1)] else [])
  }

  /** Every edge the assembly loop appends, before dedup. */
  function CandidateEdges(rows: seq<Row>, minPercentage: real): seq<Edge>
  {
    if rows == [] then []
    else
      var r := rows[|rows| - 1];
      CandidateEdges(rows[..|rows| - 1], minPercentage) + PairEdges(r, minPercentage, PairCount(r))
  }

  /** The network the endpoint returns for the query's rows. */
  function NetworkOf(entityId: string, rows: seq<Row>, minPercentage: real): Network
  {
    var nodes := FirstOccurrences(Mentions(entityId, rows), NodeId);
    var edges := FirstOccurrences(CandidateEdges(rows, minPercentage), EdgeKey);
    Network(nodes, edges, |nodes|, |edges|)
  }

  // ---------------------------------------------------------------------
  // The loops.
  // ---------------------------------------------------------------------

  /** `if id not in nodes_dict: nodes_dict[id] = node` on the insertion-ordered
      dictionary, kept as its values in order `nodes` and its key set `ids`. */
  method PutIfAbsent(nodes: seq<Node>, ids: set<string>, ghost offered: seq<Node>, n: Node)
    returns (nodes': seq<Node>, ids': set<string>)
    requires nodes == FirstOccurrences(offered, NodeId) && ids == Keys(offered, NodeId)
    ensures nodes' == FirstOccurrences(offered + [n], NodeId)
    ensures ids' == Keys(offered + [n], NodeId) && ids' == ids + {n.id}
    ensures n.id in ids ==> nodes' == nodes
    ensures n.id !in ids ==> nodes' == nodes + [n]
  {
    FirstOccurrencesSnoc(offered, n, NodeId);
    KeysSnoc(offered, n, NodeId);
    if n.id !in ids {
      nodes', ids' := nodes + [n], ids + {n.id};
    } else {
      nodes', ids' := nodes, ids;
    }
  }

  lemma AppendAssoc<T>(a: seq<T>, b: seq<T>, c: seq<T>)
    ensures a + b + c == a + (b + c)
  {
  }

  /** What one pair adds to the candidate nodes and edges. */
  lemma PairStep(r: Row, minPercentage: real, i: nat, head: seq<Node>, prior: seq<Node>,
                 edges: seq<Edge>, priorEdges: seq<Edge>, edges': seq<Edge>)
    requires i < PairCount(r)
    requires prior == head + PairMentions(r, i)
    requires priorEdges == edges + PairEdges(r, minPercentage, i)
    requires edges' == priorEdges + (if EdgeQualifies(PercentageAt(r, i), minPercentage) then [PairEdge(r, i)] else [])
    ensures prior + [SourceNode(r, i)] + [PairTargetNode(r, i)] == head + PairMentions(r, i + 1)
    ensures edges' == edges + PairEdges(r, minPercentage, i + 1)
  {
  }

  /** One pass of the inner loop's body, for pair `i` of the row's path. */
  method AddPair(row: Row, i: nat, minPercentage: real, nodes: seq<Node>, ids: set<string>, edges: seq<Edge>,
                 ghost visited: seq<Node>)
    returns (nodes': seq<Node>, ids': set<string>, edges': seq<Edge>)
    requires i < PairCount(row)
    requires nodes == FirstOccurrences(visited, NodeId) && ids == Keys(visited, NodeId)
    requires forall e :: e in edges ==> e.source in ids && e.target in ids
    ensures nodes' == FirstOccurrences(visited + [SourceNode(row, i)] + [PairTargetNode(row, i)], NodeId)
    ensures ids' == Keys(visited + [SourceNode(row, i)] + [PairTargetNode(row, i)], NodeId)
    ensures ids <= ids'
    ensures edges' == edges + (if EdgeQualifies(PercentageAt(row, i), minPercentage) then [PairEdge(row, i)] else [])
    ensures forall e :: e in edges' ==> e.source in ids' && e.target in ids'
  {
    var sourceNode, targetNode := row.pathNodes[i], row.pathNodes[i + 1];
    var relationship := if i < |row.pathRels| then Some(row.pathRels[i]) else None;
    var src := Node(sourceNode.id, sourceNode.name, OrUnknown(sourceNode.entityType), row.level - i);
    assert src == SourceNode(row, i);
    nodes', ids' := PutIfAbsent(nodes, ids, visited, src);
    var tgt := Node(targetNode.id, targetNode.name, OrUnknown(targetNode.entityType), row.level - i - 1);
    assert tgt == PairTargetNode(row, i);
    nodes', ids' := PutIfAbsent(nodes', ids', visited + [src], tgt);
    var percentage := if relationship.Some? then relationship.value.percentage else Some(0.0);
    edges' := edges;
    if percentage.Some? && percentage.value != 0.0 && percentage.value >= minPercentage {
      var votingRights := if relationship.Some? then relationship.value.votingRights else None;
      edges' := edges' + [Edge(sourceNode.id, targetNode.id, percentage.value, votingRights)];
    }
  }

  /** One pass of the assembly loop's body: the row's owner, then every
      consecutive pair of its path. */
  method AddRow(row: Row, minPercentage: real, nodes: seq<Node>, ids: set<string>, edges: seq<Edge>,
                ghost offered: seq<Node>)
    returns (nodes': seq<Node>, ids': set<string>, edges': seq<Edge>)
    requires nodes == FirstOccurrences(offered, NodeId) && ids == Keys(offered, NodeId)
    requires forall e :: e in edges ==> e.source in ids && e.target in ids
    ensures nodes' == FirstOccurrences(offered + RowMentions(row), NodeId)
    ensures ids' == Keys(offered + RowMentions(row), NodeId)
    ensures edges' == edges + PairEdges(row, minPercentage, PairCount(row))
    ensures forall e :: e in edges' ==> e.source in ids' && e.target in ids'
  {
    var owner := Node(row.ownerId, row.ownerName, OrUnknown(row.ownerType), row.level);
    nodes', ids' := PutIfAbsent(nodes, ids, offered, owner);
    edges' := edges;
    ghost var visited := offered + [owner];
    assert owner == OwnerNode(row);
    assert PairMentions(row, 0) == [] && PairEdges(row, minPercentage, 0) == [];
    assert visited == offered + [OwnerNode(row)] + PairMentions(row, 0);
    assert edges' == edges + PairEdges(row, minPercentage, 0);
    var i := 0;
    while i < |row.pathNodes| - 1
      invariant 0 <= i <= PairCount(row)
      invariant visited == offered + [OwnerNode(row)] + PairMentions(row, i)
      invariant nodes' == FirstOccurrences(visited, NodeId)
      invariant ids' == Keys(visited, NodeId)
      invariant ids <= ids'
      invariant edges' == edges + PairEdges(row, minPercentage, i)
      invariant forall e :: e in edges' ==> e.source in ids' && e.target in ids'
    {
      ghost var prior, priorEdges := visited, edges';
      nodes', ids', edges' := AddPair(row, i, minPercentage, nodes', ids', edges', visited);
      visited := visited + [SourceNode(row, i)] + [PairTargetNode(row, i)];
      PairStep(row, minPercentage, i, offered + [OwnerNode(row)], prior, edges, priorEdges, edges');
      i := i + 1;
    }
    assert i == PairCount(row);
    calc {
      visited;
      offered + [OwnerNode(row)] + PairMentions(row, i);
      { AppendAssoc(offered, [OwnerNode(row)], PairMentions(row, i)); }
      offered + RowMentions(row);
    }
  }

  /** The assembly loop: seeds the target, then walks every row's owner and
      every consecutive pair of its path, inserting unseen nodes and appending
      each edge whose own percentage qualifies. */
  method AssembleGraph(entityId: string, rows: seq<Row>, minPercentage: real)
    returns (nodes: seq<Node>, edges: seq<Edge>)
    ensures nodes == FirstOccurrences(Mentions(entityId, rows), NodeId)
    ensures edges == CandidateEdges(rows, minPercentage)
    ensures DistinctKeys(nodes, NodeId)
    ensures forall e :: e in edges ==> e.source in Keys(nodes, NodeId) && e.target in Keys(nodes, NodeId)
    ensures rows == [] ==> nodes == [] && edges == []
    ensures rows != [] ==> nodes != [] && nodes[0] == Node(entityId, rows[0].companyName, "Corporation", 0)
  {
    nodes, edges := [], [];
    var ids: set<string> := {};
    ghost var offered: seq<Node> := [];
    if |rows| > 0 {
      var target := Node(entityId, rows[0].companyName, "Corporation", 0);
      nodes, ids := PutIfAbsent(nodes, ids, offered, target);
      offered := [target];
    }
    assert offered == Seed(entityId, rows) + RowsMentions(rows[..0]) by {
      assert rows[..0] == [];
    }
    var r := 0;
    while r < |rows|
      invariant 0 <= r <= |rows|
      invariant offered == Seed(entityId, rows) + RowsMentions(rows[..r])
      invariant nodes == FirstOccurrences(offered, NodeId)
      invariant ids == Keys(offered, NodeId)
      invariant edges == CandidateEdges(rows[..r], minPercentage)
      invariant forall e :: e in edges ==> e.source in ids && e.target in ids
    {
      nodes, ids, edges := AddRow(rows[r], minPercentage, nodes, ids, edges, offered);
      offered := offered + RowMentions(rows[r]);
      assert rows[..r + 1][..r] == rows[..r] && rows[..r + 1][r] == rows[r];
      assert RowsMentions(rows[..r + 1]) == RowsMentions(rows[..r]) + RowMentions(rows[r]);
      assert CandidateEdges(rows[..r + 1], minPercentage)
          == CandidateEdges(rows[..r], minPercentage) + PairEdges(rows[r], minPercentage, PairCount(rows[r]));
      AppendAssoc(Seed(entityId, rows), RowsMentions(rows[..r]), RowMentions(rows[r]));
      r := r + 1;
    }
    assert rows[..|rows|] == rows;
    FirstOccurrencesKeys(offered, NodeId);
    FirstOccurrencesDistinct(offered, NodeId);
    if rows != [] {
      FirstOccurrencesHead(offered, NodeId);
    }
  }

  /** The dedup loop: keeps the first edge of every (source, target) pair. */
  method DedupEdges(edges: seq<Edge>) returns (unique: seq<Edge>)
    ensures unique == FirstOccurrences(edges, EdgeKey)
    ensures DistinctKeys(unique, EdgeKey)
    ensures Keys(unique, EdgeKey) == Keys(edges, EdgeKey)
    ensures forall e :: e in unique ==> e in edges
  {
    var seen: set<(string, string)> := {};
    unique := [];
    var i := 0;
    while i < |edges|
      invariant 0 <= i <= |edges|
      invariant unique == FirstOccurrences(edges[..i], EdgeKey)
      invariant seen == Keys(edges[..i], EdgeKey)
    {
      var edge := edges[i];
      var key := (edge.source, edge.target);
      FirstOccurrencesSnoc(edges[..i], edge, EdgeKey);
      KeysSnoc(edges[..i], edge, EdgeKey);
      assert edges[..i + 1] == edges[..i] + [edge];
      if key !in seen {
        seen := seen + {key};
        unique := unique + [edge];
      }
      i := i + 1;
    }
    assert edges[..i] == edges;
    FirstOccurrencesDistinct(edges, EdgeKey);
    FirstOccurrencesKeys(edges, EdgeKey);
    FirstOccurrencesFrom(edges, EdgeKey);
  }

  /** The endpoint: runs the query, assembles the graph, removes duplicate
      edges and packages the result with its counts. */
  method GetOwnershipNetwork(entityId: string, maxHops: int, minPercentage: real,
                             target: Option<Entity>, paths: seq<MatchedPath>)
    returns (network: Network)
    requires 1 <= maxHops <= 8
    requires 0.0 <= minPercentage <= 100.0
    requires target.Some? ==> target.value.id == entityId
    ensures network == NetworkOf(entityId, QueryRows(target, paths, minPercentage), minPercentage)
    ensures network.totalNodes == |network.nodes| && network.totalEdges == |network.edges|
    ensures DistinctKeys(network.nodes, NodeId) && DistinctKeys(network.edges, EdgeKey)
    ensures forall e :: e in network.edges ==>
      e.source in Keys(network.nodes, NodeId) && e.target in Keys(network.nodes, NodeId)
    ensures forall e :: e in network.edges ==> e.percentage != 0.0 && e.percentage >= minPercentage
    ensures QueryRows(target, paths, minPercentage) == [] <==> network.nodes == []
    ensures QueryRows(target, paths, minPercentage) == [] ==> network == Network([], [], 0, 0)
    ensures target.None? ==> network == Network([], [], 0, 0)
    ensures network.nodes != [] ==> network.nodes[0].id == entityId && network.nodes[0].level == 0
    ensures (forall i :: 0 <= i < |paths| ==> PathShape(paths[i], entityId, maxHops)) ==>
      forall k :: 0 <= k < |network.nodes| ==>
        0 <= network.nodes[k].level <= maxHops && (network.nodes[k].level == 0 <==> network.nodes[k].id == entityId)
  {
    var rows := QueryRows(target, paths, minPercentage);
    var nodes, edges := AssembleGraph(entityId, rows, minPercentage);
    var uniqueEdges := DedupEdges(edges);
    network := Network(nodes, uniqueEdges, |nodes|, |uniqueEdges|);
    EdgePercentages(rows, minPercentage);
    if forall i :: 0 <= i < |paths| ==> PathShape(paths[i], entityId, maxHops) {
      QueryLevels(entityId, maxHops, minPercentage, target, paths);
    }
  }

  /** Every edge kept has a nonzero percentage of at least the threshold. */
  lemma EdgePercentages(rows: seq<Row>, minPercentage: real)
    ensures forall e :: e in FirstOccurrences(CandidateEdges(rows, minPercentage), EdgeKey) ==>
      e.percentage != 0.0 && e.percentage >= minPercentage
  {
    FirstOccurrencesFrom(CandidateEdges(rows, minPercentage), EdgeKey);
    forall e | e in CandidateEdges(rows, minPercentage) ensures e.percentage != 0.0 && e.percentage >= minPercentage {
      EdgeProvenance(rows, minPercentage, e);
    }
  }

  /** The levels of the network of well-shaped matched paths. */
  lemma QueryLevels(entityId: string, maxHops: int, minPercentage: real, target: Option<Entity>, paths: seq<MatchedPath>)
    requires target.Some? ==> target.value.id == entityId
    requires forall i :: 0 <= i < |paths| ==> PathShape(paths[i], entityId, maxHops)
    ensures var nodes := FirstOccurrences(Mentions(entityId, QueryRows(target, paths, minPercentage)), NodeId);
      forall k :: 0 <= k < |nodes| ==> 0 <= nodes[k].level <= maxHops && (nodes[k].level == 0 <==> nodes[k].id == entityId)
  {
    var rows := QueryRows(target, paths, minPercentage);
    if target.Some? {
      QueryRowsShape(target, paths, minPercentage, maxHops);
      forall i | 0 <= i < |rows| ensures RowShape(rows[i], entityId, maxHops) {
        assert rows[i] in rows;
      }
    }
    NodeLevels(entityId, rows, maxHops);
  }

  // ---------------------------------------------------------------------
  // Properties of the reference definition.
  // ---------------------------------------------------------------------

  /** `s` has levels in 0..maxHops, and an element at level 0 carries the
      target's id or an id offered earlier. */
  ghost predicate LevelsSettled(s: seq<Node>, entityId: string, maxHops: int)
  {
    forall j :: 0 <= j < |s| ==>
      && 0 <= s[j].level <= maxHops
      && (s[j].level == 0 ==> s[j].id == entityId || s[j].id in Keys(s[..j], NodeId))
  }

  /** Along a well-shaped row the candidate levels are hop counts in
      1..maxHops for sources and 0..maxHops-1 for targets; only the path's last
      node is offered at level 0, and it is the owner or the target. */
  lemma {:induction false} PairMentionLevels(r: Row, entityId: string, maxHops: int, k: nat)
    requires RowShape(r, entityId, maxHops)
    requires k <= PairCount(r)
    ensures forall j :: 0 <= j < |PairMentions(r, k)| ==>
      && 0 <= PairMentions(r, k)[j].level <= maxHops
      && (PairMentions(r, k)[j].level == 0 ==>
            PairMentions(r, k)[j].id == entityId || PairMentions(r, k)[j].id == r.ownerId)
  {
    if k > 0 {
      PairMentionLevels(r, entityId, maxHops, k - 1);
      var prev := PairMentions(r, k - 1);
      var s := prev + [SourceNode(r, k - 1), PairTargetNode(r, k - 1)];
      forall j | 0 <= j < |s|
        ensures 0 <= s[j].level <= maxHops
        ensures s[j].level == 0 ==> s[j].id == entityId || s[j].id == r.ownerId
      {
        if j < |prev| {
          assert s[j] == prev[j];
        }
      }
    }
  }

  lemma AppendRowLevels(s: seq<Node>, r: Row, entityId: string, maxHops: int)
    requires LevelsSettled(s, entityId, maxHops)
    requires RowShape(r, entityId, maxHops)
    ensures LevelsSettled(s + RowMentions(r), entityId, maxHops)
  {
    var b := RowMentions(r);
    var t := s + b;
    PairMentionLevels(r, entityId, maxHops, PairCount(r));
    forall j | 0 <= j < |t|
      ensures 0 <= t[j].level <= maxHops
      ensures t[j].level == 0 ==> t[j].id == entityId || t[j].id in Keys(t[..j], NodeId)
    {
      if j < |s| {
        assert t[j] == s[j] && t[..j] == s[..j];
      } else if j > |s| {
        var pm := PairMentions(r, PairCount(r));
        assert t[j] == pm[j - |s| - 1];
        if t[j].level == 0 && t[j].id != entityId {
          assert t[..j][|s|] == OwnerNode(r);
        }
      }
    }
  }

  lemma {:induction false} RowsLevels(pre: seq<Node>, rows: seq<Row>, entityId: string, maxHops: int)
    requires LevelsSettled(pre, entityId, maxHops)
    requires forall i :: 0 <= i < |rows| ==> RowShape(rows[i], entityId, maxHops)
    ensures LevelsSettled(pre + RowsMentions(rows), entityId, maxHops)
  {
    if rows == [] {
      assert pre + RowsMentions(rows) == pre;
    } else {
      var n := |rows| - 1;
      RowsLevels(pre, rows[..n], entityId, maxHops);
      AppendRowLevels(pre + RowsMentions(rows[..n]), rows[n], entityId, maxHops);
      AppendAssoc(pre, RowsMentions(rows[..n]), RowMentions(rows[n]));
    }
  }

  /** For rows of well-shaped paths, every node's level is a hop count in
      0..maxHops, the target comes first, and the target is the only node at
      level 0, whichever end of the path the store lists first. */
  lemma NodeLevels(entityId: string, rows: seq<Row>, maxHops: int)
    requires forall i :: 0 <= i < |rows| ==> RowShape(rows[i], entityId, maxHops)
    ensures var nodes := FirstOccurrences(Mentions(entityId, rows), NodeId);
      && (rows != [] ==> nodes != [] && nodes[0] == TargetNode(entityId, rows))
      && forall k :: 0 <= k < |nodes| ==>
           0 <= nodes[k].level <= maxHops && (nodes[k].level == 0 <==> nodes[k].id == entityId)
  {
    var s := Mentions(entityId, rows);
    var nodes := FirstOccurrences(s, NodeId);
    assert LevelsSettled(Seed(entityId, rows), entityId, maxHops);
    RowsLevels(Seed(entityId, rows), rows, entityId, maxHops);
    var idx := FirstOccurrencesPositions(s, NodeId);
    FirstOccurrencesDistinct(s, NodeId);
    if rows != [] {
      FirstOccurrencesHead(s, NodeId);
    }
    forall k | 0 <= k < |nodes|
      ensures 0 <= nodes[k].level <= maxHops && (nodes[k].level == 0 <==> nodes[k].id == entityId)
    {
      assert nodes[k] == s[idx[k]];
      if nodes[k].id == entityId {
        assert rows != [];
        assert NodeId(nodes[0]) == NodeId(nodes[k]);
      }
    }
  }

  lemma {:induction false} PairEdgesFrom(r: Row, minPercentage: real, k: nat, e: Edge)
    requires k <= PairCount(r)
    requires e in PairEdges(r, minPercentage, k)
    ensures exists i :: 0 <= i < k && EdgeQualifies(PercentageAt(r, i), minPercentage) && e == PairEdge(r, i)
  {
    if k > 0 {
      if e in PairEdges(r, minPercentage, k - 1) {
        PairEdgesFrom(r, minPercentage, k - 1, e);
      } else {
        assert EdgeQualifies(PercentageAt(r, k - 1), minPercentage) && e == PairEdge(r, k - 1);
      }
    }
  }

  /** Every candidate edge is the edge of some pair of some row whose own
      relationship percentage is present, nonzero and at least the threshold. */
  lemma {:induction false} EdgeProvenance(rows: seq<Row>, minPercentage: real, e: Edge)
    requires e in CandidateEdges(rows, minPercentage)
    ensures exists r, i :: 0 <= r < |rows| && 0 <= i < PairCount(rows[r])
                        && EdgeQualifies(PercentageAt(rows[r], i), minPercentage) && e == PairEdge(rows[r], i)
    ensures e.percentage != 0.0 && e.percentage >= minPercentage
  {
    var n := |rows| - 1;
    if e in CandidateEdges(rows[..n], minPercentage) {
      EdgeProvenance(rows[..n], minPercentage, e);
      var r, i :| 0 <= r < n && 0 <= i < PairCount(rows[..n][r])
               && EdgeQualifies(PercentageAt(rows[..n][r], i), minPercentage) && e == PairEdge(rows[..n][r], i);
      assert rows[..n][r] == rows[r];
    } else {
      PairEdgesFrom(rows[n], minPercentage, PairCount(rows[n]), e);
    }
  }

  lemma {:induction false} PairEdgesHas(r: Row, minPercentage: real, k: nat, i: nat)
    requires i < k <= PairCount(r)
    requires EdgeQualifies(PercentageAt(r, i), minPercentage)
    ensures PairEdge(r, i) in PairEdges(r, minPercentage, k)
  {
    if i < k - 1 {
      PairEdgesHas(r, minPercentage, k - 1, i);
    }
  }

  /** Conversely, every pair whose relationship percentage qualifies yields a
      candidate edge. */
  lemma {:induction false} EdgeEmitted(rows: seq<Row>, minPercentage: real, r: nat, i: nat)
    requires r < |rows| && i < PairCount(rows[r])
    requires EdgeQualifies(PercentageAt(rows[r], i), minPercentage)
    ensures PairEdge(rows[r], i) in CandidateEdges(rows, minPercentage)
  {
    var n := |rows| - 1;
    if r < n {
      assert rows[..n][r] == rows[r];
      EdgeEmitted(rows[..n], minPercentage, r, i);
    } else {
      PairEdgesHas(rows[n], minPercentage, PairCount(rows[n]), i);
    }
  }

  /** The ids of path nodes 0..k of a row. */
  ghost function PathIds(r: Row, k: nat): set<string>
    requires k < |r.pathNodes|
  {
    set j | 0 <= j <= k :: r.pathNodes[j].id
  }

  lemma {:induction false} PairMentionIds(r: Row, k: nat)
    requires 1 <= k <= PairCount(r)
    ensures Keys(PairMentions(r, k), NodeId) == PathIds(r, k)
  {
    var prev := PairMentions(r, k - 1);
    var step := [SourceNode(r, k - 1), PairTargetNode(r, k - 1)];
    assert PairMentions(r, k) == prev + step;
    KeysConcat(prev, step, NodeId);
    assert Keys(step, NodeId) == {r.pathNodes[k - 1].id, r.pathNodes[k].id} by {
      assert step[0].id == r.pathNodes[k - 1].id && step[1].id == r.pathNodes[k].id;
    }
    PathIdsSnoc(r, k);
    if k > 1 {
      PairMentionIds(r, k - 1);
      PathIdsSnoc(r, k - 1);
    } else {
      assert prev == [];
      assert PathIds(r, 0) == {r.pathNodes[0].id};
    }
  }

  lemma PathIdsSnoc(r: Row, k: nat)
    requires 1 <= k < |r.pathNodes|
    ensures PathIds(r, k) == PathIds(r, k - 1) + {r.pathNodes[k].id}
  {
  }

  /** The ids one row puts in the network: its owner, and every node of its
      path once the path has at least one pair. */
  ghost function RowIds(r: Row): set<string>
  {
    {r.ownerId} + (if |r.pathNodes| >= 2 then set j | 0 <= j < |r.pathNodes| :: r.pathNodes[j].id else {})
  }

  lemma RowMentionIds(r: Row)
    ensures Keys(RowMentions(r), NodeId) == RowIds(r)
  {
    KeysConcat([OwnerNode(r)], PairMentions(r, PairCount(r)), NodeId);
    assert Keys([OwnerNode(r)], NodeId) == {r.ownerId} by {
      assert [OwnerNode(r)][0].id == r.ownerId;
    }
    if |r.pathNodes| >= 2 {
      PairMentionIds(r, PairCount(r));
      assert PathIds(r, PairCount(r)) == set j | 0 <= j < |r.pathNodes| :: r.pathNodes[j].id;
    } else {
      assert PairMentions(r, PairCount(r)) == [];
    }
  }

  /** Some row puts id `x` in the network. */
  ghost predicate InSomeRow(rows: seq<Row>, x: string)
  {
    exists i :: 0 <= i < |rows| && x in RowIds(rows[i])
  }

  lemma InSomeRowSnoc(rows: seq<Row>, x: string)
    requires rows != []
    ensures InSomeRow(rows, x) <==> InSomeRow(rows[..|rows| - 1], x) || x in RowIds(rows[|rows| - 1])
  {
    var n := |rows| - 1;
    if InSomeRow(rows, x) {
      var i :| 0 <= i < |rows| && x in RowIds(rows[i]);
      if i < n {
        assert rows[..n][i] == rows[i];
      }
    }
    if InSomeRow(rows[..n], x) {
      var i :| 0 <= i < n && x in RowIds(rows[..n][i]);
      assert rows[..n][i] == rows[i];
    }
  }

  lemma {:induction false} RowsMentionIds(rows: seq<Row>)
    ensures forall x :: x in Keys(RowsMentions(rows), NodeId) <==> InSomeRow(rows, x)
  {
    if rows != [] {
      var n := |rows| - 1;
      RowsMentionIds(rows[..n]);
      KeysConcat(RowsMentions(rows[..n]), RowMentions(rows[n]), NodeId);
      RowMentionIds(rows[n]);
      forall x ensures x in Keys(RowsMentions(rows), NodeId) <==> InSomeRow(rows, x) {
        InSomeRowSnoc(rows, x);
      }
    }
  }

  /** The network's node ids are exactly the target's (when some row exists),
      every row's owner and every node of every row's path that has a pair. */
  lemma NodeIds(entityId: string, rows: seq<Row>, minPercentage: real)
    ensures forall x :: x in Keys(NetworkOf(entityId, rows, minPercentage).nodes, NodeId)
                    <==> (rows != [] && x == entityId) || InSomeRow(rows, x)
  {
    FirstOccurrencesKeys(Mentions(entityId, rows), NodeId);
    KeysConcat(Seed(entityId, rows), RowsMentions(rows), NodeId);
    RowsMentionIds(rows);
    if rows != [] {
      assert Keys(Seed(entityId, rows), NodeId) == {entityId} by {
        assert Seed(entityId, rows)[0].id == entityId;
      }
    }
  }
}
