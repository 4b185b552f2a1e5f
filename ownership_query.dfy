/** The bounded-depth ownership query of the network endpoint: the store matches
    every OWNS path of 1 to max_hops relationships that reaches the target,
    scores it by effective control, keeps the paths whose control reaches the
    threshold, and returns one row per kept path ordered by level, then by
    control descending. The traversal itself is the store's; here it is the
    input `paths`. */
module OwnershipQuery {
  import opened Options
  import opened Sequences
  import opened Sorting
  import opened Entities

  /** The properties of one OWNS relationship; either may be null. */
  datatype Relationship = Relationship(percentage: Option<real>, votingRights: Option<real>)

  /** One path found by the traversal: the entity bound to `owner`, and the
      path's nodes and relationships in the order the store lists them. */
  datatype MatchedPath = MatchedPath(owner: Entity, nodes: seq<Entity>, rels: seq<Relationship>)

  /** One result row of the query. */
  datatype Row = Row(
    companyId: string,
    companyName: string,
    level: int,
    ownerId: string,
    ownerName: string,
    ownerType: Option<string>,
    effectiveControl: real,
    pathNodes: seq<Entity>,
    pathRels: seq<Relationship>)

  /** A relationship's stake as a fraction, a null percentage counting as 0. */
  function Fraction(r: Relationship): real
  {
    r.percentage.GetOr(0.0) / 100.0
  }

  /** Effective control of a path: the query's `reduce`, which starts at 1.0 and
      multiplies in each relationship's fraction from the first to the last. */
  function EffectiveControl(rels: seq<Relationship>): real
  {
    if rels == [] then 1.0
    else EffectiveControl(rels[..|rels| - 1]) * Fraction(rels[|rels| - 1])
  }

  /** The WHERE clause on effective control. */
  predicate Survives(rels: seq<Relationship>, minPercentage: real)
  {
    EffectiveControl(rels) >= minPercentage / 100.0
  }

  /** Every percentage on the path is null or on the 0..100 scale. */
  predicate PercentagesInRange(rels: seq<Relationship>)
  {
    forall i :: 0 <= i < |rels| ==> 0.0 <= rels[i].percentage.GetOr(0.0) <= 100.0
  }

  /** Effective control is multiplicative along the path. */
  lemma {:induction false} ControlAppend(rels: seq<Relationship>, more: seq<Relationship>)
    ensures EffectiveControl(rels + more) == EffectiveControl(rels) * EffectiveControl(more)
  {
    if more == [] {
      assert rels + more == rels;
    } else {
      var n := |more| - 1;
      assert (rels + more)[..|rels + more| - 1] == rels + more[..n];
      ControlAppend(rels, more[..n]);
      var a, b, f := EffectiveControl(rels), EffectiveControl(more[..n]), Fraction(more[n]);
      assert (a * b) * f == a * (b * f);
    }
  }

  /** Effective control is 0 exactly when some relationship on the path has a
      null or zero percentage. */
  lemma {:induction false} ControlZeroIff(rels: seq<Relationship>)
    ensures EffectiveControl(rels) == 0.0
        <==> exists i :: 0 <= i < |rels| && rels[i].percentage.GetOr(0.0) == 0.0
  {
    if rels != [] {
      var n := |rels| - 1;
      var init := rels[..n];
      ControlZeroIff(init);
      if exists i :: 0 <= i < |init| && init[i].percentage.GetOr(0.0) == 0.0 {
        var i :| 0 <= i < |init| && init[i].percentage.GetOr(0.0) == 0.0;
        assert rels[i] == init[i];
      }
      if exists i :: 0 <= i < |rels| && rels[i].percentage.GetOr(0.0) == 0.0 {
        var i :| 0 <= i < |rels| && rels[i].percentage.GetOr(0.0) == 0.0;
        if i < n {
          assert init[i] == rels[i];
        }
      }
    }
  }

  /** With percentages on the 0..100 scale, effective control is a fraction. */
  lemma {:induction false} ControlBounds(rels: seq<Relationship>)
    requires PercentagesInRange(rels)
    ensures 0.0 <= EffectiveControl(rels) <= 1.0
  {
    if rels != [] {
      var n := |rels| - 1;
      var f := Fraction(rels[n]);
      assert 0.0 <= f <= 1.0;
      assert PercentagesInRange(rels[..n]) by {
        forall i | 0 <= i < n ensures 0.0 <= rels[..n][i].percentage.GetOr(0.0) <= 100.0 {
          assert rels[..n][i] == rels[i];
        }
      }
      ControlBounds(rels[..n]);
      var c := EffectiveControl(rels[..n]);
      assert 0.0 <= c * f <= c * 1.0;
    }
  }

  /** Extending a path never raises its control, so a path that survives the
      threshold has every prefix surviving it too. */
  lemma PrefixSurvives(rels: seq<Relationship>, more: seq<Relationship>, minPercentage: real)
    requires PercentagesInRange(rels + more)
    requires Survives(rels + more, minPercentage)
    ensures Survives(rels, minPercentage)
  {
    assert PercentagesInRange(rels) by {
      forall i | 0 <= i < |rels| ensures 0.0 <= rels[i].percentage.GetOr(0.0) <= 100.0 {
        assert (rels + more)[i] == rels[i];
      }
    }
    assert PercentagesInRange(more) by {
      forall i | 0 <= i < |more| ensures 0.0 <= more[i].percentage.GetOr(0.0) <= 100.0 {
        assert (rels + more)[|rels| + i] == more[i];
      }
    }
    ControlAppend(rels, more);
    ControlBounds(rels);
    ControlBounds(more);
    var a, b := EffectiveControl(rels), EffectiveControl(more);
    assert a * b <= a * 1.0;
  }

  /** The row the query returns for one matched path of the target. */
  function MakeRow(target: Entity, p: MatchedPath): Row
  {
    Row(target.id, target.name, |p.rels|, p.owner.id, p.owner.name, p.owner.entityType,
        EffectiveControl(p.rels), p.nodes, p.rels)
  }

  /** The ORDER BY key: lower level first, then higher control first. */
  predicate RowBefore(a: Row, b: Row)
  {
    a.level < b.level || (a.level == b.level && a.effectiveControl >= b.effectiveControl)
  }

  lemma RowBeforeIsTotalPreorder()
    ensures IsTotalPreorder(RowBefore)
  {
  }

  /** The rows for every matched path, before filtering. */
  function CandidateRows(target: Entity, paths: seq<MatchedPath>): seq<Row>
  {
    seq(|paths|, i requires 0 <= i < |paths| => MakeRow(target, paths[i]))
  }

  predicate RowSurvives(minPercentage: real, r: Row)
  {
    r.effectiveControl >= minPercentage / 100.0
  }

  /** The query's result: nothing when no entity has the requested id; else the
      rows of the surviving paths, ordered by level, then control descending. */
  function QueryRows(target: Option<Entity>, paths: seq<MatchedPath>, minPercentage: real): (rows: seq<Row>)
    ensures target.None? ==> rows == []
    ensures |rows| <= |paths|
    ensures Sorted(rows, RowBefore)
    ensures target.Some? ==>
      multiset(rows) == multiset(Filter(CandidateRows(target.value, paths), r => RowSurvives(minPercentage, r)))
  {
    match target
    case None => []
    case Some(t) =>
      RowBeforeIsTotalPreorder();
      SortBy(Filter(CandidateRows(t, paths), r => RowSurvives(minPercentage, r)), RowBefore)
  }

  /** A row is returned exactly when it is the row of a matched path whose
      effective control reaches the threshold. */
  lemma QueryRowsMembers(target: Option<Entity>, paths: seq<MatchedPath>, minPercentage: real, r: Row)
    ensures r in QueryRows(target, paths, minPercentage)
        <==> target.Some? && exists i :: 0 <= i < |paths| && r == MakeRow(target.value, paths[i])
                                     && Survives(paths[i].rels, minPercentage)
  {
    if target.Some? {
      var rows := QueryRows(target, paths, minPercentage);
      var cands := CandidateRows(target.value, paths);
      var kept := Filter(cands, x => RowSurvives(minPercentage, x));
      assert r in rows <==> r in multiset(kept);
      if r in kept {
        var k :| 0 <= k < |kept| && kept[k] == r;
        var i :| 0 <= i < |cands| && cands[i] == r;
      }
      if exists i :: 0 <= i < |paths| && r == MakeRow(target.value, paths[i]) && Survives(paths[i].rels, minPercentage) {
        var i :| 0 <= i < |paths| && r == MakeRow(target.value, paths[i]) && Survives(paths[i].rels, minPercentage);
        assert cands[i] == r;
      }
    }
  }

  /** What the store guarantees of a matched path: 1 to max_hops relationships,
      one node more than relationships, and the target and the owner at its two
      ends (in either order: the model does not fix the direction). */
  predicate PathShape(p: MatchedPath, targetId: string, maxHops: int)
  {
    && 1 <= |p.rels| <= maxHops
    && |p.nodes| == |p.rels| + 1
    && ((p.nodes[0].id == targetId && p.nodes[|p.nodes| - 1].id == p.owner.id)
        || (p.nodes[0].id == p.owner.id && p.nodes[|p.nodes| - 1].id == targetId))
  }

  /** The same shape, read off a result row. */
  predicate RowShape(r: Row, targetId: string, maxHops: int)
  {
    && 1 <= r.level <= maxHops
    && |r.pathRels| == r.level
    && |r.pathNodes| == r.level + 1
    && ((r.pathNodes[0].id == targetId && r.pathNodes[r.level].id == r.ownerId)
        || (r.pathNodes[0].id == r.ownerId && r.pathNodes[r.level].id == targetId))
  }

  /** Rows of well-shaped paths are well shaped, with level = hop count. */
  lemma QueryRowsShape(target: Option<Entity>, paths: seq<MatchedPath>, minPercentage: real, maxHops: int)
    requires target.Some?
    requires forall i :: 0 <= i < |paths| ==> PathShape(paths[i], target.value.id, maxHops)
    ensures forall r :: r in QueryRows(target, paths, minPercentage) ==> RowShape(r, target.value.id, maxHops)
  {
    forall r | r in QueryRows(target, paths, minPercentage) ensures RowShape(r, target.value.id, maxHops) {
      QueryRowsMembers(target, paths, minPercentage, r);
    }
  }
}
