/** The entity search endpoint: every entity whose name contains the search
    term, case-insensitively, ordered prefix matches first, then by name length,
    then by name, cut to the limit. */
module EntitySearch {
  import opened Sequences
  import opened Sorting
  import opened Entities

  datatype SearchResult = SearchResult(id: string, name: string, entityType: string)

  /** The store's `toLower` on one character (ASCII letters only). */
  function LowerChar(c: char): char
  {
    if 'A' <= c <= 'Z' then (c as int + 32) as char else c
  }

  function ToLower(s: string): (r: string)
    ensures |r| == |s|
  {
    if s == [] then [] else [LowerChar(s[0])] + ToLower(s[1..])
  }

  predicate StartsWith(s: string, prefix: string)
  {
    |prefix| <= |s| && s[..|prefix|] == prefix
  }

  /** `part` occurs in `s` at some offset. */
  predicate Contains(s: string, part: string)
  {
    StartsWith(s, part) || (s != [] && Contains(s[1..], part))
  }

  /** The WHERE clause: the lower-cased name contains the lower-cased term. */
  predicate NameMatches(q: string, e: Entity)
  {
    Contains(ToLower(e.name), ToLower(q))
  }

  /** The first ORDER BY key: 0 for a prefix match, 1 otherwise. */
  function Rank(q: string, e: Entity): (r: int)
    ensures r == 0 || r == 1
    ensures r == 0 <==> StartsWith(ToLower(e.name), ToLower(q))
  {
    if StartsWith(ToLower(e.name), ToLower(q)) then 0 else 1
  }

  /** String order by character code, as the store compares strings. */
  predicate LexLe(a: string, b: string)
  {
    if a == [] then true
    else if b == [] then false
    else if a[0] != b[0] then a[0] < b[0]
    else LexLe(a[1..], b[1..])
  }

  lemma {:induction false} LexLeTotal(a: string, b: string)
    ensures LexLe(a, b) || LexLe(b, a)
  {
    if a != [] && b != [] && a[0] == b[0] {
      LexLeTotal(a[1..], b[1..]);
    }
  }

  lemma {:induction false} LexLeTransitive(a: string, b: string, c: string)
    requires LexLe(a, b) && LexLe(b, c)
    ensures LexLe(a, c)
  {
    if a != [] && b != [] && c != [] && a[0] == b[0] && b[0] == c[0] {
      LexLeTransitive(a[1..], b[1..], c[1..]);
    }
  }

  /** Two strings ordered each way by LexLe are equal. */
  lemma {:induction false} LexLeAntisymmetric(a: string, b: string)
    requires LexLe(a, b) && LexLe(b, a)
    ensures a == b
  {
    if a != [] && b != [] {
      LexLeAntisymmetric(a[1..], b[1..]);
      assert a == [a[0]] + a[1..] && b == [b[0]] + b[1..];
    }
  }

  /** The whole ORDER BY: rank, then name length, then name. */
  predicate HitBefore(q: string, a: Entity, b: Entity)
  {
    || Rank(q, a) < Rank(q, b)
    || (Rank(q, a) == Rank(q, b) && |a.name| < |b.name|)
    || (Rank(q, a) == Rank(q, b) && |a.name| == |b.name| && LexLe(a.name, b.name))
  }

  /** Two entities tie under the ORDER BY only when their names are equal, so
      the ties left to the store are between entities of one name. */
  lemma HitOrderTies(q: string, a: Entity, b: Entity)
    requires HitBefore(q, a, b) && HitBefore(q, b, a)
    ensures a.name == b.name && Rank(q, a) == Rank(q, b)
  {
    LexLeAntisymmetric(a.name, b.name);
  }

  function HitOrder(q: string): (Entity, Entity) -> bool
  {
    (a, b) => HitBefore(q, a, b)
  }

  lemma HitOrderIsTotalPreorder(q: string)
    ensures IsTotalPreorder(HitOrder(q))
  {
    forall a, b ensures HitBefore(q, a, b) || HitBefore(q, b, a) {
      LexLeTotal(a.name, b.name);
    }
    forall a, b, c | HitBefore(q, a, b) && HitBefore(q, b, c) ensures HitBefore(q, a, c) {
      if Rank(q, a) == Rank(q, c) && |a.name| == |c.name| {
        LexLeTransitive(a.name, b.name, c.name);
      }
    }
  }

  function MatchesOf(q: string): Entity -> bool
  {
    e => NameMatches(q, e)
  }

  /** Every matching entity, in the ORDER BY's order. */
  function RankedMatches(entities: seq<Entity>, q: string): (r: seq<Entity>)
    ensures Sorted(r, HitOrder(q))
    ensures multiset(r) == multiset(Filter(entities, MatchesOf(q)))
  {
    HitOrderIsTotalPreorder(q);
    SortBy(Filter(entities, MatchesOf(q)), HitOrder(q))
  }

  function Min(a: int, b: int): int
  {
    if a <= b then a else b
  }

  /** One returned record; a null type is reported as "Unknown". */
  function ToResult(e: Entity): (r: SearchResult)
    ensures r.id == e.id && r.name == e.name
    ensures e.entityType.Some? && e.entityType.value != "" ==> r.entityType == e.entityType.value
    ensures e.entityType.None? || e.entityType.value == "" ==> r.entityType == "Unknown"
  {
    SearchResult(e.id, e.name, OrUnknown(e.entityType))
  }

  /** The endpoint: the first `limit` ranked matches, as records. */
  function SearchEntities(entities: seq<Entity>, q: string, limit: int): (results: seq<SearchResult>)
    requires |q| >= 2
    requires 1 <= limit <= 100
    ensures |results| == Min(limit, |Filter(entities, MatchesOf(q))|)
    ensures forall i :: 0 <= i < |results| ==> results[i] == ToResult(RankedMatches(entities, q)[i])
  {
    var ranked := RankedMatches(entities, q);
    var n := Min(limit, |ranked|);
    seq(n, i requires 0 <= i < n => ToResult(ranked[i]))
  }

  lemma MatchCount(entities: seq<Entity>, q: string)
    ensures |RankedMatches(entities, q)| == |Filter(entities, MatchesOf(q))|
  {
    assert |multiset(RankedMatches(entities, q))| == |multiset(Filter(entities, MatchesOf(q)))|;
  }

  /** Every result is an entity whose name contains the term, ignoring case. */
  lemma SearchSound(entities: seq<Entity>, q: string, limit: int, i: int)
    requires |q| >= 2 && 1 <= limit <= 100
    requires 0 <= i < |SearchEntities(entities, q, limit)|
    ensures exists e :: e in entities && NameMatches(q, e)
                     && SearchEntities(entities, q, limit)[i] == ToResult(e)
  {
    var ranked := RankedMatches(entities, q);
    MatchCount(entities, q);
    var e := ranked[i];
    assert e in multiset(Filter(entities, MatchesOf(q)));
    var k :| 0 <= k < |Filter(entities, MatchesOf(q))| && Filter(entities, MatchesOf(q))[k] == e;
  }

  /** When no more entities match than the limit allows, every match is
      returned. */
  lemma SearchComplete(entities: seq<Entity>, q: string, limit: int, e: Entity)
    requires |q| >= 2 && 1 <= limit <= 100
    requires |Filter(entities, MatchesOf(q))| <= limit
    requires e in entities && NameMatches(q, e)
    ensures ToResult(e) in SearchEntities(entities, q, limit)
  {
    var matches := Filter(entities, MatchesOf(q));
    var ranked := RankedMatches(entities, q);
    MatchCount(entities, q);
    assert e in matches by {
      var j :| 0 <= j < |entities| && entities[j] == e;
      assert MatchesOf(q)(entities[j]);
    }
    assert e in ranked by {
      assert multiset(ranked) == multiset(matches);
      assert e in multiset(matches);
    }
    var k :| 0 <= k < |ranked| && ranked[k] == e;
    var results := SearchEntities(entities, q, limit);
    assert |results| == |ranked|;
    assert results[k] == ToResult(e);
  }

  /** The results are the best matches: prefix matches before the others, and
      every match left out of the results ranks no earlier than any returned
      one. */
  lemma SearchTopRanked(entities: seq<Entity>, q: string, limit: int)
    requires |q| >= 2 && 1 <= limit <= 100
    ensures var ranked := RankedMatches(entities, q);
            var n := |SearchEntities(entities, q, limit)|;
            && (forall i, j :: 0 <= i < j < n ==> Rank(q, ranked[i]) <= Rank(q, ranked[j]))
            && (forall i, j :: 0 <= i < n <= j < |ranked| ==> HitBefore(q, ranked[i], ranked[j]))
  {
    var ranked := RankedMatches(entities, q);
    MatchCount(entities, q);
    assert forall i, j :: 0 <= i < j < |ranked| ==> HitOrder(q)(ranked[i], ranked[j]);
  }
}
