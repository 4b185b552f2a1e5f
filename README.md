# Ownership network: a Dafny model

This project models the core of an ownership-network service. It has two parts.

The first part is the network endpoint. Given a target entity, it takes every
ownership path of 1 to `max_hops` relationships that leads into the target. It
scores each path by its *effective control*: the product of `percentage / 100`
over the path's relationships, where a missing percentage counts as 0. It
keeps the paths whose control reaches `min_percentage / 100` and orders them
by level, then by control descending. It then folds the ordered rows into two
things:

- a node dictionary, seeded with the target at level 0, in which the first
  insertion of an id wins;
- an edge list, which takes only edges whose own relationship percentage
  passes a second threshold test.

Finally it removes duplicate edges on `(source, target)`, keeping the first,
and reports the node and edge counts.

The same API file holds the entity search. It does a case-insensitive
substring match on names, ranks prefix matches first, then orders by name
length, then by name, and cuts the list at `limit`.

The second part is the data preparation. The owners register is split into
person and company records using its two flags. The stocks register becomes
company records. The two company lists are then merged per organisation
number: where a group has records from both sources, the first stocks record
is kept. Its missing address columns are filled from the first owners record,
it is tagged `merged`, and an id mapping from the owners id to the stocks id
is emitted.

The modules follow the program:

- `OwnershipQuery` (ownership_query.dfy) covers the Cypher query: effective
  control, the threshold and the ordering.
- `OwnershipNetwork` (ownership_network.dfy) covers the Python assembly loop,
  the dedup loop and the packaging. These are written as methods with loop
  invariants. They are proved equal to a reference definition, `NetworkOf`:
  the first occurrences, by key, of every node the loop offers and every edge
  it appends.
- `OwnershipScenarios` is a worked example.
- `EntitySearch` covers the search endpoint.
- `CsvProcessor` covers the owners split, the stocks projection and the
  company merge.
- Shared pieces live in their own modules:
  - `Options`: optional values;
  - `Sequences`: filtering and projection;
  - `Sorting`: a stable sort by a total preorder, standing in for `ORDER BY`;
  - `FirstSeen`: first occurrence by key, the policy both the node dictionary
    and the edge dedup follow;
  - `Entities`: the entity record and `x or "Unknown"`.

Three behaviours of the code are easy to misread; the model follows the code:

- The target node is always typed `"Corporation"` (api/main.py:179). Its
  stored type is not used.
- An edge needs a percentage that is present and nonzero, as well as at least
  `min_percentage` (api/main.py:227). So with a threshold of 0, edges with a 0%
  percentage are still dropped.
- Node levels are computed as `level - i` and `level - i - 1` along
  `path_nodes`, exactly as written (api/main.py:214, 222). This equals the hop
  distance from the target only if the path is listed owner first. The Cypher
  pattern is written target first (api/main.py:140), and the model does not
  fix which end comes first:
  - `PathShape` and `RowShape` allow either order.
  - The level and id lemmas hold for both.
  - `OwnershipScenarios` checks the worked example for both listings. The
    nodes come out the same. The single edge runs from the listed first node
    to the second.

## Model

| member | source | states |
|---|---|---|
| OwnershipQuery.ControlAppend | api/main.py:142-143 | effective control of a path split in two is the product of the two parts' controls |
| OwnershipQuery.ControlZeroIff | api/main.py:142-143 | a path's control is 0 exactly when some relationship on it has a null or zero percentage |
| OwnershipQuery.ControlBounds | api/main.py:142-143 | with percentages on the 0..100 scale, effective control lies in [0, 1] |
| OwnershipQuery.PrefixSurvives | api/main.py:140-144 | if an extended path passes the threshold, so does every prefix of it |
| OwnershipQuery.QueryRows | api/main.py:137-157 | no rows for an unknown target; otherwise the rows are sorted by level ascending then control descending, and they are a permutation of the rows of the paths that pass the threshold, one per path at most |
| OwnershipQuery.QueryRowsMembers | api/main.py:140-156 | a row is returned iff the target exists and the row belongs to a matched path whose control is at least `min_percentage / 100` |
| OwnershipQuery.QueryRowsShape | api/main.py:140-141 | rows of well-shaped paths are well shaped: level = number of relationships, in 1..max_hops, with target and owner at the two path ends |
| Sorting.SortBySorted | api/main.py:145-157 | sorting rows already in order changes nothing, so the outer ORDER BY repeats the inner one without effect |
| Entities.OrUnknown | api/main.py:195 | the result is never empty; it is the given type when that is present and non-empty, and "Unknown" otherwise |
| FirstSeen.FirstOccurrencesKeys | api/main.py:240-246 | collapsing by key loses no key: the kept elements carry exactly the keys of the input |
| FirstSeen.FirstOccurrencesDistinct | api/main.py:240-246 | no two kept elements share a key |
| FirstSeen.FirstOccurrencesPositions | api/main.py:191-223 | the kept elements are the input elements at the positions where a key first appears, in input order, with every such position represented |
| OwnershipNetwork.PutIfAbsent | api/main.py:191-197 | inserting into the ordered node dictionary appends the node when its id is new and changes nothing otherwise, so the dictionary stays the first occurrences of everything offered to it |
| OwnershipNetwork.AddPair | api/main.py:203-234 | one consecutive pair offers its source at `level - i` and its target at `level - i - 1`, and appends its edge exactly when the relationship's percentage is present, nonzero and at least the threshold; both endpoints are in the dictionary afterwards |
| OwnershipNetwork.AddRow | api/main.py:184-234 | one row offers its owner at the row's level, then every pair of its path, appending that row's qualifying edges; every edge keeps both endpoints in the dictionary |
| OwnershipNetwork.AssembleGraph | api/main.py:170-234 | the node list is the first occurrence per id of the seeded target and of every node the rows offer; the edge list is every qualifying pair edge in order; ids are distinct, edge endpoints are present, the lists are empty when there are no rows, and otherwise the first node is the target at level 0 typed Corporation with the first row's company name |
| OwnershipNetwork.DedupEdges | api/main.py:239-246 | the result is the first edge of each (source, target) pair in input order; the pairs are distinct and every input pair is represented |
| OwnershipNetwork.GetOwnershipNetwork | api/main.py:132-257 | the network is the reference network of the query's rows; totals equal the list sizes; node ids and edge pairs are distinct; every edge's endpoints are nodes; every edge percentage is nonzero and at least the threshold; there are no nodes exactly when no row survives, and then the result is all empty, as it is for an unknown target; the first node is the target at level 0; for well-shaped paths every level is in 0..max_hops, and level 0 holds only the target |
| OwnershipNetwork.PairMentionLevels | api/main.py:203-223 | along a well-shaped row the offered levels stay in 0..max_hops, and only the target or the row's owner is offered at level 0 |
| OwnershipNetwork.NodeLevels | api/main.py:174-223 | for well-shaped paths the target is the first node, every node's level is in 0..max_hops, and a node has level 0 iff it is the target |
| OwnershipNetwork.EdgeProvenance | api/main.py:226-234 | every candidate edge is the edge of a pair of some row whose relationship percentage is present, nonzero and at least the threshold, so every edge percentage is nonzero and at least the threshold |
| OwnershipNetwork.EdgeEmitted | api/main.py:226-234 | every pair whose relationship percentage qualifies yields its edge among the candidates |
| OwnershipNetwork.NodeIds | api/main.py:174-223 | the node ids are exactly: the target's id (when a row exists), every row's owner id, and every node id of every row whose path has at least one pair |
| OwnershipScenarios.ScenarioRows | api/main.py:140-157 | with A owned 40% by B and B 50% by C and a 25% threshold, only B's direct path survives; the indirect path scores 0.2 |
| OwnershipScenarios.ScenarioNetwork | api/main.py:170-254 | in that example the network is A at level 0 and B at level 1, with one 40% edge and totals 2 and 1, for either listing of the path |
| EntitySearch.Rank | api/main.py:99 | the first sort key is 0 exactly for a case-insensitive prefix match and 1 otherwise |
| EntitySearch.HitOrderIsTotalPreorder | api/main.py:98-101 | the ordering by (rank, name length, name) is total and transitive |
| EntitySearch.HitOrderTies | api/main.py:98-101 | two entities tie under the three sort keys only when they have the same name (and so the same rank) |
| EntitySearch.RankedMatches | api/main.py:95-101 | the matches are sorted by (rank, name length, name) and are a permutation of the entities whose name contains the term, ignoring case |
| EntitySearch.ToResult | api/main.py:107-111 | a result keeps the entity's id and name; an entity's non-empty type is kept and a null or empty type becomes "Unknown" |
| EntitySearch.SearchEntities | api/main.py:85-114 | the number of results is the smaller of the limit and the number of matches; the results are the ranked matches, in order |
| EntitySearch.SearchSound | api/main.py:95-97 | every result is an entity whose name contains the term, ignoring case |
| EntitySearch.SearchComplete | api/main.py:95-102 | when no more entities match than the limit, every matching entity is returned |
| EntitySearch.SearchTopRanked | api/main.py:98-102 | among the results, prefix matches come first; every match cut off by the limit orders no earlier than any returned one |
| CsvProcessor.ProcessOwners | csv_processor.py:4-69 | going through the register in chunks of 10000 gives the person records of exactly the rows with `is_person` true and the company records of exactly the rows with `is_company` true, in order, with counts equal to the list sizes |
| CsvProcessor.PersonsSplit | csv_processor.py:10-44 | every row flagged as a person yields its renamed Person record, and every person record comes from such a row |
| CsvProcessor.OwnerCompaniesSplit | csv_processor.py:11-65 | every row flagged as a company yields its renamed Company record tagged `owners`, and every such record comes from such a row |
| CsvProcessor.ProcessStocks | csv_processor.py:71-93 | every stocks row becomes one Company record tagged `stocks`, carrying its id, organisation number, name, record year, total and outstanding shares, share classes and ISINs, with no address columns |
| CsvProcessor.OrgNumbers | csv_processor.py:113 | the groups are visited in strictly ascending organisation number, one visit for each number that occurs |
| CsvProcessor.FillMissing | csv_processor.py:133-138 | a present value is kept; a missing one takes the other record's value |
| CsvProcessor.MergeOneGroup | csv_processor.py:114-149 | one pass of the grouping loop computes the group's merge: the enriched first stocks record plus one mapping for a mergeable group, the group unchanged otherwise |
| CsvProcessor.MergeCompanies | csv_processor.py:95-165 | with no owners-derived companies the result is the stocks companies, with no stocks companies it is the owners companies, and otherwise it is the reference merge of the combined list and its id mappings |
| CsvProcessor.FirstFromIsFirst | csv_processor.py:116-123 | the record taken from a source is the earliest record of the group from that source |
| CsvProcessor.MergedGroupRecord | csv_processor.py:119-143 | a group of several records with both sources yields exactly one record: the first stocks record, keeping its id, name, number and share columns, with postal code, city and country kept where present and otherwise taken from the first owners record, tagged `merged`; and exactly one mapping from the owners id to the stocks id tagged `owners_to_stocks` |
| CsvProcessor.UnmergedGroupKept | csv_processor.py:144-149 | a single record, or a group lacking one of the sources, is kept whole and yields no mapping |
| CsvProcessor.MergeByOrgNumber | csv_processor.py:104-151 | for every organisation number, the merged records carrying it are exactly what merging that number's group yields, and none when the number does not occur |
| CsvProcessor.WithoutOrgKept | csv_processor.py:105-160 | the records without an organisation number come through unchanged, in order, as the tail of the result, after records that all have one |
| CsvProcessor.MappingsPerMergedGroup | csv_processor.py:111-130 | exactly one id mapping is emitted per merged group, in ascending organisation number, from the group's first owners id to its first stocks id |

## Left out

- Graph store access (driver, sessions, query execution) is left out. The
  bounded `*1..max_hops` traversal runs inside the store. The model takes its
  result as input: the entity matched by id (or none) and the matched paths.
  What the store guarantees about a path (its length, node count and
  endpoints) is the `PathShape` hypothesis.
- `query_time` is wall-clock timing and is not part of `Network`.
- The web framework is left out: routing, CORS, the mapping of exceptions to
  HTTP 500 and server startup. The parameter bounds of both endpoints become
  preconditions. These are `1 <= max_hops <= 8`, `0 <= min_percentage <= 100`,
  a term of at least 2 characters, and `1 <= limit <= 100`.
- `get_entity_details` is left out: its counting happens inside a store
  aggregation.
- Percentages and control are `real`, not IEEE floating point.
- Ties under `ORDER BY` are left in input order (a stable sort). The store
  leaves their order unspecified. In the search, ties are only between
  entities of equal name (`HitOrderTies`).
- NodeLevels: states that levels are in 0..max_hops and that only the target
  is at level 0. It does not state that a node's level is its hop distance
  from the target:
  - as written, that holds only when paths are listed owner first;
  - the model does not fix the listing order.
- EntitySearch.Rank: `toLower` and string order cover ASCII letters and
  character codes only. The store's Unicode case mapping and collation are not
  modelled.
- The frontend (user interface, HTTP client, graph layout) is left out. So are
  the test-data generators (random data, store writes, prompts).
- CSV reading and writing is left out. So are console output, the `main`
  driver and the file of id mappings. `MergeCompanies` returns the mappings
  instead; the source writes them to a file only when there are any.
- MergeCompanies: assumes that the frame built at csv_processor.py:151 holds
  the collected records in list order. The list mixes two kinds of element:
  row Series for merged and single-record groups (lines 143, 149) and plain
  dicts for groups that cannot be merged (line 146). The library may align
  the two kinds differently, or reject the mix when a Series comes first.
  That behaviour is library code outside this model, so the model does not
  capture a failure at that line.
- Entity ids and names are plain strings, so the model assumes every entity
  the store returns has a non-null id and name. The source's response records
  require both (api/main.py:56-65). A target, owner or path node without them
  makes record construction fail (api/main.py:176-223), and the whole request
  then fails (api/main.py:259-261). The model does not capture that failure.
- A frame is a sequence of records with optional cells. Combining the two
  company frames gives one record type with the columns of both. An
  organisation number is an integer, ordered numerically as grouping orders
  it.
- The empty frame returned when no person rows or company rows exist is
  modelled as the empty sequence. Its column layout is not modelled.
