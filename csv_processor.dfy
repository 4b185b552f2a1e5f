/** Turning the owners and stocks registers into graph node records: the
    owners rows split into persons and companies, the stocks rows projected to
    companies, and the two company lists merged per organisation number. A
    frame is a sequence of records; a missing cell is `None`. */
module CsvProcessor {
  import opened Options
  import opened Sequences

  /** One row of the owners register. */
  datatype OwnerRow = OwnerRow(
    id: string,
    ownerName: string,
    birthYear: Option<int>,
    organisationNumber: Option<int>,
    postalCode: Option<string>,
    postalCity: Option<string>,
    countryCode: Option<string>,
    recordYear: Option<int>,
    isPerson: Option<bool>,
    isCompany: Option<bool>)

  /** One row of the stocks register. */
  datatype StockRow = StockRow(
    id: string,
    organisationNumber: Option<int>,
    companyName: string,
    totalShares: Option<int>,
    outstandingShares: Option<int>,
    shareClasses: Option<string>,
    isins: Option<string>,
    recordYear: Option<int>)

  datatype PersonRecord = PersonRecord(
    personId: string,
    name: string,
    birthYear: Option<int>,
    postalCode: Option<string>,
    city: Option<string>,
    country: Option<string>,
    recordYear: Option<int>,
    nodeType: string)

  /** A company record with the columns of both sources; a column the record's
      source does not have is `None`. */
  datatype CompanyRecord = CompanyRecord(
    companyId: string,
    name: string,
    orgNumber: Option<int>,
    postalCode: Option<string>,
    city: Option<string>,
    country: Option<string>,
    recordYear: Option<int>,
    totalShares: Option<int>,
    outstandingShares: Option<int>,
    shareClasses: Option<string>,
    isins: Option<string>,
    nodeType: string,
    source: string)

  /** Which owners id was folded into which stocks id. */
  datatype IdMapping = IdMapping(originalId: string, mappedToId: string, source: string)

  const ChunkSize: int := 10000

  // ---------------------------------------------------------------------
  // The owners register.
  // ---------------------------------------------------------------------

  /** `is_person == True`; a missing flag is not true. */
  predicate IsPersonRow(r: OwnerRow)
  {
    r.isPerson == Some(true)
  }

  predicate IsCompanyRow(r: OwnerRow)
  {
    r.isCompany == Some(true)
  }

  /** The person columns, renamed, tagged Person. */
  function ToPerson(r: OwnerRow): PersonRecord
  {
    PersonRecord(r.id, r.ownerName, r.birthYear, r.postalCode, r.postalCity, r.countryCode, r.recordYear, "Person")
  }

  /** The company columns, renamed, tagged Company from the owners source. */
  function ToOwnersCompany(r: OwnerRow): CompanyRecord
  {
    CompanyRecord(r.id, r.ownerName, r.organisationNumber, r.postalCode, r.postalCity, r.countryCode,
                  r.recordYear, None, None, None, None, "Company", "owners")
  }

  function PersonsOf(rows: seq<OwnerRow>): seq<PersonRecord>
  {
    Map(Filter(rows, IsPersonRow), ToPerson)
  }

  function OwnerCompaniesOf(rows: seq<OwnerRow>): seq<CompanyRecord>
  {
    Map(Filter(rows, IsCompanyRow), ToOwnersCompany)
  }

  /** Reads the owners register chunk by chunk, keeping the person rows and the
      company rows of each chunk, then projects and tags them. */
  method ProcessOwners(rows: seq<OwnerRow>)
    returns (persons: seq<PersonRecord>, companies: seq<CompanyRecord>, personCount: int, companyCount: int)
    ensures persons == PersonsOf(rows) && companies == OwnerCompaniesOf(rows)
    ensures personCount == |persons| && companyCount == |companies|
  {
    var personRows: seq<OwnerRow> := [];
    var companyRows: seq<OwnerRow> := [];
    var pos := 0;
    while pos < |rows|
      invariant 0 <= pos <= |rows|
      invariant personRows == Filter(rows[..pos], IsPersonRow)
      invariant companyRows == Filter(rows[..pos], IsCompanyRow)
    {
      var end := if pos + ChunkSize <= |rows| then pos + ChunkSize else |rows|;
      var chunk := rows[pos..end];
      var personsChunk := Filter(chunk, IsPersonRow);
      var companiesChunk := Filter(chunk, IsCompanyRow);
      if personsChunk != [] {
        personRows := personRows + personsChunk;
      }
      if companiesChunk != [] {
        companyRows := companyRows + companiesChunk;
      }
      ChunkStep(rows, pos, end, IsPersonRow);
      ChunkStep(rows, pos, end, IsCompanyRow);
      pos := end;
    }
    assert rows[..pos] == rows;
    persons := Map(personRows, ToPerson);
    companies := Map(companyRows, ToOwnersCompany);
    personCount, companyCount := |personRows|, |companyRows|;
  }

  /** Filtering the rows up to `end` is filtering those before the chunk,
      then the chunk. */
  lemma ChunkStep(rows: seq<OwnerRow>, pos: int, end: int, p: OwnerRow -> bool)
    requires 0 <= pos <= end <= |rows|
    ensures Filter(rows[..end], p) == Filter(rows[..pos], p) + Filter(rows[pos..end], p)
  {
    assert rows[..end] == rows[..pos] + rows[pos..end];
    FilterConcat(rows[..pos], rows[pos..end], p);
  }

  /** The split is by the two flags independently, so a row flagged as both a
      person and a company yields a record in each list and a row flagged as
      neither yields none: every person row yields a Person record, and every
      Person record comes from a person row. */
  lemma PersonsSplit(rows: seq<OwnerRow>)
    ensures forall i :: 0 <= i < |rows| && rows[i].isPerson == Some(true) ==> ToPerson(rows[i]) in PersonsOf(rows)
    ensures forall p :: p in PersonsOf(rows) ==>
      p.nodeType == "Person" && exists i :: 0 <= i < |rows| && rows[i].isPerson == Some(true) && p == ToPerson(rows[i])
  {
    var ps := Filter(rows, IsPersonRow);
    var out := PersonsOf(rows);
    forall i | 0 <= i < |rows| && rows[i].isPerson == Some(true) ensures ToPerson(rows[i]) in out {
      assert IsPersonRow(rows[i]);
      var k :| 0 <= k < |ps| && ps[k] == rows[i];
      assert out[k] == ToPerson(rows[i]);
    }
    forall p | p in out
      ensures p.nodeType == "Person" && exists i :: 0 <= i < |rows| && rows[i].isPerson == Some(true) && p == ToPerson(rows[i])
    {
      var k :| 0 <= k < |ps| && out[k] == p;
      assert IsPersonRow(ps[k]);
      var i :| 0 <= i < |rows| && rows[i] == ps[k];
    }
  }

  /** Likewise every company row yields a Company record tagged with the
      owners source, and every such record comes from a company row. */
  lemma OwnerCompaniesSplit(rows: seq<OwnerRow>)
    ensures forall i :: 0 <= i < |rows| && rows[i].isCompany == Some(true) ==> ToOwnersCompany(rows[i]) in OwnerCompaniesOf(rows)
    ensures forall c :: c in OwnerCompaniesOf(rows) ==>
      c.nodeType == "Company" && c.source == "owners"
      && exists i :: 0 <= i < |rows| && rows[i].isCompany == Some(true) && c == ToOwnersCompany(rows[i])
  {
    var cs := Filter(rows, IsCompanyRow);
    var out := OwnerCompaniesOf(rows);
    forall i | 0 <= i < |rows| && rows[i].isCompany == Some(true) ensures ToOwnersCompany(rows[i]) in out {
      assert IsCompanyRow(rows[i]);
      var k :| 0 <= k < |cs| && cs[k] == rows[i];
      assert out[k] == ToOwnersCompany(rows[i]);
    }
    forall c | c in out
      ensures c.nodeType == "Company" && c.source == "owners"
      ensures exists i :: 0 <= i < |rows| && rows[i].isCompany == Some(true) && c == ToOwnersCompany(rows[i])
    {
      var k :| 0 <= k < |cs| && out[k] == c;
      assert IsCompanyRow(cs[k]);
      var i :| 0 <= i < |rows| && rows[i] == cs[k];
    }
  }

  // ---------------------------------------------------------------------
  // The stocks register.
  // ---------------------------------------------------------------------

  function ToStocksCompany(r: StockRow): CompanyRecord
  {
    CompanyRecord(r.id, r.companyName, r.organisationNumber, None, None, None, r.recordYear,
                  r.totalShares, r.outstandingShares, r.shareClasses, r.isins, "Company", "stocks")
  }

  /** Every stocks row becomes one company record from the stocks source, with
      its columns renamed and carried over and no address columns. */
  function ProcessStocks(rows: seq<StockRow>): (companies: seq<CompanyRecord>)
    ensures |companies| == |rows|
    ensures forall i :: 0 <= i < |rows| ==>
      && companies[i].companyId == rows[i].id
      && companies[i].orgNumber == rows[i].organisationNumber
      && companies[i].name == rows[i].companyName
      && companies[i].recordYear == rows[i].recordYear
      && companies[i].totalShares == rows[i].totalShares
      && companies[i].outstandingShares == rows[i].outstandingShares
      && companies[i].shareClasses == rows[i].shareClasses
      && companies[i].isins == rows[i].isins
      && companies[i].source == "stocks" && companies[i].nodeType == "Company"
      && companies[i].postalCode.None? && companies[i].city.None? && companies[i].country.None?
  {
    Map(rows, ToStocksCompany)
  }

  // ---------------------------------------------------------------------
  // Merging per organisation number.
  // ---------------------------------------------------------------------

  predicate HasOrgNumber(r: CompanyRecord)
  {
    r.orgNumber.Some?
  }

  predicate LacksOrgNumber(r: CompanyRecord)
  {
    r.orgNumber.None?
  }

  function WithOrgNumber(k: int): CompanyRecord -> bool
  {
    (r: CompanyRecord) => r.orgNumber == Some(k)
  }

  function FromSource(source: string): CompanyRecord -> bool
  {
    (r: CompanyRecord) => r.source == source
  }

  /** The records of one organisation number, in their input order. */
  function Group(recs: seq<CompanyRecord>, k: int): seq<CompanyRecord>
  {
    Filter(recs, WithOrgNumber(k))
  }

  predicate StrictlyIncreasing(keys: seq<int>)
  {
    forall i, j :: 0 <= i < j < |keys| ==> keys[i] < keys[j]
  }

  function InsertKey(k: int, keys: seq<int>): (r: seq<int>)
    requires StrictlyIncreasing(keys)
    ensures StrictlyIncreasing(r)
    ensures forall x :: x in r <==> x == k || x in keys
  {
    if keys == [] then [k]
    else if k < keys[0] then [k] + keys
    else if k == keys[0] then keys
    else
      var rest := InsertKey(k, keys[1..]);
      assert forall j :: 0 <= j < |keys| - 1 ==> keys[1..][j] == keys[j + 1];
      assert forall x :: x in rest ==> keys[0] < x;
      ConsIncreasing(keys[0], rest);
      [keys[0]] + rest
  }

  lemma ConsIncreasing(x: int, rest: seq<int>)
    requires StrictlyIncreasing(rest)
    requires forall y :: y in rest ==> x < y
    ensures StrictlyIncreasing([x] + rest)
  {
    var s := [x] + rest;
    forall i, j | 0 <= i < j < |s| ensures s[i] < s[j] {
      assert s[j] == rest[j - 1];
      if i > 0 {
        assert s[i] == rest[i - 1];
      } else {
        assert s[0] == x && rest[j - 1] in rest;
      }
    }
  }

  /** The organisation numbers of `recs`, ascending and each once: the order
      in which grouping visits the groups. */
  function OrgNumbers(recs: seq<CompanyRecord>): (keys: seq<int>)
    ensures StrictlyIncreasing(keys)
    ensures forall k :: k in keys <==> exists i :: 0 <= i < |recs| && recs[i].orgNumber == Some(k)
  {
    if recs == [] then []
    else
      var n := |recs| - 1;
      var keys := OrgNumbers(recs[..n]);
      assert forall i :: 0 <= i < n ==> recs[..n][i] == recs[i];
      match recs[n].orgNumber
      case None => keys
      case Some(k) => InsertKey(k, keys)
  }

  /** A missing value filled from the other record where that one has it. */
  function FillMissing<T>(primary: Option<T>, other: Option<T>): (r: Option<T>)
    ensures primary.Some? ==> r == primary
    ensures primary.None? ==> r == other
  {
    if primary.None? && other.Some? then other else primary
  }

  /** The first stocks record, enriched from the first owners record and tagged
      as merged. */
  function Enrich(primary: CompanyRecord, ownersData: CompanyRecord): CompanyRecord
  {
    primary.(postalCode := FillMissing(primary.postalCode, ownersData.postalCode),
             city := FillMissing(primary.city, ownersData.city),
             country := FillMissing(primary.country, ownersData.country),
             source := "merged")
  }

  /** A group is merged when it has more than one record and records from both
      sources. */
  predicate Mergeable(group: seq<CompanyRecord>)
  {
    |group| > 1 && Filter(group, FromSource("owners")) != [] && Filter(group, FromSource("stocks")) != []
  }

  datatype GroupResult = GroupResult(records: seq<CompanyRecord>, mappings: seq<IdMapping>)

  /** What one group contributes. */
  function MergeGroup(group: seq<CompanyRecord>): GroupResult
  {
    if Mergeable(group) then
      GroupResult([Enrich(FirstFrom(group, "stocks"), FirstFrom(group, "owners"))], [MappingOf(group)])
    else GroupResult(group, [])
  }

  /** The first record of the group from the given source. */
  function FirstFrom(group: seq<CompanyRecord>, source: string): CompanyRecord
    requires Filter(group, FromSource(source)) != []
  {
    Filter(group, FromSource(source))[0]
  }

  /** The id mapping of a merged group: first owners id to first stocks id. */
  function MappingOf(group: seq<CompanyRecord>): IdMapping
    requires Mergeable(group)
  {
    IdMapping(FirstFrom(group, "owners").companyId, FirstFrom(group, "stocks").companyId, "owners_to_stocks")
  }

  /** The grouped records of the organisation numbers `keys`, in order. */
  function GroupedRecords(withOrg: seq<CompanyRecord>, keys: seq<int>): seq<CompanyRecord>
  {
    if keys == [] then []
    else GroupedRecords(withOrg, keys[..|keys| - 1]) + MergeGroup(Group(withOrg, keys[|keys| - 1])).records
  }

  function GroupedMappings(withOrg: seq<CompanyRecord>, keys: seq<int>): seq<IdMapping>
  {
    if keys == [] then []
    else GroupedMappings(withOrg, keys[..|keys| - 1]) + MergeGroup(Group(withOrg, keys[|keys| - 1])).mappings
  }

  /** The merge of a combined list: the groups in ascending organisation
      number, then the records without one. */
  function MergedRecords(all: seq<CompanyRecord>): seq<CompanyRecord>
  {
    var withOrg := Filter(all, HasOrgNumber);
    GroupedRecords(withOrg, OrgNumbers(withOrg)) + Filter(all, LacksOrgNumber)
  }

  function MergedMappings(all: seq<CompanyRecord>): seq<IdMapping>
  {
    var withOrg := Filter(all, HasOrgNumber);
    GroupedMappings(withOrg, OrgNumbers(withOrg))
  }

  /** Merges the owners-derived and stocks-derived company lists. The id
      mappings, which the source writes to a file of their own, are returned. */
  method MergeCompanies(fromOwners: seq<CompanyRecord>, fromStocks: seq<CompanyRecord>)
    returns (merged: seq<CompanyRecord>, mappings: seq<IdMapping>)
    ensures fromOwners == [] ==> merged == fromStocks && mappings == []
    ensures fromOwners != [] && fromStocks == [] ==> merged == fromOwners && mappings == []
    ensures fromOwners != [] && fromStocks != [] ==>
      merged == MergedRecords(fromOwners + fromStocks) && mappings == MergedMappings(fromOwners + fromStocks)
  {
    mappings := [];
    if fromOwners == [] {
      merged := fromStocks;
    } else if fromStocks == [] {
      merged := fromOwners;
    } else {
      var all := fromOwners + fromStocks;
      var withOrg := Filter(all, HasOrgNumber);
      var withoutOrg := Filter(all, LacksOrgNumber);
      var keys := OrgNumbers(withOrg);
      var grouped := withOrg;
      if withOrg != [] {
        var finals: seq<CompanyRecord> := [];
        var i := 0;
        while i < |keys|
          invariant 0 <= i <= |keys|
          invariant finals == GroupedRecords(withOrg, keys[..i])
          invariant mappings == GroupedMappings(withOrg, keys[..i])
        {
          var group := Group(withOrg, keys[i]);
          GroupNonEmpty(withOrg, keys[i]);
          var records, groupMappings := MergeOneGroup(group);
          MergeGroupStep(withOrg, keys, i);
          finals := finals + records;
          mappings := mappings + groupMappings;
          i := i + 1;
        }
        assert keys[..i] == keys;
        grouped := finals;
      } else {
        assert keys == [];
      }
      merged := grouped + withoutOrg;
    }
  }

  /** One pass of the grouping loop's body: a group of several records with
      records from both sources becomes its first stocks record, enriched, and
      one id mapping; any other group is kept as it is. */
  method MergeOneGroup(group: seq<CompanyRecord>) returns (records: seq<CompanyRecord>, mappings: seq<IdMapping>)
    requires group != []
    ensures GroupResult(records, mappings) == MergeGroup(group)
  {
    mappings := [];
    if |group| > 1 {
      var ownersRecord := Filter(group, FromSource("owners"));
      var stocksRecord := Filter(group, FromSource("stocks"));
      if ownersRecord != [] && stocksRecord != [] {
        var primary := stocksRecord[0];
        var ownersData := ownersRecord[0];
        mappings := [IdMapping(ownersData.companyId, primary.companyId, "owners_to_stocks")];
        if primary.postalCode.None? && ownersData.postalCode.Some? {
          primary := primary.(postalCode := ownersData.postalCode);
        }
        if primary.city.None? && ownersData.city.Some? {
          primary := primary.(city := ownersData.city);
        }
        if primary.country.None? && ownersData.country.Some? {
          primary := primary.(country := ownersData.country);
        }
        primary := primary.(source := "merged");
        records := [primary];
      } else {
        records := group;
      }
    } else {
      records := [group[0]];
    }
  }

  /** How the grouped lists grow by one key. */
  lemma MergeGroupStep(withOrg: seq<CompanyRecord>, keys: seq<int>, i: int)
    requires 0 <= i < |keys|
    ensures GroupedRecords(withOrg, keys[..i + 1])
         == GroupedRecords(withOrg, keys[..i]) + MergeGroup(Group(withOrg, keys[i])).records
    ensures GroupedMappings(withOrg, keys[..i + 1])
         == GroupedMappings(withOrg, keys[..i]) + MergeGroup(Group(withOrg, keys[i])).mappings
  {
    assert keys[..i + 1][..i] == keys[..i];
  }

  /** Every organisation number that occurs has a nonempty group. */
  lemma GroupNonEmpty(recs: seq<CompanyRecord>, k: int)
    requires k in OrgNumbers(recs)
    ensures Group(recs, k) != []
  {
    var i :| 0 <= i < |recs| && recs[i].orgNumber == Some(k);
    assert WithOrgNumber(k)(recs[i]);
  }

  // ---------------------------------------------------------------------
  // Properties of the merge.
  // ---------------------------------------------------------------------

  /** `FirstFrom` is the earliest record of the group from that source. */
  lemma FirstFromIsFirst(group: seq<CompanyRecord>, source: string)
    requires Filter(group, FromSource(source)) != []
    ensures exists j :: 0 <= j < |group| && group[j] == FirstFrom(group, source)
                     && group[j].source == source
                     && forall i :: 0 <= i < j ==> group[i].source != source
  {
    FilterHead(group, FromSource(source));
  }

  /** A merged group yields exactly one record: the first stocks record, with
      its id, name, organisation number and share columns kept, each of postal
      code, city and country kept where present and otherwise taken from the
      first owners record, and tagged merged; and exactly one id mapping, from
      the first owners id to that stocks id. */
  lemma MergedGroupRecord(group: seq<CompanyRecord>)
    requires Mergeable(group)
    ensures var st, ow, m := FirstFrom(group, "stocks"), FirstFrom(group, "owners"), MergeGroup(group);
      && |m.records| == 1
      && m.records[0].companyId == st.companyId && m.records[0].name == st.name
      && m.records[0].orgNumber == st.orgNumber && m.records[0].recordYear == st.recordYear
      && m.records[0].totalShares == st.totalShares && m.records[0].outstandingShares == st.outstandingShares
      && m.records[0].shareClasses == st.shareClasses && m.records[0].isins == st.isins
      && m.records[0].nodeType == st.nodeType
      && m.records[0].source == "merged"
      && (st.postalCode.Some? ==> m.records[0].postalCode == st.postalCode)
      && (st.postalCode.None? ==> m.records[0].postalCode == ow.postalCode)
      && (st.city.Some? ==> m.records[0].city == st.city)
      && (st.city.None? ==> m.records[0].city == ow.city)
      && (st.country.Some? ==> m.records[0].country == st.country)
      && (st.country.None? ==> m.records[0].country == ow.country)
      && m.mappings == [IdMapping(ow.companyId, st.companyId, "owners_to_stocks")]
  {
  }

  /** A single record, or a group missing one of the sources, is kept whole
      and yields no mapping. */
  lemma UnmergedGroupKept(group: seq<CompanyRecord>)
    requires |group| <= 1 || Filter(group, FromSource("owners")) == [] || Filter(group, FromSource("stocks")) == []
    ensures MergeGroup(group) == GroupResult(group, [])
  {
  }

  /** Merging keeps a group's organisation number on every record it yields. */
  lemma MergeGroupOrg(group: seq<CompanyRecord>, k: int)
    requires forall i :: 0 <= i < |group| ==> group[i].orgNumber == Some(k)
    ensures forall i :: 0 <= i < |MergeGroup(group).records| ==> MergeGroup(group).records[i].orgNumber == Some(k)
  {
    if Mergeable(group) {
      var st := FirstFrom(group, "stocks");
      assert st in group;
    }
  }

  lemma GroupOrg(recs: seq<CompanyRecord>, k: int)
    ensures forall i :: 0 <= i < |Group(recs, k)| ==> Group(recs, k)[i].orgNumber == Some(k)
  {
    var g := Group(recs, k);
    forall i | 0 <= i < |g| ensures g[i].orgNumber == Some(k) {
      assert WithOrgNumber(k)(g[i]);
    }
  }

  /** Filtering the grouped records to one organisation number gives that
      group's merge, or nothing when `k` is not among the keys. */
  lemma {:induction false} GroupedFilter(withOrg: seq<CompanyRecord>, keys: seq<int>, k: int)
    requires StrictlyIncreasing(keys)
    ensures Filter(GroupedRecords(withOrg, keys), WithOrgNumber(k))
         == if k in keys then MergeGroup(Group(withOrg, k)).records else []
  {
    if keys != [] {
      var n := |keys| - 1;
      var init, last := keys[..n], keys[n];
      assert keys == init + [last];
      assert StrictlyIncreasing(init);
      GroupedFilter(withOrg, init, k);
      var part := MergeGroup(Group(withOrg, last)).records;
      FilterConcat(GroupedRecords(withOrg, init), part, WithOrgNumber(k));
      GroupOrg(withOrg, last);
      MergeGroupOrg(Group(withOrg, last), last);
      if last == k {
        FilterKeepsAll(part, WithOrgNumber(k));
        assert k !in init;
      } else {
        FilterKeepsNone(part, WithOrgNumber(k));
      }
    }
  }

  /** Grouping the records that have an organisation number gives the same
      group as grouping all records. */
  lemma GroupOfWithOrg(all: seq<CompanyRecord>, k: int)
    ensures Group(Filter(all, HasOrgNumber), k) == Group(all, k)
  {
    FilterFilter(all, HasOrgNumber, WithOrgNumber(k));
  }

  /** Per organisation number, the merged list holds exactly what merging that
      number's group yields: one enriched record for a mergeable group, the
      whole group otherwise, nothing for a number that does not occur. */
  lemma MergeByOrgNumber(all: seq<CompanyRecord>, k: int)
    ensures Filter(MergedRecords(all), WithOrgNumber(k)) == MergeGroup(Group(all, k)).records
  {
    var withOrg := Filter(all, HasOrgNumber);
    var keys := OrgNumbers(withOrg);
    var without := Filter(all, LacksOrgNumber);
    FilterConcat(GroupedRecords(withOrg, keys), without, WithOrgNumber(k));
    GroupedFilter(withOrg, keys, k);
    FilterKeepsNone(without, WithOrgNumber(k));
    GroupOfWithOrg(all, k);
    if k !in keys {
      GroupOfMissingKey(withOrg, k);
    }
  }

  /** A number that is not among the organisation numbers has no group. */
  lemma GroupOfMissingKey(recs: seq<CompanyRecord>, k: int)
    requires k !in OrgNumbers(recs)
    ensures Group(recs, k) == []
  {
    assert forall i :: 0 <= i < |recs| ==> !WithOrgNumber(k)(recs[i]);
    FilterKeepsNone(recs, WithOrgNumber(k));
  }

  lemma {:induction false} GroupedHaveOrg(withOrg: seq<CompanyRecord>, keys: seq<int>)
    ensures forall i :: 0 <= i < |GroupedRecords(withOrg, keys)| ==> GroupedRecords(withOrg, keys)[i].orgNumber.Some?
  {
    if keys != [] {
      var n := |keys| - 1;
      GroupedHaveOrg(withOrg, keys[..n]);
      GroupOrg(withOrg, keys[n]);
      MergeGroupOrg(Group(withOrg, keys[n]), keys[n]);
    }
  }

  /** The records without an organisation number come through unchanged, in
      their order, after all grouped records. */
  lemma WithoutOrgKept(all: seq<CompanyRecord>)
    ensures Filter(MergedRecords(all), LacksOrgNumber) == Filter(all, LacksOrgNumber)
    ensures var grouped := |MergedRecords(all)| - |Filter(all, LacksOrgNumber)|;
      0 <= grouped && MergedRecords(all)[grouped..] == Filter(all, LacksOrgNumber)
      && forall i :: 0 <= i < grouped ==> MergedRecords(all)[i].orgNumber.Some?
  {
    var withOrg := Filter(all, HasOrgNumber);
    var keys := OrgNumbers(withOrg);
    var without := Filter(all, LacksOrgNumber);
    var gr := GroupedRecords(withOrg, keys);
    FilterConcat(gr, without, LacksOrgNumber);
    GroupedHaveOrg(withOrg, keys);
    FilterKeepsNone(gr, LacksOrgNumber);
    FilterKeepsAll(without, LacksOrgNumber);
    assert MergedRecords(all) == gr + without;
  }

  predicate MergeableIn(withOrg: seq<CompanyRecord>, k: int)
  {
    Mergeable(Group(withOrg, k))
  }

  function MergeableKeyOf(withOrg: seq<CompanyRecord>): int -> bool
  {
    k => MergeableIn(withOrg, k)
  }

  /** The organisation numbers whose groups are merged, ascending. */
  function MergedKeys(all: seq<CompanyRecord>): seq<int>
  {
    var withOrg := Filter(all, HasOrgNumber);
    Filter(OrgNumbers(withOrg), MergeableKeyOf(withOrg))
  }

  /** What the mappings and the merged keys look like after one more key. */
  lemma MappingsSnoc(withOrg: seq<CompanyRecord>, keys: seq<int>)
    requires keys != []
    ensures var n := |keys| - 1;
      && Filter(keys, MergeableKeyOf(withOrg))
         == Filter(keys[..n], MergeableKeyOf(withOrg)) + (if MergeableIn(withOrg, keys[n]) then [keys[n]] else [])
      && GroupedMappings(withOrg, keys)
         == GroupedMappings(withOrg, keys[..n])
            + (if MergeableIn(withOrg, keys[n]) then [MappingOf(Group(withOrg, keys[n]))] else [])
  {
    var n := |keys| - 1;
    assert keys == keys[..n] + [keys[n]];
    FilterSnoc(keys[..n], keys[n], MergeableKeyOf(withOrg));
  }

  lemma {:induction false} GroupedMappingsAre(withOrg: seq<CompanyRecord>, keys: seq<int>)
    ensures var mk := Filter(keys, MergeableKeyOf(withOrg));
      && |GroupedMappings(withOrg, keys)| == |mk|
      && forall j :: 0 <= j < |mk| ==>
           MergeableIn(withOrg, mk[j]) && GroupedMappings(withOrg, keys)[j] == MappingOf(Group(withOrg, mk[j]))
  {
    if keys != [] {
      var n := |keys| - 1;
      GroupedMappingsAre(withOrg, keys[..n]);
      MappingsSnoc(withOrg, keys);
    }
  }

  /** The merge emits one id mapping per merged group, in ascending
      organisation number: the first owners id of that group mapped to its
      first stocks id. */
  lemma MappingsPerMergedGroup(all: seq<CompanyRecord>)
    ensures |MergedMappings(all)| == |MergedKeys(all)|
    ensures forall j :: 0 <= j < |MergedKeys(all)| ==>
      Mergeable(Group(all, MergedKeys(all)[j])) && MergedMappings(all)[j] == MappingOf(Group(all, MergedKeys(all)[j]))
    ensures StrictlyIncreasing(MergedKeys(all))
  {
    var withOrg := Filter(all, HasOrgNumber);
    var keys := OrgNumbers(withOrg);
    var mk := MergedKeys(all);
    GroupedMappingsAre(withOrg, keys);
    forall j | 0 <= j < |mk|
      ensures Mergeable(Group(all, mk[j])) && MergedMappings(all)[j] == MappingOf(Group(all, mk[j]))
    {
      GroupOfWithOrg(all, mk[j]);
    }
    FilterIncreasing(keys, MergeableKeyOf(withOrg));
  }

  lemma {:induction false} FilterIncreasing(keys: seq<int>, p: int -> bool)
    requires StrictlyIncreasing(keys)
    ensures StrictlyIncreasing(Filter(keys, p))
  {
    if keys != [] {
      assert StrictlyIncreasing(keys[1..]);
      FilterIncreasing(keys[1..], p);
      var rest := Filter(keys[1..], p);
      assert forall i :: 0 <= i < |rest| ==> rest[i] in keys[1..];
      assert forall x :: x in keys[1..] ==> keys[0] < x;
    }
  }
}
