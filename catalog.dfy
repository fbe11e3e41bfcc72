/**
 * The catalog part of `get_luid`: the calculated fields and the published data sources
 * returned by the two metadata queries are normalised, numbered, joined on the data
 * source name, and narrowed to the data source the user picks by its ID.
 */
module Catalog {
  import opened Wrappers
  import opened Text
  import Merge

  /** The `datasource { name }` object of a calculated field. */
  datatype DatasourceRef = DatasourceRef(name: string)

  /** One element of `calculatedFields`; `datasource` is null for a field without an owning data source. */
  datatype RawCalculatedField = RawCalculatedField(fullyQualifiedName: string, formula: string, datasource: Option<DatasourceRef>)

  /** One element of `publishedDatasources`. */
  datatype PublishedDatasource = PublishedDatasource(luid: string, name: string)

  /** A row of `fields_df` once flattened, renamed and stripped of brackets. */
  datatype CalcField = CalcField(fullyQualifiedName: string, formula: string, datasourceName: Option<string>)

  /** A row of `merged_df` that kept its `luid`: a calculated field next to its published data source. */
  datatype CatalogRow = CatalogRow(fullyQualifiedName: string, formula: string, datasourceName: Option<string>, luid: string, name: string)

  /** The exception pandas raises when a step asks for a column the frame does not have. */
  datatype CatalogError = MissingColumn(column: string)

  // ---------------------------------------------------------------------------
  // Normalising the calculated fields (json_normalize, rename, bracket strip)
  // ---------------------------------------------------------------------------

  function Normalize(f: RawCalculatedField): (c: CalcField)
    ensures c.fullyQualifiedName == StripBrackets(f.fullyQualifiedName)
    ensures BracketFree(c.fullyQualifiedName)
    ensures c.formula == f.formula
    ensures c.datasourceName.Some? <==> f.datasource.Some?
    ensures f.datasource.Some? ==> c.datasourceName.value == f.datasource.value.name
  {
    CalcField(StripBrackets(f.fullyQualifiedName), f.formula,
              match f.datasource case None => None case Some(ds) => Some(ds.name))
  }

  function NormalizeAll(fields: seq<RawCalculatedField>): (cs: seq<CalcField>)
    ensures |cs| == |fields|
    ensures forall i :: 0 <= i < |fields| ==> cs[i] == Normalize(fields[i])
  {
    if fields == [] then [] else [Normalize(fields[0])] + NormalizeAll(fields[1..])
  }

  lemma {:induction false} NormalizeAllAppend(a: seq<RawCalculatedField>, b: seq<RawCalculatedField>)
    ensures NormalizeAll(a + b) == NormalizeAll(a) + NormalizeAll(b)
  {
    assert |NormalizeAll(a + b)| == |NormalizeAll(a) + NormalizeAll(b)|;
    forall i | 0 <= i < |a + b|
      ensures NormalizeAll(a + b)[i] == (NormalizeAll(a) + NormalizeAll(b))[i]
    {
      if i < |a| { assert (a + b)[i] == a[i]; } else { assert (a + b)[i] == b[i - |a|]; }
    }
  }

  /** After normalisation no qualified name holds `[` or `]`; the other characters are kept in order. */
  lemma NormalizedNamesBracketFree(fields: seq<RawCalculatedField>)
    ensures forall c :: c in NormalizeAll(fields) ==> BracketFree(c.fullyQualifiedName)
    ensures forall i :: 0 <= i < |fields| && BracketFree(fields[i].fullyQualifiedName) ==>
      NormalizeAll(fields)[i].fullyQualifiedName == fields[i].fullyQualifiedName
  {
    forall i | 0 <= i < |fields| && BracketFree(fields[i].fullyQualifiedName)
      ensures NormalizeAll(fields)[i].fullyQualifiedName == fields[i].fullyQualifiedName
    {
      StripBracketsKeeps(fields[i].fullyQualifiedName);
    }
  }

  // ---------------------------------------------------------------------------
  // IDs: a RangeIndex shifted by one (`datasources_df.index += 1`)
  // ---------------------------------------------------------------------------

  /** pandas' default index 0, 1, ..., n - 1. */
  function RangeIndex(n: nat): (index: seq<int>)
    ensures |index| == n
    ensures forall i :: 0 <= i < n ==> index[i] == i
  {
    if n == 0 then [] else RangeIndex(n - 1) + [n - 1]
  }

  /** `index += k`. */
  function Shift(index: seq<int>, k: int): (shifted: seq<int>)
    ensures |shifted| == |index|
    ensures forall i :: 0 <= i < |index| ==> shifted[i] == index[i] + k
  {
    if index == [] then [] else [index[0] + k] + Shift(index[1..], k)
  }

  /** The ID column shown to the user: data source i (from 0) of the listing gets ID i + 1. */
  function Ids(sources: seq<PublishedDatasource>): (ids: seq<int>)
    ensures |ids| == |sources|
    ensures forall i :: 0 <= i < |sources| ==> ids[i] == i + 1
  {
    Shift(RangeIndex(|sources|), 1)
  }

  /** `n in datasources_df.index` holds exactly for the IDs 1..N. */
  lemma IdsAreOneToN(sources: seq<PublishedDatasource>, n: int)
    ensures n in Ids(sources) <==> 1 <= n <= |sources|
  {
    if 1 <= n <= |sources| {
      assert Ids(sources)[n - 1] == n;
    }
  }

  /**
   * `df.loc[n]`: the row whose index label is `n`. pandas raises KeyError for a missing label and
   * returns several rows for a repeated one; neither happens here, since the labels 1..N are unique
   * and the lookup comes after the `in` test. `None` is the model's value for a missing label.
   */
  function Loc(index: seq<int>, rows: seq<PublishedDatasource>, n: int): Option<PublishedDatasource>
    requires |index| == |rows|
  {
    if index == [] then None
    else if index[0] == n then Some(rows[0])
    else Loc(index[1..], rows[1..], n)
  }

  /** On consecutive labels c, c + 1, ..., the label n names row n - c. */
  lemma {:induction false} LocOnConsecutive(index: seq<int>, rows: seq<PublishedDatasource>, n: int, c: int)
    requires |index| == |rows|
    requires forall i :: 0 <= i < |index| ==> index[i] == i + c
    ensures Loc(index, rows, n) == if c <= n < c + |rows| then Some(rows[n - c]) else None
  {
    if index != [] && index[0] != n {
      LocOnConsecutive(index[1..], rows[1..], n, c + 1);
    }
  }

  // ---------------------------------------------------------------------------
  // The catalog join (lines 76-78)
  // ---------------------------------------------------------------------------

  function OwnerKey(c: CalcField): Option<string> { c.datasourceName }

  function NameKey(d: PublishedDatasource): Option<string> { Some(d.name) }

  function ToRow(c: CalcField, d: PublishedDatasource): CatalogRow {
    CatalogRow(c.fullyQualifiedName, c.formula, c.datasourceName, d.luid, d.name)
  }

  /** `merged_df.dropna(subset=['luid'])`: rows whose data source side is null are dropped. */
  function DropNullLuid(merged: seq<(CalcField, Option<PublishedDatasource>)>): (rows: seq<CatalogRow>)
    ensures |rows| <= |merged|
  {
    if merged == [] then []
    else
      (match merged[0].1 case None => [] case Some(d) => [ToRow(merged[0].0, d)])
      + DropNullLuid(merged[1..])
  }

  /** `dropna` keeps exactly the joined rows whose data source side is present, each as its catalog row. */
  lemma {:induction false} DropNullLuidExact(merged: seq<(CalcField, Option<PublishedDatasource>)>)
    ensures forall row :: row in DropNullLuid(merged) <==>
      exists i :: 0 <= i < |merged| && merged[i].1.Some? && row == ToRow(merged[i].0, merged[i].1.value)
  {
    if merged != [] {
      var rest := merged[1..];
      DropNullLuidExact(rest);
      forall row
        ensures row in DropNullLuid(merged) <==>
          exists i :: 0 <= i < |merged| && merged[i].1.Some? && row == ToRow(merged[i].0, merged[i].1.value)
      {
        if row in DropNullLuid(rest) {
          var j :| 0 <= j < |rest| && rest[j].1.Some? && row == ToRow(rest[j].0, rest[j].1.value);
          assert merged[j + 1] == rest[j];
        }
        if exists i :: 0 <= i < |merged| && merged[i].1.Some? && row == ToRow(merged[i].0, merged[i].1.value) {
          var i :| 0 <= i < |merged| && merged[i].1.Some? && row == ToRow(merged[i].0, merged[i].1.value);
          if i > 0 { assert rest[i - 1] == merged[i]; }
        }
      }
    }
  }

  lemma {:induction false} DropNullLuidAppend(a: seq<(CalcField, Option<PublishedDatasource>)>, b: seq<(CalcField, Option<PublishedDatasource>)>)
    ensures DropNullLuid(a + b) == DropNullLuid(a) + DropNullLuid(b)
  {
    if a == [] {
      assert a + b == b;
    } else {
      assert (a + b)[0] == a[0];
      assert (a + b)[1..] == a[1..] + b;
      DropNullLuidAppend(a[1..], b);
    }
  }

  /** The pipeline of lines 63-78, with every step total (see `BuildCatalogAsWritten` for the steps that raise). */
  function BuildCatalog(fields: seq<RawCalculatedField>, sources: seq<PublishedDatasource>): seq<CatalogRow>
  {
    DropNullLuid(Merge.LeftJoin(NormalizeAll(fields), sources, OwnerKey, NameKey))
  }

  /** Reference definition: the rows of one field, one per published data source of its owner's name. */
  function RowsFor(c: CalcField, sources: seq<PublishedDatasource>): seq<CatalogRow>
  {
    if sources == [] then []
    else (if c.datasourceName == Some(sources[0].name) then [ToRow(c, sources[0])] else [])
         + RowsFor(c, sources[1..])
  }

  /** Reference definition: the inner join of fields and published data sources, field by field. */
  function InnerJoin(cs: seq<CalcField>, sources: seq<PublishedDatasource>): seq<CatalogRow>
  {
    if cs == [] then [] else RowsFor(cs[0], sources) + InnerJoin(cs[1..], sources)
  }

  lemma {:induction false} DropNullLuidOfBlock(c: CalcField, sources: seq<PublishedDatasource>)
    ensures DropNullLuid(Merge.Block(c, Merge.Matches(c, sources, OwnerKey, NameKey))) == RowsFor(c, sources)
  {
    DropNullLuidOfPaired(c, sources);
  }

  lemma {:induction false} DropNullLuidOfPaired(c: CalcField, sources: seq<PublishedDatasource>)
    ensures DropNullLuid(Merge.Paired(c, Merge.Matches(c, sources, OwnerKey, NameKey))) == RowsFor(c, sources)
  {
    if sources != [] {
      DropNullLuidOfPaired(c, sources[1..]);
      var rest := Merge.Matches(c, sources[1..], OwnerKey, NameKey);
      if NameKey(sources[0]) == OwnerKey(c) {
        var m := [sources[0]] + rest;
        assert m[1..] == rest;
        assert Merge.Paired(c, m) == [(c, Some(sources[0]))] + Merge.Paired(c, rest);
        DropNullLuidAppend([(c, Some(sources[0]))], Merge.Paired(c, rest));
      }
    }
  }

  /** A left join followed by `dropna` on `luid` is the inner join of the fields and the published data sources. */
  lemma {:induction false} BuildCatalogIsInnerJoin(cs: seq<CalcField>, sources: seq<PublishedDatasource>)
    ensures DropNullLuid(Merge.LeftJoin(cs, sources, OwnerKey, NameKey)) == InnerJoin(cs, sources)
  {
    if cs != [] {
      var b := Merge.Block(cs[0], Merge.Matches(cs[0], sources, OwnerKey, NameKey));
      DropNullLuidAppend(b, Merge.LeftJoin(cs[1..], sources, OwnerKey, NameKey));
      DropNullLuidOfBlock(cs[0], sources);
      BuildCatalogIsInnerJoin(cs[1..], sources);
    }
  }

  /** Every row of a field's rows is that field next to a published data source of its owner's name, and back. */
  lemma {:induction false} RowsForExact(c: CalcField, sources: seq<PublishedDatasource>)
    ensures forall row :: row in RowsFor(c, sources) <==>
      exists d :: d in sources && c.datasourceName == Some(d.name) && row == ToRow(c, d)
  {
    if sources != [] {
      RowsForExact(c, sources[1..]);
      forall d | d in sources
        ensures d in sources[1..] || d == sources[0]
      {
        var i :| 0 <= i < |sources| && sources[i] == d;
        if i > 0 { assert sources[1..][i - 1] == d; }
      }
    }
  }

  /** A field owned by k published data sources yields k rows; a field of an unpublished source yields none. */
  function OwnerCount(c: CalcField, sources: seq<PublishedDatasource>): nat
  {
    if sources == [] then 0
    else (if c.datasourceName == Some(sources[0].name) then 1 else 0) + OwnerCount(c, sources[1..])
  }

  lemma {:induction false} RowsForLength(c: CalcField, sources: seq<PublishedDatasource>)
    ensures |RowsFor(c, sources)| == OwnerCount(c, sources)
    ensures OwnerCount(c, sources) == 0 <==> forall d :: d in sources ==> c.datasourceName != Some(d.name)
  {
    if sources != [] {
      RowsForLength(c, sources[1..]);
      assert forall d :: d in sources <==> d == sources[0] || d in sources[1..];
    }
  }

  lemma {:induction false} InnerJoinAppend(a: seq<CalcField>, b: seq<CalcField>, sources: seq<PublishedDatasource>)
    ensures InnerJoin(a + b, sources) == InnerJoin(a, sources) + InnerJoin(b, sources)
  {
    if a == [] {
      assert a + b == b;
    } else {
      assert (a + b)[0] == a[0];
      assert (a + b)[1..] == a[1..] + b;
      InnerJoinAppend(a[1..], b, sources);
    }
  }

  /**
   * The joined catalog, field by field in the order of the query: each field contributes its
   * rows (one per published data source carrying its owner's name), and no row of any other kind.
   */
  lemma BuildCatalogByField(fields: seq<RawCalculatedField>, sources: seq<PublishedDatasource>)
    ensures BuildCatalog([], sources) == []
    ensures fields != [] ==>
      BuildCatalog(fields, sources) == RowsFor(Normalize(fields[0]), sources) + BuildCatalog(fields[1..], sources)
  {
    BuildCatalogIsInnerJoin([], sources);
    if fields != [] {
      BuildCatalogIsInnerJoin(NormalizeAll(fields), sources);
      BuildCatalogIsInnerJoin(NormalizeAll(fields[1..]), sources);
      assert NormalizeAll(fields)[1..] == NormalizeAll(fields[1..]);
    }
  }

  /**
   * No orphan survives: every row is a normalised calculated field next to a published data source
   * whose name is the field's owner name; conversely every such pair is a row.
   */
  lemma {:induction false} BuildCatalogExact(fields: seq<RawCalculatedField>, sources: seq<PublishedDatasource>)
    ensures forall row :: row in BuildCatalog(fields, sources) <==>
      exists f, d :: f in fields && d in sources && Normalize(f).datasourceName == Some(d.name)
                     && row == ToRow(Normalize(f), d)
  {
    BuildCatalogByField(fields, sources);
    if fields != [] {
      BuildCatalogExact(fields[1..], sources);
      RowsForExact(Normalize(fields[0]), sources);
      forall f | f in fields
        ensures f == fields[0] || f in fields[1..]
      {
        var i :| 0 <= i < |fields| && fields[i] == f;
        if i > 0 { assert fields[1..][i - 1] == f; }
      }
    }
  }

  /** Consequences for the rows: each is published, bracket-free, and owned by its data source's name. */
  lemma BuildCatalogRows(fields: seq<RawCalculatedField>, sources: seq<PublishedDatasource>)
    ensures forall row :: row in BuildCatalog(fields, sources) ==>
      && PublishedDatasource(row.luid, row.name) in sources
      && row.datasourceName == Some(row.name)
      && BracketFree(row.fullyQualifiedName)
  {
    BuildCatalogExact(fields, sources);
  }

  /** The number of rows is the number of (field, published data source of the owner's name) pairs. */
  function TotalOwners(fields: seq<RawCalculatedField>, sources: seq<PublishedDatasource>): nat
  {
    if fields == [] then 0 else OwnerCount(Normalize(fields[0]), sources) + TotalOwners(fields[1..], sources)
  }

  lemma {:induction false} BuildCatalogLength(fields: seq<RawCalculatedField>, sources: seq<PublishedDatasource>)
    ensures |BuildCatalog(fields, sources)| == TotalOwners(fields, sources)
  {
    BuildCatalogByField(fields, sources);
    if fields != [] {
      RowsForLength(Normalize(fields[0]), sources);
      BuildCatalogLength(fields[1..], sources);
    }
  }

  /** The join keeps the order of the calculated fields: it distributes over concatenation. */
  lemma BuildCatalogAppend(a: seq<RawCalculatedField>, b: seq<RawCalculatedField>, sources: seq<PublishedDatasource>)
    ensures BuildCatalog(a + b, sources) == BuildCatalog(a, sources) + BuildCatalog(b, sources)
  {
    NormalizeAllAppend(a, b);
    BuildCatalogIsInnerJoin(NormalizeAll(a + b), sources);
    BuildCatalogIsInnerJoin(NormalizeAll(a), sources);
    BuildCatalogIsInnerJoin(NormalizeAll(b), sources);
    InnerJoinAppend(NormalizeAll(a), NormalizeAll(b), sources);
  }

  /**
   * Lines 63-78 as written, with the KeyErrors pandas raises: no calculated field at all leaves
   * no `fullyQualifiedName` column (line 66); when every field has a data source there is no bare
   * `datasource` column to drop (line 68); with no published data source there is no `name`
   * column to join on, and when no field has a data source there is no `datasource_name` column
   * (line 76). pandas looks up the `right_on` column before the `left_on` one, so when both are
   * missing the error names `name`.
   */
  function BuildCatalogAsWritten(fields: seq<RawCalculatedField>, sources: seq<PublishedDatasource>): (r: Result<seq<CatalogRow>, CatalogError>)
    ensures r.Success? <==>
      && fields != []
      && (exists f :: f in fields && f.datasource.None?)
      && (exists f :: f in fields && f.datasource.Some?)
      && sources != []
    ensures r.Success? ==> r.value == BuildCatalog(fields, sources)
  {
    if fields == [] then Failure(MissingColumn("fullyQualifiedName"))
    else if forall f :: f in fields ==> f.datasource.Some? then Failure(MissingColumn("datasource"))
    else if sources == [] then Failure(MissingColumn("name"))
    else if forall f :: f in fields ==> f.datasource.None? then Failure(MissingColumn("datasource_name"))
    else Success(BuildCatalog(fields, sources))
  }

  /** Line 66 as written: with no calculated field at all, the program raises instead of listing an empty catalog. */
  lemma AsWrittenRaisesWithoutFields(sources: seq<PublishedDatasource>)
    ensures BuildCatalogAsWritten([], sources) == Failure(MissingColumn("fullyQualifiedName"))
    ensures BuildCatalog([], sources) == []
  {
    BuildCatalogByField([], sources);
  }

  /**
   * Line 68 as written: when every calculated field has an owning data source there is no bare
   * `datasource` column, and dropping it raises, although the join itself is well defined.
   */
  lemma AsWrittenRaisesWhenEveryFieldOwned()
    ensures var fields := [RawCalculatedField("[" + "Profit Ratio" + "]", "SUM([Profit])/SUM([Sales])", Some(DatasourceRef("Sales")))];
            var sources := [PublishedDatasource("L1", "Sales")];
      && BuildCatalogAsWritten(fields, sources) == Failure(MissingColumn("datasource"))
      && BuildCatalog(fields, sources) == [CatalogRow("Profit Ratio", "SUM([Profit])/SUM([Sales])", Some("Sales"), "L1", "Sales")]
  {
    var f := RawCalculatedField("[" + "Profit Ratio" + "]", "SUM([Profit])/SUM([Sales])", Some(DatasourceRef("Sales")));
    var d := PublishedDatasource("L1", "Sales");
    StripBracketsEnclosed("Profit Ratio");
    var c := Normalize(f);
    assert c == CalcField("Profit Ratio", "SUM([Profit])/SUM([Sales])", Some("Sales"));
    assert [d][1..] == [];
    assert RowsFor(c, [d]) == [ToRow(c, d)];
    BuildCatalogByField([f], [d]);
    BuildCatalogByField([], [d]);
    assert [f][1..] == [];
  }

  /**
   * Line 76 as written: when no calculated field has an owning data source there is no
   * `datasource_name` column to join on, and the merge raises instead of yielding no rows
   * (with no published data source either, the missing `name` is reported first).
   */
  lemma AsWrittenRaisesWhenNoFieldOwned(sources: seq<PublishedDatasource>)
    requires sources != []
    ensures var fields := [RawCalculatedField("[Scratch]", "1", None)];
      && BuildCatalogAsWritten(fields, sources) == Failure(MissingColumn("datasource_name"))
      && BuildCatalog(fields, sources) == []
  {
    var fields := [RawCalculatedField("[Scratch]", "1", None)];
    var c := Normalize(fields[0]);
    assert c.datasourceName == None;
    RowsForLength(c, sources);
    assert RowsFor(c, sources) == [];
    BuildCatalogByField(fields, sources);
    assert fields[1..] == [];
  }

  /**
   * Line 76 as written: with no published data source, `pd.DataFrame([])` has no `name` column
   * and the merge raises, where the listing should show zero data sources and every ID be refused.
   */
  lemma AsWrittenRaisesWithoutSources()
    ensures var fields := [RawCalculatedField("[A]", "1", Some(DatasourceRef("Sales"))), RawCalculatedField("[B]", "2", None)];
      && BuildCatalogAsWritten(fields, []) == Failure(MissingColumn("name"))
      && BuildCatalogAsWritten([fields[1]], []) == Failure(MissingColumn("name"))
      && BuildCatalog(fields, []) == []
      && forall choice :: Select(BuildCatalog(fields, []), [], choice) == None
  {
    var fields := [RawCalculatedField("[A]", "1", Some(DatasourceRef("Sales"))), RawCalculatedField("[B]", "2", None)];
    assert fields[0] in fields && fields[1] in fields;
    BuildCatalogLength(fields, []);
    assert fields[1..][1..] == [];
  }

  // ---------------------------------------------------------------------------
  // Selection and scoping (lines 84-103)
  // ---------------------------------------------------------------------------

  /**
   * The data source the user picked: the answer parsed as an integer (`None` when `int()`
   * raises ValueError) is looked up among the IDs; anything else is no selection.
   */
  function ChosenDatasource(choice: Option<int>, sources: seq<PublishedDatasource>): (d: Option<PublishedDatasource>)
    ensures d.Some? <==> choice.Some? && 1 <= choice.value <= |sources|
    ensures d.Some? ==> d.value == sources[choice.value - 1]
  {
    match choice
    case None => None
    case Some(n) =>
      IdsAreOneToN(sources, n);
      LocOnConsecutive(Ids(sources), sources, n, 1);
      if n in Ids(sources) then Loc(Ids(sources), sources, n) else None
  }

  /** `merged_df[merged_df['luid'] == luid]` with `datasource_name` then set to `name`. */
  function ScopeTo(catalog: seq<CatalogRow>, luid: string, name: string): (scoped: seq<CatalogRow>)
    ensures |scoped| <= |catalog|
    ensures forall row :: row in scoped ==> row.luid == luid && row.datasourceName == Some(name)
  {
    if catalog == [] then []
    else (if catalog[0].luid == luid then [catalog[0].(datasourceName := Some(name))] else [])
         + ScopeTo(catalog[1..], luid, name)
  }

  /** Nothing of the chosen luid is lost and nothing else is let in. */
  lemma {:induction false} ScopeToExact(catalog: seq<CatalogRow>, luid: string, name: string)
    ensures forall row :: row in ScopeTo(catalog, luid, name) <==>
      exists c :: c in catalog && c.luid == luid && row == c.(datasourceName := Some(name))
  {
    if catalog != [] {
      ScopeToExact(catalog[1..], luid, name);
      forall c | c in catalog
        ensures c == catalog[0] || c in catalog[1..]
      {
        var i :| 0 <= i < |catalog| && catalog[i] == c;
        if i > 0 { assert catalog[1..][i - 1] == c; }
      }
    }
  }

  lemma {:induction false} ScopeToAppend(a: seq<CatalogRow>, b: seq<CatalogRow>, luid: string, name: string)
    ensures ScopeTo(a + b, luid, name) == ScopeTo(a, luid, name) + ScopeTo(b, luid, name)
  {
    if a == [] {
      assert a + b == b;
    } else {
      assert (a + b)[0] == a[0];
      assert (a + b)[1..] == a[1..] + b;
      ScopeToAppend(a[1..], b, luid, name);
    }
  }

  /** The value `get_luid` returns: `None` for no selection, else the rows of the chosen data source's luid. */
  function Select(catalog: seq<CatalogRow>, sources: seq<PublishedDatasource>, choice: Option<int>): Option<seq<CatalogRow>>
  {
    match ChosenDatasource(choice, sources)
    case None => None
    case Some(d) => Some(ScopeTo(catalog, d.luid, d.name))
  }

  /**
   * A selection is made iff the answer is an integer n with 1 <= n <= N; it then holds exactly
   * the rows of the n-th data source's luid, each carrying that data source's name.
   */
  lemma SelectSpec(catalog: seq<CatalogRow>, sources: seq<PublishedDatasource>, choice: Option<int>)
    ensures Select(catalog, sources, choice).Some? <==> choice.Some? && 1 <= choice.value <= |sources|
    ensures Select(catalog, sources, choice).Some? ==>
      var d := sources[choice.value - 1];
      forall row :: row in Select(catalog, sources, choice).value <==>
        exists c :: c in catalog && c.luid == d.luid && row == c.(datasourceName := Some(d.name))
  {
    if Select(catalog, sources, choice).Some? {
      var d := sources[choice.value - 1];
      ScopeToExact(catalog, d.luid, d.name);
    }
  }

  /** Every published data source has its own luid. */
  predicate DistinctLuids(sources: seq<PublishedDatasource>) {
    forall i, j :: 0 <= i < j < |sources| ==> sources[i].luid != sources[j].luid
  }

  /** The rows of the fields owned by the name of `d`, all paired with `d`, in field order. */
  function OwnedBy(cs: seq<CalcField>, d: PublishedDatasource): seq<CatalogRow>
  {
    if cs == [] then []
    else (if cs[0].datasourceName == Some(d.name) then [ToRow(cs[0], d)] else []) + OwnedBy(cs[1..], d)
  }

  lemma {:induction false} ScopeRowsFor(c: CalcField, sources: seq<PublishedDatasource>, d: PublishedDatasource)
    requires DistinctLuids(sources)
    requires forall s :: s in sources && s.luid == d.luid ==> s == d
    ensures ScopeTo(RowsFor(c, sources), d.luid, d.name) ==
      if d in sources && c.datasourceName == Some(d.name) then [ToRow(c, d)] else []
  {
    if sources != [] {
      var head := if c.datasourceName == Some(sources[0].name) then [ToRow(c, sources[0])] else [];
      ScopeToAppend(head, RowsFor(c, sources[1..]), d.luid, d.name);
      assert DistinctLuids(sources[1..]) by {
        forall i, j | 0 <= i < j < |sources[1..]| ensures sources[1..][i].luid != sources[1..][j].luid {
          assert sources[1..][i] == sources[i + 1] && sources[1..][j] == sources[j + 1];
        }
      }
      ScopeRowsFor(c, sources[1..], d);
      if sources[0] == d {
        forall s | s in sources[1..] ensures s.luid != d.luid {
          var j :| 0 <= j < |sources[1..]| && sources[1..][j] == s;
          assert sources[j + 1] == s;
        }
        assert d !in sources[1..];
      } else {
        assert d in sources <==> d in sources[1..];
      }
    }
  }

  lemma {:induction false} ScopeInnerJoin(cs: seq<CalcField>, sources: seq<PublishedDatasource>, d: PublishedDatasource)
    requires DistinctLuids(sources)
    requires d in sources
    requires forall s :: s in sources && s.luid == d.luid ==> s == d
    ensures ScopeTo(InnerJoin(cs, sources), d.luid, d.name) == OwnedBy(cs, d)
  {
    if cs != [] {
      ScopeToAppend(RowsFor(cs[0], sources), InnerJoin(cs[1..], sources), d.luid, d.name);
      ScopeRowsFor(cs[0], sources, d);
      ScopeInnerJoin(cs[1..], sources, d);
    }
  }

  /**
   * Choosing ID n yields exactly the calculated fields whose owner name is the name of the n-th
   * listed data source, each next to that data source, in the order of the field query.
   */
  lemma SelectChosenFields(fields: seq<RawCalculatedField>, sources: seq<PublishedDatasource>, n: int)
    requires DistinctLuids(sources)
    requires 1 <= n <= |sources|
    ensures Select(BuildCatalog(fields, sources), sources, Some(n)) == Some(OwnedBy(NormalizeAll(fields), sources[n - 1]))
  {
    var d := sources[n - 1];
    forall s | s in sources && s.luid == d.luid ensures s == d {
      var i :| 0 <= i < |sources| && sources[i] == s;
      assert !(i < n - 1) && !(n - 1 < i);
    }
    BuildCatalogIsInnerJoin(NormalizeAll(fields), sources);
    ScopeInnerJoin(NormalizeAll(fields), sources, d);
  }

  /** Non-numeric input and out-of-range IDs, 0 and N + 1 among them, yield no selection. */
  lemma SelectRejects(catalog: seq<CatalogRow>, sources: seq<PublishedDatasource>)
    ensures Select(catalog, sources, None) == None
    ensures Select(catalog, sources, Some(0)) == None
    ensures Select(catalog, sources, Some(|sources| + 1)) == None
    ensures sources == [] ==> forall n :: Select(catalog, sources, Some(n)) == None
  {
  }
}
