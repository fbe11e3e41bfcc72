/**
 * The pure part of `get_metadata`: the field list the VizQL Data Service returns for the
 * chosen data source is left-joined with that data source's calculated fields, matching
 * `fieldName` to `fullyQualifiedName`, and the join's housekeeping columns are dropped.
 */
module Metadata {
  import opened Wrappers
  import opened Catalog
  import Merge

  /** One element of the `data` array of a read-metadata response. */
  datatype VizField = VizField(fieldName: string, fieldCaption: string, dataType: string, defaultAggregation: string, logicalTableId: string)

  /**
   * A row of the final table: the columns `logicalTableId`, `datasource_name`, `luid`,
   * `fullyQualifiedName` and `name` are gone; `formula` is null for a field that is not calculated.
   */
  datatype ReportRow = ReportRow(fieldName: string, fieldCaption: string, dataType: string, defaultAggregation: string, formula: Option<string>)

  /** The exception pandas raises when the response has no rows and hence no `fieldName` column. */
  datatype MetadataError = MissingFieldName

  /** The luid the read-metadata request names: that of the first scoped row (`iloc[0]`). */
  function RequestLuid(scoped: seq<CatalogRow>): string
    requires scoped != []
  {
    scoped[0].luid
  }

  function FieldKey(v: VizField): string { v.fieldName }

  function QualifiedKey(c: CatalogRow): string { c.fullyQualifiedName }

  /** `merged_df.drop(columns=[...])` on one joined row. */
  function DropHousekeeping(row: (VizField, Option<CatalogRow>)): (r: ReportRow)
    ensures r.fieldName == row.0.fieldName && r.fieldCaption == row.0.fieldCaption
    ensures r.dataType == row.0.dataType && r.defaultAggregation == row.0.defaultAggregation
    ensures r.formula.Some? <==> row.1.Some?
    ensures row.1.Some? ==> r.formula.value == row.1.value.formula
  {
    ReportRow(row.0.fieldName, row.0.fieldCaption, row.0.dataType, row.0.defaultAggregation,
              match row.1 case None => None case Some(c) => Some(c.formula))
  }

  function DropAll(merged: seq<(VizField, Option<CatalogRow>)>): (rows: seq<ReportRow>)
    ensures |rows| == |merged|
    ensures forall i :: 0 <= i < |merged| ==> rows[i] == DropHousekeeping(merged[i])
  {
    if merged == [] then [] else [DropHousekeeping(merged[0])] + DropAll(merged[1..])
  }

  /** Lines 151-158, with the empty response treated as an empty table. */
  function MetadataReport(fields: seq<VizField>, scoped: seq<CatalogRow>): seq<ReportRow>
  {
    DropAll(Merge.LeftJoin(fields, scoped, FieldKey, QualifiedKey))
  }

  /**
   * Lines 151-158 as written: `pd.DataFrame([])` has no `fieldName` column, so the merge
   * raises a KeyError when the service returns no field.
   */
  function MetadataReportAsWritten(fields: seq<VizField>, scoped: seq<CatalogRow>): (r: Result<seq<ReportRow>, MetadataError>)
    ensures r.Success? <==> fields != []
    ensures r.Success? ==> r.value == MetadataReport(fields, scoped)
  {
    if fields == [] then Failure(MissingFieldName) else Success(MetadataReport(fields, scoped))
  }

  /** The number of scoped rows whose qualified name is `name`. */
  function CountQualified(scoped: seq<CatalogRow>, name: string): nat
  {
    if scoped == [] then 0
    else (if scoped[0].fullyQualifiedName == name then 1 else 0) + CountQualified(scoped[1..], name)
  }

  lemma {:induction false} CountQualifiedIsMatches(v: VizField, scoped: seq<CatalogRow>)
    ensures |Merge.Matches(v, scoped, FieldKey, QualifiedKey)| == CountQualified(scoped, v.fieldName)
  {
    if scoped != [] {
      CountQualifiedIsMatches(v, scoped[1..]);
    }
  }

  /** The sum over the returned fields of max(1, number of scoped rows with that qualified name). */
  function ExpectedRows(fields: seq<VizField>, scoped: seq<CatalogRow>): nat
  {
    if fields == [] then 0
    else
      var k := CountQualified(scoped, fields[0].fieldName);
      (if k == 0 then 1 else k) + ExpectedRows(fields[1..], scoped)
  }

  lemma {:induction false} MetadataReportLength(fields: seq<VizField>, scoped: seq<CatalogRow>)
    ensures |MetadataReport(fields, scoped)| == ExpectedRows(fields, scoped)
    ensures |MetadataReport(fields, scoped)| >= |fields|
  {
    Merge.LeftJoinLength(fields, scoped, FieldKey, QualifiedKey);
    TotalFanOutIsExpected(fields, scoped);
  }

  lemma {:induction false} TotalFanOutIsExpected(fields: seq<VizField>, scoped: seq<CatalogRow>)
    ensures Merge.TotalFanOut(fields, scoped, FieldKey, QualifiedKey) == ExpectedRows(fields, scoped)
  {
    if fields != [] {
      CountQualifiedIsMatches(fields[0], scoped);
      TotalFanOutIsExpected(fields[1..], scoped);
    }
  }

  lemma {:induction false} DropAllAppend(a: seq<(VizField, Option<CatalogRow>)>, b: seq<(VizField, Option<CatalogRow>)>)
    ensures DropAll(a + b) == DropAll(a) + DropAll(b)
  {
    assert |DropAll(a + b)| == |DropAll(a) + DropAll(b)|;
    forall i | 0 <= i < |a + b|
      ensures DropAll(a + b)[i] == (DropAll(a) + DropAll(b))[i]
    {
      if i < |a| { assert (a + b)[i] == a[i]; } else { assert (a + b)[i] == b[i - |a|]; }
    }
  }

  /** Every returned field keeps its place: the report is built field by field, in response order. */
  lemma MetadataReportAppend(a: seq<VizField>, b: seq<VizField>, scoped: seq<CatalogRow>)
    ensures MetadataReport(a + b, scoped) == MetadataReport(a, scoped) + MetadataReport(b, scoped)
  {
    Merge.LeftJoinAppend(a, b, scoped, FieldKey, QualifiedKey);
    DropAllAppend(Merge.LeftJoin(a, scoped, FieldKey, QualifiedKey), Merge.LeftJoin(b, scoped, FieldKey, QualifiedKey));
  }

  /** The rows of one returned field keep its own columns; a formula comes only from a scoped row of its name. */
  lemma FieldRowsSound(v: VizField, scoped: seq<CatalogRow>)
    ensures forall r :: r in MetadataReport([v], scoped) ==>
      && r.fieldName == v.fieldName && r.fieldCaption == v.fieldCaption
      && r.dataType == v.dataType && r.defaultAggregation == v.defaultAggregation
      && (r.formula.Some? ==> exists c :: c in scoped && c.fullyQualifiedName == v.fieldName && c.formula == r.formula.value)
  {
    var joined := Merge.LeftJoin([v], scoped, FieldKey, QualifiedKey);
    var rows := MetadataReport([v], scoped);
    Merge.LeftJoinSound([v], scoped, FieldKey, QualifiedKey);
    forall r | r in rows
      ensures r.fieldName == v.fieldName && r.fieldCaption == v.fieldCaption
      ensures r.dataType == v.dataType && r.defaultAggregation == v.defaultAggregation
      ensures r.formula.Some? ==> exists c :: c in scoped && c.fullyQualifiedName == v.fieldName && c.formula == r.formula.value
    {
      var i :| 0 <= i < |rows| && rows[i] == r;
      assert joined[i] in joined;
    }
  }

  /** Every scoped row of the field's name lends its formula to one row of that field. */
  lemma FieldRowsComplete(v: VizField, scoped: seq<CatalogRow>)
    ensures forall c :: c in scoped && c.fullyQualifiedName == v.fieldName ==>
      ReportRow(v.fieldName, v.fieldCaption, v.dataType, v.defaultAggregation, Some(c.formula)) in MetadataReport([v], scoped)
  {
    var joined := Merge.LeftJoin([v], scoped, FieldKey, QualifiedKey);
    var rows := MetadataReport([v], scoped);
    Merge.LeftJoinComplete([v], scoped, FieldKey, QualifiedKey);
    forall c | c in scoped && c.fullyQualifiedName == v.fieldName
      ensures ReportRow(v.fieldName, v.fieldCaption, v.dataType, v.defaultAggregation, Some(c.formula)) in rows
    {
      var i :| 0 <= i < |joined| && joined[i] == (v, Some(c));
      assert rows[i] == DropHousekeeping((v, Some(c)));
    }
  }

  /**
   * The report of one field: it has max(1, k) rows for the k scoped rows of its name, and it is
   * the single row without a formula exactly when k is 0.
   */
  lemma FieldRowsCount(v: VizField, scoped: seq<CatalogRow>)
    ensures var k := CountQualified(scoped, v.fieldName);
      && |MetadataReport([v], scoped)| == (if k == 0 then 1 else k)
      && (k == 0 <==> MetadataReport([v], scoped) == [ReportRow(v.fieldName, v.fieldCaption, v.dataType, v.defaultAggregation, None)])
  {
    Merge.LeftJoinSingle(v, scoped, FieldKey, QualifiedKey);
    CountQualifiedIsMatches(v, scoped);
    var joined := Merge.LeftJoin([v], scoped, FieldKey, QualifiedKey);
    if CountQualified(scoped, v.fieldName) == 0 {
      assert joined == [(v, None)];
    } else {
      assert MetadataReport([v], scoped)[0] == DropHousekeeping(joined[0]);
    }
  }

  /** Line 156 as written: an empty `data` array makes the merge raise instead of printing an empty table. */
  lemma AsWrittenRaisesOnEmptyResponse(scoped: seq<CatalogRow>)
    ensures MetadataReportAsWritten([], scoped) == Failure(MissingFieldName)
    ensures MetadataReport([], scoped) == []
  {
    MetadataReportLength([], scoped);
  }
}
