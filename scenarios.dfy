/** Worked sessions: concrete inputs run through the model end to end. */
module Scenarios {
  import opened Wrappers
  import opened Text
  import opened Catalog
  import opened Metadata
  import opened Session

  function SalesAndHr(): seq<PublishedDatasource> {
    [PublishedDatasource("L1", "Sales"), PublishedDatasource("L2", "HR")]
  }

  /**
   * The calculated fields of the site: `Profit Ratio` of Sales, and a field of a workbook's
   * embedded data source, which has no published owner. With one field of each kind
   * `json_normalize` yields both a `datasource` and a `datasource.name` column, so the code
   * as written runs on these fields without raising.
   */
  function SiteFields(): seq<RawCalculatedField> {
    [ RawCalculatedField("[" + "Profit Ratio" + "]", "SUM([Profit])/SUM([Sales])", Some(DatasourceRef("Sales"))),
      RawCalculatedField("[Scratch]", "1", None) ]
  }

  /** What the read-metadata service returns for the luid `L1`; nothing for any other luid. */
  function SalesFields(luid: string): seq<VizField> {
    if luid == "L1" then
      [ VizField("Profit", "Profit", "REAL", "SUM", "T1"),
        VizField("Sales", "Sales", "REAL", "SUM", "T1"),
        VizField("Profit Ratio", "Profit Ratio", "REAL", "AGG", "T1") ]
    else []
  }

  lemma MetadataOfOneRow(v: VizField, row: CatalogRow)
    ensures MetadataReport([v], [row]) ==
      if row.fullyQualifiedName == v.fieldName
      then [ReportRow(v.fieldName, v.fieldCaption, v.dataType, v.defaultAggregation, Some(row.formula))]
      else [ReportRow(v.fieldName, v.fieldCaption, v.dataType, v.defaultAggregation, None)]
  {
    FieldRowsSound(v, [row]);
    FieldRowsComplete(v, [row]);
    FieldRowsCount(v, [row]);
    assert [row][1..] == [];
  }

  function SalesRow(): CatalogRow {
    CatalogRow("Profit Ratio", "SUM([Profit])/SUM([Sales])", Some("Sales"), "L1", "Sales")
  }

  /** The code as written builds the catalog of these fields without raising. */
  lemma SiteFieldsDoNotRaise()
    ensures BuildCatalogAsWritten(SiteFields(), SalesAndHr()) == Success(BuildCatalog(SiteFields(), SalesAndHr()))
  {
    var fields := SiteFields();
    assert fields[0] in fields && fields[1] in fields;
  }

  /** The fields after normalisation: `Profit Ratio` of Sales, and one field with no owner. */
  lemma SiteFieldsNormalized() returns (scratch: CalcField)
    ensures scratch.datasourceName == None
    ensures NormalizeAll(SiteFields()) == [CalcField("Profit Ratio", "SUM([Profit])/SUM([Sales])", Some("Sales")), scratch]
  {
    var fields := SiteFields();
    StripBracketsEnclosed("Profit Ratio");
    assert Normalize(fields[0]) == CalcField("Profit Ratio", "SUM([Profit])/SUM([Sales])", Some("Sales"));
    scratch := Normalize(fields[1]);
  }

  /** Of those, only `Profit Ratio` is owned by Sales. */
  lemma SalesOwnsProfitRatio(scratch: CalcField)
    requires scratch.datasourceName == None
    ensures OwnedBy([CalcField("Profit Ratio", "SUM([Profit])/SUM([Sales])", Some("Sales")), scratch], SalesAndHr()[0]) == [SalesRow()]
  {
    var c := CalcField("Profit Ratio", "SUM([Profit])/SUM([Sales])", Some("Sales"));
    var d := SalesAndHr()[0];
    assert [c, scratch][1..] == [scratch];
    assert [scratch][1..] == [];
    assert OwnedBy([scratch], d) == [] + OwnedBy([], d);
    assert OwnedBy([c, scratch], d) == [ToRow(c, d)] + OwnedBy([scratch], d);
  }

  /**
   * Choosing ID 1 of Sales and HR selects the one calculated field of Sales, brackets stripped;
   * the field without a published owner is dropped.
   */
  lemma ChoosingSalesSelectsProfitRatio()
    ensures Select(BuildCatalog(SiteFields(), SalesAndHr()), SalesAndHr(), Some(1)) == Some([SalesRow()])
  {
    var scratch := SiteFieldsNormalized();
    SalesOwnsProfitRatio(scratch);
    SelectChosenFields(SiteFields(), SalesAndHr(), 1);
    assert SalesAndHr()[1 - 1] == SalesAndHr()[0];
  }

  /** The metadata of Sales joined with that field: the code as written does not raise, and only `Profit Ratio` gets a formula. */
  lemma SalesMetadataReport()
    ensures MetadataReportAsWritten(SalesFields("L1"), [SalesRow()]) == Success(MetadataReport(SalesFields("L1"), [SalesRow()]))
    ensures MetadataReport(SalesFields("L1"), [SalesRow()]) == [
        ReportRow("Profit", "Profit", "REAL", "SUM", None),
        ReportRow("Sales", "Sales", "REAL", "SUM", None),
        ReportRow("Profit Ratio", "Profit Ratio", "REAL", "AGG", Some("SUM([Profit])/SUM([Sales])"))]
  {
    var row := SalesRow();
    var vs := SalesFields("L1");
    MetadataReportAppend([vs[0]], [vs[1], vs[2]], [row]);
    MetadataReportAppend([vs[1]], [vs[2]], [row]);
    assert vs == [vs[0]] + [vs[1], vs[2]];
    assert [vs[1], vs[2]] == [vs[1]] + [vs[2]];
    MetadataOfOneRow(vs[0], row);
    MetadataOfOneRow(vs[1], row);
    MetadataOfOneRow(vs[2], row);
  }

  /**
   * Choosing ID 1 of Sales and HR: the report is requested for luid `L1`, titled `Sales`, and
   * only the field `Profit Ratio` carries a formula; `Profit` and `Sales` carry none.
   */
  lemma ChoosingSalesReportsItsFormula()
    ensures PassReport(Round(SiteFields(), SalesAndHr(), Some(1), SalesFields, "n")) ==
      Some(Report("L1", Some("Sales"), [
        ReportRow("Profit", "Profit", "REAL", "SUM", None),
        ReportRow("Sales", "Sales", "REAL", "SUM", None),
        ReportRow("Profit Ratio", "Profit Ratio", "REAL", "AGG", Some("SUM([Profit])/SUM([Sales])"))]))
  {
    ChoosingSalesSelectsProfitRatio();
    SalesMetadataReport();
  }

  /** An answer that is not a number makes no selection and no report; answering `n` then ends the session. */
  lemma NonNumericAnswerEndsWithoutReport()
    ensures Run(PassesOf([Round(SiteFields(), SalesAndHr(), None, SalesFields, "n")])) == Outcome([], 1, true)
  {
    var r := Round(SiteFields(), SalesAndHr(), None, SalesFields, "n");
    PassReportSpec(r);
    SelectSpec(BuildCatalog(r.fields, r.sources), r.sources, r.choice);
    assert !SaysYes("n");
    assert PassesOf([r]) == [PassOutcome(None, false)];
  }

  /** With no published data source, no ID is accepted and no pass reports. */
  lemma EmptyCatalogNeverReports(fields: seq<RawCalculatedField>, choice: Option<int>, readMetadata: string -> seq<VizField>, answer: string)
    ensures PassReport(Round(fields, [], choice, readMetadata, answer)) == None
  {
    var r := Round(fields, [], choice, readMetadata, answer);
    PassReportSpec(r);
  }

  /** Only `y`, in either case and with surrounding whitespace, continues the session. */
  lemma ContinuationAnswers()
    ensures SaysYes("y") && SaysYes(" Y\n")
    ensures !SaysYes("yes") && !SaysYes("") && !SaysYes("n")
  {
    YesAtSaysYes(" Y\n", 1);
    YesAtSaysYes("y", 0);
    SaysYesIff("yes");
    SaysYesIff("");
    SaysYesIff("n");
  }

  /**
   * A qualified name made of two bracketed parts keeps the dot between them once stripped, so
   * it does not match a field named by its last part alone.
   */
  lemma DottedQualifiedNameKeepsDot()
    ensures StripBrackets("[" + "Sales" + "]" + "." + ("[" + "Profit Ratio" + "]")) == "Sales.Profit Ratio"
  {
    StripBracketsEnclosed("Sales");
    StripBracketsEnclosed("Profit Ratio");
    StripBracketsAppend("[" + "Sales" + "]", ".");
    StripBracketsAppend("[" + "Sales" + "]" + ".", "[" + "Profit Ratio" + "]");
    StripBracketsKeeps(".");
  }
}
