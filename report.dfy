/**
 * The generated report as structured output rather than HTML text: a patient
 * table, one section per `report_data` entry with one row per analyte, and a
 * closing footer, appended in that order by the report loop.
 */
module Report {
  import opened Wrappers
  import Decimal
  import opened Classifier
  import opened Catalog
  import opened Session

  /** The patient details; the two dates arrive already formatted as text. */
  datatype Patient = Patient(
    name: string, ageSex: string, referredBy: string, sample: string,
    received: string, reported: string)

  /** The colour of a result cell: the only visual signal of an abnormal result. */
  datatype Color = Red | Black

  /** One table row: analyte, displayed result, its colour, and the reference range. */
  datatype Row = Row(analyte: string, display: string, color: Color, normal: string)

  datatype Block =
    | PatientTable(patient: Patient)
    | Section(title: string, rows: seq<Row>)
    | Footer

  /** The placeholder shown for an empty result, so the cell never collapses. */
  const Blank := "&nbsp;"

  /** One analyte row: the result verbatim (or the placeholder), red exactly when abnormal. */
  function RenderRow(f: Field): (r: Row)
    ensures r.analyte == f.analyte && r.normal == f.normal
    ensures f.value == "" ==> r.display == Blank
    ensures f.value != "" ==> r.display == f.value
    ensures r.display != ""
    ensures r.color == Red <==> CheckAbnormal(f.value, f.normal)
    ensures f.value == "" ==> r.color == Black
  {
    var abnormal := CheckAbnormal(f.value, f.normal);
    Row(f.analyte, if f.value != "" then f.value else Blank, if abnormal then Red else Black, f.normal)
  }

  function Rows(fields: seq<Field>): seq<Row>
  {
    if fields == [] then [] else [RenderRow(fields[0])] + Rows(fields[1..])
  }

  function Sections(data: seq<PanelData>): seq<Block>
  {
    if data == [] then [] else [Section(data[0].test, Rows(data[0].fields))] + Sections(data[1..])
  }

  /** The whole report: patient table, the sections in `report_data` order, then the footer. */
  function Document(patient: Patient, data: seq<PanelData>): seq<Block>
  {
    [PatientTable(patient)] + Sections(data) + [Footer]
  }

  /** The report loop: one section per panel, counted, then the footer. */
  method GenerateReport(patient: Patient, data: seq<PanelData>) returns (doc: seq<Block>, sectionCount: nat)
    ensures doc == Document(patient, data)
    ensures sectionCount == |data|
  {
    doc := [PatientTable(patient)];
    sectionCount := 0;
    var i := 0;
    while i < |data|
      invariant 0 <= i <= |data|
      invariant sectionCount == i
      invariant doc + Sections(data[i..]) == [PatientTable(patient)] + Sections(data)
    {
      sectionCount := sectionCount + 1;
      var rows := RenderRows(data[i].fields);
      SectionsStep(data, i);
      doc := doc + [Section(data[i].test, rows)];
      i := i + 1;
    }
    assert data[i..] == [];
    doc := doc + [Footer];
  }

  /** The inner loop: one row per field, in order. */
  method RenderRows(fields: seq<Field>) returns (rows: seq<Row>)
    ensures rows == Rows(fields)
  {
    rows := [];
    var j := 0;
    while j < |fields|
      invariant 0 <= j <= |fields|
      invariant rows + Rows(fields[j..]) == Rows(fields)
    {
      RowsStep(fields, j);
      rows := rows + [RenderRow(fields[j])];
      j := j + 1;
    }
    assert fields[j..] == [];
  }

  lemma RowsStep(fields: seq<Field>, j: nat)
    requires j < |fields|
    ensures Rows(fields[j..]) == [RenderRow(fields[j])] + Rows(fields[j + 1..])
  {
    assert fields[j..][1..] == fields[j + 1..];
  }

  lemma SectionsStep(data: seq<PanelData>, i: nat)
    requires i < |data|
    ensures Sections(data[i..]) == [Section(data[i].test, Rows(data[i].fields))] + Sections(data[i + 1..])
  {
  }

  /** One row per field, in field order. */
  lemma {:induction false} RowsLayout(fields: seq<Field>)
    ensures |Rows(fields)| == |fields|
    ensures forall j :: 0 <= j < |fields| ==> Rows(fields)[j] == RenderRow(fields[j])
  {
    if fields != [] {
      RowsLayout(fields[1..]);
      forall j | 0 < j < |fields| ensures Rows(fields)[j] == RenderRow(fields[j]) {
        assert Rows(fields)[j] == Rows(fields[1..])[j - 1];
        assert fields[1..][j - 1] == fields[j];
      }
    }
  }

  /** One section per `report_data` entry, in order, titled with its panel name. */
  lemma {:induction false} SectionsLayout(data: seq<PanelData>)
    ensures |Sections(data)| == |data|
    ensures forall i :: 0 <= i < |data| ==> Sections(data)[i] == Section(data[i].test, Rows(data[i].fields))
  {
    if data != [] {
      SectionsLayout(data[1..]);
      forall i | 0 < i < |data| ensures Sections(data)[i] == Section(data[i].test, Rows(data[i].fields)) {
        assert Sections(data)[i] == Sections(data[1..])[i - 1];
        assert data[1..][i - 1] == data[i];
      }
    }
  }

  /**
   * The patient table comes first and only first, the footer last and only
   * last, and between them the sections in order.
   */
  lemma DocumentLayout(patient: Patient, data: seq<PanelData>)
    ensures var doc := Document(patient, data);
      && |doc| == |data| + 2
      && doc[0] == PatientTable(patient)
      && doc[|doc| - 1] == Footer
      && doc[1..|doc| - 1] == Sections(data)
      && (forall k :: 0 <= k < |doc| ==> (doc[k].Footer? <==> k == |doc| - 1))
      && (forall k :: 0 <= k < |doc| ==> (doc[k].PatientTable? <==> k == 0))
  {
    SectionsLayout(data);
    var doc := Document(patient, data);
    assert doc[1..|doc| - 1] == Sections(data);
    forall k | 0 <= k < |doc| ensures doc[k].Footer? <==> k == |doc| - 1 {
      if 0 < k < |doc| - 1 { assert doc[k] == Sections(data)[k - 1]; }
    }
    forall k | 0 <= k < |doc| ensures doc[k].PatientTable? <==> k == 0 {
      if 0 < k < |doc| - 1 { assert doc[k] == Sections(data)[k - 1]; }
    }
  }

  /**
   * End to end: the report built from the selection has one section per
   * selected panel in selection order; section `i` lists every analyte of
   * that panel in catalog order, with the entered text (or the placeholder),
   * red exactly when the classifier flags it, and the catalog range unchanged.
   */
  lemma ReportFollowsSelection(catalog: seq<Panel>, selected: seq<string>, entered: map<string, string>, i: nat, j: nat)
    requires ValidSelection(catalog, selected)
    requires i < |selected|
    requires j < |Lookup(catalog, selected[i]).value.analytes|
    ensures var sections := Sections(ReportData(catalog, selected, entered));
      var analyte := Lookup(catalog, selected[i]).value.analytes[j];
      var value := EnteredValue(entered, selected[i], analyte.name);
      && |sections| == |selected|
      && sections[i].Section?
      && sections[i].title == selected[i]
      && |sections[i].rows| == |Lookup(catalog, selected[i]).value.analytes|
      && sections[i].rows[j].analyte == analyte.name
      && sections[i].rows[j].normal == analyte.range
      && sections[i].rows[j].display == (if value == "" then Blank else value)
      && (sections[i].rows[j].color == Red <==> CheckAbnormal(value, analyte.range))
  {
    var data := ReportData(catalog, selected, entered);
    ReportDataLayout(catalog, selected, entered);
    SectionsLayout(data);
    var analytes := Lookup(catalog, selected[i]).value.analytes;
    FieldsLayout(selected[i], analytes, entered);
    RowsLayout(data[i].fields);
  }

  /**
   * On the catalog, a row is red exactly when its value parses and lies
   * outside the parsed shape of its range: the short circuit never shows.
   */
  lemma CatalogRowsFollowShape(selected: seq<string>, entered: map<string, string>, i: nat, j: nat)
    requires ValidSelection(Tests, selected)
    requires i < |selected|
    requires j < |Lookup(Tests, selected[i]).value.analytes|
    ensures var analyte := Lookup(Tests, selected[i]).value.analytes[j];
      var value := EnteredValue(entered, selected[i], analyte.name);
      var sections := Sections(ReportData(Tests, selected, entered));
      && |sections| == |selected|
      && sections[i].Section?
      && |sections[i].rows| == |Lookup(Tests, selected[i]).value.analytes|
      && (sections[i].rows[j].color == Red <==>
            Decimal.ParseDecimal(value).Some? && Outside(Decimal.ParseDecimal(value).value, ParseRange(analyte.range)))
  {
    ReportFollowsSelection(Tests, selected, entered, i, j);
    var panel := Lookup(Tests, selected[i]).value;
    var k :| 0 <= k < |Tests| && Tests[k] == panel;
    TestsRangesRecognised();
    assert RangesRecognised(Tests[k]);
    AgreesWithShape(EnteredValue(entered, selected[i], panel.analytes[j].name), panel.analytes[j].range);
  }

  /** With no panel selected the report holds the patient table and the footer only. */
  lemma NothingSelected(catalog: seq<Panel>, patient: Patient, entered: map<string, string>)
    ensures Document(patient, ReportData(catalog, [], entered)) == [PatientTable(patient), Footer]
  {
  }

  /** End-to-end example: Hemoglobin 10 against 13-17 in CBC is shown as "10", in red. */
  lemma HemoglobinExample(patient: Patient)
    ensures var doc := Document(patient, ReportData(Tests, ["CBC"], map[WidgetKey("CBC", "Hemoglobin") := "10"]));
      |doc| == 3 && doc[1].Section? && doc[1].title == "CBC" && |doc[1].rows| == 4 &&
      doc[1].rows[0] == Row("Hemoglobin", "10", Red, "13-17")
  {
    var data := ReportData(Tests, ["CBC"], map[WidgetKey("CBC", "Hemoglobin") := "10"]);
    HemoglobinData();
    assert Sections(data)[0] == Section("CBC", Rows(data[0].fields)) by { SectionsLayout(data); }
    assert Rows(data[0].fields)[0] == RenderRow(data[0].fields[0]) && |Rows(data[0].fields)| == 4 by {
      RowsLayout(data[0].fields);
    }
    assert RenderRow(Field("Hemoglobin", "10", "13-17")) == Row("Hemoglobin", "10", Red, "13-17") by {
      IntervalExample();
    }
    DocumentLayout(patient, data);
  }

  /** `report_data` for CBC with only Hemoglobin typed in. */
  lemma HemoglobinData()
    ensures var data := ReportData(Tests, ["CBC"], map[WidgetKey("CBC", "Hemoglobin") := "10"]);
      |data| == 1 && data[0].test == "CBC" && |data[0].fields| == 4 &&
      data[0].fields[0] == Field("Hemoglobin", "10", "13-17")
  {
    var entered := map[WidgetKey("CBC", "Hemoglobin") := "10"];
    var data := ReportData(Tests, ["CBC"], entered);
    var fields := Fields("CBC", Cbc.analytes, entered);
    assert data == [PanelData("CBC", fields)] by {
      assert "CBC" in Names(Tests);
      assert Lookup(Tests, "CBC") == Some(Cbc);
      ReportDataLayout(Tests, ["CBC"], entered);
    }
    assert |fields| == 4 && fields[0] == Field("Hemoglobin", "10", "13-17") by {
      FieldsLayout("CBC", Cbc.analytes, entered);
    }
  }
}
