/**
 * The form session: values typed into one text input per analyte of each
 * selected panel, and the `report_data` mapping built from them by a nested
 * loop. The framework's widgets are outside the model: the selection and the
 * current text of every input are parameters.
 */
module Session {
  import opened Catalog

  /** `{"value": value, "normal": normal}`, under its analyte name. */
  datatype Field = Field(analyte: string, value: string, normal: string)

  /** One entry of `report_data`: a selected panel and its fields in catalog order. */
  datatype PanelData = PanelData(test: string, fields: seq<Field>)

  /** The key `f"{test}__{field}"` that identifies an analyte's text input. */
  function WidgetKey(test: string, field: string): string
  {
    test + "__" + field
  }

  /** With no underscore in the panel name, the key's first underscore ends the panel name. */
  lemma FirstUnderscore(test: string, field: string)
    requires '_' !in test
    ensures |WidgetKey(test, field)| > |test| && WidgetKey(test, field)[|test|] == '_'
    ensures forall i :: 0 <= i < |test| ==> WidgetKey(test, field)[i] != '_'
  {
  }

  /** Two inputs share a key only if they belong to the same panel and analyte, when panel names hold no underscore. */
  lemma WidgetKeyInjective(test1: string, field1: string, test2: string, field2: string)
    requires '_' !in test1 && '_' !in test2
    requires WidgetKey(test1, field1) == WidgetKey(test2, field2)
    ensures test1 == test2 && field1 == field2
  {
    var k := WidgetKey(test1, field1);
    FirstUnderscore(test1, field1);
    FirstUnderscore(test2, field2);
    assert |test1| == |test2|;
    assert test1 == k[..|test1|] == test2;
    assert field1 == k[|test1| + 2..] == field2;
  }

  /** The current text of an input; one never typed into reads as the empty string. */
  function EnteredValue(entered: map<string, string>, test: string, field: string): (value: string)
    ensures WidgetKey(test, field) in entered ==> value == entered[WidgetKey(test, field)]
    ensures WidgetKey(test, field) !in entered ==> value == ""
  {
    var key := WidgetKey(test, field);
    if key in entered then entered[key] else ""
  }

  /**
   * Typing into one input changes what that input reads and nothing else,
   * as long as panel names hold no underscore.
   */
  lemma TypingChangesOneInput(
    entered: map<string, string>, test: string, field: string, text: string, test': string, field': string)
    requires '_' !in test && '_' !in test'
    ensures EnteredValue(entered[WidgetKey(test, field) := text], test', field') ==
      if test' == test && field' == field then text else EnteredValue(entered, test', field')
  {
    if WidgetKey(test, field) == WidgetKey(test', field') {
      WidgetKeyInjective(test, field, test', field');
    }
  }

  /** `report_data[test]`: every analyte of the panel with its entered value and catalog range. */
  function Fields(test: string, analytes: seq<Analyte>, entered: map<string, string>): seq<Field>
  {
    if analytes == [] then []
    else
      [Field(analytes[0].name, EnteredValue(entered, test, analytes[0].name), analytes[0].range)]
        + Fields(test, analytes[1..], entered)
  }

  /** Every selection names a catalog panel, once: the multiselect offers only the catalog's keys. */
  predicate ValidSelection(catalog: seq<Panel>, selected: seq<string>)
  {
    && (forall i :: 0 <= i < |selected| ==> selected[i] in Names(catalog))
    && (forall i, j :: 0 <= i < j < |selected| ==> selected[i] != selected[j])
  }

  /** `report_data`: one entry per selected panel, in selection order. */
  function ReportData(catalog: seq<Panel>, selected: seq<string>, entered: map<string, string>): seq<PanelData>
    requires forall i :: 0 <= i < |selected| ==> selected[i] in Names(catalog)
  {
    if selected == [] then []
    else
      [PanelData(selected[0], Fields(selected[0], Lookup(catalog, selected[0]).value.analytes, entered))]
        + ReportData(catalog, selected[1..], entered)
  }

  /** The outer loop that fills `report_data`, one selected panel at a time. */
  method BuildReportData(catalog: seq<Panel>, selected: seq<string>, entered: map<string, string>)
    returns (data: seq<PanelData>)
    requires ValidSelection(catalog, selected)
    ensures data == ReportData(catalog, selected, entered)
  {
    data := [];
    var i := 0;
    while i < |selected|
      invariant 0 <= i <= |selected|
      invariant data + ReportData(catalog, selected[i..], entered) == ReportData(catalog, selected, entered)
    {
      var test := selected[i];
      var fields := FillPanel(test, Lookup(catalog, test).value.analytes, entered);
      ReportDataStep(catalog, selected, i, entered);
      data := data + [PanelData(test, fields)];
      i := i + 1;
    }
    assert selected[i..] == [];
  }

  /** The inner loop: `report_data[test][field]` for each analyte of the panel, in catalog order. */
  method FillPanel(test: string, analytes: seq<Analyte>, entered: map<string, string>)
    returns (fields: seq<Field>)
    ensures fields == Fields(test, analytes, entered)
  {
    fields := [];
    var j := 0;
    while j < |analytes|
      invariant 0 <= j <= |analytes|
      invariant fields + Fields(test, analytes[j..], entered) == Fields(test, analytes, entered)
    {
      var a := analytes[j];
      FieldsStep(test, analytes, j, entered);
      fields := fields + [Field(a.name, EnteredValue(entered, test, a.name), a.range)];
      j := j + 1;
    }
    assert analytes[j..] == [];
  }

  lemma FieldsStep(test: string, analytes: seq<Analyte>, j: nat, entered: map<string, string>)
    requires j < |analytes|
    ensures Fields(test, analytes[j..], entered) ==
      [Field(analytes[j].name, EnteredValue(entered, test, analytes[j].name), analytes[j].range)]
        + Fields(test, analytes[j + 1..], entered)
  {
  }

  lemma ReportDataStep(catalog: seq<Panel>, selected: seq<string>, i: nat, entered: map<string, string>)
    requires forall k :: 0 <= k < |selected| ==> selected[k] in Names(catalog)
    requires i < |selected|
    ensures ReportData(catalog, selected[i..], entered) ==
      [PanelData(selected[i], Fields(selected[i], Lookup(catalog, selected[i]).value.analytes, entered))]
        + ReportData(catalog, selected[i + 1..], entered)
  {
  }

  /** The fields follow the panel's analytes one for one, in catalog order, with ranges unchanged. */
  lemma {:induction false} FieldsLayout(test: string, analytes: seq<Analyte>, entered: map<string, string>)
    ensures |Fields(test, analytes, entered)| == |analytes|
    ensures forall j :: 0 <= j < |analytes| ==>
      Fields(test, analytes, entered)[j] ==
        Field(analytes[j].name, EnteredValue(entered, test, analytes[j].name), analytes[j].range)
  {
    if analytes != [] {
      FieldsLayout(test, analytes[1..], entered);
      forall j | 0 < j < |analytes| ensures
        Fields(test, analytes, entered)[j] ==
          Field(analytes[j].name, EnteredValue(entered, test, analytes[j].name), analytes[j].range)
      {
        assert Fields(test, analytes, entered)[j] == Fields(test, analytes[1..], entered)[j - 1];
        assert analytes[1..][j - 1] == analytes[j];
      }
    }
  }

  /** `report_data` holds exactly the selected panels, in selection order, each with all its analytes. */
  lemma {:induction false} ReportDataLayout(catalog: seq<Panel>, selected: seq<string>, entered: map<string, string>)
    requires forall i :: 0 <= i < |selected| ==> selected[i] in Names(catalog)
    ensures |ReportData(catalog, selected, entered)| == |selected|
    ensures forall i :: 0 <= i < |selected| ==>
      ReportData(catalog, selected, entered)[i] ==
        PanelData(selected[i], Fields(selected[i], Lookup(catalog, selected[i]).value.analytes, entered))
  {
    if selected != [] {
      ReportDataLayout(catalog, selected[1..], entered);
      forall i | 0 < i < |selected| ensures
        ReportData(catalog, selected, entered)[i] ==
          PanelData(selected[i], Fields(selected[i], Lookup(catalog, selected[i]).value.analytes, entered))
      {
        assert ReportData(catalog, selected, entered)[i] == ReportData(catalog, selected[1..], entered)[i - 1];
        assert selected[1..][i - 1] == selected[i];
      }
    }
  }
}
