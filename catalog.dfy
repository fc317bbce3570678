/**
 * The static reference catalog `tests`: panel name to an ordered mapping from
 * analyte name to reference-range string. Python dicts keep insertion order,
 * so each mapping is a sequence of pairs whose keys are distinct.
 */
module Catalog {
  import opened Wrappers
  import opened Decimal
  import opened Classifier

  datatype Analyte = Analyte(name: string, range: string)

  datatype Panel = Panel(name: string, analytes: seq<Analyte>)

  const Cbc := Panel("CBC", [
    Analyte("Hemoglobin", "13-17"),
    Analyte("RBC Count", "4.5-5.5"),
    Analyte("WBC Count", "4000-11000"),
    Analyte("Platelet Count", "150000-450000")])

  const DiabetesProfile := Panel("Diabetes Profile", [
    Analyte("Fasting Blood Sugar", "70-110"),
    Analyte("Postprandial Sugar", "70-140"),
    Analyte("HbA1c", "4-5.6")])

  const LipidProfile := Panel("Lipid Profile", [
    Analyte("Total Cholesterol", "<200"),
    Analyte("Triglycerides", "<150"),
    Analyte("HDL", ">40"),
    Analyte("LDL", "<100")])

  const LiverFunctionTest := Panel("Liver Function Test", [
    Analyte("SGPT (ALT)", "7-56"),
    Analyte("SGOT (AST)", "10-40"),
    Analyte("Bilirubin Total", "0.1-1.2")])

  const KidneyFunctionTest := Panel("Kidney Function Test", [
    Analyte("Urea", "7-20"),
    Analyte("Creatinine", "0.6-1.3"),
    Analyte("Uric Acid", "3.5-7.2")])

  const ThyroidProfile := Panel("Thyroid Profile", [
    Analyte("TSH", "0.4-4.0"),
    Analyte("T3", "80-200"),
    Analyte("T4", "5-12")])

  /** The catalog, in the order the panels are offered for selection. */
  const Tests: seq<Panel> :=
    [Cbc, DiabetesProfile, LipidProfile, LiverFunctionTest, KidneyFunctionTest, ThyroidProfile]

  /** `list(tests.keys())`: the panel names, in catalog order. */
  function Names(catalog: seq<Panel>): (names: seq<string>)
    ensures |names| == |catalog|
    ensures forall i :: 0 <= i < |catalog| ==> names[i] == catalog[i].name
  {
    if catalog == [] then [] else [catalog[0].name] + Names(catalog[1..])
  }

  /** `tests[name]`, or `None` where the dict lookup would raise. */
  function Lookup(catalog: seq<Panel>, name: string): (r: Option<Panel>)
    ensures r.Some? <==> name in Names(catalog)
    ensures r.Some? ==> r.value in catalog && r.value.name == name
  {
    if catalog == [] then None
    else if catalog[0].name == name then Some(catalog[0])
    else Lookup(catalog[1..], name)
  }

  /** The selection offers the six panels, in catalog order. */
  lemma TestsOffered()
    ensures Names(Tests) ==
      ["CBC", "Diabetes Profile", "Lipid Profile", "Liver Function Test", "Kidney Function Test", "Thyroid Profile"]
  {
  }

  /** Dict keys are distinct: panel names, and analyte names within a panel. */
  ghost predicate DistinctKeys(catalog: seq<Panel>)
  {
    && (forall i, j :: 0 <= i < j < |catalog| ==> catalog[i].name != catalog[j].name)
    && (forall i :: 0 <= i < |catalog| ==> DistinctAnalytes(catalog[i]))
  }

  ghost predicate DistinctAnalytes(panel: Panel)
  {
    forall j, k :: 0 <= j < k < |panel.analytes| ==> panel.analytes[j].name != panel.analytes[k].name
  }

  /** In a catalog with distinct panel names, looking a panel's name up finds that panel. */
  lemma {:induction false} LookupFindsPanel(catalog: seq<Panel>, i: nat)
    requires DistinctKeys(catalog) && i < |catalog|
    ensures Lookup(catalog, catalog[i].name) == Some(catalog[i])
  {
    if i > 0 {
      assert catalog[0].name != catalog[i].name;
      assert DistinctKeys(catalog[1..]) by {
        forall k | 0 <= k < |catalog| - 1 ensures DistinctAnalytes(catalog[1..][k]) {
          assert catalog[1..][k] == catalog[k + 1];
        }
      }
      LookupFindsPanel(catalog[1..], i - 1);
    }
  }

  /** Every reference range in the panel has one of the three recognised shapes. */
  ghost predicate RangesRecognised(panel: Panel)
  {
    forall j :: 0 <= j < |panel.analytes| ==> ParseRange(panel.analytes[j].range) != Unrecognized
  }

  /** A plain decimal numeral: digits, then a point and more digits when `f` is not empty. */
  function Numeral(w: string, f: string): string
  {
    if f == [] then w else w + "." + f
  }

  lemma NumeralParses(w: string, f: string)
    requires IsDigits(w) && IsDigits(f) && w != []
    ensures ParseDecimal(Numeral(w, f)).Some? && '-' !in Numeral(w, f)
  {
    var s := Numeral(w, f);
    if f == [] {
      ParseDigits(w);
    } else {
      ParseFixedPoint(w, f);
    }
    forall i | 0 <= i < |s| ensures s[i] != '-' {
      if i < |w| { assert s[i] == w[i] && IsDigit(w[i]); }
      else if i > |w| { assert s[i] == f[i - |w| - 1] && IsDigit(f[i - |w| - 1]); }
    }
  }

  lemma IntervalOfNumerals(normal: string, lw: string, lf: string, hw: string, hf: string)
    requires IsDigits(lw) && IsDigits(lf) && lw != [] && IsDigits(hw) && IsDigits(hf) && hw != []
    requires normal == Numeral(lw, lf) + "-" + Numeral(hw, hf)
    ensures ParseRange(normal).Interval?
  {
    NumeralParses(lw, lf);
    NumeralParses(hw, hf);
    IntervalRange("", Numeral(lw, lf), Numeral(hw, hf));
  }

  lemma BelowNumeral(normal: string, w: string, f: string)
    requires IsDigits(w) && IsDigits(f) && w != []
    requires normal == "<" + Numeral(w, f)
    ensures ParseRange(normal).Below?
  {
    NumeralParses(w, f);
    BelowRange("", Numeral(w, f));
  }

  lemma AboveNumeral(normal: string, w: string, f: string)
    requires IsDigits(w) && IsDigits(f) && w != []
    requires normal == ">" + Numeral(w, f)
    ensures ParseRange(normal).Above?
  {
    NumeralParses(w, f);
    AboveRange("", Numeral(w, f));
  }

  lemma CbcRecognised()
    ensures RangesRecognised(Cbc)
  {
    forall j | 0 <= j < |Cbc.analytes| ensures ParseRange(Cbc.analytes[j].range) != Unrecognized {
      if j == 0 {
        IntervalOfNumerals(Cbc.analytes[j].range, "13", "", "17", "");
      } else if j == 1 {
        IntervalOfNumerals(Cbc.analytes[j].range, "4", "5", "5", "5");
      } else if j == 2 {
        IntervalOfNumerals(Cbc.analytes[j].range, "4000", "", "11000", "");
      } else {
        IntervalOfNumerals(Cbc.analytes[j].range, "150000", "", "450000", "");
      }
    }
  }

  lemma DiabetesProfileRecognised()
    ensures RangesRecognised(DiabetesProfile)
  {
    forall j | 0 <= j < |DiabetesProfile.analytes|
      ensures ParseRange(DiabetesProfile.analytes[j].range) != Unrecognized
    {
      if j == 0 {
        IntervalOfNumerals(DiabetesProfile.analytes[j].range, "70", "", "110", "");
      } else if j == 1 {
        IntervalOfNumerals(DiabetesProfile.analytes[j].range, "70", "", "140", "");
      } else {
        IntervalOfNumerals(DiabetesProfile.analytes[j].range, "4", "", "5", "6");
      }
    }
  }

  lemma LipidProfileRecognised()
    ensures RangesRecognised(LipidProfile)
  {
    forall j | 0 <= j < |LipidProfile.analytes|
      ensures ParseRange(LipidProfile.analytes[j].range) != Unrecognized
    {
      if j == 0 {
        BelowNumeral(LipidProfile.analytes[j].range, "200", "");
      } else if j == 1 {
        BelowNumeral(LipidProfile.analytes[j].range, "150", "");
      } else if j == 2 {
        AboveNumeral(LipidProfile.analytes[j].range, "40", "");
      } else {
        BelowNumeral(LipidProfile.analytes[j].range, "100", "");
      }
    }
  }

  lemma LiverFunctionTestRecognised()
    ensures RangesRecognised(LiverFunctionTest)
  {
    forall j | 0 <= j < |LiverFunctionTest.analytes|
      ensures ParseRange(LiverFunctionTest.analytes[j].range) != Unrecognized
    {
      if j == 0 {
        IntervalOfNumerals(LiverFunctionTest.analytes[j].range, "7", "", "56", "");
      } else if j == 1 {
        IntervalOfNumerals(LiverFunctionTest.analytes[j].range, "10", "", "40", "");
      } else {
        IntervalOfNumerals(LiverFunctionTest.analytes[j].range, "0", "1", "1", "2");
      }
    }
  }

  lemma KidneyFunctionTestRecognised()
    ensures RangesRecognised(KidneyFunctionTest)
  {
    forall j | 0 <= j < |KidneyFunctionTest.analytes|
      ensures ParseRange(KidneyFunctionTest.analytes[j].range) != Unrecognized
    {
      if j == 0 {
        IntervalOfNumerals(KidneyFunctionTest.analytes[j].range, "7", "", "20", "");
      } else if j == 1 {
        IntervalOfNumerals(KidneyFunctionTest.analytes[j].range, "0", "6", "1", "3");
      } else {
        IntervalOfNumerals(KidneyFunctionTest.analytes[j].range, "3", "5", "7", "2");
      }
    }
  }

  lemma ThyroidProfileRecognised()
    ensures RangesRecognised(ThyroidProfile)
  {
    forall j | 0 <= j < |ThyroidProfile.analytes|
      ensures ParseRange(ThyroidProfile.analytes[j].range) != Unrecognized
    {
      if j == 0 {
        IntervalOfNumerals(ThyroidProfile.analytes[j].range, "0", "4", "4", "0");
      } else if j == 1 {
        IntervalOfNumerals(ThyroidProfile.analytes[j].range, "80", "", "200", "");
      } else {
        IntervalOfNumerals(ThyroidProfile.analytes[j].range, "5", "", "12", "");
      }
    }
  }

  /**
   * The catalog is well formed: every reference range is an interval or a
   * threshold the classifier understands, so on catalog ranges the classifier
   * is exactly the comparison against the parsed shape.
   */
  lemma TestsRangesRecognised()
    ensures forall i :: 0 <= i < |Tests| ==> RangesRecognised(Tests[i])
  {
    CbcRecognised();
    DiabetesProfileRecognised();
    LipidProfileRecognised();
    LiverFunctionTestRecognised();
    KidneyFunctionTestRecognised();
    ThyroidProfileRecognised();
  }

  lemma TestsAnalytesDistinct()
    ensures forall i :: 0 <= i < |Tests| ==> DistinctAnalytes(Tests[i])
  {
  }

  lemma TestsNamesWithoutUnderscore()
    ensures forall i :: 0 <= i < |Tests| ==> '_' !in Tests[i].name
  {
    FirstNamesWithoutUnderscore();
    LastNamesWithoutUnderscore();
    forall i | 0 <= i < |Tests| ensures '_' !in Tests[i].name {
      if i == 0 { assert Tests[i] == Cbc; }
      else if i == 1 { assert Tests[i] == DiabetesProfile; }
      else if i == 2 { assert Tests[i] == LipidProfile; }
      else if i == 3 { assert Tests[i] == LiverFunctionTest; }
      else if i == 4 { assert Tests[i] == KidneyFunctionTest; }
      else { assert Tests[i] == ThyroidProfile; }
    }
  }

  lemma FirstNamesWithoutUnderscore()
    ensures '_' !in Cbc.name && '_' !in DiabetesProfile.name && '_' !in LipidProfile.name
  {
  }

  lemma LastNamesWithoutUnderscore()
    ensures '_' !in LiverFunctionTest.name && '_' !in KidneyFunctionTest.name && '_' !in ThyroidProfile.name
  {
  }

  /** The catalog's keys are distinct and no panel name holds an underscore. */
  lemma TestsKeysDistinct()
    ensures DistinctKeys(Tests)
    ensures forall i :: 0 <= i < |Tests| ==> '_' !in Tests[i].name
  {
    TestsAnalytesDistinct();
    TestsNamesWithoutUnderscore();
  }
}
