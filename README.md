# Lab report system — a verified model of its core

The repository is a single-page form application for a pathology lab. The
operator picks test panels from a fixed catalog, types one result per
analyte, and generates a printable HTML report. In the report every result
outside its reference range is shown in red. This project models the parts of
`app.py` that carry behaviour:

- **The reference catalog** `tests` (module `Catalog`). It has six panels and
  20 analytes, each with a reference-range string, kept in dict order.
- **The range classifier** `check_abnormal(value, normal)` (module
  `Classifier`). It parses the entered text as a number and compares it with
  a range written as `"low-high"`, `"<T"` or `">T"`. Every parse failure or
  exception resolves to "not abnormal". Its helpers are Python's `str.split`
  for one character (module `Text`) and the decimal subset of `float()`
  (module `Decimal`), with values as exact reals.
- **The form session** `report_data` (module `Session`). A nested loop fills
  it: one entry per selected panel, in selection order. Each entry maps every
  analyte of the panel, in catalog order, to its entered text and catalog
  range. An analyte's text input is keyed by `f"{test}__{field}"`.
- **Report assembly** (module `Report`). The report loop appends a patient
  table, one section per `report_data` entry with one row per analyte, and
  then the footer. Sections are counted. The report is modelled as a
  sequence of structured blocks, not as HTML text. Each row shows the entered
  text, or `&nbsp;` when it is empty. The row is red exactly when the
  classifier says abnormal, and the range column is the catalog string
  unchanged.

`Classifier.ParseRange` and `Classifier.Outside` are an independent reference
for the classifier. They parse a range once into
`Interval | Below | Above | Unrecognized` and compare against that shape.
`Catalog.TestsRangesRecognised` proves that every catalog range has a
recognised shape. `Report.CatalogRowsFollowShape` concludes that on the
catalog a row is red exactly when its value lies outside that shape: both
interval bounds count as normal, and both thresholds count as abnormal.

The interval test is `value < float(low) or value > float(high)`, and Python's
`or` short-circuits. So when the value is below a numeric `low`, `high` is
never parsed. For example, a malformed range `"13-abc"` flags the value 12 as
abnormal but not the value 14. `Classifier.UnrecognizedRange` states exactly
when this happens. No catalog range can trigger it.

## Model

| member | source | states |
|---|---|---|
| `Text.Split` | app.py:96 | `normal.split("-")`: one more piece than there are separators; no piece holds the separator; joining the pieces gives the input back; a leading separator gives an empty first piece |
| `Text.SplitJoin` | app.py:96 | splitting undoes joining whenever no part holds the separator (round trip) |
| `Text.SplitPair` | app.py:96 | `a + "-" + b` with no dash in `a` or `b` unpacks into exactly `low, high = a, b` |
| `Decimal.ParseDecimal` | app.py:93 | `float(value)` on the decimal subset: a success starts with a digit, sign or point; a leading `+` keeps the unsigned parse, a leading `-` negates it, and an unsigned string is the unsigned parse |
| `Decimal.ParseSignedDigits` | app.py:93 | `+w` parses to the whole number `w` spells and `-w` to its negation |
| `Decimal.ParseDecimalSyntax` | app.py:93 | on the modelled decimal subset, `float(value)` succeeds exactly on an optional sign followed by digits with at most one point and at least one digit; everything else raises |
| `Decimal.ParseUnsignedSyntax` | app.py:93 | the unsigned part parses exactly when it is digits and at most one point, with at least one digit |
| `Decimal.ParseSignedFixedPoint` | app.py:93 | `+w.f` parses to the whole part plus the scaled fraction, and `-w.f` to its negation |
| `Decimal.RejectedExamples` | app.py:93 | `"12a"`, `"1.2.3"`, `"1-2"`, `""`, `"."` and `"-"` all raise |
| `Decimal.ParseShowNat` | app.py:93 | round trip: the decimal spelling of any natural number parses back to that number |
| `Decimal.ParseFixedPoint` | app.py:93 | `w.f` parses to the whole part plus the fraction digits scaled by 10 to the power of their count |
| `Decimal.ParseDigits` | app.py:93 | a non-empty digit run parses to the number it spells |
| `Classifier.CheckAbnormal` | app.py:91-110 | abnormal only when the value parses; a range with no dash and no `<`/`>` prefix is never abnormal |
| `Classifier.AgreesWithShape` | app.py:95-108 | on every recognised range, abnormal iff the value parses and lies outside the parsed shape |
| `Classifier.UnrecognizedRange` | app.py:95-110 | on an unrecognised range, abnormal iff one dash, numeric `low`, unparseable `high` and value below `low` (the short circuit) |
| `Classifier.IntervalRange` | app.py:95-98 | `"low-high"` parses to `Interval(low, high)` and is abnormal iff value < low or value > high |
| `Classifier.IntervalBoundsNormal` | app.py:97-98 | both bounds of a non-empty interval count as normal |
| `Classifier.BelowRange` | app.py:100-102 | `"<T"` is abnormal iff value >= T; T itself is abnormal |
| `Classifier.AboveRange` | app.py:104-106 | `">T"` is abnormal iff value <= T; T itself is abnormal |
| `Classifier.NegativeLowerBoundNeverAbnormal` | app.py:95-110 | a range starting with `-`, such as `"-5-3"`, is unrecognised and never abnormal |
| `Classifier.DashBeforePrefix` | app.py:95-104 | the dash test wins over `<`/`>`: `"<-5"` and the like are never abnormal |
| `Classifier.ExtraDashesNeverAbnormal` | app.py:95-110 | two or more dashes make the two-way unpacking fail: never abnormal |
| `Classifier.IntervalExample` | app.py:95-98 | 10 and 12 are abnormal against `"13-17"`; 15 is normal |
| `Classifier.BelowExample` | app.py:100-102 | 200 is abnormal against `"<200"`; 199 is normal |
| `Classifier.AboveExample` | app.py:104-106 | 40 is abnormal against `">40"`; 41 is normal |
| `Classifier.NeverAbnormalExamples` | app.py:92-110 | an empty or non-numeric value, `"-5-3"` and `"<-5"` all give "not abnormal" |
| `Catalog.Tests` | app.py:27-66 | the catalog: six panels and their 20 analytes with their reference ranges, in dict order |
| `Catalog.Names` | app.py:68 | `list(tests.keys())`: one name per panel, name `i` is the name of panel `i` |
| `Catalog.TestsOffered` | app.py:27-68 | the selection offers CBC, Diabetes Profile, Lipid Profile, Liver Function Test, Kidney Function Test and Thyroid Profile, in that order |
| `Catalog.Lookup` | app.py:78 | `tests[test]` succeeds exactly for catalog panel names and returns a panel of that name |
| `Catalog.LookupFindsPanel` | app.py:78 | with distinct panel names, looking up a panel's name finds that very panel |
| `Catalog.TestsRangesRecognised` | app.py:27-66 | every one of the 20 catalog ranges is an interval or a `<`/`>` threshold the classifier understands |
| `Catalog.TestsKeysDistinct` | app.py:27-66 | panel names are distinct, analyte names are distinct within each panel, and no panel name holds an underscore |
| `Session.WidgetKeyInjective` | app.py:79-80 | input keys `test__field` never collide when panel names hold no underscore, which holds for the catalog |
| `Session.EnteredValue` | app.py:80 | the current text of input `test__field`: what was typed there, or `""` when nothing was |
| `Session.TypingChangesOneInput` | app.py:79-80 | typing into one input changes what that input reads and no other input's value |
| `Session.BuildReportData` | app.py:70-84 | the outer loop builds exactly `report_data` for the selection |
| `Session.FillPanel` | app.py:78-84 | the inner loop builds exactly the panel's entry: every analyte with its entered text and range |
| `Session.FieldsLayout` | app.py:78-84 | a panel's entry has one field per catalog analyte, in catalog order, with the entered text (empty if never typed) and the range unchanged |
| `Session.ReportDataLayout` | app.py:74-84 | `report_data` has exactly the selected panels, in selection order, each with its catalog analytes |
| `Report.RenderRow` | app.py:287-298 | display is `&nbsp;` for an empty value and the value verbatim otherwise, so it is never empty; red iff `check_abnormal`; placeholder rows are never red; range column unchanged |
| `Report.GenerateReport` | app.py:272-312 | the report loop produces exactly the patient table, the sections and the footer; the section count equals the number of panels |
| `Report.RenderRows` | app.py:287-298 | the row loop renders exactly one row per field, in order |
| `Report.RowsLayout` | app.py:287-298 | row `j` of a section is the rendering of field `j` |
| `Report.SectionsLayout` | app.py:273-300 | one section per `report_data` entry, in order, titled with its panel name |
| `Report.DocumentLayout` | app.py:255-312 | the patient table is first and only first; the footer is last and appears once; the sections lie between them |
| `Report.ReportFollowsSelection` | app.py:74-298 | section `i` is selected panel `i`; row `j` is catalog analyte `j` with its entered text (or `&nbsp;`), red iff abnormal, and its range unchanged |
| `Report.CatalogRowsFollowShape` | app.py:287-289 | on catalog ranges a row is red iff its value parses and lies outside the parsed interval or threshold |
| `Report.NothingSelected` | app.py:273-312 | with no panel selected the report holds only the patient table and the footer |
| `Report.HemoglobinExample` | app.py:74-298 | CBC with Hemoglobin = "10" gives a CBC section whose first row is Hemoglobin, "10", red, "13-17" |

## Left out

- All Streamlit calls are left out. They are page setup, text and date inputs, the multiselect, the button, the success message, the inline display and the download button. The selection and the current text of each input are parameters instead.
- The literal HTML/CSS template, the header band and `header_height` are left out. They are fixed presentation text, and the report is modelled as structured blocks.
- The patient table's date formatting and the `date.today()` defaults are left out. They need a clock and library formatting, so the dates enter `Report.Patient` as already-formatted text.
- HTML escaping is not modelled because the source does none. Patient and result strings pass through unchanged.
- Decimal.ParseDecimal: covers only the plain decimal grammar (optional sign, ASCII digits, at most one point). Python's `float()` also accepts surrounding whitespace, exponents, underscores between digits, `inf`, `nan` and non-ASCII decimal digits; the model treats all of those as parse failures. Values are exact rationals, while `float()` rounds to the nearest 64-bit binary double. So decimals that differ only beyond double precision compare equal in the source but not in the model: `"17.0000000000000001"` is normal against `"13-17"` in the source and abnormal in the model. Likewise a positive value too small for a double becomes `0.0` in the source but stays positive here. The classifier differs from the source on all such inputs.
- Session.BuildReportData: requires the selection to be distinct catalog names, as the multiselect guarantees. A dict keyed by panel would merge repeated names, and a sequence of entries would not.
- The inner `for` loops of the `report_data` builder and of the report loop are separate methods (`Session.FillPanel`, `Report.RenderRows`). Each section is appended whole after its rows are rendered, not header first and closing tag last.
- Regenerating a report from the same state gives the same report. This holds trivially here, because the report is a function of its inputs.
