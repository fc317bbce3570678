/**
 * The result-range classifier `check_abnormal(value, normal)`: is an entered
 * result outside the reference range written in the catalog's small range
 * language (`"low-high"`, `"<T"`, `">T"`)? Every parse failure, and every
 * exception `check_abnormal` catches, resolves to "not abnormal".
 */
module Classifier {
  import opened Wrappers
  import opened Text
  import opened Decimal

  /**
   * `check_abnormal`. The `-` test comes before the `<` and `>` tests, and the
   * interval test short-circuits: when the value is below `low`, `high` is
   * never parsed.
   */
  function CheckAbnormal(value: string, normal: string): (abnormal: bool)
    ensures abnormal ==> ParseDecimal(value).Some?
    ensures '-' !in normal && !(normal != [] && normal[0] in "<>") ==> !abnormal
  {
    match ParseDecimal(value)
    case None => false
    case Some(v) =>
      if '-' in normal then
        var parts := Split(normal, '-');
        if |parts| != 2 then false
        else
          match ParseDecimal(parts[0])
          case None => false
          case Some(low) =>
            if v < low then true
            else
              match ParseDecimal(parts[1])
              case None => false
              case Some(high) => v > high
      else if normal != [] && normal[0] == '<' then
        match ParseDecimal(normal[1..])
        case None => false
        case Some(threshold) => v >= threshold
      else if normal != [] && normal[0] == '>' then
        match ParseDecimal(normal[1..])
        case None => false
        case Some(threshold) => v <= threshold
      else
        false
  }

  /** A reference range parsed once into its shape. */
  datatype RangeShape =
    | Interval(low: real, high: real)
    | Below(threshold: real)
    | Above(threshold: real)
    | Unrecognized

  /** The shape of a reference range, with the same precedence as `CheckAbnormal`. */
  function ParseRange(normal: string): RangeShape
  {
    if '-' in normal then
      var parts := Split(normal, '-');
      if |parts| == 2 && ParseDecimal(parts[0]).Some? && ParseDecimal(parts[1]).Some? then
        Interval(ParseDecimal(parts[0]).value, ParseDecimal(parts[1]).value)
      else
        Unrecognized
    else if normal != [] && normal[0] == '<' && ParseDecimal(normal[1..]).Some? then
      Below(ParseDecimal(normal[1..]).value)
    else if normal != [] && normal[0] == '>' && ParseDecimal(normal[1..]).Some? then
      Above(ParseDecimal(normal[1..]).value)
    else
      Unrecognized
  }

  /** Outside the range: both interval bounds are normal, both thresholds abnormal. */
  predicate Outside(v: real, shape: RangeShape)
  {
    match shape
    case Interval(low, high) => v < low || v > high
    case Below(threshold) => v >= threshold
    case Above(threshold) => v <= threshold
    case Unrecognized => false
  }

  /** On every recognised range the classifier is the comparison against the parsed shape. */
  lemma AgreesWithShape(value: string, normal: string)
    requires ParseRange(normal) != Unrecognized
    ensures CheckAbnormal(value, normal) <==>
      ParseDecimal(value).Some? && Outside(ParseDecimal(value).value, ParseRange(normal))
  {
  }

  /**
   * On an unrecognised range the classifier says "abnormal" only through the
   * short circuit: one dash, a numeric `low` above the value, and a `high`
   * that does not parse.
   */
  lemma UnrecognizedRange(value: string, normal: string)
    requires ParseRange(normal) == Unrecognized
    ensures CheckAbnormal(value, normal) <==>
      && ParseDecimal(value).Some?
      && |Split(normal, '-')| == 2
      && ParseDecimal(Split(normal, '-')[0]).Some?
      && ParseDecimal(Split(normal, '-')[1]).None?
      && ParseDecimal(value).value < ParseDecimal(Split(normal, '-')[0]).value
  {
  }

  /** `"low-high"`: abnormal exactly below `low` or above `high`. */
  lemma IntervalRange(value: string, low: string, high: string)
    requires '-' !in low && '-' !in high
    requires ParseDecimal(low).Some? && ParseDecimal(high).Some?
    ensures ParseRange(low + "-" + high) == Interval(ParseDecimal(low).value, ParseDecimal(high).value)
    ensures CheckAbnormal(value, low + "-" + high) <==>
      ParseDecimal(value).Some? &&
      (ParseDecimal(value).value < ParseDecimal(low).value || ParseDecimal(value).value > ParseDecimal(high).value)
  {
    SplitPair(low, high, '-');
    assert '-' in low + "-" + high by { assert (low + "-" + high)[|low|] == '-'; }
  }

  /** Both bounds of a non-empty interval count as normal. */
  lemma IntervalBoundsNormal(low: string, high: string)
    requires '-' !in low && '-' !in high
    requires ParseDecimal(low).Some? && ParseDecimal(high).Some?
    requires ParseDecimal(low).value <= ParseDecimal(high).value
    ensures !CheckAbnormal(low, low + "-" + high)
    ensures !CheckAbnormal(high, low + "-" + high)
  {
    IntervalRange(low, low, high);
    IntervalRange(high, low, high);
  }

  /** `"<T"`: abnormal exactly at or above `T`, so `T` itself is abnormal. */
  lemma BelowRange(value: string, threshold: string)
    requires '-' !in threshold && ParseDecimal(threshold).Some?
    ensures ParseRange("<" + threshold) == Below(ParseDecimal(threshold).value)
    ensures CheckAbnormal(value, "<" + threshold) <==>
      ParseDecimal(value).Some? && ParseDecimal(value).value >= ParseDecimal(threshold).value
    ensures CheckAbnormal(threshold, "<" + threshold)
  {
  }

  /** `">T"`: abnormal exactly at or below `T`, so `T` itself is abnormal. */
  lemma AboveRange(value: string, threshold: string)
    requires '-' !in threshold && ParseDecimal(threshold).Some?
    ensures ParseRange(">" + threshold) == Above(ParseDecimal(threshold).value)
    ensures CheckAbnormal(value, ">" + threshold) <==>
      ParseDecimal(value).Some? && ParseDecimal(value).value <= ParseDecimal(threshold).value
    ensures CheckAbnormal(threshold, ">" + threshold)
  {
  }

  /** A range that starts with `-` (a negative lower bound) splits with an empty `low`: never abnormal. */
  lemma NegativeLowerBoundNeverAbnormal(value: string, normal: string)
    requires normal != [] && normal[0] == '-'
    ensures ParseRange(normal) == Unrecognized
    ensures !CheckAbnormal(value, normal)
  {
  }

  /** The dash test wins over `<` and `>`: a prefixed range holding a dash is never abnormal. */
  lemma DashBeforePrefix(value: string, normal: string)
    requires normal != [] && normal[0] in "<>" && '-' in normal
    ensures ParseRange(normal) == Unrecognized
    ensures !CheckAbnormal(value, normal)
  {
  }

  /** More than one dash makes the two-way unpacking fail: never abnormal. */
  lemma ExtraDashesNeverAbnormal(value: string, normal: string)
    requires Occurrences(normal, '-') >= 2
    ensures ParseRange(normal) == Unrecognized
    ensures !CheckAbnormal(value, normal)
  {
  }

  /** Worked example: `"13-17"` flags 10 and 12 and passes 15. */
  lemma IntervalExample()
    ensures CheckAbnormal("10", "13-17") && CheckAbnormal("12", "13-17") && !CheckAbnormal("15", "13-17")
  {
    IntervalExampleValue("10", 10);
    IntervalExampleValue("12", 12);
    IntervalExampleValue("15", 15);
  }

  lemma IntervalExampleValue(value: string, n: nat)
    requires value == ShowNat(n)
    ensures CheckAbnormal(value, "13-17") <==> n < 13 || n > 17
  {
    ParseShowNat(n);
    ParseDigits("13");
    ParseDigits("17");
    assert "13-17" == "13" + "-" + "17";
    IntervalRange(value, "13", "17");
  }

  /** Worked example: `"<200"` flags its own threshold and passes 199. */
  lemma BelowExample()
    ensures CheckAbnormal("200", "<200") && !CheckAbnormal("199", "<200")
  {
    assert CheckAbnormal("200", "<200") by {
      assert "<200" == "<" + ShowNat(200);
      BelowWholeNumbers("200", 200, 200);
    }
    assert !CheckAbnormal("199", "<200") by {
      assert "<200" == "<" + ShowNat(200);
      BelowWholeNumbers("199", 199, 200);
    }
  }

  /** A whole-number value against a whole-number threshold `"<T"`. */
  lemma BelowWholeNumbers(value: string, n: nat, t: nat)
    requires value == ShowNat(n)
    ensures CheckAbnormal(value, "<" + ShowNat(t)) <==> n >= t
  {
    ParseShowNat(n);
    ParseShowNat(t);
    assert '-' !in ShowNat(t) by {
      var s := ShowNat(t);
      forall i | 0 <= i < |s| ensures s[i] != '-' { assert IsDigit(s[i]); }
    }
    BelowRange(value, ShowNat(t));
  }

  /** Worked example: `">40"` flags its own threshold and passes 41. */
  lemma AboveExample()
    ensures CheckAbnormal("40", ">40") && !CheckAbnormal("41", ">40")
  {
    ParseDigits("40");
    ParseDigits("41");
    assert ">40" == ">" + "40";
    AboveRange("41", "40");
  }

  /** Worked examples of silent "normal": no number, a negative bound, a dash after `<`. */
  lemma NeverAbnormalExamples()
    ensures !CheckAbnormal("", "13-17") && !CheckAbnormal("abc", "<200")
    ensures !CheckAbnormal("0", "-5-3") && !CheckAbnormal("9", "<-5")
  {
    NegativeLowerBoundNeverAbnormal("0", "-5-3");
    assert "<-5"[1] == '-';
    DashBeforePrefix("9", "<-5");
  }
}
