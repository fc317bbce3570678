/**
 * The subset of Python's `float(s)` this model covers: an optional sign, then
 * digits with at most one decimal point and at least one digit in all
 * (`"12"`, `"4.5"`, `"5."`, `".5"`, `"+3"`, `"-0.1"`). Values are exact reals.
 * Anything else, including the empty string, is a parse failure (`None`),
 * which stands for the `ValueError` that `float` raises.
 */
module Decimal {
  import opened Wrappers
  import opened Text

  predicate IsDigit(ch: char) { '0' <= ch <= '9' }

  predicate IsDigits(s: string) { forall i :: 0 <= i < |s| ==> IsDigit(s[i]) }

  function DigitValue(ch: char): nat
    requires IsDigit(ch)
  {
    (ch as int) - ('0' as int)
  }

  /** The natural number spelled by a run of decimal digits (0 for the empty run). */
  function DigitsValue(s: string): nat
    requires IsDigits(s)
  {
    if s == [] then 0 else 10 * DigitsValue(s[..|s| - 1]) + DigitValue(s[|s| - 1])
  }

  function Pow10(n: nat): (p: nat)
    ensures p >= 1
  {
    if n == 0 then 1 else 10 * Pow10(n - 1)
  }

  /** `n / 10^k` as an exact real: the value of a fraction-digit run of length `k`. */
  function Scaled(n: nat, k: nat): (x: real)
    ensures 0.0 <= x
  {
    var d := Pow10(k) as real;
    assert d > 0.0;
    n as real / d
  }

  /** The value of a whole-part digit run and a fraction digit run. */
  function FixedPointValue(w: string, f: string): (x: real)
    requires IsDigits(w) && IsDigits(f)
    ensures x >= 0.0
  {
    DigitsValue(w) as real + Scaled(DigitsValue(f), |f|)
  }

  /**
   * The value of the pieces of an unsigned decimal split at its points: one
   * non-empty digit run, or two digit runs (whole and fraction) that are not
   * both empty.
   */
  function PointedValue(parts: seq<string>): (r: Option<real>)
    ensures r.Some? ==> r.value >= 0.0
    ensures r.Some? ==> 1 <= |parts| <= 2 && (parts[0] != [] || |parts| == 2)
  {
    if |parts| == 1 && parts[0] != [] && IsDigits(parts[0]) then
      Some(DigitsValue(parts[0]) as real)
    else if |parts| == 2 && IsDigits(parts[0]) && IsDigits(parts[1]) && parts[0] + parts[1] != [] then
      Some(FixedPointValue(parts[0], parts[1]))
    else
      None
  }

  /** Digits with at most one decimal point and at least one digit. */
  function ParseUnsigned(s: string): (r: Option<real>)
    ensures r.Some? ==> r.value >= 0.0
    ensures r.Some? ==> s != [] && (IsDigit(s[0]) || s[0] == '.')
  {
    PointedValue(Split(s, '.'))
  }

  /** `float(s)` on the decimal subset: `None` where `float` raises. */
  function ParseDecimal(s: string): (r: Option<real>)
    ensures r.Some? ==> s != [] && (IsDigit(s[0]) || s[0] in "+-.")
    ensures s != [] && s[0] == '-' ==>
      r == (if ParseUnsigned(s[1..]).Some? then Some(-ParseUnsigned(s[1..]).value) else None)
    ensures s != [] && s[0] == '+' ==> r == ParseUnsigned(s[1..])
    ensures s == [] || s[0] !in "+-" ==> r == ParseUnsigned(s)
  {
    if s != [] && s[0] == '-' then
      match ParseUnsigned(s[1..])
      case Some(x) => Some(-x)
      case None => None
    else if s != [] && s[0] == '+' then
      ParseUnsigned(s[1..])
    else
      ParseUnsigned(s)
  }

  /** The shortest decimal spelling of a natural number, as `str(n)` writes it. */
  function ShowNat(n: nat): (s: string)
    ensures s != [] && IsDigits(s)
  {
    var d := ['0' + ((n % 10) as char)];
    if n < 10 then d else ShowNat(n / 10) + d
  }

  lemma {:induction false} ShowNatValue(n: nat)
    ensures DigitsValue(ShowNat(n)) == n
  {
    var s := ShowNat(n);
    if n >= 10 {
      ShowNatValue(n / 10);
      assert s[..|s| - 1] == ShowNat(n / 10);
    }
  }

  /** Round trip: the spelling of a natural number parses back to that number. */
  lemma ParseShowNat(n: nat)
    ensures ParseDecimal(ShowNat(n)) == Some(n as real)
  {
    var s := ShowNat(n);
    NoPointInDigits(s);
    SplitWithoutSeparator(s, '.');
    ShowNatValue(n);
  }

  /** A digit run, a point and a digit run denote whole part plus scaled fraction. */
  lemma ParseFixedPoint(w: string, f: string)
    requires IsDigits(w) && IsDigits(f) && w + f != []
    ensures ParseDecimal(w + "." + f) == Some(FixedPointValue(w, f))
  {
    NoPointInDigits(w);
    NoPointInDigits(f);
    assert PointedValue([w, f]) == Some(FixedPointValue(w, f)) by {
      var p := [w, f];
      assert p[0] == w && p[1] == f;
    }
    var s := w + "." + f;
    SplitPair(w, f, '.');
    assert s[0] != '-' && s[0] != '+' by {
      if w != [] { assert s[0] == w[0] && IsDigit(w[0]); } else { assert s[0] == '.'; }
    }
  }

  /** A non-empty digit run parses to the number it spells. */
  lemma ParseDigits(s: string)
    requires IsDigits(s) && s != []
    ensures ParseDecimal(s) == Some(DigitsValue(s) as real)
  {
  }

  /** A digit run holds no decimal point. */
  lemma NoPointInDigits(s: string)
    requires IsDigits(s)
    ensures '.' !in s
  {
  }

  /**
   * The accepted syntax, character by character: digits and points only, at
   * most one point, and at least one digit.
   */
  predicate UnsignedSyntax(s: string)
  {
    && s != [] && s != "."
    && (forall i :: 0 <= i < |s| ==> IsDigit(s[i]) || s[i] == '.')
    && (forall i, j :: 0 <= i < j < |s| && s[i] == '.' ==> s[j] != '.')
  }

  /** An optional `+` or `-`, then an unsigned decimal. */
  predicate DecimalSyntax(s: string)
  {
    if s != [] && s[0] in "+-" then UnsignedSyntax(s[1..]) else UnsignedSyntax(s)
  }

  /** The unsigned parser accepts exactly the unsigned syntax. */
  lemma ParseUnsignedSyntax(s: string)
    ensures ParseUnsigned(s).Some? <==> UnsignedSyntax(s)
  {
    if '.' !in s {
      SplitWithoutSeparator(s, '.');
    } else {
      var k :| 0 <= k < |s| && s[k] == '.';
      if UnsignedSyntax(s) {
        SyntaxParses(s, k);
      }
      if ParseUnsigned(s).Some? {
        ParseHasSyntax(s);
      }
    }
  }

  /** A syntactically valid decimal with its point at `k` splits into two digit runs there. */
  lemma SyntaxParses(s: string, k: nat)
    requires UnsignedSyntax(s) && k < |s| && s[k] == '.'
    ensures ParseUnsigned(s).Some?
  {
    var a, b := s[..k], s[k + 1..];
    assert s == a + "." + b;
    forall i | 0 <= i < |a| ensures IsDigit(a[i]) { assert s[i] == a[i]; }
    forall i | 0 <= i < |b| ensures IsDigit(b[i]) { assert s[k + 1 + i] == b[i]; }
    SplitPair(a, b, '.');
  }

  /** A successful parse with a point is a digit run, a point and a digit run. */
  lemma ParseHasSyntax(s: string)
    requires ParseUnsigned(s).Some? && '.' in s
    ensures UnsignedSyntax(s)
  {
    var parts := Split(s, '.');
    assert |parts| == 2;
    JoinPair(parts, '.');
    UnsignedSyntaxOfPair(parts[0], parts[1]);
  }

  /** Joining two parts puts one separator between them. */
  lemma JoinPair(parts: seq<string>, sep: char)
    requires |parts| == 2
    ensures Join(parts, sep) == parts[0] + [sep] + parts[1]
  {
    assert parts[1..] == [parts[1]];
  }

  /** Two digit runs, not both empty, around a point are in the unsigned syntax. */
  lemma UnsignedSyntaxOfPair(a: string, b: string)
    requires IsDigits(a) && IsDigits(b) && a + b != []
    ensures UnsignedSyntax(a + "." + b)
  {
    var s := a + "." + b;
    forall i | 0 <= i < |s| && i != |a| ensures IsDigit(s[i]) {
      if i < |a| { assert s[i] == a[i]; } else { assert s[i] == b[i - |a| - 1]; }
    }
    assert s[|a|] == '.';
  }

  /** `float` succeeds on this subset exactly for the signed decimal syntax. */
  lemma ParseDecimalSyntax(s: string)
    ensures ParseDecimal(s).Some? <==> DecimalSyntax(s)
  {
    if s != [] && s[0] in "+-" {
      ParseUnsignedSyntax(s[1..]);
    } else {
      ParseUnsignedSyntax(s);
    }
  }

  /** Signed fixed-point forms: `+` keeps the value, `-` negates it. */
  lemma ParseSignedFixedPoint(w: string, f: string)
    requires IsDigits(w) && IsDigits(f) && w + f != []
    ensures ParseDecimal("+" + w + "." + f) == Some(FixedPointValue(w, f))
    ensures ParseDecimal("-" + w + "." + f) == Some(-FixedPointValue(w, f))
  {
    var u := w + "." + f;
    UnsignedFixedPoint(w, f);
    assert "+" + w + "." + f == ['+'] + u;
    assert "-" + w + "." + f == ['-'] + u;
    SignedParse('+', u);
    SignedParse('-', u);
  }

  /** A digit run, a point and a digit run parse, unsigned, to the fixed-point value. */
  lemma UnsignedFixedPoint(w: string, f: string)
    requires IsDigits(w) && IsDigits(f) && w + f != []
    ensures ParseUnsigned(w + "." + f) == Some(FixedPointValue(w, f))
  {
    NoPointInDigits(w);
    NoPointInDigits(f);
    SplitPair(w, f, '.');
    var p := [w, f];
    assert p[0] == w && p[1] == f;
  }

  /** A leading `+` keeps the unsigned parse of the rest; a leading `-` negates it. */
  lemma SignedParse(c: char, u: string)
    requires c == '+' || c == '-'
    ensures c == '+' ==> ParseDecimal([c] + u) == ParseUnsigned(u)
    ensures c == '-' && ParseUnsigned(u).Some? ==> ParseDecimal([c] + u) == Some(-ParseUnsigned(u).value)
  {
    assert ([c] + u)[1..] == u;
  }

  /** Signed whole numbers: `+w` is `w`, `-w` is its negation. */
  lemma ParseSignedDigits(w: string)
    requires IsDigits(w) && w != []
    ensures ParseDecimal("+" + w) == Some(DigitsValue(w) as real)
    ensures ParseDecimal("-" + w) == Some(-(DigitsValue(w) as real))
  {
    ParseDigits(w);
    assert w[0] != '+' && w[0] != '-' by { assert IsDigit(w[0]); }
    assert ParseUnsigned(w) == Some(DigitsValue(w) as real);
    SignedParse('+', w);
    SignedParse('-', w);
    assert "+" + w == ['+'] + w;
    assert "-" + w == ['-'] + w;
  }

  /** Trailing text, a second point and an inner sign are all rejected. */
  lemma RejectedExamples()
    ensures ParseDecimal("12a").None? && ParseDecimal("1.2.3").None? && ParseDecimal("1-2").None?
    ensures ParseDecimal("").None? && ParseDecimal(".").None? && ParseDecimal("-").None?
  {
    ParseDecimalSyntax("12a");
    assert !IsDigit("12a"[2]);
    ParseDecimalSyntax("1.2.3");
    assert "1.2.3"[1] == '.' && "1.2.3"[3] == '.';
    ParseDecimalSyntax("1-2");
    assert !IsDigit("1-2"[1]);
    ParseDecimalSyntax("");
    ParseDecimalSyntax(".");
    ParseDecimalSyntax("-");
  }
}
