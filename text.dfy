/**
 * Python's `str.split(sep)` for a one-character separator, and its inverse
 * `sep.join(parts)`.
 */
module Text {

  /** Number of occurrences of `c` in `s`. */
  function Occurrences(s: string, c: char): (n: nat)
    ensures n <= |s|
    ensures n == 0 <==> c !in s
  {
    if s == [] then 0
    else (if s[0] == c then 1 else 0) + Occurrences(s[1..], c)
  }

  /** `sep.join(parts)`: the parts with one separator between neighbours. */
  function Join(parts: seq<string>, sep: char): string
    requires |parts| >= 1
  {
    if |parts| == 1 then parts[0]
    else parts[0] + [sep] + Join(parts[1..], sep)
  }

  /**
   * `s.split(sep)`: the maximal separator-free pieces of `s`, in order. There
   * is always one more piece than there are separators, so an empty piece
   * stands for a separator at either end or two separators in a row.
   */
  function Split(s: string, sep: char): (parts: seq<string>)
    ensures |parts| == Occurrences(s, sep) + 1
    ensures forall i :: 0 <= i < |parts| ==> sep !in parts[i]
    ensures Join(parts, sep) == s
    ensures s == [] ==> parts == [[]]
    ensures s != [] && s[0] == sep ==> parts[0] == []
    ensures s != [] && s[0] != sep ==> parts[0] != [] && parts[0][0] == s[0]
  {
    if s == [] then [[]]
    else
      var rest := Split(s[1..], sep);
      if s[0] == sep then
        SeparatorStep(s, sep, rest);
        [[]] + rest
      else
        CharStep(s, sep, rest);
        [[s[0]] + rest[0]] + rest[1..]
  }

  /** A leading separator closes an empty first piece in front of the pieces of the rest. */
  lemma SeparatorStep(s: string, sep: char, rest: seq<string>)
    requires s != [] && s[0] == sep
    requires |rest| == Occurrences(s[1..], sep) + 1
    requires forall i :: 0 <= i < |rest| ==> sep !in rest[i]
    requires Join(rest, sep) == s[1..]
    ensures var parts := [[]] + rest;
      && |parts| == Occurrences(s, sep) + 1
      && (forall i :: 0 <= i < |parts| ==> sep !in parts[i])
      && Join(parts, sep) == s
  {
    var parts := [[]] + rest;
    assert parts[1..] == rest;
    assert s == [sep] + s[1..];
  }

  /** Any other leading character joins the first piece of the rest. */
  lemma CharStep(s: string, sep: char, rest: seq<string>)
    requires s != [] && s[0] != sep
    requires |rest| == Occurrences(s[1..], sep) + 1
    requires forall i :: 0 <= i < |rest| ==> sep !in rest[i]
    requires Join(rest, sep) == s[1..]
    ensures var parts := [[s[0]] + rest[0]] + rest[1..];
      && |parts| == Occurrences(s, sep) + 1
      && (forall i :: 0 <= i < |parts| ==> sep !in parts[i])
      && Join(parts, sep) == s
  {
    assert Occurrences(s, sep) == Occurrences(s[1..], sep);
    PiecesFirst(rest, s[0], sep);
    JoinFirst(rest, s[0], sep);
    assert s == [s[0]] + s[1..];
  }

  /** A character other than the separator in front of the first part keeps every part separator-free. */
  lemma PiecesFirst(parts: seq<string>, c: char, sep: char)
    requires |parts| >= 1 && c != sep
    requires forall i :: 0 <= i < |parts| ==> sep !in parts[i]
    ensures var q := [[c] + parts[0]] + parts[1..];
      forall i :: 0 <= i < |q| ==> sep !in q[i]
  {
    var q := [[c] + parts[0]] + parts[1..];
    forall i | 0 <= i < |q| ensures sep !in q[i] {
      if i > 0 { assert q[i] == parts[i]; }
    }
  }

  /** Putting a character in front of the first part puts it in front of the joined text. */
  lemma JoinFirst(parts: seq<string>, c: char, sep: char)
    requires |parts| >= 1
    ensures Join([[c] + parts[0]] + parts[1..], sep) == [c] + Join(parts, sep)
  {
    var q := [[c] + parts[0]] + parts[1..];
    assert q[0] == [c] + parts[0];
    if |parts| > 1 {
      assert q[1..] == parts[1..];
    }
  }

  /** A string without the separator is a single piece. */
  lemma SplitWithoutSeparator(s: string, sep: char)
    requires sep !in s
    ensures Split(s, sep) == [s]
  {
  }

  /** A separator-free prefix followed by a separator becomes the first piece. */
  lemma {:induction false} SplitAtFirstSeparator(a: string, t: string, sep: char)
    requires sep !in a
    ensures Split(a + [sep] + t, sep) == [a] + Split(t, sep)
  {
    var s := a + [sep] + t;
    if a == [] {
      assert s[0] == sep && s[1..] == t;
    } else {
      assert s[0] == a[0] != sep;
      assert s[1..] == a[1..] + [sep] + t;
      SplitAtFirstSeparator(a[1..], t, sep);
      SplitCons(s, sep);
      var rest := Split(s[1..], sep);
      assert rest[0] == a[1..] && rest[1..] == Split(t, sep);
      assert [a[0]] + a[1..] == a;
    }
  }

  /** A leading character other than the separator starts the first piece. */
  lemma SplitCons(s: string, sep: char)
    requires s != [] && s[0] != sep
    ensures Split(s, sep) == [[s[0]] + Split(s[1..], sep)[0]] + Split(s[1..], sep)[1..]
  {
  }

  /** Splitting undoes joining, whenever no part holds the separator. */
  lemma {:induction false} SplitJoin(parts: seq<string>, sep: char)
    requires |parts| >= 1
    requires forall i :: 0 <= i < |parts| ==> sep !in parts[i]
    ensures Split(Join(parts, sep), sep) == parts
  {
    if |parts| == 1 {
      SplitWithoutSeparator(parts[0], sep);
    } else {
      SplitJoin(parts[1..], sep);
      SplitAtFirstSeparator(parts[0], Join(parts[1..], sep), sep);
      assert [parts[0]] + parts[1..] == parts;
    }
  }

  /** `a + sep + b` splits into exactly `[a, b]` when neither side holds the separator. */
  lemma SplitPair(a: string, b: string, sep: char)
    requires sep !in a && sep !in b
    ensures Split(a + [sep] + b, sep) == [a, b]
  {
    SplitAtFirstSeparator(a, b, sep);
    SplitWithoutSeparator(b, sep);
  }
}
