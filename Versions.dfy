/** Game versions: the `major.minor.patch` core of a semantic version, ordered
    by the numeric-identifier precedence of section 11 of Semantic Versioning
    2.0.0, with parsing from and printing to the `N.N.N` text form. */
module Versions {

  import opened Options
  import opened Numerals

  datatype Version = Version(major: nat, minor: nat, patch: nat)

  /** Precedence: compare major, then minor, then patch, numerically. */
  predicate Less(a: Version, b: Version) {
    || a.major < b.major
    || (a.major == b.major && a.minor < b.minor)
    || (a.major == b.major && a.minor == b.minor && a.patch < b.patch)
  }

  predicate LessEq(a: Version, b: Version) {
    a == b || Less(a, b)
  }

  /** `Less` is a strict total order, so a minimum of a catalog is unique. */
  lemma LessIsStrictTotalOrder(a: Version, b: Version, c: Version)
    ensures !Less(a, a)
    ensures Less(a, b) && Less(b, c) ==> Less(a, c)
    ensures a == b || Less(a, b) || Less(b, a)
    ensures Less(a, b) ==> !Less(b, a)
  {
  }

  /** Splits `s` at every occurrence of `sep`, as Python's `str.split(sep)`. */
  function Split(s: string, sep: char): (parts: seq<string>)
    ensures |parts| >= 1
    decreases |s|
  {
    if s == [] then [""]
    else
      var rest := Split(s[1..], sep);
      if s[0] == sep then [""] + rest else [[s[0]] + rest[0]] + rest[1..]
  }

  /** Python's `sep.join(parts)`: the inverse of `Split`. */
  function Join(parts: seq<string>, sep: char): string
    requires |parts| >= 1
    decreases |parts|
  {
    if |parts| == 1 then parts[0] else parts[0] + [sep] + Join(parts[1..], sep)
  }

  lemma {:induction false} JoinSplit(s: string, sep: char)
    ensures Join(Split(s, sep), sep) == s
  {
    if s != [] {
      var rest := Split(s[1..], sep);
      JoinSplit(s[1..], sep);
      var parts := Split(s, sep);
      if s[0] == sep {
        assert parts[1..] == rest;
      } else if |rest| > 1 {
        assert parts[1..] == rest[1..];
        assert Join(rest, sep) == rest[0] + [sep] + Join(rest[1..], sep);
        assert s == [s[0]] + s[1..];
      }
    }
  }

  /** A prefix free of separators becomes the front of the first part. */
  lemma {:induction false} SplitPrefix(a: string, t: string, sep: char)
    requires sep !in a
    ensures Split(a + t, sep) == [a + Split(t, sep)[0]] + Split(t, sep)[1..]
  {
    var st := Split(t, sep);
    if a == [] {
      assert a + t == t;
      assert a + st[0] == st[0];
      assert st == [st[0]] + st[1..];
    } else {
      assert (a + t)[0] == a[0];
      assert (a + t)[1..] == a[1..] + t;
      SplitPrefix(a[1..], t, sep);
      var rest := Split(a[1..] + t, sep);
      assert rest[0] == a[1..] + st[0];
      assert rest[1..] == st[1..];
      assert [a[0]] + rest[0] == a + st[0];
    }
  }

  /** Parses the text of a version: exactly three numerals joined by dots. */
  function Parse(s: string): Option<Version> {
    var parts := Split(s, '.');
    if |parts| == 3 && IsNumeral(parts[0]) && IsNumeral(parts[1]) && IsNumeral(parts[2])
    then Some(Version(DigitsValue(parts[0]), DigitsValue(parts[1]), DigitsValue(parts[2])))
    else None
  }

  /** The text of a version, as `str(version)` prints it. */
  function Format(v: Version): string {
    NatToString(v.major) + "." + NatToString(v.minor) + "." + NatToString(v.patch)
  }

  lemma NumeralHasNoDot(s: string)
    requires IsNumeral(s)
    ensures '.' !in s
  {
  }

  /** A text without the separator is a single part. */
  lemma SplitWhole(a: string, sep: char)
    requires sep !in a
    ensures Split(a, sep) == [a]
  {
    SplitPrefix(a, "", sep);
    assert a + "" == a;
  }

  /** A separator-free prefix followed by the separator is a part of its own. */
  lemma SplitAtSeparator(a: string, t: string, sep: char)
    requires sep !in a
    ensures Split(a + [sep] + t, sep) == [a] + Split(t, sep)
  {
    var d := [sep] + t;
    assert d[1..] == t;
    assert Split(d, sep) == [""] + Split(t, sep);
    SplitPrefix(a, d, sep);
    assert a + [sep] + t == a + d;
    assert a + "" == a;
  }

  /** Printing a version and parsing it back gives the same version. */
  lemma ParseFormat(v: Version)
    ensures Parse(Format(v)) == Some(v)
  {
    var a, b, c := NatToString(v.major), NatToString(v.minor), NatToString(v.patch);
    NumeralHasNoDot(a);
    NumeralHasNoDot(b);
    NumeralHasNoDot(c);
    SplitWhole(c, '.');
    SplitAtSeparator(b, c, '.');
    SplitAtSeparator(a, b + "." + c, '.');
    assert Format(v) == a + "." + (b + "." + c);
    assert Split(Format(v), '.') == [a, b, c];
    NatToStringRoundTrip(v.major);
    NatToStringRoundTrip(v.minor);
    NatToStringRoundTrip(v.patch);
  }

  /** Parsing accepts only the printed form: a string that parses is the
      text of its version, so no two strings parse to the same version. */
  lemma FormatParse(s: string)
    requires Parse(s).Some?
    ensures Format(Parse(s).value) == s
  {
    var parts := Split(s, '.');
    JoinSplit(s, '.');
    var tail := parts[1..];
    assert tail[1..] == [parts[2]];
    assert Join(tail[1..], '.') == parts[2];
    assert Join(tail, '.') == parts[1] + "." + parts[2];
    assert Join(parts, '.') == parts[0] + "." + (parts[1] + "." + parts[2]);
    NumeralRoundTrip(parts[0]);
    NumeralRoundTrip(parts[1]);
    NumeralRoundTrip(parts[2]);
  }
}
