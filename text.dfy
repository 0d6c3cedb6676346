/**
 * ASCII text helpers: the character classes of the log patterns, decimal
 * numerals (Python's int() on a digit string and str() on a non-negative
 * int), str.strip(), and fields joined by and split on a separator.
 */
module Text {

  /** `\d` restricted to ASCII. */
  predicate IsDigit(c: char) { '0' <= c <= '9' }

  /** `[0-9a-fA-F]`. */
  predicate IsHexDigit(c: char) { IsDigit(c) || 'a' <= c <= 'f' || 'A' <= c <= 'F' }

  /** `\w` restricted to ASCII: `[A-Za-z0-9_]`. */
  predicate IsWordChar(c: char) { IsDigit(c) || 'a' <= c <= 'z' || 'A' <= c <= 'Z' || c == '_' }

  /** The ASCII characters for which Python's str.isspace() holds; `\s` and strip() use the same class. */
  predicate IsSpace(c: char) { c == ' ' || 9 <= c as int <= 13 || 28 <= c as int <= 31 }

  predicate AllDigits(s: string) { forall m | 0 <= m < |s| :: IsDigit(s[m]) }
  predicate AllHexDigits(s: string) { forall m | 0 <= m < |s| :: IsHexDigit(s[m]) }
  predicate AllWordChars(s: string) { forall m | 0 <= m < |s| :: IsWordChar(s[m]) }
  predicate AllSpaces(s: string) { forall m | 0 <= m < |s| :: IsSpace(s[m]) }
  predicate Excludes(s: string, c: char) { forall m | 0 <= m < |s| :: s[m] != c }

  /** The end of the longest run of characters satisfying `p` that starts at `k`. */
  function RunEnd(s: string, k: nat, p: char -> bool): (e: nat)
    requires k <= |s|
    ensures k <= e <= |s|
    ensures forall m | k <= m < e :: p(s[m])
    ensures e < |s| ==> !p(s[e])
    decreases |s| - k
  {
    if k == |s| || !p(s[k]) then k else RunEnd(s, k + 1, p)
  }

  /** A run that is followed by a character outside the class ends exactly there. */
  lemma {:induction false} RunEndAt(s: string, k: nat, e: nat, p: char -> bool)
    requires k <= e <= |s|
    requires forall m | k <= m < e :: p(s[m])
    requires e < |s| ==> !p(s[e])
    ensures RunEnd(s, k, p) == e
    decreases e - k
  {
    if k < e {
      RunEndAt(s, k + 1, e, p);
    }
  }

  function DigitValue(c: char): (d: nat)
    requires IsDigit(c)
    ensures d < 10
  {
    (c as int) - ('0' as int)
  }

  function DigitChar(d: nat): (c: char)
    requires d < 10
    ensures IsDigit(c) && DigitValue(c) == d
  {
    (('0' as int) + d) as char
  }

  /** Python's int() on a string of ASCII digits (leading zeros allowed). */
  function DecimalValue(s: string): nat
    requires AllDigits(s)
    decreases |s|
  {
    if s == [] then 0 else DecimalValue(s[..|s| - 1]) * 10 + DigitValue(s[|s| - 1])
  }

  /** Python's str() on a non-negative int: the canonical decimal numeral. */
  function Decimal(n: nat): (r: string)
    ensures |r| > 0 && AllDigits(r)
    ensures r[0] == '0' ==> r == "0"
    decreases n
  {
    if n < 10 then [DigitChar(n)] else Decimal(n / 10) + [DigitChar(n % 10)]
  }

  /** int(str(n)) == n. */
  lemma {:induction false} DecimalRoundTrip(n: nat)
    ensures DecimalValue(Decimal(n)) == n
    decreases n
  {
    var r := Decimal(n);
    if n < 10 {
      assert r[..|r| - 1] == [];
    } else {
      DecimalRoundTrip(n / 10);
      assert r[..|r| - 1] == Decimal(n / 10);
    }
  }

  /** int() ignores leading zeros. */
  lemma {:induction false} LeadingZero(s: string)
    requires AllDigits(s)
    ensures AllDigits("0" + s) && DecimalValue("0" + s) == DecimalValue(s)
    decreases |s|
  {
    var z := "0" + s;
    if s != [] {
      LeadingZero(s[..|s| - 1]);
      assert z[..|z| - 1] == "0" + s[..|s| - 1];
    } else {
      assert z[..|z| - 1] == [];
    }
  }

  lemma DecimalExample()
    ensures Decimal(39321) == "39321"
  {
  }

  /** str() never puts a separator or a line break into a numeral. */
  lemma DecimalExcludes(n: nat, c: char)
    requires !IsDigit(c)
    ensures Excludes(Decimal(n), c)
  {
  }

  /** str(n) == str(n') only when n == n'. */
  lemma DecimalInjective(n: nat, n': nat)
    requires Decimal(n) == Decimal(n')
    ensures n == n'
  {
    DecimalRoundTrip(n);
    DecimalRoundTrip(n');
  }

  // ---------------------------------------------------------------------
  // str.strip()

  /** Index of the first non-space character at or after `k`, or |s|. */
  function SkipSpaces(s: string, k: nat): (i: nat)
    requires k <= |s|
    ensures k <= i <= |s| && AllSpaces(s[k..i])
    ensures i < |s| ==> !IsSpace(s[i])
    decreases |s| - k
  {
    if k == |s| || !IsSpace(s[k]) then k else SkipSpaces(s, k + 1)
  }

  /** One past the last non-space character before `j` and at or after `lo`, or `lo`. */
  function BackSpaces(s: string, lo: nat, j: nat): (e: nat)
    requires lo <= j <= |s|
    ensures lo <= e <= j && AllSpaces(s[e..j])
    ensures e > lo ==> !IsSpace(s[e - 1])
    decreases j
  {
    if j == lo || !IsSpace(s[j - 1]) then j
    else
      var e := BackSpaces(s, lo, j - 1);
      assert s[e..j] == s[e..j - 1] + [s[j - 1]];
      e
  }

  /** The bounds of s.strip() inside s. */
  function StripBounds(s: string): (b: (nat, nat))
    ensures b.0 <= b.1 <= |s|
    ensures AllSpaces(s[..b.0]) && AllSpaces(s[b.1..])
    ensures b.0 < b.1 ==> !IsSpace(s[b.0]) && !IsSpace(s[b.1 - 1])
  {
    var i := SkipSpaces(s, 0);
    var j := BackSpaces(s, i, |s|);
    assert s[..i] == s[0..i];
    (i, j)
  }

  /** Python's s.strip(): leading and trailing whitespace removed. */
  function Strip(s: string): string
  {
    var b := StripBounds(s);
    s[b.0..b.1]
  }

  /** strip() keeps the middle of the line and removes only whitespace around it. */
  lemma StripIsTrimmedSlice(s: string)
    ensures exists i, j | 0 <= i <= j <= |s| ::
      Strip(s) == s[i..j] && AllSpaces(s[..i]) && AllSpaces(s[j..])
    ensures Strip(s) != [] ==> !IsSpace(Strip(s)[0]) && !IsSpace(Strip(s)[|Strip(s)| - 1])
  {
    var b := StripBounds(s);
    assert Strip(s) == s[b.0..b.1];
  }

  /** strip() is idempotent. */
  lemma StripIdempotent(s: string)
    ensures Strip(Strip(s)) == Strip(s)
  {
    var t := Strip(s);
    var b := StripBounds(t);
    if t == [] {
    } else {
      assert SkipSpaces(t, 0) == 0;
      assert BackSpaces(t, 0, |t|) == |t|;
      assert t[0..|t|] == t;
    }
  }

  // ---------------------------------------------------------------------
  // Fields joined by a separator, and the reader that splits them again

  /** sep.join(fields). */
  function Join(fields: seq<string>, sep: char): string
    decreases |fields|
  {
    if |fields| == 0 then ""
    else if |fields| == 1 then fields[0]
    else fields[0] + [sep] + Join(fields[1..], sep)
  }

  /** Python's s.split(sep) for a one-character separator. */
  function Split(s: string, sep: char): (r: seq<string>)
    ensures |r| > 0
    decreases |s|
  {
    if s == [] then [[]]
    else
      var rest := Split(s[1..], sep);
      if s[0] == sep then [[]] + rest else [[s[0]] + rest[0]] + rest[1..]
  }

  lemma {:induction false} SplitField(w: string, sep: char)
    requires Excludes(w, sep)
    ensures Split(w, sep) == [w]
    decreases |w|
  {
    if w != [] {
      SplitField(w[1..], sep);
      assert [w[0]] + w[1..] == w;
    }
  }

  lemma {:induction false} SplitFieldThen(w: string, sep: char, rest: string)
    requires Excludes(w, sep)
    ensures Split(w + [sep] + rest, sep) == [w] + Split(rest, sep)
    decreases |w|
  {
    var s := w + [sep] + rest;
    if w == [] {
      assert s[1..] == rest;
    } else {
      assert s[1..] == w[1..] + [sep] + rest;
      SplitFieldThen(w[1..], sep, rest);
      assert [w[0]] + w[1..] == w;
    }
  }

  /** Splitting the joined text gives the fields back when no field holds the separator. */
  lemma {:induction false} SplitJoin(fields: seq<string>, sep: char)
    requires |fields| > 0
    requires forall f | f in fields :: Excludes(f, sep)
    ensures Split(Join(fields, sep), sep) == fields
    decreases |fields|
  {
    if |fields| == 1 {
      SplitField(fields[0], sep);
    } else {
      SplitJoin(fields[1..], sep);
      SplitFieldThen(fields[0], sep, Join(fields[1..], sep));
      assert [fields[0]] + fields[1..] == fields;
    }
  }

  /** A joined text holds a character other than the separator only where a field does. */
  lemma {:induction false} JoinExcludes(fields: seq<string>, sep: char, c: char)
    requires c != sep
    requires forall f | f in fields :: Excludes(f, c)
    ensures Excludes(Join(fields, sep), c)
    decreases |fields|
  {
    if |fields| == 1 {
      assert fields[0] in fields;
    } else if |fields| > 1 {
      JoinExcludes(fields[1..], sep, c);
      assert fields[0] in fields;
      var rest := Join(fields[1..], sep);
      assert Join(fields, sep) == fields[0] + [sep] + rest;
      assert forall m | 0 <= m < |rest| :: rest[m] != c;
    }
  }
}
