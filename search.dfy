/**
 * The part the two log patterns share: `\[(\d{2}/\d{2} \d{2}:\d{2}:\d{2})\].*`
 * followed by a pattern-specific body, searched for anywhere in a line the
 * way `re.search` does it.  The search tries start positions from left to
 * right; at a start whose bracketed timestamp matches, the greedy `.*` (which
 * never crosses a line break) tries the longest extent first, so the body is
 * looked for at the last possible position of the line before earlier ones.
 * A body is a function from the text and a position to its captures, which is
 * how both bodies behave: every repetition in them is followed by a character
 * outside the repeated class, so a body can match at a position in one way only.
 */
module LineSearch {
  import opened Text
  import opened Options

  /** Length of `[MM/DD HH:MM:SS]`. */
  const HeaderLength: nat := 16

  /** `\d{2}/\d{2} \d{2}:\d{2}:\d{2}`, the text of the first capture group. */
  predicate TimestampShape(t: string) {
    && |t| == 14
    && IsDigit(t[0]) && IsDigit(t[1]) && t[2] == '/'
    && IsDigit(t[3]) && IsDigit(t[4]) && t[5] == ' '
    && IsDigit(t[6]) && IsDigit(t[7]) && t[8] == ':'
    && IsDigit(t[9]) && IsDigit(t[10]) && t[11] == ':'
    && IsDigit(t[12]) && IsDigit(t[13])
  }

  /** A bracketed timestamp starts at position i. */
  predicate HeaderAt(s: string, i: nat) {
    i + HeaderLength <= |s| && s[i] == '[' && TimestampShape(s[i + 1..i + 15]) && s[i + 15] == ']'
  }

  /** Python's `.`: any character but a line break. */
  predicate NotNewline(c: char) { c != '\n' }

  /** The end of the stretch that a `.*` starting at k can cover. */
  function LineEnd(s: string, k: nat): (e: nat)
    requires k <= |s|
    ensures k <= e <= |s|
  {
    RunEnd(s, k, NotNewline)
  }

  /** A search result: where the header starts, where the body starts, and the captures. */
  datatype Found<C> = Found(start: nat, bodyStart: nat, timestamp: string, captures: C)

  /** A `.*` starting at k can cover s[k..j]: no line break in between. */
  ghost predicate Covers(s: string, k: nat, j: nat) {
    forall m | k <= m < j && m < |s| :: NotNewline(s[m])
  }

  lemma CoversUpToLineEnd(s: string, k: nat, j: nat)
    requires k <= j <= |s|
    ensures Covers(s, k, j) <==> j <= LineEnd(s, k)
  {
    var e := LineEnd(s, k);
    if j > e {
      assert !NotNewline(s[e]);
    }
  }

  /** The pattern matches with its header at i and its body at j. */
  ghost predicate MatchesAt<C>(s: string, body: (string, nat) -> Option<C>, i: nat, j: nat) {
    && HeaderAt(s, i)
    && i + HeaderLength <= j <= |s|
    && Covers(s, i + HeaderLength, j)
    && body(s, j).Some?
  }

  /** Backtracking of the greedy `.*`: the last position in [lo, j] at which the body matches. */
  function LastBody<C>(s: string, body: (string, nat) -> Option<C>, lo: nat, j: nat): (r: Option<(nat, C)>)
    requires lo <= j
    ensures r.Some? ==> lo <= r.value.0 <= j && body(s, r.value.0) == Some(r.value.1)
    ensures r.Some? ==> forall j': nat | r.value.0 < j' <= j :: body(s, j').None?
    ensures r.None? ==> forall j': nat | lo <= j' <= j :: body(s, j').None?
    decreases j - lo
  {
    match body(s, j)
    case Some(c) => Some((j, c))
    case None => if j == lo then None else LastBody(s, body, lo, j - 1)
  }

  /** The attempt at start positions i, i + 1, ... in turn. */
  function SearchFrom<C>(s: string, body: (string, nat) -> Option<C>, i: nat): Option<Found<C>>
    decreases |s| - i
  {
    if i + HeaderLength > |s| then None
    else if HeaderAt(s, i) then
      match LastBody(s, body, i + HeaderLength, LineEnd(s, i + HeaderLength))
      case Some((j, c)) => Some(Found(i, j, s[i + 1..i + 15], c))
      case None => SearchFrom(s, body, i + 1)
    else SearchFrom(s, body, i + 1)
  }

  /** At a matching header, the body is taken at the last position the line allows. */
  lemma LastBodyAtHeader<C>(s: string, body: (string, nat) -> Option<C>, i: nat)
    requires HeaderAt(s, i)
    ensures var r := LastBody(s, body, i + HeaderLength, LineEnd(s, i + HeaderLength));
      && (r.None? ==> forall j: nat :: !MatchesAt(s, body, i, j))
      && (r.Some? ==> MatchesAt(s, body, i, r.value.0) && forall j: nat | r.value.0 < j :: !MatchesAt(s, body, i, j))
  {
    var k := i + HeaderLength;
    var e := LineEnd(s, k);
    var r := LastBody(s, body, k, e);
    forall j: nat | MatchesAt(s, body, i, j) ensures j <= e && (r.Some? ==> j <= r.value.0) {
      CoversUpToLineEnd(s, k, j);
    }
    if r.Some? {
      CoversUpToLineEnd(s, k, r.value.0);
    }
  }

  /** Past the last position where a header fits, nothing matches. */
  lemma NoRoomForHeader<C>(s: string, body: (string, nat) -> Option<C>, i: nat)
    requires i + HeaderLength > |s|
    ensures forall i': nat, j: nat | i <= i' :: !MatchesAt(s, body, i', j)
  {
    forall i': nat, j: nat | i <= i' ensures !MatchesAt(s, body, i', j) {
      assert !HeaderAt(s, i');
    }
  }

  /** When the attempt at i fails, the search goes on at i + 1. */
  lemma NoMatchAtStart<C>(s: string, body: (string, nat) -> Option<C>, i: nat)
    requires i + HeaderLength <= |s|
    requires !HeaderAt(s, i) || LastBody(s, body, i + HeaderLength, LineEnd(s, i + HeaderLength)).None?
    ensures forall j: nat :: !MatchesAt(s, body, i, j)
    ensures SearchFrom(s, body, i) == SearchFrom(s, body, i + 1)
  {
    if HeaderAt(s, i) {
      LastBodyAtHeader(s, body, i);
    }
  }

  lemma {:induction false} SearchFromNone<C>(s: string, body: (string, nat) -> Option<C>, i: nat)
    requires SearchFrom(s, body, i).None?
    ensures forall i': nat, j: nat | i <= i' :: !MatchesAt(s, body, i', j)
    decreases |s| - i
  {
    if i + HeaderLength > |s| {
      NoRoomForHeader(s, body, i);
    } else {
      NoMatchAtStart(s, body, i);
      SearchFromNone(s, body, i + 1);
      forall i': nat, j: nat | i <= i' ensures !MatchesAt(s, body, i', j) {
        if i < i' {
          assert i + 1 <= i';
        }
      }
    }
  }

  /** When the attempt at i succeeds, the search stops there. */
  lemma MatchAtStart<C>(s: string, body: (string, nat) -> Option<C>, i: nat)
    requires HeaderAt(s, i)
    requires LastBody(s, body, i + HeaderLength, LineEnd(s, i + HeaderLength)).Some?
    ensures var here := LastBody(s, body, i + HeaderLength, LineEnd(s, i + HeaderLength)).value;
      && SearchFrom(s, body, i) == Some(Found(i, here.0, s[i + 1..i + 15], here.1))
      && MatchesAt(s, body, i, here.0)
      && (forall j: nat | here.0 < j :: !MatchesAt(s, body, i, j))
  {
    LastBodyAtHeader(s, body, i);
  }

  /** What SearchFrom promises about a match it returns. */
  ghost predicate ChosenFrom<C>(s: string, body: (string, nat) -> Option<C>, i: nat, f: Found<C>) {
    && i <= f.start
    && MatchesAt(s, body, f.start, f.bodyStart)
    && body(s, f.bodyStart) == Some(f.captures)
    && f.timestamp == s[f.start + 1..f.start + 15]
    && (forall i': nat, j: nat | i <= i' < f.start :: !MatchesAt(s, body, i', j))
    && (forall j: nat | f.bodyStart < j :: !MatchesAt(s, body, f.start, j))
  }

  /** A failed attempt at i does not change what a later start chose. */
  lemma ChosenFromEarlier<C>(s: string, body: (string, nat) -> Option<C>, i: nat, f: Found<C>)
    requires ChosenFrom(s, body, i + 1, f)
    requires forall j: nat :: !MatchesAt(s, body, i, j)
    ensures ChosenFrom(s, body, i, f)
  {
    forall i': nat, j: nat | i <= i' < f.start ensures !MatchesAt(s, body, i', j) {
      if i < i' {
        assert i + 1 <= i' < f.start;
      }
    }
  }

  lemma {:induction false} SearchFromSome<C>(s: string, body: (string, nat) -> Option<C>, i: nat)
    requires SearchFrom(s, body, i).Some?
    ensures ChosenFrom(s, body, i, SearchFrom(s, body, i).value)
    decreases |s| - i
  {
    var k := i + HeaderLength;
    if HeaderAt(s, i) && LastBody(s, body, k, LineEnd(s, k)).Some? {
      MatchAtStart(s, body, i);
    } else {
      NoMatchAtStart(s, body, i);
      SearchFromSome(s, body, i + 1);
      ChosenFromEarlier(s, body, i, SearchFrom(s, body, i + 1).value);
    }
  }

  /**
   * `re.search` over the whole line: None exactly when no start and no body
   * position match, and otherwise the leftmost matching start and, for that
   * start, the rightmost body position.
   */
  function Search<C>(s: string, body: (string, nat) -> Option<C>): (r: Option<Found<C>>)
    ensures r.None? <==> forall i: nat, j: nat :: !MatchesAt(s, body, i, j)
    ensures r.Some? ==>
      var f := r.value;
      && MatchesAt(s, body, f.start, f.bodyStart)
      && body(s, f.bodyStart) == Some(f.captures)
      && f.timestamp == s[f.start + 1..f.start + 15] && TimestampShape(f.timestamp)
      && (forall i: nat, j: nat | i < f.start :: !MatchesAt(s, body, i, j))
      && (forall j: nat | f.bodyStart < j :: !MatchesAt(s, body, f.start, j))
  {
    var r := SearchFrom(s, body, 0);
    if r.None? then
      SearchFromNone(s, body, 0);
      r
    else
      SearchFromSome(s, body, 0);
      assert ChosenFrom(s, body, 0, r.value);
      r
  }

  /** The match Search reports, as positions: the header at i and the body at j with captures c. */
  lemma SearchFound<C>(s: string, body: (string, nat) -> Option<C>) returns (i: nat, j: nat, c: C)
    requires Search(s, body).Some?
    ensures MatchesAt(s, body, i, j) && body(s, j) == Some(c)
    ensures Search(s, body) == Some(Found(i, j, s[i + 1..i + 15], c))
    ensures forall i': nat, j': nat | i' < i :: !MatchesAt(s, body, i', j')
    ensures forall j': nat | j < j' :: !MatchesAt(s, body, i, j')
  {
    var f := Search(s, body).value;
    i, j, c := f.start, f.bodyStart, f.captures;
  }

  /** A match at header 0 with no body after j: Search reports header 0, body j and that body's captures. */
  lemma SearchFirst<C>(s: string, body: (string, nat) -> Option<C>, j: nat)
    requires MatchesAt(s, body, 0, j)
    requires forall j': nat | j < j' :: body(s, j').None?
    ensures Search(s, body) == Some(Found(0, j, s[1..15], body(s, j).value))
  {
    var i, j', c := SearchFound(s, body);
    assert i == 0;
    assert j' == j;
  }
}
