/**
 * AppIDAnalyzer's records and its line matcher: the pattern
 * `\[(\d{2}/\d{2} \d{2}:\d{2}:\d{2})\].*on_ui_create: create view 0x[0-9a-fA-F]+:\{(\d+),\s*(\d+)\}`
 * searched for in a line, and the LogEntry built from its captures.
 */
module AppIdLog {
  import opened Options
  import opened Text
  import opened LineSearch
  import opened AppDirectory

  /**
   * A LogEntry.  The source stores app_name next to the other fields; it is
   * always the directory lookup of app_id made when the entry is built, so
   * here it is derived from appId.
   */
  datatype LogEntry = LogEntry(timestamp: string, appId: nat, pageId: nat, rawLine: string)
  {
    function appName(): string {
      AppName(appId)
    }
  }

  const CreateMarker: string := "on_ui_create: create view 0x"

  /** |CreateMarker|, named so that proofs need not measure the literal. */
  const CreateMarkerLength: nat := 28

  lemma CreateMarkerHasLength()
    ensures |CreateMarker| == CreateMarkerLength
  {
  }

  /**
   * The body `on_ui_create: create view 0x[0-9a-fA-F]+:\{(\d+),\s*(\d+)\}` at j,
   * by positions: the hex digits end at h, the app id digits run from h + 2
   * to a, the whitespace from a + 1 to w and the page id digits from w to p.
   */
  ghost predicate CreateShape(s: string, j: nat, h: nat, a: nat, w: nat, p: nat) {
    var m := j + CreateMarkerLength;
    && m <= |s| && s[j..m] == CreateMarker
    && ViewShape(s, m, h)
    && PairShape(s, h + 2, a, w, p)
  }

  /** `[0-9a-fA-F]+:\{` at m, with the hex digits in [m, h). */
  ghost predicate ViewShape(s: string, m: nat, h: nat) {
    && m < h && h + 2 <= |s|
    && (forall i | m <= i < h :: IsHexDigit(s[i]))
    && s[h] == ':' && s[h + 1] == '{'
  }

  /** `\d+,\s*\d+\}` at k, with the digits in [k, a) and [w, p) and the whitespace in [a + 1, w). */
  ghost predicate PairShape(s: string, k: nat, a: nat, w: nat, p: nat) {
    && k < a < w < p < |s|
    && (forall i | k <= i < a :: IsDigit(s[i]))
    && s[a] == ','
    && (forall i | a + 1 <= i < w :: IsSpace(s[i]))
    && (forall i | w <= i < p :: IsDigit(s[i]))
    && s[p] == '}'
  }

  /** The body matcher: scans the body at j and returns the two digit strings it captures. */
  function CreateBody(s: string, j: nat): (r: Option<(string, string)>)
    ensures r.Some? ==> |r.value.0| > 0 && AllDigits(r.value.0) && |r.value.1| > 0 && AllDigits(r.value.1)
  {
    var m := j + CreateMarkerLength;
    if m <= |s| && s[j..m] == CreateMarker then ViewFields(s, m) else None
  }

  /** `[0-9a-fA-F]+:\{` at m, then the two numbers. */
  function ViewFields(s: string, m: nat): (r: Option<(string, string)>)
    requires m <= |s|
    ensures r.Some? ==> |r.value.0| > 0 && AllDigits(r.value.0) && |r.value.1| > 0 && AllDigits(r.value.1)
  {
    var h := RunEnd(s, m, IsHexDigit);
    if m < h && h + 2 <= |s| && s[h] == ':' && s[h + 1] == '{' then IdPair(s, h + 2) else None
  }

  /** `(\d+),\s*(\d+)\}` at k. */
  function IdPair(s: string, k: nat): (r: Option<(string, string)>)
    requires k <= |s|
    ensures r.Some? ==> |r.value.0| > 0 && AllDigits(r.value.0) && |r.value.1| > 0 && AllDigits(r.value.1)
  {
    var a := RunEnd(s, k, IsDigit);
    if k < a < |s| && s[a] == ',' then
      var w := RunEnd(s, a + 1, IsSpace);
      var p := RunEnd(s, w, IsDigit);
      if w < p < |s| && s[p] == '}' then Some((s[k..a], s[w..p])) else None
    else None
  }

  lemma IdPairPositions(s: string, k: nat) returns (a: nat, w: nat, p: nat)
    requires k <= |s| && IdPair(s, k).Some?
    ensures PairShape(s, k, a, w, p)
    ensures IdPair(s, k).value == (s[k..a], s[w..p])
  {
    a := RunEnd(s, k, IsDigit);
    w := RunEnd(s, a + 1, IsSpace);
    p := RunEnd(s, w, IsDigit);
  }

  lemma ViewFieldsPosition(s: string, m: nat) returns (h: nat)
    requires m <= |s| && ViewFields(s, m).Some?
    ensures ViewShape(s, m, h)
    ensures ViewFields(s, m) == IdPair(s, h + 2)
  {
    h := RunEnd(s, m, IsHexDigit);
  }

  /** The positions at which an accepted body has each of its parts. */
  lemma CreateBodyPositions(s: string, j: nat) returns (h: nat, a: nat, w: nat, p: nat)
    requires CreateBody(s, j).Some?
    ensures CreateShape(s, j, h, a, w, p)
    ensures CreateBody(s, j).value == (s[h + 2..a], s[w..p])
    ensures AllDigits(s[h + 2..a]) && AllDigits(s[w..p])
  {
    var m := j + CreateMarkerLength;
    assert m <= |s| && s[j..m] == CreateMarker && CreateBody(s, j) == ViewFields(s, m);
    h := ViewFieldsPosition(s, m);
    assert CreateBody(s, j) == IdPair(s, h + 2);
    a, w, p := IdPairPositions(s, h + 2);
  }

  /** Whatever the matcher accepts has the shape of the body, and it captures the digits of that shape. */
  lemma CreateBodySound(s: string, j: nat)
    requires CreateBody(s, j).Some?
    ensures exists h: nat, a: nat, w: nat, p: nat ::
      CreateShape(s, j, h, a, w, p) && CreateBody(s, j).value == (s[h + 2..a], s[w..p])
  {
    var h, a, w, p := CreateBodyPositions(s, j);
  }

  lemma IdPairAt(s: string, k: nat, a: nat, w: nat, p: nat)
    requires PairShape(s, k, a, w, p)
    ensures IdPair(s, k) == Some((s[k..a], s[w..p]))
  {
    RunEndAt(s, k, a, IsDigit);
    RunEndAt(s, a + 1, w, IsSpace);
    RunEndAt(s, w, p, IsDigit);
  }

  lemma ViewFieldsAt(s: string, m: nat, h: nat)
    requires ViewShape(s, m, h)
    ensures ViewFields(s, m) == IdPair(s, h + 2)
  {
    RunEndAt(s, m, h, IsHexDigit);
  }

  /** Every occurrence of the body's shape is accepted, with exactly those captures. */
  lemma CreateBodyComplete(s: string, j: nat, h: nat, a: nat, w: nat, p: nat)
    requires CreateShape(s, j, h, a, w, p)
    ensures CreateBody(s, j) == Some((s[h + 2..a], s[w..p]))
  {
    IdPairAt(s, h + 2, a, w, p);
    ViewFieldsAt(s, j + CreateMarkerLength, h);
  }

  /** The whole pattern matches with its header at i and its body at j. */
  ghost predicate CreateMatchAt(line: string, i: nat, j: nat) {
    && HeaderAt(line, i)
    && i + HeaderLength <= j <= |line|
    && Covers(line, i + HeaderLength, j)
    && exists h: nat, a: nat, w: nat, p: nat :: CreateShape(line, j, h, a, w, p)
  }

  lemma CreateMatchAtIff(line: string, i: nat, j: nat)
    ensures MatchesAt(line, CreateBody, i, j) <==> CreateMatchAt(line, i, j)
  {
    if MatchesAt(line, CreateBody, i, j) {
      CreateBodySound(line, j);
    }
    if CreateMatchAt(line, i, j) {
      var h: nat, a: nat, w: nat, p: nat :| CreateShape(line, j, h, a, w, p);
      CreateBodyComplete(line, j, h, a, w, p);
    }
  }

  /** AppIDAnalyzer.parse_line. */
  function ParseAppLine(line: string): Option<LogEntry>
  {
    match Search(line, CreateBody)
    case None => None
    case Some(f) =>
      Some(LogEntry(f.timestamp, DecimalValue(f.captures.0), DecimalValue(f.captures.1), Strip(line)))
  }

  /** The line-level and the body-level descriptions of a match agree at every pair of positions. */
  lemma CreateMatchesAgree(line: string)
    ensures forall i: nat, j: nat :: MatchesAt(line, CreateBody, i, j) <==> CreateMatchAt(line, i, j)
  {
    forall i: nat, j: nat ensures MatchesAt(line, CreateBody, i, j) <==> CreateMatchAt(line, i, j) {
      CreateMatchAtIff(line, i, j);
    }
  }

  /** parse_line returns None exactly when the pattern occurs nowhere in the line. */
  lemma ParseAppLineNone(line: string)
    ensures ParseAppLine(line).None? <==> forall i: nat, j: nat :: !CreateMatchAt(line, i, j)
  {
    CreateMatchesAgree(line);
  }

  /**
   * A record from parse_line comes from the leftmost header and, for that
   * header, the last body on the same line: it holds the timestamp inside the
   * brackets, the decimal values of the two digit strings, and the stripped line.
   */
  lemma ParseAppLineSome(line: string) returns (i: nat, j: nat, h: nat, a: nat, w: nat, p: nat)
    requires ParseAppLine(line).Some?
    ensures CreateMatchAt(line, i, j) && CreateShape(line, j, h, a, w, p)
    ensures forall i': nat, j': nat | i' < i :: !CreateMatchAt(line, i', j')
    ensures forall j': nat | j < j' :: !CreateMatchAt(line, i, j')
    ensures AllDigits(line[h + 2..a]) && AllDigits(line[w..p])
    ensures ParseAppLine(line).value
      == LogEntry(line[i + 1..i + 15], DecimalValue(line[h + 2..a]), DecimalValue(line[w..p]), Strip(line))
  {
    var c;
    i, j, c := SearchFound(line, CreateBody);
    h, a, w, p := CreateBodyPositions(line, j);
    CreateMatchAtIff(line, i, j);
    NoCreateBefore(line, i);
    NoCreateAfter(line, i, j);
  }

  /** No header before i begins a match, in either description. */
  lemma NoCreateBefore(line: string, i: nat)
    requires forall i': nat, j': nat | i' < i :: !MatchesAt(line, CreateBody, i', j')
    ensures forall i': nat, j': nat | i' < i :: !CreateMatchAt(line, i', j')
  {
    forall i': nat, j': nat | i' < i ensures !CreateMatchAt(line, i', j') {
      CreateMatchAtIff(line, i', j');
    }
  }

  /** No body after j completes a match for the header at i, in either description. */
  lemma NoCreateAfter(line: string, i: nat, j: nat)
    requires forall j': nat | j < j' :: !MatchesAt(line, CreateBody, i, j')
    ensures forall j': nat | j < j' :: !CreateMatchAt(line, i, j')
  {
    forall j': nat | j < j' ensures !CreateMatchAt(line, i, j') {
      CreateMatchAtIff(line, i, j');
    }
  }

  /** Every record parse_line produces has a well-formed timestamp. */
  lemma ParseAppLineTimestamp(line: string)
    requires ParseAppLine(line).Some?
    ensures TimestampShape(ParseAppLine(line).value.timestamp)
  {
  }

  /** The example line of the parse_line docstring, as a file yields it (with its line break). */
  const CreateExample: string := CreateHeader + CreateTags + CreateMarker + CreateSuffix + "\n"

  const CreateHeader: string := "[01/02 04:23:33]"
  const CreateTags: string := " [59] [ap] [pagemanager] "
  const CreateSuffix: string := "18ac02b0:{15, 5}"

  lemma MarkerStartsOnce()
    ensures CreateMarker[0] == 'o'
    ensures forall k | 0 < k < CreateMarkerLength :: CreateMarker[k] != 'o'
  {
    var t := "on_ui_create: create view 0x";
    assert CreateMarker == t;
    forall k | 0 < k < CreateMarkerLength ensures CreateMarker[k] != 'o' {
      assert t[k] != 'o';
    }
  }

  lemma TagsOnOneLine()
    ensures |CreateTags| == 25 && Excludes(CreateTags, '\n')
  {
    var t := " [59] [ap] [pagemanager] ";
    assert CreateTags == t;
    forall k | 0 <= k < 25 ensures t[k] != '\n' {
    }
  }

  /** The example's body has its parts at these positions. */
  lemma CreateExampleShape()
    ensures |CreateExample| == 86
    ensures CreateShape(CreateExample, 41, 77, 81, 83, 84)
    ensures CreateExample[79..81] == "15" && CreateExample[83..84] == "5"
  {
    var line := CreateExample;
    CreateMarkerHasLength();
    CreateExampleSuffix();
    assert |CreateHeader| == 16 && |CreateTags| == 25;
    assert line[41..69] == CreateMarker;
    assert line[69..] == CreateSuffix + "\n";
    SuffixShape(line, 69);
  }

  lemma CreateExampleSuffix()
    ensures |CreateExample| == 86 && CreateExample[69..] == CreateSuffix + "\n"
  {
    CreateMarkerHasLength();
    assert |CreateHeader| == 16 && |CreateTags| == 25;
  }

  /** The view id, the braces and the two numbers of the example, wherever the suffix starts. */
  lemma SuffixShape(line: string, k: nat)
    requires k <= |line| && line[k..] == CreateSuffix + "\n"
    ensures |line| == k + 17
    ensures ViewShape(line, k, k + 8) && PairShape(line, k + 10, k + 12, k + 14, k + 15)
    ensures line[k + 10..k + 12] == "15" && line[k + 14..k + 15] == "5"
  {
    var t := line[k..];
    assert t == "18ac02b0:{15, 5}\n";
    forall i | k <= i < k + 8 ensures IsHexDigit(line[i]) {
      assert line[i] == t[i - k];
    }
    assert line[k + 10..k + 12] == t[10..12];
    assert line[k + 14..k + 15] == t[14..15];
    assert forall i | k + 8 <= i < k + 17 :: line[i] == t[i - k];
  }

  /** The example starts with a bracketed timestamp, and no line break follows it before the body. */
  lemma CreateExampleHeader()
    ensures HeaderAt(CreateExample, 0) && CreateExample[1..15] == "01/02 04:23:33"
    ensures Covers(CreateExample, 16, 41)
  {
    CreateExampleBracket();
    CreateExampleTags();
  }

  lemma CreateExampleBracket()
    ensures HeaderAt(CreateExample, 0) && CreateExample[1..15] == "01/02 04:23:33"
  {
    var line := CreateExample;
    assert line[..16] == CreateHeader;
    HeaderPrefix(line);
  }

  lemma HeaderPrefix(line: string)
    requires 16 <= |line| && line[..16] == "[01/02 04:23:33]"
    ensures HeaderAt(line, 0) && line[1..15] == "01/02 04:23:33"
  {
    var h := line[..16];
    assert line[1..15] == h[1..15];
    assert line[0] == h[0] && line[15] == h[15];
  }

  lemma CreateExampleTags()
    ensures Covers(CreateExample, 16, 41)
  {
    var line := CreateExample;
    TagsOnOneLine();
    assert line[16..41] == CreateTags;
    forall m | 16 <= m < 41 ensures NotNewline(line[m]) {
      assert line[m] == CreateTags[m - 16];
    }
  }

  /** The whole pattern matches the example with its header at 0 and its body at 41. */
  lemma CreateExampleMatch()
    ensures CreateMatchAt(CreateExample, 0, 41)
  {
    CreateExampleShape();
    CreateExampleHeader();
  }

  /** No body of the pattern starts in the example after position 41. */
  lemma CreateExampleNoLaterBody()
    ensures forall j: nat, h: nat, a: nat, w: nat, p: nat | 41 < j :: !CreateShape(CreateExample, j, h, a, w, p)
  {
    var line := CreateExample;
    CreateMarkerHasLength();
    MarkerStartsOnce();
    assert |CreateHeader| == 16 && |CreateTags| == 25;
    assert line[41..69] == CreateMarker;
    forall j: nat, h: nat, a: nat, w: nat, p: nat | 41 < j ensures !CreateShape(line, j, h, a, w, p) {
      if j + CreateMarkerLength <= |line| {
        assert line[j] == CreateMarker[j - 41] by {
          assert line[41..69][j - 41] == line[j];
        }
      }
    }
  }

  /** A line whose only match has the example's positions parses to the example's numbers. */
  lemma ParseAppLineAtExamplePositions(line: string)
    requires CreateMatchAt(line, 0, 41) && CreateShape(line, 41, 77, 81, 83, 84)
    requires forall j: nat, h: nat, a: nat, w: nat, p: nat | 41 < j :: !CreateShape(line, j, h, a, w, p)
    requires line[79..81] == "15" && line[83..84] == "5"
    ensures ParseAppLine(line) == Some(LogEntry(line[1..15], 15, 5, Strip(line)))
  {
    CreateBodyComplete(line, 41, 77, 81, 83, 84);
    CreateMatchAtIff(line, 0, 41);
    NoBodyPast(line, 41);
    SearchFirst(line, CreateBody, 41);
    ExampleIds(line[79..81], line[83..84]);
  }

  /** Where no body shape starts after j, the matcher accepts no body after j. */
  lemma NoBodyPast(line: string, j: nat)
    requires forall j': nat, h: nat, a: nat, w: nat, p: nat | j < j' :: !CreateShape(line, j', h, a, w, p)
    ensures forall j': nat | j < j' :: CreateBody(line, j').None?
  {
    forall j': nat | j < j' ensures CreateBody(line, j').None? {
      if CreateBody(line, j').Some? {
        var h, a, w, p := CreateBodyPositions(line, j');
      }
    }
  }

  lemma ExampleIds(app: string, page: string)
    requires app == "15" && page == "5"
    ensures DecimalValue(app) == 15 && DecimalValue(page) == 5
  {
    var one := app[..1];
    assert one == "1" && one[..0] == [] && page[..0] == [];
    assert DecimalValue(one) == 1;
  }

  /** strip() removes the example's line break. */
  lemma CreateExampleStrip()
    ensures Strip(CreateExample) == CreateExample[..85]
  {
    var line := CreateExample;
    assert |line| == 86 && line[0] == '[' && line[84] == '}' && line[85] == '\n';
    assert SkipSpaces(line, 0) == 0;
    assert BackSpaces(line, 0, 85) == 85;
    assert BackSpaces(line, 0, 86) == 85;
  }

  /**
   * parse_line on its docstring's example: timestamp 01/02 04:23:33, app id
   * 15, page id 5, the line without its line break, and app id 15 is SPORTS.
   */
  lemma CreateExampleParses()
    ensures ParseAppLine(CreateExample) == Some(LogEntry("01/02 04:23:33", 15, 5, CreateExample[..85]))
    ensures ParseAppLine(CreateExample).value.appName() == "SPORTS"
  {
    CreateExampleShape();
    CreateExampleHeader();
    CreateExampleMatch();
    CreateExampleNoLaterBody();
    ParseAppLineAtExamplePositions(CreateExample);
    CreateExampleStrip();
    AppNameExamples();
  }
}
