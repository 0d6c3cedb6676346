/**
 * ScreenStateAnalyzer's records and its line matcher: the pattern
 * `\[(\d{2}/\d{2} \d{2}:\d{2}:\d{2})\].*async_apply_screen_state_change: Screen state: (\w+)-->(\w+), source: (\w+)`
 * searched for in a line, and the ScreenStateEntry built from its captures.
 */
module ScreenLog {
  import opened Options
  import opened Text
  import opened LineSearch

  datatype ScreenStateEntry = ScreenStateEntry(timestamp: string, fromState: string, toState: string, source: string, rawLine: string)

  const ScreenMarker: string := "async_apply_screen_state_change: Screen state: "

  /** |ScreenMarker|, named so that proofs need not measure the literal. */
  const ScreenMarkerLength: nat := 47

  const SourceLabel: string := ", source: "
  const SourceLabelLength: nat := 10

  lemma LabelLengths()
    ensures |ScreenMarker| == ScreenMarkerLength && |SourceLabel| == SourceLabelLength
    ensures SourceLabel[0] == ','
  {
  }

  /**
   * The body at j, by positions: the from-state runs from j + 47 to e1, `-->`
   * follows, the to-state runs from e1 + 3 to e2, `, source: ` follows and the
   * source runs from e2 + 10 to e3, where the last `(\w+)` stops because the
   * word characters end.
   */
  ghost predicate TransitionShape(s: string, j: nat, e1: nat, e2: nat, e3: nat) {
    var m := j + ScreenMarkerLength;
    && m <= |s| && s[j..m] == ScreenMarker
    && StatesShape(s, m, e1, e2)
    && SourceShape(s, e2, e3)
  }

  /** `\w+-->\w+` at m, with the words in [m, e1) and [e1 + 3, e2). */
  ghost predicate StatesShape(s: string, m: nat, e1: nat, e2: nat) {
    && m < e1 && e1 + 3 < e2 <= |s|
    && (forall i | m <= i < e1 :: IsWordChar(s[i]))
    && s[e1] == '-' && s[e1 + 1] == '-' && s[e1 + 2] == '>'
    && (forall i | e1 + 3 <= i < e2 :: IsWordChar(s[i]))
  }

  /** `, source: \w+` at e2, with the word in [e2 + 10, e3) and as long as the text allows. */
  ghost predicate SourceShape(s: string, e2: nat, e3: nat) {
    var k := e2 + SourceLabelLength;
    && k <= |s| && s[e2..k] == SourceLabel
    && k < e3 <= |s|
    && (forall i | k <= i < e3 :: IsWordChar(s[i]))
    && (e3 < |s| ==> !IsWordChar(s[e3]))
  }

  /** The captures are non-empty words. */
  predicate WordCaptures(c: (string, string, string)) {
    && |c.0| > 0 && AllWordChars(c.0)
    && |c.1| > 0 && AllWordChars(c.1)
    && |c.2| > 0 && AllWordChars(c.2)
  }

  /** The body matcher: scans the body at j and returns the three words it captures. */
  function TransitionBody(s: string, j: nat): (r: Option<(string, string, string)>)
    ensures r.Some? ==> WordCaptures(r.value)
  {
    var m := j + ScreenMarkerLength;
    if m <= |s| && s[j..m] == ScreenMarker then StateFields(s, m) else None
  }

  /** `(\w+)-->(\w+)` at m, then the source. */
  function StateFields(s: string, m: nat): (r: Option<(string, string, string)>)
    requires m <= |s|
    ensures r.Some? ==> WordCaptures(r.value)
  {
    var e1 := RunEnd(s, m, IsWordChar);
    if m < e1 && e1 + 3 <= |s| && s[e1] == '-' && s[e1 + 1] == '-' && s[e1 + 2] == '>' then
      var e2 := RunEnd(s, e1 + 3, IsWordChar);
      if e1 + 3 < e2 then
        match SourceField(s, e2)
        case Some(src) => Some((s[m..e1], s[e1 + 3..e2], src))
        case None => None
      else None
    else None
  }

  /** `, source: (\w+)` at e2. */
  function SourceField(s: string, e2: nat): (r: Option<string>)
    requires e2 <= |s|
    ensures r.Some? ==> |r.value| > 0 && AllWordChars(r.value)
  {
    var k := e2 + SourceLabelLength;
    if k <= |s| && s[e2..k] == SourceLabel then
      var e3 := RunEnd(s, k, IsWordChar);
      if k < e3 then Some(s[k..e3]) else None
    else None
  }

  lemma SourceFieldPosition(s: string, e2: nat) returns (e3: nat)
    requires e2 <= |s| && SourceField(s, e2).Some?
    ensures SourceShape(s, e2, e3)
    ensures SourceField(s, e2).value == s[e2 + SourceLabelLength..e3]
  {
    e3 := RunEnd(s, e2 + SourceLabelLength, IsWordChar);
  }

  lemma StateFieldsPositions(s: string, m: nat) returns (e1: nat, e2: nat)
    requires m <= |s| && StateFields(s, m).Some?
    ensures StatesShape(s, m, e1, e2)
    ensures SourceField(s, e2).Some?
    ensures StateFields(s, m).value == (s[m..e1], s[e1 + 3..e2], SourceField(s, e2).value)
  {
    e1 := RunEnd(s, m, IsWordChar);
    e2 := RunEnd(s, e1 + 3, IsWordChar);
  }

  /** The positions at which an accepted body has each of its parts. */
  lemma TransitionBodyPositions(s: string, j: nat) returns (e1: nat, e2: nat, e3: nat)
    requires TransitionBody(s, j).Some?
    ensures TransitionShape(s, j, e1, e2, e3)
    ensures TransitionBody(s, j).value == (s[j + ScreenMarkerLength..e1], s[e1 + 3..e2], s[e2 + SourceLabelLength..e3])
  {
    var m := j + ScreenMarkerLength;
    assert m <= |s| && s[j..m] == ScreenMarker && TransitionBody(s, j) == StateFields(s, m);
    e1, e2 := StateFieldsPositions(s, m);
    e3 := SourceFieldPosition(s, e2);
  }

  /** Whatever the matcher accepts has the shape of the body, and it captures the words of that shape. */
  lemma TransitionBodySound(s: string, j: nat)
    requires TransitionBody(s, j).Some?
    ensures exists e1: nat, e2: nat, e3: nat ::
      && TransitionShape(s, j, e1, e2, e3)
      && TransitionBody(s, j).value == (s[j + ScreenMarkerLength..e1], s[e1 + 3..e2], s[e2 + SourceLabelLength..e3])
  {
    var e1, e2, e3 := TransitionBodyPositions(s, j);
  }

  lemma SourceFieldAt(s: string, e2: nat, e3: nat)
    requires SourceShape(s, e2, e3)
    ensures SourceField(s, e2) == Some(s[e2 + SourceLabelLength..e3])
  {
    RunEndAt(s, e2 + SourceLabelLength, e3, IsWordChar);
  }

  lemma StateFieldsAt(s: string, m: nat, e1: nat, e2: nat)
    requires StatesShape(s, m, e1, e2) && e2 < |s| && s[e2] == ','
    ensures StateFields(s, m) == match SourceField(s, e2)
      case Some(src) => Some((s[m..e1], s[e1 + 3..e2], src))
      case None => None
  {
    RunEndAt(s, m, e1, IsWordChar);
    RunEndAt(s, e1 + 3, e2, IsWordChar);
  }

  /** Every occurrence of the body's shape is accepted, with exactly those captures. */
  lemma TransitionBodyComplete(s: string, j: nat, e1: nat, e2: nat, e3: nat)
    requires TransitionShape(s, j, e1, e2, e3)
    ensures TransitionBody(s, j) == Some((s[j + ScreenMarkerLength..e1], s[e1 + 3..e2], s[e2 + SourceLabelLength..e3]))
  {
    LabelLengths();
    assert s[e2] == s[e2..e2 + SourceLabelLength][0];
    SourceFieldAt(s, e2, e3);
    StateFieldsAt(s, j + ScreenMarkerLength, e1, e2);
  }

  /** The whole pattern matches with its header at i and its body at j. */
  ghost predicate TransitionMatchAt(line: string, i: nat, j: nat) {
    && HeaderAt(line, i)
    && i + HeaderLength <= j <= |line|
    && Covers(line, i + HeaderLength, j)
    && exists e1: nat, e2: nat, e3: nat :: TransitionShape(line, j, e1, e2, e3)
  }

  lemma TransitionMatchAtIff(line: string, i: nat, j: nat)
    ensures MatchesAt(line, TransitionBody, i, j) <==> TransitionMatchAt(line, i, j)
  {
    if MatchesAt(line, TransitionBody, i, j) {
      TransitionBodySound(line, j);
    }
    if TransitionMatchAt(line, i, j) {
      var e1: nat, e2: nat, e3: nat :| TransitionShape(line, j, e1, e2, e3);
      TransitionBodyComplete(line, j, e1, e2, e3);
    }
  }

  /** ScreenStateAnalyzer.parse_line. */
  function ParseScreenLine(line: string): Option<ScreenStateEntry>
  {
    match Search(line, TransitionBody)
    case None => None
    case Some(f) => Some(ScreenStateEntry(f.timestamp, f.captures.0, f.captures.1, f.captures.2, Strip(line)))
  }

  /** The line-level and the body-level descriptions of a match agree at every pair of positions. */
  lemma TransitionMatchesAgree(line: string)
    ensures forall i: nat, j: nat :: MatchesAt(line, TransitionBody, i, j) <==> TransitionMatchAt(line, i, j)
  {
    forall i: nat, j: nat ensures MatchesAt(line, TransitionBody, i, j) <==> TransitionMatchAt(line, i, j) {
      TransitionMatchAtIff(line, i, j);
    }
  }

  /** parse_line returns None exactly when the pattern occurs nowhere in the line. */
  lemma ParseScreenLineNone(line: string)
    ensures ParseScreenLine(line).None? <==> forall i: nat, j: nat :: !TransitionMatchAt(line, i, j)
  {
    TransitionMatchesAgree(line);
  }

  /**
   * A record from parse_line comes from the leftmost header and, for that
   * header, the last body on the same line: it holds the timestamp inside the
   * brackets, the three words of the body and the stripped line.
   */
  lemma ParseScreenLineSome(line: string) returns (i: nat, j: nat, e1: nat, e2: nat, e3: nat)
    requires ParseScreenLine(line).Some?
    ensures TransitionMatchAt(line, i, j) && TransitionShape(line, j, e1, e2, e3)
    ensures forall i': nat, j': nat | i' < i :: !TransitionMatchAt(line, i', j')
    ensures forall j': nat | j < j' :: !TransitionMatchAt(line, i, j')
    ensures ParseScreenLine(line).value == ScreenStateEntry(line[i + 1..i + 15],
      line[j + ScreenMarkerLength..e1], line[e1 + 3..e2], line[e2 + SourceLabelLength..e3], Strip(line))
  {
    var c;
    i, j, c := SearchFound(line, TransitionBody);
    e1, e2, e3 := TransitionBodyPositions(line, j);
    TransitionMatchAtIff(line, i, j);
    NoTransitionBefore(line, i);
    NoTransitionAfter(line, i, j);
  }

  /** No header before i begins a match, in either description. */
  lemma NoTransitionBefore(line: string, i: nat)
    requires forall i': nat, j': nat | i' < i :: !MatchesAt(line, TransitionBody, i', j')
    ensures forall i': nat, j': nat | i' < i :: !TransitionMatchAt(line, i', j')
  {
    forall i': nat, j': nat | i' < i ensures !TransitionMatchAt(line, i', j') {
      TransitionMatchAtIff(line, i', j');
    }
  }

  /** No body after j completes a match for the header at i, in either description. */
  lemma NoTransitionAfter(line: string, i: nat, j: nat)
    requires forall j': nat | j < j' :: !MatchesAt(line, TransitionBody, i, j')
    ensures forall j': nat | j < j' :: !TransitionMatchAt(line, i, j')
  {
    forall j': nat | j < j' ensures !TransitionMatchAt(line, i, j') {
      TransitionMatchAtIff(line, i, j');
    }
  }

  /** Every record parse_line produces has a well-formed timestamp and non-empty word fields. */
  lemma ParseScreenLineFields(line: string)
    requires ParseScreenLine(line).Some?
    ensures var e := ParseScreenLine(line).value;
      TimestampShape(e.timestamp) && WordCaptures((e.fromState, e.toState, e.source))
  {
  }

  // ---------------------------------------------------------------------
  // The docstring's example

  /** The example line of the parse_line docstring, as a file yields it (with its line break). */
  const ScreenExample: string := ScreenHeader + ScreenTags + ScreenMarker + "ON-->OFF" + SourceLabel + "TOUCH_PALM" + "\n"

  const ScreenHeader: string := "[01/02 05:51:19]"
  const ScreenTags: string := " [59] [ap] [MiWearScreen] "

  /** The marker spelled in short pieces, which proofs can index cheaply. */
  lemma MarkerPieces()
    ensures ScreenMarker == "async_" + "apply_" + "screen_" + "state_" + "change: " + "Screen state: "
  {
  }

  /** The marker starts with "as" ... */
  lemma MarkerStart()
    ensures ScreenMarker[0] == 'a' && ScreenMarker[1] == 's'
    ensures forall k | 0 < k < 15 :: ScreenMarker[k] != 'a' || ScreenMarker[k + 1] != 's'
  {
    MarkerPieces();
  }

  /** ... and holds it nowhere else in its first 31 characters. */
  lemma MarkerMiddle()
    ensures forall k | 15 <= k < 30 :: ScreenMarker[k] != 'a' || ScreenMarker[k + 1] != 's'
  {
    MarkerPieces();
  }

  lemma TagsOnOneLine()
    ensures |ScreenTags| == 26 && Excludes(ScreenTags, '\n')
  {
    var t := " [59] [ap] [MiWearScreen] ";
    assert ScreenTags == t;
    forall k | 0 <= k < 26 ensures t[k] != '\n' {
    }
  }

  /** Where the example's parts lie. */
  lemma ScreenExampleParts()
    ensures |ScreenExample| == 118
    ensures ScreenExample[42..89] == ScreenMarker && ScreenExample[89..97] == "ON-->OFF"
    ensures ScreenExample[97..107] == SourceLabel && ScreenExample[107..117] == "TOUCH_PALM"
    ensures ScreenExample[117] == '\n'
    ensures ScreenExample[..16] == "[01/02 05:51:19]" && ScreenExample[16..42] == ScreenTags
  {
    LabelLengths();
    assert |ScreenHeader| == 16 && |ScreenTags| == 26;
  }

  /** A line laid out like the example has the body's shape at the example's positions. */
  lemma ShapeOfExampleLayout(line: string)
    requires |line| == 118
    requires line[42..89] == ScreenMarker && line[89..97] == "ON-->OFF"
    requires line[97..107] == SourceLabel && line[107..117] == "TOUCH_PALM"
    requires line[117] == '\n'
    ensures TransitionShape(line, 42, 91, 97, 117)
    ensures line[89..91] == "ON" && line[94..97] == "OFF"
  {
    LabelLengths();
    forall i | 89 <= i < 97 ensures line[i] == "ON-->OFF"[i - 89] {
      assert line[i] == line[89..97][i - 89];
    }
    forall i | 107 <= i < 117 ensures line[i] == "TOUCH_PALM"[i - 107] {
      assert line[i] == line[107..117][i - 107];
    }
    assert line[89..91] == "ON" && line[94..97] == "OFF";
  }

  /** The example's body has its parts at these positions. */
  lemma ScreenExampleShape()
    ensures |ScreenExample| == 118
    ensures TransitionShape(ScreenExample, 42, 91, 97, 117)
    ensures ScreenExample[89..91] == "ON" && ScreenExample[94..97] == "OFF" && ScreenExample[107..117] == "TOUCH_PALM"
  {
    ScreenExampleParts();
    ShapeOfExampleLayout(ScreenExample);
  }

  /** A line laid out like the example starts with a bracketed timestamp, and no line break follows it before the body. */
  lemma HeaderOfExampleLayout(line: string)
    requires |line| >= 42 && line[..16] == "[01/02 05:51:19]" && line[16..42] == ScreenTags
    ensures HeaderAt(line, 0) && line[1..15] == "01/02 05:51:19"
    ensures Covers(line, 16, 42)
  {
    TagsOnOneLine();
    assert line[1..15] == line[..16][1..15];
    forall m | 16 <= m < 42 ensures NotNewline(line[m]) {
      assert line[m] == ScreenTags[m - 16];
    }
  }

  /** The example starts with a bracketed timestamp, and no line break follows it before the body. */
  lemma ScreenExampleHeader()
    ensures HeaderAt(ScreenExample, 0) && ScreenExample[1..15] == "01/02 05:51:19"
    ensures Covers(ScreenExample, 16, 42)
  {
    ScreenExampleParts();
    HeaderOfExampleLayout(ScreenExample);
  }

  /** The whole pattern matches the example with its header at 0 and its body at 42. */
  lemma ScreenExampleMatch()
    ensures TransitionMatchAt(ScreenExample, 0, 42)
  {
    ScreenExampleShape();
    ScreenExampleHeader();
  }

  /** A line of 118 characters with the marker at 42 holds no later body. */
  lemma NoBodyAfterMarker(line: string)
    requires |line| == 118 && line[42..89] == ScreenMarker
    ensures forall j: nat, e1: nat, e2: nat, e3: nat | 42 < j :: !TransitionShape(line, j, e1, e2, e3)
  {
    LabelLengths();
    MarkerStart();
    MarkerMiddle();
    forall j: nat, e1: nat, e2: nat, e3: nat | 42 < j ensures !TransitionShape(line, j, e1, e2, e3) {
      if j + ScreenMarkerLength <= |line| {
        assert line[42..89][j - 42] == line[j] && line[42..89][j - 41] == line[j + 1];
      }
    }
  }

  /** A line whose only match has the example's positions parses to the words at those positions. */
  lemma ParseScreenLineAtExamplePositions(line: string)
    requires TransitionMatchAt(line, 0, 42) && TransitionShape(line, 42, 91, 97, 117)
    requires forall j: nat, e1: nat, e2: nat, e3: nat | 42 < j :: !TransitionShape(line, j, e1, e2, e3)
    ensures ParseScreenLine(line) == Some(ScreenStateEntry(line[1..15], line[89..91], line[94..97], line[107..117], Strip(line)))
  {
    TransitionBodyComplete(line, 42, 91, 97, 117);
    TransitionMatchAtIff(line, 0, 42);
    NoBodyPast(line, 42);
    SearchFirst(line, TransitionBody, 42);
  }

  /** Where no body shape starts after j, the matcher accepts no body after j. */
  lemma NoBodyPast(line: string, j: nat)
    requires forall j': nat, e1: nat, e2: nat, e3: nat | j < j' :: !TransitionShape(line, j', e1, e2, e3)
    ensures forall j': nat | j < j' :: TransitionBody(line, j').None?
  {
    forall j': nat | j < j' ensures TransitionBody(line, j').None? {
      if TransitionBody(line, j').Some? {
        var e1, e2, e3 := TransitionBodyPositions(line, j');
      }
    }
  }

  /** strip() removes the example's line break. */
  lemma ScreenExampleStrip()
    ensures Strip(ScreenExample) == ScreenExample[..117]
  {
    var line := ScreenExample;
    ScreenExampleParts();
    assert line[0] == '[' && line[116] == 'M';
    assert SkipSpaces(line, 0) == 0;
    assert BackSpaces(line, 0, 117) == 117;
    assert BackSpaces(line, 0, 118) == 117;
  }

  /**
   * parse_line on its docstring's example: timestamp 01/02 05:51:19, from ON
   * to OFF, source TOUCH_PALM, and the line without its line break.
   */
  lemma ScreenExampleParses()
    ensures ParseScreenLine(ScreenExample)
      == Some(ScreenStateEntry("01/02 05:51:19", "ON", "OFF", "TOUCH_PALM", ScreenExample[..117]))
  {
    ScreenExampleParts();
    ScreenExampleShape();
    ScreenExampleHeader();
    ScreenExampleMatch();
    NoBodyAfterMarker(ScreenExample);
    ParseScreenLineAtExamplePositions(ScreenExample);
    ScreenExampleStrip();
  }
}
