/**
 * BaseAnalyzer and its two subclasses: an analyzer holds a name, a line
 * parser and the list of records found by its last analyze call.
 */
module Analysis {
  import opened Options
  import opened LineSearch
  import AppIdLog
  import ScreenLog

  /** The records that the lines yield, in line order: the list analyze builds. */
  function Collect<E>(parse: string -> Option<E>, lines: seq<string>): (r: seq<E>)
    ensures |r| <= |lines|
    decreases |lines|
  {
    if lines == [] then []
    else
      var init := Collect(parse, lines[..|lines| - 1]);
      match parse(lines[|lines| - 1])
      case Some(e) => init + [e]
      case None => init
  }

  /**
   * The records r are picked from the lines at the increasing positions idx:
   * each is what its line parses to, and every line that parses is picked.
   */
  ghost predicate Picks<E>(parse: string -> Option<E>, lines: seq<string>, r: seq<E>, idx: seq<nat>) {
    && |idx| == |r|
    && (forall k, l | 0 <= k < l < |idx| :: idx[k] < idx[l])
    && (forall k | 0 <= k < |idx| :: idx[k] < |lines| && parse(lines[idx[k]]) == Some(r[k]))
    && (forall i | 0 <= i < |lines| && parse(lines[i]).Some? :: i in idx)
  }

  /** Collect picks the records of the matching lines in order ... */
  lemma {:induction false} CollectPicks<E>(parse: string -> Option<E>, lines: seq<string>) returns (idx: seq<nat>)
    ensures Picks(parse, lines, Collect(parse, lines), idx)
    decreases |lines|
  {
    if lines == [] {
      idx := [];
    } else {
      var n := |lines| - 1;
      var init := lines[..n];
      var prev := CollectPicks(parse, init);
      assert lines == init + [lines[n]];
      if parse(lines[n]).Some? {
        PicksExtendMatch(parse, init, Collect(parse, init), prev, lines[n]);
        idx := prev + [n];
      } else {
        PicksExtendMiss(parse, init, Collect(parse, init), prev, lines[n]);
        idx := prev;
      }
    }
  }

  /** A further line that parses adds its record at the end, picked at its own position. */
  lemma PicksExtendMatch<E>(parse: string -> Option<E>, lines: seq<string>, r: seq<E>, idx: seq<nat>, line: string)
    requires Picks(parse, lines, r, idx) && parse(line).Some?
    ensures Picks(parse, lines + [line], r + [parse(line).value], idx + [|lines|])
  {
    var lines', r', idx' := lines + [line], r + [parse(line).value], idx + [|lines|];
    forall k | 0 <= k < |idx'| ensures idx'[k] < |lines'| && parse(lines'[idx'[k]]) == Some(r'[k]) {
      if k < |idx| {
        assert idx'[k] == idx[k] && r'[k] == r[k] && lines'[idx[k]] == lines[idx[k]];
      }
    }
    forall k, l | 0 <= k < l < |idx'| ensures idx'[k] < idx'[l] {
      if l < |idx| {
        assert idx'[k] == idx[k] && idx'[l] == idx[l];
      } else {
        assert idx'[k] == idx[k];
      }
    }
    forall i | 0 <= i < |lines'| && parse(lines'[i]).Some? ensures i in idx' {
      if i < |lines| {
        assert lines'[i] == lines[i];
        assert i in idx;
      } else {
        assert idx'[|idx|] == i;
      }
    }
  }

  /** A further line that does not parse changes neither the records nor their positions. */
  lemma PicksExtendMiss<E>(parse: string -> Option<E>, lines: seq<string>, r: seq<E>, idx: seq<nat>, line: string)
    requires Picks(parse, lines, r, idx) && parse(line).None?
    ensures Picks(parse, lines + [line], r, idx)
  {
    var lines' := lines + [line];
    forall k | 0 <= k < |idx| ensures idx[k] < |lines'| && parse(lines'[idx[k]]) == Some(r[k]) {
      assert lines'[idx[k]] == lines[idx[k]];
    }
    forall i | 0 <= i < |lines'| && parse(lines'[i]).Some? ensures i in idx {
      assert i < |lines| && lines'[i] == lines[i];
    }
  }

  /** When the last line parses, it gives the last record, and the others are picked from the lines before it. */
  lemma PicksLastMatch<E>(parse: string -> Option<E>, lines: seq<string>, r: seq<E>, idx: seq<nat>)
    requires Picks(parse, lines, r, idx)
    requires |lines| > 0 && parse(lines[|lines| - 1]).Some?
    ensures |r| > 0 && parse(lines[|lines| - 1]) == Some(r[|r| - 1])
    ensures Picks(parse, lines[..|lines| - 1], r[..|r| - 1], idx[..|idx| - 1])
  {
    var n := |lines| - 1;
    assert n in idx;
    var j :| 0 <= j < |idx| && idx[j] == n;
    var k := |idx| - 1;
    assert idx[j] <= idx[k];
    var init, idx' := lines[..n], idx[..k];
    forall i | 0 <= i < n && parse(init[i]).Some? ensures i in idx' {
      assert lines[i] == init[i];
      var l :| 0 <= l < |idx| && idx[l] == i;
      assert idx'[l] == i;
    }
  }

  /** When the last line does not parse, all records are picked from the lines before it. */
  lemma PicksLastMiss<E>(parse: string -> Option<E>, lines: seq<string>, r: seq<E>, idx: seq<nat>)
    requires Picks(parse, lines, r, idx)
    requires |lines| > 0 && parse(lines[|lines| - 1]).None?
    ensures Picks(parse, lines[..|lines| - 1], r, idx)
  {
    var n := |lines| - 1;
    forall k | 0 <= k < |idx| ensures idx[k] < n {
      assert parse(lines[idx[k]]) == Some(r[k]);
    }
    forall i | 0 <= i < n ensures lines[..n][i] == lines[i] {
    }
  }

  /** ... and it is the only list that does. */
  lemma {:induction false} PicksUnique<E>(parse: string -> Option<E>, lines: seq<string>, r: seq<E>, idx: seq<nat>)
    requires Picks(parse, lines, r, idx)
    ensures r == Collect(parse, lines)
    decreases |lines|
  {
    if lines == [] {
      assert |idx| == 0;
    } else {
      var n := |lines| - 1;
      if parse(lines[n]).Some? {
        PicksLastMatch(parse, lines, r, idx);
        PicksUnique(parse, lines[..n], r[..|r| - 1], idx[..|idx| - 1]);
        assert r == r[..|r| - 1] + [r[|r| - 1]];
      } else {
        PicksLastMiss(parse, lines, r, idx);
        PicksUnique(parse, lines[..n], r, idx);
      }
    }
  }

  /** The positions of the lines that parse. */
  ghost function Matching<E>(parse: string -> Option<E>, lines: seq<string>): set<nat> {
    set i: nat | i < |lines| && parse(lines[i]).Some?
  }

  /** analyze yields one record per matching line. */
  lemma {:induction false} CollectCount<E>(parse: string -> Option<E>, lines: seq<string>)
    ensures |Collect(parse, lines)| == |Matching(parse, lines)|
    decreases |lines|
  {
    if lines != [] {
      var n := |lines| - 1;
      var init := lines[..n];
      CollectCount(parse, init);
      assert forall i | 0 <= i < n :: lines[i] == init[i];
      if parse(lines[n]).Some? {
        assert Matching(parse, lines) == Matching(parse, init) + {n};
      } else {
        assert Matching(parse, lines) == Matching(parse, init);
      }
    }
  }

  /** Reading two stretches of lines one after the other gives the records of both, in order. */
  lemma {:induction false} CollectAppend<E>(parse: string -> Option<E>, a: seq<string>, b: seq<string>)
    ensures Collect(parse, a + b) == Collect(parse, a) + Collect(parse, b)
    decreases |b|
  {
    if b != [] {
      var n := |b| - 1;
      assert (a + b)[..|a + b| - 1] == a + b[..n];
      CollectAppend(parse, a, b[..n]);
    } else {
      assert a + b == a;
    }
  }

  /** Every record analyze collects is a value the parser returned for one of the lines. */
  lemma CollectFrom<E>(parse: string -> Option<E>, lines: seq<string>, e: E)
    requires e in Collect(parse, lines)
    ensures exists i | 0 <= i < |lines| :: parse(lines[i]) == Some(e)
  {
    var idx := CollectPicks(parse, lines);
    var k :| 0 <= k < |Collect(parse, lines)| && Collect(parse, lines)[k] == e;
    assert parse(lines[idx[k]]) == Some(e);
  }

  /**
   * The first record comes from the first line that parses and the last
   * record from the last one: what the time range of a summary reports.
   */
  lemma CollectEnds<E>(parse: string -> Option<E>, lines: seq<string>) returns (first: nat, last: nat)
    requires Collect(parse, lines) != []
    ensures first <= last < |lines|
    ensures parse(lines[first]) == Some(Collect(parse, lines)[0])
    ensures parse(lines[last]) == Some(Collect(parse, lines)[|Collect(parse, lines)| - 1])
    ensures forall i | 0 <= i < |lines| && parse(lines[i]).Some? :: first <= i <= last
  {
    var r := Collect(parse, lines);
    var idx := CollectPicks(parse, lines);
    var n := |idx| - 1;
    first, last := idx[0], idx[n];
    if 0 < n {
      assert idx[0] < idx[n];
    }
    assert parse(lines[first]) == Some(r[0]);
    assert parse(lines[last]) == Some(r[n]);
    forall i | 0 <= i < |lines| && parse(lines[i]).Some? ensures first <= i <= last {
      var k :| 0 <= k < |idx| && idx[k] == i;
      if 0 < k {
        assert idx[0] < idx[k];
      }
      if k < n {
        assert idx[k] < idx[n];
      }
    }
  }

  /** Every record of the AppID analyzer has a well-formed timestamp. */
  lemma AppEntriesTimestamps(lines: seq<string>)
    ensures forall e | e in Collect(AppIdLog.ParseAppLine, lines) :: TimestampShape(e.timestamp)
  {
    forall e | e in Collect(AppIdLog.ParseAppLine, lines) ensures TimestampShape(e.timestamp) {
      CollectFrom(AppIdLog.ParseAppLine, lines, e);
      var i :| 0 <= i < |lines| && AppIdLog.ParseAppLine(lines[i]) == Some(e);
      AppIdLog.ParseAppLineTimestamp(lines[i]);
    }
  }

  /** Every record of the screen analyzer has a well-formed timestamp and word fields. */
  lemma ScreenEntriesFields(lines: seq<string>)
    ensures forall e | e in Collect(ScreenLog.ParseScreenLine, lines) ::
      TimestampShape(e.timestamp) && ScreenLog.WordCaptures((e.fromState, e.toState, e.source))
  {
    forall e | e in Collect(ScreenLog.ParseScreenLine, lines)
      ensures TimestampShape(e.timestamp) && ScreenLog.WordCaptures((e.fromState, e.toState, e.source))
    {
      CollectFrom(ScreenLog.ParseScreenLine, lines, e);
      var i :| 0 <= i < |lines| && ScreenLog.ParseScreenLine(lines[i]) == Some(e);
      ScreenLog.ParseScreenLineFields(lines[i]);
    }
  }

  /** BaseAnalyzer: a named parser and the records of the last file it read. */
  class Analyzer<E> {
    const name: string
    const parse: string -> Option<E>
    var entries: seq<E>

    constructor (name: string, parse: string -> Option<E>)
      ensures this.name == name && this.parse == parse && entries == []
    {
      this.name := name;
      this.parse := parse;
      entries := [];
    }

    /**
     * analyze: `file` is the file's lines, or None when it cannot be opened.
     * The records replace whatever an earlier call left, so the result
     * depends on the lines alone.
     */
    method Analyze(file: Option<seq<string>>) returns (r: seq<E>)
      modifies this
      ensures entries == r
      ensures r == if file.Some? then Collect(parse, file.value) else []
    {
      entries := [];
      if file.Some? {
        var lines := file.value;
        for i := 0 to |lines|
          invariant entries == Collect(parse, lines[..i])
        {
          assert lines[..i + 1][..i] == lines[..i];
          var e := parse(lines[i]);
          if e.Some? {
            entries := entries + [e.value];
          }
        }
        assert lines[..|lines|] == lines;
      }
      r := entries;
    }
  }

  /** AppIDAnalyzer(). */
  method NewAppIdAnalyzer() returns (a: Analyzer<AppIdLog.LogEntry>)
    ensures fresh(a) && a.name == "AppIDAnalyzer" && a.parse == AppIdLog.ParseAppLine && a.entries == []
  {
    a := new Analyzer("AppIDAnalyzer", AppIdLog.ParseAppLine);
  }

  /** ScreenStateAnalyzer(). */
  method NewScreenStateAnalyzer() returns (a: Analyzer<ScreenLog.ScreenStateEntry>)
    ensures fresh(a) && a.name == "ScreenStateAnalyzer" && a.parse == ScreenLog.ParseScreenLine && a.entries == []
  {
    a := new Analyzer("ScreenStateAnalyzer", ScreenLog.ParseScreenLine);
  }
}
