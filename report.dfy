/**
 * The statistics the two analyzers report: the counts print_summary lists,
 * the time range, the figures export_to_html hands to the page (distinct
 * apps, apps never run, ON/OFF counts, the duration) and the unknown ids the
 * command line points out.  Everything is computed from the list of records
 * an analyze call left behind.
 */
module Report {
  import opened Options
  import opened Text
  import opened Order
  import opened Tally
  import opened AppDirectory
  import AppIdLog
  import ScreenLog
  import Duration
  import opened Analysis

  type LogEntry = AppIdLog.LogEntry
  type ScreenStateEntry = ScreenLog.ScreenStateEntry

  // ---------------------------------------------------------------------
  // Keys of the count maps

  function AppIds(entries: seq<LogEntry>): seq<nat> {
    seq(|entries|, k requires 0 <= k < |entries| => entries[k].appId)
  }

  /** `f"{entry.from_state}-->{entry.to_state}"`. */
  function TransitionKey(e: ScreenStateEntry): string {
    e.fromState + "-->" + e.toState
  }

  function TransitionKeys(entries: seq<ScreenStateEntry>): seq<string> {
    seq(|entries|, k requires 0 <= k < |entries| => TransitionKey(entries[k]))
  }

  function Sources(entries: seq<ScreenStateEntry>): seq<string> {
    seq(|entries|, k requires 0 <= k < |entries| => entries[k].source)
  }

  /** When the from-state is a run of word characters, the transition key determines both states. */
  lemma TransitionKeyInjective(a: ScreenStateEntry, b: ScreenStateEntry)
    requires AllWordChars(a.fromState) && AllWordChars(b.fromState)
    requires TransitionKey(a) == TransitionKey(b)
    ensures a.fromState == b.fromState && a.toState == b.toState
  {
    var key := TransitionKey(a);
    var n, n' := |a.fromState|, |b.fromState|;
    assert forall m | 0 <= m < n :: key[m] == a.fromState[m];
    assert key[n] == '-';
    RunEndAt(key, 0, n, IsWordChar);
    assert forall m | 0 <= m < n' :: key[m] == b.fromState[m];
    assert key[n'] == '-';
    RunEndAt(key, 0, n', IsWordChar);
    assert a.fromState == key[..n] && b.fromState == key[..n'];
    assert a.toState == key[n + 3..] && b.toState == key[n' + 3..];
  }

  // ---------------------------------------------------------------------
  // print_summary: counts by key in ascending key order

  /** app_stats as `sorted(app_stats.items())` lists it: ids ascending, counts adding up to the number of records. */
  function AppStats(entries: seq<LogEntry>): (items: seq<(nat, nat)>)
    ensures forall i, j | 0 <= i < j < |items| :: items[i].0 < items[j].0
    ensures SumCounts(items) == |entries|
  {
    NatLessIsStrictTotalOrder();
    HistogramTotal(AppIds(entries), NatLess);
    Histogram(AppIds(entries), NatLess)
  }

  /** Each id of the records is listed once, with the number of records that carry it. */
  lemma AppStatsCounts(entries: seq<LogEntry>)
    ensures forall id: nat, c: nat :: (id, c) in AppStats(entries) <==> 0 < c == Occurrences(AppIds(entries), id)
  {
    NatLessIsStrictTotalOrder();
    HistogramOccurrences(AppIds(entries), NatLess);
  }

  /** transition_stats as `sorted(transition_stats.items())` lists it. */
  function TransitionStats(entries: seq<ScreenStateEntry>): (items: seq<(string, nat)>)
    ensures forall i, j | 0 <= i < j < |items| :: StrLess(items[i].0, items[j].0)
    ensures SumCounts(items) == |entries|
  {
    StrLessIsStrictTotalOrder();
    HistogramTotal(TransitionKeys(entries), StrLess);
    Histogram(TransitionKeys(entries), StrLess)
  }

  /** Each transition key is listed once, with the number of records that make that transition. */
  lemma TransitionStatsCounts(entries: seq<ScreenStateEntry>)
    ensures forall key, c :: (key, c) in TransitionStats(entries) <==> 0 < c == Occurrences(TransitionKeys(entries), key)
  {
    StrLessIsStrictTotalOrder();
    HistogramOccurrences(TransitionKeys(entries), StrLess);
  }

  /** source_stats as `sorted(source_stats.items())` lists it. */
  function SourceStats(entries: seq<ScreenStateEntry>): (items: seq<(string, nat)>)
    ensures forall i, j | 0 <= i < j < |items| :: StrLess(items[i].0, items[j].0)
    ensures SumCounts(items) == |entries|
  {
    StrLessIsStrictTotalOrder();
    HistogramTotal(Sources(entries), StrLess);
    Histogram(Sources(entries), StrLess)
  }

  /** Each source is listed once, with the number of records it caused. */
  lemma SourceStatsCounts(entries: seq<ScreenStateEntry>)
    ensures forall src, c :: (src, c) in SourceStats(entries) <==> 0 < c == Occurrences(Sources(entries), src)
  {
    StrLessIsStrictTotalOrder();
    HistogramOccurrences(Sources(entries), StrLess);
  }

  /** The (name, count) lines printed for (id, count) items. */
  function NamedCounts(items: seq<(nat, nat)>): seq<(string, nat)> {
    seq(|items|, i requires 0 <= i < |items| => (AppName(items[i].0), items[i].1))
  }

  /** Different ids of the summary are printed with different names. */
  lemma SummaryNamesDistinct(entries: seq<LogEntry>)
    ensures var lines := NamedCounts(AppStats(entries));
      forall i, j | 0 <= i < j < |lines| :: lines[i].0 != lines[j].0
  {
    var items := AppStats(entries);
    var lines := NamedCounts(items);
    forall i, j | 0 <= i < j < |lines| ensures lines[i].0 != lines[j].0 {
      if AppName(items[i].0) == AppName(items[j].0) {
        AppNameInjective(items[i].0, items[j].0);
      }
    }
  }

  /** The printing loop of the App ID summary, with the lookup of each id's name. */
  method NameLines(items: seq<(nat, nat)>) returns (lines: seq<(string, nat)>)
    ensures lines == NamedCounts(items)
  {
    lines := [];
    for i := 0 to |items|
      invariant |lines| == i
      invariant forall k | 0 <= k < i :: lines[k] == (AppName(items[k].0), items[k].1)
    {
      lines := lines + [(AppName(items[i].0), items[i].1)];
    }
  }

  /** The App ID part of print_summary: the counting loop, then one line per id in ascending order. */
  method AppSummary(entries: seq<LogEntry>) returns (lines: seq<(string, nat)>)
    ensures lines == NamedCounts(AppStats(entries))
  {
    NatLessIsStrictTotalOrder();
    var items := Summarize(AppIds(entries), NatLess);
    lines := NameLines(items);
  }

  /** The two counting loops of the screen print_summary and their sorted listings. */
  method ScreenSummary(entries: seq<ScreenStateEntry>) returns (transitions: seq<(string, nat)>, sources: seq<(string, nat)>)
    ensures transitions == TransitionStats(entries)
    ensures sources == SourceStats(entries)
  {
    StrLessIsStrictTotalOrder();
    transitions := Summarize(TransitionKeys(entries), StrLess);
    sources := Summarize(Sources(entries), StrLess);
  }

  // ---------------------------------------------------------------------
  // Time range

  function Stamps<E>(entries: seq<E>, stamp: E -> string): seq<string> {
    seq(|entries|, k requires 0 <= k < |entries| => stamp(entries[k]))
  }

  /**
   * `(entries[0].timestamp, entries[-1].timestamp)`; None stands for the
   * early return of print_summary and export_to_html when there is no record.
   */
  function TimeRange(ts: seq<string>): (r: Option<(string, string)>)
    ensures r.None? <==> ts == []
  {
    if ts == [] then None else Some((ts[0], ts[|ts| - 1]))
  }

  /** The range of two stretches of records runs from the first of the one to the last of the other. */
  lemma TimeRangeAppend(a: seq<string>, b: seq<string>)
    ensures TimeRange(a + b) ==
      if a == [] then TimeRange(b)
      else if b == [] then TimeRange(a)
      else Some((TimeRange(a).value.0, TimeRange(b).value.1))
  {
    if a == [] {
      assert a + b == b;
    } else if b == [] {
      assert a + b == a;
    }
  }

  function AppStamp(e: LogEntry): string { e.timestamp }
  function ScreenStamp(e: ScreenStateEntry): string { e.timestamp }

  /** The range of AppID records runs from the first record's timestamp to the last one's. */
  lemma AppTimeRange(entries: seq<LogEntry>)
    requires entries != []
    ensures TimeRange(Stamps(entries, AppStamp)) == Some((entries[0].timestamp, entries[|entries| - 1].timestamp))
  {
    var ts := Stamps(entries, AppStamp);
    assert ts[0] == AppStamp(entries[0]) && ts[|ts| - 1] == AppStamp(entries[|entries| - 1]);
  }

  /** The range of screen records runs from the first record's timestamp to the last one's. */
  lemma ScreenTimeRange(entries: seq<ScreenStateEntry>)
    requires entries != []
    ensures TimeRange(Stamps(entries, ScreenStamp)) == Some((entries[0].timestamp, entries[|entries| - 1].timestamp))
  {
    var ts := Stamps(entries, ScreenStamp);
    assert ts[0] == ScreenStamp(entries[0]) && ts[|ts| - 1] == ScreenStamp(entries[|entries| - 1]);
  }

  /** After analyze, the time range runs from the timestamp of the first matching line to that of the last one. */
  lemma TimeRangeOfLines<E>(parse: string -> Option<E>, stamp: E -> string, lines: seq<string>) returns (first: nat, last: nat)
    requires Collect(parse, lines) != []
    ensures first <= last < |lines| && parse(lines[first]).Some? && parse(lines[last]).Some?
    ensures forall i | 0 <= i < |lines| && parse(lines[i]).Some? :: first <= i <= last
    ensures TimeRange(Stamps(Collect(parse, lines), stamp)) ==
      Some((stamp(parse(lines[first]).value), stamp(parse(lines[last]).value)))
  {
    first, last := CollectEnds(parse, lines);
  }

  // ---------------------------------------------------------------------
  // ON/OFF counts of the screen page

  /** `sum(1 for entry in entries if entry.to_state == state)`. */
  function CountTo(entries: seq<ScreenStateEntry>, state: string): nat
    decreases |entries|
  {
    if entries == [] then 0
    else CountTo(entries[..|entries| - 1], state) + (if entries[|entries| - 1].toState == state then 1 else 0)
  }

  function ToStates(entries: seq<ScreenStateEntry>): seq<string> {
    seq(|entries|, k requires 0 <= k < |entries| => entries[k].toState)
  }

  /** The count is the number of records that end in the state. */
  lemma {:induction false} CountToOccurrences(entries: seq<ScreenStateEntry>, state: string)
    ensures CountTo(entries, state) == Occurrences(ToStates(entries), state)
    decreases |entries|
  {
    CountToMultiset(entries, state);
    CountIsOccurrences(ToStates(entries), state);
  }

  lemma {:induction false} CountToMultiset(entries: seq<ScreenStateEntry>, state: string)
    ensures CountTo(entries, state) == multiset(ToStates(entries))[state]
    decreases |entries|
  {
    if entries != [] {
      var n := |entries| - 1;
      CountToMultiset(entries[..n], state);
      assert ToStates(entries) == ToStates(entries[..n]) + [entries[n].toState];
    }
  }

  /** on_count + off_count <= total: no record ends in both states. */
  lemma {:induction false} OnOffBound(entries: seq<ScreenStateEntry>)
    ensures CountTo(entries, "ON") + CountTo(entries, "OFF") <= |entries|
    decreases |entries|
  {
    if entries != [] {
      OnOffBound(entries[..|entries| - 1]);
    }
  }

  // ---------------------------------------------------------------------
  // Distinct ids

  /** `set(entry.app_id for entry in entries)`. */
  function RunIds(entries: seq<LogEntry>): set<nat> {
    set e | e in entries :: e.appId
  }

  /** `[entry.app_id for entry in entries]` holds exactly the distinct ids of the records. */
  lemma AppIdsMembers(entries: seq<LogEntry>)
    ensures forall x :: x in AppIds(entries) <==> x in RunIds(entries)
  {
    var ks := AppIds(entries);
    forall x ensures x in ks <==> x in RunIds(entries) {
      if x in ks {
        var k :| 0 <= k < |ks| && ks[k] == x;
        assert entries[k] in entries;
      }
      if x in RunIds(entries) {
        var e :| e in entries && e.appId == x;
        var k :| 0 <= k < |entries| && entries[k] == e;
        assert ks[k] == x;
      }
    }
  }

  /** The ids of the summary lines, each once, in the order of the lines. */
  function StatKeys(entries: seq<LogEntry>): (keys: seq<nat>)
    ensures |keys| == |AppStats(entries)| && Distinct(keys)
    ensures forall i | 0 <= i < |keys| :: keys[i] == AppStats(entries)[i].0
  {
    var items := AppStats(entries);
    var keys := seq(|items|, i requires 0 <= i < |items| => items[i].0);
    assert Distinct(keys) by {
      forall i, j | 0 <= i < j < |keys| ensures keys[i] != keys[j] {
        assert items[i].0 < items[j].0;
      }
    }
    keys
  }

  /** The summary lines are keyed by exactly the distinct ids of the records. */
  lemma StatKeysMembers(entries: seq<LogEntry>)
    ensures forall x :: x in StatKeys(entries) <==> x in RunIds(entries)
  {
    var ks := AppIds(entries);
    var items := AppStats(entries);
    var keys := StatKeys(entries);
    AppIdsMembers(entries);
    forall x ensures x in keys <==> x in ks {
      if x in ks {
        assert (x, multiset(ks)[x]) in items;
        var i :| 0 <= i < |items| && items[i] == (x, multiset(ks)[x]);
        assert keys[i] == x;
      }
      if x in keys {
        var i :| 0 <= i < |keys| && keys[i] == x;
        assert items[i] in items;
      }
    }
  }

  /** Every listed count is positive. */
  lemma StatCountsPositive(entries: seq<LogEntry>)
    ensures forall i | 0 <= i < |AppStats(entries)| :: AppStats(entries)[i].1 > 0
  {
    var ks := AppIds(entries);
    var items := AppStats(entries);
    forall i | 0 <= i < |items| ensures items[i].1 > 0 {
      assert items[i] in items;
    }
  }

  /** run_apps == len(run_app_ids): one summary line per distinct id, and no more than there are records. */
  lemma RunAppsCount(entries: seq<LogEntry>)
    ensures |RunIds(entries)| == |AppStats(entries)| <= |entries|
  {
    var keys := StatKeys(entries);
    var items := AppStats(entries);
    StatKeysMembers(entries);
    DistinctCard(keys);
    assert Elements(keys) == RunIds(entries);
    StatCountsPositive(entries);
    SumCountsBound(items);
    assert |items| <= |entries|;
  }

  // ---------------------------------------------------------------------
  // Apps that were never run

  /** With distinct keys, the items are exactly the (key, value) pairs of the dict built from them. */
  lemma ItemsOfDict(items: seq<(string, nat)>)
    requires DistinctKeys(items)
    ensures Distinct(items)
    ensures forall row: (string, nat) :: row in items <==> row.0 in ToMap(items) && ToMap(items)[row.0] == row.1
  {
    ToMapDistinct(items);
    forall i, j | 0 <= i < j < |items| ensures items[i] != items[j] {
      assert items[i].0 != items[j].0;
    }
    forall row: (string, nat) | row.0 in ToMap(items) && ToMap(items)[row.0] == row.1 ensures row in items {
      var i :| 0 <= i < |items| && items[i].0 == row.0;
      assert items[i] == row;
    }
  }

  /** `sorted(d.items())` for the dict d built from items with distinct keys. */
  function SortedItems(items: seq<(string, nat)>): seq<(string, nat)>
  {
    Sort(items, PairLess)
  }

  /** The sorted items are the dict's items, each once, in ascending order. */
  lemma SortedItemsFacts(items: seq<(string, nat)>)
    requires DistinctKeys(items)
    ensures StrictlySorted(PairLess, SortedItems(items)) && multiset(SortedItems(items)) == multiset(items)
    ensures forall row: (string, nat) :: row in SortedItems(items) <==> row.0 in ToMap(items) && ToMap(items)[row.0] == row.1
  {
    ItemsOfDict(items);
    PairLessIsStrictTotalOrder();
    DistinctIsComparable(PairLess, items);
    SortSorted(items, PairLess);
    SortPermutation(items, PairLess);
    SortMembers(items, PairLess);
  }

  /** The rows whose id is in `run` (ran) or not in it (not ran), in their order. */
  function Select(rows: seq<(string, nat)>, run: set<nat>, ran: bool): (r: seq<(string, nat)>)
    ensures forall row: (string, nat) :: row in r <==> row in rows && (row.1 in run) == ran
    decreases |rows|
  {
    if rows == [] then []
    else
      var init := rows[..|rows| - 1];
      var row := rows[|rows| - 1];
      assert rows == init + [row];
      if (row.1 in run) == ran then Select(init, run, ran) + [row] else Select(init, run, ran)
  }

  /** Selecting keeps the order of the rows. */
  lemma {:induction false} SelectSorted(rows: seq<(string, nat)>, run: set<nat>, ran: bool)
    requires StrictlySorted(PairLess, rows)
    ensures StrictlySorted(PairLess, Select(rows, run, ran))
    decreases |rows|
  {
    if rows != [] {
      var n := |rows| - 1;
      var init := rows[..n];
      assert StrictlySorted(PairLess, init) by {
        forall i, j | 0 <= i < j < |init| ensures PairLess(init[i], init[j]) {
          assert init[i] == rows[i] && init[j] == rows[j];
        }
      }
      SelectSorted(init, run, ran);
      var sel := Select(init, run, ran);
      forall i | 0 <= i < |sel| ensures PairLess(sel[i], rows[n]) {
        assert sel[i] in init;
        var k :| 0 <= k < n && init[k] == sel[i];
        assert rows[k] == sel[i];
      }
    }
  }

  /** Every row is selected on one side or the other. */
  lemma {:induction false} SelectSplit(rows: seq<(string, nat)>, run: set<nat>)
    ensures |Select(rows, run, true)| + |Select(rows, run, false)| == |rows|
    decreases |rows|
  {
    if rows != [] {
      SelectSplit(rows[..|rows| - 1], run);
    }
  }

  /** A row is selected as often as it occurs, when its id falls on the selected side. */
  lemma {:induction false} SelectMultiset(rows: seq<(string, nat)>, run: set<nat>, ran: bool, row: (string, nat))
    ensures multiset(Select(rows, run, ran))[row] == if (row.1 in run) == ran then multiset(rows)[row] else 0
    decreases |rows|
  {
    if rows != [] {
      var n := |rows| - 1;
      SelectMultiset(rows[..n], run, ran, row);
      assert rows == rows[..n] + [rows[n]];
    }
  }

  /** Rearranging the rows does not change how many are selected. */
  lemma SelectPermutation(a: seq<(string, nat)>, b: seq<(string, nat)>, run: set<nat>, ran: bool)
    requires multiset(a) == multiset(b)
    ensures |Select(a, run, ran)| == |Select(b, run, ran)|
  {
    forall row: (string, nat) ensures multiset(Select(a, run, ran))[row] == multiset(Select(b, run, ran))[row] {
      SelectMultiset(a, run, ran, row);
      SelectMultiset(b, run, ran, row);
    }
    assert multiset(Select(a, run, ran)) == multiset(Select(b, run, ran));
    assert |multiset(Select(a, run, ran))| == |Select(a, run, ran)|;
  }

  /** The ids of some rows. */
  function RowIds(rows: seq<(string, nat)>): set<nat> {
    set k | 0 <= k < |rows| :: rows[k].1
  }

  lemma RowIdsSnoc(rows: seq<(string, nat)>)
    requires rows != []
    ensures RowIds(rows) == RowIds(rows[..|rows| - 1]) + {rows[|rows| - 1].1}
  {
    var n := |rows| - 1;
    var init := rows[..n];
    forall x | x in RowIds(rows) ensures x in RowIds(init) + {rows[n].1} {
      var k :| 0 <= k < |rows| && rows[k].1 == x;
      if k < n {
        assert init[k].1 == x;
      }
    }
    forall x | x in RowIds(init) ensures x in RowIds(rows) {
      var k :| 0 <= k < n && init[k].1 == x;
      assert rows[k].1 == x;
    }
  }

  lemma DistinctIdsSnoc(rows: seq<(string, nat)>)
    requires rows != [] && DistinctKeys(Swapped(rows))
    ensures DistinctKeys(Swapped(rows[..|rows| - 1]))
    ensures rows[|rows| - 1].1 !in RowIds(rows[..|rows| - 1])
  {
    var n := |rows| - 1;
    var init := rows[..n];
    forall a, b | 0 <= a < b < n ensures init[a].1 != init[b].1 {
      assert Swapped(rows)[a].0 != Swapped(rows)[b].0;
    }
    forall k | 0 <= k < n ensures init[k].1 != rows[n].1 {
      assert Swapped(rows)[k].0 != Swapped(rows)[n].0;
    }
  }

  /** With distinct ids, the rows whose id is in `run` are as many as the ids they share with it. */
  lemma {:induction false} SelectRanCount(rows: seq<(string, nat)>, run: set<nat>)
    requires DistinctKeys(Swapped(rows))
    ensures |Select(rows, run, true)| == |run * RowIds(rows)|
    decreases |rows|
  {
    if rows != [] {
      DistinctIdsSnoc(rows);
      SelectRanCount(rows[..|rows| - 1], run);
      SelectSnocCount(rows, run);
      RanIdsSnocCount(rows, run);
    }
  }

  /** The last row adds one selected row exactly when its id ran. */
  lemma SelectSnocCount(rows: seq<(string, nat)>, run: set<nat>)
    requires rows != []
    ensures var row := rows[|rows| - 1];
      |Select(rows, run, true)| == |Select(rows[..|rows| - 1], run, true)| + (if row.1 in run then 1 else 0)
  {
  }

  /** The last row's id, new among the rows, adds one ran id exactly when it ran. */
  lemma RanIdsSnocCount(rows: seq<(string, nat)>, run: set<nat>)
    requires rows != [] && rows[|rows| - 1].1 !in RowIds(rows[..|rows| - 1])
    ensures var row := rows[|rows| - 1];
      |run * RowIds(rows)| == |run * RowIds(rows[..|rows| - 1])| + (if row.1 in run then 1 else 0)
  {
    var row := rows[|rows| - 1];
    var before := run * RowIds(rows[..|rows| - 1]);
    RowIdsSnoc(rows);
    if row.1 in run {
      assert run * RowIds(rows) == before + {row.1};
    } else {
      assert run * RowIds(rows) == before;
    }
  }

  /** The ids of the rows are the keys of the swapped dict. */
  lemma RowIdsAreKeys(rows: seq<(string, nat)>)
    ensures RowIds(rows) == ToMap(Swapped(rows)).Keys
  {
    var sw := Swapped(rows);
    forall x | x in RowIds(rows) ensures x in ToMap(sw) {
      var k :| 0 <= k < |rows| && rows[k].1 == x;
      assert sw[k].0 == x;
    }
    forall x | x in ToMap(sw) ensures x in RowIds(rows) {
      var k :| 0 <= k < |sw| && sw[k].0 == x;
      assert rows[k].1 == x;
    }
  }

  /** unrun_apps for the dict built from items: its items, sorted, whose id is not in `run`. */
  function UnrunOf(items: seq<(string, nat)>, run: set<nat>): seq<(string, nat)>
    requires DistinctKeys(items)
  {
    Select(SortedItems(items), run, false)
  }

  /** An item is listed exactly when its id is not in `run`, ... */
  lemma UnrunOfMembers(items: seq<(string, nat)>, run: set<nat>)
    requires DistinctKeys(items)
    ensures forall row: (string, nat) :: row in UnrunOf(items, run) <==> row.0 in ToMap(items) && ToMap(items)[row.0] == row.1 && row.1 !in run
  {
    SortedItemsFacts(items);
  }

  /** ... the list is sorted and holds no item twice, ... */
  lemma UnrunOfSorted(items: seq<(string, nat)>, run: set<nat>)
    requires DistinctKeys(items)
    ensures StrictlySorted(PairLess, UnrunOf(items, run)) && Distinct(UnrunOf(items, run))
  {
    PairLessIsStrictTotalOrder();
    SortedItemsFacts(items);
    SelectSorted(SortedItems(items), run, false);
    SortedIsDistinct(PairLess, UnrunOf(items, run));
  }

  /** ... and it is as long as the items, less the ids of `run` that the dict knows. */
  lemma UnrunOfCount(items: seq<(string, nat)>, run: set<nat>)
    requires DistinctKeys(items) && DistinctKeys(Swapped(items))
    ensures |UnrunOf(items, run)| + |run * ToMap(Swapped(items)).Keys| == |items|
  {
    var sorted := SortedItems(items);
    SortedItemsFacts(items);
    assert |sorted| == |multiset(sorted)| == |multiset(items)| == |items|;
    var ran, unrun := Select(sorted, run, true), Select(sorted, run, false);
    assert unrun == UnrunOf(items, run);
    SelectSplit(sorted, run);
    SelectPermutation(sorted, items, run, true);
    SelectRanCount(items, run);
    RowIdsAreKeys(items);
    assert |ran| == |run * ToMap(Swapped(items)).Keys|;
  }

  /** unrun_apps: the directory items whose id no record carries, sorted by name. */
  function Unrun(entries: seq<LogEntry>): seq<(string, nat)> {
    AppTableNamesDistinct();
    UnrunOf(AppTable, RunIds(entries))
  }

  /** A directory item is listed exactly when no record carries its id. */
  lemma UnrunMembers(entries: seq<LogEntry>)
    ensures forall row: (string, nat) :: row in Unrun(entries) <==>
      row.0 in NameToId && NameToId[row.0] == row.1 && row.1 !in RunIds(entries)
  {
    AppTableNamesDistinct();
    var run := RunIds(entries);
    assert Unrun(entries) == UnrunOf(AppTable, run);
    assert NameToId == ToMap(AppTable);
    UnrunOfMembers(AppTable, run);
  }

  /** The list is in the order of sorted(), by name, and holds no item twice. */
  lemma UnrunSorted(entries: seq<LogEntry>)
    ensures StrictlySorted(PairLess, Unrun(entries)) && Distinct(Unrun(entries))
  {
    AppTableNamesDistinct();
    UnrunOfSorted(AppTable, RunIds(entries));
  }

  /** len(unrun_apps) == 98 - |the ids of the records that the directory knows|. */
  lemma UnrunCount(entries: seq<LogEntry>)
    ensures |Unrun(entries)| + |RunIds(entries) * IdToName.Keys| == 98
  {
    AppTableNamesDistinct();
    AppTableIdsDistinct();
    AppTableIds();
    UnrunOfCount(AppTable, RunIds(entries));
  }

  /** The loop of export_to_html that keeps the rows whose id was not run. */
  method SelectUnrun(rows: seq<(string, nat)>, run: set<nat>) returns (unrun: seq<(string, nat)>)
    ensures unrun == Select(rows, run, false)
  {
    unrun := [];
    for i := 0 to |rows|
      invariant unrun == Select(rows[..i], run, false)
    {
      assert rows[..i + 1][..i] == rows[..i];
      if rows[i].1 !in run {
        unrun := unrun + [rows[i]];
      }
    }
    assert rows[..|rows|] == rows;
  }

  /** unrun_apps of export_to_html, walking the sorted items of the table. */
  method UnrunApps(entries: seq<LogEntry>) returns (unrun: seq<(string, nat)>)
    ensures unrun == Unrun(entries)
  {
    AppTableNamesDistinct();
    var runAppIds := RunIds(entries);
    var items := SortedItems(AppTable);
    unrun := SelectUnrun(items, runAppIds);
  }

  // ---------------------------------------------------------------------
  // Ids the directory lacks

  /** `[entry.app_id for entry in entries if entry.app_name.startswith("Unknown")]`. */
  function UnknownList(entries: seq<LogEntry>): (ids: seq<nat>)
    ensures forall x :: x in ids <==> x in RunIds(entries) && x !in IdToName
    decreases |entries|
  {
    if entries == [] then []
    else
      var init, e := entries[..|entries| - 1], entries[|entries| - 1];
      assert entries == init + [e];
      assert RunIds(entries) == RunIds(init) + {e.appId};
      AppNameUnknownIff(e.appId);
      if "Unknown" <= e.appName() then UnknownList(init) + [e.appId] else UnknownList(init)
  }

  /** `sorted(set(unknown_app_ids))`: the distinct ids of the records that the directory lacks, ascending. */
  function UnknownIds(entries: seq<LogEntry>): (ids: seq<nat>)
    ensures StrictlySorted(NatLess, ids) && Distinct(ids)
    ensures forall x :: x in ids <==> x in RunIds(entries) && x !in IdToName
  {
    NatLessIsStrictTotalOrder();
    SortedSet(UnknownList(entries), NatLess)
  }

  /** The note is shown exactly when some record's name is an Unknown(...) label. */
  lemma UnknownNoteShown(entries: seq<LogEntry>)
    ensures UnknownIds(entries) != [] <==> exists e | e in entries :: "Unknown" <= e.appName()
  {
    var ids := UnknownIds(entries);
    if ids != [] {
      assert ids[0] in ids;
      var e :| e in entries && e.appId == ids[0];
      AppNameUnknownIff(e.appId);
    }
    if e :| e in entries && "Unknown" <= e.appName() {
      AppNameUnknownIff(e.appId);
      assert e.appId in ids;
    }
  }

  /** Each distinct id is either one the directory knows or one of the unknown ids. */
  lemma RunIdsSplit(entries: seq<LogEntry>)
    ensures |RunIds(entries)| == |RunIds(entries) * IdToName.Keys| + |UnknownIds(entries)|
  {
    var run := RunIds(entries);
    var known, unknown := run * IdToName.Keys, run - IdToName.Keys;
    var ids := UnknownIds(entries);
    DistinctCard(ids);
    assert Elements(ids) == unknown;
    assert run == known + unknown;
    assert known * unknown == {};
  }

  /** len(unrun_apps) + run_apps == 98 + the number of unknown ids. */
  lemma UnrunRunUnknown(entries: seq<LogEntry>)
    ensures |Unrun(entries)| + |RunIds(entries)| == 98 + |UnknownIds(entries)|
  {
    UnrunCount(entries);
    RunIdsSplit(entries);
  }
}
