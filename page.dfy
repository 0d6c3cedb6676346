/**
 * The figures export_to_html returns for the page, one record per analyzer.
 * The HTML table rows are not part of these records.  The AppID figures
 * come from a method that runs the unrun-apps loop; the screen figures are
 * expressions only.
 */
module Page {
  import opened Options
  import opened AppDirectory
  import opened Report
  import Duration

  /**
   * The AppID dict without "rows".  unrunApps holds the (app_name, app_id)
   * pairs of the {"app_id": ..., "app_name": ...} dicts, in list order.
   */
  datatype AppPage = AppPage(total: nat, runApps: nat, timeStart: string, timeEnd: string,
                             timeDuration: string, unrunApps: seq<(string, nat)>)

  /** The screen dict without "rows". */
  datatype ScreenPage = ScreenPage(total: nat, onCount: nat, offCount: nat, timeStart: string,
                                   timeEnd: string, timeDuration: string)

  /** time_duration of the AppID page, including its guard against the "N/A" placeholders. */
  function GuardedDuration(start: string, end: string): string {
    if start != "N/A" && end != "N/A" then Duration.DurationText(start, end) else "N/A"
  }

  /** The guard changes nothing: "N/A" is not a timestamp, so the duration would be "N/A" anyway. */
  lemma GuardedDurationIsDuration(start: string, end: string)
    ensures GuardedDuration(start, end) == Duration.DurationText(start, end)
  {
    assert Duration.ParseTimestamp("N/A").None?;
  }

  /** The AppID export_to_html result; None where it prints "No data to export". */
  function AppPageData(entries: seq<LogEntry>): Option<AppPage> {
    if entries == [] then None
    else
      var start, end := entries[0].timestamp, entries[|entries| - 1].timestamp;
      Some(AppPage(|entries|, |RunIds(entries)|, start, end, GuardedDuration(start, end), Unrun(entries)))
  }

  /** export_to_html of the AppID analyzer. */
  method ExportAppHtml(entries: seq<LogEntry>) returns (page: Option<AppPage>)
    ensures page == AppPageData(entries)
  {
    if entries == [] {
      return None;
    }
    var runApps := |RunIds(entries)|;
    var timeStart := entries[0].timestamp;
    var timeEnd := entries[|entries| - 1].timestamp;
    var timeDuration := "N/A";
    if timeStart != "N/A" && timeEnd != "N/A" {
      timeDuration := Duration.DurationText(timeStart, timeEnd);
    }
    var unrunApps := UnrunApps(entries);
    page := Some(AppPage(|entries|, runApps, timeStart, timeEnd, timeDuration, unrunApps));
  }

  /** The page exists exactly when there are records; it counts them, their distinct ids and their time range. */
  lemma AppPageCounts(entries: seq<LogEntry>)
    ensures AppPageData(entries).None? <==> entries == []
    ensures AppPageData(entries).Some? ==>
      && AppPageData(entries).value.total == |entries|
      && AppPageData(entries).value.runApps == |AppStats(entries)| <= |entries|
      && TimeRange(Stamps(entries, AppStamp)) ==
         Some((AppPageData(entries).value.timeStart, AppPageData(entries).value.timeEnd))
  {
    RunAppsCount(entries);
    if entries != [] {
      AppTimeRange(entries);
    }
  }

  /**
   * The page's time_duration is "N/A" exactly when one of its two timestamps
   * does not parse; it is the time from the first record to the last as
   * Duration.DurationText writes it (see Duration.DurationTextReadsBack).
   */
  lemma AppPageDuration(entries: seq<LogEntry>)
    requires entries != []
    ensures var p := AppPageData(entries).value;
      && p.timeDuration == Duration.DurationText(p.timeStart, p.timeEnd)
      && (p.timeDuration == "N/A" <==>
          Duration.ParseTimestamp(p.timeStart).None? || Duration.ParseTimestamp(p.timeEnd).None?)
  {
    GuardedDurationIsDuration(entries[0].timestamp, entries[|entries| - 1].timestamp);
  }

  /** unrun_apps lists the directory items no record ran, and together with run_apps it accounts for the unknown ids. */
  lemma AppPageUnrun(entries: seq<LogEntry>)
    requires entries != []
    ensures var p := AppPageData(entries).value;
      && (forall row: (string, nat) :: row in p.unrunApps <==>
            row.0 in NameToId && NameToId[row.0] == row.1 && row.1 !in RunIds(entries))
      && |p.unrunApps| + p.runApps == |AppTable| + |UnknownIds(entries)|
  {
    UnrunMembers(entries);
    UnrunRunUnknown(entries);
    AppTableIds();
  }

  /** The screen export_to_html result; None where it prints "No data to export". */
  function ScreenPageData(entries: seq<ScreenStateEntry>): Option<ScreenPage> {
    if entries == [] then None
    else
      var start, end := entries[0].timestamp, entries[|entries| - 1].timestamp;
      Some(ScreenPage(|entries|, CountTo(entries, "ON"), CountTo(entries, "OFF"), start, end,
                      Duration.DurationText(start, end)))
  }

  /** The screen page exists exactly when there are records; the ON and OFF counts never exceed the total. */
  lemma ScreenPageCounts(entries: seq<ScreenStateEntry>)
    ensures ScreenPageData(entries).None? <==> entries == []
    ensures ScreenPageData(entries).Some? ==>
      && ScreenPageData(entries).value.total == |entries|
      && ScreenPageData(entries).value.onCount == Tally.Occurrences(ToStates(entries), "ON")
      && ScreenPageData(entries).value.offCount == Tally.Occurrences(ToStates(entries), "OFF")
      && ScreenPageData(entries).value.onCount + ScreenPageData(entries).value.offCount <= |entries|
      && TimeRange(Stamps(entries, ScreenStamp)) ==
         Some((ScreenPageData(entries).value.timeStart, ScreenPageData(entries).value.timeEnd))
  {
    if entries != [] {
      CountToOccurrences(entries, "ON");
      CountToOccurrences(entries, "OFF");
      OnOffBound(entries);
      ScreenTimeRange(entries);
    }
  }

  /** The two analyzers compute time_duration alike: the unguarded screen form agrees with the guarded AppID form. */
  lemma ScreenPageDuration(entries: seq<ScreenStateEntry>)
    requires entries != []
    ensures var p := ScreenPageData(entries).value;
      && p.timeDuration == GuardedDuration(p.timeStart, p.timeEnd)
      && (p.timeDuration == "N/A" <==>
          Duration.ParseTimestamp(p.timeStart).None? || Duration.ParseTimestamp(p.timeEnd).None?)
  {
    var p := ScreenPageData(entries).value;
    GuardedDurationIsDuration(p.timeStart, p.timeEnd);
  }
}
