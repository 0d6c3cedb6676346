/**
 * The text the CSV exporters write: a header line and one comma-joined,
 * "\n"-terminated line per record, in record order.  The file itself is not
 * modelled; each exporter returns the text it would write, or None where it
 * writes nothing because there are no records.  A reader splits the text
 * again, and the records an analyze call produces come back from it intact.
 */
module Csv {
  import opened Options
  import opened Text
  import opened LineSearch
  import opened AppDirectory
  import AppIdLog
  import ScreenLog
  import opened Analysis

  type LogEntry = AppIdLog.LogEntry
  type ScreenStateEntry = ScreenLog.ScreenStateEntry

  // ---------------------------------------------------------------------
  // Lines of comma-separated fields

  /** `",".join(fields) + "\n"`. */
  function Line(fields: seq<string>): string
  {
    Join(fields, ',') + "\n"
  }

  predicate NonEmptyRows(rows: seq<seq<string>>) {
    forall k | 0 <= k < |rows| :: |rows[k]| > 0
  }

  /** The lines of the rows, one after the other. */
  function Lines(rows: seq<seq<string>>): string
    decreases |rows|
  {
    if rows == [] then "" else Line(rows[0]) + Lines(rows[1..])
  }

  /** Writing one more row appends its line. */
  lemma {:induction false} LinesSnoc(rows: seq<seq<string>>, row: seq<string>)
    ensures Lines(rows + [row]) == Lines(rows) + Line(row)
    decreases |rows|
  {
    var all := rows + [row];
    if rows == [] {
      assert all[1..] == [];
    } else {
      assert all[1..] == rows[1..] + [row];
      LinesSnoc(rows[1..], row);
    }
  }

  /** A field a reader can take back: it holds neither the separator nor a line break. */
  predicate FitsField(f: string) {
    Excludes(f, ',') && Excludes(f, '\n')
  }

  predicate FieldsFit(rows: seq<seq<string>>) {
    forall k | 0 <= k < |rows| :: forall f | f in rows[k] :: FitsField(f)
  }

  /** Reads the text back: its lines, each split on commas (the empty rest after the last "\n" dropped). */
  function ReadTable(text: string): seq<seq<string>>
  {
    var ls := Split(text, '\n');
    seq(|ls| - 1, k requires 0 <= k < |ls| - 1 => Split(ls[k], ','))
  }

  /** The text splits into the joined rows and an empty rest. */
  lemma {:induction false} LinesSplit(rows: seq<seq<string>>)
    requires NonEmptyRows(rows) && FieldsFit(rows)
    ensures Split(Lines(rows), '\n') == seq(|rows|, k requires 0 <= k < |rows| => Join(rows[k], ',')) + [""]
    decreases |rows|
  {
    var joined := seq(|rows|, k requires 0 <= k < |rows| => Join(rows[k], ','));
    if rows != [] {
      var rest := rows[1..];
      assert NonEmptyRows(rest) && FieldsFit(rest) by {
        forall k | 0 <= k < |rest| ensures |rest[k]| > 0 && forall f | f in rest[k] :: FitsField(f) {
          assert rest[k] == rows[k + 1];
        }
      }
      LinesSplit(rest);
      JoinExcludes(rows[0], ',', '\n');
      SplitFieldThen(Join(rows[0], ','), '\n', Lines(rest));
      assert Lines(rows) == Join(rows[0], ',') + "\n" + Lines(rest);
      assert joined == [Join(rows[0], ',')] + seq(|rest|, k requires 0 <= k < |rest| => Join(rest[k], ','));
    }
  }

  /** Reading the lines back gives the rows, when every field fits. */
  lemma TableRoundTrip(rows: seq<seq<string>>)
    requires NonEmptyRows(rows) && FieldsFit(rows)
    ensures ReadTable(Lines(rows)) == rows
  {
    LinesSplit(rows);
    var read := ReadTable(Lines(rows));
    forall k | 0 <= k < |rows| ensures read[k] == rows[k] {
      SplitJoin(rows[k], ',');
    }
  }

  /** `[f(entry) for entry in entries]`: the rows of the records, or what they read back as. */
  function Each<E, R>(entries: seq<E>, f: E -> R): seq<R> {
    seq(|entries|, k requires 0 <= k < |entries| => f(entries[k]))
  }

  /** The loop `for entry in entries: f.write(...)`: the lines of the records' rows. */
  method WriteRows<E>(entries: seq<E>, fields: E -> seq<string>) returns (out: string)
    ensures out == Lines(Each(entries, fields))
  {
    out := "";
    for i := 0 to |entries|
      invariant out == Lines(Each(entries[..i], fields))
    {
      assert Each(entries[..i + 1], fields) == Each(entries[..i], fields) + [fields(entries[i])];
      LinesSnoc(Each(entries[..i], fields), fields(entries[i]));
      out := out + Line(fields(entries[i]));
    }
    assert entries[..|entries|] == entries;
  }

  /** Reads the lines after the header back, one record per line; None when a line does not read. */
  function ReadRows<R>(rows: seq<seq<string>>, read: seq<string> -> Option<R>): Option<seq<R>>
    decreases |rows|
  {
    if rows == [] then Some([])
    else match (read(rows[0]), ReadRows(rows[1..], read))
      case (Some(r), Some(rs)) => Some([r] + rs)
      case _ => None
  }

  /** Reads an export back: the expected header line, then one record per line. */
  function ReadCsv<R>(text: string, header: seq<string>, read: seq<string> -> Option<R>): Option<seq<R>> {
    var t := ReadTable(text);
    if |t| == 0 || t[0] != header then None else ReadRows(t[1..], read)
  }

  /** Lines that each read back as their record read back as the list of records. */
  lemma {:induction false} ReadRowsOf<E, R>(entries: seq<E>, fields: E -> seq<string>,
                                            read: seq<string> -> Option<R>, record: E -> R)
    requires forall e | e in entries :: read(fields(e)) == Some(record(e))
    ensures ReadRows(Each(entries, fields), read) ==
      Some(Each(entries, record))
    decreases |entries|
  {
    var recs := Each(entries, record);
    if entries != [] {
      var e, rest := entries[0], entries[1..];
      assert e in entries;
      ReadRowsOf(rest, fields, read, record);
      var rows := Each(entries, fields);
      assert rows[0] == fields(e) && rows[1..] == Each(rest, fields);
      assert recs == [record(e)] + Each(rest, record);
    } else {
      assert Each(entries, fields) == [] && recs == [];
    }
  }

  /**
   * The export of records whose fields fit reads back as the records, when
   * each line reads back as its record.
   */
  lemma CsvRoundTrip<E, R>(entries: seq<E>, header: seq<string>, fields: E -> seq<string>,
                           read: seq<string> -> Option<R>, record: E -> R)
    requires |header| > 0 && forall f | f in header :: FitsField(f)
    requires forall e | e in entries :: |fields(e)| > 0 && forall f | f in fields(e) :: FitsField(f)
    requires forall e | e in entries :: read(fields(e)) == Some(record(e))
    ensures ReadCsv(Line(header) + Lines(Each(entries, fields)), header, read) ==
      Some(Each(entries, record))
  {
    var rows := [header] + Each(entries, fields);
    forall k | 0 <= k < |rows| ensures |rows[k]| > 0 && forall f | f in rows[k] :: FitsField(f) {
      if k > 0 {
        assert entries[k - 1] in entries && rows[k] == fields(entries[k - 1]);
      }
    }
    assert Lines(rows) == Line(header) + Lines(Each(entries, fields));
    TableRoundTrip(rows);
    assert rows[1..] == Each(entries, fields);
    ReadRowsOf(entries, fields, read, record);
  }

  // ---------------------------------------------------------------------
  // The AppID export

  /** `name.replace("MI_", "")`: every occurrence, scanning from the left, removed. */
  function RemoveMi(s: string): (r: string)
    ensures |r| <= |s|
    decreases |s|
  {
    if |s| < 3 then s
    else if s[..3] == "MI_" then RemoveMi(s[3..])
    else [s[0]] + RemoveMi(s[1..])
  }

  /** "MI_" occurs in s at k. */
  predicate MiAt(s: string, k: nat)
    requires k + 3 <= |s|
  {
    s[k..k + 3] == "MI_"
  }

  /** A name without "MI_" in it is left as it is. */
  lemma {:induction false} RemoveMiAbsent(s: string)
    requires forall k: nat | k + 3 <= |s| :: !MiAt(s, k)
    ensures RemoveMi(s) == s
    decreases |s|
  {
    if |s| >= 3 {
      assert !MiAt(s, 0) && s[..3] == s[0..3];
      var t := s[1..];
      forall k: nat | k + 3 <= |t| ensures !MiAt(t, k) {
        assert !MiAt(s, k + 1);
        assert t[k..k + 3] == s[k + 1..k + 4];
      }
      RemoveMiAbsent(t);
      assert [s[0]] + t == s;
    }
  }

  lemma RemoveMiExample()
    ensures RemoveMi("MI_SPORTS") == "SPORTS"
    ensures RemoveMi("A_MI_B") == "A_B"
  {
    RemoveMiLeading();
    RemoveMiInner();
  }

  lemma RemoveMiLeading()
    ensures RemoveMi("MI_SPORTS") == "SPORTS"
  {
    assert "MI_SPORTS"[..3] == "MI_";
    assert "MI_SPORTS"[3..] == "SPORTS";
    var w := "SPORTS";
    forall k: nat | k + 3 <= |w| ensures !MiAt(w, k) {
      assert w[k + 2] != '_';
    }
    RemoveMiAbsent(w);
  }

  lemma RemoveMiInner()
    ensures RemoveMi("A_MI_B") == "A_B"
  {
    var s := "A_MI_B";
    assert s[1..] == "_MI_B" && s[2..] == "MI_B" && s[5..] == "B";
    assert s[..3] != "MI_" && s[1..][..3] != "MI_" && s[2..][..3] == "MI_";
  }

  /** The display name: the name with "MI_" removed when it starts with "MI_". */
  function DisplayName(name: string): string {
    if "MI_" <= name then RemoveMi(name) else name
  }

  /** No name an entry can have starts with "MI_", so the display name is the name. */
  lemma DisplayNameUnchanged(id: nat)
    ensures DisplayName(AppName(id)) == AppName(id)
  {
    AppNameNoMiPrefix(id);
  }

  const AppHeader: seq<string> := ["Timestamp", "AppID", "PageID", "AppName"]

  /** `f"{entry.timestamp},{entry.app_id},{entry.page_id},{display_name}"`, as fields. */
  function AppFields(e: LogEntry): (r: seq<string>)
    ensures |r| == 4
  {
    [e.timestamp, Decimal(e.appId), Decimal(e.pageId), DisplayName(e.appName())]
  }

  /** AppIDAnalyzer.export_to_csv: the header, then one line per record; None for no records. */
  function AppCsv(entries: seq<LogEntry>): Option<string>
  {
    if entries == [] then None
    else Some(Line(AppHeader) + Lines(Each(entries, AppFields)))
  }

  method ExportAppCsv(entries: seq<LogEntry>) returns (text: Option<string>)
    ensures text == AppCsv(entries)
  {
    if entries == [] {
      return None;
    }
    var body := WriteRows(entries, AppFields);
    text := Some(Line(AppHeader) + body);
  }

  /** Reads one AppID line back into (timestamp, app id, page id, name). */
  function ReadAppRow(fields: seq<string>): Option<(string, nat, nat, string)> {
    if |fields| == 4 && AllDigits(fields[1]) && AllDigits(fields[2]) then
      Some((fields[0], DecimalValue(fields[1]), DecimalValue(fields[2]), fields[3]))
    else None
  }

  /** What a record contributes to the AppID export. */
  function AppRecord(e: LogEntry): (string, nat, nat, string) {
    (e.timestamp, e.appId, e.pageId, e.appName())
  }

  lemma TimestampFits(t: string)
    requires TimestampShape(t)
    ensures FitsField(t)
  {
  }

  lemma HeaderFits()
    ensures forall f | f in AppHeader :: FitsField(f)
    ensures forall f | f in ScreenHeader :: FitsField(f)
  {
  }

  /** An AppID line reads back as the record it was written from. */
  lemma ReadAppRowOf(e: LogEntry)
    ensures ReadAppRow(AppFields(e)) == Some(AppRecord(e))
  {
    DecimalRoundTrip(e.appId);
    DecimalRoundTrip(e.pageId);
    DisplayNameUnchanged(e.appId);
  }

  /** The AppID fields of a record with a well-formed timestamp never hold a comma or a line break. */
  lemma AppFieldsFit(e: LogEntry)
    requires TimestampShape(e.timestamp)
    ensures forall f | f in AppFields(e) :: FitsField(f)
  {
    TimestampFits(e.timestamp);
    DecimalExcludes(e.appId, ',');
    DecimalExcludes(e.appId, '\n');
    DecimalExcludes(e.pageId, ',');
    DecimalExcludes(e.pageId, '\n');
    DisplayNameUnchanged(e.appId);
    AppNameFitsField(e.appId);
  }

  /** Reading the AppID export of analyzed lines gives back every record: timestamp, ids and name. */
  lemma AppCsvReadsBack(lines: seq<string>)
    requires Collect(AppIdLog.ParseAppLine, lines) != []
    ensures var entries := Collect(AppIdLog.ParseAppLine, lines);
      ReadCsv(AppCsv(entries).value, AppHeader, ReadAppRow) ==
      Some(Each(entries, AppRecord))
  {
    var entries := Collect(AppIdLog.ParseAppLine, lines);
    AppEntriesTimestamps(lines);
    HeaderFits();
    forall e | e in entries
      ensures |AppFields(e)| > 0 && (forall f | f in AppFields(e) :: FitsField(f))
      ensures ReadAppRow(AppFields(e)) == Some(AppRecord(e))
    {
      AppFieldsFit(e);
      ReadAppRowOf(e);
    }
    assert AppCsv(entries).value == Line(AppHeader) + Lines(Each(entries, AppFields));
    CsvRoundTrip(entries, AppHeader, AppFields, ReadAppRow, AppRecord);
  }

  // ---------------------------------------------------------------------
  // The screen-state exports

  const ScreenHeader: seq<string> := ["Timestamp", "FromState", "ToState", "Source"]

  /** `f"{entry.timestamp},{entry.from_state},{entry.to_state},{entry.source}"`, as fields. */
  function ScreenFields(e: ScreenStateEntry): (r: seq<string>)
    ensures |r| == 4
  {
    [e.timestamp, e.fromState, e.toState, e.source]
  }

  /** ScreenStateAnalyzer.export_to_csv: the header, then one line per record; None for no records. */
  function ScreenCsv(entries: seq<ScreenStateEntry>): Option<string>
  {
    if entries == [] then None
    else Some(Line(ScreenHeader) + Lines(Each(entries, ScreenFields)))
  }

  /**
   * export_to_csv_append: the text appended to the file, which is the export
   * under a title line, preceded by two line breaks when the file already
   * existed.
   */
  function ScreenCsvAppend(entries: seq<ScreenStateEntry>, fileExists: bool): Option<string>
  {
    if entries == [] then None
    else Some((if fileExists then "\n\n" else "") + "Screen State Analysis\n" + ScreenCsv(entries).value)
  }

  method ExportScreenCsv(entries: seq<ScreenStateEntry>) returns (text: Option<string>)
    ensures text == ScreenCsv(entries)
  {
    if entries == [] {
      return None;
    }
    var body := WriteRows(entries, ScreenFields);
    text := Some(Line(ScreenHeader) + body);
  }

  method ExportScreenCsvAppend(entries: seq<ScreenStateEntry>, fileExists: bool) returns (text: Option<string>)
    ensures text == ScreenCsvAppend(entries, fileExists)
  {
    if entries == [] {
      return None;
    }
    var out := "";
    if fileExists {
      out := out + "\n\n";
    }
    out := out + "Screen State Analysis\n";
    out := out + Line(ScreenHeader);
    var body := WriteRows(entries, ScreenFields);
    var pre := if fileExists then "\n\n" else "";
    assert out + body == pre + "Screen State Analysis\n" + (Line(ScreenHeader) + body);
    text := Some(out + body);
  }

  /** Reads one screen line back into (timestamp, from, to, source). */
  function ReadScreenRow(fields: seq<string>): Option<(string, string, string, string)> {
    if |fields| == 4 then Some((fields[0], fields[1], fields[2], fields[3])) else None
  }

  /** What a record contributes to the screen export. */
  function ScreenRecord(e: ScreenStateEntry): (string, string, string, string) {
    (e.timestamp, e.fromState, e.toState, e.source)
  }

  /** Words never hold a comma or a line break. */
  lemma WordFits(w: string)
    requires AllWordChars(w)
    ensures FitsField(w)
  {
  }

  /** Reading the screen export of analyzed lines gives back every record: timestamp, states and source. */
  lemma ScreenCsvReadsBack(lines: seq<string>)
    requires Collect(ScreenLog.ParseScreenLine, lines) != []
    ensures var entries := Collect(ScreenLog.ParseScreenLine, lines);
      ReadCsv(ScreenCsv(entries).value, ScreenHeader, ReadScreenRow) ==
      Some(Each(entries, ScreenRecord))
  {
    var entries := Collect(ScreenLog.ParseScreenLine, lines);
    ScreenEntriesFields(lines);
    HeaderFits();
    forall e | e in entries
      ensures |ScreenFields(e)| > 0 && (forall f | f in ScreenFields(e) :: FitsField(f))
      ensures ReadScreenRow(ScreenFields(e)) == Some(ScreenRecord(e))
    {
      TimestampFits(e.timestamp);
      WordFits(e.fromState);
      WordFits(e.toState);
      WordFits(e.source);
    }
    assert ScreenCsv(entries).value == Line(ScreenHeader) + Lines(Each(entries, ScreenFields));
    CsvRoundTrip(entries, ScreenHeader, ScreenFields, ReadScreenRow, ScreenRecord);
  }

  /** The appended text is the plain export under its separator and title. */
  lemma ScreenCsvAppendShape(entries: seq<ScreenStateEntry>, fileExists: bool)
    requires entries != []
    ensures var s := ScreenCsvAppend(entries, fileExists).value;
      var pre := if fileExists then "\n\n" else "";
      && s[..|pre|] == pre
      && s[|pre|..|pre| + 22] == "Screen State Analysis\n"
      && s[|pre| + 22..] == ScreenCsv(entries).value
  {
    var pre := if fileExists then "\n\n" else "";
    var s := ScreenCsvAppend(entries, fileExists).value;
    assert |"Screen State Analysis\n"| == 22;
    assert s == pre + "Screen State Analysis\n" + ScreenCsv(entries).value;
  }

  /**
   * The appended text is the separator and the title, followed by a CSV text
   * that reads back as every record of the analyzed lines.
   */
  lemma ScreenCsvAppendReadsBack(lines: seq<string>, fileExists: bool)
    requires Collect(ScreenLog.ParseScreenLine, lines) != []
    ensures var entries := Collect(ScreenLog.ParseScreenLine, lines);
      var s := ScreenCsvAppend(entries, fileExists).value;
      var k := if fileExists then 24 else 22;
      && k <= |s|
      && s[..k] == (if fileExists then "\n\n" else "") + "Screen State Analysis\n"
      && ReadCsv(s[k..], ScreenHeader, ReadScreenRow) == Some(Each(entries, ScreenRecord))
  {
    var entries := Collect(ScreenLog.ParseScreenLine, lines);
    ScreenCsvAppendShape(entries, fileExists);
    ScreenCsvReadsBack(lines);
    var pre := if fileExists then "\n\n" else "";
    var s := ScreenCsvAppend(entries, fileExists).value;
    assert s[..|pre| + 22] == pre + "Screen State Analysis\n";
  }
}
