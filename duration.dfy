/**
 * The running time shown by both HTML summaries: the first and the last
 * timestamp read with strptime("%m/%d %H:%M:%S"), which gives dates in the
 * year 1900 (not a leap year), subtracted, and written as HH:MM:SS with
 * floor division; "N/A" when either timestamp is not a valid date and time.
 */
module Duration {
  import opened Options
  import opened Text
  import opened LineSearch

  const SecondsPerDay: nat := 86400
  const DaysPerYear: nat := 365

  /** Days in each month of 1900. */
  function DaysIn(month: nat): (d: nat)
    requires 1 <= month <= 12
    ensures 28 <= d <= 31
  {
    if month == 2 then 28
    else if month == 4 || month == 6 || month == 9 || month == 11 then 30
    else 31
  }

  /** Days of 1900 before the first day of the month; DaysBefore(13) is the whole year. */
  function DaysBefore(month: nat): (d: nat)
    requires 1 <= month <= 13
    decreases month
  {
    if month == 1 then 0 else DaysBefore(month - 1) + DaysIn(month - 1)
  }

  lemma DaysBeforeTable()
    ensures DaysBefore(1) == 0 && DaysBefore(2) == 31 && DaysBefore(3) == 59 && DaysBefore(4) == 90
    ensures DaysBefore(5) == 120 && DaysBefore(6) == 151 && DaysBefore(7) == 181 && DaysBefore(8) == 212
    ensures DaysBefore(9) == 243 && DaysBefore(10) == 273 && DaysBefore(11) == 304 && DaysBefore(12) == 334
    ensures DaysBefore(13) == DaysPerYear
  {
  }

  /** The fields of a date and time of 1900. */
  datatype Stamp = Stamp(month: nat, day: nat, hour: nat, minute: nat, second: nat)

  /** What datetime accepts: a real day of 1900 and a time of day with seconds 00 to 59. */
  predicate ValidStamp(st: Stamp) {
    && 1 <= st.month <= 12 && 1 <= st.day <= DaysIn(st.month)
    && st.hour < 24 && st.minute < 60 && st.second < 60
  }

  /** The value of the two digits at k. */
  function TwoDigits(t: string, k: nat): (n: nat)
    requires k + 1 < |t| && IsDigit(t[k]) && IsDigit(t[k + 1])
    ensures n < 100
  {
    DigitValue(t[k]) * 10 + DigitValue(t[k + 1])
  }

  /** The five numbers of a `MM/DD HH:MM:SS` text. */
  function StampFields(t: string): Stamp
    requires TimestampShape(t)
  {
    Stamp(TwoDigits(t, 0), TwoDigits(t, 3), TwoDigits(t, 6), TwoDigits(t, 9), TwoDigits(t, 12))
  }

  /** Seconds from 1900-01-01 00:00:00 to the stamp. */
  function SecondsOf(st: Stamp): (x: nat)
    requires ValidStamp(st)
  {
    (DaysBefore(st.month) + st.day - 1) * SecondsPerDay + st.hour * 3600 + st.minute * 60 + st.second
  }

  /**
   * datetime.strptime(t, "%m/%d %H:%M:%S") as seconds from the start of 1900,
   * or None where it raises.  Only texts of the shape the matchers capture
   * are read.
   */
  function ParseTimestamp(t: string): (r: Option<int>)
    ensures r.Some? ==> TimestampShape(t) && ValidStamp(StampFields(t))
  {
    if TimestampShape(t) && ValidStamp(StampFields(t)) then Some(SecondsOf(StampFields(t))) else None
  }

  /** The month whose days include day doy (counted from 0) of the year. */
  function MonthOf(doy: nat, m: nat): (r: nat)
    requires 1 <= m <= 12 && DaysBefore(m) <= doy < DaysPerYear
    ensures m <= r <= 12 && DaysBefore(r) <= doy < DaysBefore(r + 1)
    decreases 12 - m
  {
    DaysBeforeTable();
    if m == 12 || doy < DaysBefore(m + 1) then m else MonthOf(doy, m + 1)
  }

  /** The date and time that lies x seconds after the start of 1900. */
  function StampAt(x: nat): (st: Stamp)
    requires x < DaysPerYear * SecondsPerDay
    ensures ValidStamp(st) && SecondsOf(st) == x
  {
    DaysBeforeTable();
    var doy, rest := x / SecondsPerDay, x % SecondsPerDay;
    var m := MonthOf(doy, 1);
    Stamp(m, doy - DaysBefore(m) + 1, rest / 3600, rest % 3600 / 60, rest % 60)
  }

  /** A month is determined by any of its days. */
  lemma MonthUnique(doy: nat, m: nat, m': nat)
    requires 1 <= m <= 12 && 1 <= m' <= 12
    requires DaysBefore(m) <= doy < DaysBefore(m + 1) && DaysBefore(m') <= doy < DaysBefore(m' + 1)
    ensures m == m'
  {
    DaysBeforeTable();
  }

  /** Different dates and times of 1900 lie at different seconds: StampAt reads SecondsOf back. */
  lemma StampRoundTrip(st: Stamp)
    requires ValidStamp(st)
    ensures SecondsOf(st) < DaysPerYear * SecondsPerDay
    ensures StampAt(SecondsOf(st)) == st
  {
    DaysBeforeTable();
    var x := SecondsOf(st);
    var doy := DaysBefore(st.month) + st.day - 1;
    var rest := st.hour * 3600 + st.minute * 60 + st.second;
    assert x == doy * SecondsPerDay + rest && rest < SecondsPerDay;
    assert x / SecondsPerDay == doy && x % SecondsPerDay == rest;
    assert rest / 3600 == st.hour && rest % 3600 == st.minute * 60 + st.second;
    MonthUnique(doy, MonthOf(doy, 1), st.month);
  }

  /** A parsed timestamp lies within 1900, and reading it back gives the five fields of the text. */
  lemma ParseTimestampInverse(t: string)
    requires ParseTimestamp(t).Some?
    ensures 0 <= ParseTimestamp(t).value < DaysPerYear * SecondsPerDay
    ensures StampAt(ParseTimestamp(t).value) == StampFields(t)
  {
    StampRoundTrip(StampFields(t));
  }

  /** Two timestamps parse to the same second only when they are the same text. */
  lemma ParseTimestampInjective(t: string, t': string)
    requires ParseTimestamp(t).Some? && ParseTimestamp(t) == ParseTimestamp(t')
    ensures t == t'
  {
    ParseTimestampInverse(t);
    ParseTimestampInverse(t');
    assert StampFields(t) == StampFields(t');
    TwoDigitsDetermined(t, t', 0);
    TwoDigitsDetermined(t, t', 3);
    TwoDigitsDetermined(t, t', 6);
    TwoDigitsDetermined(t, t', 9);
    TwoDigitsDetermined(t, t', 12);
    assert forall k | 0 <= k < 14 :: t[k] == t'[k];
  }

  lemma TwoDigitsDetermined(t: string, t': string, k: nat)
    requires k + 1 < |t| && IsDigit(t[k]) && IsDigit(t[k + 1])
    requires k + 1 < |t'| && IsDigit(t'[k]) && IsDigit(t'[k + 1])
    requires TwoDigits(t, k) == TwoDigits(t', k)
    ensures t[k] == t'[k] && t[k + 1] == t'[k + 1]
  {
  }

  // ---------------------------------------------------------------------
  // Writing the difference

  /** f"{n:02d}": at least two characters, zero-padded, with a minus sign for a negative n. */
  function Pad2(n: int): (r: string)
  {
    if n < 0 then "-" + Decimal(-n)
    else if n < 10 then "0" + Decimal(n)
    else Decimal(n)
  }

  /** hours, minutes and seconds of a number of seconds, with // and % as Python has them. */
  function Parts(d: int): (p: (int, int, int))
    ensures p.0 * 3600 + p.1 * 60 + p.2 == d
    ensures 0 <= p.1 < 60 && 0 <= p.2 < 60
    ensures d >= 0 ==> p.0 >= 0
    ensures d < 0 ==> p.0 < 0
  {
    (d / 3600, d % 3600 / 60, d % 60)
  }

  /** The text of a difference of d seconds. */
  function FormatDuration(d: int): string
  {
    var p := Parts(d);
    Pad2(p.0) + ":" + Pad2(p.1) + ":" + Pad2(p.2)
  }

  /** time_duration: the difference from start to end, or "N/A" when either does not parse. */
  function DurationText(start: string, end: string): (r: string)
    ensures r == "N/A" <==> ParseTimestamp(start).None? || ParseTimestamp(end).None?
  {
    match (ParseTimestamp(start), ParseTimestamp(end))
    case (Some(a), Some(b)) => FormatDurationNotNA(b - a); FormatDuration(b - a)
    case _ => "N/A"
  }

  lemma FormatDurationNotNA(d: int)
    ensures FormatDuration(d) != "N/A"
  {
    var p := Parts(d);
    var r := FormatDuration(d);
    if p.0 < 0 {
      assert r[0] == '-';
    } else if p.0 < 10 {
      assert r[0] == '0';
    } else {
      assert IsDigit(r[0]);
    }
  }

  /** Reads a number written by Pad2 back: an optional minus sign and decimal digits. */
  function ReadNumber(s: string): Option<int>
  {
    if |s| > 1 && s[0] == '-' && AllDigits(s[1..]) then Some(0 - DecimalValue(s[1..]) as int)
    else if |s| > 0 && AllDigits(s) then Some(DecimalValue(s))
    else None
  }

  /** Reads a duration text back into seconds. */
  function ReadDuration(text: string): Option<int>
  {
    var f := Split(text, ':');
    if |f| != 3 then None
    else
      match (ReadNumber(f[0]), ReadNumber(f[1]), ReadNumber(f[2]))
      case (Some(h), Some(m), Some(x)) => Some(h * 3600 + m * 60 + x)
      case _ => None
  }

  /** Pad2 writes n so that it reads back, takes two characters below 100, and holds no colon. */
  lemma Pad2RoundTrip(n: int)
    ensures ReadNumber(Pad2(n)) == Some(n)
    ensures 0 <= n < 100 ==> |Pad2(n)| == 2
    ensures Excludes(Pad2(n), ':')
  {
    var r := Pad2(n);
    if n < 0 {
      DecimalRoundTrip(-n);
      assert r[1..] == Decimal(-n);
    } else if n < 10 {
      DecimalRoundTrip(n);
      LeadingZero(Decimal(n));
    } else {
      DecimalRoundTrip(n);
      assert r[0] != '-';
    }
  }

  /** The duration text reads back as the number of seconds it was written from. */
  lemma DurationRoundTrip(d: int)
    ensures ReadDuration(FormatDuration(d)) == Some(d)
  {
    var p := Parts(d);
    var fields := [Pad2(p.0), Pad2(p.1), Pad2(p.2)];
    Pad2RoundTrip(p.0);
    Pad2RoundTrip(p.1);
    Pad2RoundTrip(p.2);
    assert Join(fields, ':') == FormatDuration(d) by {
      assert Join(fields[2..], ':') == Pad2(p.2);
      assert Join(fields[1..], ':') == Pad2(p.1) + ":" + Pad2(p.2);
    }
    SplitJoin(fields, ':');
  }

  /** When both timestamps parse, the duration text reads back as the seconds from start to end. */
  lemma DurationTextReadsBack(start: string, end: string)
    requires ParseTimestamp(start).Some? && ParseTimestamp(end).Some?
    ensures ReadDuration(DurationText(start, end)) == Some(ParseTimestamp(end).value - ParseTimestamp(start).value)
  {
    var d := ParseTimestamp(end).value - ParseTimestamp(start).value;
    DurationTextIsFormatted(start, end);
    FormattedReadsBack(DurationText(start, end), d);
  }

  lemma DurationTextIsFormatted(start: string, end: string)
    requires ParseTimestamp(start).Some? && ParseTimestamp(end).Some?
    ensures DurationText(start, end) == FormatDuration(ParseTimestamp(end).value - ParseTimestamp(start).value)
  {
  }

  lemma FormattedReadsBack(t: string, d: int)
    requires t == FormatDuration(d)
    ensures ReadDuration(t) == Some(d)
  {
    DurationRoundTrip(d);
  }

  /** The minutes and seconds of a duration text take exactly two digits. */
  lemma DurationTextTail(d: int)
    ensures var t := FormatDuration(d);
      |t| >= 6 && t[|t| - 6] == ':' && t[|t| - 3] == ':'
      && AllDigits(t[|t| - 5..|t| - 3]) && AllDigits(t[|t| - 2..])
  {
    var p := Parts(d);
    Pad2RoundTrip(p.0);
    Pad2RoundTrip(p.1);
    Pad2RoundTrip(p.2);
    var t := FormatDuration(d);
    var a, b, c := Pad2(p.0), Pad2(p.1), Pad2(p.2);
    assert t == a + ":" + b + ":" + c;
    assert t[|t| - 5..|t| - 3] == b && t[|t| - 2..] == c;
  }

  lemma ExampleSeconds()
    ensures ParseTimestamp("01/02 04:23:33") == Some(102213)
    ensures ParseTimestamp("01/02 04:23:34") == Some(102214)
    ensures ParseTimestamp("01/02 05:51:19") == Some(107479)
  {
    assert StampFields("01/02 04:23:33") == Stamp(1, 2, 4, 23, 33);
    assert StampFields("01/02 04:23:34") == Stamp(1, 2, 4, 23, 34);
    assert StampFields("01/02 05:51:19") == Stamp(1, 2, 5, 51, 19);
  }

  lemma ExampleTexts()
    ensures FormatDuration(5266) == "01:27:46"
    ensures FormatDuration(-1) == "-1:59:59"
  {
    assert Parts(5266) == (1, 27, 46);
    assert Parts(-1) == (-1, 59, 59);
    assert Decimal(27) == "27" && Decimal(46) == "46" && Decimal(59) == "59";
  }

  /** From the first to the second example timestamp of the parsers' docstrings: 1 h 27 min 46 s. */
  lemma DurationExample()
    ensures DurationText("01/02 04:23:33", "01/02 05:51:19") == "01:27:46"
  {
    ExampleSeconds();
    ExampleTexts();
  }

  /** An end one second before the start gives -1 hours and 59 minutes and seconds, as floor division does. */
  lemma NegativeDurationExample()
    ensures DurationText("01/02 04:23:34", "01/02 04:23:33") == "-1:59:59"
  {
    ExampleSeconds();
    ExampleTexts();
  }

  /** 29 February, month 13, day 0, hour 24, minute 60 and second 60 are all refused. */
  lemma InvalidTimestamps()
    ensures ParseTimestamp("02/29 12:00:00").None?
    ensures ParseTimestamp("13/01 12:00:00").None?
    ensures ParseTimestamp("04/00 12:00:00").None?
    ensures ParseTimestamp("04/31 12:00:00").None?
    ensures ParseTimestamp("01/01 24:00:00").None?
    ensures ParseTimestamp("01/01 00:60:00").None?
    ensures ParseTimestamp("01/01 00:00:60").None?
    ensures DurationText("02/29 12:00:00", "03/01 12:00:00") == "N/A"
  {
    assert StampFields("02/29 12:00:00") == Stamp(2, 29, 12, 0, 0);
    assert StampFields("13/01 12:00:00") == Stamp(13, 1, 12, 0, 0);
    assert StampFields("04/00 12:00:00") == Stamp(4, 0, 12, 0, 0);
    assert StampFields("04/31 12:00:00") == Stamp(4, 31, 12, 0, 0);
    assert StampFields("01/01 24:00:00") == Stamp(1, 1, 24, 0, 0);
    assert StampFields("01/01 00:60:00") == Stamp(1, 1, 0, 60, 0);
    assert StampFields("01/01 00:00:60") == Stamp(1, 1, 0, 0, 60);
  }
}
