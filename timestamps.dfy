/** The two timestamp checks of log-parser.py: the entry-start test of
    `timestamp_pattern` and the conversion done by
    `datetime.strptime(ts_str, "%Y-%m-%dT%H:%M:%SZ")`, with instants
    represented as whole seconds. */
module Timestamps {
  import opened Options
  import opened Text

  /** Shape of `^\d{4}-\d{2}-\d{2}T\d{2}:\d{2}:\d{2}Z`, 'd' standing for a digit. */
  const Shape: string := "dddd-dd-ddTdd:dd:ddZ"

  predicate FitsShape(c: char, shape: char) {
    if shape == 'd' then IsDigit(c) else c == shape
  }

  /** `timestamp_pattern.match(line)` succeeds. */
  predicate HasTimestampPrefix(s: string) {
    |s| >= |Shape| && forall k :: 0 <= k < |Shape| ==> FitsShape(s[k], Shape[k])
  }

  /** `timestamp_pattern.match` field by field: four digits, '-', two
      digits, '-', two digits, 'T', two digits, ':', two digits, ':', two
      digits and 'Z' at the start of the line; anything may follow. */
  lemma TimestampPrefixIff(s: string)
    ensures HasTimestampPrefix(s) <==>
      && |s| >= 20
      && AllDigits(s[0..4]) && s[4] == '-' && AllDigits(s[5..7]) && s[7] == '-' && AllDigits(s[8..10])
      && s[10] == 'T' && AllDigits(s[11..13]) && s[13] == ':' && AllDigits(s[14..16]) && s[16] == ':'
      && AllDigits(s[17..19]) && s[19] == 'Z'
  {
    if HasTimestampPrefix(s) {
      ShapeParts(s);
      FieldDigits(s, 0, 4);
      FieldDigits(s, 5, 2);
      FieldDigits(s, 8, 2);
      FieldDigits(s, 11, 2);
      FieldDigits(s, 14, 2);
      FieldDigits(s, 17, 2);
    } else if |s| >= 20 && AllDigits(s[0..4]) && s[4] == '-' && AllDigits(s[5..7]) && s[7] == '-'
      && AllDigits(s[8..10]) && s[10] == 'T' && AllDigits(s[11..13]) && s[13] == ':'
      && AllDigits(s[14..16]) && s[16] == ':' && AllDigits(s[17..19]) && s[19] == 'Z' {
      PartsShape(s);
    }
  }

  lemma FieldDigits(s: string, i: nat, n: nat)
    requires i + n <= |s| && forall k :: i <= k < i + n ==> IsDigit(s[k])
    ensures AllDigits(s[i..i + n])
  {
    var f := s[i..i + n];
    forall k | 0 <= k < n ensures IsDigit(f[k]) {
      assert f[k] == s[i + k];
    }
  }

  /** Whatever follows a timestamp prefix does not disturb it. */
  lemma PrefixKept(a: string, b: string)
    requires HasTimestampPrefix(a)
    ensures HasTimestampPrefix(a + b)
  {
    forall k | 0 <= k < |Shape| ensures FitsShape((a + b)[k], Shape[k]) {
      assert (a + b)[k] == a[k];
    }
  }

  predicate IsLeapYear(y: int) {
    y % 4 == 0 && (y % 100 != 0 || y % 400 == 0)
  }

  function DaysInMonth(y: int, m: int): (n: int)
    requires 1 <= m <= 12
    ensures 28 <= n <= 31
  {
    if m == 2 then (if IsLeapYear(y) then 29 else 28)
    else if m == 4 || m == 6 || m == 9 || m == 11 then 30
    else 31
  }

  /** Days in the proleptic Gregorian years before year `y`. */
  function DaysBeforeYear(y: int): int
    requires y >= 1
  {
    var p := y - 1;
    p * 365 + p / 4 - p / 100 + p / 400
  }

  /** Days in the months of year `y` before month `m`. */
  function DaysBeforeMonth(y: int, m: int): (n: int)
    requires 1 <= m <= 13
    ensures 0 <= n <= 31 * (m - 1)
  {
    if m == 1 then 0 else DaysBeforeMonth(y, m - 1) + DaysInMonth(y, m - 1)
  }

  /** The six fields `%Y-%m-%dT%H:%M:%SZ` reads. */
  datatype DateTime = DateTime(year: nat, month: nat, day: nat, hour: nat, minute: nat, second: nat)

  /** What `datetime` accepts: a real calendar date and a time of day with
      seconds 0-59. */
  predicate Valid(t: DateTime) {
    1 <= t.year && 1 <= t.month <= 12 && 1 <= t.day <= DaysInMonth(t.year, t.month)
    && t.hour < 24 && t.minute < 60 && t.second < 60
  }

  /** Whole days from 0001-01-01 to the date of `t`. */
  function DayNumber(t: DateTime): int
    requires Valid(t)
  {
    DaysBeforeYear(t.year) + DaysBeforeMonth(t.year, t.month) + t.day - 1
  }

  /** An instant in seconds since 0001-01-01T00:00:00 (the epoch of
      `datetime.toordinal`); only differences and comparisons are used. */
  function Seconds(t: DateTime): int
    requires Valid(t)
  {
    DayNumber(t) * 86400 + t.hour * 3600 + t.minute * 60 + t.second
  }

  /** The timestamp text of `t`, every field zero-padded. */
  function Format(t: DateTime): (r: string)
    ensures |r| == |Shape|
  {
    Pad(t.year, 4) + ("-" + (Pad(t.month, 2) + ("-" + (Pad(t.day, 2) + ("T" + (Pad(t.hour, 2)
      + (":" + (Pad(t.minute, 2) + (":" + (Pad(t.second, 2) + "Z"))))))))))
  }

  /** The fourteen digit positions of the timestamp shape. */
  predicate DigitPosition(k: int) {
    0 <= k < |Shape| && Shape[k] == 'd'
  }

  lemma PrefixDigits(ts: string)
    requires HasTimestampPrefix(ts)
    ensures forall k :: DigitPosition(k) ==> IsDigit(ts[k])
  {
    forall k | DigitPosition(k) ensures IsDigit(ts[k]) {
      assert FitsShape(ts[k], Shape[k]);
    }
  }

  /** A timestamp prefix field by field: four digits, '-', two digits,
      '-', two digits, 'T', two digits, ':', two digits, ':', two digits, 'Z'. */
  lemma ShapeParts(ts: string)
    requires HasTimestampPrefix(ts)
    ensures forall k :: 0 <= k < 4 ==> IsDigit(ts[k])
    ensures forall k :: 5 <= k < 7 ==> IsDigit(ts[k])
    ensures forall k :: 8 <= k < 10 ==> IsDigit(ts[k])
    ensures forall k :: 11 <= k < 13 ==> IsDigit(ts[k])
    ensures forall k :: 14 <= k < 16 ==> IsDigit(ts[k])
    ensures forall k :: 17 <= k < 19 ==> IsDigit(ts[k])
    ensures ts[4] == '-' && ts[7] == '-' && ts[10] == 'T' && ts[13] == ':' && ts[16] == ':' && ts[19] == 'Z'
  {
    PrefixDigits(ts);
    assert FitsShape(ts[4], Shape[4]) && FitsShape(ts[7], Shape[7]) && FitsShape(ts[10], Shape[10]);
    assert FitsShape(ts[13], Shape[13]) && FitsShape(ts[16], Shape[16]) && FitsShape(ts[19], Shape[19]);
  }

  /** The numeral at positions `i .. i + n` of a string of the timestamp shape. */
  function FieldAt(ts: string, i: nat, n: nat): nat
    requires i + n <= |ts|
    requires forall k :: i <= k < i + n ==> IsDigit(ts[k])
  {
    assert AllDigits(ts[i..i + n]);
    DigitsValue(ts[i..i + n])
  }

  /** The six fields of a text that starts with a timestamp. */
  function ReadFields(ts: string): DateTime
    requires HasTimestampPrefix(ts)
  {
    PrefixDigits(ts);
    DateTime(FieldAt(ts, 0, 4), FieldAt(ts, 5, 2), FieldAt(ts, 8, 2),
             FieldAt(ts, 11, 2), FieldAt(ts, 14, 2), FieldAt(ts, 17, 2))
  }

  /** `datetime.strptime(ts, "%Y-%m-%dT%H:%M:%SZ")`, None where it raises
      `ValueError`: the text must be exactly the twenty-character form of a
      valid date and time (a second of 60 or 61 passes strptime's own
      pattern but is refused by `datetime`). An accepted text is the
      formatting of the fields read. */
  function ParseTimestamp(ts: string): (r: Option<int>)
    ensures r.Some? <==> |ts| == |Shape| && HasTimestampPrefix(ts) && Valid(ReadFields(ts))
    ensures r.Some? ==> ts == Format(ReadFields(ts)) && r.value == Seconds(ReadFields(ts))
  {
    if |ts| != |Shape| || !HasTimestampPrefix(ts) then None
    else
      var t := ReadFields(ts);
      if Valid(t) then
        FormatOfFields(ts);
        Some(Seconds(t))
      else None
  }

  /** A twenty-character timestamp text is the formatting of its fields. */
  lemma FormatOfFields(ts: string)
    requires |ts| == |Shape| && HasTimestampPrefix(ts)
    ensures ts == Format(ReadFields(ts))
  {
    ShapeParts(ts);
    PadField(ts, 0, 4);
    PadField(ts, 5, 2);
    PadField(ts, 8, 2);
    PadField(ts, 11, 2);
    PadField(ts, 14, 2);
    PadField(ts, 17, 2);
    Assemble(ts, ReadFields(ts));
  }

  /** A twenty-character text holding the padded fields of `t` at their
      places, with the separators between them, is the formatting of `t`. */
  lemma Assemble(ts: string, t: DateTime)
    requires |ts| == |Shape|
    requires ts[0..4] == Pad(t.year, 4) && ts[5..7] == Pad(t.month, 2) && ts[8..10] == Pad(t.day, 2)
    requires ts[11..13] == Pad(t.hour, 2) && ts[14..16] == Pad(t.minute, 2) && ts[17..19] == Pad(t.second, 2)
    requires ts[4] == '-' && ts[7] == '-' && ts[10] == 'T' && ts[13] == ':' && ts[16] == ':' && ts[19] == 'Z'
    ensures ts == Format(t)
  {
    var time := AssembleTime(ts, ts[11..13], ts[14..16], ts[17..19]);
    AssembleDate(ts, ts[0..4], ts[5..7], ts[8..10], time);
  }

  /** The date half of Assemble, over the field texts. */
  lemma AssembleDate(ts: string, y: string, mo: string, d: string, time: string)
    requires |ts| == |Shape| && |y| == 4 && |mo| == 2 && |d| == 2
    requires ts[0..4] == y && ts[5..7] == mo && ts[8..10] == d && ts[11..] == time
    requires ts[4] == '-' && ts[7] == '-' && ts[10] == 'T'
    ensures ts == y + ("-" + (mo + ("-" + (d + ("T" + time)))))
  {
    var s10 := MarkThen(ts, 10, 'T', time);
    var s8 := FieldThen(ts, 8, d, s10);
    var s7 := MarkThen(ts, 7, '-', s8);
    var s5 := FieldThen(ts, 5, mo, s7);
    var s4 := MarkThen(ts, 4, '-', s5);
    var s0 := FieldThen(ts, 0, y, s4);
    assert ts[0..] == ts;
  }

  /** The time-of-day half of Assemble: the text from position 11 on. */
  lemma AssembleTime(ts: string, h: string, mi: string, se: string) returns (r: string)
    requires |ts| == |Shape| && |h| == 2 && |mi| == 2 && |se| == 2
    requires ts[11..13] == h && ts[14..16] == mi && ts[17..19] == se
    requires ts[13] == ':' && ts[16] == ':' && ts[19] == 'Z'
    ensures r == h + (":" + (mi + (":" + (se + "Z")))) && ts[11..] == r
  {
    assert ts[19..] == "Z";
    var s17 := FieldThen(ts, 17, se, "Z");
    var s16 := MarkThen(ts, 16, ':', s17);
    var s14 := FieldThen(ts, 14, mi, s16);
    var s13 := MarkThen(ts, 13, ':', s14);
    r := FieldThen(ts, 11, h, s13);
  }

  /** Formatting a valid date and time (year below 10000) gives a text
      that `strptime` accepts, at the instant of that date and time. */
  lemma FormatParses(t: DateTime)
    requires Valid(t) && t.year < 10000
    ensures HasTimestampPrefix(Format(t))
    ensures ParseTimestamp(Format(t)) == Some(Seconds(t))
  {
    var f := Format(t);
    Disassemble(Pad(t.year, 4), Pad(t.month, 2), Pad(t.day, 2), Pad(t.hour, 2), Pad(t.minute, 2), Pad(t.second, 2));
    PartsShape(f);
    PadValue(t.year, 4);
    PadValue(t.month, 2);
    PadValue(t.day, 2);
    PadValue(t.hour, 2);
    PadValue(t.minute, 2);
    PadValue(t.second, 2);
    assert ReadFields(f) == t;
  }

  /** Where each field and separator of a formatted text lies. */
  lemma Disassemble(y: string, mo: string, d: string, h: string, mi: string, se: string)
    requires |y| == 4 && |mo| == 2 && |d| == 2 && |h| == 2 && |mi| == 2 && |se| == 2
    ensures var f := y + ("-" + (mo + ("-" + (d + ("T" + (h + (":" + (mi + (":" + (se + "Z"))))))))));
      && |f| == |Shape|
      && f[0..4] == y && f[5..7] == mo && f[8..10] == d && f[11..13] == h && f[14..16] == mi && f[17..19] == se
      && f[4] == '-' && f[7] == '-' && f[10] == 'T' && f[13] == ':' && f[16] == ':' && f[19] == 'Z'
  {
    var time := h + (":" + (mi + (":" + (se + "Z"))));
    DisassembleTime(h, mi, se);
    var f := y + ("-" + (mo + ("-" + (d + ("T" + time)))));
    assert f[11..] == time;
    assert f[0..4] == y && f[5..7] == mo && f[8..10] == d;
  }

  lemma DisassembleTime(h: string, mi: string, se: string)
    requires |h| == 2 && |mi| == 2 && |se| == 2
    ensures var time := h + (":" + (mi + (":" + (se + "Z"))));
      && |time| == 9 && time[0..2] == h && time[3..5] == mi && time[6..8] == se
      && time[2] == ':' && time[5] == ':' && time[8] == 'Z'
  {
    var time := h + (":" + (mi + (":" + (se + "Z"))));
    assert time[3..5] == mi && time[6..8] == se;
  }

  /** The converse of ShapeParts. */
  lemma PartsShape(ts: string)
    requires |ts| >= |Shape|
    requires AllDigits(ts[0..4]) && AllDigits(ts[5..7]) && AllDigits(ts[8..10])
    requires AllDigits(ts[11..13]) && AllDigits(ts[14..16]) && AllDigits(ts[17..19])
    requires ts[4] == '-' && ts[7] == '-' && ts[10] == 'T' && ts[13] == ':' && ts[16] == ':' && ts[19] == 'Z'
    ensures HasTimestampPrefix(ts)
  {
    forall k | 0 <= k < |Shape| ensures FitsShape(ts[k], Shape[k]) {
      if k < 4 { assert ts[k] == ts[0..4][k]; }
      else if 5 <= k < 7 { assert ts[k] == ts[5..7][k - 5]; }
      else if 8 <= k < 10 { assert ts[k] == ts[8..10][k - 8]; }
      else if 11 <= k < 13 { assert ts[k] == ts[11..13][k - 11]; }
      else if 14 <= k < 16 { assert ts[k] == ts[14..16][k - 14]; }
      else if 17 <= k < 19 { assert ts[k] == ts[17..19][k - 17]; }
    }
  }

  // ----- Chronological order of instants -----

  /** `a` is earlier than `b` by the usual field-by-field comparison. */
  predicate Before(a: DateTime, b: DateTime) {
    if a.year != b.year then a.year < b.year
    else if a.month != b.month then a.month < b.month
    else if a.day != b.day then a.day < b.day
    else if a.hour != b.hour then a.hour < b.hour
    else if a.minute != b.minute then a.minute < b.minute
    else a.second < b.second
  }

  function DaysInYear(y: int): int {
    if IsLeapYear(y) then 366 else 365
  }

  lemma DaysBeforeYearStep(y: int)
    requires y >= 1
    ensures DaysBeforeYear(y + 1) == DaysBeforeYear(y) + DaysInYear(y)
  {
    var p := y - 1;
    assert y / 4 - p / 4 == (if y % 4 == 0 then 1 else 0);
    assert y / 100 - p / 100 == (if y % 100 == 0 then 1 else 0);
    assert y / 400 - p / 400 == (if y % 400 == 0 then 1 else 0);
  }

  /** Every day of a year comes before the first day of any later year. */
  lemma {:induction false} DaysBeforeYearGrows(y1: int, y2: int)
    requires 1 <= y1 < y2
    ensures DaysBeforeYear(y1) + DaysInYear(y1) <= DaysBeforeYear(y2)
    decreases y2 - y1
  {
    DaysBeforeYearStep(y1);
    if y1 + 1 < y2 {
      DaysBeforeYearGrows(y1 + 1, y2);
    }
  }

  /** The twelve months fill the year exactly. */
  lemma MonthsFillYear(y: int)
    ensures DaysBeforeMonth(y, 13) == DaysInYear(y)
  {
    assert DaysBeforeMonth(y, 2) == 31;
    assert DaysBeforeMonth(y, 3) == 31 + DaysInMonth(y, 2);
    assert DaysBeforeMonth(y, 4) == 62 + DaysInMonth(y, 2);
    assert DaysBeforeMonth(y, 5) == 92 + DaysInMonth(y, 2);
    assert DaysBeforeMonth(y, 6) == 123 + DaysInMonth(y, 2);
    assert DaysBeforeMonth(y, 7) == 153 + DaysInMonth(y, 2);
    assert DaysBeforeMonth(y, 8) == 184 + DaysInMonth(y, 2);
    assert DaysBeforeMonth(y, 9) == 215 + DaysInMonth(y, 2);
    assert DaysBeforeMonth(y, 10) == 245 + DaysInMonth(y, 2);
    assert DaysBeforeMonth(y, 11) == 276 + DaysInMonth(y, 2);
    assert DaysBeforeMonth(y, 12) == 306 + DaysInMonth(y, 2);
  }

  /** Every day of a month comes before the first day of any later month. */
  lemma {:induction false} DaysBeforeMonthGrows(y: int, m1: int, m2: int)
    requires 1 <= m1 < m2 <= 13
    ensures DaysBeforeMonth(y, m1) + DaysInMonth(y, m1) <= DaysBeforeMonth(y, m2)
    decreases m2 - m1
  {
    if m1 + 1 < m2 {
      DaysBeforeMonthGrows(y, m1 + 1, m2);
    }
  }

  /** Earlier dates have smaller day numbers. */
  lemma DayNumberOrder(a: DateTime, b: DateTime)
    requires Valid(a) && Valid(b)
    requires a.year < b.year || (a.year == b.year && (a.month < b.month || (a.month == b.month && a.day < b.day)))
    ensures DayNumber(a) < DayNumber(b)
  {
    if a.year < b.year {
      DaysBeforeMonthGrows(a.year, a.month, 13);
      MonthsFillYear(a.year);
      DaysBeforeYearGrows(a.year, b.year);
    } else if a.month < b.month {
      DaysBeforeMonthGrows(a.year, a.month, b.month);
    }
  }

  /** Instants are ordered as the date-times are: `curr_time > last_log_time`
      compares the timestamps chronologically, and distinct valid
      timestamps are distinct instants. */
  lemma SecondsOrder(a: DateTime, b: DateTime)
    requires Valid(a) && Valid(b)
    ensures Seconds(a) < Seconds(b) <==> Before(a, b)
    ensures Seconds(a) == Seconds(b) <==> a == b
  {
    if a.year != b.year || a.month != b.month || a.day != b.day {
      if a.year < b.year || (a.year == b.year && (a.month < b.month || (a.month == b.month && a.day < b.day))) {
        DayNumberOrder(a, b);
      } else {
        DayNumberOrder(b, a);
      }
    }
  }

  /** The text from position `i` on is the padded field there and `rest`. */
  lemma FieldThen(ts: string, i: nat, field: string, rest: string) returns (r: string)
    requires i + |field| <= |ts| && ts[i..i + |field|] == field && ts[i + |field|..] == rest
    ensures r == field + rest && ts[i..] == r
  {
    r := field + rest;
    assert ts[i..] == ts[i..i + |field|] + ts[i + |field|..];
  }

  /** The text from position `i` on is the separator `c` and `rest`. */
  lemma MarkThen(ts: string, i: nat, c: char, rest: string) returns (r: string)
    requires i < |ts| && ts[i] == c && ts[i + 1..] == rest
    ensures r == [c] + rest && ts[i..] == r
  {
    r := [c] + rest;
    assert ts[i..] == [ts[i]] + ts[i + 1..];
  }

  lemma PadField(ts: string, i: nat, n: nat)
    requires i + n <= |ts| && forall k :: i <= k < i + n ==> IsDigit(ts[k])
    ensures Pad(FieldAt(ts, i, n), n) == ts[i..i + n]
  {
    PadOfDigits(ts[i..i + n]);
  }
}
