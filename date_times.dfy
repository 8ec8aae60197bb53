/**
 * The alarm's state-change time: `datetime.strptime(text, '%Y-%m-%dT%H:%M:%S.%f%z')`
 * followed by `int(round(datetime.timestamp(...)))`, computed with integers.
 * The civil date is counted as the `datetime` module counts it (days before
 * the year, days before the month, day of the month, from 0001-01-01 of the
 * proleptic Gregorian calendar), and the exact instant in microseconds is
 * rounded to whole seconds half-to-even, as Python's `round` does.
 */
module DateTimes {
  import opened Wrappers
  import opened Strings

  /** A parsed time stamp; `utcOffset` is the offset east of UTC in microseconds. */
  datatype DateTime = DateTime(
    year: int, month: int, day: int,
    hour: int, minute: int, second: int, microsecond: int,
    utcOffset: int)

  const MICROS_PER_SECOND := 1000000
  const MICROS_PER_DAY := 86400 * MICROS_PER_SECOND

  // ---------------------------------------------------------------------------
  // The calendar

  predicate IsLeapYear(y: int) {
    y % 4 == 0 && (y % 100 != 0 || y % 400 == 0)
  }

  function DaysInMonth(y: int, m: int): int
    requires 1 <= m <= 12
  {
    if m == 2 && IsLeapYear(y) then 29
    else [31, 28, 31, 30, 31, 30, 31, 31, 30, 31, 30, 31][m - 1]
  }

  function DaysBeforeMonth(y: int, m: int): int
    requires 1 <= m <= 12
  {
    [0, 31, 59, 90, 120, 151, 181, 212, 243, 273, 304, 334][m - 1]
      + (if m > 2 && IsLeapYear(y) then 1 else 0)
  }

  function DaysBeforeYear(y: int): int
    requires y >= 1
  {
    var p := y - 1;
    p * 365 + p / 4 - p / 100 + p / 400
  }

  /** The day number of a date, 0001-01-01 being day 1 (`date.toordinal()`). */
  function Ordinal(y: int, m: int, d: int): int
    requires y >= 1 && 1 <= m <= 12
  {
    DaysBeforeYear(y) + DaysBeforeMonth(y, m) + d
  }

  /** The day number of 1970-01-01, the Unix epoch. */
  const EPOCH_ORDINAL := 719163

  lemma EpochOrdinal()
    ensures Ordinal(1970, 1, 1) == EPOCH_ORDINAL
  {
  }

  predicate ValidDate(y: int, m: int, d: int) {
    1 <= y <= 9999 && 1 <= m <= 12 && 1 <= d <= DaysInMonth(y, m)
  }

  /** The ranges the `datetime` constructor and `timezone` accept. */
  predicate ValidDateTime(dt: DateTime) {
    && ValidDate(dt.year, dt.month, dt.day)
    && 0 <= dt.hour < 24 && 0 <= dt.minute < 60 && 0 <= dt.second < 60
    && 0 <= dt.microsecond < MICROS_PER_SECOND
    && -MICROS_PER_DAY < dt.utcOffset < MICROS_PER_DAY
  }

  /** The calendar day after a valid date. */
  function NextDay(y: int, m: int, d: int): (int, int, int)
    requires ValidDate(y, m, d)
  {
    if d < DaysInMonth(y, m) then (y, m, d + 1)
    else if m < 12 then (y, m + 1, 1)
    else (y + 1, 1, 1)
  }

  lemma DaysBeforeNextMonth(y: int, m: int)
    requires 1 <= m < 12
    ensures DaysBeforeMonth(y, m + 1) == DaysBeforeMonth(y, m) + DaysInMonth(y, m)
  {
  }

  /** Going from `y - 1` to `y` adds one multiple of 4, 100 or 400 exactly when `y` is one. */
  lemma MultiplesUpTo(y: int)
    requires y >= 1
    ensures y / 4 - (y - 1) / 4 == if y % 4 == 0 then 1 else 0
    ensures y / 100 - (y - 1) / 100 == if y % 100 == 0 then 1 else 0
    ensures y / 400 - (y - 1) / 400 == if y % 400 == 0 then 1 else 0
    ensures y % 400 == 0 ==> y % 100 == 0
    ensures y % 100 == 0 ==> y % 4 == 0
  {
  }

  lemma DaysInYear(y: int)
    requires y >= 1
    ensures DaysBeforeYear(y + 1) == DaysBeforeYear(y) + (if IsLeapYear(y) then 366 else 365)
  {
    MultiplesUpTo(y);
  }

  /**
   * Consecutive calendar days have consecutive day numbers; with the epoch
   * anchor above this pins down the day count of every date.
   */
  lemma OrdinalOfNextDay(y: int, m: int, d: int)
    requires ValidDate(y, m, d) && y < 9999
    ensures Ordinal(NextDay(y, m, d).0, NextDay(y, m, d).1, NextDay(y, m, d).2) == Ordinal(y, m, d) + 1
  {
    if d == DaysInMonth(y, m) {
      if m < 12 {
        DaysBeforeNextMonth(y, m);
      } else {
        DaysInYear(y);
      }
    }
  }

  // ---------------------------------------------------------------------------
  // From a date-time to epoch seconds

  /** The exact instant in microseconds since 1970-01-01T00:00:00Z: local time minus its UTC offset. */
  function EpochMicros(dt: DateTime): int
    requires ValidDateTime(dt)
  {
    var days := Ordinal(dt.year, dt.month, dt.day) - EPOCH_ORDINAL;
    var seconds := days * 86400 + dt.hour * 3600 + dt.minute * 60 + dt.second;
    seconds * MICROS_PER_SECOND + dt.microsecond - dt.utcOffset
  }

  /**
   * Whole seconds nearest to a microsecond count; a count exactly half-way
   * between two seconds goes to the even one.
   */
  function RoundToSeconds(us: int): (t: int)
    ensures -500000 <= us - t * MICROS_PER_SECOND <= 500000
    ensures us - t * MICROS_PER_SECOND == 500000 ==> t % 2 == 0
    ensures us - t * MICROS_PER_SECOND == -500000 ==> t % 2 == 0
  {
    var q, r := us / MICROS_PER_SECOND, us % MICROS_PER_SECOND;
    if r < 500000 then q
    else if r > 500000 then q + 1
    else if q % 2 == 0 then q
    else q + 1
  }

  /** Those properties leave no choice: half-even rounding is unique. */
  lemma RoundToSecondsUnique(us: int, t: int)
    requires -500000 <= us - t * MICROS_PER_SECOND <= 500000
    requires us - t * MICROS_PER_SECOND == 500000 ==> t % 2 == 0
    requires us - t * MICROS_PER_SECOND == -500000 ==> t % 2 == 0
    ensures t == RoundToSeconds(us)
  {
  }

  /** `int(round(dt.timestamp()))` */
  function Timestamp(dt: DateTime): int
    requires ValidDateTime(dt)
  {
    RoundToSeconds(EpochMicros(dt))
  }

  // ---------------------------------------------------------------------------
  // Parsing '%Y-%m-%dT%H:%M:%S.%f%z'

  /** A parsed number and the text after it. */
  datatype Field = Field(value: int, rest: string)

  /** The longest run of digits at the start of `s`, and what follows it. */
  function SpanDigits(s: string): (r: (string, string))
    ensures r.0 + r.1 == s && AllDigits(r.0)
    ensures r.1 == [] || !IsDigit(r.1[0])
  {
    if s != [] && IsDigit(s[0]) then
      var r := SpanDigits(s[1..]);
      assert s == [s[0]] + s[1..];
      ([s[0]] + r.0, r.1)
    else ([], s)
  }

  function Pow10(n: nat): (p: nat)
    ensures p >= 1
  {
    if n == 0 then 1 else 10 * Pow10(n - 1)
  }

  /** A fraction of a second written with up to six digits, in microseconds: the digits padded on the right with zeros. */
  function FractionMicros(digits: string): int
    requires AllDigits(digits) && |digits| <= 6
  {
    DigitsValue(digits) * Pow10(6 - |digits|)
  }

  /**
   * A numeric directive: the digits up to the next non-digit, which must be
   * `minLen` to `maxLen` of them and denote a value from `lo` to `hi`. The
   * next directive starts with a non-digit, so for ASCII digits this is what
   * the directive's regular expression lets through; the other Unicode
   * decimal digits, which `\d` also matches, are not read.
   */
  function NumberField(s: string, minLen: nat, maxLen: nat, lo: int, hi: int): Option<Field> {
    var (digits, rest) := SpanDigits(s);
    if minLen <= |digits| <= maxLen && lo <= DigitsValue(digits) <= hi then
      Some(Field(DigitsValue(digits), rest))
    else None
  }

  /** `%d` also accepts a space followed by one digit. */
  function DayField(s: string): Option<Field> {
    if s != [] && s[0] == ' ' then NumberField(s[1..], 1, 1, 1, 9) else NumberField(s, 1, 2, 1, 31)
  }

  /** `%f`: one to six digits, padded on the right with zeros to microseconds. */
  function FractionField(s: string): Option<Field> {
    var (digits, rest) := SpanDigits(s);
    if 1 <= |digits| <= 6 then Some(Field(FractionMicros(digits), rest)) else None
  }

  /** A literal character of the format; the match ignores case, so `T` also matches `t`. */
  function Literal(s: string, c: char): Option<string> {
    if s != [] && LowerChar(s[0]) == LowerChar(c) then Some(s[1..]) else None
  }

  /** Two digits, the first of them 0 to 5, as `%z` takes minutes and seconds. */
  predicate SexagesimalAt(s: string) {
    |s| >= 2 && '0' <= s[0] <= '5' && IsDigit(s[1])
  }

  /**
   * The seconds part of an offset, `:SS` or `SS` (the same separator as between
   * hours and minutes) optionally followed by `.` and one to six digits; in
   * microseconds.
   */
  function OffsetSeconds(u: string, colon: bool): Option<int> {
    if u == [] then Some(0)
    else if colon && u[0] != ':' then None
    else
      var v := if colon then u[1..] else u;
      if SexagesimalAt(v) then
        var seconds := DigitsValue(v[..2]) * MICROS_PER_SECOND;
        var w := v[2..];
        if w == [] then Some(seconds)
        else if w[0] == '.' then
          var (digits, rest) := SpanDigits(w[1..]);
          if 1 <= |digits| <= 6 && rest == [] then
            Some(seconds + FractionMicros(digits))
          else None
        else None
      else None
  }

  /** An offset of the given hours, minutes and seconds (in microseconds) east or west of UTC. */
  function SignedOffset(west: bool, hours: int, minutes: int, seconds: int): int {
    var magnitude := (hours * 3600 + minutes * 60) * MICROS_PER_SECOND + seconds;
    if west then -magnitude else magnitude
  }

  /**
   * `%z` at the end of the text: `Z`, or a sign, two digits of hours and two of
   * minutes with an optional `:` between them, and optional seconds; in
   * microseconds east of UTC.
   */
  function UtcOffsetField(z: string): Option<int> {
    if z == "Z" then Some(0)
    else if |z| >= 5 && (z[0] == '+' || z[0] == '-') && IsDigit(z[1]) && IsDigit(z[2]) then
      var hours := DigitsValue(z[1..3]);
      var colon := z[3] == ':';
      var t := if colon then z[4..] else z[3..];
      if SexagesimalAt(t) then
        var minutes := DigitsValue(t[..2]);
        var seconds :- OffsetSeconds(t[2..], colon);
        Some(SignedOffset(z[0] == '-', hours, minutes, seconds))
      else None
    else None
  }

  /** A literal separator of the format followed by a numeric directive. */
  function SeparatedField(s: string, c: char, minLen: nat, maxLen: nat, lo: int, hi: int): Option<Field> {
    var t :- Literal(s, c);
    NumberField(t, minLen, maxLen, lo, hi)
  }

  /** The date directives `%Y-%m-%d`: year, month, day and the text after them. */
  function ParseDate(s: string): Option<(int, int, int, string)> {
    var year :- NumberField(s, 4, 4, 0, 9999);
    var month :- SeparatedField(year.rest, '-', 1, 2, 1, 12);
    var s2 :- Literal(month.rest, '-');
    var day :- DayField(s2);
    Some((year.value, month.value, day.value, day.rest))
  }

  /** The time directives `T%H:%M:%S.%f`: hour, minute, second, microseconds and the text after them. */
  function ParseTime(s: string): Option<(int, int, int, int, string)> {
    var hour :- SeparatedField(s, 'T', 1, 2, 0, 23);
    var minute :- SeparatedField(hour.rest, ':', 1, 2, 0, 59);
    var second :- SeparatedField(minute.rest, ':', 1, 2, 0, 61);
    var s6 :- Literal(second.rest, '.');
    var fraction :- FractionField(s6);
    Some((hour.value, minute.value, second.value, fraction.value, fraction.rest))
  }

  /**
   * Parsing with the format `%Y-%m-%dT%H:%M:%S.%f%z`, numbers in ASCII digits;
   * `None` where Python raises `ValueError` (no match, text left over, a day the
   * month lacks, second 60 or 61, year 0, an offset of a day or more), and also
   * for numbers written in other Unicode decimal digits, which Python accepts.
   */
  function ParseStateChangeTime(s: string): (r: Option<DateTime>)
    ensures r.Some? ==> ValidDateTime(r.value)
  {
    var date :- ParseDate(s);
    var time :- ParseTime(date.3);
    var offset :- UtcOffsetField(time.4);
    var dt := DateTime(date.0, date.1, date.2, time.0, time.1, time.2, time.3, offset);
    if ValidDateTime(dt) then Some(dt) else None
  }

  // ---------------------------------------------------------------------------
  // Writing a date-time back, and reading it again

  /** `n` as exactly `width` decimal digits, zeros first. */
  function Pad(n: nat, width: nat): (s: string)
    requires n < Pow10(width)
    ensures |s| == width && AllDigits(s) && DigitsValue(s) == n
  {
    if width == 0 then []
    else
      var s := Pad(n / 10, width - 1) + [DigitChar(n % 10)];
      assert s[..|s| - 1] == Pad(n / 10, width - 1);
      s
  }

  /** The seconds of an offset as `datetime.isoformat` writes them: nothing, `:SS` or `:SS.ffffff`. */
  function OffsetSecondsText(seconds: nat, micros: nat): string
    requires seconds < 60 && micros < MICROS_PER_SECOND
  {
    if seconds == 0 && micros == 0 then ""
    else ":" + Pad(seconds, 2) + (if micros == 0 then "" else "." + Pad(micros, 6))
  }

  /** An offset as `datetime.isoformat` writes it: `+HH:MM` and then its seconds. */
  function FormatUtcOffset(offset: int): string
    requires -MICROS_PER_DAY < offset < MICROS_PER_DAY
  {
    var m := if offset < 0 then -offset else offset;
    [if offset < 0 then '-' else '+'] + (Pad(m / 3600000000, 2) + (":" + (Pad((m / 60000000) % 60, 2)
      + OffsetSecondsText((m / MICROS_PER_SECOND) % 60, m % MICROS_PER_SECOND))))
  }

  /** The date and time of `dt` written `YYYY-MM-DDTHH:MM:SS.` and then the given fraction and offset. */
  function DateTimeText(dt: DateTime, fraction: string, offset: string): string
    requires ValidDateTime(dt)
  {
    Pad(dt.year, 4) + ("-" + (Pad(dt.month, 2) + ("-" + (Pad(dt.day, 2)
      + ("T" + (Pad(dt.hour, 2) + (":" + (Pad(dt.minute, 2) + (":" + (Pad(dt.second, 2)
      + ("." + (fraction + offset))))))))))))
  }

  /** A valid date-time in the time stamp format, with all six digits of the fraction. */
  function FormatDateTime(dt: DateTime): string
    requires ValidDateTime(dt)
  {
    DateTimeText(dt, Pad(dt.microsecond, 6), FormatUtcOffset(dt.utcOffset))
  }

  lemma {:induction false} SpanDigitsOf(digits: string, rest: string)
    requires AllDigits(digits)
    requires rest == [] || !IsDigit(rest[0])
    ensures SpanDigits(digits + rest) == (digits, rest)
  {
    if digits != [] {
      assert (digits + rest)[1..] == digits[1..] + rest;
      SpanDigitsOf(digits[1..], rest);
      assert [digits[0]] + digits[1..] == digits;
    } else {
      assert digits + rest == rest;
    }
  }

  lemma NumberFieldOf(digits: string, rest: string, minLen: nat, maxLen: nat, lo: int, hi: int)
    requires AllDigits(digits) && minLen <= |digits| <= maxLen && lo <= DigitsValue(digits) <= hi
    requires rest == [] || !IsDigit(rest[0])
    ensures NumberField(digits + rest, minLen, maxLen, lo, hi) == Some(Field(DigitsValue(digits), rest))
  {
    SpanDigitsOf(digits, rest);
  }

  /** Splits an offset magnitude into hours, minutes, seconds and microseconds and back. */
  lemma OffsetParts(m: int)
    requires 0 <= m < MICROS_PER_DAY
    ensures m / 3600000000 < 24
    ensures ((m / 3600000000) * 3600 + ((m / 60000000) % 60) * 60) * MICROS_PER_SECOND
            + ((m / MICROS_PER_SECOND) % 60) * MICROS_PER_SECOND + m % MICROS_PER_SECOND == m
  {
    var s := m / MICROS_PER_SECOND;
    assert m == s * MICROS_PER_SECOND + m % MICROS_PER_SECOND;
    assert m / 60000000 == s / 60;
    assert m / 3600000000 == s / 3600;
    assert s == (s / 3600) * 3600 + ((s / 60) % 60) * 60 + s % 60;
  }

  lemma OffsetSecondsRoundTrip(seconds: nat, micros: nat)
    requires seconds < 60 && micros < MICROS_PER_SECOND
    ensures OffsetSeconds(OffsetSecondsText(seconds, micros), true) == Some(seconds * MICROS_PER_SECOND + micros)
  {
    if seconds != 0 || micros != 0 {
      var ss := Pad(seconds, 2);
      assert Pow10(2) == 100 && Pow10(0) == 1;
      TwoDigits(ss);
      if micros == 0 {
        assert OffsetSecondsText(seconds, micros) == ":" + ss;
        OffsetWholeSecondsOf(ss);
      } else {
        assert OffsetSecondsText(seconds, micros) == ":" + ss + ("." + Pad(micros, 6));
        OffsetFractionSecondsOf(ss, Pad(micros, 6));
      }
    }
  }

  /** `%z` reads the seconds of an offset written `:SS`. */
  lemma OffsetWholeSecondsOf(ss: string)
    requires AllDigits(ss) && |ss| == 2 && '0' <= ss[0] <= '5'
    ensures OffsetSeconds(":" + ss, true) == Some(DigitsValue(ss) * MICROS_PER_SECOND)
  {
    var u := ":" + ss;
    assert u[1..] == ss && ss[..2] == ss && ss[2..] == [];
  }

  /** `%z` reads the seconds of an offset written `:SS.` and a fraction. */
  lemma OffsetFractionSecondsOf(ss: string, fraction: string)
    requires AllDigits(ss) && |ss| == 2 && '0' <= ss[0] <= '5'
    requires AllDigits(fraction) && 1 <= |fraction| <= 6
    ensures OffsetSeconds(":" + ss + ("." + fraction), true)
      == Some(DigitsValue(ss) * MICROS_PER_SECOND + FractionMicros(fraction))
  {
    var frac := "." + fraction;
    var u := ":" + ss + frac;
    assert u[1..] == ss + frac;
    assert (ss + frac)[..2] == ss && (ss + frac)[2..] == frac;
    assert (ss + frac)[0] == ss[0] && (ss + frac)[1] == ss[1];
    assert SexagesimalAt(ss + frac);
    assert frac[1..] == fraction + [];
    SpanDigitsOf(fraction, []);
  }

  lemma TwoDigits(s: string)
    requires AllDigits(s) && |s| == 2
    ensures DigitsValue(s) == DigitValue(s[0]) * 10 + DigitValue(s[1])
  {
    var p := s[..1];
    assert p[..0] == [] && p[0] == s[0];
    assert DigitsValue(p) == DigitValue(s[0]);
  }

  /** Where the pieces of a written offset sit in its text. */
  lemma OffsetTextShape(z: string, sign: char, hh: string, mm: string, tail: string)
    requires |hh| == 2 && |mm| == 2
    requires z == [sign] + (hh + (":" + (mm + tail)))
    ensures |z| >= 6 && z[0] == sign && z[1] == hh[0] && z[2] == hh[1] && z[3] == ':'
    ensures z[4] == mm[0] && z[5] == mm[1]
    ensures z[1..3] == hh && z[4..6] == mm && z[6..] == tail
  {
  }

  /** `%z` reads a sign, two digits of hours, `:`, two digits of minutes and the seconds. */
  lemma UtcOffsetFieldOf(sign: char, hh: string, mm: string, tail: string, seconds: int)
    requires sign == '+' || sign == '-'
    requires AllDigits(hh) && |hh| == 2
    requires AllDigits(mm) && |mm| == 2 && DigitsValue(mm) < 60
    requires OffsetSeconds(tail, true) == Some(seconds)
    ensures UtcOffsetField([sign] + (hh + (":" + (mm + tail))))
      == Some(SignedOffset(sign == '-', DigitsValue(hh), DigitsValue(mm), seconds))
  {
    var z := [sign] + (hh + (":" + (mm + tail)));
    OffsetTextShape(z, sign, hh, mm, tail);
    TwoDigits(mm);
    UtcOffsetFieldSteps(z, DigitsValue(hh), DigitsValue(mm), seconds);
  }

  lemma UtcOffsetFieldSteps(z: string, hours: int, minutes: int, seconds: int)
    requires |z| >= 6 && (z[0] == '+' || z[0] == '-') && IsDigit(z[1]) && IsDigit(z[2]) && z[3] == ':'
    requires '0' <= z[4] <= '5' && IsDigit(z[5])
    requires AllDigits(z[1..3]) && AllDigits(z[4..6])
    requires DigitsValue(z[1..3]) == hours && DigitsValue(z[4..6]) == minutes
    requires OffsetSeconds(z[6..], true) == Some(seconds)
    ensures UtcOffsetField(z) == Some(SignedOffset(z[0] == '-', hours, minutes, seconds))
  {
    assert z[4..][..2] == z[4..6] && z[4..][2..] == z[6..];
    assert SexagesimalAt(z[4..]);
  }

  /** Reading a written offset gives it back. */
  lemma UtcOffsetRoundTrip(offset: int)
    requires -MICROS_PER_DAY < offset < MICROS_PER_DAY
    ensures UtcOffsetField(FormatUtcOffset(offset)) == Some(offset)
  {
    var m := if offset < 0 then -offset else offset;
    var hours, minutes := m / 3600000000, (m / 60000000) % 60;
    var seconds, micros := (m / MICROS_PER_SECOND) % 60, m % MICROS_PER_SECOND;
    OffsetFromParts(offset);
    OffsetSecondsRoundTrip(seconds, micros);
    var sign := if offset < 0 then '-' else '+';
    var tail := OffsetSecondsText(seconds, micros);
    var hh, mm := Pad(hours, 2), Pad(minutes, 2);
    assert Pow10(2) == 100;
    assert DigitsValue(hh) == hours && DigitsValue(mm) == minutes;
    var z := [sign] + (hh + (":" + (mm + tail)));
    assert FormatUtcOffset(offset) == z;
    UtcOffsetFieldOf(sign, hh, mm, tail, seconds * MICROS_PER_SECOND + micros);
    calc {
      UtcOffsetField(FormatUtcOffset(offset));
      UtcOffsetField(z);
      Some(SignedOffset(sign == '-', DigitsValue(hh), DigitsValue(mm), seconds * MICROS_PER_SECOND + micros));
      { assert (sign == '-') == (offset < 0); }
      Some(SignedOffset(offset < 0, hours, minutes, seconds * MICROS_PER_SECOND + micros));
      Some(offset);
    }
  }

  /** An offset is the signed sum of its hours, minutes, seconds and microseconds. */
  lemma OffsetFromParts(offset: int)
    requires -MICROS_PER_DAY < offset < MICROS_PER_DAY
    ensures var m := if offset < 0 then -offset else offset;
      && m / 3600000000 < 24
      && SignedOffset(offset < 0, m / 3600000000, (m / 60000000) % 60,
                      ((m / MICROS_PER_SECOND) % 60) * MICROS_PER_SECOND + m % MICROS_PER_SECOND) == offset
  {
    var m := if offset < 0 then -offset else offset;
    OffsetParts(m);
  }

  lemma SeparatedFieldOf(c: char, digits: string, rest: string, minLen: nat, maxLen: nat, lo: int, hi: int)
    requires AllDigits(digits) && minLen <= |digits| <= maxLen && lo <= DigitsValue(digits) <= hi
    requires rest == [] || !IsDigit(rest[0])
    ensures SeparatedField([c] + (digits + rest), c, minLen, maxLen, lo, hi) == Some(Field(DigitsValue(digits), rest))
  {
    assert ([c] + (digits + rest))[1..] == digits + rest;
    NumberFieldOf(digits, rest, minLen, maxLen, lo, hi);
  }

  lemma FractionFieldOf(digits: string, rest: string)
    requires AllDigits(digits) && 1 <= |digits| <= 6
    requires rest == [] || !IsDigit(rest[0])
    ensures FractionField(digits + rest) == Some(Field(FractionMicros(digits), rest))
  {
    SpanDigitsOf(digits, rest);
  }

  lemma ParseDateOf(yyyy: string, mm: string, dd: string, rest: string)
    requires AllDigits(yyyy) && |yyyy| == 4 && 1 <= DigitsValue(yyyy) <= 9999
    requires AllDigits(mm) && |mm| == 2 && 1 <= DigitsValue(mm) <= 12
    requires AllDigits(dd) && |dd| == 2 && 1 <= DigitsValue(dd) <= 31
    requires rest == [] || !IsDigit(rest[0])
    ensures ParseDate(yyyy + ("-" + (mm + ("-" + (dd + rest)))))
      == Some((DigitsValue(yyyy), DigitsValue(mm), DigitsValue(dd), rest))
  {
    var r3 := "-" + (dd + rest);
    NumberFieldOf(yyyy, "-" + (mm + r3), 4, 4, 0, 9999);
    SeparatedFieldOf('-', mm, r3, 1, 2, 1, 12);
    assert r3[1..] == dd + rest;
    NumberFieldOf(dd, rest, 1, 2, 1, 31);
  }

  lemma ParseTimeOf(hh: string, mm: string, ss: string, fraction: string, rest: string)
    requires AllDigits(hh) && |hh| == 2 && DigitsValue(hh) < 24
    requires AllDigits(mm) && |mm| == 2 && DigitsValue(mm) < 60
    requires AllDigits(ss) && |ss| == 2 && DigitsValue(ss) < 60
    requires AllDigits(fraction) && 1 <= |fraction| <= 6
    requires rest == [] || !IsDigit(rest[0])
    ensures ParseTime("T" + (hh + (":" + (mm + (":" + (ss + ("." + (fraction + rest))))))))
      == Some((DigitsValue(hh), DigitsValue(mm), DigitsValue(ss), FractionMicros(fraction), rest))
  {
    var r11 := "." + (fraction + rest);
    var r9 := ":" + (ss + r11);
    var r7 := ":" + (mm + r9);
    var s := "T" + (hh + r7);
    SeparatedFieldOf('T', hh, r7, 1, 2, 0, 23);
    SeparatedFieldOf(':', mm, r9, 1, 2, 0, 59);
    SeparatedFieldOf(':', ss, r11, 1, 2, 0, 61);
    assert Literal(r11, '.') == Some(fraction + rest);
    FractionFieldOf(fraction, rest);
    var f := FractionMicros(fraction);
    ParseTimeSteps(s, Field(DigitsValue(hh), r7), Field(DigitsValue(mm), r9), Field(DigitsValue(ss), r11),
                   Field(f, rest));
  }

  lemma ParseTimeSteps(s: string, hour: Field, minute: Field, second: Field, fraction: Field)
    requires SeparatedField(s, 'T', 1, 2, 0, 23) == Some(hour)
    requires SeparatedField(hour.rest, ':', 1, 2, 0, 59) == Some(minute)
    requires SeparatedField(minute.rest, ':', 1, 2, 0, 61) == Some(second)
    requires second.rest != [] && second.rest[0] == '.'
    requires FractionField(second.rest[1..]) == Some(fraction)
    ensures ParseTime(s) == Some((hour.value, minute.value, second.value, fraction.value, fraction.rest))
  {
  }

  /**
   * The parser reads the fields of a time stamp written with two-digit month,
   * day, hour, minute and second, any one to six digits of fraction and any
   * offset `%z` accepts.
   */
  lemma ParseFields(dt: DateTime, fraction: string, offset: string)
    requires ValidDateTime(dt)
    requires AllDigits(fraction) && 1 <= |fraction| <= 6
    requires dt.microsecond == FractionMicros(fraction)
    requires UtcOffsetField(offset) == Some(dt.utcOffset)
    ensures ParseStateChangeTime(DateTimeText(dt, fraction, offset)) == Some(dt)
  {
    var time := "T" + (Pad(dt.hour, 2) + (":" + (Pad(dt.minute, 2) + (":" + (Pad(dt.second, 2) + ("." + (fraction + offset)))))));
    assert DateTimeText(dt, fraction, offset) == Pad(dt.year, 4) + ("-" + (Pad(dt.month, 2) + ("-" + (Pad(dt.day, 2) + time))));
    DayAtMost31(dt.year, dt.month);
    ParseDateOf(Pad(dt.year, 4), Pad(dt.month, 2), Pad(dt.day, 2), time);
    OffsetStartsWithNonDigit(offset);
    ParseTimeOf(Pad(dt.hour, 2), Pad(dt.minute, 2), Pad(dt.second, 2), fraction, offset);
    ParseSteps(DateTimeText(dt, fraction, offset), (dt.year, dt.month, dt.day, time),
               (dt.hour, dt.minute, dt.second, dt.microsecond, offset), dt);
  }

  lemma DayAtMost31(y: int, m: int)
    requires 1 <= m <= 12
    ensures DaysInMonth(y, m) <= 31
  {
  }

  /** Whatever `%z` accepts starts with `Z` or a sign, so it ends the digits before it. */
  lemma OffsetStartsWithNonDigit(offset: string)
    requires UtcOffsetField(offset).Some?
    ensures offset != [] && !IsDigit(offset[0])
  {
  }

  lemma ParseSteps(s: string, date: (int, int, int, string), time: (int, int, int, int, string), dt: DateTime)
    requires ParseDate(s) == Some(date) && ParseTime(date.3) == Some(time)
    requires UtcOffsetField(time.4) == Some(dt.utcOffset) && ValidDateTime(dt)
    requires dt == DateTime(date.0, date.1, date.2, time.0, time.1, time.2, time.3, dt.utcOffset)
    ensures ParseStateChangeTime(s) == Some(dt)
  {
  }

  /** Reading a written date-time gives it back. */
  lemma ParseFormatRoundTrip(dt: DateTime)
    requires ValidDateTime(dt)
    ensures ParseStateChangeTime(FormatDateTime(dt)) == Some(dt)
  {
    UtcOffsetRoundTrip(dt.utcOffset);
    ParseFields(dt, Pad(dt.microsecond, 6), FormatUtcOffset(dt.utcOffset));
  }

  /** The example's date and time fields written with their leading zeros. */
  lemma ExamplePads()
    ensures Pad(2023, 4) == "2023" && Pad(1, 2) == "01" && Pad(15, 2) == "15"
    ensures Pad(10, 2) == "10" && Pad(30, 2) == "30" && Pad(0, 2) == "00"
  {
    assert Pad(2023, 4) == Pad(202, 3) + "3";
    assert Pad(202, 3) == Pad(20, 2) + "2";
    assert Pad(20, 2) == Pad(2, 1) + "0";
    assert Pad(15, 2) == Pad(1, 1) + "5";
    assert Pad(10, 2) == Pad(1, 1) + "0";
    assert Pad(30, 2) == Pad(3, 1) + "0";
  }

  // Proof helpers: the example's text split into the pieces `DateTimeText`
  // concatenates, so that the solver need not take the literal apart itself.

  lemma ExampleTextPieces(offset: string)
    ensures DateTimeText(DateTime(2023, 1, 15, 10, 30, 0, 0, 0), "000", offset)
      == "2023" + ("-" + ("01" + ("-" + ("15" + ("T" + ("10" + (":" + ("30" + (":" + ("00" + ("." + ("000" + offset))))))))))))
  {
    ExamplePads();
  }

  lemma ExampleLiteral(offset: string)
    ensures "2023" + ("-" + ("01" + ("-" + ("15" + ("T" + ("10" + (":" + ("30" + (":" + ("00" + ("." + ("000" + offset))))))))))))
      == "2023-01-15T10:30:00.000" + offset
  {
  }

  lemma ExampleText(s: string, offset: string)
    requires s == "2023-01-15T10:30:00.000" + offset
    ensures s == DateTimeText(DateTime(2023, 1, 15, 10, 30, 0, 0, 0), "000", offset)
  {
    ExampleTextPieces(offset);
    ExampleLiteral(offset);
  }

  /** A time stamp written with a millisecond fraction of `000` is read back. */
  lemma ParseWholeSeconds(s: string, dt: DateTime, offset: string)
    requires ValidDateTime(dt) && dt.microsecond == 0
    requires UtcOffsetField(offset) == Some(dt.utcOffset)
    requires s == DateTimeText(dt, "000", offset)
    ensures ParseStateChangeTime(s) == Some(dt)
  {
    ExampleFraction();
    ParseFields(dt, "000", offset);
  }

  lemma ExampleFraction()
    ensures AllDigits("000") && FractionMicros("000") == 0
  {
    assert "000"[..2] == "00" && "00"[..1] == "0" && "0"[..0] == [];
  }

  /** 2023-01-15 10:30 UTC is 1673778600 seconds after the epoch. */
  lemma ExampleEpoch()
    ensures Timestamp(DateTime(2023, 1, 15, 10, 30, 0, 0, 0)) == 1673778600
  {
    assert Ordinal(2023, 1, 15) - EPOCH_ORDINAL == 19372;
    assert EpochMicros(DateTime(2023, 1, 15, 10, 30, 0, 0, 0)) == 1673778600 * MICROS_PER_SECOND;
  }

  lemma ExampleOffset()
    ensures UtcOffsetField("+0000") == Some(0)
  {
    var z := "+0000";
    assert z[1..3] == "00" && z[3..] == "00" && z[3..][..2] == "00" && z[3..][2..] == [];
    assert "00"[..1] == "0" && "0"[..0] == [];
    assert DigitsValue("00") == 0;
  }

  lemma ExampleValid()
    ensures ValidDateTime(DateTime(2023, 1, 15, 10, 30, 0, 0, 0))
  {
  }

  /** 2023-01-15 10:30:00.000 followed by any text `%z` reads as UTC is read back as that instant. */
  lemma ParseExample(s: string, offset: string)
    requires UtcOffsetField(offset) == Some(0)
    requires s == "2023-01-15T10:30:00.000" + offset
    ensures ParseStateChangeTime(s) == Some(DateTime(2023, 1, 15, 10, 30, 0, 0, 0))
  {
    ExampleValid();
    ExampleText(s, offset);
    ParseWholeSeconds(s, DateTime(2023, 1, 15, 10, 30, 0, 0, 0), offset);
  }

  /**
   * CloudWatch writes its state-change time with milliseconds and a `+0000`
   * offset; 2023-01-15 10:30 UTC is 1673778600 seconds after the epoch.
   */
  lemma StateChangeTimeExample(s: string)
    requires s == "2023-01-15T10:30:00.000+0000"
    ensures ParseStateChangeTime(s) == Some(DateTime(2023, 1, 15, 10, 30, 0, 0, 0))
    ensures Timestamp(DateTime(2023, 1, 15, 10, 30, 0, 0, 0)) == 1673778600
  {
    ExampleOffset();
    assert s == "2023-01-15T10:30:00.000" + "+0000";
    ParseExample(s, "+0000");
    ExampleEpoch();
  }

  lemma ExampleColonOffset()
    ensures UtcOffsetField("+00:00") == Some(0)
  {
    assert DigitsValue("00") == 0 by { assert "00"[..1] == "0" && "0"[..0] == []; }
    assert OffsetSeconds("", true) == Some(0);
    UtcOffsetFieldOf('+', "00", "00", "", 0);
    assert [('+')] + ("00" + (":" + ("00" + ""))) == "+00:00";
  }

  /** The same instant written with a `+00:00` offset, as `datetime.isoformat` would. */
  lemma StateChangeTimeColonExample(s: string)
    requires s == "2023-01-15T10:30:00.000+00:00"
    ensures ParseStateChangeTime(s) == Some(DateTime(2023, 1, 15, 10, 30, 0, 0, 0))
  {
    ExampleColonOffset();
    assert s == "2023-01-15T10:30:00.000" + "+00:00";
    ParseExample(s, "+00:00");
  }
}
