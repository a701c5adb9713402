/** Python's naive `datetime` as far as the date predicates use it: an
    instant is a count of microseconds since 0001-01-01 00:00:00, the range
    of `datetime.min` .. `datetime.max`; subtracting a `timedelta` of whole
    days, with the overflow checks CPython makes; and `str(datetime)`. */
module DateTime {
  import opened Wrappers
  import Text

  const DayMicros: int := 86_400_000_000

  /** Days from 0001-01-01 to 9999-12-31 inclusive. */
  const DaysInRange: int := 3_652_059

  /** `datetime.max`: 9999-12-31 23:59:59.999999. */
  const MaxMicros: int := DaysInRange * DayMicros - 1

  /** Largest magnitude of `timedelta.days`. */
  const MaxDeltaDays: int := 999_999_999

  type Instant = t: int | 0 <= t <= MaxMicros

  /** The C `int` that `timedelta` converts its day count into. */
  predicate FitsCInt(n: int) {
    -0x8000_0000 <= n < 0x8000_0000
  }

  function Overflow(message: string): (r: Result<Instant>)
    ensures r.Raise? && r.error.OverflowError?
  {
    Raise(OverflowError(message))
  }

  /** `instant - timedelta(days=days)`. Building the `timedelta` raises
      OverflowError when `days` does not fit a C int or exceeds
      `MaxDeltaDays` in magnitude; the subtraction raises OverflowError
      when the result leaves the `datetime` range. */
  function MinusDays(instant: Instant, days: int): (r: Result<Instant>)
    ensures r.Ok? <==> -MaxDeltaDays <= days <= MaxDeltaDays && 0 <= instant - days * DayMicros <= MaxMicros
    ensures r.Ok? ==> r.value == instant - days * DayMicros
    ensures r.Raise? ==> r.error.OverflowError?
  {
    if !FitsCInt(days) then
      Overflow("Python int too large to convert to C int")
    else if days < -MaxDeltaDays || MaxDeltaDays < days then
      Overflow("days=" + Text.IntToString(days) + "; must have magnitude <= 999999999")
    else
      var t := instant - days * DayMicros;
      if 0 <= t <= MaxMicros then Ok(t) else Overflow("date value out of range")
  }

  // ---------------------------------------------------------------
  // str(datetime): "YYYY-MM-DD HH:MM:SS", plus ".ffffff" when the
  // microsecond is not zero

  predicate IsLeap(year: int) {
    year % 4 == 0 && (year % 100 != 0 || year % 400 == 0)
  }

  function DaysInYear(year: int): nat {
    if IsLeap(year) then 366 else 365
  }

  function DaysInMonth(year: int, month: int): nat {
    if month == 2 then (if IsLeap(year) then 29 else 28)
    else if month == 4 || month == 6 || month == 9 || month == 11 then 30
    else 31
  }

  /** The days of the years `from` up to, but not including, `to`. */
  function DaysBetween(from: int, to: int): nat
    decreases to - from
  {
    if to <= from then 0 else DaysInYear(from) + DaysBetween(from + 1, to)
  }

  /** The year that day `day` (counted from January 1st of `year`) falls
      in, and the day's index within that year: the whole years before it
      and the index add up to `day`. */
  function YearOf(day: nat, year: int): (r: (int, nat))
    ensures year <= r.0 && r.1 < DaysInYear(r.0)
    ensures DaysBetween(year, r.0) + r.1 == day
    decreases day
  {
    if day < DaysInYear(year) then (year, day) else YearOf(day - DaysInYear(year), year + 1)
  }

  /** The days of the months from `month` to December of `year`. */
  function DaysFrom(year: int, month: int): nat
    requires 1 <= month <= 12
    decreases 12 - month
  {
    DaysInMonth(year, month) + if month == 12 then 0 else DaysFrom(year, month + 1)
  }

  /** The months of a year hold its days. */
  lemma MonthsFillYear(year: int)
    ensures DaysFrom(year, 1) == DaysInYear(year)
  {
    assert DaysFrom(year, 10) == 92;
    assert DaysFrom(year, 7) == 184;
    assert DaysFrom(year, 4) == 275;
  }

  /** The days of the months `from` up to, but not including, `to` of
      `year`. */
  function DaysOfMonths(year: int, from: int, to: int): nat
    decreases to - from
  {
    if to <= from then 0 else DaysInMonth(year, from) + DaysOfMonths(year, from + 1, to)
  }

  /** The month and day of month of day `dayOfYear` (counted from the
      first of `month`): the whole months before it and the day of month
      add up to `dayOfYear` + 1, and the day lies within its month when
      `dayOfYear` lies within the rest of the year. */
  function MonthOf(year: int, dayOfYear: nat, month: int): (r: (int, int))
    requires 1 <= month <= 12
    ensures month <= r.0 <= 12 && 1 <= r.1
    ensures DaysOfMonths(year, month, r.0) + r.1 == dayOfYear + 1
    ensures dayOfYear < DaysFrom(year, month) ==> r.1 <= DaysInMonth(year, r.0)
    decreases 12 - month
  {
    if month == 12 || dayOfYear < DaysInMonth(year, month) then (month, dayOfYear + 1)
    else MonthOf(year, dayOfYear - DaysInMonth(year, month), month + 1)
  }

  /** The days before January 1st of `year`, in closed form. */
  function DaysBefore(year: int): int {
    var y := year - 1;
    365 * y + y / 4 - y / 100 + y / 400
  }

  lemma {:induction false} DaysBetweenSplit(a: int, m: int, b: int)
    requires a <= m <= b
    ensures DaysBetween(a, b) == DaysBetween(a, m) + DaysBetween(m, b)
    decreases m - a
  {
    if a < m {
      DaysBetweenSplit(a + 1, m, b);
    }
  }

  lemma DaysBeforeStep(year: int)
    requires 1 <= year
    ensures DaysBefore(year + 1) == DaysBefore(year) + DaysInYear(year)
  {
    var y := year - 1;
    assert (y + 1) / 4 == y / 4 + (if year % 4 == 0 then 1 else 0);
    assert (y + 1) / 100 == y / 100 + (if year % 100 == 0 then 1 else 0);
    assert (y + 1) / 400 == y / 400 + (if year % 400 == 0 then 1 else 0);
  }

  lemma {:induction false} DaysBetweenIsDaysBefore(year: int)
    requires 1 <= year
    ensures DaysBetween(1, year) == DaysBefore(year)
    decreases year
  {
    if year > 1 {
      DaysBetweenIsDaysBefore(year - 1);
      DaysBetweenSplit(1, year - 1, year);
      DaysBeforeStep(year - 1);
    }
  }

  /** Every instant falls in a year of four digits. */
  lemma YearInRange(day: nat)
    requires day < DaysInRange
    ensures YearOf(day, 1).0 <= 9999
  {
    var y := YearOf(day, 1).0;
    if y > 9999 {
      DaysBetweenSplit(1, 10000, y);
      DaysBetweenIsDaysBefore(10000);
    }
  }

  /** A valid Gregorian date of the `datetime` range. */
  predicate IsDate(year: int, month: int, day: int) {
    1 <= year <= 9999 && 1 <= month <= 12 && 1 <= day <= DaysInMonth(year, month)
  }

  /** The days from 0001-01-01 to the date: `date.toordinal() - 1`. */
  function DayNumber(year: int, month: int, day: int): int {
    DaysBefore(year) + DaysOfMonths(year, 1, month) + day - 1
  }

  /** A valid time of day naming the second `seconds` of a day. */
  predicate IsClock(seconds: int, hour: int, minute: int, second: int) {
    0 <= hour < 24 && 0 <= minute < 60 && 0 <= second < 60 && 3600 * hour + 60 * minute + second == seconds
  }

  lemma MicrosOfDay(t: Instant)
    ensures (t % DayMicros) % 1_000_000 == t % 1_000_000
  {
    var q := t / DayMicros;
    assert t == (q * 86_400) * 1_000_000 + t % DayMicros;
  }

  predicate AllDigits(s: string) {
    forall i :: 0 <= i < |s| ==> Text.IsDigit(s[i])
  }

  /** Three runs of digits joined by a separator: the separators sit
      right after the first and the second run, digits everywhere else. */
  lemma {:induction false} JoinLayout(a: string, sep: char, b: string, c: string)
    requires AllDigits(a) && AllDigits(b) && AllDigits(c)
    ensures var s := a + [sep] + b + [sep] + c;
      && |s| == |a| + |b| + |c| + 2
      && s[|a|] == sep && s[|a| + 1 + |b|] == sep
      && s[0..|a|] == a && s[|a| + 1..|a| + 1 + |b|] == b && s[|a| + 2 + |b|..|s|] == c
      && forall i :: 0 <= i < |s| && i != |a| && i != |a| + 1 + |b| ==> Text.IsDigit(s[i])
  {
    var s := a + [sep] + b + [sep] + c;
    forall i | 0 <= i < |s| && i != |a| && i != |a| + 1 + |b|
      ensures Text.IsDigit(s[i])
    {
      if i < |a| {
        assert s[i] == a[i];
      } else if i < |a| + 1 + |b| {
        assert s[i] == b[i - |a| - 1];
      } else {
        assert s[i] == c[i - |a| - 2 - |b|];
      }
    }
  }

  /** The date, a space, the time, then the fraction if any. */
  lemma {:induction false} StampLayout(date: string, time: string, frac: string)
    requires |date| == 10 && date[4] == '-' && date[7] == '-'
    requires forall i :: 0 <= i < 10 && i != 4 && i != 7 ==> Text.IsDigit(date[i])
    requires |time| == 8 && time[2] == ':' && time[5] == ':'
    requires forall i :: 0 <= i < 8 && i != 2 && i != 5 ==> Text.IsDigit(time[i])
    requires frac == [] || (|frac| == 7 && frac[0] == '.' && forall i :: 1 <= i < 7 ==> Text.IsDigit(frac[i]))
    ensures var r := date + " " + time + frac;
      && |r| == 19 + |frac|
      && r[4] == '-' && r[7] == '-' && r[10] == ' ' && r[13] == ':' && r[16] == ':'
      && (|r| == 26 ==> r[19] == '.')
      && (forall i :: 0 <= i < |r| && i != 4 && i != 7 && i != 10 && i != 13 && i != 16 && i != 19 ==>
           Text.IsDigit(r[i]))
      && r[0..4] == date[0..4] && r[5..7] == date[5..7] && r[8..10] == date[8..10]
      && r[11..13] == time[0..2] && r[14..16] == time[3..5] && r[17..19] == time[6..8]
      && (|r| == 26 ==> r[20..26] == frac[1..7])
  {
    var r := date + " " + time + frac;
    assert r[17..19] == time[6..8] by {
      assert r[17] == time[6] && r[18] == time[7];
    }
    forall i | 0 <= i < |r| && i != 4 && i != 7 && i != 10 && i != 13 && i != 16 && i != 19
      ensures Text.IsDigit(r[i])
    {
      if i < 10 {
        assert r[i] == date[i];
      } else if i < 19 {
        assert r[i] == time[i - 11];
      } else {
        assert r[i] == frac[i - 19];
      }
    }
  }

  /** The year, month and day of month of day `day` counted from
      0001-01-01: a valid date of four-digit year whose day number is
      `day`. */
  function Calendar(day: nat): (r: (nat, nat, nat))
    requires day < DaysInRange
    ensures 1 <= r.0 <= 9999 && 1 <= r.1 <= 12 && 1 <= r.2 <= DaysInMonth(r.0, r.1)
    ensures IsDate(r.0, r.1, r.2) && DayNumber(r.0, r.1, r.2) == day
  {
    var yd := YearOf(day, 1);
    YearInRange(day);
    MonthsFillYear(yd.0);
    DaysBetweenIsDaysBefore(yd.0);
    var md := MonthOf(yd.0, yd.1, 1);
    (yd.0, md.0, md.1)
  }

  /** "YYYY-MM-DD" of a year, month and day of month small enough for
      their fields. */
  function DateFields(year: nat, month: nat, day: nat): (r: string)
    requires year < 10_000 && month < 100 && day < 100
    ensures |r| == 10 && r[4] == '-' && r[7] == '-'
    ensures forall i :: 0 <= i < 10 && i != 4 && i != 7 ==> Text.IsDigit(r[i])
    ensures Text.ParseInt(r[0..4]) == Some(year)
    ensures Text.ParseInt(r[5..7]) == Some(month)
    ensures Text.ParseInt(r[8..10]) == Some(day)
  {
    assert Text.Pow10(2) == 100 && Text.Pow10(4) == 10_000;
    var y := Text.ZeroPad(year, 4);
    var m := Text.ZeroPad(month, 2);
    var d := Text.ZeroPad(day, 2);
    JoinLayout(y, '-', m, d);
    y + "-" + m + "-" + d
  }

  /** "YYYY-MM-DD" of the day `day` counted from 0001-01-01: the three
      fields read back as the year, month and day of `day`. */
  function CalendarText(day: nat): (r: string)
    requires day < DaysInRange
    ensures |r| == 10 && r[4] == '-' && r[7] == '-'
    ensures forall i :: 0 <= i < 10 && i != 4 && i != 7 ==> Text.IsDigit(r[i])
    ensures Text.ParseInt(r[0..4]) == Some(Calendar(day).0)
    ensures Text.ParseInt(r[5..7]) == Some(Calendar(day).1)
    ensures Text.ParseInt(r[8..10]) == Some(Calendar(day).2)
  {
    var c := Calendar(day);
    DateFields(c.0, c.1, c.2)
  }

  /** "HH:MM:SS" of the second `seconds` of a day: the three fields read
      back as the hour, minute and second of `seconds`. */
  function ClockText(seconds: nat): (r: string)
    requires seconds < 86_400
    ensures |r| == 8 && r[2] == ':' && r[5] == ':'
    ensures forall i :: 0 <= i < 8 && i != 2 && i != 5 ==> Text.IsDigit(r[i])
    ensures Text.ParseInt(r[0..2]).Some? && Text.ParseInt(r[3..5]).Some? && Text.ParseInt(r[6..8]).Some?
    ensures IsClock(seconds, Text.ParseInt(r[0..2]).value, Text.ParseInt(r[3..5]).value, Text.ParseInt(r[6..8]).value)
  {
    assert Text.Pow10(2) == 100;
    var hour := seconds / 3600;
    var minute := seconds % 3600 / 60;
    var second := seconds % 3600 % 60;
    var h := Text.ZeroPad(hour, 2);
    var m := Text.ZeroPad(minute, 2);
    var s := Text.ZeroPad(second, 2);
    JoinLayout(h, ':', m, s);
    h + ":" + m + ":" + s
  }

  /** ".ffffff" for a non-zero microsecond, nothing for zero; the six
      digits read back as the microsecond. */
  function FractionText(fraction: nat): (r: string)
    requires fraction < 1_000_000
    ensures fraction == 0 ==> r == []
    ensures fraction != 0 ==> |r| == 7 && r[0] == '.' && forall i :: 1 <= i < 7 ==> Text.IsDigit(r[i])
    ensures fraction != 0 ==> Text.ParseInt(r[1..7]) == Some(fraction)
  {
    assert Text.Pow10(6) == 1_000_000;
    var digits := Text.ZeroPad(fraction, 6);
    assert ("." + digits)[1..7] == digits;
    if fraction == 0 then "" else "." + digits
  }

  /** The fields `year`-`month`-`day` `hour`:`minute`:`second`.`micro`
      name the instant `t`. */
  predicate Denotes(t: int, year: int, month: int, day: int, hour: int, minute: int, second: int, micro: int) {
    && IsDate(year, month, day)
    && IsClock(3600 * hour + 60 * minute + second, hour, minute, second)
    && 0 <= micro < 1_000_000
    && t == DayNumber(year, month, day) * DayMicros + (3600 * hour + 60 * minute + second) * 1_000_000 + micro
  }

  /** The fields of a `str(datetime)` layout `s` (19 or 26 characters)
      read back, with `int()`, as a date and time that name `t`; a missing
      fraction reads as 0. */
  predicate ReadsBack(s: string, t: int)
    requires |s| == 19 || |s| == 26
  {
    var year, month, day := Text.ParseInt(s[0..4]), Text.ParseInt(s[5..7]), Text.ParseInt(s[8..10]);
    var hour, minute, second := Text.ParseInt(s[11..13]), Text.ParseInt(s[14..16]), Text.ParseInt(s[17..19]);
    var micro := if |s| == 26 then Text.ParseInt(s[20..26]) else Some(0);
    && year.Some? && month.Some? && day.Some? && hour.Some? && minute.Some? && second.Some? && micro.Some?
    && Denotes(t, year.value, month.value, day.value, hour.value, minute.value, second.value, micro.value)
  }

  /** The pieces `str(t)` is made of read back as `t`. */
  lemma StampReadsBack(t: Instant)
    ensures var micros := t % DayMicros;
      var r := CalendarText(t / DayMicros) + " " + ClockText(micros / 1_000_000) + FractionText(micros % 1_000_000);
      (|r| == 19 || |r| == 26) && ReadsBack(r, t)
  {
    var micros := t % DayMicros;
    MicrosOfDay(t);
    var date := CalendarText(t / DayMicros);
    var time := ClockText(micros / 1_000_000);
    var frac := FractionText(micros % 1_000_000);
    StampLayout(date, time, frac);
    assert t == (t / DayMicros) * DayMicros + (micros / 1_000_000) * 1_000_000 + micros % 1_000_000;
  }

  /** `str(t)`: "YYYY-MM-DD HH:MM:SS", with ".ffffff" added exactly when
      the microsecond is not zero; digits everywhere but at the
      separators, and the fields read back as a date and time that name
      `t`. */
  function DateText(t: Instant): (r: string)
    ensures |r| == if t % 1_000_000 == 0 then 19 else 26
    ensures r[4] == '-' && r[7] == '-' && r[10] == ' ' && r[13] == ':' && r[16] == ':'
    ensures |r| == 26 ==> r[19] == '.'
    ensures forall i :: 0 <= i < |r| && i != 4 && i != 7 && i != 10 && i != 13 && i != 16 && i != 19 ==>
              Text.IsDigit(r[i])
    ensures ReadsBack(r, t)
  {
    var micros := t % DayMicros;
    MicrosOfDay(t);
    var date := CalendarText(t / DayMicros);
    var time := ClockText(micros / 1_000_000);
    var frac := FractionText(micros % 1_000_000);
    StampLayout(date, time, frac);
    StampReadsBack(t);
    date + " " + time + frac
  }
}
