/** Dates as the pages see them: the millisecond value `getTime()` and the local
    calendar components `getFullYear()`, `getMonth() + 1`, `getDate()`,
    `getHours()` and `getMinutes()`. */
module Time {
  import opened Wrappers
  import opened Text

  datatype DateParts = DateParts(year: int, month: int, day: int, hour: int, minute: int)

  predicate IsLeapYear(y: int) {
    y % 4 == 0 && (y % 100 != 0 || y % 400 == 0)
  }

  function DaysInMonth(y: int, m: int): int
    requires 1 <= m <= 12
  {
    if m == 2 then (if IsLeapYear(y) then 29 else 28)
    else if m == 4 || m == 6 || m == 9 || m == 11 then 30
    else 31
  }

  predicate ValidParts(p: DateParts) {
    && 1 <= p.month <= 12
    && 1 <= p.day <= DaysInMonth(p.year, p.month)
    && 0 <= p.hour < 24
    && 0 <= p.minute < 60
  }

  /** The components of a real `Date`: always in range. */
  type LocalParts = p: DateParts | ValidParts(p) witness DateParts(1970, 1, 1, 0, 0)

  /** A valid `Date`: its `getTime()` value and its local calendar components. How
      the two are related (the time zone) is not modelled. */
  datatype Instant = Instant(ms: int, local: LocalParts)

  /** `Date.UTC(y, m - 1, d) / 86400000` for a valid calendar date: the number of
      days since 1970-01-01 in the proleptic Gregorian calendar. The year is taken
      to start in March so that the leap day comes last. */
  function DaysFromCivil(y: int, m: int, d: int): int
    requires 1 <= m <= 12
  {
    var mp := if m > 2 then m - 3 else m + 9;
    MarchFirst(if m <= 2 then y - 1 else y) + (153 * mp + 2) / 5 + d - 1
  }

  /** The day number of March 1 of year `y`, counted in 400-year eras of 146097 days. */
  function MarchFirst(y: int): int {
    var era := y / 400;
    var yoe := y % 400;
    era * 146097 + yoe * 365 + yoe / 4 - yoe / 100 - 719468
  }

  /** A year that starts in March runs for 366 days exactly when the next
      calendar year is a leap year. */
  lemma MarchFirstStep(y: int)
    ensures MarchFirst(y + 1) == MarchFirst(y) + (if IsLeapYear(y + 1) then 366 else 365)
  {
    var yoe0 := y % 400;
    LeapYearOfEra(y + 1);
    if yoe0 == 399 {
      assert (y + 1) / 400 == y / 400 + 1 && (y + 1) % 400 == 0;
    } else {
      YearOfEraStep(yoe0);
      assert (y + 1) / 400 == y / 400 && (y + 1) % 400 == yoe0 + 1;
    }
  }

  /** Leap years repeat every 400 years. */
  lemma LeapYearOfEra(y: int)
    ensures var k := y % 400; IsLeapYear(y) <==> k % 4 == 0 && (k % 100 != 0 || k == 0)
  {
    var q, k := y / 400, y % 400;
    assert y == 400 * q + k;
    assert y % 4 == k % 4 by { assert y == 4 * (100 * q) + k; }
    assert y % 100 == k % 100 by { assert y == 100 * (4 * q) + k; }
  }

  lemma YearOfEraStep(k: int)
    requires 0 <= k < 399
    ensures (k + 1) / 4 - k / 4 == (if (k + 1) % 4 == 0 then 1 else 0)
    ensures (k + 1) / 100 - k / 100 == (if (k + 1) % 100 == 0 then 1 else 0)
  {
  }

  /** The calendar-day number of an instant's local date. */
  function DayNumber(p: LocalParts): int {
    DaysFromCivil(p.year, p.month, p.day)
  }

  lemma EpochIsDayZero()
    ensures DaysFromCivil(1970, 1, 1) == 0
  {
  }

  /** Within a month, the next date has the next day number. */
  lemma NextDayInMonth(y: int, m: int, d: int)
    requires 1 <= m <= 12
    ensures DaysFromCivil(y, m, d + 1) == DaysFromCivil(y, m, d) + 1
  {
  }

  /** From the last day of a month other than December and February to the first
      day of the next month, the day number also grows by one. */
  lemma NextDayAcrossMonth(y: int, m: int)
    requires 1 <= m <= 11 && m != 2
    ensures DaysFromCivil(y, m + 1, 1) == DaysFromCivil(y, m, DaysInMonth(y, m)) + 1
  {
    var mp := if m > 2 then m - 3 else m + 9;
    assert (153 * (mp + 1) + 2) / 5 == (153 * mp + 2) / 5 + DaysInMonth(y, m) by {
      if m == 1 { } else if m == 3 { } else if m == 4 { } else if m == 5 { }
      else if m == 6 { } else if m == 7 { } else if m == 8 { } else if m == 9 { }
      else if m == 10 { } else { }
    }
  }

  /** From December 31 to January 1 of the next year. */
  lemma NextDayAcrossYear(y: int)
    ensures DaysFromCivil(y + 1, 1, 1) == DaysFromCivil(y, 12, 31) + 1
  {
  }

  /** From the last day of February to March 1, across the leap day when there is one. */
  lemma NextDayAcrossFebruary(y: int)
    ensures DaysFromCivil(y, 3, 1) == DaysFromCivil(y, 2, DaysInMonth(y, 2)) + 1
  {
    MarchFirstStep(y - 1);
  }

  /** The calendar date after `(y, m, d)`. */
  function NextDate(y: int, m: int, d: int): (r: (int, int, int))
    requires 1 <= m <= 12 && 1 <= d <= DaysInMonth(y, m)
    ensures 1 <= r.1 <= 12 && 1 <= r.2 <= DaysInMonth(r.0, r.1)
  {
    if d < DaysInMonth(y, m) then (y, m, d + 1)
    else if m < 12 then (y, m + 1, 1)
    else (y + 1, 1, 1)
  }

  /** The day numbers of consecutive calendar dates are consecutive integers, so
      the difference of two day numbers counts whole days, as `Date.UTC` does. */
  lemma DayNumberOfNextDate(y: int, m: int, d: int)
    requires 1 <= m <= 12 && 1 <= d <= DaysInMonth(y, m)
    ensures var n := NextDate(y, m, d); DaysFromCivil(n.0, n.1, n.2) == DaysFromCivil(y, m, d) + 1
  {
    if d < DaysInMonth(y, m) {
      NextDayInMonth(y, m, d);
    } else if m == 2 {
      NextDayAcrossFebruary(y);
    } else if m < 12 {
      NextDayAcrossMonth(y, m);
    } else {
      NextDayAcrossYear(y);
    }
  }

  /** A timestamp field of a JSON record as `??`, `||` and `new Date(...)` see it:
      missing, `null`, the empty string, a string that does not parse, or a
      string denoting an instant. */
  datatype Stamp = Absent | Null | Empty | Unparsable | At(instant: Instant)

  /** JavaScript truthiness of the field: only a non-empty string is truthy. */
  predicate Truthy(s: Stamp) {
    s.Unparsable? || s.At?
  }

  /** `a || b`. */
  function Or(a: Stamp, b: Stamp): (r: Stamp)
    ensures Truthy(a) ==> r == a
    ensures !Truthy(a) ==> r == b
  {
    if Truthy(a) then a else b
  }

  /** `a ?? b`: only a missing or `null` field gives way. */
  function Coalesce(a: Stamp, b: Stamp): (r: Stamp)
    ensures !(a.Absent? || a.Null?) ==> r == a
    ensures (a.Absent? || a.Null?) ==> r == b
  {
    if a.Absent? || a.Null? then b else a
  }

  /** `a || b` and `a ?? b` pick differently exactly when `a` is the empty string
      and `b` is something else. */
  lemma OrCoalesceDiffer(a: Stamp, b: Stamp)
    ensures Or(a, b) != Coalesce(a, b) <==> a.Empty? && b != Empty
  {
  }

  /** `new Date(s).getTime()`, with `None` for NaN: `null` denotes the epoch,
      and a missing field, the empty string and garbage do not parse. */
  function GetTime(s: Stamp): (r: Option<int>)
    ensures r.Some? <==> (s.Null? || s.At?)
    ensures s.Null? ==> r == Some(0)
    ensures s.At? ==> r == Some(s.instant.ms)
  {
    match s
    case Null => Some(0)
    case At(t) => Some(t.ms)
    case _ => None
  }

  /** `safeDate(value)` of the dashboard page: the instant the value denotes, or
      `now` when it is missing, `null` or does not parse. */
  function SafeDate(value: Stamp, now: Instant): (r: Instant)
    ensures value.At? ==> r == value.instant
    ensures !value.At? ==> r == now
  {
    if value.At? then value.instant else now
  }

  /** The `YYYY-MM-DD HH:mm` layout of `formatDate`, with the year as `String(y)`
      and the other four parts padded to two digits. */
  function FormatParts(p: LocalParts): string {
    IntToString(p.year) + "-" + Pad2(p.month) + "-" + Pad2(p.day) + " "
      + Pad2(p.hour) + ":" + Pad2(p.minute)
  }

  /** Shape of a formatted date with a four-digit year, and the round trip: every
      part can be read back from its fixed position. */
  lemma FormatPartsLayout(p: LocalParts)
    requires 1000 <= p.year <= 9999
    ensures var r := FormatParts(p);
      && |r| == 16
      && r[4] == '-' && r[7] == '-' && r[10] == ' ' && r[13] == ':'
      && AllDigits(r[0..4]) && AllDigits(r[5..7]) && AllDigits(r[8..10])
      && AllDigits(r[11..13]) && AllDigits(r[14..16])
      && DigitsValue(r[0..4]) == p.year && DigitsValue(r[5..7]) == p.month
      && DigitsValue(r[8..10]) == p.day && DigitsValue(r[11..13]) == p.hour
      && DigitsValue(r[14..16]) == p.minute
  {
    YearHasFourDigits(p.year);
    DigitsValueOfNatToString(p.year);
    Layout(NatToString(p.year), Pad2(p.month), Pad2(p.day), Pad2(p.hour), Pad2(p.minute));
  }

  /** Where the five pieces of the layout sit. */
  lemma Layout(y: string, mo: string, d: string, h: string, mi: string)
    requires |y| == 4 && |mo| == 2 && |d| == 2 && |h| == 2 && |mi| == 2
    ensures var r := y + "-" + mo + "-" + d + " " + h + ":" + mi;
      && |r| == 16
      && r[4] == '-' && r[7] == '-' && r[10] == ' ' && r[13] == ':'
      && r[0..4] == y && r[5..7] == mo && r[8..10] == d && r[11..13] == h && r[14..16] == mi
  {
    var r := y + "-" + mo + "-" + d + " " + h + ":" + mi;
    assert r[0..4] == y;
    assert r[5..7] == mo;
    assert r[8..10] == d;
    assert r[11..13] == h;
    assert r[14..16] == mi;
  }

  lemma YearHasFourDigits(n: nat)
    requires 1000 <= n <= 9999
    ensures |NatToString(n)| == 4
  {
    assert NatToString(n) == NatToString(n / 10) + [DigitChar(n % 10)];
    assert NatToString(n / 10) == NatToString(n / 100) + [DigitChar(n / 10 % 10)];
    assert NatToString(n / 100) == NatToString(n / 1000) + [DigitChar(n / 100 % 10)];
  }

  /** `formatDate` of the home page, on the parsed date: `—` for an invalid date. */
  function FormatDate(d: Option<LocalParts>): (r: string)
    ensures d.None? ==> r == "—"
    ensures d.Some? ==> r == FormatParts(d.value)
  {
    match d
    case None => "—"
    case Some(p) => FormatParts(p)
  }

  /** `formatDate` of the repositories page: `—` for a missing, `null` or empty
      value as well as for one that does not parse. */
  function FormatStamp(s: Stamp): (r: string)
    ensures !s.At? ==> r == "—"
    ensures s.At? ==> r == FormatParts(s.instant.local)
  {
    if !Truthy(s) then "—"
    else match s
      case At(t) => FormatParts(t.local)
      case _ => "—"
  }

  /** A formatted date never collides with the invalid-date dash. */
  lemma FormatPartsIsNotDash(p: LocalParts)
    ensures FormatParts(p) != "—"
  {
    var r := FormatParts(p);
    assert |r| > 1;
  }
}
