/**
 Turning seconds since the epoch into a calendar date and time of day, as done
 for the file names of pasted images. The reference is the formula of section
 4.16 (Seconds Since the Epoch) of the POSIX.1-2017 Base Definitions.
 */
module CivilDate {

  const DAY: nat := 86400

  datatype Stamp = Stamp(year: nat, month: nat, day: nat, hour: nat, minute: nat, second: nat)

  predicate IsLeap(y: nat) {
    (y % 4 == 0 && y % 100 != 0) || y % 400 == 0
  }

  function DaysInYear(y: nat): nat {
    if IsLeap(y) then 366 else 365
  }

  const NORMAL: seq<nat> := [31, 28, 31, 30, 31, 30, 31, 31, 30, 31, 30, 31]
  const LEAP: seq<nat> := [31, 29, 31, 30, 31, 30, 31, 31, 30, 31, 30, 31]

  function Months(y: nat): seq<nat> {
    if IsLeap(y) then LEAP else NORMAL
  }

  predicate ValidStamp(t: Stamp) {
    && t.year >= 1970 && 1 <= t.month <= 12
    && 1 <= t.day <= Months(t.year)[t.month - 1]
    && t.hour < 24 && t.minute < 60 && t.second < 60
  }

  // The Gregorian months and leap years.
  lemma Calendar(y: nat)
    ensures var february := if y % 400 == 0 || (y % 4 == 0 && y % 100 != 0) then 29 else 28;
            Months(y) == [31, february, 31, 30, 31, 30, 31, 31, 30, 31, 30, 31]
  {
  }

  // ---------------------------------------------------------------------
  // The POSIX formula
  // ---------------------------------------------------------------------

  // Days of the months before month m (counted from 0).
  function DaysBeforeMonth(y: nat, m: nat): nat
    requires m <= 12
  {
    if m == 0 then 0 else DaysBeforeMonth(y, m - 1) + Months(y)[m - 1]
  }

  // tm_yday: days since January 1.
  function DayOfYear(t: Stamp): nat
    requires ValidStamp(t)
  {
    DaysBeforeMonth(t.year, t.month - 1) + t.day - 1
  }

  // With tm_year = y - 1900.
  function DaysBeforeYear(y: nat): int
    requires y >= 1970
  {
    (y - 1970) * 365 + (y - 1969) / 4 - (y - 1901) / 100 + (y - 1601) / 400
  }

  function SecondsSinceEpoch(t: Stamp): int
    requires ValidStamp(t)
  {
    t.second + t.minute * 60 + t.hour * 3600 + DayOfYear(t) * DAY + DaysBeforeYear(t.year) * DAY
  }

  // Days on both sides of the exceptions to the four-year rule.
  lemma KnownTimes()
    ensures SecondsSinceEpoch(Stamp(1970, 1, 1, 0, 0, 0)) == 0
    ensures SecondsSinceEpoch(Stamp(1999, 12, 31, 23, 59, 59)) == 946684799
    ensures SecondsSinceEpoch(Stamp(2000, 2, 29, 0, 0, 0)) == 951782400
    ensures SecondsSinceEpoch(Stamp(2024, 2, 29, 23, 5, 9)) == 1709247909
    ensures SecondsSinceEpoch(Stamp(2100, 3, 1, 0, 0, 0)) == 4107542400
  {
    MonthsFillTheYear(1999);
    assert DaysBeforeMonth(1999, 12) == DaysBeforeMonth(1999, 11) + 31;
    assert forall y, m :: m == 1 ==> DaysBeforeMonth(y, m) == 31;
    assert DaysBeforeMonth(2100, 2) == 59;
  }

  lemma {:induction false} QuotientStep(x: nat, d: nat)
    requires d >= 2
    ensures (x + 1) / d == x / d + if (x + 1) % d == 0 then 1 else 0
  {
    var q, r := x / d, x % d;
    if r + 1 < d {
      DivMod(x + 1, d, q, r + 1);
    } else {
      DivMod(x + 1, d, q + 1, 0);
    }
  }

  lemma DivMod(x: int, d: int, q: int, r: int)
    requires d > 0 && 0 <= r < d && x == q * d + r
    ensures x / d == q && x % d == r
  {
    var e := x / d - q;
    assert d * e == r - x % d;
    assert e >= 1 ==> d * e >= d;
    assert e <= -1 ==> d * e <= -d;
  }

  // 1968, 1900 and 1600 are the years the leap-year terms count from.
  lemma YearLength(y: nat)
    requires y >= 1970
    ensures DaysBeforeYear(y + 1) == DaysBeforeYear(y) + DaysInYear(y)
  {
    QuotientStep(y - 1969, 4);
    QuotientStep(y - 1901, 100);
    QuotientStep(y - 1601, 400);
    LeapTerms(y);
  }

  lemma LeapTerms(y: nat)
    requires y >= 1970
    ensures (y - 1968) % 4 == 0 <==> y % 4 == 0
    ensures (y - 1900) % 100 == 0 <==> y % 100 == 0
    ensures (y - 1600) % 400 == 0 <==> y % 400 == 0
    ensures y % 400 == 0 ==> y % 100 == 0
    ensures y % 100 == 0 ==> y % 4 == 0
  {
  }

  lemma {:induction false} YearsAreDisjoint(y: nat, z: nat)
    requires 1970 <= y < z
    ensures DaysBeforeYear(y) + DaysInYear(y) <= DaysBeforeYear(z)
    decreases z
  {
    YearLength(z - 1);
    if y < z - 1 {
      YearsAreDisjoint(y, z - 1);
    }
  }

  lemma MonthsFillTheYear(y: nat)
    ensures DaysBeforeMonth(y, 12) == DaysInYear(y)
  {
    var m := Months(y);
    assert DaysBeforeMonth(y, 1) == m[0];
    assert DaysBeforeMonth(y, 2) == m[0] + m[1];
    assert DaysBeforeMonth(y, 4) == DaysBeforeMonth(y, 2) + m[2] + m[3];
    assert DaysBeforeMonth(y, 6) == DaysBeforeMonth(y, 4) + m[4] + m[5];
    assert DaysBeforeMonth(y, 8) == DaysBeforeMonth(y, 6) + m[6] + m[7];
    assert DaysBeforeMonth(y, 10) == DaysBeforeMonth(y, 8) + m[8] + m[9];
    assert DaysBeforeMonth(y, 12) == DaysBeforeMonth(y, 10) + m[10] + m[11];
  }

  lemma {:induction false} MonthsAreDisjoint(y: nat, m: nat, n: nat)
    requires m < n <= 12
    ensures DaysBeforeMonth(y, m) + Months(y)[m] <= DaysBeforeMonth(y, n)
    decreases n
  {
    if m < n - 1 {
      MonthsAreDisjoint(y, m, n - 1);
    }
  }

  lemma DayOfYearBounds(t: Stamp)
    requires ValidStamp(t)
    ensures DayOfYear(t) < DaysInYear(t.year)
  {
    MonthsFillTheYear(t.year);
    MonthsAreDisjoint(t.year, t.month - 1, 12);
  }

  // ---------------------------------------------------------------------
  // The text
  // ---------------------------------------------------------------------

  function Digit(n: nat): char
    requires n < 10
  {
    n as char + '0'
  }

  // Decimal digits, padded with zeros to at least `width` of them.
  function Decimal(n: nat, width: nat): string
    decreases n + width
  {
    if n < 10 && width <= 1 then [Digit(n)]
    else Decimal(n / 10, if width == 0 then 0 else width - 1) + [Digit(n % 10)]
  }

  // YYYYMMDD-HHmmss
  function Format(t: Stamp): string {
    Decimal(t.year, 4) + Decimal(t.month, 2) + Decimal(t.day, 2) + "-"
    + Decimal(t.hour, 2) + Decimal(t.minute, 2) + Decimal(t.second, 2)
  }

  // The number that some digits stand for.
  function Number(digits: string): nat {
    if digits == "" then 0
    else
      var last := digits[|digits| - 1];
      Number(digits[..|digits| - 1]) * 10 + if '0' <= last <= '9' then (last - '0') as nat else 0
  }

  lemma {:induction false} NumberOfDecimal(n: nat, width: nat)
    ensures Number(Decimal(n, width)) == n
    ensures forall i :: 0 <= i < |Decimal(n, width)| ==> '0' <= Decimal(n, width)[i] <= '9'
    ensures |Decimal(n, width)| >= width && |Decimal(n, width)| >= 1
    decreases n + width
  {
    if n < 10 && width <= 1 {
      assert [Digit(n)][..0] == "";
    } else {
      var front := Decimal(n / 10, if width == 0 then 0 else width - 1);
      NumberOfDecimal(n / 10, if width == 0 then 0 else width - 1);
      assert (front + [Digit(n % 10)])[..|front|] == front;
    }
  }

  lemma FieldsInOrder(year: string, month: string, day: string, hour: string, minute: string, second: string, name: string)
    requires |month| == |day| == |hour| == |minute| == |second| == 2
    requires name == year + month + day + "-" + hour + minute + second
    ensures var n := |name|;
            && n == |year| + 11 && name[n - 7] == '-'
            && name[..n - 11] == year && name[n - 11..n - 9] == month && name[n - 9..n - 7] == day
            && name[n - 6..n - 4] == hour && name[n - 4..n - 2] == minute && name[n - 2..] == second
  {
  }

  lemma TwoDigitField(n: nat, field: string)
    requires n < 100 && field == Decimal(n, 2)
    ensures |field| == 2 && Number(field) == n
  {
    TwoDigits(n);
    NumberOfDecimal(n, 2);
  }

  // Read from the right: two digits each for the second, the minute and the hour,
  // a hyphen, two each for the day and the month, and before them the year.
  lemma FieldsOfName(t: Stamp, name: string)
    requires ValidStamp(t) && name == Format(t)
    ensures var n := |name|;
            && n >= 15 && name[n - 7] == '-'
            && Number(name[n - 2..]) == t.second && Number(name[n - 4..n - 2]) == t.minute
            && Number(name[n - 6..n - 4]) == t.hour && Number(name[n - 9..n - 7]) == t.day
            && Number(name[n - 11..n - 9]) == t.month && Number(name[..n - 11]) == t.year
  {
    var month, day := Decimal(t.month, 2), Decimal(t.day, 2);
    var hour, minute, second := Decimal(t.hour, 2), Decimal(t.minute, 2), Decimal(t.second, 2);
    TwoDigitField(t.month, month);
    TwoDigitField(t.day, day);
    TwoDigitField(t.hour, hour);
    TwoDigitField(t.minute, minute);
    TwoDigitField(t.second, second);
    NumberOfDecimal(t.year, 4);
    FieldsInOrder(Decimal(t.year, 4), month, day, hour, minute, second, name);
  }

  lemma {:induction false} DecimalIsInjective(m: nat, n: nat, width: nat)
    requires Decimal(m, width) == Decimal(n, width)
    ensures m == n
    decreases m + width
  {
    var w := if width == 0 then 0 else width - 1;
    if !(m < 10 && width <= 1) && !(n < 10 && width <= 1) {
      var a, b := Decimal(m / 10, w), Decimal(n / 10, w);
      assert (a + [Digit(m % 10)])[..|a|] == a && (b + [Digit(n % 10)])[..|b|] == b;
      DecimalIsInjective(m / 10, n / 10, w);
      assert Decimal(m, width)[|a|] == Decimal(n, width)[|b|];
    } else {
      DecimalIsNotEmpty(m / 10, w);
      DecimalIsNotEmpty(n / 10, w);
    }
  }

  lemma {:induction false} DecimalIsNotEmpty(n: nat, width: nat)
    ensures Decimal(n, width) != ""
  {
  }

  lemma TwoDigits(n: nat)
    requires n < 100
    ensures |Decimal(n, 2)| == 2
  {
    assert |Decimal(n / 10, 1)| == 1;
  }

  // No two seconds share a name.
  lemma NamesAreUnique(a: Stamp, b: Stamp)
    requires ValidStamp(a) && ValidStamp(b)
    ensures Format(a) == Format(b) <==> SecondsSinceEpoch(a) == SecondsSinceEpoch(b)
  {
    MoreMeansLater(a, b);
    if Format(a) == Format(b) {
      TextIsInjective(a, b);
    }
  }

  lemma TextIsInjective(a: Stamp, b: Stamp)
    requires ValidStamp(a) && ValidStamp(b) && Format(a) == Format(b)
    ensures a == b
  {
    var a1, b1 := Decimal(a.year, 4), Decimal(b.year, 4);
    var a2, b2 := a1 + Decimal(a.month, 2), b1 + Decimal(b.month, 2);
    var a3, b3 := a2 + Decimal(a.day, 2), b2 + Decimal(b.day, 2);
    var a4, b4 := a3 + "-" + Decimal(a.hour, 2), b3 + "-" + Decimal(b.hour, 2);
    var a5, b5 := a4 + Decimal(a.minute, 2), b4 + Decimal(b.minute, 2);
    PeelField(a5, a.second, b5, b.second);
    PeelField(a4, a.minute, b4, b.minute);
    PeelField(a3 + "-", a.hour, b3 + "-", b.hour);
    assert (a3 + "-")[..|a3|] == a3 && (b3 + "-")[..|b3|] == b3;
    PeelField(a2, a.day, b2, b.day);
    PeelField(a1, a.month, b1, b.month);
    DecimalIsInjective(a.year, b.year, 4);
  }

  lemma PeelField(p: string, m: nat, q: string, n: nat)
    requires m < 100 && n < 100 && p + Decimal(m, 2) == q + Decimal(n, 2)
    ensures p == q && m == n
  {
    TwoDigits(m);
    TwoDigits(n);
    var x, y := Decimal(m, 2), Decimal(n, 2);
    assert (p + x)[..|p|] == p && (q + y)[..|q|] == q;
    assert (p + x)[|p|..] == x && (q + y)[|q|..] == y;
    DecimalIsInjective(m, n, 2);
  }

  // ---------------------------------------------------------------------
  // The conversion
  // ---------------------------------------------------------------------

  // The last four fields from the seconds left in the month.
  function Split(year: nat, month: nat, daySecs: nat): Stamp {
    var remainder := daySecs % DAY;
    Stamp(year, month, daySecs / DAY + 1, remainder / 3600, (remainder % 3600) / 60, remainder % 60)
  }

  lemma Recombine(year: nat, month: nat, daySecs: nat)
    requires year >= 1970 && 1 <= month <= 12 && daySecs < Months(year)[month - 1] * DAY
    ensures ValidStamp(Split(year, month, daySecs))
    ensures SecondsSinceEpoch(Split(year, month, daySecs))
         == daySecs + DaysBeforeMonth(year, month - 1) * DAY + DaysBeforeYear(year) * DAY
  {
    var remainder := daySecs % DAY;
    assert daySecs == daySecs / DAY * DAY + remainder;
    assert remainder == remainder / 3600 * 3600 + remainder % 3600;
    Sexagesimal(remainder);
  }

  lemma Sexagesimal(r: nat)
    ensures r % 3600 == (r % 3600) / 60 * 60 + r % 60
  {
    var hours, rest := r / 3600, r % 3600;
    DivMod(r, 60, hours * 60 + rest / 60, rest % 60);
  }

  method EpochToTimestamp(epochSecs: nat) returns (t: Stamp, name: string)
    ensures ValidStamp(t) && SecondsSinceEpoch(t) == epochSecs
    ensures name == Format(t)
  {
    var remaining: nat := epochSecs;
    var year: nat := 1970;
    while remaining >= DaysInYear(year) * DAY
      invariant year >= 1970
      invariant remaining + DaysBeforeYear(year) * DAY == epochSecs
      decreases remaining
    {
      YearLength(year);
      remaining := remaining - DaysInYear(year) * DAY;
      year := year + 1;
    }
    var months := Months(year);
    var month: nat := 1;
    var daySecs: nat := remaining;
    MonthsFillTheYear(year);
    while month <= 12 && daySecs >= months[month - 1] * DAY
      invariant 1 <= month <= 13
      invariant daySecs + DaysBeforeMonth(year, month - 1) * DAY == remaining
    {
      daySecs := daySecs - months[month - 1] * DAY;
      month := month + 1;
    }
    assert month <= 12;
    var day := daySecs / DAY + 1;
    var remainder := daySecs % DAY;
    var hour := remainder / 3600;
    var minute := (remainder % 3600) / 60;
    var second := remainder % 60;
    t := Stamp(year, month, day, hour, minute, second);
    Recombine(year, month, daySecs);
    name := Format(t);
  }

  // ---------------------------------------------------------------------
  // Order and uniqueness
  // ---------------------------------------------------------------------

  predicate Before(a: Stamp, b: Stamp) {
    || a.year < b.year
    || (a.year == b.year
        && (|| a.month < b.month
            || (a.month == b.month
                && (|| a.day < b.day
                    || (a.day == b.day
                        && (|| a.hour < b.hour
                            || (a.hour == b.hour
                                && (|| a.minute < b.minute
                                    || (a.minute == b.minute && a.second < b.second)))))))))
  }

  // Later dates have more seconds.
  lemma LaterMeansMore(a: Stamp, b: Stamp)
    requires ValidStamp(a) && ValidStamp(b) && Before(a, b)
    ensures SecondsSinceEpoch(a) < SecondsSinceEpoch(b)
  {
    if a.year < b.year {
      YearsAreDisjoint(a.year, b.year);
      DayOfYearBounds(a);
    } else if a.month < b.month {
      MonthsAreDisjoint(a.year, a.month - 1, b.month - 1);
    }
  }

  // More seconds give a later date, and each second has its own date.
  lemma MoreMeansLater(a: Stamp, b: Stamp)
    requires ValidStamp(a) && ValidStamp(b)
    ensures SecondsSinceEpoch(a) < SecondsSinceEpoch(b) <==> Before(a, b)
    ensures SecondsSinceEpoch(a) == SecondsSinceEpoch(b) <==> a == b
  {
    if Before(a, b) {
      LaterMeansMore(a, b);
    } else if Before(b, a) {
      LaterMeansMore(b, a);
    }
  }
}
