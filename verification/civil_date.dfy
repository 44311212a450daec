/** Proleptic Gregorian civil dates as the browser sees them through
    `new Date('YYYY-MM-DD')`, `getDay()`, `setDate(getDate() + 1)` and
    `toISOString().split('T')[0]`, and as the server sees them through
    `datetime.strptime(s, "%Y-%m-%d")`. Time of day and time zones are not
    modelled: a date is a day of the calendar. */
module CivilDate {
  import opened Wrappers
  import opened Text

  datatype Date = Date(year: int, month: int, day: int)

  predicate IsLeap(y: int) {
    y % 4 == 0 && (y % 100 != 0 || y % 400 == 0)
  }

  function DaysInMonth(y: int, m: int): int
    requires 1 <= m <= 12
  {
    if m == 2 then (if IsLeap(y) then 29 else 28)
    else if m == 4 || m == 6 || m == 9 || m == 11 then 30
    else 31
  }

  /** A day of the calendar from year 0 on. */
  predicate WellFormed(d: Date) {
    0 <= d.year && 1 <= d.month <= 12 && 1 <= d.day <= DaysInMonth(d.year, d.month)
  }

  /** A day whose year has the four digits of the `YYYY-MM-DD` form. */
  predicate Valid(d: Date) {
    WellFormed(d) && d.year <= 9999
  }

  function YearDays(y: int): int {
    if IsLeap(y) then 366 else 365
  }

  /** Days in the years 0 .. y-1. */
  function DaysBeforeYear(y: nat): nat {
    if y == 0 then 0 else DaysBeforeYear(y - 1) + YearDays(y - 1)
  }

  /** Days in the months 1 .. m-1 of year `y`. */
  function DaysBeforeMonth(y: int, m: int): nat
    requires 1 <= m <= 13
  {
    if m == 1 then 0 else DaysBeforeMonth(y, m - 1) + DaysInMonth(y, m - 1)
  }

  /** Days elapsed since 0000-01-01. */
  function DayNumber(d: Date): nat
    requires WellFormed(d)
  {
    DaysBeforeYear(d.year) + DaysBeforeMonth(d.year, d.month) + d.day - 1
  }

  /** `getDay()`: 0 is Sunday, 6 is Saturday (0000-01-01 was a Saturday). */
  function Weekday(d: Date): (w: nat)
    requires WellFormed(d)
    ensures w < 7
  {
    (DayNumber(d) + 6) % 7
  }

  predicate IsWeekend(d: Date)
    requires WellFormed(d)
  {
    Weekday(d) == 0 || Weekday(d) == 6
  }

  /** `setDate(getDate() + 1)`: the following day of the calendar. */
  function NextDay(d: Date): (r: Date)
    requires WellFormed(d)
    ensures WellFormed(r)
  {
    if d.day < DaysInMonth(d.year, d.month) then Date(d.year, d.month, d.day + 1)
    else if d.month < 12 then Date(d.year, d.month + 1, 1)
    else Date(d.year + 1, 1, 1)
  }

  /** The months of a year add up to the year. */
  lemma MonthsMakeYear(y: int)
    ensures DaysBeforeMonth(y, 13) == YearDays(y)
  {
    assert DaysBeforeMonth(y, 2) == 31;
    assert DaysBeforeMonth(y, 3) == 31 + DaysInMonth(y, 2);
    assert DaysBeforeMonth(y, 4) == DaysBeforeMonth(y, 3) + 31;
    assert DaysBeforeMonth(y, 5) == DaysBeforeMonth(y, 3) + 61;
    assert DaysBeforeMonth(y, 6) == DaysBeforeMonth(y, 3) + 92;
    assert DaysBeforeMonth(y, 7) == DaysBeforeMonth(y, 3) + 122;
    assert DaysBeforeMonth(y, 8) == DaysBeforeMonth(y, 3) + 153;
    assert DaysBeforeMonth(y, 9) == DaysBeforeMonth(y, 3) + 184;
    assert DaysBeforeMonth(y, 10) == DaysBeforeMonth(y, 3) + 214;
    assert DaysBeforeMonth(y, 11) == DaysBeforeMonth(y, 3) + 245;
    assert DaysBeforeMonth(y, 12) == DaysBeforeMonth(y, 3) + 275;
  }

  lemma {:induction false} DaysBeforeMonthMonotone(y: int, m: int, n: int)
    requires 1 <= m <= n <= 13
    ensures DaysBeforeMonth(y, m) <= DaysBeforeMonth(y, n)
    ensures m < n ==> DaysBeforeMonth(y, m) + DaysInMonth(y, m) <= DaysBeforeMonth(y, n)
    decreases n - m
  {
    if m < n {
      DaysBeforeMonthMonotone(y, m + 1, n);
    }
  }

  /** Stepping a day forward adds one to the day number. */
  lemma NextDayNumber(d: Date)
    requires WellFormed(d)
    ensures DayNumber(NextDay(d)) == DayNumber(d) + 1
  {
    if d.day == DaysInMonth(d.year, d.month) && d.month == 12 {
      MonthsMakeYear(d.year);
    }
  }

  /** Stepping forward from a day strictly before a day of the four-digit
      range stays in that range. */
  lemma NextDayValid(a: Date, b: Date)
    requires WellFormed(a) && Valid(b) && DayNumber(a) < DayNumber(b)
    ensures Valid(NextDay(a)) && DayNumber(NextDay(a)) <= DayNumber(b)
  {
    NextDayNumber(a);
    DayNumberOrder(b, NextDay(a));
  }

  /** A well-formed day no later than a day of the four-digit range is in that range. */
  lemma NotLaterIsValid(a: Date, b: Date)
    requires WellFormed(a) && Valid(b) && DayNumber(a) <= DayNumber(b)
    ensures Valid(a)
  {
    DayNumberOrder(b, a);
  }

  lemma {:induction false} DaysBeforeYearMonotone(a: nat, b: nat)
    requires a < b
    ensures DaysBeforeYear(a) + 365 <= DaysBeforeYear(b)
    decreases b - a
  {
    if a + 1 < b {
      DaysBeforeYearMonotone(a + 1, b);
    }
  }

  /** A day's number lies within its year. */
  lemma DayInYear(d: Date)
    requires WellFormed(d)
    ensures DaysBeforeYear(d.year) <= DayNumber(d) < DaysBeforeYear(d.year + 1)
  {
    MonthsMakeYear(d.year);
    DaysBeforeMonthMonotone(d.year, d.month, 13);
  }

  /** Leap years among 0 .. y-1: every fourth, less every hundredth, plus
      every four-hundredth, counting year 0. */
  function LeapsBefore(y: int): int {
    (y + 3) / 4 - (y + 99) / 100 + (y + 399) / 400
  }

  lemma Div4Step(y: nat)
    ensures (y + 4) / 4 == (y + 3) / 4 + (if y % 4 == 0 then 1 else 0)
  {
  }

  lemma Div100Step(y: nat)
    ensures (y + 100) / 100 == (y + 99) / 100 + (if y % 100 == 0 then 1 else 0)
  {
  }

  lemma Div400Step(y: nat)
    ensures (y + 400) / 400 == (y + 399) / 400 + (if y % 400 == 0 then 1 else 0)
  {
  }

  /** Every hundredth year is a fourth year. */
  lemma CenturyIsFourth(y: nat)
    requires y % 100 == 0
    ensures y % 4 == 0
  {
    var m := 25 * (y / 100);
    assert y == 4 * m;
  }

  /** Every four-hundredth year is a hundredth year. */
  lemma FourCenturiesIsCentury(y: nat)
    requires y % 400 == 0
    ensures y % 100 == 0
  {
    var m := 4 * (y / 400);
    assert y == 100 * m;
  }

  lemma LeapsStep(y: nat)
    ensures LeapsBefore(y + 1) == LeapsBefore(y) + (if IsLeap(y) then 1 else 0)
  {
    var a, b, c := y % 4 == 0, y % 100 == 0, y % 400 == 0;
    if b { CenturyIsFourth(y); }
    if c { FourCenturiesIsCentury(y); }
    Div4Step(y);
    Div100Step(y);
    Div400Step(y);
    LeapsArith((y + 3) / 4, (y + 4) / 4, (y + 99) / 100, (y + 100) / 100, (y + 399) / 400, (y + 400) / 400, a, b, c);
    assert LeapsBefore(y + 1) == (y + 4) / 4 - (y + 100) / 100 + (y + 400) / 400;
  }

  lemma LeapsArith(p4: int, q4: int, p100: int, q100: int, p400: int, q400: int, a: bool, b: bool, c: bool)
    requires b ==> a
    requires c ==> b
    requires q4 == p4 + (if a then 1 else 0)
    requires q100 == p100 + (if b then 1 else 0)
    requires q400 == p400 + (if c then 1 else 0)
    ensures q4 - q100 + q400 == p4 - p100 + p400 + (if a && (!b || c) then 1 else 0)
  {
  }

  /** The closed form of the days before a year. */
  lemma {:induction false} DaysBeforeYearClosed(y: nat)
    ensures DaysBeforeYear(y) == 365 * y + LeapsBefore(y)
  {
    if y > 0 {
      DaysBeforeYearClosed(y - 1);
      LeapsStep(y - 1);
    }
  }

  /** The weekday advances by one with each day. */
  lemma WeekdayNext(d: Date)
    requires WellFormed(d)
    ensures Weekday(NextDay(d)) == (Weekday(d) + 1) % 7
  {
    NextDayNumber(d);
    WeekdayOfSuccessor(d, NextDay(d));
  }

  lemma WeekdayOfSuccessor(a: Date, b: Date)
    requires WellFormed(a) && WellFormed(b) && DayNumber(b) == DayNumber(a) + 1
    ensures Weekday(b) == (Weekday(a) + 1) % 7
  {
    ModSevenStep(DayNumber(a) + 6);
  }

  lemma ModSevenStep(k: nat)
    ensures (k + 1) % 7 == (k % 7 + 1) % 7
  {
  }

  /** Anchors against the calendar in use: 1 January 2026 was a Thursday
      and 3 January 2026 a Saturday. */
  lemma Weekdays2026()
    ensures Weekday(Date(2026, 1, 1)) == 4 && Weekday(Date(2026, 1, 3)) == 6
    ensures !IsWeekend(Date(2026, 1, 1)) && IsWeekend(Date(2026, 1, 3))
  {
    assert DaysBeforeYear(2026) == 739982 by {
      DaysBeforeYearClosed(2026);
    }
    assert DayNumber(Date(2026, 1, 1)) == 739982;
    assert DayNumber(Date(2026, 1, 3)) == 739984;
  }

  /** Ordering by day number is ordering by (year, month, day). */
  lemma DayNumberOrder(a: Date, b: Date)
    requires WellFormed(a) && WellFormed(b)
    ensures DayNumber(a) < DayNumber(b) <==>
              a.year < b.year
              || (a.year == b.year && a.month < b.month)
              || (a.year == b.year && a.month == b.month && a.day < b.day)
  {
    DayInYear(a);
    DayInYear(b);
    if a.year == b.year {
      if a.month < b.month {
        DaysBeforeMonthMonotone(a.year, a.month, b.month);
      } else if b.month < a.month {
        DaysBeforeMonthMonotone(a.year, b.month, a.month);
      }
    } else if a.year < b.year {
      DaysBeforeYearMonotone(a.year, b.year);
      if a.year + 1 < b.year {
        DaysBeforeYearMonotone(a.year + 1, b.year);
      }
    } else if b.year < a.year {
      DaysBeforeYearMonotone(b.year, a.year);
      if b.year + 1 < a.year {
        DaysBeforeYearMonotone(b.year + 1, a.year);
      }
    }
  }

  /** Different days have different numbers. */
  lemma DayNumberInjective(a: Date, b: Date)
    requires WellFormed(a) && WellFormed(b)
    requires DayNumber(a) == DayNumber(b)
    ensures a == b
  {
    DayNumberOrder(a, b);
    DayNumberOrder(b, a);
  }

  lemma DayNumbersDistinguishDays()
    ensures forall a, b :: WellFormed(a) && WellFormed(b) && DayNumber(a) == DayNumber(b) ==> a == b
  {
    forall a, b | WellFormed(a) && WellFormed(b) && DayNumber(a) == DayNumber(b)
      ensures a == b
    {
      DayNumberInjective(a, b);
    }
  }

  /** `toISOString().split('T')[0]`: the `YYYY-MM-DD` text of a day. */
  function Iso(d: Date): (s: string)
    requires Valid(d)
    ensures |s| == 10 && s[4] == '-' && s[7] == '-'
  {
    Padded(d.year, 4) + ("-" + (Padded(d.month, 2) + ("-" + Padded(d.day, 2))))
  }

  /** Strict `YYYY-MM-DD` parsing; any other text, and any day that does not
      exist (month 13, February 30), is not a date. */
  function ParseIso(s: string): (r: Option<Date>)
    ensures r.Some? ==> Valid(r.value)
  {
    if |s| == 10 && s[4] == '-' && s[7] == '-'
       && AllDigits(s[..4]) && AllDigits(s[5..7]) && AllDigits(s[8..])
    then
      DigitsBound(s[..4]);
      assert Pow10(4) == 10000;
      var d := Date(DigitsValue(s[..4]), DigitsValue(s[5..7]), DigitsValue(s[8..]));
      if 1 <= d.month <= 12 && 1 <= d.day <= DaysInMonth(d.year, d.month) then Some(d) else None
    else None
  }

  lemma DateTextSlices(y: string, m: string, d: string)
    requires |y| == 4 && |m| == 2 && |d| == 2
    ensures var s := y + ("-" + (m + ("-" + d)));
      s[..4] == y && s[5..7] == m && s[8..] == d && s[4] == '-' && s[7] == '-'
  {
  }

  /** Parsing the text of a day gives the day back. */
  lemma IsoRoundTrip(d: Date)
    requires Valid(d)
    ensures ParseIso(Iso(d)) == Some(d)
  {
    var y, m, dd := Padded(d.year, 4), Padded(d.month, 2), Padded(d.day, 2);
    var s := Iso(d);
    var t := y + ("-" + (m + ("-" + dd)));
    DateTextSlices(y, m, dd);
    assert |t| == |s|;
    forall i | 0 <= i < 10
      ensures s[i] == t[i]
    {
      if i < 4 {
        assert s[i] == y[i] == t[..4][i];
      } else if 5 <= i < 7 {
        assert s[i] == m[i - 5] == t[5..7][i - 5];
      } else if 8 <= i {
        assert s[i] == dd[i - 8] == t[8..][i - 8];
      }
    }
    DateTextSlices(y, m, dd);
  }

  /** A text that parses is the text of the day it parses to. */
  lemma ParseIsoExact(s: string)
    requires ParseIso(s).Some?
    ensures Iso(ParseIso(s).value) == s
  {
    var y, m, dd := s[..4], s[5..7], s[8..];
    PaddedOfDigits(y);
    PaddedOfDigits(m);
    PaddedOfDigits(dd);
    var d := ParseIso(s).value;
    assert d == Date(DigitsValue(y), DigitsValue(m), DigitsValue(dd));
    assert Padded(d.year, 4) == y && Padded(d.month, 2) == m && Padded(d.day, 2) == dd;
    var t := y + ("-" + (m + ("-" + dd)));
    DateTextSlices(y, m, dd);
    assert |t| == |s|;
    forall i | 0 <= i < 10
      ensures s[i] == t[i]
    {
      if i < 4 {
        assert s[i] == y[i] == t[..4][i];
      } else if 5 <= i < 7 {
        assert s[i] == m[i - 5] == t[5..7][i - 5];
      } else if 8 <= i {
        assert s[i] == dd[i - 8] == t[8..][i - 8];
      }
    }
  }

  /** Different days have different texts. */
  lemma IsoInjective(a: Date, b: Date)
    requires Valid(a) && Valid(b) && Iso(a) == Iso(b)
    ensures a == b
  {
    IsoRoundTrip(a);
    IsoRoundTrip(b);
  }

  /** Comparing the texts of two days as strings compares the days: this is
      why an ISO date string comparison orders dates correctly. */
  lemma IsoOrder(a: Date, b: Date)
    requires Valid(a) && Valid(b)
    ensures Less(Iso(a), Iso(b)) <==> DayNumber(a) < DayNumber(b)
  {
    DayNumberOrder(a, b);
    if a.year != b.year {
      IsoOrderByYear(a, b);
    } else {
      IsoOrderInYear(a, b);
    }
  }

  lemma IsoOrderByYear(a: Date, b: Date)
    requires Valid(a) && Valid(b) && a.year != b.year
    ensures Less(Iso(a), Iso(b)) <==> a.year < b.year
  {
    var ya, yb := Padded(a.year, 4), Padded(b.year, 4);
    var ra, rb := "-" + (Padded(a.month, 2) + ("-" + Padded(a.day, 2))), "-" + (Padded(b.month, 2) + ("-" + Padded(b.day, 2)));
    assert Pow10(4) == 10000;
    assert ya != yb;
    LessFirstDifference(ya, yb, ra, rb);
    PaddedLess(a.year, b.year, 4);
  }

  lemma IsoOrderInYear(a: Date, b: Date)
    requires Valid(a) && Valid(b) && a.year == b.year
    ensures Less(Iso(a), Iso(b)) <==> a.month < b.month || (a.month == b.month && a.day < b.day)
  {
    var ta := Padded(a.month, 2) + ("-" + Padded(a.day, 2));
    var tb := Padded(b.month, 2) + ("-" + Padded(b.day, 2));
    SharedYear(Padded(a.year, 4), ta, tb);
    if a.month != b.month {
      MonthDayOrderByMonth(a, b);
    } else {
      MonthDayOrderByDay(a, b);
    }
  }

  /** Texts that share their year and dash compare as what follows. */
  lemma SharedYear(y: string, ta: string, tb: string)
    ensures Less(y + ("-" + ta), y + ("-" + tb)) <==> Less(ta, tb)
  {
    LessCommonPrefix(y, "-" + ta, "-" + tb);
    LessCommonPrefix("-", ta, tb);
  }

  /** The `MM-DD` texts of days in different months compare as the months. */
  lemma MonthDayOrderByMonth(a: Date, b: Date)
    requires Valid(a) && Valid(b) && a.month != b.month
    ensures Less(Padded(a.month, 2) + ("-" + Padded(a.day, 2)), Padded(b.month, 2) + ("-" + Padded(b.day, 2)))
            <==> a.month < b.month
  {
    assert Pow10(2) == 100;
    var ma, mb := Padded(a.month, 2), Padded(b.month, 2);
    assert Less(ma, mb) <==> a.month < b.month by {
      PaddedLess(a.month, b.month, 2);
    }
    var ra, rb := "-" + Padded(a.day, 2), "-" + Padded(b.day, 2);
    assert Less(ma + ra, mb + rb) <==> Less(ma, mb) by {
      assert DigitsValue(ma) != DigitsValue(mb);
      LessFirstDifference(ma, mb, ra, rb);
    }
  }

  /** The `MM-DD` texts of days in one month compare as the days. */
  lemma MonthDayOrderByDay(a: Date, b: Date)
    requires Valid(a) && Valid(b) && a.month == b.month
    ensures Less(Padded(a.month, 2) + ("-" + Padded(a.day, 2)), Padded(b.month, 2) + ("-" + Padded(b.day, 2)))
            <==> a.day < b.day
  {
    assert Pow10(2) == 100;
    var da, db := Padded(a.day, 2), Padded(b.day, 2);
    assert Less(da, db) <==> a.day < b.day by {
      PaddedLess(a.day, b.day, 2);
    }
    LessCommonPrefix(Padded(a.month, 2), "-" + da, "-" + db);
    LessCommonPrefix("-", da, db);
  }
}
