/** Proleptic Gregorian dates as Python's datetime has them (years 1 to 9999):
    strptime with "%d/%m/%Y", subtracting whole days, strftime with "%d/%m/%Y". */
module Calendar {
  import opened Wrappers
  import opened Strings

  datatype Date = Date(year: int, month: int, day: int)

  predicate IsLeapYear(y: int) {
    y % 4 == 0 && (y % 100 != 0 || y % 400 == 0)
  }

  function DaysInMonth(y: int, m: int): (n: int)
    requires 1 <= m <= 12
    ensures 28 <= n <= 31
  {
    if m == 2 then (if IsLeapYear(y) then 29 else 28)
    else if m == 4 || m == 6 || m == 9 || m == 11 then 30
    else 31
  }

  /** datetime.MINYEAR .. datetime.MAXYEAR, a real month, a day of that month. */
  predicate Valid(d: Date) {
    1 <= d.year <= 9999 && 1 <= d.month <= 12 && 1 <= d.day <= DaysInMonth(d.year, d.month)
  }

  /** Days in the months of year y before month m (m = 13 gives the whole year). */
  function DaysBeforeMonth(y: int, m: int): (n: int)
    requires 1 <= m <= 13
    ensures 0 <= n
  {
    [0, 31, 59, 90, 120, 151, 181, 212, 243, 273, 304, 334, 365][m - 1]
      + (if m > 2 && IsLeapYear(y) then 1 else 0)
  }

  function YearLength(y: int): int {
    if IsLeapYear(y) then 366 else 365
  }

  lemma MonthStep(y: int, m: int)
    requires 1 <= m <= 12
    ensures DaysBeforeMonth(y, m + 1) == DaysBeforeMonth(y, m) + DaysInMonth(y, m)
  {
  }

  /** Days in the years before year y (from 1 January of year 1). */
  function DaysBeforeYear(y: int): (n: int)
    requires 1 <= y
    ensures 0 <= n
    decreases y
  {
    if y == 1 then 0 else DaysBeforeYear(y - 1) + YearLength(y - 1)
  }

  /** The recursive count agrees with the closed form of Python's date.toordinal(). */
  lemma {:induction false} DaysBeforeYearClosedForm(y: int)
    requires 1 <= y
    ensures var p := y - 1; DaysBeforeYear(y) == 365 * p + p / 4 - p / 100 + p / 400
    decreases y
  {
    if y > 1 {
      var p := y - 2;
      DaysBeforeYearClosedForm(p + 1);
      ClosedFormStep(p, DaysBeforeYear(p + 1));
    }
  }

  lemma ClosedFormStep(p: int, d: int)
    requires 0 <= p && d == 365 * p + p / 4 - p / 100 + p / 400
    ensures d + YearLength(p + 1) == 365 * (p + 1) + (p + 1) / 4 - (p + 1) / 100 + (p + 1) / 400
  {
    DivSucc(p);
    LeapCount(p + 1);
  }

  /** A year's length by the three leap rules, each counted on its own. */
  lemma LeapCount(n: int)
    ensures YearLength(n) == 365 + (if n % 4 == 0 then 1 else 0) - (if n % 100 == 0 then 1 else 0)
                                 + (if n % 400 == 0 then 1 else 0)
  {
    if n % 400 == 0 {
      assert n == 100 * (4 * (n / 400));
      assert n % 100 == 0;
    }
    if n % 100 == 0 {
      assert n == 4 * (25 * (n / 100));
      assert n % 4 == 0;
    }
  }

  /** Counting one more year: each count of leap-rule multiples grows
      exactly at a multiple. */
  lemma DivSucc(p: int)
    requires 0 <= p
    ensures (p + 1) / 4 == p / 4 + (if (p + 1) % 4 == 0 then 1 else 0)
    ensures (p + 1) / 100 == p / 100 + (if (p + 1) % 100 == 0 then 1 else 0)
    ensures (p + 1) / 400 == p / 400 + (if (p + 1) % 400 == 0 then 1 else 0)
  {
  }

  /** The day's number counted from 1 January of year 1 = 1, as date.toordinal(). */
  function Ordinal(d: Date): int
    requires Valid(d)
  {
    DaysBeforeYear(d.year) + DaysBeforeMonth(d.year, d.month) + d.day
  }

  /** The day before d; None before 1 January of year 1, where datetime overflows. */
  function PrevDay(d: Date): (r: Option<Date>)
    requires Valid(d)
    ensures r.Some? <==> d != Date(1, 1, 1)
    ensures r.Some? ==> Valid(r.value) && Ordinal(r.value) == Ordinal(d) - 1
  {
    if d.day > 1 then Some(Date(d.year, d.month, d.day - 1))
    else if d.month > 1 then
      MonthStep(d.year, d.month - 1);
      Some(Date(d.year, d.month - 1, DaysInMonth(d.year, d.month - 1)))
    else if d.year > 1 then
      MonthStep(d.year - 1, 12);
      Some(Date(d.year - 1, 12, 31))
    else None
  }

  /** The day after d; None after 31 December 9999. */
  function NextDay(d: Date): (r: Option<Date>)
    requires Valid(d)
    ensures r.Some? <==> d != Date(9999, 12, 31)
    ensures r.Some? ==> Valid(r.value) && Ordinal(r.value) == Ordinal(d) + 1
  {
    if d.day < DaysInMonth(d.year, d.month) then Some(Date(d.year, d.month, d.day + 1))
    else if d.month < 12 then
      MonthStep(d.year, d.month);
      Some(Date(d.year, d.month + 1, 1))
    else if d.year < 9999 then
      MonthStep(d.year, 12);
      Some(Date(d.year + 1, 1, 1))
    else None
  }

  /** Valid dates are told apart by their ordinals. */
  lemma {:induction false} OrdinalInjective(a: Date, b: Date)
    requires Valid(a) && Valid(b) && Ordinal(a) == Ordinal(b)
    ensures a == b
  {
    if a.year < b.year {
      YearsApart(a, b);
    } else if b.year < a.year {
      YearsApart(b, a);
    } else if a.month < b.month {
      MonthsApart(a.year, a.month, b.month);
    } else if b.month < a.month {
      MonthsApart(a.year, b.month, a.month);
    }
  }

  lemma {:induction false} MonthsApart(y: int, m1: int, m2: int)
    requires 1 <= m1 < m2 <= 13
    ensures DaysBeforeMonth(y, m2) >= DaysBeforeMonth(y, m1) + DaysInMonth(y, m1)
    decreases m2 - m1
  {
    MonthStep(y, m1);
    if m1 + 1 < m2 {
      MonthsApart(y, m1 + 1, m2);
    }
  }

  lemma YearsApart(a: Date, b: Date)
    requires Valid(a) && Valid(b) && a.year < b.year
    ensures Ordinal(a) < Ordinal(b)
  {
    MonthsApart(a.year, a.month, 13);
    assert Ordinal(a) <= DaysBeforeYear(a.year) + DaysBeforeMonth(a.year, 13);
    YearsMonotone(a.year + 1, b.year);
    assert DaysBeforeYear(b.year) < Ordinal(b);
  }

  lemma {:induction false} YearsMonotone(y1: int, y2: int)
    requires 1 <= y1 <= y2
    ensures DaysBeforeYear(y1) <= DaysBeforeYear(y2)
    decreases y2 - y1
  {
    if y1 < y2 {
      YearsMonotone(y1 + 1, y2);
    }
  }

  lemma NextOfPrev(d: Date)
    requires Valid(d) && PrevDay(d).Some?
    ensures NextDay(PrevDay(d).value) == Some(d)
  {
    OrdinalInjective(NextDay(PrevDay(d).value).value, d);
  }

  lemma PrevOfNext(d: Date)
    requires Valid(d) && NextDay(d).Some?
    ensures PrevDay(NextDay(d).value) == Some(d)
  {
    OrdinalInjective(PrevDay(NextDay(d).value).value, d);
  }

  /** d minus n days, as datetime - DateOffset(days=n); None on underflow. */
  function DaysBefore(d: Date, n: nat): (r: Option<Date>)
    requires Valid(d)
    ensures r.Some? ==> Valid(r.value)
    decreases n
  {
    if n == 0 then Some(d)
    else
      var p :- PrevDay(d);
      DaysBefore(p, n - 1)
  }

  /** Stepping back n days moves the ordinal back by exactly n, across month,
      year and leap-day boundaries, and fails only before year 1. */
  lemma {:induction false} DaysBeforeOrdinal(d: Date, n: nat)
    requires Valid(d)
    ensures DaysBefore(d, n).Some? <==> Ordinal(d) - n >= 1
    ensures DaysBefore(d, n).Some? ==> Ordinal(DaysBefore(d, n).value) == Ordinal(d) - n
    decreases n
  {
    if n > 0 {
      var p := PrevDay(d);
      if p.None? {
        FirstOrdinal(d);
      } else {
        DaysBeforeOrdinal(p.value, n - 1);
        StepBack(Ordinal(d), Ordinal(p.value), n, DaysBefore(p.value, n - 1).Some?);
      }
    }
  }

  lemma FirstOrdinal(d: Date)
    requires d == Date(1, 1, 1)
    ensures Valid(d) && Ordinal(d) == 1
  {
  }

  lemma StepBack(o: int, op: int, n: int, some: bool)
    requires op == o - 1 && (some <==> op - (n - 1) >= 1)
    ensures some <==> o - n >= 1
    ensures op - (n - 1) == o - n
  {
  }

  // Parsing, with the field patterns strptime uses:
  // %d = 3[01] | [12]\d | 0[1-9] | [1-9] | " "[1-9]; %m = 1[0-2] | 0[1-9] | [1-9]; %Y = \d\d\d\d.

  function ParseDayField(f: string): (r: Option<int>)
    ensures r.Some? ==> 1 <= r.value <= 31
  {
    if |f| == 1 && '1' <= f[0] <= '9' then Some(DigitValue(f[0]))
    else if |f| == 2 && f[0] == ' ' && '1' <= f[1] <= '9' then Some(DigitValue(f[1]))
    else if |f| == 2 && AllDigits(f) && 1 <= DigitsToNat(f) <= 31 then Some(DigitsToNat(f))
    else None
  }

  function ParseMonthField(f: string): (r: Option<int>)
    ensures r.Some? ==> 1 <= r.value <= 12
  {
    if |f| == 1 && '1' <= f[0] <= '9' then Some(DigitValue(f[0]))
    else if |f| == 2 && AllDigits(f) && 1 <= DigitsToNat(f) <= 12 then Some(DigitsToNat(f))
    else None
  }

  function ParseYearField(f: string): Option<int>
  {
    if |f| == 4 && AllDigits(f) then Some(DigitsToNat(f)) else None
  }

  /** datetime.strptime(s, "%d/%m/%Y"): None where it raises ValueError (a field
      that does not match, or a day the month does not have, or year 0). */
  function ParseDate(s: string): (r: Option<Date>)
    ensures r.Some? ==> Valid(r.value)
  {
    var parts := Split(s, '/');
    if |parts| != 3 then None
    else
      var day :- ParseDayField(parts[0]);
      var month :- ParseMonthField(parts[1]);
      var year :- ParseYearField(parts[2]);
      var d := Date(year, month, day);
      if Valid(d) then Some(d) else None
  }

  /** d.strftime("%d/%m/%Y"). */
  function FormatDate(d: Date): (s: string)
    requires Valid(d)
    ensures |s| == 10 && s[2] == '/' && s[5] == '/'
  {
    Pad2(d.day) + "/" + Pad2(d.month) + "/" + Pad4(d.year)
  }

  lemma ParseFormatDate(d: Date)
    requires Valid(d)
    ensures ParseDate(FormatDate(d)) == Some(d)
  {
    var a, b, c := Pad2(d.day), Pad2(d.month), Pad4(d.year);
    SplitDate(a, b, c);
    DayField(d.day);
    MonthField(d.month);
  }

  /** Three digit strings joined by '/' split back into the three. */
  lemma SplitDate(a: string, b: string, c: string)
    requires AllDigits(a) && AllDigits(b) && AllDigits(c)
    ensures Split(a + "/" + b + "/" + c, '/') == [a, b, c]
  {
    assert '/' !in a && '/' !in b && '/' !in c by {
      assert !IsDigit('/');
    }
    assert a + "/" + b + "/" + c == a + ['/'] + (b + ['/'] + c);
    SplitCons(a, b + ['/'] + c, '/');
    SplitAround(b, c, '/');
  }

  /** A zero-padded day reads back through %d. */
  lemma DayField(n: int)
    requires 1 <= n <= 31
    ensures ParseDayField(Pad2(n)) == Some(n)
  {
    var f := Pad2(n);
    assert IsDigit(f[0]);
  }

  /** A zero-padded month reads back through %m. */
  lemma MonthField(n: int)
    requires 1 <= n <= 12
    ensures ParseMonthField(Pad2(n)) == Some(n)
  {
  }

  /** The serviced period of a pay period ending on `end`: the six days before
      it through the end date, "DD/MM/YYYY - DD/MM/YYYY"; None when the start
      falls before year 1. */
  function ServicedPeriod(end: Date): (r: Option<string>)
    requires Valid(end)
  {
    var start :- DaysBefore(end, 6);
    Some(FormatDate(start) + " - " + FormatDate(end))
  }

  /** The period's start is exactly six days before its end, and the string
      shows both dates in the format that parses back to them. */
  lemma ServicedPeriodSpan(end: Date)
    requires Valid(end) && ServicedPeriod(end).Some?
    ensures var s := ServicedPeriod(end).value;
            |s| == 23 && s[10..13] == " - " &&
            ParseDate(s[..10]).Some? && ParseDate(s[13..]) == Some(end) &&
            Ordinal(ParseDate(s[..10]).value) == Ordinal(end) - 6
  {
    var start := DaysBefore(end, 6).value;
    DaysBeforeOrdinal(end, 6);
    ParseFormatDate(start);
    ParseFormatDate(end);
    assert ServicedPeriod(end).value == FormatDate(start) + " - " + FormatDate(end);
    PeriodText(FormatDate(start), FormatDate(end));
  }

  lemma PeriodText(a: string, b: string)
    requires |a| == 10 && |b| == 10
    ensures var s := a + " - " + b;
            |s| == 23 && s[10..13] == " - " && s[..10] == a && s[13..] == b
  {
  }
}
