/** Gregorian dates and Julian day numbers (muduo/base/Date.cc).

    The code computes with C++ division, which truncates toward zero.  The reference is the
    proleptic Gregorian calendar itself: month lengths, the leap-year rule and "the next day". */
module Calendar {
  import opened Arithmetic

  datatype YearMonthDay = YearMonthDay(year: int, month: int, day: int)

  const JULIAN_DAY_OF_1970_01_01 := 2440588

  // ---------- the calendar ----------

  predicate IsLeap(year: int) {
    year % 4 == 0 && (year % 100 != 0 || year % 400 == 0)
  }

  function DaysInMonth(year: int, month: int): int {
    if month == 2 then (if IsLeap(year) then 29 else 28)
    else if month == 4 || month == 6 || month == 9 || month == 11 then 30
    else 31
  }

  predicate ValidDate(d: YearMonthDay) {
    1 <= d.month <= 12 && 1 <= d.day <= DaysInMonth(d.year, d.month)
  }

  function NextDay(d: YearMonthDay): YearMonthDay {
    if d.day < DaysInMonth(d.year, d.month) then d.(day := d.day + 1)
    else if d.month < 12 then YearMonthDay(d.year, d.month + 1, 1)
    else YearMonthDay(d.year + 1, 1, 1)
  }

  // ---------- the code ----------

  /** The March-based year that getJulianDayNumber counts from. */
  function MarchYear(d: YearMonthDay): int {
    d.year + 4800 - TruncDiv(14 - d.month, 12)
  }

  function JulianDayNumber(d: YearMonthDay): int {
    var a := TruncDiv(14 - d.month, 12);
    var y := d.year + 4800 - a;
    var m := d.month + 12 * a - 3;
    d.day + TruncDiv(153 * m + 2, 5) + y * 365
    + TruncDiv(y, 4) - TruncDiv(y, 100) + TruncDiv(y, 400) - 32045
  }

  /** Day `e` of March-based year `100 * b + r`: the local variables of getYearMonthDay. */
  datatype MarchDay = MarchDay(b: int, r: int, e: int)

  function FromJulianDayNumber(n: int): YearMonthDay {
    DateOfMarchDay(MarchDayOf(n + 32044))
  }

  function MarchDayOf(a: int): MarchDay {
    var b := TruncDiv(4 * a + 3, 146097);
    var c := a - TruncDiv(b * 146097, 4);
    var d := TruncDiv(4 * c + 3, 1461);
    MarchDay(b, d, c - TruncDiv(1461 * d, 4))
  }

  function DateOfMarchDay(p: MarchDay): YearMonthDay {
    var m := TruncDiv(5 * p.e + 2, 153);
    YearMonthDay(p.b * 100 + p.r - 4800 + TruncDiv(m, 10),
                 m + 3 - 12 * TruncDiv(m, 10),
                 p.e - TruncDiv(153 * m + 2, 5) + 1)
  }

  function WeekDay(n: int): int {
    TruncMod(n + 1, 7)
  }

  // ---------- the same formulas over floor division: total on the integers ----------

  /** The day within a March-based year on which month m (0 = March) starts. */
  function MonthStart(m: int): int {
    (153 * m + 2) / 5
  }

  /** The days before the first of March of March-based year y. */
  function YearStart(y: int): int {
    y * 365 + y / 4 - y / 100 + y / 400
  }

  function DayNumber(d: YearMonthDay): int {
    var a := if d.month <= 2 then 1 else 0;
    d.day + MonthStart(d.month + 12 * a - 3) + YearStart(d.year + 4800 - a) - 32045
  }

  function SplitDay(a: int): MarchDay {
    var b := (4 * a + 3) / 146097;
    var c := a - b * 146097 / 4;
    var r := (4 * c + 3) / 1461;
    MarchDay(b, r, c - 1461 * r / 4)
  }

  function ToDate(p: MarchDay): YearMonthDay {
    var m := (5 * p.e + 2) / 153;
    YearMonthDay(p.b * 100 + p.r - 4800 + m / 10, m + 3 - 12 * (m / 10), p.e - MonthStart(m) + 1)
  }

  function CivilDate(n: int): YearMonthDay {
    ToDate(SplitDay(n + 32044))
  }

  // ---------- arithmetic of the formulas ----------

  lemma YearLength(y: int)
    ensures YearStart(y + 1) - YearStart(y) == if IsLeap(y + 1) then 366 else 365
  {
    QuotientStep(y, 4);
    QuotientStep(y, 100);
    QuotientStep(y, 400);
    Multiples(y + 1);
  }

  lemma Multiples(y: int)
    ensures y % 400 == 0 ==> y % 100 == 0
    ensures y % 100 == 0 ==> y % 4 == 0
  {
    if y % 400 == 0 {
      Quotient(y, 100, 4 * (y / 400));
    }
    if y % 100 == 0 {
      Quotient(y, 4, 25 * (y / 100));
    }
  }

  /** Month m of a March-based year: its length, with February (m == 11) counted in full. */
  function MarchMonthDays(m: int): int {
    if m == 11 then 29 else if m == 1 || m == 3 || m == 6 || m == 8 then 30 else 31
  }

  lemma MonthTable(m: int)
    requires 0 <= m < 12
    ensures m < 11 ==> MonthStart(m + 1) == MonthStart(m) + MarchMonthDays(m)
    ensures MonthStart(0) == 0 && MonthStart(11) == 337
  {
  }

  /** The month of day e of a March-based year. */
  lemma MonthOfDay(e: int, m: int)
    requires 0 <= m < 12 && MonthStart(m) <= e < MonthStart(m) + MarchMonthDays(m)
    ensures (5 * e + 2) / 153 == m
  {
  }

  lemma MonthExists(e: int)
    requires 0 <= e <= 365
    ensures var m := (5 * e + 2) / 153;
            0 <= m < 12 && MonthStart(m) <= e < MonthStart(m) + MarchMonthDays(m)
  {
  }

  /** A year inside its century: 0 <= r < 100. */
  lemma CenturySplit(b: int, r: int)
    requires 0 <= r < 100
    ensures YearStart(100 * b + r) == b * 146097 / 4 + 1461 * r / 4
    ensures IsLeap(100 * b + r + 1) <==> r % 4 == 3 && (r == 99 ==> b % 4 == 3)
  {
    var y := 100 * b + r;
    Quotient(y, 100, b);
    Quotient(y, 4, 25 * b + r / 4);
    Quotient(y, 400, b / 4);
    QuarterCentury(b);
    LeapInCentury(b, r);
  }

  lemma QuarterCentury(b: int)
    ensures b * 146097 / 4 == 36524 * b + b / 4
  {
    Quotient(b * 146097, 4, 36524 * b + b / 4);
  }

  lemma LeapInCentury(b: int, r: int)
    requires 0 <= r < 100
    ensures IsLeap(100 * b + r + 1) <==> r % 4 == 3 && (r == 99 ==> b % 4 == 3)
  {
    var y := 100 * b + r + 1;
    Quotient(y, 4, 25 * b + (r + 1) / 4);
    if r < 99 {
      Quotient(y, 100, b);
    } else {
      Quotient(y, 100, b + 1);
      Quotient(y, 400, (b + 1) / 4);
    }
  }

  predicate ValidMarchDay(p: MarchDay) {
    0 <= p.r < 100 && 0 <= p.e <= 365 && (p.e == 365 ==> p.r % 4 == 3 && (p.r == 99 ==> p.b % 4 == 3))
  }

  lemma QuarterYears(r: int)
    requires 0 <= r
    ensures r % 4 == 3 <==> 1461 * r % 4 == 3
    ensures 1461 * r / 4 == 365 * r + r / 4
  {
    Quotient(1461 * r, 4, 365 * r + r / 4);
  }

  lemma CenturyOfDay(p: MarchDay)
    requires ValidMarchDay(p)
    ensures (4 * (p.b * 146097 / 4 + 1461 * p.r / 4 + p.e) + 3) / 146097 == p.b
  {
    QuarterCentury(p.b);
    QuarterYears(p.r);
    Quotient(4 * (36524 * p.b + p.b / 4 + 365 * p.r + p.r / 4 + p.e) + 3, 146097, p.b);
  }

  lemma YearOfDay(p: MarchDay)
    requires ValidMarchDay(p)
    ensures (4 * (1461 * p.r / 4 + p.e) + 3) / 1461 == p.r
  {
    QuarterYears(p.r);
    Quotient(4 * (365 * p.r + p.r / 4 + p.e) + 3, 1461, p.r);
  }

  lemma SplitInvertsJoin(p: MarchDay)
    requires ValidMarchDay(p)
    ensures SplitDay(YearStart(100 * p.b + p.r) + p.e) == p
  {
    CenturySplit(p.b, p.r);
    CenturyOfDay(p);
    YearOfDay(p);
  }

  /** Every integer is a day of a March-based year. */
  lemma JoinInvertsSplit(a: int)
    ensures var p := SplitDay(a); ValidMarchDay(p) && YearStart(100 * p.b + p.r) + p.e == a
    ensures a >= 0 ==> SplitDay(a).b >= 0
  {
    var b := (4 * a + 3) / 146097;
    assert 146097 * b <= 4 * a + 3 < 146097 * b + 146097;
    QuarterCentury(b);
    var c := a - (36524 * b + b / 4);
    assert 0 <= c <= 36524;
    var r := (4 * c + 3) / 1461;
    assert 1461 * r <= 4 * c + 3 < 1461 * r + 1461;
    QuarterYears(r);
    assert 0 <= c - (365 * r + r / 4) <= 365;
    CenturySplit(b, r);
  }

  function FromDate(d: YearMonthDay): MarchDay {
    var a := if d.month <= 2 then 1 else 0;
    var y := d.year + 4800 - a;
    MarchDay(y / 100, y % 100, MonthStart(d.month + 12 * a - 3) + d.day - 1)
  }

  lemma FromDateValid(d: YearMonthDay)
    requires ValidDate(d)
    ensures var p := FromDate(d);
            ValidMarchDay(p) && ToDate(p) == d && DayNumber(d) == YearStart(100 * p.b + p.r) + p.e - 32044
  {
    var p := FromDate(d);
    var m := if d.month <= 2 then d.month + 9 else d.month - 3;
    MonthTable(m);
    MonthStarts(m);
    assert p.e == MonthStart(m) + d.day - 1;
    LeapShift(d.year);
    LeapInCentury(p.b, p.r);
    MonthOfDay(p.e, m);
  }

  lemma MonthStarts(m: int)
    requires 0 <= m < 12
    ensures 0 <= MonthStart(m) <= 337 && (m < 11 ==> MonthStart(m) + MarchMonthDays(m) <= 337)
  {
  }

  lemma ToDateValid(p: MarchDay)
    requires ValidMarchDay(p)
    ensures ValidDate(ToDate(p)) && DayNumber(ToDate(p)) == YearStart(100 * p.b + p.r) + p.e - 32044
    ensures MarchYear(ToDate(p)) == 100 * p.b + p.r
  {
    MonthExists(p.e);
    var m := (5 * p.e + 2) / 153;
    LeapInCentury(p.b, p.r);
    LeapShift(100 * p.b + p.r + 1 - 4800);
    assert m / 10 == if m < 10 then 0 else 1;
  }

  // ---------- the floor formulas are the calendar, on all integers ----------

  /** Successive calendar days get successive day numbers, so with the anchor at 1970-01-01
      DayNumber is the only such numbering. */
  lemma NextDayNumber(d: YearMonthDay)
    requires ValidDate(d)
    ensures ValidDate(NextDay(d)) && DayNumber(NextDay(d)) == DayNumber(d) + 1
  {
    if d.day < DaysInMonth(d.year, d.month) {
      hide YearStart, MonthStart, IsLeap;
    } else if d.month == 2 {
      MonthTable(11);
      hide YearStart, MonthStart;
      LeapShift(d.year);
      YearLength(d.year + 4799);
    } else {
      hide YearStart, MonthStart, IsLeap;
      MonthTable(if d.month == 1 then 10 else d.month - 3);
    }
  }

  lemma Epoch()
    ensures DayNumber(YearMonthDay(1970, 1, 1)) == JulianDayNumber(YearMonthDay(1970, 1, 1)) == JULIAN_DAY_OF_1970_01_01
  {
  }

  lemma LeapShift(year: int)
    ensures IsLeap(year + 4800) == IsLeap(year)
  {
    Quotient(year + 4800, 4, year / 4 + 1200);
    Quotient(year + 4800, 100, year / 100 + 48);
    Quotient(year + 4800, 400, year / 400 + 12);
  }

  lemma CivilDateInvertsDayNumber(d: YearMonthDay)
    requires ValidDate(d)
    ensures CivilDate(DayNumber(d)) == d
  {
    hide DayNumber, YearStart, SplitDay, ToDate, FromDate, ValidDate, ValidMarchDay;
    FromDateValid(d);
    SplitInvertsJoin(FromDate(d));
  }

  lemma DayNumberInvertsCivilDate(n: int)
    ensures ValidDate(CivilDate(n)) && DayNumber(CivilDate(n)) == n
  {
    hide DayNumber, YearStart, SplitDay, ToDate, ValidDate, ValidMarchDay;
    JoinInvertsSplit(n + 32044);
    ToDateValid(SplitDay(n + 32044));
  }

  // ---------- the code against the calendar ----------

  /** getJulianDayNumber numbers a calendar day correctly exactly when its March-based year does
      not precede -4800, or is itself a leap year (then no truncated quotient is off). */
  lemma JulianDayNumberCorrectIff(d: YearMonthDay)
    requires ValidDate(d)
    ensures JulianDayNumber(d) == DayNumber(d) <==> MarchYear(d) >= 0 || IsLeap(MarchYear(d))
  {
    var y := MarchYear(d);
    if y < 0 {
      TruncQuotients(y);
    }
  }

  lemma TruncQuotients(y: int)
    requires y < 0
    ensures TruncDiv(y, 4) - TruncDiv(y, 100) + TruncDiv(y, 400)
         == y / 4 - y / 100 + y / 400 + if IsLeap(y) then 0 else 1
  {
    hide TruncDiv;
    TruncIsCeiling(y, 4);
    TruncIsCeiling(y, 100);
    TruncIsCeiling(y, 400);
    Multiples(y);
  }

  lemma DayBeforeRange(a: int)
    requires a < 0
    ensures MarchDayOf(a).e <= -1
  {
  }

  lemma DateBeforeRange(p: MarchDay)
    requires p.e <= -1
    ensures DateOfMarchDay(p).day <= 0
  {
  }

  lemma SplitIsFloor(a: int)
    requires a >= 0
    ensures SplitDay(a) == MarchDayOf(a)
  {
    var b := (4 * a + 3) / 146097;
    assert 146097 * b <= 4 * a + 3;
    assert b >= 0;
    var c := a - b * 146097 / 4;
    assert c >= 0;
  }

  lemma MonthIsFloor(p: MarchDay)
    requires p.e >= 0
    ensures ToDate(p) == DateOfMarchDay(p)
  {
  }

  /** From -4800-03-01 on nothing negative is divided. */
  lemma CodeIsFloor(n: int)
    requires n >= -32044
    ensures FromJulianDayNumber(n) == CivilDate(n)
  {
    assert SplitDay(n + 32044).e >= 0 by { JoinInvertsSplit(n + 32044); }
    SplitIsFloor(n + 32044);
    MonthIsFloor(SplitDay(n + 32044));
  }

  lemma MarchYearInRange(n: int)
    requires n >= -32044
    ensures MarchYear(CivilDate(n)) >= 0
  {
    JoinInvertsSplit(n + 32044);
    ToDateValid(SplitDay(n + 32044));
  }

  /** getYearMonthDay returns a calendar date exactly for day numbers from -32044 on, and there
      getJulianDayNumber undoes it. */
  lemma FromJulianDayNumberCorrectIff(n: int)
    ensures ValidDate(FromJulianDayNumber(n)) <==> n >= -32044
    ensures n >= -32044 ==> JulianDayNumber(FromJulianDayNumber(n)) == n
  {
    if n >= -32044 {
      hide DayNumber, JulianDayNumber, CivilDate, FromJulianDayNumber, ValidDate, MarchYear;
      CodeIsFloor(n);
      MarchYearInRange(n);
      DayNumberInvertsCivilDate(n);
      JulianDayNumberCorrectIff(CivilDate(n));
    } else {
      DayBeforeRange(n + 32044);
      DateBeforeRange(MarchDayOf(n + 32044));
    }
  }

  /** The other composition: every calendar date from -4800-03-01 on survives the round trip, and
      its successor gets the successive number. */
  lemma JulianDayRoundTrip(d: YearMonthDay)
    requires ValidDate(d) && MarchYear(d) >= 0
    ensures JulianDayNumber(d) >= -32044
    ensures FromJulianDayNumber(JulianDayNumber(d)) == d
    ensures JulianDayNumber(NextDay(d)) == JulianDayNumber(d) + 1
  {
    hide DayNumber, JulianDayNumber, CivilDate, FromJulianDayNumber, ValidDate, MarchYear;
    JulianIsDayNumber(d);
    NumberInRange(d);
    CivilDateInvertsDayNumber(d);
    CodeIsFloor(DayNumber(d));
    NextDayNumber(d);
    JulianIsDayNumber(NextDay(d));
  }

  lemma JulianIsDayNumber(d: YearMonthDay)
    requires ValidDate(d) && MarchYear(d) >= 0
    ensures JulianDayNumber(d) == DayNumber(d)
    ensures MarchYear(NextDay(d)) >= 0
  {
  }

  lemma NumberInRange(d: YearMonthDay)
    requires ValidDate(d) && MarchYear(d) >= 0
    ensures DayNumber(d) >= -32044
  {
  }

  /** weekDay names the day of the week exactly from day number -1 on and, before, on Sundays only:
      elsewhere the truncating remainder is negative. */
  lemma WeekDayCorrectIff(n: int)
    ensures WeekDay(n) == (n + 1) % 7 <==> n >= -1 || (n + 1) % 7 == 0
    ensures 0 <= WeekDay(n) <==> n >= -1 || (n + 1) % 7 == 0
    ensures -6 <= WeekDay(n) <= 6
  {
    if n < -1 {
      TruncIsCeiling(n + 1, 7);
    }
  }

  /** 1970-01-01 was a Thursday, and week days follow each other from day number -1 on. */
  lemma WeekDaysFollow(n: int)
    requires n >= -1
    ensures WeekDay(n + 1) == (WeekDay(n) + 1) % 7
    ensures WeekDay(JULIAN_DAY_OF_1970_01_01) == 4
  {
  }

  /** The day of the year, counted from 0. */
  lemma DayOfYear(d: YearMonthDay)
    requires ValidDate(d)
    ensures 0 <= DayNumber(d) - DayNumber(YearMonthDay(d.year, 1, 1)) < if IsLeap(d.year) then 366 else 365
  {
    hide YearStart, IsLeap;
    YearLength(d.year + 4799);
    LeapShift(d.year);
    assert MonthStart(10) == 306;
    DayInYear(d);
  }

  /** The same, counted from the first of March or, in January and February, of January. */
  lemma DayInYear(d: YearMonthDay)
    requires ValidDate(d)
    ensures d.month <= 2 ==> 306 <= MonthStart(d.month + 9) + d.day - 1 <= 306 + 59
    ensures d.month > 2 ==> 0 <= MonthStart(d.month - 3) + d.day - 1 < 306
  {
    hide IsLeap;
    MonthTable(if d.month <= 2 then d.month + 9 else d.month - 3);
    MonthStarts(if d.month <= 2 then d.month + 9 else d.month - 3);
    assert MonthStart(9) == 275;
  }

  /** For the years the header documents, every product and sum both conversions form stays inside
      32 bits; all are positive. */
  lemma NoOverflow(d: YearMonthDay)
    requires ValidDate(d) && 1900 <= d.year <= 2500
    ensures var m := d.month + 12 * TruncDiv(14 - d.month, 12) - 3; var y := MarchYear(d);
            && 0 <= 153 * m + 2 < 0x8000_0000 && 0 <= y * 365 < 0x8000_0000
            && 0 <= d.day + (153 * m + 2) / 5 + y * 365 + y / 4 < 0x8000_0000 && 0 <= JulianDayNumber(d) < 0x8000_0000
    ensures var a := JulianDayNumber(d) + 32044; var p := MarchDayOf(a);
            && 0 <= a && 0 <= 4 * a + 3 < 0x8000_0000
            && 0 <= p.b * 146097 < 0x8000_0000 && 0 <= 4 * (a - p.b * 146097 / 4) + 3 < 0x8000_0000
            && 0 <= 1461 * p.r < 0x8000_0000 && 0 <= 5 * p.e + 2 < 0x8000_0000
            && 0 <= 153 * ((5 * p.e + 2) / 153) + 2 < 0x8000_0000 && 0 <= p.b * 100 + p.r < 0x8000_0000
  {
    NumberBounds(d);
    hide ValidDate, JulianDayNumber, MarchDayOf;
    MarchDayBounds(JulianDayNumber(d) + 32044);
  }

  lemma NumberBounds(d: YearMonthDay)
    requires ValidDate(d) && 1900 <= d.year <= 2500
    ensures 6699 <= MarchYear(d) <= 7300 && 0 <= JulianDayNumber(d) < 2_700_000
    ensures 0 <= d.month + 12 * TruncDiv(14 - d.month, 12) - 3 <= 11
  {
  }

  lemma MarchDayBounds(a: int)
    requires 0 <= a < 3_000_000
    ensures var p := MarchDayOf(a);
            0 <= p.b < 83 && 0 <= a - p.b * 146097 / 4 <= 36524 && 0 <= p.r < 100 && 0 <= p.e <= 365
  {
    hide YearStart, MarchDayOf;
    SplitIsFloor(a);
    JoinInvertsSplit(a);
    CenturyBounds(a);
  }

  lemma CenturyBounds(a: int)
    requires 0 <= a < 3_000_000
    ensures 0 <= SplitDay(a).b < 83 && 0 <= a - SplitDay(a).b * 146097 / 4 <= 36524
  {
    var b := (4 * a + 3) / 146097;
    assert 146097 * b <= 4 * a + 3 < 146097 * b + 146097;
    QuarterCentury(b);
  }
}
