/** UTC break-down and local time (muduo/base/TimeZone.cc). */
module TimeZones {
  import opened Arithmetic
  import opened Calendar

  const SECONDS_PER_DAY := 86400

  /** The fields of `struct tm` the code reads or writes; tm_zone is not modelled. */
  datatype Tm = Tm(year: int, mon: int, mday: int, hour: int, min: int, sec: int,
                   wday: int, yday: int, isdst: bool, gmtoff: int)

  function DateOf(tm: Tm): YearMonthDay {
    YearMonthDay(tm.year + 1900, tm.mon + 1, tm.mday)
  }

  /** Date and time of day in range: the fields a second count is computed from. */
  predicate ValidDateTime(tm: Tm) {
    && ValidDate(DateOf(tm))
    && 0 <= tm.hour < 24 && 0 <= tm.min < 60 && 0 <= tm.sec < 60
  }

  /** All fields in range, week day and day of the year included. */
  predicate ValidTm(tm: Tm) {
    && ValidDateTime(tm)
    && 0 <= tm.wday < 7 && 0 <= tm.yday < if IsLeap(tm.year + 1900) then 366 else 365
  }

  function FillHMS(seconds: nat, tm: Tm): Tm {
    tm.(sec := seconds % 60, min := seconds / 60 % 60, hour := seconds / 60 / 60)
  }

  // ---------- UTC ----------

  function ToUtcTime(t: int, yday: bool): Tm {
    var s := TruncMod(t, SECONDS_PER_DAY);
    var q := TruncDiv(t, SECONDS_PER_DAY);
    var seconds := if s < 0 then s + SECONDS_PER_DAY else s;
    var days := if s < 0 then q - 1 else q;
    assert seconds >= 0 && seconds == t % SECONDS_PER_DAY && days == t / SECONDS_PER_DAY by { FloorOfTrunc(t); }
    var n := days + JULIAN_DAY_OF_1970_01_01;
    var d := FromJulianDayNumber(n);
    FillHMS(seconds, Tm(d.year - 1900, d.month - 1, d.day, 0, 0, 0, WeekDay(n),
                        if yday then n - JulianDayNumber(YearMonthDay(d.year, 1, 1)) else 0, false, 0))
  }

  function FromUtcTime(tm: Tm): int {
    var days := JulianDayNumber(DateOf(tm)) - JULIAN_DAY_OF_1970_01_01;
    days * SECONDS_PER_DAY + (tm.hour * 3600 + tm.min * 60 + tm.sec)
  }

  /** The sign correction turns C++ quotient and remainder into floor ones. */
  lemma FloorOfTrunc(t: int)
    ensures var s := TruncMod(t, SECONDS_PER_DAY); var q := TruncDiv(t, SECONDS_PER_DAY);
            && t % SECONDS_PER_DAY == (if s < 0 then s + SECONDS_PER_DAY else s)
            && t / SECONDS_PER_DAY == (if s < 0 then q - 1 else q)
  {
  }

  /** gmtime_r and timegm, on all integers. */
  function GmTime(t: int): Tm {
    var n := t / SECONDS_PER_DAY + JULIAN_DAY_OF_1970_01_01;
    var d := CivilDate(n);
    FillHMS(t % SECONDS_PER_DAY, Tm(d.year - 1900, d.month - 1, d.day, 0, 0, 0, (n + 1) % 7,
                                    n - DayNumber(YearMonthDay(d.year, 1, 1)), false, 0))
  }

  function TimeGm(tm: Tm): int {
    (DayNumber(DateOf(tm)) - JULIAN_DAY_OF_1970_01_01) * SECONDS_PER_DAY + tm.hour * 3600 + tm.min * 60 + tm.sec
  }

  lemma HMSRoundTrip(seconds: nat, tm: Tm)
    requires seconds < SECONDS_PER_DAY
    ensures var r := FillHMS(seconds, tm);
            && r.hour * 3600 + r.min * 60 + r.sec == seconds
            && 0 <= r.hour < 24 && 0 <= r.min < 60 && 0 <= r.sec < 60
  {
  }

  lemma HMSUnique(h: int, m: int, s: int)
    requires 0 <= h && 0 <= m < 60 && 0 <= s < 60
    ensures var t := h * 3600 + m * 60 + s; t % 60 == s && t / 60 % 60 == m && t / 60 / 60 == h
  {
  }

  lemma TimeGmInvertsGmTime(t: int)
    ensures ValidTm(GmTime(t)) && TimeGm(GmTime(t)) == t
  {
    hide CivilDate, DayNumber, ValidDate, IsLeap;
    var n := t / SECONDS_PER_DAY + JULIAN_DAY_OF_1970_01_01;
    DayNumberInvertsCivilDate(n);
    assert DateOf(GmTime(t)) == CivilDate(n);
    DayOfYear(CivilDate(n));
    HMSRoundTrip(t % SECONDS_PER_DAY, GmTime(t));
  }

  /** The day number toUtcTime computes with. */
  function DayOf(t: int): int {
    t / SECONDS_PER_DAY + JULIAN_DAY_OF_1970_01_01
  }

  lemma ToUtcTimeFields(t: int, yday: bool)
    ensures var tm := ToUtcTime(t, yday); var n := DayOf(t);
            && DateOf(tm) == FromJulianDayNumber(n) && tm.wday == WeekDay(n)
            && tm.yday == (if yday then n - JulianDayNumber(YearMonthDay(FromJulianDayNumber(n).year, 1, 1)) else 0)
            && tm.isdst == false && tm.gmtoff == 0
            && tm.hour * 3600 + tm.min * 60 + tm.sec == t % SECONDS_PER_DAY
            && 0 <= tm.hour < 24 && 0 <= tm.min < 60 && 0 <= tm.sec < 60
  {
    hide FromJulianDayNumber, JulianDayNumber, TruncDiv, TruncMod, WeekDay;
    FloorOfTrunc(t);
    HMSRoundTrip(t % SECONDS_PER_DAY, ToUtcTime(t, yday));
  }

  /** The first second whose date toUtcTime gets right: -4800-03-01 00:00:00. */
  const FIRST_UTC_SECOND := (-32044 - JULIAN_DAY_OF_1970_01_01) * SECONDS_PER_DAY

  /** The week day of such a time is a week day exactly from day number -1 on, or on a Sunday. */
  predicate WeekDayWorks(t: int) {
    DayOf(t) >= -1 || (DayOf(t) + 1) % 7 == 0
  }

  lemma UtcDateTimeIff(t: int, yday: bool)
    ensures ValidDateTime(ToUtcTime(t, yday)) <==> t >= FIRST_UTC_SECOND
    ensures t >= FIRST_UTC_SECOND ==> FromUtcTime(ToUtcTime(t, yday)) == t
  {
    hide FromJulianDayNumber, JulianDayNumber, WeekDay, ToUtcTime, ValidDate;
    ToUtcTimeFields(t, yday);
    FromJulianDayNumberCorrectIff(DayOf(t));
  }

  /** toUtcTime yields a date and a time of day in range exactly from FIRST_UTC_SECOND on, negative
      times included, and from there fromUtcTime undoes it.  All fields are in range exactly where
      the week day, in addition, is not negative. */
  lemma UtcRoundTripIff(t: int, yday: bool)
    ensures ValidDateTime(ToUtcTime(t, yday)) <==> t >= FIRST_UTC_SECOND
    ensures t >= FIRST_UTC_SECOND ==> FromUtcTime(ToUtcTime(t, yday)) == t
    ensures ValidTm(ToUtcTime(t, yday)) <==> t >= FIRST_UTC_SECOND && WeekDayWorks(t)
  {
    hide FromJulianDayNumber, JulianDayNumber, WeekDay, ToUtcTime, FromUtcTime, ValidDateTime, IsLeap;
    UtcDateTimeIff(t, yday);
    ToUtcTimeFields(t, yday);
    WeekDayCorrectIff(DayOf(t));
    if t >= FIRST_UTC_SECOND {
      YearDayOff(DayOf(t));
    }
  }

  /** What toUtcTime computes for tm_yday: the day of the year, except in the year -4800, whose first
      of January lies before the range of getJulianDayNumber: one day too few. */
  lemma YearDayOff(n: int)
    requires n >= -32044
    ensures var d := FromJulianDayNumber(n);
            var yday := n - JulianDayNumber(YearMonthDay(d.year, 1, 1));
            && d == CivilDate(n)
            && yday == n - DayNumber(YearMonthDay(d.year, 1, 1)) - (if n >= -31738 then 0 else 1)
            && 0 <= yday < if IsLeap(d.year) then 366 else 365
  {
    hide FromJulianDayNumber, JulianDayNumber, DayNumber, CivilDate, TruncDiv, ValidDate, IsLeap;
    var d := CivilDate(n);
    CodeIsFloor(n);
    DayNumberInvertsCivilDate(n);
    DayOfYear(d);
    FirstYear(n);
    NewYearNumber(d.year);
  }

  lemma NewYearNumber(year: int)
    requires year >= -4800
    ensures JulianDayNumber(YearMonthDay(year, 1, 1))
         == DayNumber(YearMonthDay(year, 1, 1)) + if year > -4800 then 0 else 1
  {
    if year > -4800 {
      JulianDayNumberCorrectIff(YearMonthDay(year, 1, 1));
    }
  }

  /** The year -4800 ends with day number -31739, and its part from March on is what is in range. */
  lemma FirstYear(n: int)
    requires n >= -32044
    ensures CivilDate(n).year >= -4800 && (CivilDate(n).year > -4800 <==> n >= -31738)
    ensures n < -31738 ==> n - DayNumber(YearMonthDay(-4800, 1, 1)) >= 60
  {
    hide DayNumber, CivilDate, ValidDate, IsLeap;
    var d := CivilDate(n);
    DayNumberInvertsCivilDate(n);
    DayOfYear(d);
    FirstNewYears();
    if d.year > -4800 {
      YearsAscend(-4799, d.year);
    } else if d.year < -4800 {
      YearsAscend(d.year + 1, -4800);
      NewYearFollows(d.year);
    } else {
      NewYearFollows(-4800);
    }
  }

  lemma FirstNewYears()
    ensures DayNumber(YearMonthDay(-4799, 1, 1)) == -31738 && DayNumber(YearMonthDay(-4800, 1, 1)) == -32104
  {
  }

  lemma NewYearFollows(year: int)
    ensures DayNumber(YearMonthDay(year + 1, 1, 1))
         == DayNumber(YearMonthDay(year, 1, 1)) + if IsLeap(year) then 366 else 365
  {
    YearLength(year + 4799);
    LeapShift(year);
  }

  lemma {:induction false} YearsAscend(y: int, z: int)
    requires y <= z
    ensures DayNumber(YearMonthDay(y, 1, 1)) <= DayNumber(YearMonthDay(z, 1, 1))
    decreases z - y
  {
    hide DayNumber, IsLeap;
    if y < z {
      NewYearFollows(y);
      YearsAscend(y + 1, z);
    }
  }

  /** Conversely every calendar time from -4800-03-01 on comes back from its second count. */
  lemma UtcFieldsRoundTrip(tm: Tm, yday: bool)
    requires ValidDateTime(tm) && MarchYear(DateOf(tm)) >= 0
    ensures var r := ToUtcTime(FromUtcTime(tm), yday);
            r.year == tm.year && r.mon == tm.mon && r.mday == tm.mday
            && r.hour == tm.hour && r.min == tm.min && r.sec == tm.sec
  {
    hide FromJulianDayNumber, JulianDayNumber, TruncDiv, TruncMod, ValidDate, MarchYear;
    var days := JulianDayNumber(DateOf(tm)) - JULIAN_DAY_OF_1970_01_01;
    var secs := tm.hour * 3600 + tm.min * 60 + tm.sec;
    var t := FromUtcTime(tm);
    assert 0 <= secs < SECONDS_PER_DAY;
    Quotient(t, SECONDS_PER_DAY, days);
    FloorOfTrunc(t);
    HMSUnique(tm.hour, tm.min, tm.sec);
    JulianDayRoundTrip(DateOf(tm));
  }

  lemma SameClock(t: int)
    ensures var a, b := ToUtcTime(t, true), GmTime(t);
            a.hour == b.hour && a.min == b.min && a.sec == b.sec && a.isdst == b.isdst && a.gmtoff == b.gmtoff
  {
    hide FromJulianDayNumber, JulianDayNumber, DayNumber, CivilDate, TruncDiv, TruncMod, WeekDay;
    FloorOfTrunc(t);
  }

  /** toUtcTime agrees with gmtime in every field exactly from day number -1 (-4713-11-23) on and,
      before that, on the Sundays from -4799-01-01 on. */
  lemma ToUtcTimeIsGmTimeIff(t: int)
    ensures ToUtcTime(t, true) == GmTime(t) <==> WeekDayWorks(t) && DayOf(t) >= -31738
  {
    hide FromJulianDayNumber, JulianDayNumber, DayNumber, CivilDate, WeekDay, ToUtcTime;
    var n := DayOf(t);
    ToUtcTimeFields(t, true);
    SameClock(t);
    WeekDayCorrectIff(n);
    if n >= -32044 {
      YearDayOff(n);
    } else {
      DayNumberInvertsCivilDate(n);
      FromJulianDayNumberCorrectIff(n);
    }
  }

  lemma FirstDayNumber()
    ensures var d := YearMonthDay(-4800, 3, 1); ValidDate(d) && DayNumber(d) == -32044
  {
  }

  lemma FirstDay()
    ensures FromJulianDayNumber(-32044) == YearMonthDay(-4800, 3, 1) && CivilDate(-32044) == YearMonthDay(-4800, 3, 1)
    ensures WeekDay(-32044) == -4
  {
    var d := YearMonthDay(-4800, 3, 1);
    FirstDayNumber();
    hide FromJulianDayNumber, CivilDate, DayNumber, ValidDate;
    CivilDateInvertsDayNumber(d);
    CodeIsFloor(-32044);
  }

  /** The first second with a right date: its week day comes out as -4 and its day of the year as 59,
      where the calendar has a Wednesday and 60. */
  lemma FirstUtcSecond()
    ensures var tm := ToUtcTime(FIRST_UTC_SECOND, true);
            && DateOf(tm) == YearMonthDay(-4800, 3, 1) && tm.wday == -4 && tm.yday == 59 && !ValidTm(tm)
            && GmTime(FIRST_UTC_SECOND).wday == 3 && GmTime(FIRST_UTC_SECOND).yday == 60
  {
    hide FromJulianDayNumber, JulianDayNumber, DayNumber, CivilDate, WeekDay, ToUtcTime, ValidDate, IsLeap;
    assert DayOf(FIRST_UTC_SECOND) == -32044;
    ToUtcTimeFields(FIRST_UTC_SECOND, true);
    FirstDay();
    FirstNewYears();
    NewYearNumber(-4800);
  }

  // ---------- zone tables ----------

  datatype Localtime = Localtime(gmtOffset: int, isDst: bool)

  datatype Transition = Transition(gmttime: int, localtime: int, localtimeIdx: int)

  datatype Zone = Zone(transitions: seq<Transition>, localtimes: seq<Localtime>) {
    /** What readTimeZoneFile builds: indexes in range, localtime derived from gmttime. */
    predicate WellFormed() {
      && |localtimes| > 0
      && forall i :: 0 <= i < |transitions| ==>
           && 0 <= transitions[i].localtimeIdx < |localtimes|
           && transitions[i].localtime == transitions[i].gmttime + localtimes[transitions[i].localtimeIdx].gmtOffset
    }

    /** The local time type in force from transition i on; -1 stands for before the first one. */
    function Segment(i: int): Localtime
      requires WellFormed() && -1 <= i < |transitions|
    {
      if i == -1 then localtimes[0] else localtimes[transitions[i].localtimeIdx]
    }

    /** By how much local time steps back at transition i. */
    function Drop(i: int): int
      requires WellFormed() && 0 <= i < |transitions|
    {
      var d := Segment(i - 1).gmtOffset - Segment(i).gmtOffset;
      if d > 0 then d else 0
    }

    /** Consecutive transitions lie further apart than the repeated local times around them. */
    predicate WellSpaced() {
      && WellFormed()
      && forall i :: 0 <= i < |transitions| - 1 ==>
           var gap := transitions[i + 1].gmttime - transitions[i].gmttime;
           gap > Drop(i + 1) && gap >= Drop(i) + Drop(i + 1)
    }

    /** Local time only ever steps back by one hour, at the end of daylight saving time. */
    predicate DropsAreDstEnds()
      requires WellFormed()
    {
      forall i :: 0 <= i < |transitions| && Drop(i) > 0 ==>
        Drop(i) == 3600 && Segment(i - 1).isDst && !Segment(i).isDst
    }
  }

  function Key(tr: Transition, compareGmt: bool): int {
    if compareGmt then tr.gmttime else tr.localtime
  }

  predicate Ascending(ts: seq<Transition>, compareGmt: bool) {
    forall i, j :: 0 <= i < j < |ts| ==> Key(ts[i], compareGmt) < Key(ts[j], compareGmt)
  }

  /** std::lower_bound: halve [lo, hi) until it is empty. */
  function LowerBound(ts: seq<Transition>, x: int, compareGmt: bool, lo: int, hi: int): int
    requires 0 <= lo <= hi <= |ts|
    ensures lo <= LowerBound(ts, x, compareGmt, lo, hi) <= hi
    decreases hi - lo
  {
    if lo == hi then lo
    else
      var mid := lo + (hi - lo) / 2;
      if Key(ts[mid], compareGmt) < x then LowerBound(ts, x, compareGmt, mid + 1, hi)
      else LowerBound(ts, x, compareGmt, lo, mid)
  }

  /** All keys before k are smaller than x. */
  predicate SmallerBefore(ts: seq<Transition>, x: int, compareGmt: bool, k: int) {
    forall i :: 0 <= i < k && i < |ts| ==> Key(ts[i], compareGmt) < x
  }

  /** No key from k on is. */
  predicate NotSmallerFrom(ts: seq<Transition>, x: int, compareGmt: bool, k: int) {
    forall i :: k <= i < |ts| && 0 <= i ==> Key(ts[i], compareGmt) >= x
  }

  lemma SplitAt(ts: seq<Transition>, x: int, compareGmt: bool, mid: int)
    requires Ascending(ts, compareGmt) && 0 <= mid < |ts|
    ensures if Key(ts[mid], compareGmt) < x then SmallerBefore(ts, x, compareGmt, mid + 1)
            else NotSmallerFrom(ts, x, compareGmt, mid)
  {
  }

  lemma {:induction false} LowerBoundPartitions(ts: seq<Transition>, x: int, compareGmt: bool, lo: int, hi: int)
    requires Ascending(ts, compareGmt) && 0 <= lo <= hi <= |ts|
    requires SmallerBefore(ts, x, compareGmt, lo) && NotSmallerFrom(ts, x, compareGmt, hi)
    ensures var r := LowerBound(ts, x, compareGmt, lo, hi);
            SmallerBefore(ts, x, compareGmt, r) && NotSmallerFrom(ts, x, compareGmt, r)
    decreases hi - lo
  {
    hide SmallerBefore, NotSmallerFrom, Ascending, Key;
    if lo < hi {
      var mid := lo + (hi - lo) / 2;
      SplitAt(ts, x, compareGmt, mid);
      if Key(ts[mid], compareGmt) < x {
        LowerBoundPartitions(ts, x, compareGmt, mid + 1, hi);
      } else {
        LowerBoundPartitions(ts, x, compareGmt, lo, mid);
      }
    }
  }

  /** findLocaltime, with the sentry reduced to the one field its comparator reads. */
  function FindLocaltime(z: Zone, x: int, compareGmt: bool): Localtime
    requires z.WellFormed()
  {
    var ts := z.transitions;
    if ts == [] || x < Key(ts[0], compareGmt) then z.localtimes[0]
    else
      var k := LowerBound(ts, x, compareGmt, 0, |ts|);
      if k != |ts| then
        if Key(ts[k], compareGmt) != x then
          assert k > 0 by { if k == 0 { LowerBoundSkipsSmaller(ts, x, compareGmt, 0, |ts|); } }
          z.localtimes[ts[k - 1].localtimeIdx]
        else z.localtimes[ts[k].localtimeIdx]
      else z.localtimes[ts[|ts| - 1].localtimeIdx]
  }

  /** The assertion inside findLocaltime, needing no order: the result 0 has been compared. */
  lemma {:induction false} LowerBoundSkipsSmaller(ts: seq<Transition>, x: int, compareGmt: bool, lo: int, hi: int)
    requires 0 <= lo < hi <= |ts| && LowerBound(ts, x, compareGmt, lo, hi) == lo
    ensures Key(ts[lo], compareGmt) >= x
    decreases hi - lo
  {
    var mid := lo + (hi - lo) / 2;
    if lo < mid {
      LowerBoundSkipsSmaller(ts, x, compareGmt, lo, mid);
    }
  }

  /** The reference: transition i is the last one at or before x. */
  predicate InForce(z: Zone, x: int, compareGmt: bool, i: int) {
    && -1 <= i < |z.transitions|
    && (i >= 0 ==> Key(z.transitions[i], compareGmt) <= x)
    && (i + 1 < |z.transitions| ==> x < Key(z.transitions[i + 1], compareGmt))
  }

  lemma FindLocaltimeIsLastAtOrBefore(z: Zone, x: int, compareGmt: bool, i: int)
    requires z.WellFormed() && Ascending(z.transitions, compareGmt) && InForce(z, x, compareGmt, i)
    ensures FindLocaltime(z, x, compareGmt) == z.Segment(i)
  {
    hide LowerBound;
    var ts := z.transitions;
    LowerBoundPartitions(ts, x, compareGmt, 0, |ts|);
    if i >= 0 {
      var k := LowerBound(ts, x, compareGmt, 0, |ts|);
      assert i == 0 || Key(ts[i - 1], compareGmt) < x;
      assert i == 0 || Key(ts[0], compareGmt) < x;
      assert i <= k <= i + 1;
    }
  }

  function ToLocalTime(z: Zone, t: int): Tm
    requires z.WellFormed()
  {
    var local := FindLocaltime(z, t, true);
    GmTime(t + local.gmtOffset).(isdst := local.isDst, gmtoff := local.gmtOffset)
  }

  function FromLocalTime(z: Zone, localTm: Tm): int
    requires z.WellFormed()
  {
    var seconds := TimeGm(localTm);
    var local := FindLocaltime(z, seconds, false);
    var tryTm := ToLocalTime(z, seconds - local.gmtOffset);
    var hack := localTm.isdst && !tryTm.isdst && tryTm.hour == localTm.hour && tryTm.min == localTm.min;
    (if hack then seconds - 3600 else seconds) - local.gmtOffset
  }

  // ---------- the round trip ----------

  lemma {:induction false} SpacedAscending(z: Zone, i: int, j: int)
    requires z.WellSpaced() && 0 <= i < j < |z.transitions|
    ensures z.transitions[i].gmttime < z.transitions[j].gmttime
    ensures z.transitions[i].localtime < z.transitions[j].localtime
    decreases j - i
  {
    if i + 1 < j {
      SpacedAscending(z, i, j - 1);
    }
    assert z.transitions[j].gmttime - z.transitions[j - 1].gmttime > z.Drop(j);
    assert z.transitions[(j - 1) + 1] == z.transitions[j];
  }

  lemma BothOrders(z: Zone)
    requires z.WellSpaced()
    ensures Ascending(z.transitions, true) && Ascending(z.transitions, false)
  {
    forall i, j | 0 <= i < j < |z.transitions|
      ensures z.transitions[i].gmttime < z.transitions[j].gmttime
              && z.transitions[i].localtime < z.transitions[j].localtime
    {
      SpacedAscending(z, i, j);
    }
  }

  lemma {:induction false} SegmentExists(z: Zone, t: int, n: nat) returns (i: int)
    requires n <= |z.transitions| && (n < |z.transitions| ==> t < z.transitions[n].gmttime)
    ensures InForce(z, t, true, i)
    decreases n
  {
    if n == 0 {
      i := -1;
    } else if z.transitions[n - 1].gmttime <= t {
      i := n - 1;
    } else {
      i := SegmentExists(z, t, n - 1);
    }
  }

  /** Instants in segment i whose local reading comes again after transition i + 1. */
  predicate Repeated(z: Zone, t: int, i: int)
    requires z.WellFormed() && -1 <= i < |z.transitions|
  {
    i + 1 < |z.transitions| && t + z.Segment(i).gmtOffset >= z.transitions[i + 1].localtime
  }

  lemma TimeGmIgnoresZone(tm: Tm, dst: bool, offset: int)
    ensures TimeGm(tm.(isdst := dst, gmtoff := offset)) == TimeGm(tm)
  {
  }

  lemma ToLocalTimeIn(z: Zone, t: int, i: int)
    requires z.WellSpaced() && InForce(z, t, true, i)
    ensures ToLocalTime(z, t)
         == GmTime(t + z.Segment(i).gmtOffset).(isdst := z.Segment(i).isDst, gmtoff := z.Segment(i).gmtOffset)
    ensures TimeGm(ToLocalTime(z, t)) == t + z.Segment(i).gmtOffset
  {
    hide GmTime, TimeGm, FindLocaltime, LowerBound;
    BothOrders(z);
    FindLocaltimeIsLastAtOrBefore(z, t, true, i);
    TimeGmInvertsGmTime(t + z.Segment(i).gmtOffset);
    TimeGmIgnoresZone(GmTime(t + z.Segment(i).gmtOffset), z.Segment(i).isDst, z.Segment(i).gmtOffset);
  }

  /** The reading is looked up in segment i, and the hour is taken back if it could be the earlier one. */
  lemma FromLocalTimeIn(z: Zone, tm: Tm, i: int)
    requires z.WellSpaced() && InForce(z, TimeGm(tm), false, i)
    ensures var t := TimeGm(tm) - z.Segment(i).gmtOffset; var tryTm := ToLocalTime(z, t);
            FromLocalTime(z, tm)
              == t - if tm.isdst && !tryTm.isdst && tryTm.hour == tm.hour && tryTm.min == tm.min then 3600 else 0
  {
    hide GmTime, TimeGm, FindLocaltime, ToLocalTime;
    BothOrders(z);
    FindLocaltimeIsLastAtOrBefore(z, TimeGm(tm), false, i);
  }

  lemma UniqueReading(z: Zone, t: int, i: int)
    requires z.WellSpaced() && InForce(z, t, true, i) && !Repeated(z, t, i)
    ensures FromLocalTime(z, ToLocalTime(z, t)) == t
  {
    hide GmTime, TimeGm, FindLocaltime, ToLocalTime, FromLocalTime;
    ToLocalTimeIn(z, t, i);
    assert InForce(z, t + z.Segment(i).gmtOffset, false, i);
    FromLocalTimeIn(z, ToLocalTime(z, t), i);
  }

  /** Where a repeated reading is looked up: both searches land after transition i + 1. */
  lemma RepeatedLookup(z: Zone, t: int, i: int)
    requires z.WellSpaced() && InForce(z, t, true, i) && Repeated(z, t, i)
    ensures z.Drop(i + 1) == z.Segment(i).gmtOffset - z.Segment(i + 1).gmtOffset > 0
    ensures InForce(z, t + z.Segment(i).gmtOffset, false, i + 1)
    ensures InForce(z, t + z.Drop(i + 1), true, i + 1)
  {
  }

  /** Two instants with the same reading, one in segment i and one in the next: the later one is found. */
  lemma ReadAgain(z: Zone, t: int, later: int, i: int)
    requires z.WellFormed() && z.WellSpaced() && -1 <= i < |z.transitions| - 1
    requires InForce(z, t, true, i) && InForce(z, later, true, i + 1)
    requires InForce(z, t + z.Segment(i).gmtOffset, false, i + 1)
    requires later + z.Segment(i + 1).gmtOffset == t + z.Segment(i).gmtOffset
    ensures FromLocalTime(z, ToLocalTime(z, t))
         == later - if z.Segment(i).isDst && !z.Segment(i + 1).isDst then 3600 else 0
  {
    hide *;
    ToLocalTimeIn(z, t, i);
    ToLocalTimeIn(z, later, i + 1);
    FromLocalTimeIn(z, ToLocalTime(z, t), i + 1);
  }

  /** Inside a repeated stretch the later offset is found, and the hour is taken back only when
      daylight saving time has just ended. */
  lemma RepeatedReading(z: Zone, t: int, i: int)
    requires z.WellSpaced() && InForce(z, t, true, i) && Repeated(z, t, i)
    ensures FromLocalTime(z, ToLocalTime(z, t))
         == t + z.Drop(i + 1) - if z.Segment(i).isDst && !z.Segment(i + 1).isDst then 3600 else 0
  {
    hide FromLocalTime, ToLocalTime;
    RepeatedLookup(z, t, i);
    ReadAgain(z, t, t + z.Drop(i + 1), i);
  }

  lemma RoundTripAt(z: Zone, t: int)
    requires z.WellSpaced() && z.DropsAreDstEnds()
    ensures FromLocalTime(z, ToLocalTime(z, t)) == t
  {
    var i := SegmentExists(z, t, |z.transitions|);
    if Repeated(z, t, i) {
      RepeatedReading(z, t, i);
      assert t < z.transitions[i + 1].gmttime;
      assert z.Drop(i + 1) > 0;
    } else {
      UniqueReading(z, t, i);
    }
  }

  lemma FirstRepeatedInstant(z: Zone, i: int)
    requires z.WellSpaced() && 0 <= i < |z.transitions| && z.Drop(i) > 0
    ensures var t := z.transitions[i].gmttime - z.Drop(i);
            FromLocalTime(z, ToLocalTime(z, t)) == t ==>
              z.Drop(i) == 3600 && z.Segment(i - 1).isDst && !z.Segment(i).isDst
  {
    var t := z.transitions[i].gmttime - z.Drop(i);
    if i > 0 {
      assert z.transitions[(i - 1) + 1].gmttime - z.transitions[i - 1].gmttime > z.Drop((i - 1) + 1);
    }
    assert InForce(z, t, true, i - 1) && Repeated(z, t, i - 1);
    RepeatedReading(z, t, i - 1);
  }

  /** The main result: fromLocalTime undoes toLocalTime at every instant, both passes of every
      repeated hour included, exactly for the tables whose backward steps are one-hour ends of
      daylight saving time. */
  lemma LocalTimeRoundTripIff(z: Zone)
    requires z.WellSpaced()
    ensures (forall t :: FromLocalTime(z, ToLocalTime(z, t)) == t) <==> z.DropsAreDstEnds()
  {
    if z.DropsAreDstEnds() {
      forall t ensures FromLocalTime(z, ToLocalTime(z, t)) == t {
        RoundTripAt(z, t);
      }
    }
    if forall t :: FromLocalTime(z, ToLocalTime(z, t)) == t {
      forall i | 0 <= i < |z.transitions| && z.Drop(i) > 0
        ensures z.Drop(i) == 3600 && z.Segment(i - 1).isDst && !z.Segment(i).isDst
      {
        FirstRepeatedInstant(z, i);
      }
    }
  }

  /** Two hours between transitions are enough spacing for tables of that kind. */
  lemma TwoHourSpacing(z: Zone)
    requires z.WellFormed() && z.DropsAreDstEnds()
    requires forall i :: 0 <= i < |z.transitions| - 1 ==>
      z.transitions[i + 1].gmttime - z.transitions[i].gmttime >= 7200
    ensures z.WellSpaced() && forall t :: FromLocalTime(z, ToLocalTime(z, t)) == t
  {
    assert forall i :: 0 <= i < |z.transitions| ==> z.Drop(i) <= 3600;
    LocalTimeRoundTripIff(z);
  }

  /** A zone that moves its standard time back loses the first pass of the repeated stretch. */
  lemma StandardTimeMovedBackIsLost(g: int, off: int, d: int)
    requires d > 0
    ensures var z := Zone([Transition(g, g + off, 1)], [Localtime(off + d, false), Localtime(off, false)]);
            z.WellSpaced() && FromLocalTime(z, ToLocalTime(z, g - d)) == g
  {
    hide FromLocalTime, ToLocalTime;
    var z := Zone([Transition(g, g + off, 1)], [Localtime(off + d, false), Localtime(off, false)]);
    RepeatedReading(z, g - d, -1);
  }
}
