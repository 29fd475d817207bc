/** Seconds of the epoch from a civil date: the closed form of mkgmtime against counting days
    year by year and month by month under the Gregorian leap rule. */
module GpsCalendar {

  /** The members of struct tm that mkgmtime looks at */
  datatype Tm = Tm(year: int, mon: int, mday: int, hour: int, min: int, sec: int)

  // ------------------------------------------------------------- C arithmetic

  /** Division and remainder as C does them, towards zero */
  function Quot(a: int, b: int): int
    requires b > 0
  {
    if a >= 0 then a / b else -(-a / b)
  }

  function Rem(a: int, b: int): int
    requires b > 0
  {
    if a >= 0 then a % b else -(-a % b)
  }

  lemma RemBounds(a: int)
    ensures -12 < Rem(a, 12) < 12
  {
  }

  /** Assignment to a short */
  function Short(n: int): int { (n + 32768) % 65536 - 32768 }

  // ------------------------------------------------------------------ counting

  predicate Leap(y: int) { y % 4 == 0 && (y % 100 != 0 || y % 400 == 0) }

  function YearLength(y: int): int { if Leap(y) then 366 else 365 }

  /** Days from 1970-01-01 to the start of a year, one year after the other */
  function YearStart(y: int): int
    decreases if y >= 1970 then y - 1970 else 1970 - y
  {
    if y == 1970 then 0
    else if y > 1970 then YearStart(y - 1) + YearLength(y - 1)
    else YearStart(y + 1) - YearLength(y)
  }

  /** Months are counted from 0. */
  function MonthLength(y: int, m: int): int {
    if m == 1 then (if Leap(y) then 29 else 28)
    else if m == 3 || m == 5 || m == 8 || m == 10 then 30
    else 31
  }

  function MonthStart(y: int, m: nat): int
    requires m <= 12
  {
    if m == 0 then 0 else MonthStart(y, m - 1) + MonthLength(y, m - 1)
  }

  /** The second of the epoch at a date; the day and the time are added as they are. */
  function Seconds(y: int, m: nat, d: int, hour: int, min: int, sec: int): int
    requires m < 12
  {
    (((YearStart(y) + MonthStart(y, m) + d - 1) * 24 + hour) * 60 + min) * 60 + sec
  }

  // ------------------------------------------------------------------ mkgmtime

  const M_TO_D: seq<int> := [0, 31, 59, 90, 120, 151, 181, 212, 243, 273, 304, 334]

  /** mkgmtime */
  method MkGmTime(t: Tm) returns (result: int)
    ensures result == Computed(t)
    ensures FitsShort(t) && CivilYear(t) >= 1969
      ==> result == Seconds(CivilYear(t), CivilMonth(t), t.mday, t.hour, t.min, t.sec)
  {
    hide Seconds, FitsShort, Quot, Rem, Short;
    var month := Short(t.mon);
    RemBounds(month);
    var year := Short(t.year + Quot(month, 12) + 1900);
    month := Rem(month, 12);
    if month < 0 {
      year := Short(year - 1);
      month := month + 12;
    }
    result := (year - 1970) * 365 + M_TO_D[month];
    if month <= 1 {
      year := Short(year - 1);
    }
    result := result + Quot(year - 1968, 4);
    result := result - Quot(year - 1900, 100);
    result := result + Quot(year - 1600, 400);
    result := result + t.mday;
    result := result - 1;
    result := result * 24;
    result := result + t.hour;
    result := result * 60;
    result := result + t.min;
    result := result * 60;
    result := result + t.sec;
    if FitsShort(t) {
      EpochExactly(t);
    }
  }

  /** The date with its month brought into the year */
  function CivilYear(t: Tm): int { t.year + 1900 + t.mon / 12 }

  function CivilMonth(t: Tm): (m: nat)
    ensures m < 12
  {
    t.mon % 12
  }

  /** The year whose leap days count: January and February belong to the year before. */
  function LeapYears(y: int, m: int): int { if m <= 1 then y - 1 else y }

  /** Nothing is cut off in the two variables of type short. */
  predicate FitsShort(t: Tm) {
    -32768 <= t.mon < 32768 && -32767 <= CivilYear(t) < 32768 && -32768 <= t.year + Quot(t.mon, 12) + 1900 < 32768
  }

  /** What mkgmtime returns */
  function Computed(t: Tm): int {
    var month0 := Short(t.mon);
    var year0 := Short(t.year + Quot(month0, 12) + 1900);
    var rem := Rem(month0, 12);
    var year := if rem < 0 then Short(year0 - 1) else year0;
    var month := if rem < 0 then rem + 12 else rem;
    var leap := if month <= 1 then Short(year - 1) else year;
    var days := (year - 1970) * 365 + M_TO_D[month]
      + Quot(leap - 1968, 4) - Quot(leap - 1900, 100) + Quot(leap - 1600, 400) + t.mday - 1;
    ((days * 24 + t.hour) * 60 + t.min) * 60 + t.sec
  }

  // -------------------------------------------------------------------- proofs

  /** Leap days from 1969 to the end of a year, rounded down */
  function Leaps(y: int): int { (y - 1968) / 4 - (y - 1900) / 100 + (y - 1600) / 400 }

  lemma LeapsStep(y: int)
    ensures Leaps(y) == Leaps(y - 1) + if Leap(y) then 1 else 0
  {
    Step4(y);
    Step100(y);
    Step400(y);
    Centuries(y);
  }

  lemma Step4(y: int)
    ensures (y - 1968) / 4 == (y - 1 - 1968) / 4 + if y % 4 == 0 then 1 else 0
  {
  }

  lemma Step100(y: int)
    ensures (y - 1900) / 100 == (y - 1 - 1900) / 100 + if y % 100 == 0 then 1 else 0
  {
  }

  lemma Step400(y: int)
    ensures (y - 1600) / 400 == (y - 1 - 1600) / 400 + if y % 400 == 0 then 1 else 0
  {
  }

  lemma Centuries(y: int)
    ensures (y % 100 == 0 ==> y % 4 == 0) && (y % 400 == 0 ==> y % 100 == 0)
  {
  }

  /** The closed form of the count */
  lemma {:induction false} YearStartIs(y: int)
    ensures YearStart(y) == (y - 1970) * 365 + Leaps(y - 1)
    decreases if y >= 1970 then y - 1970 else 1970 - y
  {
    hide Leaps, Leap;
    if y == 1970 {
      Leaps1969();
    } else if y > 1970 {
      YearStartIs(y - 1);
      LeapsStep(y - 1);
    } else {
      YearStartIs(y + 1);
      LeapsStep(y);
    }
  }

  lemma Leaps1969()
    ensures Leaps(1969) == 0
  {
  }

  lemma MonthStartIs(y: int, m: nat)
    requires m < 12
    ensures MonthStart(y, m) == M_TO_D[m] + if m > 1 && Leap(y) then 1 else 0
  {
    hide Leap;
    MonthStarts(y);
  }

  lemma MonthStarts(y: int)
    ensures var l := if Leap(y) then 1 else 0;
      && MonthStart(y, 0) == 0 && MonthStart(y, 1) == 31 && MonthStart(y, 2) == 59 + l && MonthStart(y, 3) == 90 + l
      && MonthStart(y, 4) == 120 + l && MonthStart(y, 5) == 151 + l && MonthStart(y, 6) == 181 + l && MonthStart(y, 7) == 212 + l
      && MonthStart(y, 8) == 243 + l && MonthStart(y, 9) == 273 + l && MonthStart(y, 10) == 304 + l && MonthStart(y, 11) == 334 + l
      && MonthStart(y, 12) == 365 + l
  {
    hide Leap;
    assert MonthStart(y, 2) == MonthStart(y, 1) + MonthLength(y, 1);
    assert MonthStart(y, 4) == MonthStart(y, 3) + MonthLength(y, 3);
    assert MonthStart(y, 6) == MonthStart(y, 5) + MonthLength(y, 5);
    assert MonthStart(y, 8) == MonthStart(y, 7) + MonthLength(y, 7);
    assert MonthStart(y, 10) == MonthStart(y, 9) + MonthLength(y, 9);
  }

  /** By how much a division towards zero exceeds one rounded down */
  function Excess(a: int, b: int): int
    requires b > 0
  {
    if a < 0 && a % b != 0 then 1 else 0
  }

  lemma Quot4(a: int)
    ensures Quot(a, 4) == a / 4 + Excess(a, 4)
  {
  }

  lemma Quot100(a: int)
    ensures Quot(a, 100) == a / 100 + Excess(a, 100)
  {
  }

  lemma Quot400(a: int)
    ensures Quot(a, 400) == a / 400 + Excess(a, 400)
  {
  }

  /** The days mkgmtime is off */
  function Off(leap: int): int { Excess(leap - 1968, 4) - Excess(leap - 1900, 100) + Excess(leap - 1600, 400) }

  /** mkgmtime is the count of days, plus a day here and there before 1968. */
  lemma ComputedIs(t: Tm)
    requires FitsShort(t)
    ensures Computed(t) == Seconds(CivilYear(t), CivilMonth(t), t.mday, t.hour, t.min, t.sec)
      + 86400 * Off(LeapYears(CivilYear(t), CivilMonth(t)))
  {
    hide YearStart, MonthStart, Leaps, Leap, Quot, Rem, Short, Excess, FitsShort;
    var y, m := CivilYear(t), CivilMonth(t);
    var leap := LeapYears(y, m);
    Normalised(t);
    YearStartIs(y);
    MonthStartIs(y, m);
    LeapsStep(y);
    Quot4(leap - 1968);
    Quot100(leap - 1900);
    Quot400(leap - 1600);
    LeapsAre(leap);
  }

  lemma LeapsAre(y: int)
    ensures Leaps(y) == (y - 1968) / 4 - (y - 1900) / 100 + (y - 1600) / 400
  {
  }

  /** What the first lines make of the month and the year */
  lemma Normalised(t: Tm)
    requires FitsShort(t)
    ensures var month0 := Short(t.mon);
      var year0 := Short(t.year + Quot(month0, 12) + 1900);
      var rem := Rem(month0, 12);
      var year := if rem < 0 then Short(year0 - 1) else year0;
      var month := if rem < 0 then rem + 12 else rem;
      year == CivilYear(t) && month == CivilMonth(t) && Short(year - 1) == year - 1
  {
    hide Quot, Rem, Short;
    ShortIs(t.mon);
    ShortIs(t.year + Quot(t.mon, 12) + 1900);
    ShortIs(t.year + Quot(t.mon, 12) + 1900 - 1);
    ShortIs(CivilYear(t) - 1);
    MonthIs(t.mon);
  }

  lemma ShortIs(n: int)
    ensures -32768 <= n < 32768 ==> Short(n) == n
  {
  }

  lemma MonthIs(mon: int)
    ensures mon / 12 == Quot(mon, 12) - (if Rem(mon, 12) < 0 then 1 else 0)
    ensures mon % 12 == Rem(mon, 12) + if Rem(mon, 12) < 0 then 12 else 0
  {
  }

  // ------------------------------------------------------------------- results

  /** The leap years for which the divisions towards zero come out right */
  predicate Right(leap: int) {
    if leap >= 1968 then true
    else if leap >= 1900 then leap % 4 == 0
    else if leap >= 1600 then leap % 4 != 0 || leap % 100 == 0
    else leap % 400 == 0 || (leap % 4 == 0 && leap % 100 != 0)
  }

  lemma OffIsRight(leap: int)
    ensures Off(leap) == 0 <==> Right(leap)
  {
    Centuries(leap);
    Shifted4(leap);
    Shifted100(leap);
    Shifted400(leap);
  }

  lemma Shifted4(leap: int)
    ensures (leap - 1968) % 4 == leap % 4
  {
  }

  lemma Shifted100(leap: int)
    ensures (leap - 1900) % 100 == leap % 100
  {
  }

  lemma Shifted400(leap: int)
    ensures (leap - 1600) % 400 == leap % 400
  {
  }

  /** mkgmtime counts days, months brought into the year, exactly for the years named by Right,
      which are all from 1968 on, and some before. */
  lemma EpochExactly(t: Tm)
    requires FitsShort(t)
    ensures Computed(t) == Seconds(CivilYear(t), CivilMonth(t), t.mday, t.hour, t.min, t.sec)
       <==> Right(LeapYears(CivilYear(t), CivilMonth(t)))
  {
    hide Seconds, Computed, Off, Right, FitsShort;
    ComputedIs(t);
    OffIsRight(LeapYears(CivilYear(t), CivilMonth(t)));
  }

  /** A date and a time of day that exist */
  predicate ValidDate(y: int, m: nat, d: int) { m < 12 && 1 <= d <= MonthLength(y, m) }

  predicate ValidTime(hour: int, min: int, sec: int) { 0 <= hour < 24 && 0 <= min < 60 && 0 <= sec < 60 }

  function YearDay(y: int, m: nat, d: int): int
    requires m < 12
  {
    MonthStart(y, m) + d - 1
  }

  /** The count is the formula of section 4.16 of IEEE Std 1003.1-2017. */
  lemma PosixFormula(y: int, m: nat, d: int, hour: int, min: int, sec: int)
    requires y >= 1970 && m < 12
    ensures var year := y - 1900;
      Seconds(y, m, d, hour, min, sec) == sec + min * 60 + hour * 3600 + YearDay(y, m, d) * 86400
        + (year - 70) * 31536000 + (year - 69) / 4 * 86400 - (year - 1) / 100 * 86400 + (year + 299) / 400 * 86400
  {
    hide MonthStart, YearStart, Leaps;
    YearStartIs(y);
    LeapsAre(y - 1);
  }

  /** Lexicographic order of dates */
  predicate DateBefore(y1: int, m1: nat, d1: int, y2: int, m2: nat, d2: int) {
    y1 < y2 || (y1 == y2 && (m1 < m2 || (m1 == m2 && d1 < d2)))
  }

  function DayNumber(y: int, m: nat, d: int): int
    requires m < 12
  {
    YearStart(y) + YearDay(y, m, d)
  }

  lemma {:induction false} MonthsGrow(y: int, m1: nat, m2: nat)
    requires m1 < m2 <= 12
    ensures MonthStart(y, m1) + MonthLength(y, m1) <= MonthStart(y, m2)
    decreases m2
  {
    if m1 < m2 - 1 { MonthsGrow(y, m1, m2 - 1); }
  }

  lemma {:induction false} YearsGrow(y1: int, y2: int)
    requires y1 < y2
    ensures YearStart(y1) + YearLength(y1) <= YearStart(y2)
    decreases y2 - y1
  {
    hide Leap;
    YearStep(y2 - 1);
    if y1 < y2 - 1 { YearsGrow(y1, y2 - 1); }
  }

  lemma YearStep(y: int)
    ensures YearStart(y + 1) == YearStart(y) + YearLength(y)
  {
  }

  /** Later dates have greater day numbers. */
  lemma DaysIncrease(y1: int, m1: nat, d1: int, y2: int, m2: nat, d2: int)
    requires ValidDate(y1, m1, d1) && ValidDate(y2, m2, d2) && DateBefore(y1, m1, d1, y2, m2, d2)
    ensures DayNumber(y1, m1, d1) < DayNumber(y2, m2, d2)
  {
    hide YearStart, MonthStart, MonthLength, Leap;
    if y1 < y2 {
      MonthStarts(y1);
      YearsGrow(y1, y2);
      MonthsGrow(y1, m1, 12);
      FromStart(y2, m2);
    } else if m1 < m2 {
      MonthsGrow(y1, m1, m2);
    }
  }

  lemma FromStart(y: int, m: nat)
    requires m <= 12
    ensures MonthStart(y, m) >= 0
  {
    if m > 0 { MonthsGrow(y, 0, m); }
  }

  /** The date and time exist, and the date is in 1970 or later. */
  predicate Moment(t: Tm) {
    && FitsShort(t) && CivilYear(t) >= 1970
    && ValidDate(CivilYear(t), CivilMonth(t), t.mday) && ValidTime(t.hour, t.min, t.sec)
  }

  function SameDay(t: Tm): int { t.hour * 3600 + t.min * 60 + t.sec }

  predicate MomentBefore(t: Tm, u: Tm) {
    || DateBefore(CivilYear(t), CivilMonth(t), t.mday, CivilYear(u), CivilMonth(u), u.mday)
    || (CivilYear(t) == CivilYear(u) && CivilMonth(t) == CivilMonth(u) && t.mday == u.mday && SameDay(t) < SameDay(u))
  }

  /** Later moments have more seconds: mkgmtime is strictly increasing on valid dates from 1970 on. */
  lemma StrictlyIncreasing(t: Tm, u: Tm)
    requires Moment(t) && Moment(u)
    ensures Computed(t) < Computed(u) <==> MomentBefore(t, u)
  {
    MomentIncreases(t, u);
    MomentIncreases(u, t);
    hide Computed, FitsShort, ValidDate;
    if !MomentBefore(t, u) && !MomentBefore(u, t) {
      EpochExactly(t);
      EpochExactly(u);
    }
  }

  lemma MomentIncreases(t: Tm, u: Tm)
    requires Moment(t) && Moment(u)
    ensures MomentBefore(t, u) ==> Computed(t) < Computed(u)
  {
    hide YearStart, MonthStart, MonthLength, Computed, FitsShort;
    EpochExactly(t);
    EpochExactly(u);
    if DateBefore(CivilYear(t), CivilMonth(t), t.mday, CivilYear(u), CivilMonth(u), u.mday) {
      DaysIncrease(CivilYear(t), CivilMonth(t), t.mday, CivilYear(u), CivilMonth(u), u.mday);
    }
  }

  /** Where time_t has 32 bits, the last moment it holds */
  const LAST_32 := Tm(138, 0, 19, 3, 14, 7)

  lemma LastMoment()
    ensures Moment(LAST_32) && Computed(LAST_32) == 0x7FFFFFFF
  {
    EpochExactly(LAST_32);
    YearStartIs(2038);
    hide YearStart;
    assert Leaps(2037) == 17;
  }

  lemma Fits32Exactly(t: Tm)
    requires Moment(t)
    ensures Computed(t) <= 0x7FFFFFFF <==> !MomentBefore(LAST_32, t)
  {
    LastMoment();
    StrictlyIncreasing(LAST_32, t);
  }

  /** Every moment of the years a short can name fits in 64 bits. */
  lemma Fits64(t: Tm)
    requires Moment(t)
    ensures 0 <= Computed(t) < 0x7FFFFFFFFFFFFFFF
  {
    hide YearStart, MonthStart, Computed, Leap, Leaps;
    EpochExactly(t);
    var y, m := CivilYear(t), CivilMonth(t);
    YearStartIs(y);
    LeapsBound(y - 1);
    MonthStarts(y);
    FromStart(y, m);
    MonthsGrow(y, m, 12);
  }

  lemma LeapsBound(y: int)
    ensures 1969 <= y < 32768 ==> 0 <= Leaps(y) < 32768
  {
  }
}
