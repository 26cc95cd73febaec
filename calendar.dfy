/**
 * The calendar/epoch converter of library/src/rtc.c: C-style integer
 * division, `time_date_to_epoch`, `time_epoch_to_date`, `get_dst` and the
 * leap-year rule of `rtc_is_leap_year`, with the proofs that the two
 * conversions invert each other on the years 2000-2099.
 */
module Calendar {
  import opened RtcTypes

  const JULIAN_DAY_1970 := 2440588
  const SEC_IN_MIN := 60
  const SEC_IN_HOUR := 3600
  const SEC_IN_DAY := 86400

  /** Smallest value of a 32-bit `long`, the epoch type on the driver's targets. */
  const LONG_MIN := -0x8000_0000

  /*
   * C integer division
   */

  /** C's `/` on a positive divisor: the quotient truncated toward zero, so
      the part of `a` it leaves over lies strictly within one divisor of 0,
      on the side of `a`'s sign. */
  function CDiv(a: int, d: int): (q: int)
    requires d > 0
    ensures a >= 0 ==> 0 <= a - q * d < d
    ensures a < 0 ==> -d < a - q * d <= 0
  {
    if a >= 0 then a / d else -((-a) / d)
  }

  /** C's `%` on a positive divisor: the remainder takes the sign of `a`. */
  function CMod(a: int, d: int): (r: int)
    requires d > 0
    ensures r == a - d * CDiv(a, d)
    ensures a >= 0 ==> 0 <= r < d
    ensures a < 0 ==> -d < r <= 0
  {
    if a >= 0 then a % d else -((-a) % d)
  }

  /*
   * time_date_to_epoch (rtc.c:244-283)
   */

  /** The result of `time_date_to_epoch`: the epoch it returns and the record
      as it leaves it, with `weekday` overwritten. */
  datatype Conversion = Conversion(epoch: int, written: Time)

  /** The integer Julian Day Number of rtc.c:258-265, including the
      Gregorian correction applied above day 2299171. */
  function JulianDayOf(ts: Time): int
  {
    JulianDayOfCount((ts.year + 2000 + 4800) * 12 + (ts.month - 3), ts.monthday)
  }

  /** The same computation on the month count `ji` of rtc.c:258. */
  function JulianDayOfCount(ji: int, day: int): int
  {
    var jd := CDiv(2 * CMod(ji, 12) + 7 + 365 * ji, 12) + day + CDiv(ji, 48) - 32083;
    if jd > 2299171 then jd + CDiv(ji, 4800) - CDiv(ji, 1200) + 38 else jd
  }

  /** Seconds elapsed since midnight, as rtc.c:271-274 add them up. */
  function SecondsOfDay(ts: Time): int
  {
    ts.hours * SEC_IN_HOUR + ts.minutes * SEC_IN_MIN + ts.seconds
  }

  /** `time_date_to_epoch`: seconds since 1970-01-01 00:00:00; as a side effect
      the record's weekday becomes the Julian day mod 7 (Monday = 0). */
  function DateToEpoch(ts: Time): (r: Conversion)
    ensures r.written == ts.(weekday := r.written.weekday)
    ensures r.written.weekday < 7
  {
    var jd := JulianDayOf(ts);
    Conversion((jd - JULIAN_DAY_1970) * SEC_IN_DAY + SecondsOfDay(ts), ts.(weekday := ToUint8(CMod(jd, 7))))
  }

  /*
   * time_epoch_to_date (rtc.c:133-216)
   */

  /** Year (before the 2000 is taken off), month and day that rtc.c:163-181
      derive from a Julian day. */
  datatype Civil = Civil(year: int, month: int, day: int)

  /** The Fliegel-Van Flandern chain L, N, I, J, K of rtc.c:163-181, in its
      three phases: the 400-year cycle and century N ... */
  function GregorianOf(jd: int): Civil
  {
    var L := jd + 68569;
    var N := CDiv(4 * L, 146097);
    CenturyPhase(N, L - CDiv(146097 * N + 3, 4))
  }

  /** ... the year I within the century, from the day L of the century ... */
  function CenturyPhase(N: int, L: int): Civil
  {
    var I := CDiv(4000 * (L + 1), 1461001);
    YearPhase(N, I, L - (CDiv(1461 * I, 4) - 31))
  }

  /** ... and month J and day K from the day L of the March-based year, with
      January and February moved to the following year. */
  function YearPhase(N: int, I: int, L: int): Civil
  {
    var J := CDiv(80 * L, 2447);
    var K := L - CDiv(2447 * J, 80);
    var L3 := CDiv(J, 11);
    Civil(100 * (N - 49) + I + L3, J + 2 - 12 * L3, K)
  }

  /** The record `time_epoch_to_date` fills from a Julian day and a second
      count: C `long` values stored into `uint8_t` fields, the weekday
      incremented last (rtc.c:158, 186-188, 204-215). */
  function Assemble(jd: int, c: Civil, tod: int): Time
  {
    var L := CMod(tod, SEC_IN_DAY);
    var hours := ToUint8(CDiv(L, SEC_IN_HOUR));
    var minutes := ToUint8(CDiv(L - hours * SEC_IN_HOUR, SEC_IN_MIN));
    var seconds := ToUint8(CMod(L, SEC_IN_MIN));
    Time(seconds, minutes, hours, ToUint8(ToUint8(CMod(jd, 7)) + 1),
         ToUint8(c.day), ToUint8(c.month), ToUint8(c.year - 2000))
  }

  /** The Julian day of rtc.c:151-156: the truncated quotient, one less for
      every negative epoch. */
  function EpochDay(e: int): int
  {
    CDiv(e, SEC_IN_DAY) + JULIAN_DAY_1970 - (if e < 0 then 1 else 0)
  }

  /** The second count rtc.c:193-202 split into hours, minutes and seconds. */
  function EpochSecond(e: int): int
  {
    if e < 0 then SEC_IN_DAY - CMod(-e, SEC_IN_DAY) else e
  }

  /** `time_epoch_to_date` as written. */
  function EpochToDate(e: int): Time
  {
    var jd := EpochDay(e);
    Assemble(jd, GregorianOf(jd), EpochSecond(e))
  }

  /** The Julian day of an epoch, rounding toward minus infinity. */
  function FlooredDay(e: int): int
  {
    e / SEC_IN_DAY + JULIAN_DAY_1970
  }

  /** `time_epoch_to_date` as intended: the day is the floor of e / 86400 and
      the time of day e mod 86400, for negative epochs too. */
  function EpochToDateFloored(e: int): Time
  {
    var jd := FlooredDay(e);
    Assemble(jd, GregorianOf(jd), e % SEC_IN_DAY)
  }

  /*
   * get_dst (rtc.c:219-242)
   */

  /** The two records `get_dst` fills. */
  datatype DstWindow = DstWindow(start: Time, end: Time)

  /** The two records `get_dst` fills for a year, moved `shift` days back
      from the 14th of March and the 7th of November: Sundays at 02:00:00 of
      the same year, in March (day 8-14) and in November, seven days earlier
      in the month. */
  function DstWindowFor(year: uint8, shift: int): (w: DstWindow)
    requires 0 <= shift < 7
    ensures w.start == Time(0, 0, 2, SUNDAY, w.start.monthday, MARCH, year)
    ensures w.end == Time(0, 0, 2, SUNDAY, w.end.monthday, NOVEMBER, year)
    ensures 8 <= w.start.monthday <= 14
    ensures 1 <= w.end.monthday <= 7 && w.end.monthday == w.start.monthday - 7
  {
    DstWindow(Time(0, 0, 2, SUNDAY, 14 - shift, MARCH, year),
              Time(0, 0, 2, SUNDAY, 7 - shift, NOVEMBER, year))
  }

  /** `get_dst` as written: the US rule of rtc.c:219-222 evaluated on the
      two-digit year it is passed (rtc.c:510). */
  function GetDst(year: uint8): DstWindow
  {
    DstWindowFor(year, (1 + (year * 5) / 4) % 7)
  }

  /** `get_dst` as intended: the rule evaluated on the four-digit year. */
  function GetDstFullYear(year: uint8): DstWindow
  {
    DstWindowFor(year, (1 + ((2000 + year) * 5) / 4) % 7)
  }

  /*
   * The leap-year rule and valid records
   */

  /** The Gregorian leap-year rule as rtc_is_leap_year spells it out
      (rtc.c:694-702): not divisible by 4, no; else not by 100, yes; else by
      400, yes; else no. */
  function IsLeapYear(y: int): (leap: bool)
    ensures leap <==> (y % 4 == 0 && y % 100 != 0) || y % 400 == 0
  {
    if y % 4 != 0 then false
    else if y % 100 != 0 then true
    else if y % 400 == 0 then true
    else false
  }

  /** Days of month `m` (1-12) in year `y`. */
  function DaysInMonth(y: int, m: int): int
  {
    if m == 2 then (if IsLeapYear(y) then 29 else 28)
    else if m == 4 || m == 6 || m == 9 || m == 11 then 30
    else 31
  }

  /** A calendar record within the driver's range: years 2000-2099 (field
      0-99), a real day of its month, and a time of day. The weekday is not
      consulted by either conversion. */
  predicate ValidTime(t: Time)
  {
    t.year <= 99 && IsMonth(t.month) && 1 <= t.monthday <= DaysInMonth(2000 + t.year, t.month)
    && t.hours <= 23 && t.minutes <= 59 && t.seconds <= 59
  }

  /*
   * A reference Julian Day Number, on years that begin in March
   */

  /** The date of a calendar record, with its two-digit year made full. */
  function CivilOf(t: Time): Civil
  {
    Civil(2000 + t.year, t.month, t.monthday)
  }

  /** The year counted from March, shifted by 4800 so that it is not
      negative from 4800 BC on. */
  function MarchYear(c: Civil): int
  {
    c.year + 4800 - (if c.month <= 2 then 1 else 0)
  }

  /** The month counted from March: March = 0 ... February = 11. */
  function MarchMonth(c: Civil): int
  {
    (c.month + 9) % 12
  }

  /** The day of the March-based year, 1-366. */
  function DayOfMarchYear(c: Civil): int
  {
    (153 * MarchMonth(c) + 2) / 5 + c.day
  }

  /** The textbook integer Julian Day Number of a Gregorian date. */
  function Jdn(c: Civil): int
  {
    var a := MarchYear(c);
    DayOfMarchYear(c) + 365 * a + a / 4 - a / 100 + a / 400 - 32045
  }

  /** A Gregorian date from 4800 BC on. */
  predicate ValidCivil(c: Civil)
  {
    c.year >= -4799 && 1 <= c.month <= 12 && 1 <= c.day <= DaysInMonth(c.year, c.month)
  }

  /** The leap-day count of the reference formula, split by centuries. */
  lemma CenturySplit(a: int)
    requires a >= 0
    ensures 365 * a + a / 4 - a / 100 + a / 400
         == 36524 * (a / 100) + (a / 100) / 4 + (1461 * (a % 100)) / 4
  {
    var c, r := a / 100, a % 100;
    assert a == 100 * c + r;
    assert a / 4 == 25 * c + r / 4;
    assert a / 400 == c / 4;
  }

  /** L0 of the chain (Julian day + 68569), split into the part that names the
      century n and the day within the century, for a March-based year
      100 (n - 1) + i. */
  lemma JdnSplit(c: Civil, n: int, i: int)
    requires n >= 1 && 0 <= i <= 99
    requires MarchYear(c) == 100 * (n - 1) + i
    ensures Jdn(c) + 68569 == (146097 * n + 3) / 4 + (1461 * i) / 4 + DayOfMarchYear(c) - 1
  {
    var a := MarchYear(c);
    CenturySplit(a);
    assert a / 100 == n - 1 && a % 100 == i;
    assert (146097 * n + 3) / 4 == 36524 * n + (n - 1) / 4 + 1;
  }

  /*
   * The chain, forwards: from a date's Julian day back to the date
   */

  /** Recovering the century from L0 (rtc.c:163-169). */
  lemma CenturyStep(c: int, l1: int, jd: int)
    requires c >= 0 && 0 <= l1 <= 36524
    requires l1 == 36524 ==> c % 4 == 0
    requires jd == (146097 * c + 3) / 4 + l1 - 68569
    ensures GregorianOf(jd) == CenturyPhase(c, l1)
  {
    CenturyInverse(c, l1, jd + 68569);
    GregorianUnfold(jd, c, l1);
  }

  /** L0 = (146097 c + 3) / 4 + l1 names century c again. */
  lemma CenturyInverse(c: int, l1: int, L: int)
    requires c >= 0 && 0 <= l1 <= 36524
    requires l1 == 36524 ==> c % 4 == 0
    requires L == (146097 * c + 3) / 4 + l1
    ensures (4 * L) / 146097 == c
  {
    var q := (146097 * c + 3) / 4;
    assert 4 * q <= 146097 * c + 3 < 4 * q + 4;
    if l1 == 36524 {
      assert (146097 * c + 3) % 4 == 3;
    }
    assert 146097 * c <= 4 * L < 146097 * c + 146097;
  }

  /** Recovering the year within the century (rtc.c:170-175). */
  lemma YearStep(c: int, r: int, d: int, l1: int)
    requires 0 <= r <= 99 && 1 <= d <= 366
    requires d == 366 ==> r % 4 == 3
    requires l1 == (1461 * r) / 4 + d - 1
    ensures CenturyPhase(c, l1) == YearPhase(c, r, d + 30)
  {
    assert (4000 * (l1 + 1)) / 1461001 == r;
    YearUnfold(c, l1, r, d + 30);
  }

  /** Recovering month and day from the day of the year (rtc.c:176-181). */
  lemma MonthStep(c: int, r: int, m: int, d: int, l: int)
    requires 0 <= m <= 11 && 1 <= d <= 31
    requires m == 11 ==> d <= 29
    requires m == 1 || m == 3 || m == 6 || m == 8 ==> d <= 30
    requires l == (153 * m + 2) / 5 + d + 30
    ensures YearPhase(c, r, l)
         == Civil(100 * (c - 49) + r + (if m >= 10 then 1 else 0), if m >= 10 then m - 9 else m + 3, d)
  {
    assert (80 * l) / 2447 == m + 1;
    MonthUnfold(c, r, l, m + 1);
    assert l - (2447 * (m + 1)) / 80 == d;
  }

  /** The last two phases of the chain, composed. */
  lemma YearAndMonthSteps(n: int, r: int, m: int, d: int, l1: int)
    requires 0 <= r <= 99 && 0 <= m <= 11 && 1 <= d <= 31
    requires m == 11 ==> d <= 29
    requires m == 1 || m == 3 || m == 6 || m == 8 ==> d <= 30
    requires (153 * m + 2) / 5 + d == 366 ==> r % 4 == 3
    requires l1 == (1461 * r) / 4 + (153 * m + 2) / 5 + d - 1
    ensures CenturyPhase(n, l1)
         == Civil(100 * (n - 49) + r + (if m >= 10 then 1 else 0), if m >= 10 then m - 9 else m + 3, d)
  {
    var yd := (153 * m + 2) / 5 + d;
    YearStep(n, r, yd, l1);
    MonthStep(n, r, m, d, yd + 30);
    calc {
      CenturyPhase(n, l1);
      == // YearStep
      YearPhase(n, r, yd + 30);
      == // MonthStep
      Civil(100 * (n - 49) + r + (if m >= 10 then 1 else 0), if m >= 10 then m - 9 else m + 3, d);
    }
  }

  /** The three phases of the chain, composed. */
  lemma ChainSteps(n: int, r: int, m: int, d: int, jd: int)
    requires n >= 1 && 0 <= r <= 99 && 0 <= m <= 11 && 1 <= d <= 31
    requires m == 11 ==> d <= 29
    requires m == 1 || m == 3 || m == 6 || m == 8 ==> d <= 30
    requires (153 * m + 2) / 5 + d == 366 ==> r % 4 == 3
    requires (153 * m + 2) / 5 + d == 366 && r == 99 ==> n % 4 == 0
    requires jd == (146097 * n + 3) / 4 + (1461 * r) / 4 + (153 * m + 2) / 5 + d - 1 - 68569
    ensures GregorianOf(jd)
         == Civil(100 * (n - 49) + r + (if m >= 10 then 1 else 0), if m >= 10 then m - 9 else m + 3, d)
  {
    var l1 := (1461 * r) / 4 + (153 * m + 2) / 5 + d - 1;
    assert l1 == 36524 ==> r == 99 && (153 * m + 2) / 5 + d == 366;
    CenturyStep(n, l1, jd);
    YearAndMonthSteps(n, r, m, d, l1);
  }

  /** Where the leap days of a valid date fall on the March-based calendar. */
  lemma LeapDays(c: Civil)
    requires ValidCivil(c)
    ensures 1 <= DayOfMarchYear(c) <= 366
    ensures DayOfMarchYear(c) == 366 ==> MarchYear(c) % 4 == 3
    ensures DayOfMarchYear(c) == 366 && MarchYear(c) % 100 == 99 ==> (MarchYear(c) / 100 + 1) % 4 == 0
    ensures MarchMonth(c) == 11 ==> c.day <= 29
    ensures MarchMonth(c) == 1 || MarchMonth(c) == 3 || MarchMonth(c) == 6 || MarchMonth(c) == 8 ==> c.day <= 30
  {
    var a, m := MarchYear(c), MarchMonth(c);
    if DayOfMarchYear(c) == 366 {
      assert m == 11 && c.day == 29;
      assert IsLeapYear(a + 1 - 4800);
    }
  }

  /** Counting from March and back restores the year and the month. */
  lemma MarchFields(c: Civil)
    requires 1 <= c.month <= 12 && c.year >= -4799
    ensures var a, m := MarchYear(c), MarchMonth(c);
      && 0 <= m <= 11
      && 100 * (a / 100 + 1 - 49) + a % 100 + (if m >= 10 then 1 else 0) == c.year
      && (if m >= 10 then m - 9 else m + 3) == c.month
  {
  }

  /** The Fliegel-Van Flandern chain inverts the reference Julian Day Number
      on every valid Gregorian date. */
  lemma GregorianOfJdn(c: Civil)
    requires ValidCivil(c)
    ensures GregorianOf(Jdn(c)) == c
  {
    var a, m := MarchYear(c), MarchMonth(c);
    var cc, r := a / 100, a % 100;
    assert a == 100 * cc + r;
    assert a % 4 == r % 4 by { CenturyRemainder(a, cc, r); }
    JdnSplit(c, cc + 1, r);
    LeapDays(c);
    MarchFields(c);
    assert DayOfMarchYear(c) == (153 * m + 2) / 5 + c.day;
    ChainSteps(cc + 1, r, m, c.day, Jdn(c));
  }

  /** A year and its year within the century agree modulo 4. */
  lemma CenturyRemainder(a: int, cc: int, r: int)
    requires a == 100 * cc + r
    ensures a % 4 == r % 4
  {
    assert a == 4 * (25 * cc) + r;
  }

  /*
   * The chain, backwards: from any Julian day to a date
   */

  /** The bounds behind the century phase: L0 lies within the century that
      (4 L0) / 146097 names. */
  lemma CenturyBounds(L: int, n: int, q: int)
    requires L >= 0 && n == (4 * L) / 146097 && q == (146097 * n + 3) / 4
    ensures n >= 0 && 0 <= L - q <= 36524
  {
    assert 146097 * n <= 4 * L < 146097 * n + 146097;
    assert 4 * q <= 146097 * n + 3 < 4 * q + 4;
  }

  /** The first phase of the chain, on the century and day it computes. */
  lemma GregorianUnfold(jd: int, n: int, l1: int)
    requires jd >= -68569 && n == (4 * (jd + 68569)) / 146097
    requires l1 == jd + 68569 - (146097 * n + 3) / 4
    ensures GregorianOf(jd) == CenturyPhase(n, l1)
  {
    assert CDiv(4 * (jd + 68569), 146097) == n;
    assert CDiv(146097 * n + 3, 4) == (146097 * n + 3) / 4;
  }

  /** The second phase of the chain, on the year and day it computes. */
  lemma YearUnfold(n: int, l1: int, i: int, l2: int)
    requires l1 >= 0 && i == (4000 * (l1 + 1)) / 1461001
    requires l2 == l1 - ((1461 * i) / 4 - 31)
    ensures CenturyPhase(n, l1) == YearPhase(n, i, l2)
  {
    assert CDiv(4000 * (l1 + 1), 1461001) == i;
    assert CDiv(1461 * i, 4) == (1461 * i) / 4;
  }

  /** The last phase of the chain, on the month it computes. */
  lemma MonthUnfold(n: int, i: int, l2: int, j: int)
    requires l2 >= 0 && j == (80 * l2) / 2447 && j <= 12
    ensures YearPhase(n, i, l2)
         == Civil(100 * (n - 49) + i + j / 11, j + 2 - 12 * (j / 11), l2 - (2447 * j) / 80)
  {
    assert CDiv(80 * l2, 2447) == j;
    assert CDiv(2447 * j, 80) == (2447 * j) / 80;
    assert CDiv(j, 11) == j / 11;
  }

  /** The century phase of rtc.c:163-169 on a Julian day from -68569 on. */
  lemma CenturyOf(jd: int) returns (n: int, l1: int)
    requires jd >= -68569
    ensures n >= 0 && 0 <= l1 <= 36524
    ensures (146097 * n + 3) / 4 + l1 == jd + 68569
    ensures GregorianOf(jd) == CenturyPhase(n, l1)
  {
    var L := jd + 68569;
    n := (4 * L) / 146097;
    var q := (146097 * n + 3) / 4;
    CenturyBounds(L, n, q);
    l1 := L - q;
    GregorianUnfold(jd, n, l1);
  }

  /** The bounds behind the year phase: the day of the century lies within
      the year that (4000 (L1 + 1)) / 1461001 names. */
  lemma YearBounds(l1: int, i: int, q: int)
    requires 0 <= l1 <= 36524 && i == (4000 * (l1 + 1)) / 1461001 && q == (1461 * i) / 4
    ensures 0 <= i <= 99 && 31 <= l1 - (q - 31) <= 396
  {
    assert 1461001 * i <= 4000 * (l1 + 1) < 1461001 * i + 1461001;
    assert 4 * q <= 1461 * i < 4 * q + 4;
  }

  /** The year phase of rtc.c:170-175 on a day of the century. */
  lemma YearOf(n: int, l1: int) returns (i: int, l2: int)
    requires 0 <= l1 <= 36524
    ensures 0 <= i <= 99 && 31 <= l2 <= 396
    ensures l1 == (1461 * i) / 4 + l2 - 31
    ensures CenturyPhase(n, l1) == YearPhase(n, i, l2)
  {
    i := (4000 * (l1 + 1)) / 1461001;
    var q := (1461 * i) / 4;
    YearBounds(l1, i, q);
    l2 := l1 - (q - 31);
    YearUnfold(n, l1, i, l2);
  }

  /** The month phase of rtc.c:176-181 on a day of the March-based year: a
      month 1-12 and a day 1-31, and the month table of the reference
      formula. */
  lemma MonthOf(n: int, i: int, l2: int) returns (j: int)
    requires 31 <= l2 <= 396
    ensures 1 <= j <= 12
    ensures YearPhase(n, i, l2)
         == Civil(100 * (n - 49) + i + j / 11, j + 2 - 12 * (j / 11), l2 - (2447 * j) / 80)
    ensures 1 <= l2 - (2447 * j) / 80 <= 31
    ensures (2447 * j) / 80 - 30 == (153 * (j - 1) + 2) / 5
  {
    j := (80 * l2) / 2447;
    assert 2447 * j <= 80 * l2 < 2447 * j + 2447;
    MonthUnfold(n, i, l2, j);
  }

  /** For every Julian day from -68569 on (all days a 32-bit epoch can name),
      the chain of rtc.c:163-181 yields a month 1-12 and a day 1-31. */
  lemma GregorianRanges(jd: int)
    requires jd >= -68569
    ensures 1 <= GregorianOf(jd).month <= 12
    ensures 1 <= GregorianOf(jd).day <= 31
  {
    var n, l1 := CenturyOf(jd);
    var i, l2 := YearOf(n, l1);
    var j := MonthOf(n, i, l2);
  }

  /** The date the chain assembles from century n, year i, month j and a
      day, counted from March again. */
  lemma MarchOfChain(n: int, i: int, j: int, day: int)
    requires n >= 1 && 0 <= i <= 99 && 1 <= j <= 12
    ensures var c := Civil(100 * (n - 49) + i + j / 11, j + 2 - 12 * (j / 11), day);
      && MarchMonth(c) == j - 1
      && MarchYear(c) == 100 * (n - 1) + i
      && DayOfMarchYear(c) == (153 * (j - 1) + 2) / 5 + day
  {
    var c := Civil(100 * (n - 49) + i + j / 11, j + 2 - 12 * (j / 11), day);
    if j >= 11 {
      assert c.month == j - 10 && MarchMonth(c) == j - 1;
    } else {
      assert c.month == j + 2 && MarchMonth(c) == j - 1;
    }
    assert MarchYear(c) == 100 * (n - 1) + i;
  }

  /** The whole chain on a Julian day from 0 on: century n, year i and
      month j of the March-based calendar, and the day within the month. */
  lemma ChainOf(jd: int) returns (n: int, i: int, j: int, day: int)
    requires jd >= 0
    ensures n >= 1 && 0 <= i <= 99 && 1 <= j <= 12 && 1 <= day <= 31
    ensures GregorianOf(jd) == Civil(100 * (n - 49) + i + j / 11, j + 2 - 12 * (j / 11), day)
    ensures jd + 68569 == (146097 * n + 3) / 4 + (1461 * i) / 4 + (153 * (j - 1) + 2) / 5 + day - 1
  {
    var l1, l2;
    n, l1 := CenturyOf(jd);
    assert n >= 1;
    i, l2 := YearOf(n, l1);
    j := MonthOf(n, i, l2);
    calc {
      GregorianOf(jd);
      == // CenturyOf
      CenturyPhase(n, l1);
      == // YearOf
      YearPhase(n, i, l2);
    }
    day := l2 - (2447 * j) / 80;
  }

  /** On every Julian day from 0 on, the date the chain yields has the
      reference Julian Day Number it started from. */
  lemma JdnOfGregorian(jd: int)
    requires jd >= 0
    ensures Jdn(GregorianOf(jd)) == jd
  {
    var n, i, j, day := ChainOf(jd);
    var c := Civil(100 * (n - 49) + i + j / 11, j + 2 - 12 * (j / 11), day);
    MarchOfChain(n, i, j, day);
    JdnSplit(c, n, i);
  }

  /** The century, year and month the chain finds for a day of 2000-2099
      name a year 2000-2099. */
  lemma CenturyOfThisCentury(jd: int, n: int, i: int, j: int, day: int)
    requires 2451545 <= jd <= 2488069
    requires n >= 1 && 0 <= i <= 99 && 1 <= j <= 12 && 1 <= day <= 31
    requires jd + 68569 == (146097 * n + 3) / 4 + (1461 * i) / 4 + (153 * (j - 1) + 2) / 5 + day - 1
    ensures 2000 <= 100 * (n - 49) + i + j / 11 <= 2099
  {
    assert (1461 * i) / 4 <= 36159 && (153 * (j - 1) + 2) / 5 <= 337;
    assert n == 68 || n == 69;
    if n == 68 {
      assert (146097 * n + 3) / 4 == 2483649;
      assert i == 99;
      assert j >= 11;
    } else {
      assert (146097 * n + 3) / 4 == 2520174;
      if i == 99 {
        assert j <= 10;
      }
    }
  }

  /** The Julian days of 2000-01-01 to 2099-12-31 give the years 2000-2099. */
  lemma GregorianYearRange(jd: int)
    requires 2451545 <= jd <= 2488069
    ensures 2000 <= GregorianOf(jd).year <= 2099
  {
    var n, i, j, day := ChainOf(jd);
    CenturyOfThisCentury(jd, n, i, j, day);
  }

  /*
   * time_date_to_epoch and time_epoch_to_date
   */

  /** On a month count 12 a + m of March-based year a and month m, the
      quotients rtc.c:258-265 take are the terms of the reference formula. */
  lemma MonthCountTerms(ji: int, a: int, m: int)
    requires a >= 0 && 0 <= m <= 11 && ji == 12 * a + m
    ensures CDiv(2 * CMod(ji, 12) + 7 + 365 * ji, 12) == 365 * a + (153 * m + 2) / 5
    ensures CDiv(ji, 48) == a / 4
    ensures CDiv(ji, 1200) == a / 100
    ensures CDiv(ji, 4800) == a / 400
  {
    assert CMod(ji, 12) == m;
    assert 2 * m + 7 + 365 * ji == 12 * (365 * a) + 367 * m + 7;
    assert (367 * m + 7) / 12 == (153 * m + 2) / 5;
  }

  /** From 2000 on (March-based year 6799), the computation of rtc.c:258-265
      is the reference Julian Day Number. */
  lemma JulianDayOfCountIsJdn(ji: int, c: Civil)
    requires MarchYear(c) >= 6799 && 0 <= MarchMonth(c) <= 11 && c.day >= 1
    requires ji == 12 * MarchYear(c) + MarchMonth(c)
    ensures JulianDayOfCount(ji, c.day) == Jdn(c)
  {
    var a, m := MarchYear(c), MarchMonth(c);
    MonthCountTerms(ji, a, m);
    assert 365 * a + a / 4 >= 2483334;
  }

  /** rtc.c:258-265 compute the reference Julian Day Number: the month count
      `ji` is 12 March-based years plus the March-based month, so its
      quotients by 48, 1200 and 4800 are the leap-day counts, and the
      Gregorian correction always applies from 2000 on. */
  lemma JulianDayOfIsJdn(t: Time)
    requires IsMonth(t.month) && t.monthday >= 1
    ensures JulianDayOf(t) == Jdn(CivilOf(t))
  {
    var c := CivilOf(t);
    var ji := (t.year + 2000 + 4800) * 12 + (t.month - 3);
    assert ji == 12 * MarchYear(c) + MarchMonth(c);
    JulianDayOfCountIsJdn(ji, c);
  }

  /** A valid record's date is a valid Gregorian date from 2000 on. */
  lemma ValidTimeCivil(t: Time)
    requires ValidTime(t)
    ensures ValidCivil(CivilOf(t))
    ensures Jdn(CivilOf(t)) >= 2451545
  {
    var c := CivilOf(t);
    assert MarchYear(c) >= 6799;
  }

  /** Splitting a non-negative epoch into whole days and the second of the day. */
  lemma EpochSplit(k: int, sec: int)
    requires k >= 0 && 0 <= sec < SEC_IN_DAY
    ensures EpochDay(k * SEC_IN_DAY + sec) == k + JULIAN_DAY_1970
    ensures EpochSecond(k * SEC_IN_DAY + sec) == k * SEC_IN_DAY + sec
    ensures CMod(k * SEC_IN_DAY + sec, SEC_IN_DAY) == sec
  {
  }

  /** The hours, minutes and seconds of rtc.c:204-214 add up to the second of
      the day they were taken from. */
  lemma SecondOfDay(jd: int, c: Civil, tod: int)
    requires tod >= 0
    ensures SecondsOfDay(Assemble(jd, c, tod)) == tod % SEC_IN_DAY
  {
    var L := tod % SEC_IN_DAY;
    var h := L / SEC_IN_HOUR;
    var m := (L - h * SEC_IN_HOUR) / SEC_IN_MIN;
    var sec := L - h * SEC_IN_HOUR - m * SEC_IN_MIN;
    assert CMod(tod, SEC_IN_DAY) == L;
    assert CDiv(L, SEC_IN_HOUR) == h && h <= 23;
    assert CDiv(L - h * SEC_IN_HOUR, SEC_IN_MIN) == m && m <= 59;
    assert CMod(L, SEC_IN_MIN) == sec;
    var r := Assemble(jd, c, tod);
    assert r.hours == h && r.minutes == m && r.seconds == sec;
  }

  /** The record built from a Julian day from 0 on, a month 1-12, a day 1-31
      and a non-negative second count holds values in the ranges of its
      fields. */
  lemma AssembleRanges(jd: int, c: Civil, tod: int)
    requires jd >= 0 && tod >= 0
    requires 1 <= c.month <= 12 && 1 <= c.day <= 31
    ensures Assemble(jd, c, tod).hours <= 23
    ensures Assemble(jd, c, tod).minutes <= 59
    ensures Assemble(jd, c, tod).seconds <= 59
    ensures IsWeekday(Assemble(jd, c, tod).weekday)
    ensures IsMonth(Assemble(jd, c, tod).month)
    ensures 1 <= Assemble(jd, c, tod).monthday <= 31
  {
  }

  /** rtc.c:151-215: whatever the epoch, including negative ones, the record
      holds a time of day, a weekday 1-7, a month 1-12 and a day 1-31. */
  lemma EpochToDateRanges(e: int)
    requires e >= LONG_MIN
    ensures EpochToDate(e).hours <= 23
    ensures EpochToDate(e).minutes <= 59
    ensures EpochToDate(e).seconds <= 59
    ensures IsWeekday(EpochToDate(e).weekday)
    ensures IsMonth(EpochToDate(e).month)
    ensures 1 <= EpochToDate(e).monthday <= 31
  {
    var jd := EpochDay(e);
    assert jd >= -68569 by {
      if e < 0 {
        assert (-e) / SEC_IN_DAY <= 24856;
      }
    }
    GregorianRanges(jd);
    AssembleRanges(jd, GregorianOf(jd), EpochSecond(e));
  }

  /** The epoch of a valid record splits back into its Julian day and its
      second of the day. */
  lemma EpochOfRecord(t: Time, jd: int, e: int)
    requires ValidTime(t) && jd == JulianDayOf(t)
    requires e == (jd - JULIAN_DAY_1970) * SEC_IN_DAY + SecondsOfDay(t)
    ensures EpochDay(e) == jd && EpochSecond(e) == e
    ensures e % SEC_IN_DAY == SecondsOfDay(t)
  {
    ValidTimeCivil(t);
    JulianDayOfIsJdn(t);
    EpochSplit(jd - JULIAN_DAY_1970, SecondsOfDay(t));
  }

  /** The record assembled from a date and a second count whose remainder is
      a record's time of day carries that record's fields. */
  lemma AssembleRecord(jd: int, t: Time, tod: int)
    requires jd >= 0 && tod >= 0 && tod % SEC_IN_DAY == SecondsOfDay(t)
    requires t.hours <= 23 && t.minutes <= 59 && t.seconds <= 59
    ensures Assemble(jd, CivilOf(t), tod) == t.(weekday := ToUint8(CMod(jd, 7)) + 1)
  {
    var L := tod % SEC_IN_DAY;
    assert CMod(tod, SEC_IN_DAY) == L;
    assert CDiv(L, SEC_IN_HOUR) == t.hours;
    assert CDiv(L - t.hours * SEC_IN_HOUR, SEC_IN_MIN) == t.minutes;
    assert CMod(L, SEC_IN_MIN) == t.seconds;
  }

  /** rtc.c:133-216 invert rtc.c:244-283: converting a valid record to an
      epoch and back restores its seconds, minutes, hours, day, month and
      year, and the weekday comes back one more than the 0-based one
      written into the record. */
  lemma DateToEpochToDate(t: Time)
    requires ValidTime(t)
    ensures var r := DateToEpoch(t);
      EpochToDate(r.epoch) == t.(weekday := r.written.weekday + 1)
  {
    var jd := JulianDayOf(t);
    var e := DateToEpoch(t).epoch;
    EpochOfRecord(t, jd, e);
    ValidTimeCivil(t);
    JulianDayOfIsJdn(t);
    GregorianOfJdn(CivilOf(t));
    assert GregorianOf(jd) == CivilOf(t);
    AssembleRecord(jd, t, e);
  }

  /** rtc.c:244-283 invert rtc.c:133-216 on the epochs of the years
      2000-2099: the record an epoch converts to has a two-digit year and
      converts back to the same epoch. */
  lemma EpochToDateToEpoch(e: int)
    requires 946684800 <= e <= 4102444799
    ensures EpochToDate(e).year <= 99
    ensures DateToEpoch(EpochToDate(e)).epoch == e
  {
    var k, sec := e / SEC_IN_DAY, e % SEC_IN_DAY;
    EpochSplit(k, sec);
    var jd := k + JULIAN_DAY_1970;
    var c := GregorianOf(jd);
    GregorianRanges(jd);
    GregorianYearRange(jd);
    JdnOfGregorian(jd);
    var t := EpochToDate(e);
    assert t == Assemble(jd, c, e);
    assert CivilOf(t) == c;
    JulianDayOfIsJdn(t);
    SecondOfDay(jd, c, e);
  }

  /** The reference value: 2000-01-01 00:00:00 is epoch 946684800, a
      Saturday (0-based weekday 5). */
  lemma Epoch2000()
    ensures DateToEpoch(Time(0, 0, 0, 0, 1, JANUARY, 0)).epoch == 946684800
    ensures DateToEpoch(Time(0, 0, 0, 0, 1, JANUARY, 0)).written.weekday == 5
  {
    assert CMod(81598, 12) == 10;
    assert CDiv(2 * 10 + 7 + 365 * 81598, 12) == 2481941;
    assert CDiv(81598, 48) == 1699;
    assert CDiv(81598, 4800) == 16 && CDiv(81598, 1200) == 67;
    assert JulianDayOf(Time(0, 0, 0, 0, 1, JANUARY, 0)) == 2451545;
  }

  /** Julian day 2440587 is 31 December 1969 (rtc.c:163-181). */
  lemma LastDayOf1969()
    ensures GregorianOf(2440587) == Civil(1969, 12, 31)
  {
    assert CDiv(4 * 2509156, 146097) == 68;
    assert CDiv(146097 * 68 + 3, 4) == 2483649;
    assert CDiv(4000 * (25507 + 1), 1461001) == 69;
    assert CDiv(1461 * 69, 4) == 25202;
    assert CDiv(80 * 336, 2447) == 10;
    assert CDiv(2447 * 10, 80) == 305;
  }

  /** Julian day 2440586 is 30 December 1969, and 2440587 the day after. */
  lemma LastDaysOf1969()
    ensures GregorianOf(2440586) == Civil(1969, 12, 30)
    ensures GregorianOf(2440587) == Civil(1969, 12, 31)
  {
    LastDayOf1969();
    assert CDiv(4 * 2509155, 146097) == 68;
    assert CDiv(146097 * 68 + 3, 4) == 2483649;
    assert CDiv(4000 * (25506 + 1), 1461001) == 69;
    assert CDiv(1461 * 69, 4) == 25202;
    assert CDiv(80 * 335, 2447) == 10;
    assert CDiv(2447 * 10, 80) == 305;
  }

  /** `uint8_t` fields wrap: the last second of 1969 is 23:59:59 on
      Wednesday 31 December, with year field 1969 - 2000 + 256 = 225. */
  lemma PreEpochYearWraps()
    ensures EpochToDate(-1) == Time(59, 59, 23, WEDNESDAY, 31, DECEMBER, 225)
  {
    assert EpochDay(-1) == 2440587 && EpochSecond(-1) == 86399;
    LastDayOf1969();
    assert Assemble(2440587, Civil(1969, 12, 31), 86399) == Time(59, 59, 23, WEDNESDAY, 31, DECEMBER, 225);
  }

  /*
   * Negative epochs: the code as written and the floored conversion
   */

  /** How rtc.c:151-156 and 193-202 treat a negative epoch: off a multiple of
      a day they compute its floored day and second; on one, the day before
      and a full day of seconds. */
  lemma NegativeEpochParts(e: int)
    requires e < 0
    ensures e % SEC_IN_DAY != 0 ==> EpochDay(e) == FlooredDay(e) && EpochSecond(e) == e % SEC_IN_DAY
    ensures e % SEC_IN_DAY == 0 ==> EpochDay(e) == FlooredDay(e) - 1 && EpochSecond(e) == SEC_IN_DAY
  {
    var q, r := (-e) / SEC_IN_DAY, (-e) % SEC_IN_DAY;
    assert -e == q * SEC_IN_DAY + r;
    if r == 0 {
      assert e == (-q) * SEC_IN_DAY;
      assert e / SEC_IN_DAY == -q && e % SEC_IN_DAY == 0;
    } else {
      assert e == (-q - 1) * SEC_IN_DAY + (SEC_IN_DAY - r);
      assert e / SEC_IN_DAY == -q - 1 && e % SEC_IN_DAY == SEC_IN_DAY - r;
    }
  }

  /** The two conversions agree on every epoch that is not a negative
      multiple of a day, in particular on every epoch from 0 on. */
  lemma FlooredAgrees(e: int)
    requires e >= 0 || e % SEC_IN_DAY != 0
    ensures EpochToDate(e) == EpochToDateFloored(e)
  {
    var jd := FlooredDay(e);
    if e < 0 {
      NegativeEpochParts(e);
    }
    assert EpochDay(e) == jd;
    assert CMod(EpochSecond(e), SEC_IN_DAY) == CMod(e % SEC_IN_DAY, SEC_IN_DAY);
    AssembleSameSecond(jd, GregorianOf(jd), EpochSecond(e), e % SEC_IN_DAY);
  }

  /** Second counts with the same C remainder assemble the same record. */
  lemma AssembleSameSecond(jd: int, c: Civil, tod: int, tod': int)
    requires CMod(tod, SEC_IN_DAY) == CMod(tod', SEC_IN_DAY)
    ensures Assemble(jd, c, tod) == Assemble(jd, c, tod')
  {
  }

  /** As written, an epoch that is a negative multiple of a day lands at
      midnight one day too early: on the record the floored conversion gives
      a day earlier. */
  lemma NegativeMidnightDayEarly(e: int)
    requires e < 0 && e % SEC_IN_DAY == 0
    ensures EpochDay(e) == FlooredDay(e) - 1
    ensures EpochToDate(e) == EpochToDateFloored(e - SEC_IN_DAY)
  {
    NegativeEpochParts(e);
    var jd := FlooredDay(e - SEC_IN_DAY);
    assert (e - SEC_IN_DAY) / SEC_IN_DAY == e / SEC_IN_DAY - 1;
    assert (e - SEC_IN_DAY) % SEC_IN_DAY == 0;
    assert jd == EpochDay(e);
    AssembleSameSecond(jd, GregorianOf(jd), SEC_IN_DAY, 0);
  }

  /** The first such epoch: a day before 1970-01-01 00:00:00 yields
      1969-12-30 00:00:00, where 1969-12-31 00:00:00 was meant; the day and
      time of the record then name the instant two days before 1970. */
  lemma EpochMinusOneDay()
    ensures EpochToDate(-SEC_IN_DAY).monthday == 30
    ensures EpochToDateFloored(-SEC_IN_DAY).monthday == 31
    ensures (EpochDay(-SEC_IN_DAY) - JULIAN_DAY_1970) * SEC_IN_DAY
            + SecondsOfDay(EpochToDate(-SEC_IN_DAY)) == -2 * SEC_IN_DAY
  {
    assert EpochDay(-SEC_IN_DAY) == 2440586 && EpochSecond(-SEC_IN_DAY) == SEC_IN_DAY;
    LastDaysOf1969();
    assert EpochToDate(-SEC_IN_DAY) == Assemble(2440586, Civil(1969, 12, 30), SEC_IN_DAY);
    assert FlooredDay(-SEC_IN_DAY) == 2440587;
  }

  /** A second of the day is its own remainder. */
  lemma SmallRemainder(sec: int)
    requires 0 <= sec < SEC_IN_DAY
    ensures sec % SEC_IN_DAY == sec
  {
  }

  /** The time of day of the floored conversion is the floored remainder. */
  lemma FlooredTimeOfDay(e: int)
    ensures SecondsOfDay(EpochToDateFloored(e)) == e % SEC_IN_DAY
  {
    var jd := FlooredDay(e);
    var sec := e % SEC_IN_DAY;
    var c := GregorianOf(jd);
    assert EpochToDateFloored(e) == Assemble(jd, c, sec);
    SmallRemainder(sec);
    SecondOfDay(jd, c, sec);
  }

  /** The floored conversion is exact on every 32-bit epoch: the record's
      date is the Gregorian date of the Julian day floor(e / 86400) + 2440588,
      and that day and the record's time of day name exactly e. */
  lemma FlooredIsExact(e: int)
    requires e >= LONG_MIN
    ensures Jdn(GregorianOf(FlooredDay(e))) == FlooredDay(e)
    ensures (FlooredDay(e) - JULIAN_DAY_1970) * SEC_IN_DAY + SecondsOfDay(EpochToDateFloored(e)) == e
  {
    JdnOfGregorian(FlooredDay(e));
    FlooredTimeOfDay(e);
    assert e == (e / SEC_IN_DAY) * SEC_IN_DAY + e % SEC_IN_DAY;
  }

  /*
   * get_dst, as written and as intended
   */

  /** The Julian day of a date from March on in a year 2000-2099, mod 7:
      each year moves it by one day and each leap day by one more. */
  lemma JdnMod7InCentury(y: int, m: int, d: int)
    requires 0 <= y <= 99 && 3 <= m <= 12
    ensures Jdn(Civil(2000 + y, m, d)) % 7 == (d + (153 * (m - 3) + 2) / 5 + y + y / 4 + 1) % 7
  {
    var c := Civil(2000 + y, m, d);
    assert MarchYear(c) == 6800 + y && MarchMonth(c) == m - 3;
    assert (6800 + y) / 4 == 1700 + y / 4;
    assert (6800 + y) / 100 == 68 && (6800 + y) / 400 == 17;
    assert Jdn(c) == 7 * (52 * y + 350229) + d + (153 * (m - 3) + 2) / 5 + y + y / 4 + 1;
  }

  /** Adding s and taking away its remainder mod 7 leaves the weekday alone. */
  lemma ShiftCancels(s: int, k: int)
    ensures (k - s % 7 + s) % 7 == k % 7
  {
    assert k - s % 7 + s == k + 7 * (s / 7);
  }

  /** The weekday of day k - s % 7 of a month from March on, 2000-2099. */
  lemma ShiftedDayWeekday(y: int, m: int, k: int, s: int, w: int)
    requires 0 <= y <= 99 && 3 <= m <= 12
    requires (k + (153 * (m - 3) + 2) / 5 + y + y / 4 + 1 - s) % 7 == w
    ensures Jdn(Civil(2000 + y, m, k - s % 7)) % 7 == w
  {
    var t := (153 * (m - 3) + 2) / 5 + y + y / 4 + 1 - s;
    JdnMod7InCentury(y, m, k - s % 7);
    ShiftCancels(s, k + t);
  }

  /** The weekdays of the two records of a year 2000-2099 moved back by
      s mod 7 days. */
  lemma DstWindowWeekdays(year: uint8, s: int, w: int)
    requires year <= 99
    requires (15 + year + year / 4 - s) % 7 == w
    ensures Jdn(CivilOf(DstWindowFor(year, s % 7).start)) % 7 == w
    ensures Jdn(CivilOf(DstWindowFor(year, s % 7).end)) % 7 == w
  {
    ShiftedDayWeekday(year, 3, 14, s, w);
    assert (7 + 245 + year + year / 4 + 1 - s) % 7 == w;
    ShiftedDayWeekday(year, 11, 7, s, w);
  }

  /** As written, both DST records fall on a Monday for every year 2000-2099:
      the day after the intended Sunday, or the Monday after it when that
      Sunday is the 14th (7th). */
  lemma DstOnMondays(year: uint8)
    requires year <= 99
    ensures Jdn(CivilOf(GetDst(year).start)) % 7 + 1 == MONDAY
    ensures Jdn(CivilOf(GetDst(year).end)) % 7 + 1 == MONDAY
  {
    assert (year * 5) / 4 == year + year / 4;
    DstWindowWeekdays(year, 1 + (year * 5) / 4, 0);
  }

  /** With the four-digit year, the records are the second Sunday of March
      and the first Sunday of November. */
  lemma DstFullYearOnSundays(year: uint8)
    requires year <= 99
    ensures Jdn(CivilOf(GetDstFullYear(year).start)) % 7 + 1 == SUNDAY
    ensures Jdn(CivilOf(GetDstFullYear(year).end)) % 7 + 1 == SUNDAY
  {
    assert ((2000 + year) * 5) / 4 == 2500 + year + year / 4;
    DstWindowWeekdays(year, 1 + ((2000 + year) * 5) / 4, 6);
  }

  /** The example of 2024: the code yields 11 March, the rule 10 March. */
  lemma Dst2024()
    ensures GetDst(24).start.monthday == 11
    ensures GetDstFullYear(24).start.monthday == 10
  {
  }

  /** The leap-year rule gives the same answer on a two-digit year 0-99 as
      on the four-digit year it stands for. */
  lemma LeapTwoDigitYear(y: int)
    requires 0 <= y <= 99
    ensures IsLeapYear(y) == IsLeapYear(2000 + y)
  {
  }
}
