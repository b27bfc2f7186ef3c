/** Civil dates as whole numbers of days: apps/datetime.h.

    The day number of a date and back, in the straight-line integer arithmetic of the source: C's
    truncating division and its unsigned wrap-around are written out.  The two functions are inverse
    bijections between all integers and all dates of the proleptic Gregorian calendar. */
module DateTime {
  import opened Division

  datatype Date = Date(y: int, m: int, d: int)

  /** C's `/` on signed operands: truncation toward zero. */
  function TruncDiv(a: int, b: int): int
    requires b > 0
  {
    if a >= 0 then a / b else -((-a) / b)
  }

  /** C's `%` on signed operands: the remainder has the sign of the dividend. */
  function TruncMod(a: int, b: int): int
    requires b > 0
  {
    a - b * TruncDiv(a, b)
  }

  predicate IsLeap(y: int) {
    (TruncMod(y, 4) == 0 && TruncMod(y, 100) != 0) || TruncMod(y, 400) == 0
  }

  /** Days in a month; 30 for a month that is not one. */
  function DaysInMonth(y: int, m: int): int {
    if m == 2 && IsLeap(y) then 29
    else if m < 1 || m > 12 then 30
    else [0, 31, 28, 31, 30, 31, 30, 31, 31, 30, 31, 30, 31][m]
  }

  predicate ValidDate(t: Date) {
    1 <= t.m <= 12 && 1 <= t.d <= DaysInMonth(t.y, t.m)
  }

  function DaysFromCivil(t: Date): int {
    var y := if t.m <= 2 then t.y - 1 else t.y;
    var era := TruncDiv(if y >= 0 then y else y - 399, 400);
    var yoe := y - era * 400;
    var doy := TruncDiv(153 * (t.m + (if t.m > 2 then -3 else 9)) + 2, 5) + t.d - 1;
    var doe := yoe * 365 + TruncDiv(yoe, 4) - TruncDiv(yoe, 100) + doy;
    era * 146097 + doe - 719468
  }

  const U32: int := 0x1_0000_0000

  /** `mp + (mp < 10 ? 3 : (unsigned)-9)`, in 32-bit unsigned arithmetic. */
  function MonthOf(mp: int): int {
    (mp + (if mp < 10 then 3 else U32 - 9)) % U32
  }

  function YearOfEra(doe: int): int {
    TruncDiv(doe - TruncDiv(doe, 1460) + TruncDiv(doe, 36524) - TruncDiv(doe, 146096), 365)
  }

  function DayOfYear(doe: int, yoe: int): int {
    doe - (365 * yoe + TruncDiv(yoe, 4) - TruncDiv(yoe, 100))
  }

  function MonthDay(y: int, doy: int): Date {
    var mp := TruncDiv(5 * doy + 2, 153);
    var d := doy - TruncDiv(153 * mp + 2, 5) + 1;
    var m := MonthOf(mp);
    Date(if m <= 2 then y + 1 else y, m, d)
  }

  function CivilFromDays(day: int): Date {
    var z := day + 719468;
    var era := TruncDiv(if z >= 0 then z else z - 146096, 146097);
    var doe := z - era * 146097;
    var yoe := YearOfEra(doe);
    MonthDay(yoe + era * 400, DayOfYear(doe, yoe))
  }

  /** 0 is Sunday. */
  function Weekday(z: int): int {
    var w := TruncMod(z + 4, 7);
    if w < 0 then w + 7 else w
  }

  // ---- the year that starts in March -------------------------------------------------------

  /** Days before year `yoe` of a 400-year era whose years start on 1 March. */
  function YearStart(yoe: int): int {
    365 * yoe + yoe / 4 - yoe / 100
  }

  /** Days before month `mp` (0 is March) of such a year. */
  function MonthStart(mp: int): int {
    (153 * mp + 2) / 5
  }

  predicate LeapEnd(yoe: int) {
    ((yoe + 1) % 4 == 0 && (yoe + 1) % 100 != 0) || yoe == 399
  }

  function YearLength(yoe: int): int {
    if LeapEnd(yoe) then 366 else 365
  }

  lemma FloorOfTrunc(a: int, b: int)
    requires b > 0
    ensures TruncDiv(if a >= 0 then a else a - (b - 1), b) == a / b
  {
    if a < 0 {
      var q, r := a / b, a % b;
      assert -(a - (b - 1)) == b * (-q) + (b - 1 - r);
      DivUnique(-(a - (b - 1)), b, -q, b - 1 - r);
    }
  }

  /** A year of the era as century, four-year group and year: where it starts and how long it is. */
  lemma YearParts(c: int, q: int, r: int)
    requires 0 <= c < 4 && 0 <= q < 25 && 0 <= r < 4
    ensures YearStart(100 * c + 4 * q + r) == 36524 * c + 1461 * q + 365 * r
    ensures LeapEnd(100 * c + 4 * q + r) <==> r == 3 && (q < 24 || c == 3)
  {
    var yoe := 100 * c + 4 * q + r;
    DivUnique(yoe, 4, 25 * c + q, r);
    DivUnique(yoe, 100, c, 4 * q + r);
    if r == 3 {
      if q == 24 {
        DivUnique(yoe + 1, 100, c + 1, 0);
      } else {
        DivUnique(yoe + 1, 100, c, 4 * q + 4);
      }
    }
  }

  /** The source's expression for the year of the era, on the parts of a day of the era. */
  lemma YearFormula(c: int, q: int, r: int, doy: int)
    requires 0 <= c < 4 && 0 <= q < 25 && 0 <= r < 4
    requires 0 <= doy < 365 || (doy == 365 && r == 3 && (q < 24 || c == 3))
    ensures var doe := 36524 * c + 1461 * q + 365 * r + doy;
      0 <= doe < 146097
      && YearOfEra(doe) == 100 * c + 4 * q + r
  {
    var j := 365 * r + doy;
    var doe := 36524 * c + 1461 * q + j;
    var t := if 24 * c + q + j >= 1460 then 1 else 0;
    DivUnique(doe, 1460, 25 * c + q + t, 24 * c + q + j - 1460 * t);
    var last := if doe == 146096 then 1 else 0;
    DivUnique(doe, 146096, last, doe - 146096 * last);
    DivUnique(doe, 36524, c + last, doe - 36524 * (c + last));
    DivUnique(doe - doe / 1460 + doe / 36524 - doe / 146096, 365, 100 * c + 4 * q + r, doy - t);
  }

  lemma YearOfDay(yoe: int, doy: int)
    requires 0 <= yoe < 400 && 0 <= doy < YearLength(yoe)
    ensures var doe := YearStart(yoe) + doy;
      0 <= doe < 146097 && YearOfEra(doe) == yoe && DayOfYear(doe, yoe) == doy
  {
    var c, q, r := yoe / 100, yoe % 100 / 4, yoe % 4;
    assert yoe == 100 * c + 4 * q + r;
    YearParts(c, q, r);
    YearFormula(c, q, r, doy);
  }

  lemma EraYear(doe: int) returns (yoe: int)
    requires 0 <= doe < 146097
    ensures 0 <= yoe < 400 && 0 <= doe - YearStart(yoe) < YearLength(yoe)
  {
    var c := if doe == 146096 then 3 else doe / 36524;
    var q := (doe - 36524 * c) / 1461;
    var j := doe - 36524 * c - 1461 * q;
    var r := if j == 1460 then 3 else j / 365;
    YearParts(c, q, r);
    yoe := 100 * c + 4 * q + r;
  }

  // ---- dates as parts ----------------------------------------------------------------------

  /** Where a date is: its era, the March-based year of the era and the March-based month. */
  datatype Parts = Parts(era: int, yoe: int, mp: int, d: int) {
    predicate Valid() {
      0 <= yoe < 400 && 0 <= mp < 12 && 1 <= d
      && d <= (if mp == 11 then YearLength(yoe) else MonthStart(mp + 1)) - MonthStart(mp)
    }

    function AsDate(): Date {
      Date(400 * era + yoe + (if mp >= 10 then 1 else 0), if mp < 10 then mp + 3 else mp - 9, d)
    }

    function Days(): int {
      era * 146097 + YearStart(yoe) + MonthStart(mp) + d - 1 - 719468
    }
  }

  lemma LeapOfEra(era: int, yoe: int)
    requires 0 <= yoe < 400
    ensures IsLeap(400 * era + yoe + 1) <==> LeapEnd(yoe)
  {
    var y := 400 * era + yoe + 1;
    TruncModZero(y, 4);
    TruncModZero(y, 100);
    TruncModZero(y, 400);
    ModShift(era, yoe + 1, 4, 100);
    ModShift(era, yoe + 1, 100, 4);
    ModShift(era, yoe + 1, 400, 1);
  }

  lemma TruncModZero(a: int, b: int)
    requires b > 0
    ensures TruncMod(a, b) == 0 <==> a % b == 0
  {
    if a < 0 {
      var q := (-a) / b;
      if TruncMod(a, b) == 0 { DivUnique(a, b, -q, 0); }
      if a % b == 0 { DivUnique(-a, b, -(a / b), 0); }
    }
  }

  lemma ModShift(era: int, n: int, b: int, k: int)
    requires b > 0 && b * k == 400
    ensures (400 * era + n) % b == n % b
  {
    assert 400 * era == b * (k * era) by { assert b * (k * era) == (b * k) * era; }
    assert 400 * era + n == b * (k * era + n / b) + n % b by {
      assert b * (k * era + n / b) == b * (k * era) + b * (n / b);
    }
    DivUnique(400 * era + n, b, k * era + n / b, n % b);
  }

  lemma PartsOf(t: Date) returns (p: Parts)
    requires ValidDate(t)
    ensures p.Valid() && p.AsDate() == t
  {
    var y := if t.m <= 2 then t.y - 1 else t.y;
    p := Parts(y / 400, y % 400, if t.m > 2 then t.m - 3 else t.m + 9, t.d);
    LeapOfEra(p.era, p.yoe);
  }

  lemma PartsAreADate(p: Parts)
    requires p.Valid()
    ensures ValidDate(p.AsDate())
  {
    LeapOfEra(p.era, p.yoe);
  }

  lemma DaysOfParts(p: Parts)
    requires p.Valid()
    ensures DaysFromCivil(p.AsDate()) == p.Days()
  {
    var y := 400 * p.era + p.yoe;
    FloorOfTrunc(y, 400);
    DivUnique(y, 400, p.era, p.yoe);
  }

  lemma PartsOfDays(p: Parts)
    requires p.Valid()
    ensures CivilFromDays(p.Days()) == p.AsDate()
  {
    hide YearOfEra, DayOfYear, MonthDay, CivilFromDays, YearStart, MonthStart, YearLength;
    var z := p.Days() + 719468;
    var doy := MonthStart(p.mp) + p.d - 1;
    var doe := YearStart(p.yoe) + doy;
    PartsBounds(p);
    YearOfDay(p.yoe, doy);
    FloorOfTrunc(z, 146097);
    assert z == 146097 * p.era + doe;
    DivUnique(z, 146097, p.era, doe);
    CivilOfEra(p.Days(), p.era, doe, p.yoe, doy);
    MonthDayOfParts(p.yoe + p.era * 400, p.mp, p.d);
  }

  lemma PartsBounds(p: Parts)
    requires p.Valid()
    ensures 0 <= p.yoe < 400 && 0 <= p.mp < 12 && 1 <= p.d
    ensures 0 <= MonthStart(p.mp) + p.d - 1 < YearLength(p.yoe) <= 366
    ensures p.mp < 11 ==> MonthStart(p.mp) + p.d <= MonthStart(p.mp + 1)
  {
  }

  lemma CivilOfEra(day: int, era: int, doe: int, yoe: int, doy: int)
    requires TruncDiv(if day + 719468 >= 0 then day + 719468 else day + 719468 - 146096, 146097) == era
    requires day + 719468 == 146097 * era + doe
    requires YearOfEra(doe) == yoe && DayOfYear(doe, yoe) == doy
    ensures CivilFromDays(day) == MonthDay(yoe + era * 400, doy)
  {
  }

  lemma MonthDayOfParts(y: int, mp: int, d: int)
    requires 0 <= mp < 12 && 1 <= d && MonthStart(mp) + d <= 366
    requires mp < 11 ==> MonthStart(mp) + d <= MonthStart(mp + 1)
    ensures MonthDay(y, MonthStart(mp) + d - 1)
         == Date(if mp < 10 then y else y + 1, if mp < 10 then mp + 3 else mp - 9, d)
  {
    var doy := MonthStart(mp) + d - 1;
    DivUnique(5 * doy + 2, 153, mp, 5 * doy + 2 - 153 * mp);
    assert MonthOf(mp) == if mp < 10 then mp + 3 else mp - 9;
  }

  lemma PartsAtDay(z: int) returns (p: Parts)
    ensures p.Valid() && p.Days() == z
  {
    var n := z + 719468;
    var yoe := EraYear(n % 146097);
    var doy := n % 146097 - YearStart(yoe);
    var mp := (5 * doy + 2) / 153;
    p := Parts(n / 146097, yoe, mp, doy - MonthStart(mp) + 1);
  }

  // ---- the bijection -----------------------------------------------------------------------

  /** Every valid date, before or after 1970, comes back from its day number. */
  lemma DateRoundTrip(t: Date)
    requires ValidDate(t)
    ensures CivilFromDays(DaysFromCivil(t)) == t
  {
    var p := PartsOf(t);
    DaysOfParts(p);
    PartsOfDays(p);
  }

  /** Every integer is the day number of exactly one valid date, the one the source computes. */
  lemma DayRoundTrip(z: int)
    ensures ValidDate(CivilFromDays(z))
    ensures DaysFromCivil(CivilFromDays(z)) == z
  {
    var p := PartsAtDay(z);
    PartsOfDays(p);
    PartsAreADate(p);
    DaysOfParts(p);
  }

  /** The day after a date, by the calendar alone. */
  function NextDate(t: Date): Date
    requires ValidDate(t)
  {
    if t.d < DaysInMonth(t.y, t.m) then Date(t.y, t.m, t.d + 1)
    else if t.m < 12 then Date(t.y, t.m + 1, 1)
    else Date(t.y + 1, 1, 1)
  }

  /** The epoch is 1970-01-01 and the day after a date has the next number: with the round trips,
      this fixes the day number of every date. */
  lemma NextDay(t: Date)
    requires ValidDate(t)
    ensures ValidDate(NextDate(t))
    ensures DaysFromCivil(NextDate(t)) == DaysFromCivil(t) + 1
    ensures DaysFromCivil(Date(1970, 1, 1)) == 0
  {
    var p := PartsOf(t);
    DaysOfParts(p);
    LeapOfEra(p.era, p.yoe);
    var q := NextParts(p);
    NextPartsDays(p);
    NextPartsDate(t, p);
    DaysOfParts(q);
    PartsAreADate(q);
    DaysOfParts(Parts(4, 369, 10, 1));
  }

  function NextParts(p: Parts): Parts {
    if p.d < (if p.mp == 11 then YearLength(p.yoe) else MonthStart(p.mp + 1)) - MonthStart(p.mp) then p.(d := p.d + 1)
    else if p.mp < 11 then Parts(p.era, p.yoe, p.mp + 1, 1)
    else if p.yoe < 399 then Parts(p.era, p.yoe + 1, 0, 1)
    else Parts(p.era + 1, 0, 0, 1)
  }

  lemma NextPartsDays(p: Parts)
    requires p.Valid()
    ensures NextParts(p).Valid() && NextParts(p).Days() == p.Days() + 1
  {
    if p.yoe < 399 { NextYear(p.yoe); }
  }

  lemma NextPartsDate(t: Date, p: Parts)
    requires ValidDate(t) && p.Valid() && p.AsDate() == t
    ensures NextParts(p).AsDate() == NextDate(t)
  {
    LeapOfEra(p.era, p.yoe);
    var last := (if p.mp == 11 then YearLength(p.yoe) else MonthStart(p.mp + 1)) - MonthStart(p.mp);
    assert DaysInMonth(t.y, t.m) == last;
  }

  lemma NextYear(yoe: int)
    requires 0 <= yoe < 399
    ensures YearStart(yoe + 1) == YearStart(yoe) + YearLength(yoe)
  {
    var c, q, r := yoe / 100, yoe % 100 / 4, yoe % 4;
    assert yoe == 100 * c + 4 * q + r;
    NextYearParts(c, q, r);
  }

  lemma NextYearParts(c: int, q: int, r: int)
    requires 0 <= c < 4 && 0 <= q < 25 && 0 <= r < 4 && 100 * c + 4 * q + r < 399
    ensures YearStart(100 * c + 4 * q + r + 1)
         == YearStart(100 * c + 4 * q + r) + YearLength(100 * c + 4 * q + r)
  {
    YearParts(c, q, r);
    if r < 3 {
      YearParts(c, q, r + 1);
    } else if q < 24 {
      YearParts(c, q + 1, 0);
    } else {
      YearParts(c + 1, 0, 0);
    }
  }

  predicate Before(a: Date, b: Date) {
    a.y < b.y || (a.y == b.y && (a.m < b.m || (a.m == b.m && a.d < b.d)))
  }

  /** Date order is number order. */
  lemma {:induction false} OrderIsNumberOrder(a: Date, b: Date)
    requires ValidDate(a) && ValidDate(b)
    ensures Before(a, b) <==> DaysFromCivil(a) < DaysFromCivil(b)
  {
    DateRoundTrip(a);
    DateRoundTrip(b);
    if DaysFromCivil(a) < DaysFromCivil(b) { LaterIsAfter(a, DaysFromCivil(b)); }
    if DaysFromCivil(b) < DaysFromCivil(a) { LaterIsAfter(b, DaysFromCivil(a)); }
  }

  lemma {:induction false} LaterIsAfter(a: Date, z: int)
    requires ValidDate(a) && DaysFromCivil(a) < z
    ensures Before(a, CivilFromDays(z))
    decreases z - DaysFromCivil(a)
  {
    var b := NextDate(a);
    NextDay(a);
    assert Before(a, b);
    if z == DaysFromCivil(b) {
      DateRoundTrip(b);
    } else {
      LaterIsAfter(b, z);
      BeforeTransitive(a, b, CivilFromDays(z));
    }
  }

  lemma BeforeTransitive(a: Date, b: Date, c: Date)
    requires Before(a, b) && Before(b, c)
    ensures Before(a, c)
  {
  }

  /** Day 0 was a Thursday, and the weekday advances by one modulo 7 on every integer. */
  lemma WeekdayAdvances(z: int)
    ensures 0 <= Weekday(z) < 7
    ensures Weekday(z + 1) == (Weekday(z) + 1) % 7
    ensures Weekday(0) == 4
  {
    WeekdayIsMod(z);
    WeekdayIsMod(z + 1);
  }

  lemma WeekdayIsMod(z: int)
    ensures Weekday(z) == (z + 4) % 7
  {
    if z + 4 < 0 {
      var q := (-(z + 4)) / 7;
      var w := TruncMod(z + 4, 7);
      DivUnique(z + 4, 7, if w < 0 then -q - 1 else -q, if w < 0 then w + 7 else w);
    }
  }
}
