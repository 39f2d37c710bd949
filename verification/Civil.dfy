// Model of the calendar in dedup/trapdetect.go: the day count to civil date conversion and the month
// count the calendar horizon is measured on. The reference is the proleptic Gregorian calendar, given
// by its month lengths, its leap rule and the day after a date.
module Civil {
  const DAYS_TO_EPOCH: nat := 719468
  const ERA_DAYS: nat := 146097

  datatype Date = Date(year: int, month: int, day: int)

  // ---- the calendar ----

  predicate IsLeap(year: int) {
    year % 4 == 0 && (year % 100 != 0 || year % 400 == 0)
  }

  function DaysInMonth(year: int, month: int): nat {
    if month == 2 then if IsLeap(year) then 29 else 28
    else if month == 4 || month == 6 || month == 9 || month == 11 then 30
    else 31
  }

  predicate ValidDate(d: Date) {
    1 <= d.month <= 12 && 1 <= d.day <= DaysInMonth(d.year, d.month)
  }

  function NextDay(d: Date): Date {
    if d.day < DaysInMonth(d.year, d.month) then Date(d.year, d.month, d.day + 1)
    else if d.month < 12 then Date(d.year, d.month + 1, 1)
    else Date(d.year + 1, 1, 1)
  }

  predicate Before(a: Date, b: Date) {
    a.year < b.year || (a.year == b.year && (a.month < b.month || (a.month == b.month && a.day < b.day)))
  }

  const EPOCH: Date := Date(1970, 1, 1)

  // ---- days from civil ----

  // Days from 1 January of year 0 to 1 January of the year.
  function DaysBeforeYear(year: int): int {
    365 * year + (year + 3) / 4 - (year + 99) / 100 + (year + 399) / 400
  }

  function DaysBeforeMonth(year: int, month: int): nat
    requires 1 <= month
    decreases month
  {
    if month == 1 then 0 else DaysBeforeMonth(year, month - 1) + DaysInMonth(year, month - 1)
  }

  // Days from the Unix epoch.
  function DaysFromCivil(d: Date): int
    requires 1 <= d.month
  {
    DaysBeforeYear(d.year) - DaysBeforeYear(1970) + DaysBeforeMonth(d.year, d.month) + d.day - 1
  }

  function YearLength(year: int): nat {
    if IsLeap(year) then 366 else 365
  }

  lemma YearSteps(year: int)
    ensures DaysBeforeYear(year + 1) == DaysBeforeYear(year) + YearLength(year)
  {
    Fours(year);
    Hundreds(year);
    FourHundreds(year);
  }

  lemma Fours(y: int)
    ensures (y + 4) / 4 == (y + 3) / 4 + if y % 4 == 0 then 1 else 0
  {
  }

  lemma Hundreds(y: int)
    ensures (y + 100) / 100 == (y + 99) / 100 + if y % 100 == 0 then 1 else 0
    ensures y % 100 == 0 ==> y % 4 == 0
  {
  }

  lemma FourHundreds(y: int)
    ensures (y + 400) / 400 == (y + 399) / 400 + if y % 400 == 0 then 1 else 0
    ensures y % 400 == 0 ==> y % 100 == 0
  {
  }

  lemma MonthTable(year: int)
    ensures DaysBeforeMonth(year, 1) == 0
    ensures DaysBeforeMonth(year, 2) == 31
    ensures var l: nat := if IsLeap(year) then 1 else 0;
      && DaysBeforeMonth(year, 3) == 59 + l && DaysBeforeMonth(year, 4) == 90 + l && DaysBeforeMonth(year, 5) == 120 + l
      && DaysBeforeMonth(year, 6) == 151 + l && DaysBeforeMonth(year, 7) == 181 + l && DaysBeforeMonth(year, 8) == 212 + l
      && DaysBeforeMonth(year, 9) == 243 + l && DaysBeforeMonth(year, 10) == 273 + l && DaysBeforeMonth(year, 11) == 304 + l
      && DaysBeforeMonth(year, 12) == 334 + l
  {
    hide IsLeap;
    assert DaysBeforeMonth(year, 2) == 31;
    assert DaysBeforeMonth(year, 3) == 31 + DaysInMonth(year, 2);
    assert DaysBeforeMonth(year, 4) == DaysBeforeMonth(year, 3) + 31;
    assert DaysBeforeMonth(year, 5) == DaysBeforeMonth(year, 4) + 30;
    assert DaysBeforeMonth(year, 6) == DaysBeforeMonth(year, 5) + 31;
    assert DaysBeforeMonth(year, 7) == DaysBeforeMonth(year, 6) + 30;
    assert DaysBeforeMonth(year, 8) == DaysBeforeMonth(year, 7) + 31;
    assert DaysBeforeMonth(year, 9) == DaysBeforeMonth(year, 8) + 31;
    assert DaysBeforeMonth(year, 10) == DaysBeforeMonth(year, 9) + 30;
    assert DaysBeforeMonth(year, 11) == DaysBeforeMonth(year, 10) + 31;
    assert DaysBeforeMonth(year, 12) == DaysBeforeMonth(year, 11) + 30;
  }

  // ---- the algorithm ----

  // Go's integer division truncates toward zero.
  function GoDiv(a: int, b: int): int
    requires b > 0
  {
    if a >= 0 then a / b else -((-a) / b)
  }

  // civilFromDays
  function CivilFromDays(days: int): Date {
    var z := days + DAYS_TO_EPOCH;
    var era := GoDiv(if z < 0 then z - 146096 else z, ERA_DAYS);
    var doe := z - era * ERA_DAYS;
    var yoe := GoDiv(doe - GoDiv(doe, 1460) + GoDiv(doe, 36524) - GoDiv(doe, 146096), 365);
    var y := yoe + era * 400;
    var doy := doe - (365 * yoe + GoDiv(yoe, 4) - GoDiv(yoe, 100));
    var mp := GoDiv(5 * doy + 2, 153);
    var day := doy - GoDiv(153 * mp + 2, 5) + 1;
    var month := if mp >= 10 then mp - 9 else mp + 3;
    Date(if month <= 2 then y + 1 else y, month, day)
  }

  // Days of a 400-year era, starting on 1 March, before the given year of the era.
  function EraDays(yoe: nat): int {
    365 * yoe + yoe / 4 - yoe / 100
  }

  lemma EraIsFloor(z: int)
    ensures GoDiv(if z < 0 then z - 146096 else z, ERA_DAYS) == z / ERA_DAYS
  {
  }

  function YearOfEra(doe: nat): nat {
    (doe - doe / 1460 + doe / 36524 - doe / 146096) / 365
  }

  // A day of the era lies in century c, four-year cycle q of it, and t days into the cycle.
  lemma EraSplit(doe: nat) returns (c: nat, q: nat, t: nat)
    requires doe < ERA_DAYS
    ensures c < 4 && q < 25 && t < 1461 && doe == 36524 * c + 1461 * q + t
    ensures c < 3 ==> 1461 * q + t < 36524
  {
    c := if doe == 146096 then 3 else doe / 36524;
    var r := doe - 36524 * c;
    q, t := r / 1461, r % 1461;
  }

  lemma SplitCorrection(c: nat, q: nat, t: nat)
    requires c < 4 && q < 25 && t < 1461
    ensures (36524 * c + 1461 * q + t) / 1460 == 25 * c + q + if 24 * c + q + t >= 1460 then 1 else 0
  {
    var e: nat := if 24 * c + q + t >= 1460 then 1 else 0;
    var low := 24 * c + q + t - 1460 * e;
    assert 36524 * c + 1461 * q + t == 1460 * (25 * c + q + e) + low;
  }

  lemma CenturyCorrection(doe: nat, c: nat, r: nat)
    requires c < 4 && doe == 36524 * c + r && doe < ERA_DAYS && r <= 36524 && (c < 3 ==> r < 36524)
    ensures doe / 36524 - doe / 146096 == c
  {
    if r == 36524 {
      assert doe == 146096;
    } else {
      assert doe / 36524 == c;
      assert doe < 146096;
    }
  }

  function YearOfCycle(t: nat): nat {
    if t >= 1095 then 3 else t / 365
  }

  lemma YearOfEraIs(doe: nat, c: nat, q: nat, t: nat)
    requires doe < ERA_DAYS && c < 4 && q < 25 && t < 1461 && doe == 36524 * c + 1461 * q + t
    requires c < 3 ==> 1461 * q + t < 36524
    ensures YearOfEra(doe) == 100 * c + 4 * q + YearOfCycle(t)
  {
    var e: nat := if 24 * c + q + t >= 1460 then 1 else 0;
    SplitCorrection(c, q, t);
    CenturyCorrection(doe, c, 1461 * q + t);
    Numerator(100 * c + 4 * q, t, e);
  }

  lemma Numerator(base: nat, t: nat, e: nat)
    requires t < 1461 && e <= 1 && (t == 1460 ==> e == 1) && (e == 1 ==> t >= 1364)
    ensures (365 * base + t - e) / 365 == base + YearOfCycle(t)
  {
    var s := YearOfCycle(t);
    assert 0 <= t - e - 365 * s < 365;
    assert 365 * base + t - e == 365 * (base + s) + (t - e - 365 * s);
  }

  lemma EraDaysAt(c: nat, q: nat, s: nat)
    requires c < 4 && q < 25 && s < 4
    ensures EraDays(100 * c + 4 * q + s) == 36524 * c + 1461 * q + 365 * s
  {
    assert (100 * c + (4 * q + s)) / 100 == c;
    assert (100 * c + 4 * q + s) / 4 == 25 * c + q;
  }

  // Day 366 of a March year is 29 February, so it needs a leap year.
  lemma LastDayIsLeap(era: int, c: nat, q: nat)
    requires c < 4 && q < 25 && (q == 24 ==> c == 3)
    ensures IsLeap(400 * era + 100 * c + 4 * q + 4)
  {
    var y := 400 * era + 100 * c + 4 * q + 4;
    assert y == 4 * (100 * era + 25 * c + q + 1);
    assert y % 4 == 0;
    if q == 24 {
      assert y == 400 * (era + 1);
      assert y % 400 == 0;
    } else {
      var h := 4 * era + c;
      assert y == 100 * h + (4 * q + 4);
      assert y % 100 == 4 * q + 4;
    }
  }

  // Days of a March year before its month mp, counting from March.
  function MarchDays(mp: nat): nat {
    (153 * mp + 2) / 5
  }

  lemma MonthOfMarchYear(doy: nat) returns (mp: nat)
    requires doy <= 365
    ensures mp == (5 * doy + 2) / 153 && mp < 12
    ensures MarchDays(mp) <= doy && (mp < 11 ==> doy < MarchDays(mp + 1))
  {
    mp := (5 * doy + 2) / 153;
  }

  lemma MarchMonths(year: int, mp: nat)
    requires mp < 11
    ensures MarchDays(mp + 1) - MarchDays(mp) == DaysInMonth(year, if mp >= 10 then mp - 9 else mp + 3)
  {
    hide IsLeap;
    assert mp == 0 || mp == 1 || mp == 2 || mp == 3 || mp == 4 || mp == 5 || mp == 6 || mp == 7 || mp == 8 || mp == 9 || mp == 10;
  }

  // The date of day `day` of month mp of the March year y.
  function MarchDate(y: int, mp: nat, day: int): Date
    requires mp < 12
  {
    Date(if mp >= 10 then y + 1 else y, if mp >= 10 then mp - 9 else mp + 3, day)
  }

  lemma MarchDateDays(y: int, mp: nat, day: int)
    requires mp < 12
    ensures DaysFromCivil(MarchDate(y, mp, day)) + DAYS_TO_EPOCH == DaysBeforeYear(y + 1) - 366 + MarchDays(mp) + day - 1
  {
    YearSteps(y);
    EpochOffset();
    hide DaysBeforeYear;
    MonthTable(y);
    MonthTable(y + 1);
    hide DaysBeforeMonth, IsLeap;
    assert mp == 0 || mp == 1 || mp == 2 || mp == 3 || mp == 4 || mp == 5 || mp == 6 || mp == 7 || mp == 8 || mp == 9 || mp == 10 || mp == 11;
  }

  lemma EpochOffset()
    ensures DaysBeforeYear(1970) == DAYS_TO_EPOCH + 60
  {
  }

  lemma EraYears(era: int, yoe: nat)
    requires yoe < 400
    ensures DaysBeforeYear(400 * era + yoe + 1) == ERA_DAYS * era + EraDays(yoe) + 366
  {
    assert (400 * era + yoe + 4) / 4 == 100 * era + yoe / 4 + 1;
    assert (400 * era + yoe + 100) / 100 == 4 * era + yoe / 100 + 1;
    assert (400 * era + yoe + 400) / 400 == era + 1;
  }

  // The date the algorithm computes, from its intermediate values.
  lemma Steps(days: int, era: int, doe: nat, yoe: nat, doy: nat, mp: nat)
    requires days + DAYS_TO_EPOCH == ERA_DAYS * era + doe && doe < ERA_DAYS
    requires yoe == YearOfEra(doe) && EraDays(yoe) <= doe && doy == doe - EraDays(yoe) && mp == (5 * doy + 2) / 153 && mp < 12
    ensures CivilFromDays(days) == MarchDate(400 * era + yoe, mp, doy - MarchDays(mp) + 1)
  {
    var z := days + DAYS_TO_EPOCH;
    EraIsFloor(z);
    assert z / ERA_DAYS == era;
    NonNegative(doe, yoe, doy, mp);
    hide GoDiv, YearOfEra, EraDays, MarchDays;
    assert z - era * ERA_DAYS == doe;
  }

  // On natural numbers Go's division is the floor.
  lemma NonNegative(doe: nat, yoe: nat, doy: nat, mp: nat)
    ensures GoDiv(doe, 1460) == doe / 1460 && GoDiv(doe, 36524) == doe / 36524 && GoDiv(doe, 146096) == doe / 146096
    ensures GoDiv(doe - doe / 1460 + doe / 36524 - doe / 146096, 365) == YearOfEra(doe)
    ensures 365 * yoe + GoDiv(yoe, 4) - GoDiv(yoe, 100) == EraDays(yoe)
    ensures GoDiv(5 * doy + 2, 153) == (5 * doy + 2) / 153 && GoDiv(153 * mp + 2, 5) == MarchDays(mp)
  {
  }

  // The result is a date of the calendar, and it is the date of that day number.
  lemma Inverts(days: int)
    ensures ValidDate(CivilFromDays(days)) && DaysFromCivil(CivilFromDays(days)) == days
  {
    var era, doe: nat := (days + DAYS_TO_EPOCH) / ERA_DAYS, (days + DAYS_TO_EPOCH) % ERA_DAYS;
    var c, q, t := EraSplit(doe);
    YearOfEraIs(doe, c, q, t);
    var yoe := YearOfEra(doe);
    EraDaysAt(c, q, YearOfCycle(t));
    var doy: nat := doe - EraDays(yoe);
    assert doy == t - 365 * YearOfCycle(t);
    var mp := MonthOfMarchYear(doy);
    hide YearOfEra, EraDays, MarchDays, CivilFromDays, DaysFromCivil, DaysBeforeYear;
    Steps(days, era, doe, yoe, doy, mp);
    var y := 400 * era + yoe;
    var day := doy - MarchDays(mp) + 1;
    EraYears(era, yoe);
    MarchDateDays(y, mp, day);
    assert doy == 365 ==> q == 24 ==> c == 3;
    if doy == 365 {
      LastDayIsLeap(era, c, q);
      assert IsLeap(y + 1);
    }
    MarchDateValid(y, mp, doy);
  }

  lemma MarchDateValid(y: int, mp: nat, doy: nat)
    requires mp < 12 && doy <= 365 && MarchDays(mp) <= doy && (mp < 11 ==> doy < MarchDays(mp + 1))
    requires doy == 365 ==> IsLeap(y + 1)
    ensures ValidDate(MarchDate(y, mp, doy - MarchDays(mp) + 1))
  {
    hide IsLeap;
    if mp < 11 {
      MarchMonths(MarchDate(y, mp, 1).year, mp);
    } else {
      assert MarchDays(11) == 337;
    }
  }

  // ---- the calendar's own laws ----

  lemma NextIsNext(d: Date)
    requires ValidDate(d)
    ensures ValidDate(NextDay(d)) && DaysFromCivil(NextDay(d)) == DaysFromCivil(d) + 1
  {
    hide IsLeap, DaysBeforeYear;
    if d.month == 12 && d.day == 31 {
      YearSteps(d.year);
      MonthTable(d.year);
      assert DaysBeforeMonth(d.year + 1, 1) == 0;
    } else if d.day == DaysInMonth(d.year, d.month) {
      assert DaysBeforeMonth(d.year, d.month + 1) == DaysBeforeMonth(d.year, d.month) + DaysInMonth(d.year, d.month);
    }
  }

  lemma {:induction false} YearsAscend(y: int, z: int)
    requires y < z
    ensures DaysBeforeYear(y + 1) <= DaysBeforeYear(z)
    decreases z - y
  {
    hide DaysBeforeYear;
    if y + 1 < z {
      YearsAscend(y + 1, z);
      YearSteps(y + 1);
    }
  }

  lemma {:induction false} MonthsAscend(year: int, m: int, n: int)
    requires 1 <= m < n <= 12
    ensures DaysBeforeMonth(year, m) + DaysInMonth(year, m) <= DaysBeforeMonth(year, n)
    decreases n
  {
    if m + 1 < n {
      MonthsAscend(year, m, n - 1);
    }
  }

  lemma WithinYear(d: Date)
    requires ValidDate(d)
    ensures 0 <= DaysBeforeMonth(d.year, d.month) + d.day - 1 < YearLength(d.year)
  {
    MonthTable(d.year);
    hide DaysBeforeMonth, IsLeap;
    if d.month < 12 {
      MonthsAscend(d.year, d.month, 12);
    }
  }

  // Day numbers order valid dates as the calendar does.
  lemma Ascends(a: Date, b: Date)
    requires ValidDate(a) && ValidDate(b) && Before(a, b)
    ensures DaysFromCivil(a) < DaysFromCivil(b)
  {
    hide DaysBeforeYear, DaysBeforeMonth, DaysInMonth, IsLeap;
    if a.year < b.year {
      WithinYear(a);
      WithinYear(b);
      YearSteps(a.year);
      YearsAscend(a.year, b.year);
    } else if a.month < b.month {
      MonthsAscend(a.year, a.month, b.month);
    }
  }

  // Converting a valid date to its day number and back gives the date: the two are inverse bijections.
  lemma BackToDate(d: Date)
    requires ValidDate(d)
    ensures CivilFromDays(DaysFromCivil(d)) == d
  {
    var n := DaysFromCivil(d);
    hide CivilFromDays, DaysFromCivil, DaysInMonth;
    var e := CivilFromDays(n);
    Inverts(n);
    if Before(d, e) {
      Ascends(d, e);
    } else if Before(e, d) {
      Ascends(e, d);
    }
  }

  // The conversion is the walk of the calendar from 1 January 1970, one day a step, in both directions.
  lemma ConsecutiveDays(days: int)
    ensures CivilFromDays(0) == EPOCH
    ensures CivilFromDays(days + 1) == NextDay(CivilFromDays(days))
  {
    EpochIsZero();
    BackToDate(EPOCH);
    hide CivilFromDays, DaysFromCivil, ValidDate, NextDay;
    var d := CivilFromDays(days);
    Inverts(days);
    NextIsNext(d);
    BackToDate(NextDay(d));
  }

  lemma EpochIsZero()
    ensures DaysFromCivil(EPOCH) == 0 && ValidDate(EPOCH)
  {
  }

  lemma DatesAscend(m: int, n: int)
    requires m < n
    ensures Before(CivilFromDays(m), CivilFromDays(n))
  {
    hide CivilFromDays, DaysFromCivil, ValidDate;
    Inverts(m);
    Inverts(n);
    var a, b := CivilFromDays(m), CivilFromDays(n);
    if !Before(a, b) && a != b {
      Ascends(b, a);
    }
  }

  // ---- months ----

  type Hour = h: nat | h < 0x1_0000_0000

  // nowMonths
  function NowMonths(epochHours: Hour): int {
    var d := CivilFromDays(GoDiv(epochHours * 3600, 86400));
    d.year * 12 + (d.month - 1)
  }

  lemma HourDay(h: Hour)
    ensures GoDiv(h * 3600, 86400) == h / 24
  {
  }

  // The month count has reached a month exactly when the clock has reached its first day.
  lemma MonthReached(epochHours: Hour, year: int, month: int)
    requires 1 <= month <= 12
    ensures NowMonths(epochHours) >= year * 12 + (month - 1) <==> epochHours >= 24 * DaysFromCivil(Date(year, month, 1))
  {
    var day := epochHours / 24;
    HourDay(epochHours);
    var first := Date(year, month, 1);
    FirstIsValid(year, month);
    hide CivilFromDays, DaysFromCivil, DaysInMonth, GoDiv;
    Inverts(day);
    var d := CivilFromDays(day);
    if Before(d, first) {
      Ascends(d, first);
    } else if d != first {
      Ascends(first, d);
    }
  }

  lemma FirstIsValid(year: int, month: int)
    requires 1 <= month <= 12
    ensures ValidDate(Date(year, month, 1))
  {
  }

  lemma NowMonthsAscend(h: Hour, i: Hour)
    requires h <= i
    ensures NowMonths(h) <= NowMonths(i)
  {
    var year, month := MonthOf(h);
    hide NowMonths, DaysFromCivil;
    MonthReached(h, year, month);
    MonthReached(i, year, month);
  }

  lemma MonthOf(h: Hour) returns (year: int, month: int)
    ensures 1 <= month <= 12 && NowMonths(h) == year * 12 + (month - 1)
  {
    hide CivilFromDays, DaysFromCivil;
    var days := GoDiv(h * 3600, 86400);
    Inverts(days);
    year, month := CivilFromDays(days).year, CivilFromDays(days).month;
  }
}
