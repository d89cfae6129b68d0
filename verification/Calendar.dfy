/** The three copies of the civil-from-days algorithm and the Gregorian calendar they compute. */
module Calendar {
  import opened Wrappers

  datatype Date = Date(year: int, month: int, day: int)

  // ----- the calendar itself ------------------------------------------------

  predicate IsLeap(y: int) {
    y % 4 == 0 && (y % 100 != 0 || y % 400 == 0)
  }

  function DaysIn(y: int, m: int): int {
    if m == 2 then (if IsLeap(y) then 29 else 28)
    else if m == 4 || m == 6 || m == 9 || m == 11 then 30
    else 31
  }

  predicate IsDate(t: Date) {
    1 <= t.month <= 12 && 1 <= t.day <= DaysIn(t.year, t.month)
  }

  /** The day after. */
  function Next(t: Date): Date {
    if t.day < DaysIn(t.year, t.month) then Date(t.year, t.month, t.day + 1)
    else if t.month < 12 then Date(t.year, t.month + 1, 1)
    else Date(t.year + 1, 1, 1)
  }

  const EPOCH: Date := Date(1970, 1, 1)

  /** The date `n` days after the first of January 1970, counted day by day. */
  function DaysLater(n: nat): Date {
    if n == 0 then EPOCH else Next(DaysLater(n - 1))
  }

  predicate Before(t: Date, u: Date) {
    t.year < u.year || (t.year == u.year && (t.month < u.month || (t.month == u.month && t.day < u.day)))
  }

  // ----- the three copies ---------------------------------------------------

  function YearOfEra(doe: int): int {
    (doe - doe / 1460 + doe / 36_524 - doe / 146_096) / 365
  }

  /** From the day of an era: year of the era, month and day. */
  function FromDayOfEra(era: int, doe: int): Date {
    var yoe := YearOfEra(doe);
    var doy := doe - (365 * yoe + yoe / 4 - yoe / 100);
    var mp := (5 * doy + 2) / 153;
    var d := doy - (153 * mp + 2) / 5 + 1;
    var m := if mp < 10 then mp + 3 else mp - 9;
    Date(yoe + era * 400 + if m <= 2 then 1 else 0, m, d)
  }

  /** The request middleware's copy: the Euclidean quotient, and a 64-bit year. */
  function CivilFromDays(days: int): Date {
    var z := days + 719_468;
    var era := z / 146_097;
    FromDayOfEra(era, z - era * 146_097)
  }

  /** Division that truncates toward zero. */
  function Truncated(a: int, b: int): int
    requires b > 0
  {
    if a >= 0 then a / b else -((-a) / b)
  }

  /** `as i32`. */
  function AsI32(y: int): int {
    (y + 0x8000_0000) % 0x1_0000_0000 - 0x8000_0000
  }

  /** The digest's and the capture's copy: a truncating quotient, and the year cut to 32 bits. */
  function DaysToYmd(days: int): Date {
    var z := days + 719_468;
    var era := Truncated(if z >= 0 then z else z - 146_096, 146_097);
    var t := FromDayOfEra(era, z - era * 146_097);
    t.(year := AsI32(t.year))
  }

  lemma SameEra(z: int)
    ensures Truncated(if z >= 0 then z else z - 146_096, 146_097) == z / 146_097
  {
    if z < 0 {
      var q := (146_096 - z) / 146_097;
      assert 146_097 * q <= 146_096 - z < 146_097 * q + 146_097;
      assert 146_097 * (-q) <= z < 146_097 * (-q) + 146_097;
    }
  }

  /** The copies compute one date, up to the width of the year. */
  lemma CopiesDiffer(days: int)
    ensures DaysToYmd(days) == CivilFromDays(days).(year := AsI32(CivilFromDays(days).year))
  {
    SameEra(days + 719_468);
  }

  lemma FitsI32(y: int)
    ensures AsI32(y) == y <==> -0x8000_0000 <= y < 0x8000_0000
  {
  }

  // ----- digits of a day ----------------------------------------------------

  /** A day as era, century, four-year cycle, year of the cycle, and day of a year that starts in March. */
  datatype Digits = Digits(era: int, century: int, cycle: int, year: int, day: int)

  /** Whether the March year ends with a leap day. */
  predicate EndsLeap(g: Digits) {
    g.year == 3 && (g.cycle != 24 || g.century == 3)
  }

  predicate AreDigits(g: Digits) {
    && 0 <= g.century < 4 && 0 <= g.cycle < 25 && 0 <= g.year < 4
    && 0 <= g.day < (if EndsLeap(g) then 366 else 365)
  }

  function DayOfEra(g: Digits): int {
    36_524 * g.century + 1461 * g.cycle + 365 * g.year + g.day
  }

  function DayNumber(g: Digits): int {
    146_097 * g.era + DayOfEra(g) - 719_468
  }

  function MarchYear(g: Digits): int {
    400 * g.era + 100 * g.century + 4 * g.cycle + g.year
  }

  /** Every day number has digits. */
  lemma HasDigits(days: int) returns (g: Digits)
    ensures AreDigits(g) && DayNumber(g) == days
  {
    var z := days + 719_468;
    var era, doe := z / 146_097, z % 146_097;
    var century := Min(doe / 36_524, 3);
    var doc := doe - 36_524 * century;
    var cycle := Min(doc / 1461, 24);
    var rest := doc - 1461 * cycle;
    var year := Min(rest / 365, 3);
    g := Digits(era, century, cycle, year, rest - 365 * year);
  }

  lemma DayOfEraBounds(g: Digits)
    requires AreDigits(g)
    ensures 0 <= DayOfEra(g) < 146_097
  {
  }

  /** The quotient that corrects the four-year cycles. */
  lemma Corrections(g: Digits)
    requires AreDigits(g)
    ensures DayOfEra(g) / 36_524 - DayOfEra(g) / 146_096 == g.century
    ensures var e := if 24 * g.century + g.cycle + 365 * g.year + g.day >= 1460 then 1 else 0;
      DayOfEra(g) / 1460 == 25 * g.century + g.cycle + e
  {
    DayOfEraBounds(g);
    var low := 24 * g.century + g.cycle + 365 * g.year + g.day;
    assert DayOfEra(g) == 1460 * (25 * g.century + g.cycle) + low;
    assert low < 2920;
  }

  lemma YearAndDay(g: Digits)
    requires AreDigits(g)
    ensures var yoe := YearOfEra(DayOfEra(g));
      && yoe == 100 * g.century + 4 * g.cycle + g.year
      && DayOfEra(g) - (365 * yoe + yoe / 4 - yoe / 100) == g.day
  {
    Corrections(g);
    var e := if 24 * g.century + g.cycle + 365 * g.year + g.day >= 1460 then 1 else 0;
    var yoe := 100 * g.century + 4 * g.cycle + g.year;
    assert 0 <= g.day - e < 365;
    assert DayOfEra(g) - DayOfEra(g) / 1460 + DayOfEra(g) / 36_524 - DayOfEra(g) / 146_096 == 365 * yoe + (g.day - e);
    assert yoe / 4 == 25 * g.century + g.cycle;
    assert yoe / 100 == g.century;
  }

  // ----- months of a March year ---------------------------------------------

  /** The date of a day of the March year `y`, month by month. */
  function MarchDate(y: int, doy: int): Date {
    if doy < 31 then Date(y, 3, doy + 1)
    else if doy < 61 then Date(y, 4, doy - 30)
    else if doy < 92 then Date(y, 5, doy - 60)
    else if doy < 122 then Date(y, 6, doy - 91)
    else if doy < 153 then Date(y, 7, doy - 121)
    else if doy < 184 then Date(y, 8, doy - 152)
    else if doy < 214 then Date(y, 9, doy - 183)
    else if doy < 245 then Date(y, 10, doy - 213)
    else if doy < 275 then Date(y, 11, doy - 244)
    else if doy < 306 then Date(y, 12, doy - 274)
    else if doy < 337 then Date(y + 1, 1, doy - 305)
    else Date(y + 1, 2, doy - 336)
  }

  function DateOf(g: Digits): Date {
    MarchDate(MarchYear(g), g.day)
  }

  /** The two quotients that find the month agree with the table. */
  lemma MonthTable(y: int, doy: int)
    requires 0 <= doy < 366
    ensures var mp := (5 * doy + 2) / 153;
      var m := if mp < 10 then mp + 3 else mp - 9;
      Date(y + if m <= 2 then 1 else 0, m, doy - (153 * mp + 2) / 5 + 1) == MarchDate(y, doy)
  {
  }

  lemma EraDayIsDate(g: Digits)
    requires AreDigits(g)
    ensures FromDayOfEra(g.era, DayOfEra(g)) == DateOf(g)
  {
    YearAndDay(g);
    MonthTable(MarchYear(g), g.day);
  }

  /** The algorithm computes the date of the day's digits. */
  lemma CivilIsDateOf(g: Digits)
    requires AreDigits(g)
    ensures CivilFromDays(DayNumber(g)) == DateOf(g)
  {
    DayOfEraBounds(g);
    EraOf(g.era, DayOfEra(g));
    EraDayIsDate(g);
  }

  lemma EraOf(era: int, doe: int)
    requires 0 <= doe < 146_097
    ensures CivilFromDays(146_097 * era + doe - 719_468) == FromDayOfEra(era, doe)
  {
    assert (146_097 * era + doe) / 146_097 == era;
  }

  lemma LeapYears(g: Digits)
    requires AreDigits(g)
    ensures EndsLeap(g) <==> IsLeap(MarchYear(g) + 1)
  {
    var y := MarchYear(g) + 1;
    assert y == 4 * (100 * g.era + 25 * g.century + g.cycle) + g.year + 1;
    assert y % 4 == 0 <==> g.year == 3;
    assert y == 100 * (4 * g.era + g.century) + 4 * g.cycle + g.year + 1;
    assert y % 100 == 0 <==> g.cycle == 24 && g.year == 3;
    if y % 100 == 0 {
      assert y == 400 * g.era + 100 * (g.century + 1);
      assert y % 400 == 0 <==> g.century == 3;
    }
  }

  lemma DateOfIsDate(g: Digits)
    requires AreDigits(g)
    ensures IsDate(DateOf(g))
  {
    LeapYears(g);
  }

  /** The next day has digits too, and they give the next date. */
  lemma NextDigits(g: Digits) returns (h: Digits)
    requires AreDigits(g)
    ensures AreDigits(h) && DayNumber(h) == DayNumber(g) + 1 && DateOf(h) == Next(DateOf(g))
  {
    LeapYears(g);
    if g.day + 1 < (if EndsLeap(g) then 366 else 365) {
      h := g.(day := g.day + 1);
    } else if g.year < 3 {
      h := g.(year := g.year + 1, day := 0);
    } else if g.cycle < 24 {
      h := g.(cycle := g.cycle + 1, year := 0, day := 0);
    } else if g.century < 3 {
      h := g.(century := g.century + 1, cycle := 0, year := 0, day := 0);
    } else {
      h := Digits(g.era + 1, 0, 0, 0, 0);
    }
  }

  // ----- what the algorithm promises ----------------------------------------

  lemma CivilIsDate(days: int)
    ensures IsDate(CivilFromDays(days))
  {
    var g := HasDigits(days);
    CivilIsDateOf(g);
    DateOfIsDate(g);
  }

  /** The next day number gives the next date. */
  lemma CivilSteps(days: int)
    ensures CivilFromDays(days + 1) == Next(CivilFromDays(days))
  {
    var g := HasDigits(days);
    var h := NextDigits(g);
    CivilIsDateOf(g);
    CivilIsDateOf(h);
  }

  lemma CivilEpoch()
    ensures CivilFromDays(0) == EPOCH
  {
    CivilIsDateOf(Digits(4, 3, 17, 1, 306));
  }

  lemma {:induction false} StepsCount(f: int -> Date, n: nat)
    requires f(0) == EPOCH && forall k, l :: l == k + 1 ==> f(l) == Next(f(k))
    ensures f(n) == DaysLater(n)
  {
    if n > 0 {
      StepsCount(f, n - 1);
    }
  }

  /** The closed form counts days from the epoch. */
  lemma CivilCounts(n: nat)
    ensures CivilFromDays(n) == DaysLater(n)
  {
    CivilEpoch();
    forall k, l | l == k + 1 ensures CivilFromDays(l) == Next(CivilFromDays(k)) {
      CivilSteps(k);
    }
    StepsCount(CivilFromDays, n);
  }

  lemma {:induction false} StepsAscend(f: int -> Date, m: int, n: int)
    requires m < n && forall k, l :: l == k + 1 ==> Before(f(k), f(l))
    ensures Before(f(m), f(n))
    decreases n - m
  {
    if m < n - 1 {
      StepsAscend(f, m, n - 1);
      var k := n - 1;
      assert Before(f(k), f(n));
    }
  }

  lemma NextIsAfter(t: Date)
    requires IsDate(t)
    ensures Before(t, Next(t))
  {
  }

  lemma LaterIsAfter(m: int, n: int)
    requires m < n
    ensures Before(CivilFromDays(m), CivilFromDays(n))
  {
    forall k, l | l == k + 1 ensures Before(CivilFromDays(k), CivilFromDays(l)) {
      CivilSteps(k);
      CivilIsDate(k);
      NextIsAfter(CivilFromDays(k));
    }
    StepsAscend(CivilFromDays, m, n);
  }

  /** Dates are in the order of their day numbers, so no two days share one. */
  lemma DatesInOrder(m: int, n: int)
    ensures m < n <==> Before(CivilFromDays(m), CivilFromDays(n))
    ensures m == n <==> CivilFromDays(m) == CivilFromDays(n)
  {
    if m < n {
      LaterIsAfter(m, n);
    } else if n < m {
      LaterIsAfter(n, m);
    }
  }

  /** The days before the first of January of a year are those of earlier years. */
  lemma YearsBefore(days: int, first: int, year: int)
    requires CivilFromDays(first) == Date(year, 1, 1)
    ensures days < first <==> CivilFromDays(days).year < year
  {
    DatesInOrder(days, first);
    CivilIsDate(days);
  }

  /** The first day whose year fits 32 bits, and the first day after them. */
  const FIRST_I32_DAY: int := -784_353_015_833
  const AFTER_I32_DAYS: int := 784_351_576_777

  lemma I32Years()
    ensures CivilFromDays(FIRST_I32_DAY) == Date(-0x8000_0000, 1, 1)
    ensures CivilFromDays(AFTER_I32_DAYS) == Date(0x8000_0000, 1, 1)
  {
    CivilIsDateOf(Digits(-5368710, 3, 12, 3, 306));
    CivilIsDateOf(Digits(5368709, 0, 11, 3, 306));
  }

  /** The copies agree exactly from the first day of the year -2^31 to the last of the year 2^31 - 1. */
  lemma CopiesAgree(days: int)
    ensures DaysToYmd(days) == CivilFromDays(days) <==> FIRST_I32_DAY <= days < AFTER_I32_DAYS
    ensures DaysToYmd(days).month == CivilFromDays(days).month && DaysToYmd(days).day == CivilFromDays(days).day
  {
    CopiesDiffer(days);
    FitsI32(CivilFromDays(days).year);
    I32Years();
    YearsBefore(days, FIRST_I32_DAY, -0x8000_0000);
    YearsBefore(days, AFTER_I32_DAYS, 0x8000_0000);
  }

  /** On the first day out of range the copies print the year -2^31. */
  lemma CopiesPart()
    ensures CivilFromDays(AFTER_I32_DAYS) == Date(0x8000_0000, 1, 1)
    ensures DaysToYmd(AFTER_I32_DAYS) == Date(-0x8000_0000, 1, 1)
  {
    I32Years();
    CopiesDiffer(AFTER_I32_DAYS);
  }

  // ----- back from dates to days --------------------------------------------

  /** Days of the March year before the month starts. */
  function BeforeMonth(month: int): int {
    if month == 3 then 0
    else if month == 4 then 31
    else if month == 5 then 61
    else if month == 6 then 92
    else if month == 7 then 122
    else if month == 8 then 153
    else if month == 9 then 184
    else if month == 10 then 214
    else if month == 11 then 245
    else if month == 12 then 275
    else if month == 1 then 306
    else 337
  }

  /** Days from the epoch to a date: so many years of 365 days, their leap days, and the days of the last year. */
  function DaysFromCivil(t: Date): int {
    var y := if t.month <= 2 then t.year - 1 else t.year;
    365 * y + y / 4 - y / 100 + y / 400 + BeforeMonth(t.month) + t.day - 1 - 719_468
  }

  lemma MarchFloors(g: Digits)
    requires AreDigits(g)
    ensures var y := MarchYear(g);
      y / 4 == 100 * g.era + 25 * g.century + g.cycle && y / 100 == 4 * g.era + g.century && y / 400 == g.era
  {
    assert MarchYear(g) == 4 * (100 * g.era + 25 * g.century + g.cycle) + g.year;
    assert MarchYear(g) == 100 * (4 * g.era + g.century) + 4 * g.cycle + g.year;
  }

  lemma MarchDateBack(y: int, doy: int)
    requires 0 <= doy < 366
    ensures DaysFromCivil(MarchDate(y, doy)) == 365 * y + y / 4 - y / 100 + y / 400 + doy - 719_468
  {
  }

  lemma DateOfBack(g: Digits)
    requires AreDigits(g)
    ensures DaysFromCivil(DateOf(g)) == DayNumber(g)
  {
    MarchFloors(g);
    MarchDateBack(MarchYear(g), g.day);
  }

  /** Reading a date back gives the day number. */
  lemma CivilRoundTrip(days: int)
    ensures DaysFromCivil(CivilFromDays(days)) == days
  {
    var g := HasDigits(days);
    CivilIsDateOf(g);
    DateOfBack(g);
  }
}
