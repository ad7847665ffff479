/** The day-number-to-date conversion of the audit command
    (`civil_date_from_unix_days`), against a proleptic Gregorian calendar that is
    defined independently of it: leap rule, month lengths and "the next day". */
module CivilDate {

  const I64_MIN: int := -0x8000_0000_0000_0000
  const I64_MAX: int := 0x7fff_ffff_ffff_ffff

  datatype Date = Date(year: int, month: int, day: int)

  // ---------------------------------------------------------------- the calendar

  predicate LeapYear(year: int) {
    year % 4 == 0 && (year % 100 != 0 || year % 400 == 0)
  }

  function DaysInMonth(year: int, month: int): int {
    if month == 2 then if LeapYear(year) then 29 else 28
    else if month == 4 || month == 6 || month == 9 || month == 11 then 30
    else 31
  }

  predicate ValidDate(date: Date) {
    1 <= date.month <= 12 && 1 <= date.day <= DaysInMonth(date.year, date.month)
  }

  /** The calendar day after `date`. */
  function NextDay(date: Date): Date {
    if date.day < DaysInMonth(date.year, date.month) then date.(day := date.day + 1)
    else if date.month < 12 then Date(date.year, date.month + 1, 1)
    else Date(date.year + 1, 1, 1)
  }

  // ------------------------------------------------------------- the conversion

  /** Rust's `/` on signed integers: the quotient is truncated towards zero. */
  function TruncatedDivision(a: int, b: int): int
    requires b > 0
  {
    if a >= 0 then a / b else -((-a) / b)
  }

  /** The 400-year era of a day counted from 0000-03-01. */
  function EraOf(shifted: int): int {
    TruncatedDivision(if shifted >= 0 then shifted else shifted - 146_096, 146_097)
  }

  function YearInEra(dayOfEra: int): int {
    TruncatedDivision(
      dayOfEra - TruncatedDivision(dayOfEra, 1_460) + TruncatedDivision(dayOfEra, 36_524)
      - TruncatedDivision(dayOfEra, 146_096), 365)
  }

  function DateInEra(era: int, dayOfEra: int): Date {
    var yearOfEra := YearInEra(dayOfEra);
    var year := yearOfEra + era * 400;
    var dayOfYear := dayOfEra - (365 * yearOfEra + TruncatedDivision(yearOfEra, 4) - TruncatedDivision(yearOfEra, 100));
    var monthPrime := TruncatedDivision(5 * dayOfYear + 2, 153);
    var day := dayOfYear - TruncatedDivision(153 * monthPrime + 2, 5) + 1;
    var month := monthPrime + (if monthPrime < 10 then 3 else -9);
    Date(year + (if month <= 2 then 1 else 0), month, day)
  }

  function CivilFromDays(days: int): Date {
    var shifted := days + 719_468;
    var era := EraOf(shifted);
    DateInEra(era, shifted - era * 146_097)
  }

  // ------------------------------------------------------------ counting days back

  /** Days from 0000-03-01 to the first of March of `year`. */
  function DaysBeforeMarch(year: int): int {
    365 * year + year / 4 - year / 100 + year / 400
  }

  /** Days from the first of March to the first of `month`, in a year that starts in March. */
  function DaysSinceMarch(month: int): int {
    if month == 3 then 0 else if month == 4 then 31 else if month == 5 then 61
    else if month == 6 then 92 else if month == 7 then 122 else if month == 8 then 153
    else if month == 9 then 184 else if month == 10 then 214 else if month == 11 then 245
    else if month == 12 then 275 else if month == 1 then 306 else 337
  }

  /** The Unix day number of a date. */
  function DaysFromCivil(date: Date): int {
    var marchYear := if date.month <= 2 then date.year - 1 else date.year;
    DaysBeforeMarch(marchYear) + DaysSinceMarch(date.month) + date.day - 1 - 719_468
  }

  /** A day of a 400-year era, split into century, four-year cycle, year and day of year. */
  predicate SplitDay(day: int, century: int, cycle: int, year: int, dayOfYear: int) {
    && 0 <= century < 4 && 0 <= cycle < 25 && 0 <= year < 4 && 0 <= dayOfYear <= 365
    && day == 36_524 * century + 1_461 * cycle + 365 * year + dayOfYear
    && (dayOfYear == 365 ==> year == 3 && (cycle < 24 || century == 3))
  }

  lemma SplitExists(day: int) returns (century: int, cycle: int, year: int, dayOfYear: int)
    requires 0 <= day < 146_097
    ensures SplitDay(day, century, cycle, year, dayOfYear)
  {
    century := if day / 36_524 == 4 then 3 else day / 36_524;
    var inCentury := day - 36_524 * century;
    cycle := inCentury / 1_461;
    var inCycle := inCentury - 1_461 * cycle;
    year := if inCycle / 365 == 4 then 3 else inCycle / 365;
    dayOfYear := inCycle - 365 * year;
  }

  lemma YearOfEra(day: int, century: int, cycle: int, year: int, dayOfYear: int)
    requires SplitDay(day, century, cycle, year, dayOfYear)
    ensures (day - day / 1_460 + day / 36_524 - day / 146_096) / 365 == 100 * century + 4 * cycle + year
  {
    var q := 25 * century + cycle;
    var rest := 365 * year + dayOfYear + q - century;
    assert day == 1_460 * q + rest;
    assert day / 1_460 == q + (if rest >= 1_460 then 1 else 0);
    var inCentury := 1_461 * cycle + 365 * year + dayOfYear;
    assert day / 36_524 == century + (if inCentury >= 36_524 then 1 else 0);
    assert day / 146_096 == (if day >= 146_096 then 1 else 0);
  }

  /** The date `dayOfYear` days after the first of March of `marchYear`. */
  function DateInMarchYear(marchYear: int, dayOfYear: int): Date {
    var monthPrime := (5 * dayOfYear + 2) / 153;
    var month := monthPrime + (if monthPrime < 10 then 3 else -9);
    Date(marchYear + (if month <= 2 then 1 else 0), month, dayOfYear - (153 * monthPrime + 2) / 5 + 1)
  }

  /** The truncating division of a shifted negative day number still rounds the era down. */
  lemma EraRoundsDown(shifted: int)
    ensures 0 <= shifted - EraOf(shifted) * 146_097 < 146_097
  {
  }

  lemma DateInEraSplits(era: int, dayOfEra: int, yearOfEra: int, dayOfYear: int)
    requires 0 <= dayOfEra < 146_097
    requires 0 <= yearOfEra == YearInEra(dayOfEra)
    requires dayOfYear == dayOfEra - (365 * yearOfEra + yearOfEra / 4 - yearOfEra / 100)
    requires 0 <= dayOfYear <= 365
    ensures DateInEra(era, dayOfEra) == DateInMarchYear(yearOfEra + era * 400, dayOfYear)
  {
    assert (5 * dayOfYear + 2) / 153 >= 0;
  }

  lemma YearInEraIs(dayOfEra: int)
    requires 0 <= dayOfEra < 146_097
    ensures YearInEra(dayOfEra)
            == (dayOfEra - dayOfEra / 1_460 + dayOfEra / 36_524 - dayOfEra / 146_096) / 365
  {
    assert dayOfEra - dayOfEra / 1_460 >= 0;
  }

  /** The conversion finds the era, century, four-year cycle, year and day of year. */
  lemma ConversionSplits(days: int) returns (era: int, century: int, cycle: int, year: int, dayOfYear: int)
    ensures SplitDay(days + 719_468 - era * 146_097, century, cycle, year, dayOfYear)
    ensures CivilFromDays(days) == DateInMarchYear(100 * century + 4 * cycle + year + era * 400, dayOfYear)
  {
    era := EraOf(days + 719_468);
    century, cycle, year, dayOfYear := DayOfEraSplits(era, days + 719_468 - era * 146_097, days + 719_468);
  }

  lemma DayOfEraSplits(era: int, dayOfEra: int, shifted: int)
    returns (century: int, cycle: int, year: int, dayOfYear: int)
    requires era == EraOf(shifted) && dayOfEra == shifted - era * 146_097
    ensures SplitDay(dayOfEra, century, cycle, year, dayOfYear)
    ensures DateInEra(era, dayOfEra) == DateInMarchYear(100 * century + 4 * cycle + year + era * 400, dayOfYear)
  {
    EraRoundsDown(shifted);
    century, cycle, year, dayOfYear := SplitExists(dayOfEra);
    SplitInEra(era, dayOfEra, century, cycle, year, dayOfYear);
  }

  lemma SplitInEra(era: int, dayOfEra: int, century: int, cycle: int, year: int, dayOfYear: int)
    requires SplitDay(dayOfEra, century, cycle, year, dayOfYear)
    ensures DateInEra(era, dayOfEra) == DateInMarchYear(100 * century + 4 * cycle + year + era * 400, dayOfYear)
  {
    YearOfEra(dayOfEra, century, cycle, year, dayOfYear);
    OffsetInEra(century, cycle, year);
    YearInEraIs(dayOfEra);
    DateInEraSplits(era, dayOfEra, YearInEra(dayOfEra), dayOfYear);
  }

  lemma OffsetInEra(century: int, cycle: int, year: int)
    requires 0 <= century < 4 && 0 <= cycle < 25 && 0 <= year < 4
    ensures var y := 100 * century + 4 * cycle + year;
            365 * y + y / 4 - y / 100 == 36_524 * century + 1_461 * cycle + 365 * year
  {
  }

  lemma InQuadrennium(q: int, r: int)
    requires 0 <= r < 4
    ensures (4 * q + r) / 4 == q && (4 * q + r) % 4 == r
  {
  }

  lemma InCentury(q: int, r: int)
    requires 0 <= r < 100
    ensures (100 * q + r) / 100 == q && (100 * q + r) % 100 == r
  {
  }

  lemma InEra(q: int, r: int)
    requires 0 <= r < 400
    ensures (400 * q + r) / 400 == q && (400 * q + r) % 400 == r
  {
  }

  lemma MarchYear(era: int, century: int, cycle: int, year: int)
    requires 0 <= century < 4 && 0 <= cycle < 25 && 0 <= year < 4
    ensures var y := 100 * century + 4 * cycle + year + era * 400;
            && DaysBeforeMarch(y) == 146_097 * era + 36_524 * century + 1_461 * cycle + 365 * year
            && (LeapYear(y + 1) <==> year == 3 && (cycle < 24 || century == 3))
  {
    InQuadrennium(100 * era + 25 * century + cycle, year);
    InCentury(4 * era + century, 4 * cycle + year);
    InEra(era, 100 * century + 4 * cycle + year);
    YearAfterMarch(era, century, cycle, year);
  }

  lemma YearAfterMarch(era: int, century: int, cycle: int, year: int)
    requires 0 <= century < 4 && 0 <= cycle < 25 && 0 <= year < 4
    ensures LeapYear(100 * century + 4 * cycle + year + era * 400 + 1) <==> year == 3 && (cycle < 24 || century == 3)
  {
    var quadrennia := 100 * era + 25 * century + cycle;
    if year < 3 {
      InQuadrennium(quadrennia, year + 1);
    } else {
      InQuadrennium(quadrennia + 1, 0);
      if cycle < 24 {
        InCentury(4 * era + century, 4 * cycle + 4);
      } else {
        InCentury(4 * era + century + 1, 0);
        if century < 3 {
          InEra(era, 100 * century + 100);
        } else {
          InEra(era + 1, 0);
        }
      }
    }
  }

  /** Every day of a March-based year is a calendar date that counts back to its offset. */
  lemma DateInMarchYearCounts(marchYear: int, dayOfYear: int)
    requires 0 <= dayOfYear < 365 || (dayOfYear == 365 && LeapYear(marchYear + 1))
    ensures ValidDate(DateInMarchYear(marchYear, dayOfYear))
    ensures DaysFromCivil(DateInMarchYear(marchYear, dayOfYear)) == DaysBeforeMarch(marchYear) + dayOfYear - 719_468
  {
    var date := DateInMarchYear(marchYear, dayOfYear);
    assert date.month <= 2 ==> date.year == marchYear + 1;
    assert DaysSinceMarch(date.month) + date.day - 1 == dayOfYear;
  }

  /** Day number and date: the conversion always yields a calendar date, and counting that
      date's days back gives the number again, for negative day numbers too. */
  lemma DaysRoundTrip(days: int)
    ensures ValidDate(CivilFromDays(days))
    ensures DaysFromCivil(CivilFromDays(days)) == days
  {
    var era, century, cycle, year, dayOfYear := ConversionSplits(days);
    SplitCounts(days, CivilFromDays(days), era, century, cycle, year, dayOfYear);
  }

  lemma SplitCounts(days: int, date: Date, era: int, century: int, cycle: int, year: int, dayOfYear: int)
    requires SplitDay(days + 719_468 - era * 146_097, century, cycle, year, dayOfYear)
    requires date == DateInMarchYear(100 * century + 4 * cycle + year + era * 400, dayOfYear)
    ensures ValidDate(date) && DaysFromCivil(date) == days
  {
    MarchYear(era, century, cycle, year);
    DateInMarchYearCounts(100 * century + 4 * cycle + year + era * 400, dayOfYear);
  }

  lemma YearLength(year: int)
    ensures DaysBeforeMarch(year) - DaysBeforeMarch(year - 1) == if LeapYear(year) then 366 else 365
  {
    var era := (year - 1) / 400;
    var century := (year - 1 - 400 * era) / 100;
    var cycle := (year - 1 - 400 * era - 100 * century) / 4;
    var rest := year - 1 - 400 * era - 100 * century - 4 * cycle;
    MarchYear(era, century, cycle, rest);
    if rest < 3 {
      MarchYear(era, century, cycle, rest + 1);
    } else if cycle < 24 {
      MarchYear(era, century, cycle + 1, 0);
    } else if century < 3 {
      MarchYear(era, century + 1, 0, 0);
    } else {
      MarchYear(era + 1, 0, 0, 0);
    }
  }

  lemma DaysBeforeMarchMonotone(a: int, b: int)
    requires a <= b
    ensures DaysBeforeMarch(a) <= DaysBeforeMarch(b)
    decreases b - a
  {
    if a < b {
      YearLength(b);
      DaysBeforeMarchMonotone(a, b - 1);
    }
  }

  /** A calendar date lies inside its March-based year. */
  lemma SplitDate(date: Date) returns (marchYear: int, dayOfYear: int)
    requires ValidDate(date)
    ensures marchYear == if date.month <= 2 then date.year - 1 else date.year
    ensures dayOfYear == DaysSinceMarch(date.month) + date.day - 1
    ensures DaysFromCivil(date) == DaysBeforeMarch(marchYear) + dayOfYear - 719_468
    ensures 0 <= dayOfYear < DaysBeforeMarch(marchYear + 1) - DaysBeforeMarch(marchYear)
  {
    marchYear := if date.month <= 2 then date.year - 1 else date.year;
    dayOfYear := DaysSinceMarch(date.month) + date.day - 1;
    YearLength(marchYear + 1);
    assert date.month == 2 ==> marchYear + 1 == date.year;
  }

  /** Two calendar dates with the same day number are the same date. */
  lemma DayNumberInjective(a: Date, b: Date)
    requires ValidDate(a) && ValidDate(b)
    requires DaysFromCivil(a) == DaysFromCivil(b)
    ensures a == b
  {
    var yearA, dayA := SplitDate(a);
    var yearB, dayB := SplitDate(b);
    if yearA < yearB {
      DaysBeforeMarchMonotone(yearA + 1, yearB);
    } else if yearB < yearA {
      DaysBeforeMarchMonotone(yearB + 1, yearA);
    }
    MonthDayInjective(a, b);
  }

  lemma MonthDayInjective(a: Date, b: Date)
    requires ValidDate(a) && ValidDate(b)
    requires (if a.month <= 2 then a.year - 1 else a.year) == (if b.month <= 2 then b.year - 1 else b.year)
    requires DaysSinceMarch(a.month) + a.day == DaysSinceMarch(b.month) + b.day
    ensures a == b
  {
    assert 1 <= a.day <= 31 && 1 <= b.day <= 31;
    assert a.month != 2 ==> a.day <= DaysSinceMarch(if a.month == 12 then 1 else a.month + 1) - DaysSinceMarch(a.month);
    assert b.month != 2 ==> b.day <= DaysSinceMarch(if b.month == 12 then 1 else b.month + 1) - DaysSinceMarch(b.month);
    assert a.month == b.month;
  }

  /** The other direction of the bijection: every calendar date is the date of its day number. */
  lemma DateRoundTrip(date: Date)
    requires ValidDate(date)
    ensures CivilFromDays(DaysFromCivil(date)) == date
  {
    DaysRoundTrip(DaysFromCivil(date));
    DayNumberInjective(CivilFromDays(DaysFromCivil(date)), date);
  }

  lemma NextDayNumber(date: Date)
    requires ValidDate(date)
    ensures ValidDate(NextDay(date)) && DaysFromCivil(NextDay(date)) == DaysFromCivil(date) + 1
  {
    var next := NextDay(date);
    if date.month == 2 && next.month == 3 {
      YearLength(date.year);
      assert date.day == if LeapYear(date.year) then 29 else 28;
    } else {
      assert DaysSinceMarch(next.month) + next.day == DaysSinceMarch(date.month) + date.day + 1;
    }
  }

  lemma NextDayIsNextNumber(date: Date, later: Date)
    requires ValidDate(date) && ValidDate(later)
    requires DaysFromCivil(later) == DaysFromCivil(date) + 1
    ensures later == NextDay(date)
  {
    NextDayNumber(date);
    DayNumberInjective(later, NextDay(date));
  }

  /** Consecutive day numbers are consecutive calendar days. */
  lemma Successor(days: int)
    ensures CivilFromDays(days + 1) == NextDay(CivilFromDays(days))
  {
    DaysRoundTrip(days);
    DaysRoundTrip(days + 1);
    NextDayIsNextNumber(CivilFromDays(days), CivilFromDays(days + 1));
  }

  /** Day 0 is the first of January 1970. */
  lemma Epoch()
    ensures CivilFromDays(0) == Date(1970, 1, 1)
  {
    assert DaysFromCivil(Date(1970, 1, 1)) == 0;
    DateRoundTrip(Date(1970, 1, 1));
  }

  predicate InI64(n: int) { I64_MIN <= n <= I64_MAX }

  /** The intermediate results of the conversion that grow with the day number. */
  function LargeSteps(days: int): seq<int> {
    var shifted := days + 719_468;
    var era := EraOf(shifted);
    var yearOfEra := YearInEra(shifted - era * 146_097);
    [shifted, if shifted >= 0 then shifted else shifted - 146_096, era, era * 146_097, era * 400,
     yearOfEra + era * 400, CivilFromDays(days).year]
  }

  /** Those that only depend on the day of the era: towards the year of the era. */
  function YearSteps(dayOfEra: int): seq<int> {
    var a := TruncatedDivision(dayOfEra, 1_460);
    var b := TruncatedDivision(dayOfEra, 36_524);
    var c := TruncatedDivision(dayOfEra, 146_096);
    [dayOfEra, a, dayOfEra - a, b, dayOfEra - a + b, c, dayOfEra - a + b - c, YearInEra(dayOfEra)]
  }

  /** And from there to the month and the day. */
  function DaySteps(dayOfEra: int, yearOfEra: int): seq<int> {
    var d, e := TruncatedDivision(yearOfEra, 4), TruncatedDivision(yearOfEra, 100);
    var dayOfYear := dayOfEra - (365 * yearOfEra + d - e);
    var monthPrime := TruncatedDivision(5 * dayOfYear + 2, 153);
    var f := TruncatedDivision(153 * monthPrime + 2, 5);
    [365 * yearOfEra, d, 365 * yearOfEra + d, e, 365 * yearOfEra + d - e, dayOfYear,
     5 * dayOfYear, 5 * dayOfYear + 2, monthPrime, 153 * monthPrime, 153 * monthPrime + 2, f, dayOfYear - f,
     dayOfYear - f + 1, monthPrime + (if monthPrime < 10 then 3 else -9)]
  }

  /** These are the steps of the conversion: they end in its date. */
  lemma StepsEndInDate(days: int)
    ensures var dayOfEra := days + 719_468 - EraOf(days + 719_468) * 146_097;
            var steps := DaySteps(dayOfEra, YearInEra(dayOfEra));
            CivilFromDays(days) == Date(LargeSteps(days)[6], steps[14], steps[13])
            && YearSteps(dayOfEra)[7] == YearInEra(dayOfEra)
  {
  }

  predicate AllInI64(steps: seq<int>) {
    forall k :: 0 <= k < |steps| ==> InI64(steps[k])
  }

  /** No intermediate result of the conversion leaves 64-bit arithmetic. */
  predicate StaysInRange(days: int) {
    var shifted := days + 719_468;
    var dayOfEra := shifted - EraOf(shifted) * 146_097;
    AllInI64(LargeSteps(days)) && AllInI64(YearSteps(dayOfEra)) && AllInI64(DaySteps(dayOfEra, YearInEra(dayOfEra)))
  }

  lemma YearStepsAreSmall(dayOfEra: int)
    requires 0 <= dayOfEra < 146_097
    ensures AllInI64(YearSteps(dayOfEra)) && 0 <= YearInEra(dayOfEra) <= 400
  {
    var a, b, c := dayOfEra / 1_460, dayOfEra / 36_524, dayOfEra / 146_096;
    assert 0 <= a <= 100 && 0 <= b <= 4 && 0 <= c <= 1;
    assert dayOfEra - a + b - c >= 0;
  }

  lemma DayStepsAreSmall(dayOfEra: int, yearOfEra: int)
    requires 0 <= dayOfEra < 146_097 && 0 <= yearOfEra <= 400
    ensures AllInI64(DaySteps(dayOfEra, yearOfEra))
  {
    var dayOfYear := dayOfEra - (365 * yearOfEra + yearOfEra / 4 - yearOfEra / 100);
    assert -200_000 < dayOfYear < 200_000;
    var monthPrime := TruncatedDivision(5 * dayOfYear + 2, 153);
    MonthIsSmall(5 * dayOfYear + 2);
    MonthOffsetIsSmall(153 * monthPrime + 2);
  }

  lemma MonthIsSmall(a: int)
    requires -2_000_000 < a < 2_000_000
    ensures -2_000_000 < TruncatedDivision(a, 153) < 2_000_000
  {
  }

  lemma MonthOffsetIsSmall(a: int)
    requires -1_000_000_000 < a < 1_000_000_000
    ensures -1_000_000_000 < TruncatedDivision(a, 5) < 1_000_000_000
  {
  }

  /** In 64-bit arithmetic the conversion overflows for the last 719,468 day numbers, and for no others. */
  lemma OverflowCondition(days: int)
    requires InI64(days)
    ensures StaysInRange(days) <==> days <= I64_MAX - 719_468
  {
    var shifted := days + 719_468;
    var dayOfEra := shifted - EraOf(shifted) * 146_097;
    EraRoundsDown(shifted);
    YearStepsAreSmall(dayOfEra);
    DayStepsAreSmall(dayOfEra, YearInEra(dayOfEra));
    YearNearEra(days);
    LargeStepsFit(days);
  }

  lemma LargeStepsFit(days: int)
    requires InI64(days)
    requires var shifted := days + 719_468;
             && 0 <= shifted - EraOf(shifted) * 146_097 < 146_097
             && 0 <= YearInEra(shifted - EraOf(shifted) * 146_097) <= 400
             && 400 * EraOf(shifted) <= CivilFromDays(days).year <= 400 * EraOf(shifted) + 400
    ensures AllInI64(LargeSteps(days)) <==> days <= I64_MAX - 719_468
  {
    assert LargeSteps(days)[0] == days + 719_468;
  }

  /** The clock never gets there: whatever number of seconds it shows, the day number is in range. */
  lemma ClockStaysInRange(seconds: int)
    requires 0 <= seconds < 0x1_0000_0000_0000_0000
    ensures InI64(seconds / 86_400) && StaysInRange(seconds / 86_400)
  {
    OverflowCondition(seconds / 86_400);
  }

  lemma YearNearEra(days: int)
    ensures 400 * EraOf(days + 719_468) <= CivilFromDays(days).year <= 400 * EraOf(days + 719_468) + 400
  {
    var era, century, cycle, year, dayOfYear := ConversionSplits(days);
    EraRoundsDown(days + 719_468);
  }
}
