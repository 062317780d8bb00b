/** Proleptic Gregorian calendar arithmetic on day numbers counted from
    1970-01-01: the conversion Go's time package performs when a UTC
    instant is asked for its Year(), Month() and Day().
    Years are counted from 1 March, so that the leap day ends the year;
    days are split into 400-year eras, centuries, 4-year cycles and years. */
module Calendar {

  /** A civil date: year, month 1..12, day of month. */
  datatype Date = Date(year: int, month: int, day: int)

  /** Days from 0000-03-01 to 1970-01-01. */
  const EpochShift := 719468
  const DaysPerEra := 146097
  const DaysPerCentury := 36524
  const DaysPerCycle := 1461

  /** Gregorian leap years: every fourth year, except centuries not
      divisible by 400. */
  predicate IsLeap(y: int) {
    y % 4 == 0 && (y % 100 != 0 || y % 400 == 0)
  }

  /** The number of days of a month of a year. */
  function DaysIn(y: int, m: int): int {
    if m == 2 then (if IsLeap(y) then 29 else 28)
    else if m == 4 || m == 6 || m == 9 || m == 11 then 30
    else 31
  }

  /** A date of the proleptic Gregorian calendar. */
  predicate ValidDate(d: Date) {
    1 <= d.month <= 12 && 1 <= d.day <= DaysIn(d.year, d.month)
  }

  /** Days of the March-based year `yoe` of an era: it holds the February
      of the calendar year `yoe + 1`. */
  function YearLength(yoe: int): int {
    if IsLeap(yoe + 1) then 366 else 365
  }

  /** Day of the March-based year (0..365) on which month index `mp`
      (0 = March, ..., 11 = February) begins. */
  function MonthStart(mp: int): int {
    (153 * mp + 2) / 5
  }

  /** Days from the start of an era to 1 March of its year `yoe`. */
  function EraYearStart(yoe: int): int {
    365 * yoe + yoe / 4 - yoe / 100
  }

  /** A day of an era split into year of era and day of that year. */
  datatype EraDay = EraDay(yoe: int, doy: int)

  function SplitEraDay(doe: int): (r: EraDay)
    requires 0 <= doe < DaysPerEra
    ensures 0 <= r.yoe <= 399 && 0 <= r.doy < YearLength(r.yoe)
    ensures doe == EraYearStart(r.yoe) + r.doy
  {
    var centuries := if doe / DaysPerCentury < 3 then doe / DaysPerCentury else 3;
    var d2 := doe - DaysPerCentury * centuries;
    var cycles := d2 / DaysPerCycle;
    var d3 := d2 % DaysPerCycle;
    var years := if d3 / 365 < 3 then d3 / 365 else 3;
    var yoe := 100 * centuries + 4 * cycles + years;
    assert yoe / 4 == 25 * centuries + cycles;
    assert yoe / 100 == centuries;
    EraDay(yoe, d3 - 365 * years)
  }

  /** Leap years repeat every 400 years. */
  lemma LeapPeriodic(era: int, y: int)
    ensures IsLeap(era * 400 + y) == IsLeap(y)
  {
    ShiftMod4(y, era * 100);
    ShiftMod100(y, era * 4);
    ShiftMod400(y, era);
  }

  /** Adding a multiple of the modulus keeps the remainder. */
  lemma ShiftMod4(y: int, q: int)
    ensures (y + 4 * q) % 4 == y % 4
  {
    assert y + 4 * q == 4 * (y / 4 + q) + y % 4;
  }

  lemma ShiftMod100(y: int, q: int)
    ensures (y + 100 * q) % 100 == y % 100
  {
    assert y + 100 * q == 100 * (y / 100 + q) + y % 100;
  }

  lemma ShiftMod400(y: int, q: int)
    ensures (y + 400 * q) % 400 == y % 400
  {
    assert y + 400 * q == 400 * (y / 400 + q) + y % 400;
  }

  /** The month index of a day of a March-based year is the month holding
      it: the day falls before the start of the next month, and in
      February (index 11) before its 28th or, in a leap year, 29th day. */
  lemma MonthOfDay(doy: int, leap: bool)
    requires 0 <= doy < (if leap then 366 else 365)
    ensures var mp := (5 * doy + 2) / 153;
      0 <= mp <= 11 && MonthStart(mp) <= doy &&
      (mp < 11 ==> doy < MonthStart(mp + 1)) &&
      (mp == 11 ==> doy - MonthStart(mp) < (if leap then 29 else 28))
  {
  }

  /** The date of a day of a year of an era. */
  function DateOfEraDay(era: int, ed: EraDay): (d: Date)
    requires 0 <= ed.yoe <= 399 && 0 <= ed.doy < YearLength(ed.yoe)
    ensures ValidDate(d)
  {
    MonthOfDay(ed.doy, IsLeap(ed.yoe + 1));
    LeapPeriodic(era, ed.yoe + 1);
    var mp := (5 * ed.doy + 2) / 153;
    var month := if mp < 10 then mp + 3 else mp - 9;
    Date(era * 400 + ed.yoe + (if month <= 2 then 1 else 0), month, ed.doy - MonthStart(mp) + 1)
  }

  /** Date of a day number (days since 1970-01-01). */
  function CivilFromDays(z: int): (d: Date)
    ensures ValidDate(d)
  {
    var zs := z + EpochShift;
    DateOfEraDay(zs / DaysPerEra, SplitEraDay(zs % DaysPerEra))
  }

  /** Day number (days since 1970-01-01) of a date. */
  function DaysFromCivil(d: Date): int
  {
    var y := d.year - (if d.month <= 2 then 1 else 0);
    var mp := if d.month > 2 then d.month - 3 else d.month + 9;
    (y / 400) * DaysPerEra + EraYearStart(y % 400) + MonthStart(mp) + d.day - 1 - EpochShift
  }

  /** The month index of a day of the year starts on or before it. */
  lemma MonthIndexBounds(doy: int)
    requires 0 <= doy <= 365
    ensures var mp := (5 * doy + 2) / 153; 0 <= mp <= 11 && MonthStart(mp) <= doy
  {
  }

  /** A year of an era and its era are recovered by division by 400. */
  lemma EraYearSplit(era: int, yoe: int)
    requires 0 <= yoe < 400
    ensures (era * 400 + yoe) / 400 == era && (era * 400 + yoe) % 400 == yoe
  {
  }

  /** The date built from an era, a year of that era and a day of that
      year is mapped back to the day it was built from. */
  lemma DaysFromEraDay(era: int, ed: EraDay)
    requires 0 <= ed.yoe <= 399 && 0 <= ed.doy < YearLength(ed.yoe)
    ensures DaysFromCivil(DateOfEraDay(era, ed)) == era * DaysPerEra + EraYearStart(ed.yoe) + ed.doy - EpochShift
  {
    MonthIndexBounds(ed.doy);
    EraYearSplit(era, ed.yoe);
  }

  /** Every day number is recovered from its date: distinct days have
      distinct dates. */
  lemma DaysCivilRoundTrip(z: int)
    ensures DaysFromCivil(CivilFromDays(z)) == z
  {
    var zs := z + EpochShift;
    var era := zs / DaysPerEra;
    var ed := SplitEraDay(zs % DaysPerEra);
    DaysFromEraDay(era, ed);
    assert zs == era * DaysPerEra + zs % DaysPerEra;
  }

  /** A March-based year of an era begins after all the days of the
      years before it, and the last one ends with the era. */
  lemma EraYearsOrdered(a: int, b: int)
    requires 0 <= a < b <= 399
    ensures EraYearStart(a) + YearLength(a) <= EraYearStart(b)
    ensures EraYearStart(b) + YearLength(b) <= DaysPerEra
  {
  }

  /** A day of an era determines its year of the era and its day of
      that year. */
  lemma EraDayUnique(a: EraDay, b: EraDay)
    requires 0 <= a.yoe <= 399 && 0 <= a.doy < YearLength(a.yoe)
    requires 0 <= b.yoe <= 399 && 0 <= b.doy < YearLength(b.yoe)
    requires EraYearStart(a.yoe) + a.doy == EraYearStart(b.yoe) + b.doy
    ensures a == b
  {
    if a.yoe < b.yoe {
      EraYearsOrdered(a.yoe, b.yoe);
    } else if b.yoe < a.yoe {
      EraYearsOrdered(b.yoe, a.yoe);
    }
  }

  /** The day `k` of month index `mp` is given month index `mp` back. */
  lemma MonthIndexOf(mp: int, k: int, leap: bool)
    requires 0 <= mp <= 11 && 0 <= k
    requires mp < 11 ==> MonthStart(mp) + k < MonthStart(mp + 1)
    requires mp == 11 ==> k < (if leap then 29 else 28)
    ensures (5 * (MonthStart(mp) + k) + 2) / 153 == mp
  {
  }

  /** The length of a month, measured between the starts of consecutive
      month indices; February, index 11, ends the March-based year. */
  lemma MonthSpan(y: int, m: int)
    requires 1 <= m <= 12
    ensures var mp := if m > 2 then m - 3 else m + 9;
      (mp < 11 ==> MonthStart(mp + 1) - MonthStart(mp) == DaysIn(y, m)) &&
      (mp == 11 ==> m == 2)
  {
  }

  /** The era, year of era and day of year of a valid date. */
  function EraDayOf(d: Date): EraDay {
    var y := d.year - (if d.month <= 2 then 1 else 0);
    var mp := if d.month > 2 then d.month - 3 else d.month + 9;
    EraDay(y % 400, MonthStart(mp) + d.day - 1)
  }

  /** The date built from the era day of a valid date is that date. */
  lemma DateOfEraDayOf(d: Date)
    requires ValidDate(d)
    ensures var ed := EraDayOf(d);
      0 <= ed.yoe <= 399 && 0 <= ed.doy < YearLength(ed.yoe) &&
      DateOfEraDay((d.year - (if d.month <= 2 then 1 else 0)) / 400, ed) == d
  {
    var y := d.year - (if d.month <= 2 then 1 else 0);
    var mp := if d.month > 2 then d.month - 3 else d.month + 9;
    var era, yoe := y / 400, y % 400;
    LeapPeriodic(era, yoe + 1);
    assert y + 1 == era * 400 + (yoe + 1);
    MonthSpan(d.year, d.month);
    MonthIndexOf(mp, d.day - 1, IsLeap(yoe + 1));
  }

  /** A day count split into whole eras and a day of the era. */
  lemma EraDivision(zs: int, era: int, doe: int)
    requires 0 <= doe < DaysPerEra && zs == era * DaysPerEra + doe
    ensures zs / DaysPerEra == era && zs % DaysPerEra == doe
  {
  }

  /** Every valid date is recovered from its day number: the conversion
      from day numbers onto valid dates is a bijection. */
  lemma CivilDaysRoundTrip(d: Date)
    requires ValidDate(d)
    ensures CivilFromDays(DaysFromCivil(d)) == d
  {
    var era := (d.year - (if d.month <= 2 then 1 else 0)) / 400;
    var ed := EraDayOf(d);
    DateOfEraDayOf(d);
    var doe := EraYearStart(ed.yoe) + ed.doy;
    assert 0 <= doe < DaysPerEra by {
      if ed.yoe < 399 {
        EraYearsOrdered(ed.yoe, 399);
      } else {
        EraYearsOrdered(0, 399);
      }
    }
    var zs := DaysFromCivil(d) + EpochShift;
    assert zs == era * DaysPerEra + doe;
    EraDivision(zs, era, doe);
    assert SplitEraDay(doe) == ed by {
      EraDayUnique(SplitEraDay(doe), ed);
    }
  }
}
