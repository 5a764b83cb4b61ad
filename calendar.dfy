/**
 * The calendar arithmetic behind the day labels: `datetime.date(2024, 5, 9) +
 * timedelta(days=i)` in the proleptic Gregorian calendar, and the label: the day and the month,
 * each as two zero-padded digits followed by a '.'.
 */
module Calendar {
  import opened Wrappers
  import opened PyText

  datatype Date = Date(year: int, month: int, day: int)

  predicate IsLeapYear(y: int)
  {
    y % 4 == 0 && (y % 100 != 0 || y % 400 == 0)
  }

  function DaysInMonth(y: int, m: int): (n: nat)
    requires 1 <= m <= 12
    ensures 28 <= n <= 31
  {
    if m == 2 then (if IsLeapYear(y) then 29 else 28)
    else if m == 4 || m == 6 || m == 9 || m == 11 then 30
    else 31
  }

  /** Days of year `y` that precede the first of month `m`. */
  function DaysBeforeMonth(y: int, m: int): nat
    requires 1 <= m <= 12
  {
    [0, 31, 59, 90, 120, 151, 181, 212, 243, 273, 304, 334][m - 1]
    + (if m > 2 && IsLeapYear(y) then 1 else 0)
  }

  function YearLength(y: int): nat
  {
    if IsLeapYear(y) then 366 else 365
  }

  predicate ValidDate(d: Date)
  {
    1 <= d.year && 1 <= d.month <= 12 && 1 <= d.day <= DaysInMonth(d.year, d.month)
  }

  /** Days from 1 January of year 1 to 1 January of year `y`: 365 a year, plus the leap days of the years before `y`. */
  function YearStart(y: int): int
    requires y >= 1
  {
    var p := y - 1;
    365 * p + p / 4 - p / 100 + p / 400
  }

  /** A year begins where the previous one ends. */
  lemma YearStep(y: int)
    requires y >= 1
    ensures YearStart(y + 1) == YearStart(y) + YearLength(y)
  {
    LeapDayStep(y);
  }

  /** Going from year `y - 1` to year `y` adds one to `y // 4` exactly when 4 divides `y`, and so for 100 and 400. */
  lemma LeapDayStep(y: int)
    requires y >= 1
    ensures y / 4 == (y - 1) / 4 + (if y % 4 == 0 then 1 else 0)
    ensures y / 100 == (y - 1) / 100 + (if y % 100 == 0 then 1 else 0)
    ensures y / 400 == (y - 1) / 400 + (if y % 400 == 0 then 1 else 0)
    ensures y % 400 == 0 ==> y % 100 == 0
    ensures y % 100 == 0 ==> y % 4 == 0
  {
  }

  /** The day number of a date, 1 January of year 1 being day 1 (`date.toordinal()`). */
  function Ordinal(d: Date): int
    requires ValidDate(d)
  {
    YearStart(d.year) + DaysBeforeMonth(d.year, d.month) + d.day
  }

  /** A month ends where the next one begins, and December ends where the year does. */
  lemma MonthStep(y: int, m: int)
    requires 1 <= m <= 12
    ensures m < 12 ==> DaysBeforeMonth(y, m + 1) == DaysBeforeMonth(y, m) + DaysInMonth(y, m)
    ensures m == 12 ==> DaysBeforeMonth(y, m) + DaysInMonth(y, m) == YearLength(y)
  {
  }

  /** The day after `d`: the next day of the month, else the first of the next month, else 1 January of the next year. */
  function NextDay(d: Date): (r: Date)
    requires ValidDate(d)
    ensures ValidDate(r)
  {
    if d.day < DaysInMonth(d.year, d.month) then Date(d.year, d.month, d.day + 1)
    else if d.month < 12 then Date(d.year, d.month + 1, 1)
    else Date(d.year + 1, 1, 1)
  }

  /** The day after `d` is one day later in day numbers. */
  lemma NextDayOrdinal(d: Date)
    requires ValidDate(d)
    ensures Ordinal(NextDay(d)) == Ordinal(d) + 1
  {
    MonthStep(d.year, d.month);
    YearStep(d.year);
  }

  /** `d + timedelta(days=k)`: `k` steps of `NextDay` from `d`. */
  function AddDays(d: Date, k: nat): (r: Date)
    requires ValidDate(d)
    ensures ValidDate(r)
    decreases k
  {
    if k == 0 then d else NextDay(AddDays(d, k - 1))
  }

  /** Adding `k` days adds `k` to the day number. */
  lemma {:induction false} AddDaysOrdinal(d: Date, k: nat)
    requires ValidDate(d)
    ensures Ordinal(AddDays(d, k)) == Ordinal(d) + k
  {
    if k > 0 {
      AddDaysOrdinal(d, k - 1);
      NextDayOrdinal(AddDays(d, k - 1));
    }
  }

  lemma {:induction false} YearStartGap(y1: int, y2: int)
    requires 1 <= y1 <= y2
    ensures y1 < y2 ==> YearStart(y1) + YearLength(y1) <= YearStart(y2)
    decreases y2
  {
    if y1 < y2 {
      YearStep(y2 - 1);
      if y1 < y2 - 1 {
        YearStartGap(y1, y2 - 1);
      }
    }
  }

  lemma MonthGap(y: int, m1: int, m2: int)
    requires 1 <= m1 <= m2 <= 12
    ensures m1 < m2 ==> DaysBeforeMonth(y, m1) + DaysInMonth(y, m1) <= DaysBeforeMonth(y, m2)
  {
  }

  /** Distinct valid dates have distinct day numbers. */
  lemma OrdinalInjective(d1: Date, d2: Date)
    requires ValidDate(d1) && ValidDate(d2)
    requires Ordinal(d1) == Ordinal(d2)
    ensures d1 == d2
  {
    MonthStep(d1.year, 12);
    MonthStep(d2.year, 12);
    MonthGap(d1.year, d1.month, 12);
    MonthGap(d2.year, d2.month, 12);
    if d1.year <= d2.year {
      YearStartGap(d1.year, d2.year);
    } else {
      YearStartGap(d2.year, d1.year);
    }
    assert d1.year == d2.year;
    if d1.month <= d2.month {
      MonthGap(d1.year, d1.month, d2.month);
    } else {
      MonthGap(d1.year, d2.month, d1.month);
    }
  }

  /** Day 0 of the challenge. */
  const RaceStart := Date(2024, 5, 9)

  /** The label of race day `i`: `DD.MM.` of the date `i` days after 9 May 2024. */
  function DateLabel(i: nat): (tag: string)
    ensures |tag| == 6 && tag[2] == '.' && tag[5] == '.'
    ensures IsDecimal(tag[..2]) && IsDecimal(tag[3..5])
  {
    var d := AddDays(RaceStart, i);
    var tag := Pad2(d.day) + "." + Pad2(d.month) + ".";
    assert tag[..2] == Pad2(d.day) && tag[3..5] == Pad2(d.month);
    tag
  }

  /** The label reads back, with `int()`, as the day and the month of the date `i` days after the start. */
  lemma DateLabelReadsBack(i: nat)
    ensures ParseInt(DateLabel(i)[..2]) == Some(AddDays(RaceStart, i).day)
    ensures ParseInt(DateLabel(i)[3..5]) == Some(AddDays(RaceStart, i).month)
  {
    var d := AddDays(RaceStart, i);
    var tag := DateLabel(i);
    assert tag[..2] == Pad2(d.day) && tag[3..5] == Pad2(d.month);
    ParseIntOfDecimal(Pad2(d.day));
    ParseIntOfDecimal(Pad2(d.month));
  }

  /** The label of race day `k` is that of any valid date `k` days after the start, in whichever year. */
  lemma DateLabelOf(k: nat, d: Date)
    requires ValidDate(d) && Ordinal(d) == Ordinal(RaceStart) + k
    ensures DateLabel(k) == Pad2(d.day) + "." + Pad2(d.month) + "."
  {
    AddDaysOrdinal(RaceStart, k);
    OrdinalInjective(AddDays(RaceStart, k), d);
  }

  /** Race days 0 to 22 are 9 to 31 May: labels 09.05. to 31.05. */
  lemma MayLabels(k: nat)
    requires k <= 22
    ensures DateLabel(k) == Pad2(k + 9) + ".05."
  {
    DateLabelOf(k, Date(2024, 5, k + 9));
    assert Pad2(5) == "05";
  }

  /** Race days 23 to 52 are June: labels 01.06. to 30.06. */
  lemma JuneLabels(k: nat)
    requires 23 <= k <= 52
    ensures DateLabel(k) == Pad2(k - 22) + ".06."
  {
    DateLabelOf(k, Date(2024, 6, k - 22));
    assert Pad2(6) == "06";
  }

  /** Race days 53 to 83 are July: labels 01.07. to 31.07. */
  lemma JulyLabels(k: nat)
    requires 53 <= k <= 83
    ensures DateLabel(k) == Pad2(k - 52) + ".07."
  {
    DateLabelOf(k, Date(2024, 7, k - 52));
    assert Pad2(7) == "07";
  }

  /** Race days 84 to 114 are August: labels 01.08. to 31.08. */
  lemma AugustLabels(k: nat)
    requires 84 <= k <= 114
    ensures DateLabel(k) == Pad2(k - 83) + ".08."
  {
    DateLabelOf(k, Date(2024, 8, k - 83));
    assert Pad2(8) == "08";
  }

  /** Race days 115 to 119, the last of the 120, are 1 to 5 September: labels 01.09. to 05.09. */
  lemma SeptemberLabels(k: nat)
    requires 115 <= k <= 119
    ensures DateLabel(k) == Pad2(k - 114) + ".09."
  {
    DateLabelOf(k, Date(2024, 9, k - 114));
    assert Pad2(9) == "09";
  }
}
