/** The proleptic Gregorian calendar of crates/tea-agent/src/verification.rs.

    `CivilFromDays` is the constant-time era algorithm of the source. Its reference is the
    calendar written down directly: a leap rule, month lengths, and a day number obtained by
    counting whole years and whole months one at a time. */
module Calendar {

  datatype Date = Date(year: int, month: int, day: int)

  // ----- The calendar, written down directly -------------------------------------------------

  predicate IsLeap(y: int) {
    y % 4 == 0 && (y % 100 != 0 || y % 400 == 0)
  }

  function YearLength(y: int): int {
    if IsLeap(y) then 366 else 365
  }

  function MonthLength(y: int, m: int): int
    requires 1 <= m <= 12
  {
    if m == 2 then (if IsLeap(y) then 29 else 28)
    else if m == 4 || m == 6 || m == 9 || m == 11 then 30
    else 31
  }

  predicate Valid(d: Date) {
    1 <= d.month <= 12 && 1 <= d.day <= MonthLength(d.year, d.month)
  }

  /** Days from 1970-01-01 to the first day of year `y`, one year at a time. */
  function DaysBeforeYear(y: int): int
    decreases if y >= 1970 then y - 1970 else 1970 - y
  {
    if y == 1970 then 0
    else if y > 1970 then DaysBeforeYear(y - 1) + YearLength(y - 1)
    else DaysBeforeYear(y + 1) - YearLength(y)
  }

  /** Days from the first day of the year to the first day of month `m`, one month at a time. */
  function DaysBeforeMonth(y: int, m: int): int
    requires 1 <= m <= 13
    decreases m
  {
    if m == 1 then 0 else DaysBeforeMonth(y, m - 1) + MonthLength(y, m - 1)
  }

  function DayNumber(d: Date): int
    requires Valid(d)
  {
    DaysBeforeYear(d.year) + DaysBeforeMonth(d.year, d.month) + d.day - 1
  }

  predicate Earlier(a: Date, b: Date) {
    a.year < b.year
    || (a.year == b.year && (a.month < b.month || (a.month == b.month && a.day < b.day)))
  }

  // ----- The era algorithm --------------------------------------------------------------------

  /** Rust integer division, which truncates toward zero. */
  function TruncatingDiv(a: int, b: int): int
    requires b > 0
  {
    if a >= 0 then a / b else -(-a / b)
  }

  function EraOf(shifted: int): int {
    TruncatingDiv(if shifted >= 0 then shifted else shifted - 146_096, 146_097)
  }

  function YearOfEra(dayOfEra: int): int {
    TruncatingDiv(dayOfEra - TruncatingDiv(dayOfEra, 1_460) + TruncatingDiv(dayOfEra, 36_524)
                  - TruncatingDiv(dayOfEra, 146_096), 365)
  }

  /** Days of the era before its shifted year `yearOfEra`, which starts on 1 March. */
  function EraDays(yearOfEra: int): int {
    365 * yearOfEra + TruncatingDiv(yearOfEra, 4) - TruncatingDiv(yearOfEra, 100)
  }

  function DateInShiftedYear(shiftedYear: int, dayOfYear: int): Date {
    var monthPrime := TruncatingDiv(5 * dayOfYear + 2, 153);
    var day := dayOfYear - TruncatingDiv(153 * monthPrime + 2, 5) + 1;
    var month := monthPrime + (if monthPrime < 10 then 3 else -9);
    Date(shiftedYear + (if month <= 2 then 1 else 0), month, day)
  }

  function CivilFromDays(days: int): Date {
    var shifted := days + 719_468;
    var era := EraOf(shifted);
    DateInEra(era, shifted - era * 146_097)
  }

  function DateInEra(era: int, dayOfEra: int): Date {
    var yearOfEra := YearOfEra(dayOfEra);
    var dayOfYear := dayOfEra - EraDays(yearOfEra);
    DateInShiftedYear(yearOfEra + era * 400, dayOfYear)
  }

  // ----- Closed forms -------------------------------------------------------------------------

  /** Leap days in the years before `y`, up to a constant. */
  function Leaps(y: int): int {
    (y - 1) / 4 - (y - 1) / 100 + (y - 1) / 400
  }

  lemma LeapsStep(y: int)
    ensures Leaps(y + 1) - Leaps(y) == if IsLeap(y) then 1 else 0
  {
    DivStep(y, 4);
    DivStep(y, 100);
    DivStep(y, 400);
    Divisibility(y);
  }

  lemma Divisibility(y: int)
    ensures y % 400 == 0 ==> y % 100 == 0
    ensures y % 100 == 0 ==> y % 4 == 0
  {
    var q, p := y / 400, y / 100;
    assert y % 400 == 0 ==> y == 100 * (4 * q) + 0;
    assert y % 100 == 0 ==> y == 4 * (25 * p) + 0;
  }

  lemma DivStep(y: int, k: int)
    requires k == 4 || k == 100 || k == 400
    ensures y / k - (y - 1) / k == if y % k == 0 then 1 else 0
  {
  }

  lemma {:induction false} DaysBeforeYearClosed(y: int)
    ensures DaysBeforeYear(y) == 365 * (y - 1970) + Leaps(y) - Leaps(1970)
    decreases if y >= 1970 then y - 1970 else 1970 - y
  {
    if y > 1970 {
      DaysBeforeYearClosed(y - 1);
      LeapsStep(y - 1);
    } else if y < 1970 {
      DaysBeforeYearClosed(y + 1);
      LeapsStep(y);
    }
  }

  lemma DaysBeforeMonthTable(y: int)
    ensures var l := if IsLeap(y) then 1 else 0;
            && DaysBeforeMonth(y, 1) == 0 && DaysBeforeMonth(y, 2) == 31
            && DaysBeforeMonth(y, 3) == 59 + l && DaysBeforeMonth(y, 4) == 90 + l
            && DaysBeforeMonth(y, 5) == 120 + l && DaysBeforeMonth(y, 6) == 151 + l
            && DaysBeforeMonth(y, 7) == 181 + l && DaysBeforeMonth(y, 8) == 212 + l
            && DaysBeforeMonth(y, 9) == 243 + l && DaysBeforeMonth(y, 10) == 273 + l
            && DaysBeforeMonth(y, 11) == 304 + l && DaysBeforeMonth(y, 12) == 334 + l
            && DaysBeforeMonth(y, 13) == YearLength(y)
  {
    var m := 1;
    while m < 13
      invariant 1 <= m <= 13
      invariant var l := if IsLeap(y) then 1 else 0;
                forall k :: 1 <= k <= m ==> (
                  DaysBeforeMonth(y, k) ==
                    [0, 31, 59 + l, 90 + l, 120 + l, 151 + l, 181 + l, 212 + l, 243 + l, 273 + l,
                     304 + l, 334 + l, 365 + l][k - 1])
    {
      m := m + 1;
    }
  }

  // ----- The shifted year, which starts in March ----------------------------------------------

  lemma EraIsFloor(shifted: int)
    ensures 0 <= shifted - EraOf(shifted) * 146_097 < 146_097
  {
  }

  /** The division formula finds the shifted year that contains the given day of the era. */
  lemma YearOfEraIsCorrect(doe: int)
    requires 0 <= doe < 146_097
    ensures 0 <= YearOfEra(doe) < 400
    ensures 0 <= doe - EraDays(YearOfEra(doe)) <= 365
    ensures doe - EraDays(YearOfEra(doe)) == 365 ==> IsLeap(YearOfEra(doe) + 1)
  {
    if doe == 146_096 {
      assert YearOfEra(doe) == 399;
    } else {
      var c, r := doe / 36_524, doe % 36_524;
      CenturyDay(doe, c, r / 1_461, r % 1_461);
    }
  }

  lemma CenturyDay(doe: int, c: int, q: int, s: int)
    requires 0 <= c < 4 && 0 <= q < 25 && 0 <= s < 1_461 && 1_461 * q + s < 36_524
    requires doe == 36_524 * c + 1_461 * q + s
    ensures 0 <= YearOfEra(doe) < 400
    ensures 0 <= doe - EraDays(YearOfEra(doe)) <= 365
    ensures doe - EraDays(YearOfEra(doe)) == 365 ==> IsLeap(YearOfEra(doe) + 1)
  {
    var t := if s == 1_460 then 3 else s / 365;
    var yoe := 100 * c + 4 * q + t;
    YearOfEraQuotient(doe, c, q, s, t);
    assert yoe / 4 == 25 * c + q && yoe / 100 == c;
    if s - 365 * t == 365 {
      LastYearOfCycle(c, q);
    }
  }

  lemma YearOfEraQuotient(doe: int, c: int, q: int, s: int, t: int)
    requires 0 <= c < 4 && 0 <= q < 25 && 0 <= s < 1_461 && 1_461 * q + s < 36_524
    requires doe == 36_524 * c + 1_461 * q + s
    requires t == if s == 1_460 then 3 else s / 365
    ensures YearOfEra(doe) == 100 * c + 4 * q + t
  {
    var e := doe / 1_460;
    assert doe / 36_524 == c && doe / 146_096 == 0;
    assert 365 * (100 * c + 4 * q + t) <= doe - e + c < 365 * (100 * c + 4 * q + t) + 365;
    assert (doe - e + c) / 365 == 100 * c + 4 * q + t;
  }

  lemma LastYearOfCycle(c: int, q: int)
    requires 0 <= c < 4 && 0 <= q < 24
    ensures IsLeap(100 * c + 4 * q + 4)
  {
    assert (100 * c + 4 * q + 4) % 4 == 0;
    assert (100 * c + 4 * q + 4) % 100 == 4 * q + 4;
  }

  /** Days before each month of a year that starts in March. */
  const MONTH_STARTS: seq<int> := [0, 31, 61, 92, 122, 153, 184, 214, 245, 275, 306, 337, 366]

  /** Month and day within a shifted year, against the month table. */
  lemma MonthOfYear(y: int, doy: int) returns (mp: int)
    requires 0 <= doy <= 365
    ensures 0 <= mp <= 11 && MONTH_STARTS[mp] <= doy < MONTH_STARTS[mp + 1]
    ensures DateInShiftedYear(y, doy) ==
            Date(y + (if mp >= 10 then 1 else 0), mp + (if mp < 10 then 3 else -9),
                 doy - MONTH_STARTS[mp] + 1)
  {
    mp := (5 * doy + 2) / 153;
    assert (153 * mp + 2) / 5 == MONTH_STARTS[mp];
  }

  // ----- Main results -------------------------------------------------------------------------

  /** A real date with this day number. */
  predicate Falls(d: Date, days: int) {
    Valid(d) && DayNumber(d) == days
  }

  /** For every day count the algorithm returns a real calendar date whose day number, counted
      one year and one month at a time, is that same count. */
  lemma CivilIsCorrect(days: int)
    ensures Falls(CivilFromDays(days), days)
  {
    var era := EraOf(days + 719_468);
    EraIsFloor(days + 719_468);
    CivilUnfolds(days, era);
    DateInEraIsCorrect(era, days + 719_468 - era * 146_097, days);
  }

  lemma CivilUnfolds(days: int, era: int)
    requires era == EraOf(days + 719_468)
    ensures CivilFromDays(days) == DateInEra(era, days + 719_468 - era * 146_097)
  {
  }

  lemma DateInEraIsCorrect(era: int, doe: int, days: int)
    requires 0 <= doe < 146_097 && days == era * 146_097 + doe - 719_468
    ensures Falls(DateInEra(era, doe), days)
  {
    var yoe := YearOfEra(doe);
    YearOfEraIsCorrect(doe);
    DateOfShiftedDay(era, yoe, doe - EraDays(yoe));
  }

  lemma DateOfShiftedDay(era: int, yoe: int, doy: int)
    requires 0 <= yoe < 400 && 0 <= doy <= 365
    requires doy == 365 ==> IsLeap(yoe + 1)
    ensures Falls(DateInShiftedYear(yoe + era * 400, doy), era * 146_097 + EraDays(yoe) + doy - 719_468)
  {
    var y := yoe + era * 400;
    var mp := MonthOfYear(y, doy);
    ShiftedYear(era, yoe);
    ShiftedDate(y, mp, doy);
  }

  /** Before January the date lies in the year itself, from January on in the next. */
  lemma ShiftedDate(y: int, mp: int, doy: int)
    requires 0 <= mp <= 11 && MONTH_STARTS[mp] <= doy < MONTH_STARTS[mp + 1] && (doy == 365 ==> IsLeap(y + 1))
    requires DaysBeforeYear(y) + YearLength(y) == DaysBeforeYear(y + 1)
    ensures Falls(Date(y + (if mp >= 10 then 1 else 0), mp + (if mp < 10 then 3 else -9), doy - MONTH_STARTS[mp] + 1),
                  DaysBeforeYear(y + 1) + doy - 306)
  {
    if mp < 10 {
      MarchToDecember(y, mp, doy);
    } else {
      JanuaryAndFebruary(y + 1, mp, doy);
    }
  }

  lemma MarchToDecember(y: int, mp: int, doy: int)
    requires 0 <= mp <= 9 && MONTH_STARTS[mp] <= doy < MONTH_STARTS[mp + 1]
    ensures Falls(Date(y, mp + 3, doy - MONTH_STARTS[mp] + 1), DaysBeforeYear(y) + YearLength(y) + doy - 306)
  {
    DaysBeforeMonthTable(y);
  }

  lemma JanuaryAndFebruary(y: int, mp: int, doy: int)
    requires 10 <= mp <= 11 && MONTH_STARTS[mp] <= doy < MONTH_STARTS[mp + 1] && (doy == 365 ==> IsLeap(y))
    ensures Falls(Date(y, mp - 9, doy - MONTH_STARTS[mp] + 1), DaysBeforeYear(y) + doy - 306)
  {
    DaysBeforeMonthTable(y);
  }

  /** The era offset agrees with the recursively counted years around it. */
  lemma ShiftedYear(era: int, yoe: int)
    requires 0 <= yoe < 400
    ensures var y := yoe + era * 400;
            && DaysBeforeYear(y + 1) == era * 146_097 + EraDays(yoe) + 306 - 719_468
            && DaysBeforeYear(y) + YearLength(y) == DaysBeforeYear(y + 1)
            && IsLeap(y + 1) == IsLeap(yoe + 1)
  {
    var y := yoe + era * 400;
    DaysBeforeYearClosed(y + 1);
    DaysBeforeYearClosed(y);
    LeapsStep(y);
    EraQuotients(yoe, era);
    EraRemainders(yoe + 1, era);
  }

  lemma EraQuotients(yoe: int, era: int)
    requires 0 <= yoe < 400
    ensures var y := yoe + era * 400;
            y / 4 == yoe / 4 + 100 * era && y / 100 == yoe / 100 + 4 * era && y / 400 == era
  {
  }

  lemma EraRemainders(a: int, era: int)
    ensures IsLeap(a + era * 400) == IsLeap(a)
  {
    Remainder(a + era * 400, 4, a / 4 + 100 * era, a % 4);
    Remainder(a + era * 400, 100, a / 100 + 4 * era, a % 100);
    Remainder(a + era * 400, 400, a / 400 + era, a % 400);
  }

  lemma Remainder(x: int, k: int, q: int, r: int)
    requires (k == 4 || k == 100 || k == 400) && 0 <= r < k && x == k * q + r
    ensures x % k == r
  {
  }

  lemma {:induction false} YearsAreMonotone(a: int, b: int)
    requires a <= b
    ensures DaysBeforeYear(a) + 365 * (b - a) <= DaysBeforeYear(b)
    decreases b - a
  {
    if a == b {
    } else {
      YearsAreMonotone(a, b - 1);
      DaysBeforeYearClosed(b);
      DaysBeforeYearClosed(b - 1);
      LeapsStep(b - 1);
    }
  }

  lemma {:induction false} MonthsAreMonotone(y: int, a: int, b: int)
    requires 1 <= a <= b <= 13
    ensures DaysBeforeMonth(y, a) <= DaysBeforeMonth(y, b)
    ensures a < b ==> DaysBeforeMonth(y, a) + MonthLength(y, a) <= DaysBeforeMonth(y, b)
    decreases b - a
  {
    if a == b {
    } else {
      MonthsAreMonotone(y, a, b - 1);
    }
  }

  /** The day number follows calendar order strictly. */
  lemma DayNumberIsMonotone(a: Date, b: Date)
    requires Valid(a) && Valid(b) && Earlier(a, b)
    ensures DayNumber(a) < DayNumber(b)
  {
    if a.year < b.year {
      MonthsAreMonotone(a.year, a.month, 13);
      DaysBeforeMonthTable(a.year);
      MonthsAreMonotone(b.year, 1, b.month);
      YearsAreMonotone(a.year + 1, b.year);
      DaysBeforeYearClosed(a.year);
      DaysBeforeYearClosed(a.year + 1);
      LeapsStep(a.year);
    } else if a.month < b.month {
      MonthsAreMonotone(a.year, a.month, b.month);
    }
  }

  /** The algorithm inverts the day number on every calendar date. */
  lemma CivilInvertsDayNumber(d: Date)
    requires Valid(d)
    ensures CivilFromDays(DayNumber(d)) == d
  {
    var e := CivilFromDays(DayNumber(d));
    CivilIsCorrect(DayNumber(d));
    if Earlier(d, e) {
      DayNumberIsMonotone(d, e);
    } else if Earlier(e, d) {
      DayNumberIsMonotone(e, d);
    }
  }

  /** Later day counts give later dates. */
  lemma CivilIsMonotone(a: int, b: int)
    requires a < b
    ensures Earlier(CivilFromDays(a), CivilFromDays(b))
  {
    CivilIsCorrect(a);
    CivilIsCorrect(b);
    DayNumberReflectsOrder(CivilFromDays(a), CivilFromDays(b));
  }

  lemma DayNumberReflectsOrder(x: Date, y: Date)
    requires Valid(x) && Valid(y) && DayNumber(x) < DayNumber(y)
    ensures Earlier(x, y)
  {
    if Earlier(y, x) {
      DayNumberIsMonotone(y, x);
    }
  }

  /** Day zero, and only day zero, is the Unix epoch. */
  lemma EpochIsDayZero(days: int)
    ensures days == 0 <==> CivilFromDays(days) == Date(1970, 1, 1)
  {
    var epoch := Date(1970, 1, 1);
    assert DayNumber(epoch) == 0;
    CivilIsCorrect(days);
    if days == DayNumber(epoch) {
      CivilInvertsDayNumber(epoch);
    }
  }
}
