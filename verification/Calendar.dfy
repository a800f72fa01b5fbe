/** The date arithmetic behind object keys, against plain day-by-day Gregorian counting. */
module Calendar {
  import opened Text

  datatype Date = Date(year: int, month: int, day: int)

  // ---- reference: the proleptic Gregorian calendar, one day at a time ----

  predicate IsLeapYear(y: int) {
    y % 4 == 0 && (y % 100 != 0 || y % 400 == 0)
  }

  function DaysInMonth(y: int, m: int): int {
    if m == 2 then (if IsLeapYear(y) then 29 else 28)
    else if m == 4 || m == 6 || m == 9 || m == 11 then 30
    else 31
  }

  predicate ValidDate(d: Date) {
    1 <= d.month <= 12 && 1 <= d.day <= DaysInMonth(d.year, d.month)
  }

  function NextDay(d: Date): Date {
    if d.day < DaysInMonth(d.year, d.month) then d.(day := d.day + 1)
    else if d.month < 12 then Date(d.year, d.month + 1, 1)
    else Date(d.year + 1, 1, 1)
  }

  const EPOCH := Date(1970, 1, 1)

  /** The date reached by stepping `n` times from 1970-01-01. */
  function DateAfter(n: nat): Date {
    if n == 0 then EPOCH else NextDay(DateAfter(n - 1))
  }

  // ---- the conversion as written ----

  /** Rust's `/` on signed integers. */
  function TruncDiv(a: int, b: int): int
    requires b > 0
  {
    if a >= 0 then a / b else -((-a) / b)
  }

  function Era(z: int): int {
    TruncDiv(if z >= 0 then z else z - 146_096, 146_097)
  }

  function YearOfEra(doe: int): int {
    (doe - doe / 1460 + doe / 36524 - doe / 146_096) / 365
  }

  function DayOfYear(doe: int): int {
    var yoe := YearOfEra(doe);
    doe - (365 * yoe + yoe / 4 - yoe / 100)
  }

  function MonthIndex(doy: int): int { (5 * doy + 2) / 153 }

  /** Day `doy` of the year that starts in March of `y`. */
  function MarchDate(y: int, doy: int): Date {
    var mp := MonthIndex(doy);
    var d := doy - (153 * mp + 2) / 5 + 1;
    var m := if mp < 10 then mp + 3 else mp - 9;
    Date(if m <= 2 then y + 1 else y, m, d)
  }

  function CivilOf(era: int, doe: int): Date {
    MarchDate(YearOfEra(doe) + era * 400, DayOfYear(doe))
  }

  function CivilFromDays(days: int): Date {
    var z := days + 719_468;
    var era := Era(z);
    CivilOf(era, z - era * 146_097)
  }

  function FormatDate(d: Date): string
    requires d.year >= 0 && d.month >= 0 && d.day >= 0
  {
    Padded(d.year, 4, 10) + "-" + Padded(d.month, 2, 10) + "-" + Padded(d.day, 2, 10)
  }

  function YmdFromUnix(secs: nat): string {
    CivilIsDayCount(secs / 86400);
    CountedDatesValid(secs / 86400);
    FormatDate(CivilFromDays(secs / 86400))
  }

  // ---- years of the 400-year era, starting in March ----

  /** First day (within the era) of the March-based year `y`. */
  function YearStart(y: int): int { 365 * y + y / 4 - y / 100 }

  /** Length of the March-based year `y`, whose February lies in year `y + 1`. */
  function YearLength(y: int): int {
    if (y + 1) % 4 == 0 && ((y + 1) % 100 != 0 || y + 1 == 400) then 366 else 365
  }

  lemma EraBounds(z: int)
    ensures 0 <= z - Era(z) * 146_097 <= 146_096
  {
  }

  /** A day of the era split by century, four-year group, year and day. */
  lemma SplitDay(doe: int) returns (c: int, q: int, y: int, r: int)
    requires 0 <= doe <= 146_096
    ensures 0 <= c <= 3 && 0 <= q <= 24 && 0 <= y <= 3 && 0 <= r <= 365
    ensures doe == 36524 * c + 1461 * q + 365 * y + r
    ensures r == 365 ==> y == 3 && (q < 24 || c == 3)
  {
    c := if doe == 146_096 then 3 else doe / 36524;
    var d := doe - 36524 * c;
    q := d / 1461;
    var e := d - 1461 * q;
    y := if e == 1460 then 3 else e / 365;
    r := e - 365 * y;
  }

  lemma DivideBy1460(doe: int, g: int, w: int)
    requires doe == 1460 * g + w && 0 <= w < 2920
    ensures doe / 1460 == if w >= 1460 then g + 1 else g
  {
  }

  lemma CenturyOfDay(doe: int, c: int, w: int)
    requires doe == 36524 * c + w && 0 <= c <= 3 && 0 <= w <= 36524
    requires w == 36524 ==> c == 3
    ensures doe / 36524 == if w == 36524 then 4 else c
    ensures doe / 146_096 == if w == 36524 then 1 else 0
  {
  }

  lemma YearQuotients(c: int, q: int, y: int)
    requires 0 <= q <= 24 && 0 <= y <= 3
    ensures (100 * c + 4 * q + y) / 4 == 25 * c + q
    ensures (100 * c + 4 * q + y) / 100 == c
  {
  }

  lemma YearOfSplitDay(doe: int, c: int, q: int, y: int, r: int)
    requires 0 <= c <= 3 && 0 <= q <= 24 && 0 <= y <= 3 && 0 <= r <= 365
    requires doe == 36524 * c + 1461 * q + 365 * y + r
    requires r == 365 ==> y == 3 && (q < 24 || c == 3)
    ensures YearOfEra(doe) == 100 * c + 4 * q + y
    ensures DayOfYear(doe) == r
  {
    DivideBy1460(doe, 25 * c + q, 24 * c + q + 365 * y + r);
    CenturyOfDay(doe, c, 1461 * q + 365 * y + r);
    YearQuotients(c, q, y);
  }

  lemma SplitYearStart(c: int, q: int, y: int)
    requires 0 <= c <= 3 && 0 <= q <= 24 && 0 <= y <= 3
    ensures YearStart(100 * c + 4 * q + y) == 36524 * c + 1461 * q + 365 * y
    ensures 0 <= 100 * c + 4 * q + y <= 399
  {
    YearQuotients(c, q, y);
  }

  lemma SplitYearLength(c: int, q: int, y: int, r: int)
    requires 0 <= c <= 3 && 0 <= q <= 24 && 0 <= y <= 3 && 0 <= r <= 365
    requires r == 365 ==> y == 3 && (q < 24 || c == 3)
    ensures r < YearLength(100 * c + 4 * q + y)
  {
    var yoe := 100 * c + 4 * q + y;
    if r == 365 {
      assert yoe + 1 == 4 * (25 * c + q + 1);
      assert q < 24 ==> yoe + 1 == 100 * c + (4 * q + 4) && (yoe + 1) % 100 == 4 * q + 4;
    }
  }

  /** Every intermediate of the conversion stays in its documented range. */
  lemma YearOfEraBounds(doe: int)
    requires 0 <= doe <= 146_096
    ensures 0 <= YearOfEra(doe) <= 399
    ensures 0 <= DayOfYear(doe) < YearLength(YearOfEra(doe))
    ensures doe == YearStart(YearOfEra(doe)) + DayOfYear(doe)
  {
    var c, q, y, r := SplitDay(doe);
    YearOfSplitDay(doe, c, q, y, r);
    SplitYearStart(c, q, y);
    SplitYearLength(c, q, y, r);
  }

  lemma MonthRange(doy: int)
    requires 0 <= doy <= 365
    ensures 0 <= MonthIndex(doy) <= 11
    ensures 0 <= doy - (153 * MonthIndex(doy) + 2) / 5 <= 30
  {
  }

  /** Length of the year that starts in March of `y`. */
  function MarchLength(y: int): int { if IsLeapYear(y + 1) then 366 else 365 }

  /** Days in the years 1 to `y`; also the days from 1 March of year 0 to 1 March of `y`. */
  function DaysInYears(y: int): int { 365 * y + y / 4 - y / 100 + y / 400 }

  /** The month table, one March-based month at a time. */
  lemma MonthStep(doy: int)
    requires 0 <= doy <= 364
    ensures var mp := MonthIndex(doy);
            var d := doy - (153 * mp + 2) / 5 + 1;
            var len := if mp == 1 || mp == 3 || mp == 6 || mp == 8 then 30 else 31;
            if mp < 11 && d == len
            then MonthIndex(doy + 1) == mp + 1 && doy + 1 == (153 * (mp + 1) + 2) / 5
            else MonthIndex(doy + 1) == mp && d + 1 <= len
  {
  }

  /** The month formula advances exactly as the calendar does, within a year and across its end. */
  lemma MarchDateStep(y: int, doy: int)
    requires 0 <= doy < MarchLength(y)
    ensures NextDay(MarchDate(y, doy)) ==
              if doy + 1 < MarchLength(y) then MarchDate(y, doy + 1) else MarchDate(y + 1, 0)
  {
    MonthRange(doy);
    if doy + 1 < MarchLength(y) { MonthStep(doy); }
  }

  lemma ShiftByEras(era: int, y: int)
    ensures (y + 400 * era) / 4 == y / 4 + 100 * era && (y + 400 * era) % 4 == y % 4
    ensures (y + 400 * era) / 100 == y / 100 + 4 * era && (y + 400 * era) % 100 == y % 100
    ensures (y + 400 * era) / 400 == y / 400 + era && (y + 400 * era) % 400 == y % 400
  {
  }

  lemma EraYear(era: int, y: int)
    requires 0 <= y <= 399
    ensures DaysInYears(y + 400 * era) == YearStart(y) + 146_097 * era
    ensures MarchLength(y + 400 * era) == YearLength(y)
  {
    ShiftByEras(era, y);
    ShiftByEras(era, y + 1);
  }

  lemma Quotient4Step(y: int)
    ensures (y + 1) / 4 == if (y + 1) % 4 == 0 then y / 4 + 1 else y / 4
  {
  }

  lemma Quotient100Step(y: int)
    ensures (y + 1) / 100 == if (y + 1) % 100 == 0 then y / 100 + 1 else y / 100
    ensures (y + 1) % 100 == 0 ==> (y + 1) % 4 == 0
  {
  }

  lemma Quotient400Step(y: int)
    ensures (y + 1) / 400 == if (y + 1) % 400 == 0 then y / 400 + 1 else y / 400
    ensures (y + 1) % 400 == 0 ==> (y + 1) % 100 == 0
  {
  }

  lemma DaysInYearsStep(y: int)
    ensures DaysInYears(y + 1) == DaysInYears(y) + MarchLength(y)
  {
    Quotient4Step(y);
    Quotient100Step(y);
    Quotient400Step(y);
  }

  lemma {:induction false} MarchYearsDisjoint(y: int, y': int)
    requires y < y'
    ensures DaysInYears(y) + MarchLength(y) <= DaysInYears(y')
    decreases y' - y
  {
    DaysInYearsStep(y);
    if y + 1 < y' { MarchYearsDisjoint(y + 1, y'); }
  }

  lemma MarchUnique(y: int, doy: int, y': int, doy': int)
    requires 0 <= doy < MarchLength(y) && 0 <= doy' < MarchLength(y')
    requires DaysInYears(y) + doy == DaysInYears(y') + doy'
    ensures y == y' && doy == doy'
  {
    if y < y' { MarchYearsDisjoint(y, y'); }
    if y' < y { MarchYearsDisjoint(y', y); }
  }

  lemma CoordinatesInRange(z: int, era: int, doe: int)
    requires z == era * 146_097 + doe && 0 <= doe <= 146_096
    ensures 0 <= DayOfYear(doe) < MarchLength(YearOfEra(doe) + era * 400)
    ensures DaysInYears(YearOfEra(doe) + era * 400) + DayOfYear(doe) == z
  {
    YearOfEraBounds(doe);
    EraYear(era, YearOfEra(doe));
  }

  lemma CivilUnfolds(days: int, z: int)
    requires z == days + 719_468
    ensures CivilFromDays(days) == CivilOf(Era(z), z - Era(z) * 146_097)
  {
  }

  lemma EraSplit(days: int) returns (era: int, doe: int)
    ensures days + 719_468 == era * 146_097 + doe && 0 <= doe <= 146_096
    ensures CivilFromDays(days) == CivilOf(era, doe)
  {
    EraBounds(days + 719_468);
    CivilUnfolds(days, days + 719_468);
    era := Era(days + 719_468);
    doe := days + 719_468 - era * 146_097;
  }

  lemma DateCoordinates(date: Date, z: int, era: int, doe: int) returns (y: int, doy: int)
    requires z == era * 146_097 + doe && 0 <= doe <= 146_096
    requires date == CivilOf(era, doe)
    ensures date == MarchDate(y, doy)
    ensures 0 <= doy < MarchLength(y)
    ensures DaysInYears(y) + doy == z
  {
    CoordinatesInRange(z, era, doe);
    y, doy := YearOfEra(doe) + era * 400, DayOfYear(doe);
  }

  /** The March-based year and day computed for a day number are in range and sit at that day. */
  lemma MarchCoordinates(days: int) returns (y: int, doy: int)
    ensures CivilFromDays(days) == MarchDate(y, doy)
    ensures 0 <= doy < MarchLength(y)
    ensures DaysInYears(y) + doy == days + 719_468
  {
    var era, doe := EraSplit(days);
    y, doy := DateCoordinates(CivilFromDays(days), days + 719_468, era, doe);
  }

  lemma ConsecutiveMarchDates(y: int, doy: int, y': int, doy': int)
    requires 0 <= doy < MarchLength(y) && 0 <= doy' < MarchLength(y')
    requires DaysInYears(y') + doy' == DaysInYears(y) + doy + 1
    ensures MarchDate(y', doy') == NextDay(MarchDate(y, doy))
  {
    MarchDateStep(y, doy);
    DaysInYearsStep(y);
    if doy + 1 < MarchLength(y) {
      MarchUnique(y, doy + 1, y', doy');
    } else {
      MarchUnique(y + 1, 0, y', doy');
    }
  }

  /** One more day in is one calendar day later out, across month, year and era ends, for every day number. */
  lemma CivilStep(days: int, next: int)
    requires next == days + 1
    ensures CivilFromDays(next) == NextDay(CivilFromDays(days))
  {
    var y, doy := MarchCoordinates(days);
    var y', doy' := MarchCoordinates(next);
    ConsecutiveMarchDates(y, doy, y', doy');
  }

  lemma CivilEpoch()
    ensures CivilFromDays(0) == EPOCH
  {
    assert Era(719_468) == 4;
  }

  lemma CountStep(days: nat)
    requires days > 0 && CivilFromDays(days - 1) == DateAfter(days - 1)
    ensures CivilFromDays(days) == DateAfter(days)
  {
    CivilStep(days - 1, days);
  }

  /** The division formula is day-by-day counting. */
  lemma {:induction false} CivilIsDayCount(days: nat)
    ensures CivilFromDays(days) == DateAfter(days)
  {
    if days == 0 {
      CivilEpoch();
    } else {
      CivilIsDayCount(days - 1);
      CountStep(days);
    }
  }

  lemma {:induction false} CountedDatesValid(n: nat)
    ensures ValidDate(DateAfter(n)) && DateAfter(n).year >= 1970
  {
    if n > 0 { CountedDatesValid(n - 1); }
  }

  lemma DayOfEraRanges(doe: int)
    requires 0 <= doe <= 146_096
    ensures 0 <= YearOfEra(doe) <= 399
    ensures 0 <= DayOfYear(doe) <= 365
    ensures 0 <= MonthIndex(DayOfYear(doe)) <= 11
  {
    YearOfEraBounds(doe);
    YearLengthBound(YearOfEra(doe));
    MonthRange(DayOfYear(doe));
  }

  lemma YearLengthBound(y: int)
    ensures YearLength(y) <= 366
  {
  }

  lemma EraRanges(z: int)
    ensures var doe := z - Era(z) * 146_097;
            && 0 <= doe <= 146_096
            && 0 <= YearOfEra(doe) <= 399
            && 0 <= DayOfYear(doe) <= 365
            && 0 <= MonthIndex(DayOfYear(doe)) <= 11
  {
    EraBounds(z);
    DayOfEraRanges(z - Era(z) * 146_097);
  }

  /** Every intermediate of the conversion stays in range. */
  lemma IntermediatesInRange(days: nat)
    ensures var z := days + 719_468;
            var doe := z - Era(z) * 146_097;
            && 0 <= doe <= 146_096
            && 0 <= YearOfEra(doe) <= 399
            && 0 <= DayOfYear(doe) <= 365
            && 0 <= MonthIndex(DayOfYear(doe)) <= 11
    ensures ValidDate(CivilFromDays(days))
  {
    EraRanges(days + 719_468);
    ComputedDateValid(days);
  }

  lemma ComputedDateValid(days: nat)
    ensures ValidDate(CivilFromDays(days))
  {
    CivilIsDayCount(days);
    CountedDatesValid(days);
  }

  // ---- the inverse and the order of dates ----

  function DaysBeforeMonth(y: int, m: int): int
    decreases m
  {
    if m <= 1 then 0 else DaysBeforeMonth(y, m - 1) + DaysInMonth(y, m - 1)
  }

  /** Days from 1970-01-01 to a date, summed up from years, months and days. */
  function DaysFromCivil(d: Date): int {
    DaysInYears(d.year - 1) + DaysBeforeMonth(d.year, d.month) + d.day - 1 - 719_162
  }

  lemma MonthsOfYear(y: int)
    ensures DaysBeforeMonth(y, 12) + 31 == MarchLength(y - 1)
  {
    assert DaysBeforeMonth(y, 4) == DaysBeforeMonth(y, 3) + 31;
    assert DaysBeforeMonth(y, 3) == DaysBeforeMonth(y, 2) + DaysInMonth(y, 2);
    assert DaysBeforeMonth(y, 7) == DaysBeforeMonth(y, 6) + 30 == DaysBeforeMonth(y, 5) + 61
      == DaysBeforeMonth(y, 4) + 91;
    assert DaysBeforeMonth(y, 10) == DaysBeforeMonth(y, 9) + 30 == DaysBeforeMonth(y, 8) + 61
      == DaysBeforeMonth(y, 7) + 92;
    assert DaysBeforeMonth(y, 12) == DaysBeforeMonth(y, 11) + 30 == DaysBeforeMonth(y, 10) + 61;
  }

  lemma DaysFromNewYear(y: int)
    ensures DaysFromCivil(Date(y + 1, 1, 1)) == DaysFromCivil(Date(y, 12, 31)) + 1
  {
    MonthsOfYear(y);
    DaysInYearsStep(y - 1);
    assert DaysBeforeMonth(y + 1, 1) == 0;
  }

  lemma DaysFromNextDay(d: Date)
    requires ValidDate(d)
    ensures DaysFromCivil(NextDay(d)) == DaysFromCivil(d) + 1
  {
    if d.day < DaysInMonth(d.year, d.month) {
    } else if d.month < 12 {
      assert DaysBeforeMonth(d.year, d.month + 1) == DaysBeforeMonth(d.year, d.month) + d.day;
    } else {
      DaysFromNewYear(d.year);
    }
  }

  lemma EpochIsDayZero()
    ensures DaysFromCivil(EPOCH) == 0
  {
    assert DaysInYears(1969) == 719_162;
  }

  /** Counting the days of a computed date gives the day number back. */
  lemma {:induction false} DaysFromDateAfter(n: nat)
    ensures DaysFromCivil(DateAfter(n)) == n
  {
    if n == 0 {
      EpochIsDayZero();
    } else {
      DaysFromDateAfter(n - 1);
      CountedDatesValid(n - 1);
      DaysFromNextDay(DateAfter(n - 1));
      NextCounted(n);
    }
  }

  lemma NextCounted(n: nat)
    requires n > 0
    ensures DateAfter(n) == NextDay(DateAfter(n - 1))
  {
  }

  predicate Earlier(a: Date, b: Date) {
    || a.year < b.year
    || (a.year == b.year && (a.month < b.month || (a.month == b.month && a.day < b.day)))
  }

  lemma {:induction false} MonthsDisjoint(y: int, m: int, m': int)
    requires 1 <= m < m'
    ensures DaysBeforeMonth(y, m) + DaysInMonth(y, m) <= DaysBeforeMonth(y, m')
    decreases m' - m
  {
    if m + 1 < m' { MonthsDisjoint(y, m + 1, m'); }
  }

  lemma DayOfCalendarYear(d: Date)
    requires ValidDate(d)
    ensures 0 <= DaysBeforeMonth(d.year, d.month) + d.day - 1 < MarchLength(d.year - 1)
  {
    MonthsOfYear(d.year);
    if 1 < d.month { MonthsDisjoint(d.year, 1, d.month); }
    if d.month < 12 { MonthsDisjoint(d.year, d.month, 12); }
  }

  lemma EarlierYearCountsLess(a: Date, b: Date)
    requires DaysBeforeMonth(a.year, a.month) + a.day - 1 < MarchLength(a.year - 1)
    requires 0 <= DaysBeforeMonth(b.year, b.month) + b.day - 1
    requires DaysInYears(a.year - 1) + MarchLength(a.year - 1) <= DaysInYears(b.year - 1)
    ensures DaysFromCivil(a) < DaysFromCivil(b)
  {
  }

  lemma EarlierCountsLess(a: Date, b: Date)
    requires ValidDate(a) && ValidDate(b) && Earlier(a, b)
    ensures DaysFromCivil(a) < DaysFromCivil(b)
  {
    if a.year < b.year {
      DayOfCalendarYear(a);
      DayOfCalendarYear(b);
      MarchYearsDisjoint(a.year - 1, b.year - 1);
      EarlierYearCountsLess(a, b);
    } else if a.month < b.month {
      MonthsDisjoint(a.year, a.month, b.month);
    }
  }

  /** The calendar order of valid dates is the order of their day numbers; distinct dates have distinct numbers. */
  lemma DateOrder(a: Date, b: Date)
    requires ValidDate(a) && ValidDate(b)
    ensures Earlier(a, b) <==> DaysFromCivil(a) < DaysFromCivil(b)
    ensures a == b <==> DaysFromCivil(a) == DaysFromCivil(b)
  {
    if Earlier(a, b) { EarlierCountsLess(a, b); }
    if Earlier(b, a) { EarlierCountsLess(b, a); }
  }

  /** The conversion and day counting undo each other, in both directions. */
  lemma CivilInverse(days: nat, d: Date)
    requires ValidDate(d)
    ensures DaysFromCivil(CivilFromDays(days)) == days
    ensures CivilFromDays(days) == d <==> days == DaysFromCivil(d)
  {
    CivilIsDayCount(days);
    DaysFromDateAfter(days);
    CountedDatesValid(days);
    DateOrder(DateAfter(days), d);
  }

  // ---- the date text ----

  lemma FormatIsFixed(d: Date)
    requires ValidDate(d) && 0 <= d.year <= 9999
    ensures FormatDate(d) ==
              FixedDigits(d.year, 4, 10) + "-" + FixedDigits(d.month, 2, 10) + "-" + FixedDigits(d.day, 2, 10)
    ensures |FormatDate(d)| == 10 && FormatDate(d)[4] == '-' && FormatDate(d)[7] == '-'
    ensures Fits(d.year, 4, 10) && Fits(d.month, 2, 10) && Fits(d.day, 2, 10)
  {
    PaddedIsFixed(d.year, 4, 10);
    PaddedIsFixed(d.month, 2, 10);
    PaddedIsFixed(d.day, 2, 10);
  }

  /** Three fields with dashes between them compare field by field. */
  lemma LessFields(ya: string, ma: string, da: string, yb: string, mb: string, db: string)
    requires |ya| == |yb| && |ma| == |mb|
    ensures Less(ya + "-" + ma + "-" + da, yb + "-" + mb + "-" + db) <==>
              Less(ya, yb) || (ya == yb && (Less(ma, mb) || (ma == mb && Less(da, db))))
  {
    assert ya + "-" + ma + "-" + da == ya + ("-" + (ma + ("-" + da)));
    assert yb + "-" + mb + "-" + db == yb + ("-" + (mb + ("-" + db)));
    LessPrefix(ya, yb, "-" + (ma + ("-" + da)), "-" + (mb + ("-" + db)));
    LessPrefix("-", "-", ma + ("-" + da), mb + ("-" + db));
    LessPrefix(ma, mb, "-" + da, "-" + db);
    LessPrefix("-", "-", da, db);
    LessSame("-");
  }

  lemma LessSame(s: string)
    requires |s| == 1
    ensures !Less(s, s)
  {
    assert s[1..] == "";
  }

  lemma FormatOrder(a: Date, b: Date)
    requires ValidDate(a) && ValidDate(b) && 0 <= a.year <= 9999 && 0 <= b.year <= 9999
    ensures Less(FormatDate(a), FormatDate(b)) <==> Earlier(a, b)
  {
    FormatIsFixed(a);
    FormatIsFixed(b);
    FixedOrder(a.year, b.year, 4);
    FixedOrder(a.month, b.month, 2);
    FixedOrder(a.day, b.day, 2);
    LessFields(FixedDigits(a.year, 4, 10), FixedDigits(a.month, 2, 10), FixedDigits(a.day, 2, 10),
               FixedDigits(b.year, 4, 10), FixedDigits(b.month, 2, 10), FixedDigits(b.day, 2, 10));
  }

  /** The first day, and the first second, whose year needs five digits. */
  const DAY_10000: nat := 2_932_897
  const YEAR_10000: nat := 253_402_300_800

  lemma DaysAround10000()
    ensures DaysFromCivil(Date(9999, 12, 31)) == DAY_10000 - 1
    ensures DaysFromCivil(Date(10000, 1, 1)) == DAY_10000
  {
    DaysFromNewYear(9999);
    assert DaysInYears(9999) == 3_652_059;
  }

  lemma SecondsBefore10000(secs: nat)
    ensures secs < YEAR_10000 <==> secs / 86400 < DAY_10000
  {
  }

  lemma FourDigitYears(secs: nat)
    ensures CivilFromDays(secs / 86400) == DateAfter(secs / 86400)
    ensures ValidDate(DateAfter(secs / 86400)) && DateAfter(secs / 86400).year >= 1970
    ensures DateAfter(secs / 86400).year <= 9999 <==> secs < YEAR_10000
  {
    var n := secs / 86400;
    CivilIsDayCount(n);
    CountedDatesValid(n);
    DaysFromDateAfter(n);
    DaysAround10000();
    SecondsBefore10000(secs);
    NewYearDecides(DateAfter(n), n);
  }

  lemma NewYearDecides(d: Date, n: nat)
    requires ValidDate(d) && DaysFromCivil(d) == n && DaysFromCivil(Date(10000, 1, 1)) == DAY_10000
    ensures d.year <= 9999 <==> n < DAY_10000
  {
    DateOrder(d, Date(10000, 1, 1));
  }

  /** Before the year 10000, date texts have ten characters and sort exactly as the days of their timestamps. */
  lemma DateTextSorts(secs: nat, secs': nat)
    requires secs < YEAR_10000 && secs' < YEAR_10000
    ensures Less(YmdFromUnix(secs), YmdFromUnix(secs')) <==> secs / 86400 < secs' / 86400
    ensures |YmdFromUnix(secs)| == 10
  {
    var n, n' := secs / 86400, secs' / 86400;
    FourDigitYears(secs);
    FourDigitYears(secs');
    DaysFromDateAfter(n);
    DaysFromDateAfter(n');
    DateOrder(DateAfter(n), DateAfter(n'));
    FormatOrder(DateAfter(n), DateAfter(n'));
    FormatIsFixed(DateAfter(n));
  }

  lemma DayNamed(n: nat, d: Date)
    requires ValidDate(d) && DaysFromCivil(d) == n
    ensures CivilFromDays(n) == d
  {
    CivilInverse(n, d);
  }

  lemma NewYear10000()
    ensures CivilFromDays(DAY_10000) == Date(10000, 1, 1)
    ensures CivilFromDays(DAY_10000 - 1) == Date(9999, 12, 31)
  {
    DaysAround10000();
    DayNamed(DAY_10000, Date(10000, 1, 1));
    DayNamed(DAY_10000 - 1, Date(9999, 12, 31));
  }

  lemma FirstCharacters()
    ensures FormatDate(Date(9999, 12, 31))[0] == '9' && FormatDate(Date(10000, 1, 1))[0] == '1'
  {
    assert Numeral(9999, 10) == "9999";
    assert Numeral(10000, 10) == "10000";
  }

  lemma FirstCharacterDecides(a: string, b: string)
    requires a != "" && b != "" && a[0] > b[0]
    ensures !Less(a, b)
  {
  }

  /** The text of a five-digit year sorts before the day that precedes it. */
  lemma TextBreaksAt10000()
    ensures !Less(YmdFromUnix(YEAR_10000 - 1), YmdFromUnix(YEAR_10000))
  {
    NewYear10000();
    assert YEAR_10000 / 86400 == DAY_10000 && (YEAR_10000 - 1) / 86400 == DAY_10000 - 1;
    FirstCharacters();
    FirstCharacterDecides(FormatDate(Date(9999, 12, 31)), FormatDate(Date(10000, 1, 1)));
  }

  ghost predicate SortsRight(secs: nat, secs': nat) {
    Less(YmdFromUnix(secs), YmdFromUnix(secs')) <==> secs / 86400 < secs' / 86400
  }

  /** Date texts sort as their days for all timestamps up to a bound if and only if the bound lies before the year 10000. */
  lemma DateTextSortsUpTo(bound: nat)
    ensures (forall secs: nat, secs': nat :: secs <= bound && secs' <= bound ==> SortsRight(secs, secs')) <==> bound < YEAR_10000
  {
    if bound < YEAR_10000 {
      forall secs: nat, secs': nat | secs <= bound && secs' <= bound
        ensures SortsRight(secs, secs')
      {
        DateTextSorts(secs, secs');
      }
    } else {
      TextBreaksAt10000();
      assert !SortsRight(YEAR_10000 - 1, YEAR_10000);
    }
  }

  /** The text names the day reached by counting: its year, then month and day as two digits each, between dashes. */
  lemma DateTextReads(secs: nat) returns (year: string, month: string, day: string)
    ensures YmdFromUnix(secs) == year + "-" + month + "-" + day
    ensures |year| >= 4 && |month| == |day| == 2
    ensures DateAfter(secs / 86400) == Date(ValueOf(year, 10), ValueOf(month, 10), ValueOf(day, 10))
  {
    CivilIsDayCount(secs / 86400);
    CountedDatesValid(secs / 86400);
    year, month, day := DateReads(DateAfter(secs / 86400));
  }

  lemma DateReads(d: Date) returns (year: string, month: string, day: string)
    requires ValidDate(d) && d.year >= 0
    ensures FormatDate(d) == year + "-" + month + "-" + day
    ensures |year| >= 4 && |month| == |day| == 2
    ensures d == Date(ValueOf(year, 10), ValueOf(month, 10), ValueOf(day, 10))
  {
    year, month, day := Padded(d.year, 4, 10), Padded(d.month, 2, 10), Padded(d.day, 2, 10);
    PaddedValue(d.year, 4, 10);
    TwoDigits(d.month);
    TwoDigits(d.day);
  }

  lemma TwoDigits(n: nat)
    requires n < 100
    ensures |Padded(n, 2, 10)| == 2 && ValueOf(Padded(n, 2, 10), 10) == n
  {
    PaddedValue(n, 2, 10);
    assert Fits(n, 2, 10);
    PaddedIsFixed(n, 2, 10);
  }

  /** 1_777_708_800 seconds after the epoch fall on the second of May 2026. */
  lemma SecondOfMay2026()
    ensures CivilFromDays(1_777_708_800 / 86400) == Date(2026, 5, 2)
  {
    assert 1_777_708_800 / 86400 == 20_575;
    assert Era(740_043) == 5;
    assert YearOfEra(9_558) == 26;
    assert DayOfYear(9_558) == 62;
  }
}
