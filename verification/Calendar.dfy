/** Civil dates from Unix time, as the archive poller computes them, against the
    calendar counted day by day. */
module Calendar {

  // --- the computation ---

  /** Division of machine integers: the quotient is truncated toward zero. */
  function TruncDiv(a: int, b: int): int
    requires b > 0
  {
    if a >= 0 then a / b else -((-a) / b)
  }

  const I64_MIN := -0x8000_0000_0000_0000
  const I64_MAX := 0x7FFF_FFFF_FFFF_FFFF

  type I64 = x: int | I64_MIN <= x <= I64_MAX

  /** The cast to 32 bits, which drops the high bits. */
  function AsI32(x: int): (r: int)
    ensures -0x8000_0000 <= r < 0x8000_0000
    ensures -0x8000_0000 <= x < 0x8000_0000 ==> r == x
    ensures (x - r) % 0x1_0000_0000 == 0
  {
    (x + 0x8000_0000) % 0x1_0000_0000 - 0x8000_0000
  }

  datatype Date = Date(year: int, month: int, day: int)

  /** The era of 400 years, begun in March, that a shifted day number is in. */
  function EraOf(z: int): (era: int)
    ensures era * 146_097 <= z < (era + 1) * 146_097
  {
    var numerator := if z >= 0 then z else z - 146_096;
    TruncDiv(numerator, 146_097)
  }

  /** The year of a day within its era. */
  function YearOfEra(doe: nat): nat {
    (doe - doe / 1460 + doe / 36_524 - doe / 146_096) / 365
  }

  /** The date of a day of a year that begins in March.  Only the era is a
      quotient of a possibly negative number; see `PartsStayInRange`. */
  function DateInYear(marchYear: int, doy: int): Date {
    var mp := (5 * doy + 2) / 153;
    var day := doy - (153 * mp + 2) / 5 + 1;
    var month := if mp < 10 then mp + 3 else mp - 9;
    Date(marchYear + (if month <= 2 then 1 else 0), month, day)
  }

  /** Year, month and day of a day of an era. */
  function DateOfEraDay(era: int, doe: nat): Date {
    var yoe := YearOfEra(doe);
    var doy := doe - (365 * yoe + yoe / 4 - yoe / 100);
    DateInYear(yoe + era * 400, doy)
  }

  /** Year, month and day of a day number, the year not yet cast. */
  function DateOfDay(days: int): Date {
    var z := days + 719_468;
    var era := EraOf(z);
    DateOfEraDay(era, z - era * 146_097)
  }

  datatype UtcHour = UtcHour(year: int, month: int, day: int, hour: int)

  function UtcParts(unixSecs: I64): UtcHour {
    var days := unixSecs / 86_400;
    var hour := unixSecs % 86_400 / 3600;
    OnDate(DateOfDay(days), hour)
  }

  function OnDate(date: Date, hour: int): UtcHour {
    UtcHour(AsI32(date.year), date.month, date.day, hour)
  }

  // --- the calendar ---

  predicate IsLeap(year: int) {
    year % 4 == 0 && (year % 100 != 0 || year % 400 == 0)
  }

  function DaysInMonth(year: int, month: int): int {
    if month == 2 then (if IsLeap(year) then 29 else 28)
    else if month == 4 || month == 6 || month == 9 || month == 11 then 30
    else 31
  }

  predicate IsDate(d: Date) {
    1 <= d.month <= 12 && 1 <= d.day <= DaysInMonth(d.year, d.month)
  }

  /** The following day. */
  function Tomorrow(d: Date): Date {
    if d.day < DaysInMonth(d.year, d.month) then d.(day := d.day + 1)
    else if d.month < 12 then Date(d.year, d.month + 1, 1)
    else Date(d.year + 1, 1, 1)
  }

  predicate Earlier(a: Date, b: Date) {
    || a.year < b.year
    || (a.year == b.year && (a.month < b.month || (a.month == b.month && a.day < b.day)))
  }

  // --- one day further ---

  /** The first day of a year within its era. */
  function YearStart(y: int): int
    requires 0 <= y <= 400
  {
    365 * y + y / 4 - y / 100 + y / 400
  }

  /** The length of a year that begins in March. */
  function MarchYearLength(marchYear: int): int {
    if IsLeap(marchYear + 1) then 366 else 365
  }

  lemma {:induction false} LeapRepeats(n: int, era: int)
    ensures IsLeap(n + era * 400) <==> IsLeap(n)
  {
    RemainderBy4(n, era * 100);
    RemainderBy100(n, era * 4);
    RemainderBy400(n, era);
  }

  lemma RemainderBy4(n: int, q: int)
    ensures (n + 4 * q) % 4 == n % 4
  {
  }

  lemma RemainderBy100(n: int, q: int)
    ensures (n + 100 * q) % 100 == n % 100
  {
  }

  lemma RemainderBy400(n: int, q: int)
    ensures (n + 400 * q) % 400 == n % 400
  {
  }

  lemma QuotientStep4(n: int)
    ensures n / 4 == (n - 1) / 4 + (if n % 4 == 0 then 1 else 0)
  {
  }

  lemma QuotientStep100(n: int)
    ensures n / 100 == (n - 1) / 100 + (if n % 100 == 0 then 1 else 0)
  {
  }

  lemma QuotientStep400(n: int)
    ensures n / 400 == (n - 1) / 400 + (if n % 400 == 0 then 1 else 0)
  {
  }

  lemma MultipleOf400(n: int)
    ensures n % 400 == 0 ==> n % 100 == 0
  {
  }

  lemma MultipleOf100(n: int)
    ensures n % 100 == 0 ==> n % 4 == 0
  {
  }

  lemma {:induction false} LeapDay(n: int)
    ensures n / 4 - n / 100 + n / 400 == (n - 1) / 4 - (n - 1) / 100 + (n - 1) / 400 + (if IsLeap(n) then 1 else 0)
  {
    QuotientStep4(n);
    QuotientStep100(n);
    QuotientStep400(n);
    MultipleOf400(n);
    MultipleOf100(n);
  }

  lemma {:induction false} YearStartStep(era: int, y: int)
    requires 0 <= y < 400
    ensures YearStart(y + 1) == YearStart(y) + MarchYearLength(y + era * 400)
  {
    LeapRepeats(y + 1, era);
    LeapDay(y + 1);
    assert y + era * 400 + 1 == y + 1 + era * 400;
  }

  lemma CenturyOf(c: int, n: int)
    requires 0 <= c < 4 && 0 <= n <= 36_524 && (n == 36_524 ==> c == 3)
    ensures (36_524 * c + n) / 36_524 - (36_524 * c + n) / 146_096 == c
  {
  }

  lemma LeapsBefore(q: int, r: int)
    requires 0 <= r < 1460
    ensures (1460 * q + r) / 1460 == q
  {
  }

  lemma WholeYears(years: int, d: int)
    requires 0 <= d < 365
    ensures (365 * years + d) / 365 == years
  {
  }

  /** A day of an era as century, four-year cycle, year and day. */
  lemma {:induction false} YearOfEraByParts(c: int, k: int, j: int, d: int)
    requires 0 <= c < 4 && 0 <= k < 25 && 0 <= j < 4 && 0 <= d <= 365
    requires d == 365 ==> j == 3 && (k < 24 || c == 3)
    ensures YearOfEra(36_524 * c + 1461 * k + 365 * j + d) == 100 * c + 4 * k + j
  {
    var doe := 36_524 * c + 1461 * k + 365 * j + d;
    var n := 1461 * k + 365 * j + d;
    CenturyOf(c, n);
    var q := 25 * c + k;
    var r := 24 * c + k + 365 * j + d;
    var x := if r >= 1460 then 1 else 0;
    LeapsBefore(q + x, r - 1460 * x);
    assert doe == 1460 * (q + x) + (r - 1460 * x);
    LeapsTaken(c, k, j, d, x, doe / 1460, doe / 36_524 - doe / 146_096);
    YearOfEraIs(doe, doe / 1460, doe / 36_524 - doe / 146_096, 4 * q + j, d - x);
  }

  lemma {:induction false} YearOfEraIs(doe: nat, by1460: int, centuries: int, years: int, rest: int)
    requires by1460 == doe / 1460 && centuries == doe / 36_524 - doe / 146_096
    requires doe - by1460 + centuries == 365 * years + rest && 0 <= rest < 365
    ensures YearOfEra(doe) == years
  {
    WholeYears(years, rest);
  }

  lemma LeapsTaken(c: int, k: int, j: int, d: int, x: int, by1460: int, centuries: int)
    requires by1460 == 25 * c + k + x && centuries == c
    ensures 36_524 * c + 1461 * k + 365 * j + d - by1460 + centuries == 365 * (4 * (25 * c + k) + j) + (d - x)
  {
  }

  /** A year as century, four-year cycle and year. */
  lemma {:induction false} YearByParts(y: int) returns (c: int, k: int, j: int)
    requires 0 <= y < 400
    ensures 0 <= c < 4 && 0 <= k < 25 && 0 <= j < 4 && y == 100 * c + 4 * k + j
    ensures YearStart(y) == 36_524 * c + 1461 * k + 365 * j
    ensures IsLeap(y + 1) ==> j == 3 && (k < 24 || c == 3)
  {
    c, k, j := y / 100, y % 100 / 4, y % 4;
    var r := y % 100;
    assert y == 100 * c + r && r == 4 * k + r % 4;
    assert y % 4 == r % 4 && y / 4 == 25 * c + k && y / 400 == 0;
  }

  /** The year formula finds the year a day lies in. */
  lemma {:induction false} YearOfEraFinds(y: int, doe: int)
    requires 0 <= y < 400 && YearStart(y) <= doe < YearStart(y + 1)
    ensures YearOfEra(doe) == y
    ensures y / 400 == 0
  {
    var c, k, j := YearByParts(y);
    YearStartStep(0, y);
    YearOfEraByParts(c, k, j, doe - YearStart(y));
  }

  lemma {:induction false} YearStartGrows(a: int, b: int)
    requires 0 <= a <= b <= 400
    ensures YearStart(a) <= YearStart(b)
    decreases b - a
  {
    if a < b {
      YearStartStep(0, a);
      YearStartGrows(a + 1, b);
    }
  }

  /** Every day of an era lies in a year of it. */
  lemma {:induction false} YearOfDay(doe: int, y: int) returns (r: int)
    requires 0 <= y <= 399 && YearStart(y) <= doe < 146_097
    ensures y <= r < 400 && YearStart(r) <= doe < YearStart(r + 1)
    decreases 400 - y
  {
    if doe < YearStart(y + 1) {
      r := y;
    } else {
      assert YearStart(400) == 146_097;
      r := YearOfDay(doe, y + 1);
    }
  }

  /** The date of a day of an era, once its year is known. */
  lemma {:induction false} DateOfEraDayIs(era: int, y: int, doe: int, doy: int)
    requires 0 <= y < 400 && YearStart(y) <= doe < YearStart(y + 1) && 0 <= doe && doe == YearStart(y) + doy
    ensures DateOfEraDay(era, doe) == DateInYear(y + era * 400, doy)
  {
    YearOfEraFinds(y, doe);
  }

  /** The day number of day `doy` of the March year `y` of an era. */
  function DayNumber(era: int, y: int, doy: int): int
    requires 0 <= y < 400
  {
    era * 146_097 + (YearStart(y) + doy) - 719_468
  }

  lemma {:induction false} DateByParts(era: int, y: int, doy: int)
    requires 0 <= y < 400 && 0 <= doy < MarchYearLength(y + era * 400)
    ensures DateOfDay(DayNumber(era, y, doy)) == DateInYear(y + era * 400, doy)
  {
    var doe := DayWithinEra(era, y, doy);
    DateOfEraDayIs(era, y, doe, doy);
    DayOfEra(DayNumber(era, y, doy), era, doe);
  }

  /** Day `doy` of the March year `y` as a day of the era. */
  lemma {:induction false} DayWithinEra(era: int, y: int, doy: int) returns (doe: int)
    requires 0 <= y < 400 && 0 <= doy < MarchYearLength(y + era * 400)
    ensures doe == YearStart(y) + doy && 0 <= doe < 146_097
    ensures YearStart(y) <= doe < YearStart(y + 1)
  {
    doe := YearStart(y) + doy;
    YearStartStep(era, y);
    YearStartGrows(0, y);
    YearStartGrows(y + 1, 400);
    assert YearStart(0) == 0 && YearStart(400) == 146_097;
  }

  lemma {:induction false} DayOfEra(days: int, era: int, doe: int)
    requires 0 <= doe < 146_097 && days == era * 146_097 + doe - 719_468
    ensures DateOfDay(days) == DateOfEraDay(era, doe)
  {
    EraIs(era, doe);
    assert days + 719_468 == era * 146_097 + doe;
  }

  /** The day numbers of an era are those of its own range. */
  lemma {:induction false} EraIs(era: int, doe: int)
    requires 0 <= doe < 146_097
    ensures EraOf(era * 146_097 + doe) == era
  {
    var e := EraOf(era * 146_097 + doe);
    assert e < era + 1 && era < e + 1;
  }

  /** Every day number splits into era, March year and day of it. */
  lemma {:induction false} PartsOf(days: int) returns (era: int, y: int, doy: int)
    ensures 0 <= y < 400 && 0 <= doy < MarchYearLength(y + era * 400)
    ensures days == DayNumber(era, y, doy)
  {
    var z := days + 719_468;
    era := z / 146_097;
    var doe := z % 146_097;
    y := YearOfDay(doe, 0);
    YearStartStep(era, y);
    doy := doe - YearStart(y);
  }

  lemma {:induction false} DateIsValid(marchYear: int, doy: int)
    requires 0 <= doy < MarchYearLength(marchYear)
    ensures IsDate(DateInYear(marchYear, doy))
  {
  }

  lemma {:induction false} NextDayFollows(marchYear: int, doy: int)
    requires 0 <= doy && doy + 1 < MarchYearLength(marchYear)
    ensures Tomorrow(DateInYear(marchYear, doy)) == DateInYear(marchYear, doy + 1)
  {
  }

  lemma {:induction false} LastOfFebruary(marchYear: int)
    ensures Tomorrow(DateInYear(marchYear, MarchYearLength(marchYear) - 1)) == DateInYear(marchYear + 1, 0)
  {
  }

  /** Within a March year the dates run on, and its last day is the last of
      February. */
  lemma {:induction false} DatesRunOn(marchYear: int, doy: int)
    requires 0 <= doy < MarchYearLength(marchYear)
    ensures IsDate(DateInYear(marchYear, doy))
    ensures doy + 1 < MarchYearLength(marchYear) ==>
              Tomorrow(DateInYear(marchYear, doy)) == DateInYear(marchYear, doy + 1)
    ensures doy + 1 == MarchYearLength(marchYear) ==>
              Tomorrow(DateInYear(marchYear, doy)) == DateInYear(marchYear + 1, 0)
  {
    DateIsValid(marchYear, doy);
    if doy + 1 < MarchYearLength(marchYear) {
      NextDayFollows(marchYear, doy);
    } else {
      LastOfFebruary(marchYear);
    }
  }

  // --- from March years to the calendar ---

  /** `f` gives a day of a March year the date `g` gives it. */
  predicate AgreesAt(f: int -> Date, g: (int, int) -> Date, era: int, y: int, doy: int) {
    0 <= y < 400 && 0 <= doy < MarchYearLength(y + era * 400) ==>
      f(DayNumber(era, y, doy)) == g(y + era * 400, doy)
  }

  ghost predicate AgreesByParts(f: int -> Date, g: (int, int) -> Date) {
    forall era, y, doy :: AgreesAt(f, g, era, y, doy)
  }

  /** The dates of `g` run on from a day of a March year to the next day. */
  predicate RunsOnAt(g: (int, int) -> Date, marchYear: int, doy: int) {
    0 <= doy < MarchYearLength(marchYear) ==>
      && IsDate(g(marchYear, doy))
      && Tomorrow(g(marchYear, doy)) == if doy + 1 < MarchYearLength(marchYear) then g(marchYear, doy + 1) else g(marchYear + 1, 0)
  }

  ghost predicate RunsOn(g: (int, int) -> Date) {
    forall marchYear, doy :: RunsOnAt(g, marchYear, doy)
  }

  /** The day numbered next, by parts. */
  lemma {:induction false} NextNumber(era: int, y: int, doy: int) returns (era': int, y': int, doy': int)
    requires 0 <= y < 400 && 0 <= doy < MarchYearLength(y + era * 400)
    ensures 0 <= y' < 400 && 0 <= doy' < MarchYearLength(y' + era' * 400)
    ensures DayNumber(era', y', doy') == DayNumber(era, y, doy) + 1
    ensures y' + era' * 400 == y + era * 400 + (if doy + 1 < MarchYearLength(y + era * 400) then 0 else 1)
    ensures doy' == if doy + 1 < MarchYearLength(y + era * 400) then doy + 1 else 0
  {
    YearStartStep(era, y);
    if doy + 1 < MarchYearLength(y + era * 400) {
      era', y', doy' := era, y, doy + 1;
    } else if y < 399 {
      era', y', doy' := era, y + 1, 0;
    } else {
      assert YearStart(400) == 146_097 && YearStart(0) == 0;
      era', y', doy' := era + 1, 0, 0;
    }
  }

  lemma {:induction false} CountsOn(f: int -> Date, g: (int, int) -> Date, days: int)
    requires AgreesByParts(f, g) && RunsOn(g)
    ensures IsDate(f(days)) && f(days + 1) == Tomorrow(f(days))
  {
    var era, y, doy := PartsOf(days);
    assert AgreesAt(f, g, era, y, doy);
    assert RunsOnAt(g, y + era * 400, doy);
    var era', y', doy' := NextNumber(era, y, doy);
    assert AgreesAt(f, g, era', y', doy');
  }

  lemma {:induction false} EpochDate()
    ensures DayNumber(4, 369, 306) == 0 && MarchYearLength(1969) == 365 && DateInYear(1969, 306) == Date(1970, 1, 1)
  {
  }

  lemma {:induction false} TheEpoch()
    ensures DateOfDay(0) == Date(1970, 1, 1)
  {
    EpochDate();
    DateByParts(4, 369, 306);
  }

  /** Counting from 1970-01-01 by whole days, forward and back. */
  ghost predicate CountsDays(f: int -> Date) {
    && f(0) == Date(1970, 1, 1)
    && (forall days :: IsDate(f(days)))
    && (forall days :: f(days + 1) == Tomorrow(f(days)))
  }

  /** Any two ways of counting days agree. */
  lemma {:induction false} CountingIsUnique(f: int -> Date, g: int -> Date, days: int)
    requires CountsDays(f) && CountsDays(g)
    ensures f(days) == g(days)
    decreases if days >= 0 then days else -days
  {
    if days > 0 {
      CountingIsUnique(f, g, days - 1);
      assert f(days - 1 + 1) == Tomorrow(f(days - 1)) && g(days - 1 + 1) == Tomorrow(g(days - 1));
    } else if days < 0 {
      CountingIsUnique(f, g, days + 1);
      assert f(days + 1) == Tomorrow(f(days)) && g(days + 1) == Tomorrow(g(days));
      OneYesterday(f(days), g(days));
    }
  }

  /** Different dates have different days after them. */
  lemma {:induction false} OneYesterday(a: Date, b: Date)
    requires IsDate(a) && IsDate(b) && Tomorrow(a) == Tomorrow(b)
    ensures a == b
  {
  }

  /** The computation is the calendar, so by `CountingIsUnique` it is the only
      one that counts days from 1970-01-01. */
  lemma {:induction false} ComputedCalendarCounts()
    ensures CountsDays(DateOfDay)
  {
    TheEpoch();
    ComputedByParts();
    ComputedRunsOn();
    forall days ensures IsDate(DateOfDay(days)) && DateOfDay(days + 1) == Tomorrow(DateOfDay(days)) {
      CountsOn(DateOfDay, DateInYear, days);
    }
  }

  lemma {:induction false} ComputedByParts()
    ensures AgreesByParts(DateOfDay, DateInYear)
  {
    forall era, y, doy ensures AgreesAt(DateOfDay, DateInYear, era, y, doy) {
      if 0 <= y < 400 && 0 <= doy < MarchYearLength(y + era * 400) {
        DateByParts(era, y, doy);
      }
    }
  }

  lemma {:induction false} ComputedRunsOn()
    ensures RunsOn(DateInYear)
  {
    forall marchYear, doy ensures RunsOnAt(DateInYear, marchYear, doy) {
      if 0 <= doy < MarchYearLength(marchYear) {
        DatesRunOn(marchYear, doy);
      }
    }
  }

  /** Later days have later dates. */
  lemma {:induction false} DatesGrow(f: int -> Date, a: int, b: int)
    requires CountsDays(f) && a < b
    ensures Earlier(f(a), f(b))
    decreases b - a
  {
    assert f(a + 1) == Tomorrow(f(a));
    if a + 1 < b {
      DatesGrow(f, a + 1, b);
    }
  }

  // --- whole timestamps ---

  const FIRST_FITTING_DAY := -784_353_015_833  // the first of January of the year -2147483648
  const FIRST_DAY_BEYOND := 784_351_576_777    // the first of January of the year 2147483648

  /** The days whose year fits 32 bits. */
  predicate YearFits(unixSecs: I64) {
    FIRST_FITTING_DAY <= unixSecs / 86_400 < FIRST_DAY_BEYOND
  }

  predicate EarlierHour(a: UtcHour, b: UtcHour) {
    || Earlier(Date(a.year, a.month, a.day), Date(b.year, b.month, b.day))
    || (a.year == b.year && a.month == b.month && a.day == b.day && a.hour < b.hour)
  }

  /** The hour of a second. */
  lemma HourOf(unixSecs: int)
    ensures var days, hour := unixSecs / 86_400, unixSecs % 86_400 / 3600;
      && 0 <= hour < 24
      && days * 86_400 + hour * 3600 <= unixSecs < days * 86_400 + (hour + 1) * 3600
  {
  }

  lemma CastIsFaithful(x: int)
    ensures AsI32(x) == x <==> -0x8000_0000 <= x < 0x8000_0000
  {
  }

  lemma {:induction false} FirstFittingDayNumber()
    ensures DayNumber(-5_368_710, 351, 306) == FIRST_FITTING_DAY && MarchYearLength(-2_147_483_649) > 306
    ensures DateInYear(-2_147_483_649, 306) == Date(-2_147_483_648, 1, 1)
  {
  }

  lemma {:induction false} FirstFittingDayIs()
    ensures DateOfDay(FIRST_FITTING_DAY) == Date(-2_147_483_648, 1, 1)
  {
    FirstFittingDayNumber();
    DateByParts(-5_368_710, 351, 306);
  }

  lemma {:induction false} FirstDayBeyondNumber()
    ensures DayNumber(5_368_709, 47, 306) == FIRST_DAY_BEYOND && MarchYearLength(2_147_483_647) > 306
    ensures DateInYear(2_147_483_647, 306) == Date(2_147_483_648, 1, 1)
  {
  }

  lemma {:induction false} FirstDayBeyondIs()
    ensures DateOfDay(FIRST_DAY_BEYOND) == Date(2_147_483_648, 1, 1)
  {
    FirstDayBeyondNumber();
    DateByParts(5_368_709, 47, 306);
  }

  /** Days before a first of January lie in earlier years, the others do not. */
  lemma {:induction false} NewYearDivides(f: int -> Date, newYear: int, days: int)
    requires CountsDays(f) && f(newYear).month == 1 && f(newYear).day == 1
    ensures days < newYear <==> f(days).year < f(newYear).year
  {
    if days < newYear {
      DatesGrow(f, days, newYear);
      assert IsDate(f(days));
    } else if newYear < days {
      DatesGrow(f, newYear, days);
    }
  }

  /** The bounds on the day number are the bounds on the year. */
  lemma {:induction false} YearFitsByDay(f: int -> Date, days: int)
    requires CountsDays(f)
    ensures FIRST_FITTING_DAY <= days < FIRST_DAY_BEYOND <==> -0x8000_0000 <= f(days).year < 0x8000_0000
  {
    ComputedCalendarCounts();
    CountingIsUnique(f, DateOfDay, FIRST_FITTING_DAY);
    CountingIsUnique(f, DateOfDay, FIRST_DAY_BEYOND);
    FirstFittingDayIs();
    FirstDayBeyondIs();
    NewYearDivides(f, FIRST_FITTING_DAY, days);
    NewYearDivides(f, FIRST_DAY_BEYOND, days);
  }

  /** Every second belongs to the hour it is in: the fields are in range, and
      they name the date that counting days from 1970-01-01 gives, up to multiples
      of 2^32 in the year, and exactly when the day lies between the bounds. */
  lemma {:induction false} UtcPartsAreRight(f: int -> Date, unixSecs: I64)
    requires CountsDays(f)
    ensures
      var u := UtcParts(unixSecs);
      && 0 <= u.hour < 24 && 1 <= u.month <= 12 && 1 <= u.day <= 31
      && unixSecs / 86_400 * 86_400 + u.hour * 3600 <= unixSecs < unixSecs / 86_400 * 86_400 + (u.hour + 1) * 3600
      && (Date(u.year, u.month, u.day) == f(unixSecs / 86_400) <==> YearFits(unixSecs))
      && u.month == f(unixSecs / 86_400).month && u.day == f(unixSecs / 86_400).day
      && (f(unixSecs / 86_400).year - u.year) % 0x1_0000_0000 == 0
  {
    var days := unixSecs / 86_400;
    HourOf(unixSecs);
    ComputedCalendarCounts();
    CountingIsUnique(f, DateOfDay, days);
    CastIsFaithful(f(days).year);
    YearFitsByDay(f, days);
    assert IsDate(f(days));
  }

  lemma OnDateIsMonotone(a: Date, h: int, b: Date, k: int)
    requires Earlier(a, b) || (a == b && h <= k)
    requires AsI32(a.year) == a.year && AsI32(b.year) == b.year
    ensures OnDate(a, h) == OnDate(b, k) || EarlierHour(OnDate(a, h), OnDate(b, k))
  {
  }

  /** Later seconds are never in an earlier hour. */
  lemma {:induction false} UtcPartsAreMonotone(a: I64, b: I64)
    requires a <= b && YearFits(a) && YearFits(b)
    ensures UtcParts(a) == UtcParts(b) || EarlierHour(UtcParts(a), UtcParts(b))
  {
    ComputedCalendarCounts();
    YearFitsByDay(DateOfDay, a / 86_400);
    YearFitsByDay(DateOfDay, b / 86_400);
    TimesAreMonotone(DateOfDay, a, b);
  }

  lemma {:induction false} TimesAreMonotone(f: int -> Date, a: int, b: int)
    requires CountsDays(f) && a <= b
    requires -0x8000_0000 <= f(a / 86_400).year < 0x8000_0000 && -0x8000_0000 <= f(b / 86_400).year < 0x8000_0000
    ensures
      var x, y := OnDate(f(a / 86_400), a % 86_400 / 3600), OnDate(f(b / 86_400), b % 86_400 / 3600);
      x == y || EarlierHour(x, y)
  {
    var p, q := a / 86_400, b / 86_400;
    CastIsFaithful(f(p).year);
    CastIsFaithful(f(q).year);
    HourOf(a);
    HourOf(b);
    if p < q {
      DatesGrow(f, p, q);
    }
    OnDateIsMonotone(f(p), a % 86_400 / 3600, f(q), b % 86_400 / 3600);
  }

  predicate InI64(x: int) {
    I64_MIN <= x <= I64_MAX
  }

  /** The quantities of the computation stay in their ranges, and none leaves
      the 64 bits, on the whole range of timestamps. */
  lemma {:induction false} PartsStayInRange(unixSecs: I64)
    ensures
      var z := unixSecs / 86_400 + 719_468;
      var era := EraOf(z);
      var doe := z - era * 146_097;
      var yoe := YearOfEra(doe);
      && InI64(z) && InI64(z - 146_096) && InI64(era * 146_097) && InI64(era * 400 + yoe + 1)
      && 0 <= doe < 146_097 && 0 <= yoe < 400
      && 0 <= doe - (365 * yoe + yoe / 4 - yoe / 100) <= 365
  {
    var z := unixSecs / 86_400 + 719_468;
    var era := EraOf(z);
    var doe := z - era * 146_097;
    var y := YearOfDay(doe, 0);
    YearStartStep(0, y);
    YearOfEraFinds(y, doe);
  }
}
