/** Day numbers and calendar dates, as both hooks compute them for their logs and records. */
module Calendar {

  datatype Date = Date(year: int, month: int, day: int)

  /** Leap rule of RFC 3339, Appendix C. */
  predicate IsLeap(y: int) {
    y % 4 == 0 && (y % 100 != 0 || y % 400 == 0)
  }

  /** Month lengths of RFC 3339, section 5.7. */
  function DaysInMonth(y: int, m: int): int {
    if m == 2 then (if IsLeap(y) then 29 else 28)
    else if m == 4 || m == 6 || m == 9 || m == 11 then 30
    else 31
  }

  predicate Valid(c: Date) {
    1 <= c.month <= 12 && 1 <= c.day <= DaysInMonth(c.year, c.month)
  }

  function NextDay(c: Date): Date {
    if c.day < DaysInMonth(c.year, c.month) then c.(day := c.day + 1)
    else if c.month < 12 then Date(c.year, c.month + 1, 1)
    else Date(c.year + 1, 1, 1)
  }

  function DaysBeforeYear(y: int): int {
    365 * (y - 1) + (y - 1) / 4 - (y - 1) / 100 + (y - 1) / 400
  }

  function DaysBeforeMonth(y: int, m: int): int
    decreases m
  {
    if m <= 1 then 0 else DaysBeforeMonth(y, m - 1) + DaysInMonth(y, m - 1)
  }

  /** Days from 1970-01-01 in the proleptic Gregorian calendar. */
  function DayNumber(c: Date): int {
    DaysBeforeYear(c.year) + DaysBeforeMonth(c.year, c.month) + c.day - 1 - DaysBeforeYear(1970)
  }

  /** Rust's `/` on signed integers. */
  function TruncDiv(a: int, b: int): int
    requires b > 0
  {
    if a >= 0 then a / b else -(-a / b)
  }

  function CivilFromDays(days: int): Date {
    var z := days + 719_468;
    CivilFromEra(Era(z), z - Era(z) * 146_097)
  }

  /** The era, rounded down for either sign. */
  function Era(z: int): int {
    TruncDiv(if z >= 0 then z else z - 146_096, 146_097)
  }

  /** The lines that both hooks share, once the era is fixed. */
  function CivilFromEra(era: int, doe: int): Date {
    var yoe := TruncDiv(doe - TruncDiv(doe, 1460) + TruncDiv(doe, 36_524) - TruncDiv(doe, 146_096), 365);
    var y := yoe + era * 400;
    var doy := doe - (365 * yoe + TruncDiv(yoe, 4) - TruncDiv(yoe, 100));
    var mp := TruncDiv(5 * doy + 2, 153);
    var d := doy - TruncDiv(153 * mp + 2, 5) + 1;
    var m := mp + if mp < 10 then 3 else -9;
    Date(y + if m <= 2 then 1 else 0, m, d)
  }

  function YearOfEra(doe: int): int {
    (doe - doe / 1460 + doe / 36_524 - doe / 146_096) / 365
  }

  /** Days of the era before 1 March of its year `yoe`. */
  function MarchStart(yoe: int): int {
    365 * yoe + yoe / 4 - yoe / 100
  }

  /** Century, leap cycle, year and day within an era determine its year number. */
  lemma YearOfEraParts(c: int, q: int, r: int, t: int)
    requires 0 <= c <= 3 && 0 <= q <= 24 && 0 <= r <= 3 && 0 <= t <= 365
    requires t == 365 ==> r == 3 && (q < 24 || c == 3)
    ensures YearOfEra(36_524 * c + 1461 * q + 365 * r + t) == 100 * c + 4 * q + r
  {
    var doe := 36_524 * c + 1461 * q + 365 * r + t;
    var low := 24 * c + q + 365 * r + t;
    var e := if low >= 1460 then 1 else 0;
    assert doe / 1460 == 25 * c + q + e by {
      assert doe == 1460 * (25 * c + q + e) + (low - 1460 * e);
    }
    var last := if doe == 146_096 then 1 else 0;
    assert doe / 36_524 == c + last && doe / 146_096 == last;
    assert doe - doe / 1460 + doe / 36_524 - doe / 146_096 == 365 * (100 * c + 4 * q + r) + (t - e);
  }

  lemma EraParts(doe: int) returns (c: int, q: int, r: int, t: int)
    requires 0 <= doe < 146_097
    ensures 0 <= c <= 3 && 0 <= q <= 24 && 0 <= r <= 3 && 0 <= t <= 365
    ensures t == 365 ==> r == 3 && (q < 24 || c == 3)
    ensures doe == 36_524 * c + 1461 * q + 365 * r + t
  {
    c := if doe < 36_524 then 0 else if doe < 73_048 then 1 else if doe < 109_572 then 2 else 3;
    var doc := doe - 36_524 * c;
    q := doc / 1461;
    var doq := doc - 1461 * q;
    r := if doq < 365 then 0 else if doq < 730 then 1 else if doq < 1095 then 2 else 3;
    t := doq - 365 * r;
  }

  lemma MarchStartParts(c: int, q: int, r: int)
    requires 0 <= c <= 3 && 0 <= q <= 24 && 0 <= r <= 3
    ensures MarchStart(100 * c + 4 * q + r) == 36_524 * c + 1461 * q + 365 * r
  {
    var y := 100 * c + 4 * q + r;
    assert y / 4 == 25 * c + q by { assert y == 4 * (25 * c + q) + r; }
    assert y / 100 == c by { assert y == 100 * c + (4 * q + r); }
  }

  /** Days of a year that starts in March before its month `mp`. */
  function MarchMonthStart(mp: int): int {
    (153 * mp + 2) / 5
  }

  lemma MonthAndDay(t: int)
    requires 0 <= t <= 365
    ensures var mp := (5 * t + 2) / 153; var d := t - MarchMonthStart(mp) + 1;
            && 0 <= mp <= 11
            && 1 <= d <= (if mp == 11 then 29 else if mp in {1, 3, 6, 8} then 30 else 31)
            && (mp == 11 && d == 29 ==> t == 365)
  {
  }

  /** Days before each month, from the first of March and from the first of January. */
  lemma MonthTable(y: int)
    ensures DaysBeforeMonth(y, 1) == 0 && DaysBeforeMonth(y, 2) == 31
    ensures forall m | 3 <= m <= 12 ::
              DaysBeforeMonth(y, m) == 31 + DaysInMonth(y, 2) + MarchMonthStart(m - 3)
    ensures MarchMonthStart(10) == 306 && MarchMonthStart(11) == 337
  {
    assert DaysBeforeMonth(y, 3) == 31 + DaysInMonth(y, 2);
    assert DaysBeforeMonth(y, 6) == DaysBeforeMonth(y, 3) + 92;
    assert DaysBeforeMonth(y, 9) == DaysBeforeMonth(y, 6) + 92;
    assert DaysBeforeMonth(y, 12) == DaysBeforeMonth(y, 9) + 91;
  }

  /** A quotient grows exactly at the multiples. */
  lemma QuotientStep(y: int, n: int)
    requires n == 4 || n == 100 || n == 400
    ensures y / n - (y - 1) / n == if y % n == 0 then 1 else 0
  {
  }

  lemma YearLength(y: int)
    ensures DaysBeforeYear(y + 1) - DaysBeforeYear(y) == 337 + DaysInMonth(y, 2)
  {
    QuotientStep(y, 4);
    QuotientStep(y, 100);
    QuotientStep(y, 400);
    Multiples(y);
    var a, b, c := y / 4 - (y - 1) / 4, y / 100 - (y - 1) / 100, y / 400 - (y - 1) / 400;
    assert DaysBeforeYear(y + 1) - DaysBeforeYear(y) == 365 + a - b + c;
  }

  lemma TimesHundred(k: int)
    ensures 100 * k % 100 == 0
  {
  }

  lemma TimesFour(k: int)
    ensures 4 * k % 4 == 0
  {
  }

  lemma Multiples(y: int)
    ensures y % 400 == 0 ==> y % 100 == 0
    ensures y % 100 == 0 ==> y % 4 == 0
  {
    if y % 400 == 0 {
      TimesHundred(4 * (y / 400));
    }
    if y % 100 == 0 {
      TimesFour(25 * (y / 100));
    }
  }

  /** 400 years are 146097 days. */
  lemma EraYears(era: int, yoe: int)
    requires 0 <= yoe < 400
    ensures DaysBeforeYear(yoe + era * 400 + 1) == era * 146_097 + MarchStart(yoe)
  {
    var y := yoe + era * 400;
    assert y / 4 == 100 * era + yoe / 4;
    assert y / 100 == 4 * era + yoe / 100;
    assert y / 400 == era;
  }

  /** Day `t` of the year that starts on 1 March of `y`. */
  function MarchDate(y: int, t: int): Date
    requires 0 <= t <= 365
  {
    var mp := (5 * t + 2) / 153;
    var m := mp + if mp < 10 then 3 else -9;
    Date(y + if m <= 2 then 1 else 0, m, t - MarchMonthStart(mp) + 1)
  }

  lemma MarchDateNumber(y: int, t: int)
    requires 0 <= t <= 365 && (t == 365 ==> IsLeap(y + 1))
    ensures Valid(MarchDate(y, t))
    ensures DayNumber(MarchDate(y, t)) == DaysBeforeYear(y + 1) - 306 + t - DaysBeforeYear(1970)
  {
    var mp := (5 * t + 2) / 153;
    MonthAndDay(t);
    if mp < 10 {
      MonthTable(y);
      YearLength(y);
      assert DaysInMonth(y, mp + 3) == if mp in {1, 3, 6, 8} then 30 else 31;
    } else {
      MonthTable(y + 1);
    }
  }

  lemma CivilFromEraIsMarchDate(era: int, doe: int, t: int)
    requires 0 <= doe < 146_097 && 0 <= YearOfEra(doe) < 400
    requires t == doe - MarchStart(YearOfEra(doe)) && 0 <= t <= 365
    ensures CivilFromEra(era, doe) == MarchDate(YearOfEra(doe) + era * 400, t)
  {
    var yoe := YearOfEra(doe);
    assert doe - TruncDiv(doe, 1460) + TruncDiv(doe, 36_524) - TruncDiv(doe, 146_096) >= 0;
    assert TruncDiv(doe - TruncDiv(doe, 1460) + TruncDiv(doe, 36_524) - TruncDiv(doe, 146_096), 365) == yoe;
  }

  /** Year of the era and day of the March year, for a day of an era. */
  lemma EraYearAndDay(era: int, doe: int) returns (yoe: int, t: int)
    requires 0 <= doe < 146_097
    ensures 0 <= yoe == YearOfEra(doe) < 400 && 0 <= t == doe - MarchStart(yoe) <= 365
    ensures t == 365 ==> IsLeap(yoe + era * 400 + 1)
  {
    var c, q, r, d := EraParts(doe);
    yoe, t := 100 * c + 4 * q + r, d;
    YearOfEraParts(c, q, r, t);
    MarchStartParts(c, q, r);
    if t == 365 {
      LeapAfter(era, c, q);
    }
  }

  /** The shared lines turn every day of an era into the valid date of that day. */
  lemma EraDate(era: int, doe: int)
    requires 0 <= doe < 146_097
    ensures Valid(CivilFromEra(era, doe))
    ensures DayNumber(CivilFromEra(era, doe)) == era * 146_097 + doe - 719_468
  {
    var yoe, t := EraYearAndDay(era, doe);
    CivilFromEraIsMarchDate(era, doe, t);
    MarchDateNumber(yoe + era * 400, t);
    EraYears(era, yoe);
  }

  /** The long year of a four-year cycle ends in a leap February, unless a century cuts the cycle. */
  lemma LeapAfter(era: int, c: int, q: int)
    requires 0 <= c <= 3 && 0 <= q <= 24 && (q < 24 || c == 3)
    ensures IsLeap(100 * c + 4 * q + 3 + era * 400 + 1)
  {
    var y := 100 * c + 4 * q + 3 + era * 400 + 1;
    assert y == 4 * (25 * c + q + 1 + 100 * era);
    if q < 24 {
      assert y == 100 * (c + 4 * era) + (4 * q + 4);
    } else {
      assert y == 400 * (era + 1);
    }
  }

  /** Every day number, before or after 1970, becomes the valid date that has it. */
  lemma CivilFromDaysCorrect(days: int)
    ensures Valid(CivilFromDays(days))
    ensures DayNumber(CivilFromDays(days)) == days
  {
    var z := days + 719_468;
    EraRange(z);
    EraDate(Era(z), z - Era(z) * 146_097);
  }

  predicate Before(a: Date, b: Date) {
    a.year < b.year || (a.year == b.year && (a.month < b.month || (a.month == b.month && a.day < b.day)))
  }

  lemma {:induction false} MonthsMonotone(y: int, m: int, n: int)
    requires 1 <= m < n
    ensures DaysBeforeMonth(y, m) + DaysInMonth(y, m) <= DaysBeforeMonth(y, n)
    decreases n
  {
    if m + 1 < n {
      MonthsMonotone(y, m, n - 1);
    }
  }

  lemma {:induction false} YearsMonotone(y: int, z: int)
    requires y < z
    ensures DaysBeforeYear(y) + 337 + DaysInMonth(y, 2) <= DaysBeforeYear(z)
    decreases z - y
  {
    YearLength(z - 1);
    if y + 1 < z {
      YearsMonotone(y, z - 1);
    }
  }

  /** The reference day count orders valid dates as the calendar does. */
  lemma DayNumberMonotone(a: Date, b: Date)
    requires Valid(a) && Valid(b) && Before(a, b)
    ensures DayNumber(a) < DayNumber(b)
  {
    if a.year < b.year {
      YearsMonotone(a.year, b.year);
      MonthTable(a.year);
      MonthTable(b.year);
      assert DaysBeforeMonth(a.year, 12) + 31 == 337 + DaysInMonth(a.year, 2);
      if a.month < 12 {
        MonthsMonotone(a.year, a.month, 12);
      }
      if 1 < b.month {
        MonthsMonotone(b.year, 1, b.month);
      }
    } else if a.month < b.month {
      MonthsMonotone(a.year, a.month, b.month);
    }
  }

  /** The day count is the one the calendar's own successor generates. */
  lemma NextDayCounts(c: Date)
    requires Valid(c)
    ensures Valid(NextDay(c)) && DayNumber(NextDay(c)) == DayNumber(c) + 1
    ensures DayNumber(Date(1970, 1, 1)) == 0
  {
    if c.day == DaysInMonth(c.year, c.month) && c.month == 12 {
      YearLength(c.year);
      MonthTable(c.year);
    }
  }

  /** A valid date is recovered from its day number, so both directions are inverse. */
  lemma CivilFromDaysInverse(c: Date)
    requires Valid(c)
    ensures CivilFromDays(DayNumber(c)) == c
  {
    var back := CivilFromDays(DayNumber(c));
    CivilFromDaysCorrect(DayNumber(c));
    if Before(back, c) {
      DayNumberMonotone(back, c);
    } else if Before(c, back) {
      DayNumberMonotone(c, back);
    }
  }

  lemma SuccessorOf(c: Date, n: int)
    requires Valid(c) && DayNumber(c) == n
    ensures CivilFromDays(n + 1) == NextDay(c)
  {
    NextDayCounts(c);
    var next := NextDay(c);
    assert DayNumber(next) == n + 1;
    CivilFromDaysInverse(next);
  }

  /** Consecutive day numbers are consecutive calendar days. */
  lemma CivilFromDaysSuccessor(days: int)
    ensures CivilFromDays(days + 1) == NextDay(CivilFromDays(days))
  {
    CivilFromDaysCorrect(days);
    SuccessorOf(CivilFromDays(days), days);
  }

  /** The Claude hook divides with `div_euclid`, also when it fixes the era. */
  function ClaudeCivilFromDays(days: int): Date {
    var z := days + 719_468;
    var era := (if z >= 0 then z else z - 146_096) / 146_097;
    ClaudeFromEra(era, z - era * 146_097)
  }

  function ClaudeFromEra(era: int, doe: int): Date {
    var yoe := (doe - TruncDiv(doe, 1460) + TruncDiv(doe, 36_524) - TruncDiv(doe, 146_096)) / 365;
    var y := yoe + era * 400;
    var doy := doe - (365 * yoe + TruncDiv(yoe, 4) - TruncDiv(yoe, 100));
    var mp := (5 * doy + 2) / 153;
    var d := doy - (153 * mp + 2) / 5 + 1;
    var m := mp + if mp < 10 then 3 else -9;
    Date(y + if m <= 2 then 1 else 0, m, d)
  }

  /** When the era is rounded one too low, the year still comes out right and the day is one too late. */
  lemma YearOfNextEra(c: int, q: int, r: int, t: int)
    requires 0 <= c <= 3 && 0 <= q <= 24 && 0 <= r <= 3 && 0 <= t <= 365
    requires t == 365 ==> r == 3 && (q < 24 || c == 3)
    ensures YearOfEra(146_097 + 36_524 * c + 1461 * q + 365 * r + t) == 400 + 100 * c + 4 * q + r
    ensures MarchStart(400 + 100 * c + 4 * q + r) == 146_096 + MarchStart(100 * c + 4 * q + r)
  {
    var doe := 146_097 + 36_524 * c + 1461 * q + 365 * r + t;
    var y := 100 * c + 4 * q + r;
    assert (400 + y) / 4 == 100 + y / 4 && (400 + y) / 100 == 4 + y / 100;
    var low := 97 + 24 * c + q + 365 * r + t;
    var e := if low >= 1460 then 1 else 0;
    assert doe / 1460 == 100 + 25 * c + q + e by {
      assert doe == 1460 * (100 + 25 * c + q + e) + (low - 1460 * e);
    }
    var f := if 1461 * q + 365 * r + t >= 36_523 then 1 else 0;
    assert doe / 36_524 == 4 + c + f by {
      assert doe == 36_524 * (4 + c + f) + (1 + 1461 * q + 365 * r + t - 36_524 * f);
    }
    var g := if doe >= 292_192 then 1 else 0;
    assert doe / 146_096 == 1 + g;
    assert doe - doe / 1460 + doe / 36_524 - doe / 146_096 == 365 * (400 + y) + (t - e + f - g);
  }

  /** Both roundings agree inside an era. */
  lemma ClaudeIsCivilFromEra(era: int, doe: int)
    requires 0 <= doe && 0 <= YearOfEra(doe) && MarchStart(YearOfEra(doe)) <= doe
    ensures ClaudeFromEra(era, doe) == CivilFromEra(era, doe)
  {
    ClaudeYearOfEra(doe);
    TruncIsFloor(YearOfEra(doe), 4);
    TruncIsFloor(YearOfEra(doe), 100);
  }

  lemma TruncIsFloor(a: int, b: int)
    requires a >= 0 && b > 0
    ensures TruncDiv(a, b) == a / b
  {
  }

  lemma ClaudeYearOfEra(doe: int)
    requires 0 <= doe
    ensures (doe - TruncDiv(doe, 1460) + TruncDiv(doe, 36_524) - TruncDiv(doe, 146_096)) / 365 == YearOfEra(doe)
  {
    TruncIsFloor(doe, 1460);
    TruncIsFloor(doe, 36_524);
    TruncIsFloor(doe, 146_096);
    TruncIsFloor(doe - doe / 1460 + doe / 36_524 - doe / 146_096, 365);
  }

  /** The Claude hook's era is one too low exactly inside the negative eras. */
  lemma ClaudeEra(z: int)
    ensures (if z >= 0 then z else z - 146_096) / 146_097
         == Era(z) - (if z >= 0 || z % 146_097 == 146_096 then 0 else 1)
  {
  }

  /** What the shared lines make of a day just past the end of its March year. */
  lemma LateMarchDate(era: int, doe: int, t: int)
    requires 0 <= doe && 0 <= YearOfEra(doe) && 0 < t <= 366
    requires t == doe - MarchStart(YearOfEra(doe))
    ensures CivilFromEra(era, doe) != MarchDate(YearOfEra(doe) + era * 400, t - 1)
  {
    var n := doe - doe / 1460 + doe / 36_524 - doe / 146_096;
    assert n >= 0;
    assert TruncDiv(n, 365) == YearOfEra(doe);
  }

  lemma EraFacts(doe: int) returns (yoe: int, t: int)
    requires 0 <= doe < 146_097
    ensures yoe == YearOfEra(doe) && 0 <= yoe < 400 && t == doe - MarchStart(yoe) && 0 <= t <= 365
    ensures YearOfEra(146_097 + doe) == 400 + yoe && MarchStart(400 + yoe) == 146_096 + MarchStart(yoe)
  {
    var c, q, r, d := EraParts(doe);
    YearOfEraParts(c, q, r, d);
    MarchStartParts(c, q, r);
    YearOfNextEra(c, q, r, d);
    yoe, t := 100 * c + 4 * q + r, d;
  }

  lemma OneDayLate(era: int, doe: int)
    requires 0 <= doe < 146_097
    ensures ClaudeFromEra(era - 1, 146_097 + doe) != CivilFromEra(era, doe)
  {
    var yoe, t := EraFacts(doe);
    var y := yoe + era * 400;
    assert CivilFromEra(era, doe) == MarchDate(y, t) by {
      CivilFromEraIsMarchDate(era, doe, t);
    }
    assert CivilFromEra(era - 1, 146_097 + doe) != MarchDate(y, t) by {
      LateMarchDate(era - 1, 146_097 + doe, t + 1);
    }
    ClaudeIsCivilFromEra(era - 1, 146_097 + doe);
  }

  lemma SameEra(era: int, doe: int)
    requires 0 <= doe < 146_097
    ensures ClaudeFromEra(era, doe) == CivilFromEra(era, doe)
  {
    var yoe, t := EraFacts(doe);
    ClaudeIsCivilFromEra(era, doe);
  }

  lemma EraRange(z: int)
    ensures 0 <= z - Era(z) * 146_097 < 146_097
  {
  }

  /** The two hooks agree exactly from 0000-03-01 on and on the last day of each earlier era. */
  lemma ClaudeAgreesExactly(days: int)
    ensures ClaudeCivilFromDays(days) == CivilFromDays(days)
       <==> days + 719_468 >= 0 || (days + 719_468) % 146_097 == 146_096
  {
    var z := days + 719_468;
    var era := Era(z);
    var doe := z - era * 146_097;
    EraRange(z);
    ClaudeEra(z);
    assert CivilFromDays(days) == CivilFromEra(era, doe);
    if z >= 0 || z % 146_097 == 146_096 {
      assert ClaudeCivilFromDays(days) == ClaudeFromEra(era, doe);
      SameEra(era, doe);
    } else {
      assert z - (era - 1) * 146_097 == 146_097 + doe;
      assert ClaudeCivilFromDays(days) == ClaudeFromEra(era - 1, 146_097 + doe);
      OneDayLate(era, doe);
    }
  }
}
