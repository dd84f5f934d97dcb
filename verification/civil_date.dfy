/** The calendar arithmetic of `rules_ops.rs` against the Gregorian calendar counted day by day. */
module CivilDate {
  import opened Decimal

  datatype Date = Date(year: int, month: int, day: int)

  /** The leap rule of Appendix C of RFC 3339. */
  predicate Leap(year: int) { year % 4 == 0 && (year % 100 != 0 || year % 400 == 0) }

  function DaysInMonth(year: int, month: int): int {
    if month == 2 then (if Leap(year) then 29 else 28)
    else if month in {4, 6, 9, 11} then 30 else 31
  }

  predicate ValidDate(date: Date) {
    1 <= date.month <= 12 && 1 <= date.day <= DaysInMonth(date.year, date.month)
  }

  function YearOfEra(doe: int): int { (doe - doe / 1460 + doe / 36_524 - doe / 146_096) / 365 }

  function DayOfYear(doe: int, yoe: int): int { doe - (365 * yoe + yoe / 4 - yoe / 100) }

  /** The date that is `z` days after 1970-01-01. */
  function CivilFromDays(z: int): Date {
    var shifted := z + 719_468;
    var era := shifted / 146_097;
    var doe := shifted % 146_097;
    var yoe := YearOfEra(doe);
    MarchDate(yoe + era * 400, DayOfYear(doe, yoe))
  }

  /** Day `doy` of the year that begins with March of year `y`. */
  function MarchDate(y: int, doy: int): Date {
    var mp := (5 * doy + 2) / 153;
    var d := doy - (153 * mp + 2) / 5 + 1;
    var m := if mp < 10 then mp + 3 else mp - 9;
    Date(if m <= 2 then y + 1 else y, m, d)
  }

  /** A day of a 400-year era as century, four-year cycle, year of the cycle and day of the year. */
  predicate EraParts(doe: int, c: int, q: int, t: int, u: int) {
    && 0 <= c <= 3 && 0 <= q <= 24 && 0 <= t <= 3
    && 0 <= u <= (if t == 3 && (q < 24 || c == 3) then 365 else 364)
    && doe == 36_524 * c + 1461 * q + 365 * t + u
  }

  lemma SplitEra(doe: int) returns (c: int, q: int, t: int, u: int)
    requires 0 <= doe < 146_097
    ensures EraParts(doe, c, q, t, u)
  {
    c := if doe / 36_524 < 3 then doe / 36_524 else 3;
    var inCentury := doe - 36_524 * c;
    q := inCentury / 1461;
    var inCycle := inCentury - 1461 * q;
    t := if inCycle / 365 < 3 then inCycle / 365 else 3;
    u := inCycle - 365 * t;
  }

  lemma QuotientIs(n: int, k: int, q: int, r: int)
    requires k > 0 && n == k * q + r && 0 <= r < k
    ensures n / k == q && n % k == r
  {
    var d := n / k - q;
    assert k * d == r - n % k;
    MultipleIsFar(k, d);
  }

  lemma MultipleIsFar(k: int, d: int)
    requires k > 0
    ensures (d > 0 ==> k * d >= k) && (d < 0 ==> k * d <= -k)
  {}

  /** The correction terms of the year formula cancel the leap days exactly. */
  lemma YearOfEraIs(doe: int, c: int, q: int, t: int, u: int)
    requires EraParts(doe, c, q, t, u)
    ensures YearOfEra(doe) == 100 * c + 4 * q + t
    ensures DayOfYear(doe, YearOfEra(doe)) == u
  {
    var e := if 24 * c + q + 365 * t + u >= 1460 then 1 else 0;
    var year := 100 * c + 4 * q + t;
    QuotientIs(doe, 1460, 25 * c + q + e, 24 * c + q + 365 * t + u - 1460 * e);
    var last := if doe == 146_096 then 1 else 0;
    QuotientIs(doe, 36_524, c + last, 1461 * q + 365 * t + u - 36_524 * last);
    QuotientIs(doe, 146_096, last, doe - 146_096 * last);
    QuotientIs(365 * year + u - e, 365, year, u - e);
    QuotientIs(year, 4, 25 * c + q, t);
    QuotientIs(year, 100, c, 4 * q + t);
  }

  // ---- the calendar, counted from 1970-01-01 ----

  function YearLength(year: int): int { if Leap(year) then 366 else 365 }

  /** Days from 1970-01-01 to the first day of `year`, negative before it. */
  function DaysBeforeYear(year: int): int
    decreases if year >= 1970 then year - 1970 else 1970 - year
  {
    if year == 1970 then 0
    else if year > 1970 then DaysBeforeYear(year - 1) + YearLength(year - 1)
    else DaysBeforeYear(year + 1) - YearLength(year)
  }

  function DaysBeforeMonth(year: int, month: int): int {
    if month <= 1 then 0 else DaysBeforeMonth(year, month - 1) + DaysInMonth(year, month - 1)
  }

  function DayNumber(date: Date): int {
    DaysBeforeYear(date.year) + DaysBeforeMonth(date.year, date.month) + date.day - 1
  }

  function NextDay(date: Date): Date {
    if date.day < DaysInMonth(date.year, date.month) then date.(day := date.day + 1)
    else if date.month < 12 then Date(date.year, date.month + 1, 1)
    else Date(date.year + 1, 1, 1)
  }

  lemma Quotient(n: int, k: int)
    requires k in {4, 100, 400}
    ensures (n + 1) / k == n / k + if (n + 1) % k == 0 then 1 else 0
  {}

  lemma LeapStep(n: int)
    ensures (n + 1) / 4 - (n + 1) / 100 + (n + 1) / 400 ==
            n / 4 - n / 100 + n / 400 + if Leap(n + 1) then 1 else 0
  {
    Quotient(n, 4);
    Quotient(n, 100);
    Quotient(n, 400);
    Multiples(n + 1);
  }

  lemma Multiples(n: int)
    ensures n % 400 == 0 ==> n % 100 == 0
    ensures n % 100 == 0 ==> n % 4 == 0
  {
    if n % 400 == 0 {
      QuotientIs(n, 100, 4 * (n / 400), 0);
    }
    if n % 100 == 0 {
      QuotientIs(n, 4, 25 * (n / 100), 0);
    }
  }

  lemma {:induction false} DaysBeforeYearIs(year: int)
    ensures DaysBeforeYear(year) == 365 * (year - 1970) + (year - 1) / 4 - (year - 1) / 100 + (year - 1) / 400 - 477
    decreases if year >= 1970 then year - 1970 else 1970 - year
  {
    if year > 1970 {
      DaysBeforeYearIs(year - 1);
      LeapStep(year - 2);
    } else if year < 1970 {
      DaysBeforeYearIs(year + 1);
      LeapStep(year - 1);
    }
  }

  lemma DaysBeforeMonthIs(year: int, month: int)
    requires 1 <= month <= 12
    ensures DaysBeforeMonth(year, month) ==
            (if month <= 2 then 31 * (month - 1)
             else 59 + (153 * (month - 3) + 2) / 5 + if Leap(year) then 1 else 0)
  {
    var leap := if Leap(year) then 1 else 0;
    assert DaysBeforeMonth(year, 1) == 0;
    assert DaysBeforeMonth(year, 2) == 31;
    assert DaysBeforeMonth(year, 3) == 59 + leap;
    assert DaysBeforeMonth(year, 4) == 90 + leap;
    assert DaysBeforeMonth(year, 5) == 120 + leap;
    assert DaysBeforeMonth(year, 6) == 151 + leap;
    assert DaysBeforeMonth(year, 7) == 181 + leap;
    assert DaysBeforeMonth(year, 8) == 212 + leap;
    assert DaysBeforeMonth(year, 9) == 243 + leap;
    assert DaysBeforeMonth(year, 10) == 273 + leap;
    assert DaysBeforeMonth(year, 11) == 304 + leap;
    assert DaysBeforeMonth(year, 12) == 334 + leap;
  }

  /** Month and day of a March-based year fit the calendar and keep the day count. */
  lemma MonthAndDay(doy: int, year: int)
    requires 0 <= doy <= if Leap(year + 1) then 365 else 364
    ensures var date := MarchDate(year, doy);
            && ValidDate(date) && date.year == (if date.month <= 2 then year + 1 else year)
            && DaysBeforeMonth(date.year, date.month) + date.day - 1 ==
               if date.month <= 2 then doy - 306 else doy + 59 + if Leap(year) then 1 else 0
  {
    var mp := (5 * doy + 2) / 153;
    var month := if mp < 10 then mp + 3 else mp - 9;
    DaysBeforeMonthIs(if month <= 2 then year + 1 else year, month);
    assert mp == 0 || mp == 1 || mp == 2 || mp == 3 || mp == 4 || mp == 5 || mp == 6 ||
           mp == 7 || mp == 8 || mp == 9 || mp == 10 || mp == 11;
  }

  /** The first of March of year y, counted both from its own January and from the next one. */
  lemma MarchFirst(y: int, era: int, c: int, q: int, t: int)
    requires 0 <= c <= 3 && 0 <= q <= 24 && 0 <= t <= 3 && y == 100 * c + 4 * q + t + 400 * era
    ensures var march := 146_097 * era + 36_524 * c + 1461 * q + 365 * t - 719_468;
            && DaysBeforeYear(y) + 59 + (if Leap(y) then 1 else 0) == march
            && DaysBeforeYear(y + 1) - 306 == march
  {
    assert y / 4 == 100 * era + 25 * c + q && y / 100 == 4 * era + c && y / 400 == era;
    DaysBeforeYearIs(y);
    DaysBeforeYearIs(y + 1);
    LeapStep(y - 1);
  }

  lemma Remainder(n: int, whole: int, rest: int, k: int)
    requires k in {4, 100, 400} && n == k * whole + rest && 0 < rest <= k
    ensures n % k == 0 <==> rest == k
  {
    if rest == k {
      assert n == k * (whole + 1);
    } else {
      assert n / k == whole;
    }
  }

  lemma LeapEnd(y: int, era: int, c: int, q: int, t: int)
    requires 0 <= c <= 3 && 0 <= q <= 24 && 0 <= t <= 3 && y == 100 * c + 4 * q + t + 400 * era
    ensures Leap(y + 1) <==> t == 3 && (q < 24 || c == 3)
  {
    // y + 1 == 4 * (100 * era + 25 * c + q) + (t + 1), and likewise for 100 and 400
    Remainder(y + 1, 100 * era + 25 * c + q, t + 1, 4);
    Remainder(y + 1, 4 * era + c, 4 * q + t + 1, 100);
    Remainder(y + 1, era, 100 * c + 4 * q + t + 1, 400);
  }

  lemma EraDayCounts(era: int, doe: int)
    requires 0 <= doe < 146_097
    ensures var date := MarchDate(YearOfEra(doe) + era * 400, DayOfYear(doe, YearOfEra(doe)));
            ValidDate(date) && DayNumber(date) == 146_097 * era + doe - 719_468
  {
    hide Leap, ValidDate, DaysBeforeYear, DaysBeforeMonth, YearOfEra, DayOfYear, MarchDate;
    var c, q, t, u := SplitEra(doe);
    YearOfEraIs(doe, c, q, t, u);
    var y := 100 * c + 4 * q + t + 400 * era;
    LeapEnd(y, era, c, q, t);
    MonthAndDay(u, y);
    MarchFirst(y, era, c, q, t);
  }

  /** Every day number has the valid date that is that many days after the epoch. */
  lemma CivilFromDaysCounts(z: int)
    ensures ValidDate(CivilFromDays(z)) && DayNumber(CivilFromDays(z)) == z
  {
    hide ValidDate, DayNumber, YearOfEra, DayOfYear, MarchDate;
    EraDayCounts((z + 719_468) / 146_097, (z + 719_468) % 146_097);
  }

  lemma {:induction false} YearsGrow(a: int, b: int)
    requires a < b
    ensures DaysBeforeYear(a) + YearLength(a) <= DaysBeforeYear(b)
    decreases b - a
  {
    assert DaysBeforeYear(b) == DaysBeforeYear(b - 1) + YearLength(b - 1);
    if a == b - 1 {
    } else {
      YearsGrow(a, b - 1);
    }
  }

  lemma {:induction false} MonthsGrow(year: int, a: int, b: int)
    requires 1 <= a < b
    ensures DaysBeforeMonth(year, a) + DaysInMonth(year, a) <= DaysBeforeMonth(year, b)
    decreases b - a
  {
    assert DaysBeforeMonth(year, b) == DaysBeforeMonth(year, b - 1) + DaysInMonth(year, b - 1);
    if a == b - 1 {
    } else {
      MonthsGrow(year, a, b - 1);
    }
  }

  lemma WithinYear(date: Date)
    requires ValidDate(date)
    ensures 0 <= DaysBeforeMonth(date.year, date.month) <= YearLength(date.year) - date.day
  {
    DaysBeforeMonthIs(date.year, date.month);
    DaysBeforeMonthIs(date.year, 12);
    if date.month < 12 {
      MonthsGrow(date.year, date.month, 12);
    }
  }

  /** Counting days orders dates, so no two valid dates share a number. */
  lemma DayNumberInjective(a: Date, b: Date)
    requires ValidDate(a) && ValidDate(b) && DayNumber(a) == DayNumber(b)
    ensures a == b
  {
    hide Leap, DaysInMonth, DaysBeforeYear, DaysBeforeMonth;
    if a.year < b.year {
      YearsAscend(a, b);
    } else if b.year < a.year {
      YearsAscend(b, a);
    } else if a.month < b.month {
      MonthsGrow(a.year, a.month, b.month);
    } else if b.month < a.month {
      MonthsGrow(a.year, b.month, a.month);
    }
  }

  lemma YearsAscend(a: Date, b: Date)
    requires ValidDate(a) && ValidDate(b) && a.year < b.year
    ensures DayNumber(a) < DayNumber(b)
  {
    hide Leap, DaysInMonth, DaysBeforeYear, DaysBeforeMonth, YearLength;
    YearsGrow(a.year, b.year);
    WithinYear(a);
    WithinYear(b);
  }

  /** CivilFromDays and DayNumber are inverse bijections between day numbers and valid dates. */
  lemma CivilBijection(z: int, date: Date)
    requires ValidDate(date)
    ensures CivilFromDays(DayNumber(date)) == date && (CivilFromDays(z) == date <==> z == DayNumber(date))
  {
    CivilFromDaysCounts(DayNumber(date));
    DayNumberInjective(CivilFromDays(DayNumber(date)), date);
    CivilFromDaysCounts(z);
  }

  lemma NextDayCounts(date: Date)
    requires ValidDate(date)
    ensures ValidDate(NextDay(date)) && DayNumber(NextDay(date)) == DayNumber(date) + 1
  {
    if date.day < DaysInMonth(date.year, date.month) {
    } else if date.month < 12 {
      assert DaysBeforeMonth(date.year, date.month + 1) ==
             DaysBeforeMonth(date.year, date.month) + DaysInMonth(date.year, date.month);
    } else {
      DaysBeforeMonthIs(date.year, 12);
      DaysBeforeYearIs(date.year);
      DaysBeforeYearIs(date.year + 1);
      LeapStep(date.year - 1);
    }
  }

  /** The calendar date `n` days on. */
  function DaysLater(date: Date, n: nat): Date { if n == 0 then date else NextDay(DaysLater(date, n - 1)) }

  /** Counting on from the number of a date is walking on through the calendar, day by day. */
  lemma {:induction false} CivilSteps(date: Date, n: nat)
    requires ValidDate(date)
    ensures ValidDate(DaysLater(date, n)) && CivilFromDays(DayNumber(date) + n) == DaysLater(date, n)
  {
    hide CivilFromDays, ValidDate, DayNumber, NextDay;
    if n == 0 {
      CivilBijection(0, date);
    } else {
      var before := DaysLater(date, n - 1);
      CivilSteps(date, n - 1);
      CivilFromDaysCounts(DayNumber(date) + n - 1);
      NextDayCounts(before);
      CivilBijection(0, NextDay(before));
    }
  }

  // ---- the timestamp ----

  const SECONDS_PER_DAY := 86_400

  function YearOf(seconds: nat): int { CivilFromDays(seconds / SECONDS_PER_DAY).year }

  /** `now_rfc3339` for a clock reading. */
  function Timestamp(seconds: nat): string {
    CivilFromDaysCounts(seconds / SECONDS_PER_DAY);
    YearNotNegative(seconds);
    Formatted(CivilFromDays(seconds / SECONDS_PER_DAY), seconds % SECONDS_PER_DAY)
  }

  function Formatted(date: Date, rem: nat): string
    requires ValidDate(date) && date.year >= 0
  {
    Padded(date.year, 4) + "-" + Padded(date.month, 2) + "-" + Padded(date.day, 2) + "T" +
    Padded(rem / 3600, 2) + ":" + Padded(rem % 3600 / 60, 2) + ":" + Padded(rem % 60, 2) + ".000Z"
  }

  predicate DigitsAt(s: string, from: nat, to: nat)
    requires from <= to <= |s|
  {
    forall i :: from <= i < to ==> IsDigit(s[i])
  }

  /** date-time of section 5.6 of RFC 3339, with a three-digit fraction and the UTC offset. */
  predicate IsDateTime(s: string) {
    && |s| == 24 && s[4] == s[7] == '-' && s[10] == 'T' && s[13] == s[16] == ':' && s[19..] == ".000Z"
    && DigitsAt(s, 0, 4) && DigitsAt(s, 5, 7) && DigitsAt(s, 8, 10)
    && DigitsAt(s, 11, 13) && DigitsAt(s, 14, 16) && DigitsAt(s, 17, 19)
  }

  function DateIn(s: string): Date
    requires IsDateTime(s)
  {
    Date(Value(s[0..4]), Value(s[5..7]), Value(s[8..10]))
  }

  function SecondIn(s: string): int
    requires IsDateTime(s)
  {
    Value(s[11..13]) * 3600 + Value(s[14..16]) * 60 + Value(s[17..19])
  }

  /** Hour, minute and second are in range. */
  predicate ClockIn(s: string)
    requires IsDateTime(s)
  {
    Value(s[11..13]) < 24 && Value(s[14..16]) < 60 && Value(s[17..19]) < 60
  }

  lemma YearNotNegative(seconds: nat)
    ensures YearOf(seconds) >= 1970
  {
    var days := seconds / SECONDS_PER_DAY;
    var date := CivilFromDays(days);
    CivilFromDaysCounts(days);
    assert DayNumber(Date(1970, 1, 1)) == 0;
    if date.year < 1970 {
      YearsAscend(date, Date(1970, 1, 1));
    }
  }

  /** The timestamp is an RFC 3339 date-time exactly up to the year 9999, and then denotes the very
      second it was made from. */
  lemma TimestampDenotesSecond(seconds: nat)
    ensures var s := Timestamp(seconds);
            && (IsDateTime(s) <==> YearOf(seconds) <= 9999)
            && (IsDateTime(s) ==>
                  && ValidDate(DateIn(s)) && ClockIn(s)
                  && SECONDS_PER_DAY * DayNumber(DateIn(s)) + SecondIn(s) == seconds)
  {
    YearNotNegative(seconds);
    var date := CivilFromDays(seconds / SECONDS_PER_DAY);
    CivilFromDaysCounts(seconds / SECONDS_PER_DAY);
    FormattedReads(date, seconds % SECONDS_PER_DAY);
  }

  lemma FormattedReads(date: Date, rem: nat)
    requires ValidDate(date) && date.year >= 0 && rem < SECONDS_PER_DAY
    ensures IsDateTime(Formatted(date, rem)) <==> date.year <= 9999
    ensures IsDateTime(Formatted(date, rem)) ==>
              var s := Formatted(date, rem);
              DateIn(s) == date && SecondIn(s) == rem && ClockIn(s)
  {
    hide Padded, Value, ValidDate;
    assert 1 <= date.month <= 12 && 1 <= date.day <= 31 by { MonthAndDayRange(date); }
    assert Pow10(2) == 100 && Pow10(4) == 10_000 by {
      assert Pow10(0) == 1;
      assert Pow10(3) == 1000;
    }
    var year, month, day := Padded(date.year, 4), Padded(date.month, 2), Padded(date.day, 2);
    var hour, minute, second := Padded(rem / 3600, 2), Padded(rem % 3600 / 60, 2), Padded(rem % 60, 2);
    PaddedReads(date.year, 4);
    PaddedReads(date.month, 2);
    PaddedReads(date.day, 2);
    PaddedReads(rem / 3600, 2);
    PaddedReads(rem % 3600 / 60, 2);
    PaddedReads(rem % 60, 2);
    assert |Formatted(date, rem)| == 20 + |year|;
    if date.year <= 9999 {
      Layout(Formatted(date, rem), year, month, day, hour, minute, second);
    }
  }

  lemma MonthAndDayRange(date: Date)
    requires ValidDate(date)
    ensures 1 <= date.month <= 12 && 1 <= date.day <= 31
  {}

  lemma Layout(s: string, year: string, month: string, day: string, hour: string, minute: string, second: string)
    requires s == year + "-" + month + "-" + day + "T" + hour + ":" + minute + ":" + second + ".000Z"
    requires |year| == 4 && |month| == |day| == |hour| == |minute| == |second| == 2
    requires DigitsAt(year, 0, 4) && DigitsAt(month, 0, 2) && DigitsAt(day, 0, 2)
    requires DigitsAt(hour, 0, 2) && DigitsAt(minute, 0, 2) && DigitsAt(second, 0, 2)
    ensures IsDateTime(s)
    ensures s[0..4] == year && s[5..7] == month && s[8..10] == day
    ensures s[11..13] == hour && s[14..16] == minute && s[17..19] == second
  {}
}
