/**
 Civil dates: the day-number algorithm the EXIF reader uses to build a timestamp
 (src/core/exif_date.rs) and the inverse the report uses to print one (src/main.rs).

 The reference is the proleptic Gregorian calendar given by month lengths, leap years
 and "the next day"; both closed forms are proved against it, over all integers.
 */
module Calendar {
  import opened Basics

  datatype Date = Date(y: int, m: int, d: int)

  datatype Stamp = Stamp(date: Date, hour: int, minute: int)

  // Rust's `/` truncates toward zero; Dafny's is Euclidean.
  function TruncDiv(a: int, b: int): int
    requires b > 0
  {
    if a >= 0 then a / b else -((-a) / b)
  }

  // ----- the reference calendar

  predicate IsLeap(y: int) {
    y % 4 == 0 && (y % 100 != 0 || y % 400 == 0)
  }

  function DaysInMonth(y: int, m: int): int {
    if m == 2 then (if IsLeap(y) then 29 else 28)
    else if m == 4 || m == 6 || m == 9 || m == 11 then 30
    else 31
  }

  predicate ValidDate(c: Date) {
    1 <= c.m <= 12 && 1 <= c.d <= DaysInMonth(c.y, c.m)
  }

  function NextDay(c: Date): Date {
    if c.d < DaysInMonth(c.y, c.m) then Date(c.y, c.m, c.d + 1)
    else if c.m < 12 then Date(c.y, c.m + 1, 1)
    else Date(c.y + 1, 1, 1)
  }

  // ----- the closed forms

  function DaysFromCivil(y: int, m: int, d: int): int {
    var y1 := if m <= 2 then y - 1 else y;
    var era := TruncDiv(if y1 >= 0 then y1 else y1 - 399, 400);
    var yoe := y1 - era * 400;
    var doy := TruncDiv(153 * (if m > 2 then m - 3 else m + 9) + 2, 5) + d - 1;
    var doe := yoe * 365 + TruncDiv(yoe, 4) - TruncDiv(yoe, 100) + doy;
    era * 146097 + doe - 719468
  }

  function CivilFromDays(days: int): Date {
    var z := days + 719468;
    var era := TruncDiv(if z >= 0 then z else z - 146096, 146097);
    var doe := z - era * 146097;
    var yoe := TruncDiv(doe - TruncDiv(doe, 1460) + TruncDiv(doe, 36524) - TruncDiv(doe, 146096), 365);
    var y := yoe + era * 400;
    var doy := doe - (365 * yoe + TruncDiv(yoe, 4) - TruncDiv(yoe, 100));
    var mp := TruncDiv(5 * doy + 2, 153);
    var d := doy - TruncDiv(153 * mp + 2, 5) + 1;
    var m := if mp < 10 then mp + 3 else mp - 9;
    Date(if m <= 2 then y + 1 else y, m, d)
  }

  function FmtUnix(t: int): Stamp {
    var secs := t % 86400;
    Stamp(CivilFromDays(t / 86400), secs / 3600, (secs % 3600) / 60)
  }

  // The checks and arithmetic of the EXIF parser, after its six fields were read.
  // Its integer parser accepts a sign, and hour, minute and second have no lower check.
  function ExifUnix(y: int, mo: int, d: int, h: int, mi: int, sec: int): Option<int> {
    if !(1 <= mo <= 12) || !(1 <= d <= 31) || h > 23 || mi > 59 || sec > 60 then None
    else if y == 0 then None
    else Some(DaysFromCivil(y, mo, d) * 86400 + h * 3600 + mi * 60 + sec)
  }

  // ----- truncation with the source's sign correction is flooring

  lemma TruncNonNegative(a: int, b: int)
    requires a >= 0 && b > 0
    ensures TruncDiv(a, b) == a / b
  {
  }

  lemma TruncIsFloor400(a: int)
    ensures TruncDiv(if a >= 0 then a else a - 399, 400) == a / 400
  {
  }

  lemma TruncIsFloor146097(a: int)
    ensures TruncDiv(if a >= 0 then a else a - 146096, 146097) == a / 146097
  {
  }

  // ----- days of an era counted from 1 March of its first year

  function YearStart(yoe: int): int {
    365 * yoe + yoe / 4 - yoe / 100
  }

  // The last year of an era is its one 400-year leap year, so it is a day longer.
  function YearLength(yoe: int): int {
    if yoe == 399 || (yoe % 4 == 3 && yoe % 100 != 99) then 366 else 365
  }

  lemma YearStartIs(yoe: int)
    ensures YearStart(yoe) == 365 * yoe + yoe / 4 - yoe / 100
  {
  }

  lemma YearStartStep(yoe: int)
    requires 0 <= yoe < 399
    ensures YearStart(yoe + 1) == YearStart(yoe) + YearLength(yoe)
  {
    FourStep(yoe);
    HundredStep(yoe);
  }

  lemma FourStep(n: nat)
    ensures (n + 1) / 4 == n / 4 + (if n % 4 == 3 then 1 else 0)
  {
  }

  lemma HundredStep(n: nat)
    ensures (n + 1) / 100 == n / 100 + (if n % 100 == 99 then 1 else 0)
    ensures n % 100 == 99 ==> n % 4 == 3
  {
    assert n % 100 == 99 ==> n == 100 * (n / 100) + 99;
  }

  function YearOfEra(doe: int): int {
    (doe - doe / 1460 + doe / 36524 - doe / 146096) / 365
  }

  // The source's division formula finds the year a day of the era belongs to.
  lemma YearOfEraCorrect(yoe: int, doy: int)
    requires 0 <= yoe < 400 && 0 <= doy < YearLength(yoe)
    ensures YearOfEra(YearStart(yoe) + doy) == yoe
  {
    // century, four-year cycle, year of the cycle
    var c, q, r := yoe / 100, (yoe % 100) / 4, yoe % 4;
    YearDigits(yoe);
    CenturyOfEra(c, 1461 * q + 365 * r + doy);
    CycleOfEra(c, q, 365 * r + doy);
    YearQuotient(yoe, doy - (if 24 * c + q + 365 * r + doy >= 1460 then 1 else 0));
  }

  lemma YearDigits(yoe: int)
    requires 0 <= yoe < 400
    ensures var c, q, r := yoe / 100, (yoe % 100) / 4, yoe % 4;
            && 0 <= c < 4 && 0 <= q < 25 && 0 <= r < 4
            && yoe == 100 * c + 4 * q + r
            && YearStart(yoe) == 36524 * c + 1461 * q + 365 * r
            && YearLength(yoe) == (if r == 3 && (q < 24 || c == 3) then 366 else 365)
  {
    var c, q, r := yoe / 100, (yoe % 100) / 4, yoe % 4;
    assert yoe % 100 == 4 * q + r;
    assert yoe / 4 == 25 * c + q;
  }

  lemma YearQuotient(yoe: int, rest: int)
    requires 0 <= rest < 365
    ensures (365 * yoe + rest) / 365 == yoe
  {
  }

  lemma CenturyOfEra(c: int, rest: int)
    requires 0 <= c < 4 && 0 <= rest <= 36524 && (rest == 36524 ==> c == 3)
    ensures (36524 * c + rest) / 36524 - (36524 * c + rest) / 146096 == c
  {
  }

  lemma CycleOfEra(c: int, q: int, rest: int)
    requires 0 <= c < 4 && 0 <= q < 25 && 0 <= rest <= 1460
    ensures (36524 * c + 1461 * q + rest) / 1460
         == 25 * c + q + (if 24 * c + q + rest >= 1460 then 1 else 0)
  {
  }

  function MonthStart(mp: int): int {
    (153 * mp + 2) / 5
  }

  // Lengths of the twelve months from March; the twelfth is bounded by the year.
  function MarchMonthLength(mp: int): int {
    if mp == 1 || mp == 3 || mp == 6 || mp == 8 then 30 else if mp == 11 then 29 else 31
  }

  lemma MonthOfYear(mp: int, dom: int)
    requires 0 <= mp < 12 && 0 <= dom < (if mp == 11 then 29 else MarchMonthLength(mp))
    ensures (5 * (MonthStart(mp) + dom) + 2) / 153 == mp
  {
  }

  // ----- both closed forms in terms of (era, year of era, March-based month, day of month)

  function FromMarch(era: int, yoe: int, mp: int, dom: int): Date {
    var m := if mp < 10 then mp + 3 else mp - 9;
    Date(era * 400 + yoe + (if m <= 2 then 1 else 0), m, dom + 1)
  }

  function DayNumber(era: int, yoe: int, mp: int, dom: int): int {
    era * 146097 + YearStart(yoe) + MonthStart(mp) + dom - 719468
  }

  ghost predicate MarchRange(yoe: int, mp: int, dom: int) {
    0 <= yoe < 400 && 0 <= mp < 12 && 0 <= dom
    && dom < (if mp == 11 then YearLength(yoe) - 337 else MarchMonthLength(mp))
  }

  lemma DaysFromMarch(era: int, yoe: int, mp: int, dom: int)
    requires 0 <= yoe < 400 && 0 <= mp < 12
    ensures var c := FromMarch(era, yoe, mp, dom);
            DaysFromCivil(c.y, c.m, c.d) == DayNumber(era, yoe, mp, dom)
  {
    hide TruncDiv, YearStart;
    TruncIsFloor400(era * 400 + yoe);
    assert (era * 400 + yoe) / 400 == era;
    TruncNonNegative(yoe, 4);
    TruncNonNegative(yoe, 100);
    TruncNonNegative(153 * mp + 2, 5);
    YearStartIs(yoe);
  }

  lemma CivilFromMarch(era: int, yoe: int, mp: int, dom: int)
    requires MarchRange(yoe, mp, dom)
    ensures CivilFromDays(DayNumber(era, yoe, mp, dom)) == FromMarch(era, yoe, mp, dom)
  {
    hide TruncDiv, YearStart, MonthStart, YearLength, YearOfEra;
    var doy := MonthStart(mp) + dom;
    var doe := YearStart(yoe) + doy;
    var z := era * 146097 + doe;
    DayOfYearBounds(yoe, mp, dom);
    YearBounds(yoe);
    TruncIsFloor146097(z);
    assert z / 146097 == era;
    YearOfEraTruncated(doe);
    YearOfEraCorrect(yoe, doy);
    TruncNonNegative(yoe, 4);
    TruncNonNegative(yoe, 100);
    YearStartIs(yoe);
    TruncNonNegative(5 * doy + 2, 153);
    MonthOfYear(mp, dom);
    TruncNonNegative(153 * mp + 2, 5);
    MonthStartIs(mp);
  }

  lemma DayOfYearBounds(yoe: int, mp: int, dom: int)
    requires MarchRange(yoe, mp, dom)
    ensures 0 <= dom < MarchMonthLength(mp)
    ensures 0 <= MonthStart(mp) + dom < YearLength(yoe)
  {
  }

  lemma YearOfEraTruncated(doe: int)
    requires doe >= 0
    ensures TruncDiv(doe - TruncDiv(doe, 1460) + TruncDiv(doe, 36524) - TruncDiv(doe, 146096), 365) == YearOfEra(doe)
  {
    assert doe / 1460 <= doe && doe / 146096 <= doe / 36524;
  }

  lemma MonthStartIs(mp: int)
    ensures MonthStart(mp) == (153 * mp + 2) / 5
  {
  }

  lemma YearBounds(yoe: int)
    requires 0 <= yoe < 400
    ensures 0 <= YearStart(yoe) && YearStart(yoe) + YearLength(yoe) <= 146097
  {
    YearDigits(yoe);
  }

  // A date is valid exactly when its March form is in range.
  lemma MarchOfDate(c: Date) returns (era: int, yoe: int, mp: int, dom: int)
    requires 1 <= c.m <= 12
    ensures c == FromMarch(era, yoe, mp, dom) && 0 <= yoe < 400 && 0 <= mp < 12
    ensures ValidDate(c) <==> MarchRange(yoe, mp, dom)
  {
    var y1 := if c.m <= 2 then c.y - 1 else c.y;
    era, yoe := y1 / 400, y1 % 400;
    mp, dom := if c.m > 2 then c.m - 3 else c.m + 9, c.d - 1;
    if c.m == 2 { LeapOfEra(era, yoe); }
  }

  lemma LeapOfEra(era: int, yoe: int)
    requires 0 <= yoe < 400
    ensures IsLeap(era * 400 + yoe + 1) <==> YearLength(yoe) == 366
  {
    EraRemainders(era, yoe + 1);
    assert IsLeap(era * 400 + yoe + 1) <==> IsLeap(yoe + 1);
  }

  lemma EraRemainders(era: int, n: int)
    ensures (era * 400 + n) % 4 == n % 4
    ensures (era * 400 + n) % 100 == n % 100
    ensures (era * 400 + n) % 400 == n % 400
  {
    Remainder4(era, n);
    Remainder100(era, n);
  }

  lemma Remainder4(era: int, n: int)
    ensures (era * 400 + n) % 4 == n % 4
  {
    assert era * 400 + n == 4 * (era * 100 + n / 4) + n % 4;
  }

  lemma Remainder100(era: int, n: int)
    ensures (era * 400 + n) % 100 == n % 100
  {
  }

  lemma LengthBounds(yoe: int)
    ensures 365 <= YearLength(yoe) <= 366 && YearLength(399) == 366
    ensures MonthStart(0) == 0 && MonthStart(11) == 337
    ensures YearStart(0) == 0 && YearStart(399) == 145731
  {
  }

  // A day of an era lies in one of its years.
  lemma YearOfDay(doe: int) returns (yoe: int)
    requires 0 <= doe < 146097
    ensures 0 <= yoe < 400 && YearStart(yoe) <= doe < YearStart(yoe) + YearLength(yoe)
  {
    hide YearStart, YearLength;
    yoe := 0;
    LengthBounds(yoe);
    while yoe < 399 && YearStart(yoe + 1) <= doe
      invariant 0 <= yoe <= 399 && YearStart(yoe) <= doe
    {
      yoe := yoe + 1;
    }
    if yoe < 399 { YearStartStep(yoe); }
  }

  // A day of a year, counted from 1 March, lies in one of its months.
  lemma MonthOfDay(doy: int, length: int) returns (mp: int, dom: int)
    requires 0 <= doy < length && 365 <= length <= 366
    ensures 0 <= mp < 12 && 0 <= dom && doy == MonthStart(mp) + dom
    ensures dom < if mp == 11 then length - 337 else MarchMonthLength(mp)
  {
    mp := (5 * doy + 2) / 153;
    dom := doy - MonthStart(mp);
  }

  lemma MarchOfDay(days: int) returns (era: int, yoe: int, mp: int, dom: int)
    ensures MarchRange(yoe, mp, dom) && days == DayNumber(era, yoe, mp, dom)
  {
    hide YearStart, YearLength, MonthStart;
    var z := days + 719468;
    era := z / 146097;
    yoe := YearOfDay(z % 146097);
    LengthBounds(yoe);
    mp, dom := MonthOfDay(z % 146097 - YearStart(yoe), YearLength(yoe));
    assert z == era * 146097 + z % 146097;
  }

  // ----- main results

  // The day number counts days of the Gregorian calendar from 1 January 1970.
  lemma EpochIsDayZero()
    ensures DaysFromCivil(1970, 1, 1) == 0
  {
  }

  // Length of the March-based month `mp` of year `yoe`, and the day after one of its days.
  function MonthLength(yoe: int, mp: int): int {
    if mp == 11 then YearLength(yoe) - 337 else MarchMonthLength(mp)
  }

  lemma MonthStep(mp: int)
    requires 0 <= mp < 11
    ensures MonthStart(mp + 1) == MonthStart(mp) + MarchMonthLength(mp)
  {
  }

  lemma MonthLengthAgrees(era: int, yoe: int, mp: int, dom: int)
    requires 0 <= yoe < 400 && 0 <= mp < 12
    ensures var c := FromMarch(era, yoe, mp, dom); DaysInMonth(c.y, c.m) == MonthLength(yoe, mp)
  {
    hide IsLeap;
    if mp == 11 { LeapOfEra(era, yoe); }
  }

  lemma NextOfMarch(era: int, yoe: int, mp: int, dom: int) returns (era': int, yoe': int, mp': int, dom': int)
    requires MarchRange(yoe, mp, dom)
    ensures MarchRange(yoe', mp', dom')
    ensures NextDay(FromMarch(era, yoe, mp, dom)) == FromMarch(era', yoe', mp', dom')
    ensures DayNumber(era', yoe', mp', dom') == DayNumber(era, yoe, mp, dom) + 1
  {
    hide DaysInMonth, YearStart, MonthStart, YearLength;
    MonthLengthAgrees(era, yoe, mp, dom);
    LengthBounds(yoe);
    if dom + 1 < MonthLength(yoe, mp) {
      era', yoe', mp', dom' := era, yoe, mp, dom + 1;
    } else if mp < 11 {
      MonthStep(mp);
      era', yoe', mp', dom' := era, yoe, mp + 1, 0;
    } else if yoe < 399 {
      YearStartStep(yoe);
      era', yoe', mp', dom' := era, yoe + 1, 0, 0;
    } else {
      era', yoe', mp', dom' := era + 1, 0, 0, 0;
    }
  }

  lemma DaysFromCivilCounts(c: Date)
    requires ValidDate(c)
    ensures DaysFromCivil(1970, 1, 1) == 0
    ensures var n := NextDay(c);
            ValidDate(n) && DaysFromCivil(n.y, n.m, n.d) == DaysFromCivil(c.y, c.m, c.d) + 1
  {
    hide DaysFromCivil, DayNumber, NextDay, DaysInMonth;
    EpochIsDayZero();
    var era, yoe, mp, dom := MarchOfDate(c);
    DaysFromMarch(era, yoe, mp, dom);
    var era', yoe', mp', dom' := NextOfMarch(era, yoe, mp, dom);
    DaysFromMarch(era', yoe', mp', dom');
    MonthLengthAgrees(era', yoe', mp', dom');
  }

  lemma CivilInvertsDays(c: Date)
    requires ValidDate(c)
    ensures CivilFromDays(DaysFromCivil(c.y, c.m, c.d)) == c
  {
    var era, yoe, mp, dom := MarchOfDate(c);
    DaysFromMarch(era, yoe, mp, dom);
    CivilFromMarch(era, yoe, mp, dom);
  }

  lemma DaysInvertsCivil(days: int)
    ensures var c := CivilFromDays(days);
            ValidDate(c) && DaysFromCivil(c.y, c.m, c.d) == days
  {
    hide DaysFromCivil, CivilFromDays, DayNumber, DaysInMonth, YearLength;
    var era, yoe, mp, dom := MarchOfDay(days);
    CivilFromMarch(era, yoe, mp, dom);
    DaysFromMarch(era, yoe, mp, dom);
    MonthLengthAgrees(era, yoe, mp, dom);
  }

  lemma CivilSuccessor(days: int)
    ensures CivilFromDays(days + 1) == NextDay(CivilFromDays(days))
  {
    hide DaysFromCivil, CivilFromDays, NextDay;
    var c := CivilFromDays(days);
    DaysInvertsCivil(days);
    DaysFromCivilCounts(c);
    CivilInvertsDays(NextDay(c));
  }

  // A year of zero marks an absent time; any second of a real day in another year is one.
  lemma ZeroYearIsAbsent(y: int, mo: int, d: int, h: int, mi: int, sec: int)
    ensures y == 0 ==> ExifUnix(y, mo, d, h, mi, sec) == None
    ensures y != 0 && ValidDate(Date(y, mo, d)) && 0 <= h < 24 && 0 <= mi < 60 && 0 <= sec < 60 ==>
              ExifUnix(y, mo, d, h, mi, sec).Some?
  {
    hide DaysFromCivil;
  }

  // A timestamp the parser accepted prints as the fields it was parsed from exactly when
  // those fields name a real day and a real second of it. The parser checks neither the
  // month's length nor, for signed fields, the lower ends; and it accepts second 60.
  lemma PrintsWhatWasParsed(y: int, mo: int, d: int, h: int, mi: int, sec: int)
    requires ExifUnix(y, mo, d, h, mi, sec).Some?
    ensures FmtUnix(ExifUnix(y, mo, d, h, mi, sec).value) == Stamp(Date(y, mo, d), h, mi)
       <==> ValidDate(Date(y, mo, d)) && 0 <= h && 0 <= mi && 0 <= sec < 60
  {
    hide DaysFromCivil, CivilFromDays;
    var t := ExifUnix(y, mo, d, h, mi, sec).value;
    var days := DaysFromCivil(y, mo, d);
    DaysInvertsCivil(t / 86400);
    var secs := t % 86400;
    assert secs == secs / 3600 * 3600 + (secs % 3600) / 60 * 60 + secs % 60;
    if ValidDate(Date(y, mo, d)) && 0 <= h && 0 <= mi && 0 <= sec < 60 {
      var s := h * 3600 + mi * 60 + sec;
      assert t / 86400 == days && secs == s;
      CivilInvertsDays(Date(y, mo, d));
    }
    if FmtUnix(t) == Stamp(Date(y, mo, d), h, mi) {
      assert t / 86400 == days;
      assert secs == h * 3600 + mi * 60 + sec;
    }
  }

  lemma LeapSecondPrintsNextMinute()
    ensures ExifUnix(2016, 12, 31, 23, 59, 60).Some?
    ensures FmtUnix(ExifUnix(2016, 12, 31, 23, 59, 60).value) == Stamp(Date(2017, 1, 1), 0, 0)
  {
    hide DaysFromCivil, CivilFromDays;
    DaysFromMarch(5, 16, 9, 30);
    DaysFromMarch(5, 16, 10, 0);
    CivilInvertsDays(Date(2017, 1, 1));
  }

  lemma ImpossibleDayPrintsAnother()
    ensures ExifUnix(2023, 2, 31, 0, 0, 0).Some?
    ensures FmtUnix(ExifUnix(2023, 2, 31, 0, 0, 0).value) == Stamp(Date(2023, 3, 3), 0, 0)
  {
    hide DaysFromCivil, CivilFromDays;
    DaysFromMarch(5, 22, 11, 30);
    DaysFromMarch(5, 23, 0, 2);
    CivilInvertsDays(Date(2023, 3, 3));
  }
}
