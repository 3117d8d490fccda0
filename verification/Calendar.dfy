// The civil-calendar arithmetic behind request dates (crates/repo/src/cloud.rs).
module Calendar {

  datatype Date = Date(y: int, m: int, d: int)

  /** Integer division as the original's operator does it: towards zero. */
  function Quotient(a: int, b: int): int
    requires b > 0
  {
    if a >= 0 then a / b else -((-a) / b)
  }

  /** What is left over has the sign of the dividend. */
  function Remainder(a: int, b: int): (r: int)
    requires b > 0
    ensures if a >= 0 then r == a % b else r == -((-a) % b)
  {
    a - b * Quotient(a, b)
  }

  /** Days before month `mp` of a year that starts in March. */
  function MonthStart(mp: int): int {
    Quotient(153 * mp + 2, 5)
  }

  /** Days before year `yoe` of an era. */
  function YearStart(yoe: int): int {
    yoe * 365 + Quotient(yoe, 4) - Quotient(yoe, 100)
  }

  /** The year of the era a day of the era falls in. */
  function YearOfDay(doe: int): int {
    Quotient(doe - Quotient(doe, 1460) + Quotient(doe, 36524) - Quotient(doe, 146096), 365)
  }

  /** The date on day `doy` of the year `y` that starts in March. */
  function DateOfYear(y: int, doy: int): Date {
    var mp := Quotient(5 * doy + 2, 153);
    var d := doy - MonthStart(mp) + 1;
    var m := if mp < 10 then mp + 3 else mp - 9;
    Date(if m <= 2 then y + 1 else y, m, d)
  }

  /** `civil_from_days`: days since 1970-01-01 to a date. */
  function CivilFromDays(days: int): Date {
    var z := days + 719468;
    var era := Quotient(if z >= 0 then z else z - 146096, 146097);
    var doe := z - era * 146097;
    var yoe := YearOfDay(doe);
    var doy := doe - YearStart(yoe);
    DateOfYear(yoe + era * 400, doy)
  }

  /** `days_from_civil`: a date to days since 1970-01-01. */
  function DaysFromCivil(date: Date): int {
    var y := if date.m <= 2 then date.y - 1 else date.y;
    var era := Quotient(if y >= 0 then y else y - 399, 400);
    var yoe := y - era * 400;
    var mp := if date.m > 2 then date.m - 3 else date.m + 9;
    var doy := MonthStart(mp) + date.d - 1;
    var doe := YearStart(yoe) + doy;
    era * 146097 + doe - 719468
  }

  /** `http_date`'s weekday index, 0 for Sunday. */
  function Weekday(days: int): int {
    (Remainder(days, 7) + 4) % 7
  }

  // ---- the calendar itself ----

  predicate Leap(y: int) {
    y % 4 == 0 && (y % 100 != 0 || y % 400 == 0)
  }

  function MonthLength(y: int, m: int): int
    requires 1 <= m <= 12
  {
    if m == 2 then (if Leap(y) then 29 else 28)
    else if m == 4 || m == 6 || m == 9 || m == 11 then 30 else 31
  }

  /** A date of the proleptic Gregorian calendar. */
  predicate Valid(date: Date) {
    1 <= date.m <= 12 && 1 <= date.d <= MonthLength(date.y, date.m)
  }

  function NextDay(date: Date): Date
    requires Valid(date)
  {
    if date.d < MonthLength(date.y, date.m) then Date(date.y, date.m, date.d + 1)
    else if date.m < 12 then Date(date.y, date.m + 1, 1)
    else Date(date.y + 1, 1, 1)
  }

  lemma NextDayValid(date: Date)
    requires Valid(date)
    ensures Valid(NextDay(date))
  {}

  // ---- years from March, months from March ----

  /** The year and month counted from March, as both directions use them. */
  function MarchYear(date: Date): int {
    if date.m <= 2 then date.y - 1 else date.y
  }

  function MarchMonth(date: Date): int {
    if date.m > 2 then date.m - 3 else date.m + 9
  }

  function DayOfYear(date: Date): int {
    MonthStart(MarchMonth(date)) + date.d - 1
  }

  /** The length of month `mp` of March-year `y`. */
  lemma MonthStep(mp: int)
    requires 0 <= mp < 11
    ensures MonthStart(mp + 1) == MonthStart(mp) + (if mp == 1 || mp == 3 || mp == 6 || mp == 8 then 30 else 31)
    ensures MonthStart(0) == 0 && MonthStart(11) == 337
  {
    var s := [0, 31, 61, 92, 122, 153, 184, 214, 245, 275, 306, 337];
    assert MonthStart(mp) == s[mp] && MonthStart(mp + 1) == s[mp + 1];
  }

  lemma MonthOfDay(mp: int, d: int)
    requires 0 <= mp <= 11
    requires 1 <= d <= (if mp == 11 then 29 else if mp == 1 || mp == 3 || mp == 6 || mp == 8 then 30 else 31)
    ensures Quotient(5 * (MonthStart(mp) + d - 1) + 2, 153) == mp
  {
    var s := [0, 31, 61, 92, 122, 153, 184, 214, 245, 275, 306, 337];
    assert MonthStart(mp) == s[mp];
  }

  lemma DayHasMonth(doy: int)
    requires 0 <= doy <= 365
    ensures var mp := Quotient(5 * doy + 2, 153);
            0 <= mp <= 11 &&
            1 <= doy - MonthStart(mp) + 1
              <= (if mp == 11 then 29 else if mp == 1 || mp == 3 || mp == 6 || mp == 8 then 30 else 31)
            && (mp == 11 && doy - MonthStart(mp) + 1 == 29 <==> doy == 365)
  {
    var s := [0, 31, 61, 92, 122, 153, 184, 214, 245, 275, 306, 337];
    var mp := Quotient(5 * doy + 2, 153);
    assert 0 <= mp <= 11;
    assert MonthStart(mp) == s[mp];
  }

  // ---- years of an era ----

  /** A day of an era, by century, four-year cycle, year and day of year. */
  predicate Parts(c: int, q: int, r: int, doy: int) {
    && 0 <= c <= 3 && 0 <= q <= 24 && 0 <= r <= 3 && 0 <= doy <= 365
    && (doy == 365 ==> r == 3 && (q != 24 || c == 3))
  }

  function FromParts(c: int, q: int, r: int, doy: int): int {
    36524 * c + 1461 * q + 365 * r + doy
  }

  lemma PartsAreYear(c: int, q: int, r: int, doy: int)
    requires Parts(c, q, r, doy)
    ensures FromParts(c, q, r, doy) == YearStart(100 * c + 4 * q + r) + doy
    ensures 0 <= FromParts(c, q, r, doy) <= 146096
  {
    var yoe := 100 * c + 4 * q + r;
    assert Quotient(yoe, 100) == c;
    assert Quotient(yoe, 4) == 25 * c + q;
  }

  /** The year-of-era formula finds the year of every day. */
  lemma YearOfEra(c: int, q: int, r: int, doy: int)
    requires Parts(c, q, r, doy)
    ensures YearOfDay(FromParts(c, q, r, doy)) == 100 * c + 4 * q + r
  {
    PartsAreYear(c, q, r, doy);
    var doe := FromParts(c, q, r, doy);
    Centuries(c, q, r, doy);
    var k := Quotient(doe, 1460);
    assert 1460 * k <= doe < 1460 * k + 1460;
    assert k <= 25 * c + q + doy;
    assert 25 * c + q + doy - 364 <= k;
    var n := doe - k + c;
    var yoe := 100 * c + 4 * q + r;
    assert 365 * yoe <= n < 365 * yoe + 365;
  }

  lemma Centuries(c: int, q: int, r: int, doy: int)
    requires Parts(c, q, r, doy)
    ensures var doe := FromParts(c, q, r, doy); Quotient(doe, 36524) - Quotient(doe, 146096) == c
  {
    var doe := FromParts(c, q, r, doy);
    var rest := 1461 * q + 365 * r + doy;
    assert 0 <= rest <= 36524;
    if rest == 36524 {
      assert c == 3 && doe == 146096;
    } else {
      assert doe < 146096;
    }
  }

  /** Every day of an era has parts. */
  lemma DayHasParts(doe: int) returns (c: int, q: int, r: int, doy: int)
    requires 0 <= doe <= 146096
    ensures Parts(c, q, r, doy) && FromParts(c, q, r, doy) == doe
  {
    c := if doe == 146096 then 3 else doe / 36524;
    var inCentury := doe - 36524 * c;
    q := inCentury / 1461;
    var inCycle := inCentury - 1461 * q;
    r := if inCycle == 1460 then 3 else inCycle / 365;
    doy := inCycle - 365 * r;
  }

  lemma YearHasParts(yoe: int) returns (c: int, q: int, r: int)
    requires 0 <= yoe < 400
    ensures 0 <= c <= 3 && 0 <= q <= 24 && 0 <= r <= 3 && yoe == 100 * c + 4 * q + r
  {
    c := yoe / 100;
    q := (yoe - 100 * c) / 4;
    r := yoe - 100 * c - 4 * q;
  }

  lemma Modulo4(k: int, n: int)
    ensures (4 * k + n) % 4 == n % 4
  {}

  lemma Modulo7(k: int, n: int)
    ensures (7 * k + n) % 7 == n % 7
  {}

  lemma Modulo100(k: int, n: int)
    ensures (100 * k + n) % 100 == n % 100
  {}

  lemma Modulo400(k: int, n: int)
    ensures (400 * k + n) % 400 == n % 400
  {}

  /** The last day of a March-year exists exactly when the next year is leap. */
  lemma LastDay(era: int, c: int, q: int, r: int)
    requires 0 <= c <= 3 && 0 <= q <= 24 && 0 <= r <= 3
    ensures Leap(400 * era + 100 * c + 4 * q + r + 1) <==> r == 3 && (q != 24 || c == 3)
  {
    var y := 400 * era + 100 * c + 4 * q + r + 1;
    Modulo4(100 * era + 25 * c + q, r + 1);
    Modulo100(4 * era + c, 4 * q + r + 1);
    Modulo400(era, 100 * c + 4 * q + r + 1);
    assert y % 4 == (r + 1) % 4 && y % 100 == (4 * q + r + 1) % 100 && y % 400 == (100 * c + 4 * q + r + 1) % 400;
  }

  lemma EraOfDay(z: int)
    ensures var era := Quotient(if z >= 0 then z else z - 146096, 146097); 0 <= z - era * 146097 <= 146096
  {}

  lemma EraOfYear(y: int)
    ensures var era := Quotient(if y >= 0 then y else y - 399, 400); 0 <= y - era * 400 < 400
  {}

  lemma SameEra(e1: int, r1: int, e2: int, r2: int)
    requires 0 <= r1 < 146097 && 0 <= r2 < 146097 && e1 * 146097 + r1 == e2 * 146097 + r2
    ensures e1 == e2 && r1 == r2
  {}

  lemma SameParts(e1: int, c1: int, q1: int, r1: int, e2: int, c2: int, q2: int, r2: int)
    requires 0 <= c1 <= 3 && 0 <= q1 <= 24 && 0 <= r1 <= 3 && 0 <= c2 <= 3 && 0 <= q2 <= 24 && 0 <= r2 <= 3
    requires 400 * e1 + 100 * c1 + 4 * q1 + r1 == 400 * e2 + 100 * c2 + 4 * q2 + r2
    ensures e1 == e2 && c1 == c2 && q1 == q2 && r1 == r2
  {}

  // ---- the two directions ----

  /** A date and its parts agree. */
  lemma DateHasParts(date: Date) returns (era: int, c: int, q: int, r: int)
    requires Valid(date)
    ensures Parts(c, q, r, DayOfYear(date))
    ensures MarchYear(date) == 400 * era + 100 * c + 4 * q + r
    ensures DaysFromCivil(date) == era * 146097 + FromParts(c, q, r, DayOfYear(date)) - 719468
  {
    hide Quotient, MonthStart, YearStart, Leap, FromParts;
    var y, mp := MarchYear(date), MarchMonth(date);
    era := Quotient(if y >= 0 then y else y - 399, 400);
    EraOfYear(y);
    c, q, r := YearHasParts(y - era * 400);
    LastDay(era, c, q, r);
    MonthStep(if mp < 11 then mp else 10);
    assert mp == 11 ==> date.m == 2 && MonthLength(date.y, 2) == (if Leap(y + 1) then 29 else 28);
    MonthBounds(mp, date.d);
    PartsAreYear(c, q, r, DayOfYear(date));
  }

  lemma MonthBounds(mp: int, d: int)
    requires 0 <= mp <= 11
    requires 1 <= d <= (if mp == 11 then 29 else if mp == 1 || mp == 3 || mp == 6 || mp == 8 then 30 else 31)
    ensures 0 <= MonthStart(mp) + d - 1 <= 365
    ensures MonthStart(mp) + d - 1 == 365 <==> mp == 11 && d == 29
  {
    var s := [0, 31, 61, 92, 122, 153, 184, 214, 245, 275, 306, 337];
    assert MonthStart(mp) == s[mp];
  }

  lemma CivilOfParts(era: int, c: int, q: int, r: int, doy: int)
    requires Parts(c, q, r, doy)
    ensures CivilFromDays(era * 146097 + FromParts(c, q, r, doy) - 719468) ==
          DateOfYear(400 * era + 100 * c + 4 * q + r, doy)
  {
    hide Quotient, YearOfDay, DateOfYear, FromParts;
    var doe := FromParts(c, q, r, doy);
    var z := era * 146097 + doe;
    PartsAreYear(c, q, r, doy);
    EraOfDay(z);
    var era' := Quotient(if z >= 0 then z else z - 146096, 146097);
    SameEra(era, doe, era', z - era' * 146097);
    YearOfEra(c, q, r, doy);
  }

  /** Day `doy` of a March-year is a valid date of that year. */
  lemma DateOfYearValid(era: int, c: int, q: int, r: int, doy: int)
    requires Parts(c, q, r, doy)
    ensures var y := 400 * era + 100 * c + 4 * q + r;
            var date := DateOfYear(y, doy);
            Valid(date) && DayOfYear(date) == doy && MarchYear(date) == y
  {
    hide Quotient, Leap;
    DayHasMonth(doy);
    LastDay(era, c, q, r);
  }

  /** Every day number is a valid date, and converting it back returns it. */
  lemma DaysRoundTrip(days: int)
    ensures Valid(CivilFromDays(days)) && DaysFromCivil(CivilFromDays(days)) == days
  {
    hide Quotient, CivilFromDays, DaysFromCivil, Valid, FromParts;
    var z := days + 719468;
    EraOfDay(z);
    var era := Quotient(if z >= 0 then z else z - 146096, 146097);
    var c, q, r, doy := DayHasParts(z - era * 146097);
    CivilOfParts(era, c, q, r, doy);
    DateOfYearValid(era, c, q, r, doy);
    var era', c', q', r' := DateHasParts(CivilFromDays(days));
    SameParts(era, c, q, r, era', c', q', r');
  }

  /** Every valid date comes back from its day number. */
  lemma DateRoundTrip(date: Date)
    requires Valid(date)
    ensures CivilFromDays(DaysFromCivil(date)) == date
  {
    hide Quotient, CivilFromDays, DaysFromCivil, FromParts, Leap;
    var era, c, q, r := DateHasParts(date);
    CivilOfParts(era, c, q, r, DayOfYear(date));
    MonthOfDay(MarchMonth(date), date.d);
  }

  // ---- successive days ----

  lemma NextInCycle(c: int, q: int, r: int)
    ensures FromParts(c, q, r + 1, 0) == FromParts(c, q, r, 0) + 365
  {}

  lemma NextCycle(c: int, q: int)
    ensures FromParts(c, q + 1, 0, 0) == FromParts(c, q, 3, 0) + 366
  {}

  lemma NextCentury(c: int)
    ensures FromParts(c + 1, 0, 0, 0) == FromParts(c, 24, 3, 0) + 365
  {}

  lemma NextEra(c: int, q: int, r: int)
    requires c == 3 && q == 24 && r == 3
    ensures 146097 + FromParts(c - 3, q - 24, r - 3, 0) == FromParts(c, q, r, 0) + 366
  {}

  /** The year after a year of an era, possibly the first of the next era. */
  lemma NextParts(c: int, q: int, r: int) returns (de: int, c': int, q': int, r': int)
    requires 0 <= c <= 3 && 0 <= q <= 24 && 0 <= r <= 3
    ensures 0 <= c' <= 3 && 0 <= q' <= 24 && 0 <= r' <= 3
    ensures 400 * de + 100 * c' + 4 * q' + r' == 100 * c + 4 * q + r + 1
    ensures 146097 * de + FromParts(c', q', r', 0) == FromParts(c, q, r, 0) +
          (if r == 3 && (q != 24 || c == 3) then 366 else 365)
  {
    hide FromParts;
    if r < 3 {
      de, c', q', r' := 0, c, q, r + 1;
      NextInCycle(c, q, r);
    } else if q < 24 {
      de, c', q', r' := 0, c, q + 1, 0;
      NextCycle(c, q);
    } else if c < 3 {
      de, c', q', r' := 0, c + 1, 0, 0;
      NextCentury(c);
    } else {
      de, c', q', r' := 1, 0, 0, 0;
      NextEra(c, q, r);
    }
  }

  /** The first of March of the year after a March-year. */
  lemma YearStep(era: int, c: int, q: int, r: int)
    requires 0 <= c <= 3 && 0 <= q <= 24 && 0 <= r <= 3
    ensures var y := 400 * era + 100 * c + 4 * q + r;
            DaysFromCivil(Date(y + 1, 3, 1)) == era * 146097 + FromParts(c, q, r, 0) - 719468 +
                (if Leap(y + 1) then 366 else 365)
  {
    hide Quotient, DaysFromCivil, Leap, DayOfYear, FromParts;
    var next := Date(400 * era + 100 * c + 4 * q + r + 1, 3, 1);
    LastDay(era, c, q, r);
    FirstOfMarch(next.y);
    var era', c', q', r' := DateHasParts(next);
    var de, c1, q1, r1 := NextParts(c, q, r);
    SameParts(era + de, c1, q1, r1, era', c', q', r');
  }

  lemma FirstOfMarch(y: int)
    ensures DayOfYear(Date(y, 3, 1)) == 0 && MarchYear(Date(y, 3, 1)) == y
  {}

  /** Two dates of one March-year are as far apart as their days of the year. */
  lemma SameMarchYear(date: Date, next: Date)
    requires Valid(date) && Valid(next) && MarchYear(date) == MarchYear(next)
    ensures DaysFromCivil(next) - DaysFromCivil(date) == DayOfYear(next) - DayOfYear(date)
  {
    hide Quotient, DaysFromCivil, Leap, DayOfYear;
    var era, c, q, r := DateHasParts(date);
    var era', c', q', r' := DateHasParts(next);
    SameParts(era, c, q, r, era', c', q', r');
  }

  lemma MonthEnd(date: Date)
    requires Valid(date) && date.m != 2 && date.d == MonthLength(date.y, date.m)
    ensures MarchYear(NextDay(date)) == MarchYear(date) && DayOfYear(NextDay(date)) == DayOfYear(date) + 1
  {
    hide Quotient, MonthStart, Leap;
    MonthStep(MarchMonth(date));
  }

  lemma FebruaryEnd(date: Date)
    requires Valid(date) && date.m == 2 && date.d == MonthLength(date.y, 2)
    ensures DayOfYear(date) == (if Leap(date.y) then 365 else 364)
  {
    hide Quotient, MonthStart, Leap;
    MonthStep(10);
  }

  lemma NextDayNumber(date: Date)
    requires Valid(date)
    ensures DaysFromCivil(NextDay(date)) == DaysFromCivil(date) + 1
  {
    hide Quotient, DaysFromCivil, MonthStart, Leap;
    NextDayValid(date);
    if date.d < MonthLength(date.y, date.m) {
      SameMarchYear(date, NextDay(date));
    } else if date.m != 2 {
      MonthEnd(date);
      SameMarchYear(date, NextDay(date));
    } else {
      var era, c, q, r := DateHasParts(date);
      YearStep(era, c, q, r);
      FebruaryEnd(date);
    }
  }

  lemma Epoch()
    ensures CivilFromDays(0) == Date(1970, 1, 1)
  {
    assert Quotient(719468, 146097) == 4;
  }

  /** The day number 0 is 1970-01-01 and each following number is the following
      day, before and after 1970: the conversion is the Gregorian calendar. */
  lemma SuccessiveDays(days: int)
    ensures CivilFromDays(0) == Date(1970, 1, 1)
    ensures Valid(CivilFromDays(days)) && CivilFromDays(days + 1) == NextDay(CivilFromDays(days))
  {
    hide Quotient, CivilFromDays, DaysFromCivil;
    Epoch();
    DaysRoundTrip(days);
    var date := CivilFromDays(days);
    NextDayValid(date);
    NextDayNumber(date);
    DateRoundTrip(NextDay(date));
  }

  lemma WeekdayModulo(days: int)
    ensures Weekday(days) == (days + 4) % 7
  {
    var k := Quotient(days, 7);
    Modulo7(k, days - 7 * k + 4);
  }

  /** 1970-01-01 was a Thursday and every following day is the following weekday. */
  lemma SuccessiveWeekdays(days: int)
    ensures Weekday(0) == 4
    ensures 0 <= Weekday(days) < 7 && Weekday(days + 1) == (Weekday(days) + 1) % 7
  {
    hide Weekday;
    WeekdayModulo(0);
    WeekdayModulo(days);
    WeekdayModulo(days + 1);
  }
}
