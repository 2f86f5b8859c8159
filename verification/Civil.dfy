/** Calendar dates from day numbers, against a calendar that only knows how long months and
    years are. */
module Civil {

  /* ---- the calendar ---- */

  predicate Leap(y: int) {
    y % 4 == 0 && (y % 100 != 0 || y % 400 == 0)
  }

  function YearLength(y: int): int {
    if Leap(y) then 366 else 365
  }

  function MonthLength(y: int, m: int): int {
    if m == 2 then (if Leap(y) then 29 else 28)
    else if m == 4 || m == 6 || m == 9 || m == 11 then 30
    else 31
  }

  datatype Date = Date(year: int, month: int, day: int)

  predicate Valid(d: Date) {
    1 <= d.month <= 12 && 1 <= d.day <= MonthLength(d.year, d.month)
  }

  /** Days from 1970-01-01 to the first day of a year, year by year. */
  function YearStart(y: int): int
    decreases if y >= 1970 then y - 1970 else 1970 - y
  {
    if y == 1970 then 0
    else if y > 1970 then YearStart(y - 1) + YearLength(y - 1)
    else YearStart(y + 1) - YearLength(y)
  }

  /** Days of the months before `m`, month by month. */
  function MonthStart(y: int, m: nat): int {
    if m <= 1 then 0 else MonthStart(y, m - 1) + MonthLength(y, m - 1)
  }

  function DayNumber(d: Date): int
    requires d.month >= 0
  {
    YearStart(d.year) + MonthStart(d.year, d.month) + d.day - 1
  }

  /** The day after, by the calendar. */
  function NextDay(d: Date): Date {
    if d.day < MonthLength(d.year, d.month) then Date(d.year, d.month, d.day + 1)
    else if d.month < 12 then Date(d.year, d.month + 1, 1)
    else Date(d.year + 1, 1, 1)
  }

  predicate Earlier(a: Date, b: Date) {
    a.year < b.year || (a.year == b.year && (a.month < b.month || (a.month == b.month && a.day < b.day)))
  }

  /* ---- the conversion ---- */

  /** Division that drops the fraction, as on machine integers. */
  function Quotient(a: int, b: int): int
    requires b > 0
  {
    if a >= 0 then a / b else -((-a) / b)
  }

  function YearOfEra(dayOfEra: int): int {
    Quotient(dayOfEra - Quotient(dayOfEra, 1_460) + Quotient(dayOfEra, 36_524) - Quotient(dayOfEra, 146_096), 365)
  }

  /** Month and day in a year that starts in March. */
  function FromMarch(year: int, dayOfYear: int): Date {
    var monthPrime := Quotient(5 * dayOfYear + 2, 153);
    var day := dayOfYear - Quotient(153 * monthPrime + 2, 5) + 1;
    var month := monthPrime + if monthPrime < 10 then 3 else -9;
    Date(if month <= 2 then year + 1 else year, month, day)
  }

  function EraOf(z: int): int {
    Quotient(if z >= 0 then z else z - 146_096, 146_097)
  }

  function FromEra(era: int, dayOfEra: int): Date {
    var yearOfEra := YearOfEra(dayOfEra);
    var dayOfYear := dayOfEra - (365 * yearOfEra + Quotient(yearOfEra, 4) - Quotient(yearOfEra, 100));
    FromMarch(yearOfEra + era * 400, dayOfYear)
  }

  function CivilFromDays(days: int): Date {
    var z := days + 719_468;
    FromEra(EraOf(z), z - EraOf(z) * 146_097)
  }

  /* ---- division ---- */

  lemma DivisionIs(n: int, d: int, q: int, r: int)
    requires d > 0 && n == q * d + r && 0 <= r < d
    ensures n / d == q && n % d == r
  {
    var a := n / d;
    assert n == a * d + n % d;
    assert a < q ==> (a + 1) * d <= q * d;
    assert a > q ==> (q + 1) * d <= a * d;
  }

  lemma StepDivision(y: int, d: int)
    requires d > 1
    ensures y / d == (y - 1) / d + if y % d == 0 then 1 else 0
  {
    var q, r := (y - 1) / d, (y - 1) % d;
    assert y == q * d + r + 1;
    if r == d - 1 {
      assert y == (q + 1) * d + 0;
      DivisionIs(y, d, q + 1, 0);
    } else {
      DivisionIs(y, d, q, r + 1);
    }
  }

  lemma DivisorsNest(y: int)
    ensures y % 400 == 0 ==> y % 100 == 0
    ensures y % 100 == 0 ==> y % 4 == 0
  {
    if y % 400 == 0 { DivisionIs(y, 100, 4 * (y / 400), 0); }
    if y % 100 == 0 { DivisionIs(y, 4, 25 * (y / 100), 0); }
  }

  /* ---- inside an era of 400 years ---- */

  lemma EraIs(z: int)
    ensures 0 <= z - EraOf(z) * 146_097 <= 146_096
  {
  }

  /** A day of the era as centuries, four-year cycles, years from March and a day. */
  predicate Split(doe: int, c: int, q: int, r: int, s: int) {
    && 0 <= c <= 3 && 0 <= q <= 24 && 0 <= r <= 3
    && doe == 36_524 * c + 1_461 * q + 365 * r + s
    && 0 <= s <= 365 && (s == 365 ==> r == 3 && (q < 24 || c == 3))
  }

  lemma Splits(doe: int) returns (c: int, q: int, r: int, s: int)
    requires 0 <= doe <= 146_096
    ensures Split(doe, c, q, r, s)
  {
    c := if doe < 36_524 then 0 else if doe < 73_048 then 1 else if doe < 109_572 then 2 else 3;
    var left := doe - 36_524 * c;
    q := left / 1_461;
    var rest := left - 1_461 * q;
    r := if rest < 365 then 0 else if rest < 730 then 1 else if rest < 1_095 then 2 else 3;
    s := rest - 365 * r;
  }

  lemma YearOfEraIs(doe: int, c: int, q: int, r: int, s: int)
    requires Split(doe, c, q, r, s)
    ensures YearOfEra(doe) == 100 * c + 4 * q + r
  {
    var extra := 24 * c + q + 365 * r + s;
    assert doe == 1_460 * (25 * c + q) + extra;
    assert Quotient(doe, 1_460) == 25 * c + q + if extra >= 1_460 then 1 else 0;
    assert Quotient(doe, 36_524) - Quotient(doe, 146_096) == c;
  }

  /** Days from March 1 to the first day of the `mp`-th month after it. */
  function MarchStart(mp: int): int {
    (153 * mp + 2) / 5
  }

  lemma MonthPrimeIs(doy: int)
    requires 0 <= doy <= 365
    ensures
      var mp := Quotient(5 * doy + 2, 153);
      0 <= mp <= 11 && MarchStart(mp) <= doy && (doy < MarchStart(mp + 1) || doy == 365)
  {
  }

  /** The day number of March 1. */
  function March(y: int): int {
    365 * y + y / 4 - y / 100 + y / 400 - 719_468
  }

  lemma MarchOfEra(era: int, c: int, q: int, r: int)
    requires 0 <= c <= 3 && 0 <= q <= 24 && 0 <= r <= 3
    ensures March(100 * c + 4 * q + r + era * 400) == 146_097 * era + 36_524 * c + 1_461 * q + 365 * r - 719_468
  {
    var y := 100 * c + 4 * q + r + era * 400;
    DivisionIs(y, 4, 100 * era + 25 * c + q, r);
    DivisionIs(y, 100, 4 * era + c, 4 * q + r);
    DivisionIs(y, 400, era, 100 * c + 4 * q + r);
  }

  lemma LastDayIsLeap(era: int, c: int, q: int)
    requires 0 <= c <= 3 && 0 <= q <= 24 && (q < 24 || c == 3)
    ensures Leap(100 * c + 4 * q + 3 + era * 400 + 1)
  {
    var y := 100 * c + 4 * q + 3 + era * 400 + 1;
    DivisionIs(y, 4, 100 * era + 25 * c + q + 1, 0);
    if q < 24 {
      DivisionIs(y, 100, 4 * era + c, 4 * q + 4);
    } else {
      DivisionIs(y, 400, era + 1, 0);
    }
  }

  lemma FromEraIs(era: int, doe: int, c: int, q: int, r: int, s: int)
    requires Split(doe, c, q, r, s)
    ensures FromEra(era, doe) == FromMarch(100 * c + 4 * q + r + era * 400, s)
  {
    YearOfEraIs(doe, c, q, r, s);
    var yoe := 100 * c + 4 * q + r;
    DivisionIs(yoe, 4, 25 * c + q, r);
    DivisionIs(yoe, 100, c, 4 * q + r);
  }

  lemma EraDay(era: int, doe: int, c: int, q: int, r: int, s: int)
    requires Split(doe, c, q, r, s)
    ensures
      var y := 100 * c + 4 * q + r + era * 400;
      March(y) + s == 146_097 * era + doe - 719_468 && (s == 365 ==> Leap(y + 1))
  {
    MarchOfEra(era, c, q, r);
    if s == 365 { LastDayIsLeap(era, c, q); }
  }

  /* ---- the calendar in closed form ---- */

  lemma {:induction false} YearStartIs(y: int)
    ensures YearStart(y) == 365 * y + (y - 1) / 4 - (y - 1) / 100 + (y - 1) / 400 - 719_527
    decreases if y >= 1970 then y - 1970 else 1970 - y
  {
    if y > 1970 {
      YearStartIs(y - 1);
      LeapsGrow(y - 1);
    } else if y < 1970 {
      YearStartIs(y + 1);
      LeapsGrow(y);
    }
  }

  lemma LeapsGrow(y: int)
    ensures y / 4 - y / 100 + y / 400 == (y - 1) / 4 - (y - 1) / 100 + (y - 1) / 400 + if Leap(y) then 1 else 0
  {
    StepDivision(y, 4);
    StepDivision(y, 100);
    StepDivision(y, 400);
    DivisorsNest(y);
  }

  lemma MarchFromYear(y: int)
    ensures March(y) == YearStart(y) + 59 + (if Leap(y) then 1 else 0) && YearStart(y + 1) == March(y) + 306
  {
    YearStartIs(y);
    YearStartIs(y + 1);
    LeapsGrow(y);
  }

  lemma {:induction false} MonthStarts(y: int, m: nat)
    requires 1 <= m <= 12
    ensures MonthStart(y, m) == if m <= 2 then 31 * (m - 1) else MarchStart(m - 3) + 59 + if Leap(y) then 1 else 0
  {
    if m > 1 {
      MonthStarts(y, m - 1);
    }
  }

  lemma MarchIsRight(y: int, doy: int)
    requires 0 <= doy <= 365 && (doy == 365 ==> Leap(y + 1))
    ensures Valid(FromMarch(y, doy)) && DayNumber(FromMarch(y, doy)) == March(y) + doy
  {
    var mp := Quotient(5 * doy + 2, 153);
    MonthPrimeIs(doy);
    MarchFromYear(y);
    if mp < 10 {
      MonthStarts(y, mp + 3);
      MonthFits(y, mp + 3);
    } else {
      MonthStarts(y + 1, mp - 9);
    }
  }

  lemma MonthFits(y: int, m: nat)
    requires 3 <= m <= 12
    ensures MarchStart(m - 2) == MarchStart(m - 3) + MonthLength(y, m)
  {
  }

  lemma FromEraIsRight(era: int, doe: int)
    requires 0 <= doe <= 146_096
    ensures Valid(FromEra(era, doe)) && DayNumber(FromEra(era, doe)) == 146_097 * era + doe - 719_468
  {
    var c, q, r, s := Splits(doe);
    EraDay(era, doe, c, q, r, s);
    FromEraIs(era, doe, c, q, r, s);
    MarchIsRight(100 * c + 4 * q + r + era * 400, s);
  }

  /** The conversion gives a date of the calendar, and that date has this number. */
  lemma CivilIsRight(days: int)
    ensures Valid(CivilFromDays(days)) && DayNumber(CivilFromDays(days)) == days
  {
    var z := days + 719_468;
    var era := EraOf(z);
    EraIs(z);
    FromEraIsRight(era, z - era * 146_097);
  }

  /* ---- the calendar orders days as numbers do ---- */

  lemma {:induction false} YearsGrow(a: int, b: int)
    requires a <= b
    ensures YearStart(a) <= YearStart(b)
    decreases b - a
  {
    if a < b {
      YearsGrow(a, b - 1);
      assert YearStart(b) == YearStart(b - 1) + YearLength(b - 1);
    }
  }

  lemma {:induction false} MonthsGrow(y: int, a: nat, b: nat)
    requires 1 <= a < b <= 12
    ensures MonthStart(y, a) + MonthLength(y, a) <= MonthStart(y, b)
    decreases b
  {
    if a + 1 < b {
      MonthsGrow(y, a, b - 1);
    }
  }

  /** Every date lies inside its year. */
  lemma InsideYear(d: Date)
    requires Valid(d)
    ensures YearStart(d.year) <= DayNumber(d) < YearStart(d.year + 1)
  {
    MonthStarts(d.year, d.month);
    MarchFromYear(d.year);
  }

  lemma EarlierIsSmaller(a: Date, b: Date)
    requires Valid(a) && Valid(b) && Earlier(a, b)
    ensures DayNumber(a) < DayNumber(b)
  {
    InsideYear(a);
    InsideYear(b);
    if a.year < b.year {
      YearsGrow(a.year + 1, b.year);
    } else if a.month < b.month {
      MonthsGrow(a.year, a.month, b.month);
    }
  }

  lemma SameNumber(d: Date, e: Date)
    requires Valid(d) && Valid(e) && DayNumber(d) == DayNumber(e)
    ensures d == e
  {
    if Earlier(d, e) {
      EarlierIsSmaller(d, e);
    } else if Earlier(e, d) {
      EarlierIsSmaller(e, d);
    }
  }

  /** Numbering a date of the calendar and converting back gives the date. */
  lemma CivilInverts(d: Date)
    requires Valid(d)
    ensures CivilFromDays(DayNumber(d)) == d
  {
    CivilIsRight(DayNumber(d));
    SameNumber(CivilFromDays(DayNumber(d)), d);
  }

  lemma NextDayNumber(d: Date)
    requires Valid(d)
    ensures Valid(NextDay(d)) && DayNumber(NextDay(d)) == DayNumber(d) + 1
  {
    MonthStarts(d.year, d.month);
    MarchFromYear(d.year);
    if d.month < 12 { MonthStarts(d.year, d.month + 1); }
  }

  lemma Successor(d: Date, e: Date)
    requires Valid(d) && Valid(e) && DayNumber(e) == DayNumber(d) + 1
    ensures e == NextDay(d)
  {
    NextDayNumber(d);
    SameNumber(e, NextDay(d));
  }

  /** One day later is the next day of the calendar. */
  lemma CivilAdvances(days: int)
    ensures CivilFromDays(days + 1) == NextDay(CivilFromDays(days))
  {
    CivilIsRight(days);
    CivilIsRight(days + 1);
    Successor(CivilFromDays(days), CivilFromDays(days + 1));
  }

  /* ---- time stamps ---- */

  datatype Stamp = Stamp(date: Date, hour: int, minute: int, second: int)

  function UtcTimestamp(seconds: int): Stamp {
    var days := seconds / 86_400;
    var inDay := seconds % 86_400;
    Stamp(CivilFromDays(days), Quotient(inDay, 3_600), Quotient(inDay % 3_600, 60), inDay % 60)
  }

  function Seconds(t: Stamp): int
    requires t.date.month >= 0
  {
    86_400 * DayNumber(t.date) + 3_600 * t.hour + 60 * t.minute + t.second
  }

  predicate ValidStamp(t: Stamp) {
    Valid(t.date) && 0 <= t.hour < 24 && 0 <= t.minute < 60 && 0 <= t.second < 60
  }

  predicate EarlierStamp(a: Stamp, b: Stamp) {
    || Earlier(a.date, b.date)
    || (a.date == b.date
        && (a.hour < b.hour
            || (a.hour == b.hour && (a.minute < b.minute || (a.minute == b.minute && a.second < b.second)))))
  }

  /** The fields are a time of day on a calendar date, and make up the seconds again. */
  lemma StampIsRight(seconds: int)
    ensures ValidStamp(UtcTimestamp(seconds)) && Seconds(UtcTimestamp(seconds)) == seconds
  {
    CivilIsRight(seconds / 86_400);
    var inDay := seconds % 86_400;
    var hour, inHour := inDay / 3_600, inDay % 3_600;
    DivisionIs(inDay, 60, 60 * hour + inHour / 60, inHour % 60);
  }

  lemma LaterStampIsLarger(a: Stamp, b: Stamp)
    requires ValidStamp(a) && ValidStamp(b) && EarlierStamp(a, b)
    ensures Seconds(a) < Seconds(b)
  {
    if Earlier(a.date, b.date) {
      EarlierIsSmaller(a.date, b.date);
    }
  }

  /** Later seconds give later stamps, field by field. */
  lemma StampsIncrease(a: int, b: int)
    ensures a < b <==> EarlierStamp(UtcTimestamp(a), UtcTimestamp(b))
  {
    StampIsRight(a);
    StampIsRight(b);
    var s, t := UtcTimestamp(a), UtcTimestamp(b);
    if EarlierStamp(s, t) {
      LaterStampIsLarger(s, t);
    } else if EarlierStamp(t, s) {
      LaterStampIsLarger(t, s);
    } else {
      assert s == t;
    }
  }
}
