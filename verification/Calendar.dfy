/**
 Conversion between Unix time and civil dates, with the kernel's 32-bit intermediate arithmetic
 (release build: overflow wraps), against a year-by-year, month-by-month proleptic Gregorian count.
 */
module Calendar {

  datatype DateTime = DateTime(year: int, month: nat, day: nat, hour: nat, minute: nat, second: nat)

  // ---------------------------------------------------------------- machine arithmetic

  /** Rust's `/` and `%` by each divisor used: toward zero, remainder with the dividend's sign. */
  function Div4(a: int): int { if a >= 0 then a / 4 else -(-a / 4) }
  function Div5(a: int): int { if a >= 0 then a / 5 else -(-a / 5) }
  function Div60(a: int): int { if a >= 0 then a / 60 else -(-a / 60) }
  function Div100(a: int): int { if a >= 0 then a / 100 else -(-a / 100) }
  function Div153(a: int): int { if a >= 0 then a / 153 else -(-a / 153) }
  function Div365(a: int): int { if a >= 0 then a / 365 else -(-a / 365) }
  function Div400(a: int): int { if a >= 0 then a / 400 else -(-a / 400) }
  function Div1460(a: int): int { if a >= 0 then a / 1460 else -(-a / 1460) }
  function Div3600(a: int): int { if a >= 0 then a / 3600 else -(-a / 3600) }
  function Div36524(a: int): int { if a >= 0 then a / 36524 else -(-a / 36524) }
  function Div86400(a: int): int { if a >= 0 then a / 86400 else -(-a / 86400) }
  function Div146096(a: int): int { if a >= 0 then a / 146096 else -(-a / 146096) }
  function Div146097(a: int): int { if a >= 0 then a / 146097 else -(-a / 146097) }
  function Rem60(a: int): int { a - 60 * Div60(a) }
  function Rem3600(a: int): int { a - 3600 * Div3600(a) }
  function Rem86400(a: int): int { a - 86400 * Div86400(a) }

  const I32_MIN: int := -0x8000_0000
  const I32_MAX: int := 0x7fff_ffff

  predicate FitsI32(a: int) { I32_MIN <= a <= I32_MAX }

  /** Reduction modulo 2^32 into the signed range: `as i32`, and every i32 operation that overflows. */
  function Wrap32(a: int): int {
    if FitsI32(a) then a
    else var m := a % 0x1_0000_0000; if m > I32_MAX then m - 0x1_0000_0000 else m
  }

  /** `as u32` of an i32. */
  function AsU32(a: int): nat {
    if 0 <= a <= 0xffff_ffff then a else a % 0x1_0000_0000
  }

  // ---------------------------------------------------------------- the two conversions

  function Era(shifted: int): int {
    Div146097(if shifted >= 0 then shifted else Wrap32(shifted - 146096))
  }

  function YearOfEra(doe: int): int {
    Div365(doe - Div1460(doe) + Div36524(doe) - Div146096(doe))
  }

  function Before(yoe: int): int {
    365 * yoe + Div4(yoe) - Div100(yoe)
  }

  /** The whole-day number, shifted to count from 1 March of year 0. */
  function Shifted(epoch: int): int {
    var q, r := Div86400(epoch), Rem86400(epoch);
    var days := if r < 0 then Wrap32(Wrap32(q) - 1) else Wrap32(q);
    Wrap32(days + 719468)
  }

  function SecondOfDay(epoch: int): int {
    var r := Rem86400(epoch);
    if r < 0 then r + 86400 else r
  }

  /** The date of a day of a year of an era, both counted from March. */
  function DateOf(era: int, yoe: int, doy: int): (int, nat, nat) {
    var mp := Div153(5 * doy + 2);
    var day := AsU32(doy - Div5(153 * mp + 2) + 1);
    var month := AsU32(if mp < 10 then mp + 3 else mp - 9);
    (yoe + era * 400 + (if month <= 2 then 1 else 0), month, day)
  }

  function DateInEra(era: int, doe: int): (int, nat, nat) {
    DateOf(era, YearOfEra(doe), doe - Before(YearOfEra(doe)))
  }

  function CivilFromDays(shifted: int): (int, nat, nat) {
    DateInEra(Era(shifted), Wrap32(shifted - Era(shifted) * 146097))
  }

  /** Hour, minute and second of a day. */
  function ClockOf(secs: int): (nat, nat, nat) {
    var rem := Rem3600(secs);
    (AsU32(Div3600(secs)), AsU32(Div60(rem)), AsU32(Rem60(rem)))
  }

  function EpochToDatetime(epoch: int): DateTime {
    var (hour, minute, second) := ClockOf(SecondOfDay(epoch));
    var (y, m, d) := CivilFromDays(Shifted(epoch));
    DateTime(y, m, d, hour, minute, second)
  }

  function DaysFromCivil(year: int, month: nat, day: nat): int {
    var y := year - (if month <= 2 then 1 else 0);
    var era := Div400(if y >= 0 then y else y - 399);
    var yoe := y - era * 400;
    var doy := Div5(153 * (if month > 2 then month - 3 else month + 9) + 2) + day - 1;
    era * 146097 + (yoe * 365 + Div4(yoe) - Div100(yoe) + doy) - 719468
  }

  function DatetimeToEpoch(dt: DateTime): int {
    DaysFromCivil(dt.year, dt.month, dt.day) * 86400 + AsU32(dt.hour * 3600) + AsU32(dt.minute * 60) + dt.second
  }

  // ---------------------------------------------------------------- the slow calendar

  predicate IsLeap(y: int) { y % 4 == 0 && (y % 100 != 0 || y % 400 == 0) }

  function DaysInYear(y: int): nat { if IsLeap(y) then 366 else 365 }

  function DaysInMonth(y: int, m: nat): nat
    requires 1 <= m <= 12
  {
    if m == 2 then (if IsLeap(y) then 29 else 28)
    else if m == 4 || m == 6 || m == 9 || m == 11 then 30
    else 31
  }

  /** Days from 1 January 1970 to 1 January of year y, year by year. */
  function DaysToYear(y: int): int
    decreases if y >= 1970 then y - 1970 else 1970 - y
  {
    if y == 1970 then 0
    else if y > 1970 then DaysToYear(y - 1) + DaysInYear(y - 1)
    else DaysToYear(y + 1) - DaysInYear(y)
  }

  /** Days from 1 January to the first of month m, month by month. */
  function DaysToMonth(y: int, m: nat): nat
    requires 1 <= m <= 12
  {
    if m == 1 then 0 else DaysToMonth(y, m - 1) + DaysInMonth(y, m - 1)
  }

  predicate ValidDate(y: int, m: nat, d: nat) {
    1 <= m <= 12 && 1 <= d <= DaysInMonth(y, m)
  }

  predicate ValidDateTime(dt: DateTime) {
    ValidDate(dt.year, dt.month, dt.day) && dt.hour < 24 && dt.minute < 60 && dt.second < 60
  }

  function CountDays(y: int, m: nat, d: nat): int
    requires ValidDate(y, m, d)
  {
    DaysToYear(y) + DaysToMonth(y, m) + d - 1
  }

  // ---------------------------------------------------------------- agreement

  /** Leap days up to and including year n, in closed form. */
  function LeapsTo(n: int): int { n / 4 - n / 100 + n / 400 }

  lemma LeapsStep(n: int)
    ensures LeapsTo(n) == LeapsTo(n - 1) + (if IsLeap(n) then 1 else 0)
  {
    Step4(n);
    Step100(n);
    Step400(n);
    if n % 100 == 0 { Mod4(n, 25 * (n / 100), 0); }
    if n % 400 == 0 { Mod100(n, 4 * (n / 400), 0); }
  }

  lemma Step4(n: int)
    ensures n / 4 - (n - 1) / 4 == if n % 4 == 0 then 1 else 0
  {
  }

  lemma Step100(n: int)
    ensures n / 100 - (n - 1) / 100 == if n % 100 == 0 then 1 else 0
  {
  }

  lemma Step400(n: int)
    ensures n / 400 - (n - 1) / 400 == if n % 400 == 0 then 1 else 0
  {
  }

  lemma {:induction false} YearClosedForm(y: int)
    ensures DaysToYear(y) == 365 * (y - 1970) + LeapsTo(y - 1) - LeapsTo(1969)
    decreases if y >= 1970 then y - 1970 else 1970 - y
  {
    if y > 1970 {
      YearClosedForm(y - 1);
      LeapsStep(y - 1);
    } else if y < 1970 {
      YearClosedForm(y + 1);
      LeapsStep(y);
    }
  }

  lemma MonthTable(y: int, m: nat)
    requires 1 <= m <= 12
    ensures DaysToMonth(y, m) ==
            (if m == 1 then 0 else if m == 2 then 31 else
             (if IsLeap(y) then 60 else 59) + (153 * (m - 3) + 2) / 5)
  {
    if m > 1 { MonthTable(y, m - 1); }
  }

  /** Splitting a year into era and year of era, and what the era sum amounts to. */
  lemma EraSum(y: int)
    ensures var era := Div400(if y >= 0 then y else y - 399); var yoe := y - era * 400;
            && era == y / 400 && 0 <= yoe < 400
            && era * 146097 + (yoe * 365 + Div4(yoe) - Div100(yoe)) == 365 * y + LeapsTo(y)
  {
    var era := y / 400;
    var yoe := y % 400;
    assert y == 400 * era + yoe;
    assert y / 4 == 100 * era + yoe / 4;
    assert y / 100 == 4 * era + yoe / 100;
  }

  lemma DaysFromCivilIs(y: int, m: nat, d: nat, y': int, leaps: int)
    requires 1 <= m <= 12 && y' == y - (if m <= 2 then 1 else 0) && leaps == LeapsTo(y')
    ensures DaysFromCivil(y, m, d) ==
              365 * y' + leaps + (153 * (if m > 2 then m - 3 else m + 9) + 2) / 5 + d - 1 - 719468
  {
    EraSum(y');
  }

  lemma CountIs(y: int, m: nat, d: nat, leaps: int)
    requires ValidDate(y, m, d) && leaps == LeapsTo(y - 1)
    ensures CountDays(y, m, d) == 365 * (y - 1970) + leaps - 477 + DaysToMonth(y, m) + d - 1
  {
    YearClosedForm(y);
    assert LeapsTo(1969) == 477;
  }

  /** The era arithmetic agrees with the calendar counted year by year and month by month. */
  lemma AgreesWithCalendar(y: int, m: nat, d: nat)
    requires ValidDate(y, m, d)
    ensures DaysFromCivil(y, m, d) == CountDays(y, m, d)
  {
    var y' := y - (if m <= 2 then 1 else 0);
    var leaps, before := LeapsTo(y'), LeapsTo(y - 1);
    LeapsStep(y);
    MonthTable(y, m);
    DaysFromCivilIs(y, m, d, y', leaps);
    CountIs(y, m, d, before);
  }

  lemma EpochAgrees(dt: DateTime)
    requires ValidDateTime(dt)
    ensures DatetimeToEpoch(dt) ==
              CountDays(dt.year, dt.month, dt.day) * 86400 + dt.hour * 3600 + dt.minute * 60 + dt.second
  {
    AgreesWithCalendar(dt.year, dt.month, dt.day);
  }

  // ---------------------------------------------------------------- inverses

  /** A day of an era in centuries, four-year cycles, years and days, the last ones taking the leap days. */
  predicate Decomposed(doe: int, c: int, q: int, s: int, r: int) {
    && 0 <= c < 4 && 0 <= q < 25 && 0 <= s < 4 && 0 <= r <= 365
    && doe == 36524 * c + 1461 * q + 365 * s + r
    && (r == 365 ==> s == 3 && (q < 24 || c == 3))
  }

  lemma Decompose(doe: int) returns (c: int, q: int, s: int, r: int)
    requires 0 <= doe < 146097
    ensures Decomposed(doe, c, q, s, r)
  {
    c := if doe / 36524 > 3 then 3 else doe / 36524;
    var inCentury := doe - 36524 * c;
    q := inCentury / 1461;
    var inCycle := inCentury - 1461 * q;
    s := if inCycle / 365 > 3 then 3 else inCycle / 365;
    r := inCycle - 365 * s;
  }

  lemma BeforeExact(c: int, q: int, s: int)
    requires 0 <= c < 4 && 0 <= q < 25 && 0 <= s < 4
    ensures Before(100 * c + 4 * q + s) == 36524 * c + 1461 * q + 365 * s
  {
    var n := 100 * c + 4 * q + s;
    assert n / 4 == 25 * c + q && n / 100 == c;
  }

  /** The closed formula for the year of the era recovers the decomposition. */
  lemma YearOfEraExact(doe: int, c: int, q: int, s: int, r: int)
    requires Decomposed(doe, c, q, s, r)
    ensures YearOfEra(doe) == 100 * c + 4 * q + s
    ensures Before(100 * c + 4 * q + s) == doe - r
  {
    var n := 100 * c + 4 * q + s;
    var u := 24 * c + q + 365 * s + r;
    var v := if u >= 1460 then 1 else 0;
    assert doe / 1460 == 25 * c + q + v by { assert doe == 1460 * (25 * c + q) + u; }
    assert doe / 36524 - doe / 146096 == c;
    assert n / 4 == 25 * c + q && n / 100 == c;
    assert doe - doe / 1460 + doe / 36524 - doe / 146096 == 365 * n + (r - v);
    assert 0 <= r - v < 365;
    assert (365 * n + (r - v)) / 365 == n;
  }

  /** Month mp of a year that begins in March, 0 to 11: where it starts, how long it can be, its calendar number. */
  function MonthStart(mp: int): int {
    if mp <= 0 then 0 else if mp == 1 then 31 else if mp == 2 then 61 else if mp == 3 then 92 else if mp == 4 then 122
    else if mp == 5 then 153 else if mp == 6 then 184 else if mp == 7 then 214 else if mp == 8 then 245
    else if mp == 9 then 275 else if mp == 10 then 306 else 337
  }

  function MonthLength(mp: int): int {
    if mp == 11 then 29 else if mp == 1 || mp == 3 || mp == 6 || mp == 8 then 30 else 31
  }

  function MonthFrom(mp: int): nat
    requires 0 <= mp < 12
  {
    if mp < 10 then mp + 3 else mp - 9
  }

  /** The two month formulas are that table and its inverse. */
  lemma MonthFormula(mp: int)
    requires 0 <= mp < 12
    ensures (153 * mp + 2) / 5 == MonthStart(mp)
  {
  }

  lemma MonthExact(mp: int, d: int)
    requires 0 <= mp < 12 && 1 <= d <= MonthLength(mp)
    ensures var doy := MonthStart(mp) + d - 1; (5 * doy + 2) / 153 == mp && 0 <= doy <= 365
  {
  }

  lemma MonthOfDay(doy: int) returns (mp: int, d: nat)
    requires 0 <= doy <= 365
    ensures 0 <= mp < 12 && 1 <= d <= MonthLength(mp) && doy == MonthStart(mp) + d - 1
  {
    mp := if doy < 31 then 0 else if doy < 61 then 1 else if doy < 92 then 2 else if doy < 122 then 3
    else if doy < 153 then 4
          else if doy < 184 then 5 else if doy < 214 then 6 else if doy < 245 then 7 else if doy < 275 then 8
          else if doy < 306 then 9 else if doy < 337 then 10 else 11;
    d := doy - MonthStart(mp) + 1;
  }

  /** Year n of an era, counted from March, ends in a leap February exactly when its last day exists. */
  lemma LeapFebruary(c: int, q: int, s: int, era: int)
    requires 0 <= c < 4 && 0 <= q < 25 && 0 <= s < 4
    ensures IsLeap(100 * c + 4 * q + s + era * 400 + 1) <==> s == 3 && (q < 24 || c == 3)
  {
    var y := 100 * c + 4 * q + s + era * 400 + 1;
    if s < 3 {
      Mod4(y, 25 * c + q + 100 * era, s + 1);
    } else if q < 24 {
      Mod4(y, 25 * c + q + 1 + 100 * era, 0);
      Mod100(y, c + 4 * era, 4 * q + 4);
    } else {
      Mod4(y, 25 * c + q + 1 + 100 * era, 0);
      Mod100(y, c + 1 + 4 * era, 0);
      if c < 3 { Mod400(y, era, 100 * c + 100); } else { Mod400(y, era + 1, 0); }
    }
  }

  lemma Mod4(y: int, t: int, r: int)
    requires y == 4 * t + r && 0 <= r < 4
    ensures y % 4 == r
  {
  }

  lemma Mod100(y: int, t: int, r: int)
    requires y == 100 * t + r && 0 <= r < 100
    ensures y % 100 == r
  {
  }

  lemma Mod400(y: int, t: int, r: int)
    requires y == 400 * t + r && 0 <= r < 400
    ensures y % 400 == r
  {
  }

  /** The shifted day number without any wrap-around. */
  function DayNumber(epoch: int): int { epoch / 86400 + 719468 }

  /** The days on which `days_shifted - 146096` stays within 32 bits. */
  predicate EraInRange(day: int) { I32_MIN + 146096 <= day <= I32_MAX }

  lemma WrapOnce(a: int, b: int)
    ensures Wrap32(Wrap32(a) + b) == Wrap32(a + b)
    ensures FitsI32(a) ==> Wrap32(a) == a
  {
    var k := (a - Wrap32(a)) / 0x1_0000_0000;
    assert a == Wrap32(a) + k * 0x1_0000_0000;
  }

  /** The truncating split with its correction is the floor split. */
  lemma SplitExact(epoch: int)
    ensures 0 <= SecondOfDay(epoch) < 86400 && epoch == (DayNumber(epoch) - 719468) * 86400 + SecondOfDay(epoch)
    ensures Shifted(epoch) == Wrap32(DayNumber(epoch))
  {
    var q, r := Div86400(epoch), Rem86400(epoch);
    WrapOnce(q, -1);
    WrapOnce(q - 1, 719468);
    WrapOnce(q, 719468);
  }

  lemma EraExact(day: int, era: int, doe: int)
    requires EraInRange(day) && 0 <= doe < 146097 && day == era * 146097 + doe
    ensures Era(day) == era && Wrap32(day - Era(day) * 146097) == doe
  {
    if day < 0 { assert Wrap32(day - 146096) == day - 146096; }
  }

  /** A day of an era as century, cycle, year, day of the year, month and day of the month, all counted from March. */
  predicate Spot(doe: int, c: int, q: int, s: int, r: int, mp: int, d: int) {
    Decomposed(doe, c, q, s, r) && 0 <= mp < 12 && 1 <= d <= MonthLength(mp) && r == MonthStart(mp) + d - 1
  }

  /** The calendar year of a spot. */
  function YearAt(era: int, c: int, q: int, s: int, mp: int): int {
    100 * c + 4 * q + s + era * 400 + (if mp < 10 then 0 else 1)
  }

  lemma SpotOf(doe: int) returns (c: int, q: int, s: int, r: int, mp: int, d: nat)
    requires 0 <= doe < 146097
    ensures Spot(doe, c, q, s, r, mp, d)
  {
    c, q, s, r := Decompose(doe);
    mp, d := MonthOfDay(r);
  }

  /** The formulas of `epoch_to_datetime` find the spot's date, */
  lemma DateAtSpot(era: int, doe: int, yoe: int, c: int, q: int, s: int, r: int, mp: int, d: nat, date: (int, nat, nat))
    requires Spot(doe, c, q, s, r, mp, d) && yoe == 100 * c + 4 * q + s
    requires date == (yoe + era * 400 + (if mp < 10 then 0 else 1), MonthFrom(mp), d)
    ensures DateInEra(era, doe) == date
  {
    DateParts(era, yoe, r, mp, d);
    YearFound(doe, c, q, s, r, yoe);
    DateInEraIs(era, doe, yoe, r, date);
  }

  lemma YearFound(doe: int, c: int, q: int, s: int, r: int, yoe: int)
    requires Decomposed(doe, c, q, s, r) && yoe == 100 * c + 4 * q + s
    ensures YearOfEra(doe) == yoe && Before(yoe) == doe - r
  {
    YearOfEraExact(doe, c, q, s, r);
  }

  lemma DateInEraIs(era: int, doe: int, yoe: int, doy: int, date: (int, nat, nat))
    requires YearOfEra(doe) == yoe && Before(yoe) == doe - doy && DateOf(era, yoe, doy) == date
    ensures DateInEra(era, doe) == date
  {
  }

  lemma DateParts(era: int, yoe: int, doy: int, mp: int, d: nat)
    requires 0 <= mp < 12 && 1 <= d <= MonthLength(mp) && doy == MonthStart(mp) + d - 1
    ensures DateOf(era, yoe, doy) == (yoe + era * 400 + (if mp < 10 then 0 else 1), MonthFrom(mp), d)
  {
    MonthFormula(mp);
    MonthExact(mp, d);
  }

  /** those of `datetime_to_epoch` find the spot's day, */
  lemma DayAtSpot(era: int, doe: int, c: int, q: int, s: int, r: int, mp: int, d: nat)
    requires Spot(doe, c, q, s, r, mp, d)
    ensures DaysFromCivil(YearAt(era, c, q, s, mp), MonthFrom(mp), d) + 719468 == era * 146097 + doe
  {
    var n := 100 * c + 4 * q + s;
    YearInEra(n, era);
    DaysAtMarch(n + era * 400, mp, d);
    BeforeExact(c, q, s);
    MonthFormula(mp);
  }

  /** The day number of a date given by its March-based year and month. */
  lemma DaysAtMarch(y: int, mp: int, d: nat)
    requires 0 <= mp < 12
    ensures DaysFromCivil(y + (if mp < 10 then 0 else 1), MonthFrom(mp), d) + 719468 ==
            y / 400 * 146097 + Before(y % 400) + (153 * mp + 2) / 5 + d - 1
  {
    EraSum(y);
  }

  lemma YearInEra(n: int, era: int)
    requires 0 <= n < 400
    ensures (n + era * 400) / 400 == era && (n + era * 400) % 400 == n
  {
  }

  /** and the spots are exactly the real dates: the last of February only in a leap year. */
  lemma SpotIsDate(era: int, c: int, q: int, s: int, mp: int, d: nat)
    requires 0 <= c < 4 && 0 <= q < 25 && 0 <= s < 4 && 0 <= mp < 12
    ensures ValidDate(YearAt(era, c, q, s, mp), MonthFrom(mp), d) <==>
            1 <= d <= MonthLength(mp) && (mp == 11 && d == 29 ==> s == 3 && (q < 24 || c == 3))
  {
    LeapFebruary(c, q, s, era);
  }

  lemma SpotOfDate(y: int, m: nat, d: nat) returns (era: int, doe: int, c: int, q: int, s: int, r: int, mp: int)
    requires ValidDate(y, m, d)
    ensures Spot(doe, c, q, s, r, mp, d) && y == YearAt(era, c, q, s, mp) && m == MonthFrom(mp)
  {
    var y' := y - (if m <= 2 then 1 else 0);
    mp := if m > 2 then m - 3 else m + 9;
    var n := y' % 400;
    era := y' / 400;
    c, q, s := n / 100, n % 100 / 4, n % 4;
    assert n == 100 * c + 4 * q + s;
    SpotIsDate(era, c, q, s, mp, d);
    r := MonthStart(mp) + d - 1;
    doe := 36524 * c + 1461 * q + 365 * s + r;
  }

  lemma CivilIn(day: int, era: int, doe: int, date: (int, nat, nat))
    requires EraInRange(day) && 0 <= doe < 146097 && day == era * 146097 + doe && DateInEra(era, doe) == date
    ensures CivilFromDays(day) == date
  {
    EraExact(day, era, doe);
  }

  lemma SpotInEra(doe: int, c: int, q: int, s: int, r: int)
    requires Decomposed(doe, c, q, s, r)
    ensures 0 <= doe < 146097
  {
  }

  lemma CivilAtSpot(day: int, era: int, doe: int, c: int, q: int, s: int, r: int, mp: int, d: nat,
                    date: (int, nat, nat))
    requires EraInRange(day) && day == era * 146097 + doe && Spot(doe, c, q, s, r, mp, d)
    requires date == (YearAt(era, c, q, s, mp), MonthFrom(mp), d)
    ensures CivilFromDays(day) == date
  {
    SpotInEra(doe, c, q, s, r);
    DateAtSpot(era, doe, 100 * c + 4 * q + s, c, q, s, r, mp, d, date);
    CivilIn(day, era, doe, date);
  }

  /** From a day number to a real date that counts back to the same day. */
  lemma DayToDateAndBack(day: int) returns (y: int, m: nat, d: nat)
    requires EraInRange(day)
    ensures CivilFromDays(day) == (y, m, d) && ValidDate(y, m, d) && DaysFromCivil(y, m, d) == day - 719468
  {
    var era, doe := day / 146097, day % 146097;
    var c, q, s, r, mp, d' := SpotOf(doe);
    y, m, d := YearAt(era, c, q, s, mp), MonthFrom(mp), d';
    CivilAtSpot(day, era, doe, c, q, s, r, mp, d, (y, m, d));
    DayAtSpot(era, doe, c, q, s, r, mp, d);
    SpotIsDate(era, c, q, s, mp, d);
  }

  /** From a real date to its day number and back to the same date. */
  lemma DateToDayAndBack(y: int, m: nat, d: nat, day: int)
    requires ValidDate(y, m, d) && day == DaysFromCivil(y, m, d) + 719468 && EraInRange(day)
    ensures CivilFromDays(day) == (y, m, d)
  {
    var era, doe, c, q, s, r, mp := SpotOfDate(y, m, d);
    DayAtSpot(era, doe, c, q, s, r, mp, d);
    CivilAtSpot(day, era, doe, c, q, s, r, mp, d, (y, m, d));
  }

  /** Clock time splits and recombines. */
  lemma ClockSplit(secs: int)
    requires 0 <= secs < 86400
    ensures var (h, m, s) := ClockOf(secs); h < 24 && m < 60 && s < 60 && secs == h * 3600 + m * 60 + s
  {
  }

  lemma ClockExact(h: nat, m: nat, s: nat)
    requires h < 24 && m < 60 && s < 60
    ensures 0 <= h * 3600 + m * 60 + s < 86400 && ClockOf(h * 3600 + m * 60 + s) == (h, m, s)
  {
  }

  lemma Recombine(epoch: int, days: int, secs: int)
    requires 0 <= secs < 86400 && epoch == days * 86400 + secs
    ensures DayNumber(epoch) == days + 719468 && SecondOfDay(epoch) == secs
    ensures FitsI32(days + 719468) ==> Shifted(epoch) == days + 719468
  {
    SplitExact(epoch);
  }

  /** Every epoch of the range names a real date and time, which counts back to the epoch. */
  lemma EpochRoundTrip(epoch: int)
    requires EraInRange(DayNumber(epoch))
    ensures ValidDateTime(EpochToDatetime(epoch)) && DatetimeToEpoch(EpochToDatetime(epoch)) == epoch
  {
    SplitExact(epoch);
    WrapOnce(DayNumber(epoch), 0);
    var y, m, d := DayToDateAndBack(DayNumber(epoch));
    ClockSplit(SecondOfDay(epoch));
  }

  lemma DatetimeAt(dt: DateTime, epoch: int, days: int, secs: int)
    requires ValidDate(dt.year, dt.month, dt.day) && EraInRange(days + 719468) && 0 <= secs < 86400
    requires days == DaysFromCivil(dt.year, dt.month, dt.day) && ClockOf(secs) == (dt.hour, dt.minute, dt.second)
    requires Shifted(epoch) == days + 719468 && SecondOfDay(epoch) == secs
    ensures EpochToDatetime(epoch) == dt
  {
    DateToDayAndBack(dt.year, dt.month, dt.day, days + 719468);
    Assemble(dt, epoch, days + 719468, secs);
  }

  /** Every real date and time of the range is recovered from its epoch. */
  lemma DatetimeRoundTrip(dt: DateTime, epoch: int)
    requires ValidDateTime(dt) && epoch == DatetimeToEpoch(dt) && EraInRange(DayNumber(epoch))
    ensures EpochToDatetime(epoch) == dt
  {
    var days, secs := DaysFromCivil(dt.year, dt.month, dt.day), dt.hour * 3600 + dt.minute * 60 + dt.second;
    ClockExact(dt.hour, dt.minute, dt.second);
    Recombine(epoch, days, secs);
    DatetimeAt(dt, epoch, days, secs);
  }

  lemma Assemble(dt: DateTime, epoch: int, day: int, secs: int)
    requires Shifted(epoch) == day && SecondOfDay(epoch) == secs
    requires CivilFromDays(day) == (dt.year, dt.month, dt.day) && ClockOf(secs) == (dt.hour, dt.minute, dt.second)
    ensures EpochToDatetime(epoch) == dt
  {
  }

  // ---------------------------------------------------------------- the lowest days

  lemma LateDate(y: int, m: nat, d: nat)
    requires y >= 5_879_200
    ensures DaysFromCivil(y, m, d) > 0
  {
    EraSum(y - (if m <= 2 then 1 else 0));
  }

  lemma EraBoundsYear(era: int, doe: int)
    requires doe >= 0
    ensures DateInEra(era, doe).0 >= era * 400
  {
    assert YearOfEra(doe) >= 0;
  }

  lemma EraWraps(day: int)
    requires I32_MIN <= day < I32_MIN + 146096
    ensures Era(day) >= 14698 && Wrap32(day - Era(day) * 146097) >= 0
  {
    assert Wrap32(day - 146096) == day - 146096 + 0x1_0000_0000;
    assert Era(day) == 14698 || Era(day) == 14699;
  }

  lemma WrappedEra(day: int)
    requires I32_MIN <= day < I32_MIN + 146096
    ensures CivilFromDays(day).0 >= 5_879_200
  {
    EraWraps(day);
    EraBoundsYear(Era(day), Wrap32(day - Era(day) * 146097));
  }

  /**
   Among the epochs whose day number fits in 32 bits the conversions invert each other exactly on
   those whose era computation does not wrap: the lowest 146096 days come out some 11.7 million years late.
   */
  lemma RoundTripExactlyInRange(epoch: int)
    requires FitsI32(DayNumber(epoch))
    ensures DatetimeToEpoch(EpochToDatetime(epoch)) == epoch <==> EraInRange(DayNumber(epoch))
  {
    if EraInRange(DayNumber(epoch)) {
      EpochRoundTrip(epoch);
    } else {
      SplitExact(epoch);
      WrapOnce(DayNumber(epoch), 0);
      WrappedEra(DayNumber(epoch));
      var dt := EpochToDatetime(epoch);
      LateDate(dt.year, dt.month, dt.day);
    }
  }

  /** The lowest day number of all: a date 5.8 million years before year 0 is reported as one after it. */
  lemma LowestDayIsWrong()
    ensures DayNumber(-185_604_749_222_400) == I32_MIN
    ensures EpochToDatetime(-185_604_749_222_400).year >= 5_879_200
  {
    var e := -185_604_749_222_400;
    SplitExact(e);
    WrapOnce(DayNumber(e), 0);
    WrappedEra(DayNumber(e));
  }
}
