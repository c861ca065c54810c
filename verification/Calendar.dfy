/** The real-time clock's calendar: date to timestamp and back by loops over years
    and months, the weekday by Zeller's congruence, and the closed-form timestamp
    that the file system uses.
 */
module Calendar {
  import opened Common
  import ModArith

  datatype DateTime = DateTime(
    second: nat, minute: nat, hour: nat, day: nat, month: nat, year: nat, weekday: nat)

  // ----- the calendar, by counting -----

  predicate IsLeapYear(y: int) {
    (y % 4 == 0 && y % 100 != 0) || y % 400 == 0
  }

  function DaysInYear(y: int): nat {
    if IsLeapYear(y) then 366 else 365
  }

  /** Days of month `m` (1 to 12) in a common year. */
  function CommonDays(m: int): nat {
    if m == 2 then 28 else if m == 4 || m == 6 || m == 9 || m == 11 then 30 else 31
  }

  function DaysInMonth(y: int, m: int): nat {
    CommonDays(m) + if m == 2 && IsLeapYear(y) then 1 else 0
  }

  /** Days from 1970 to the start of year `y`. */
  function DaysBeforeYear(y: nat): nat {
    if y <= 1970 then 0 else DaysBeforeYear(y - 1) + DaysInYear(y - 1)
  }

  /** Days of year `y` before month `m`. */
  function DaysBeforeMonth(y: int, m: nat): nat {
    if m <= 1 then 0 else DaysBeforeMonth(y, m - 1) + DaysInMonth(y, m - 1)
  }

  function DayNumber(y: nat, m: nat, d: nat): int {
    DaysBeforeYear(y) + DaysBeforeMonth(y, m) + d - 1
  }

  function Timestamp(t: DateTime): int {
    DayNumber(t.year, t.month, t.day) * 86400 + t.hour * 3600 + t.minute * 60 + t.second
  }

  predicate ValidDate(y: nat, m: nat, d: nat) {
    1970 <= y && 1 <= m <= 12 && 1 <= d <= DaysInMonth(y, m)
  }

  predicate Valid(t: DateTime) {
    && ValidDate(t.year, t.month, t.day) && t.year < 65536
    && t.hour < 24 && t.minute < 60 && t.second < 60
  }

  // ----- closed forms -----

  /** Leap years up to and including `y`. */
  function Leaps(y: int): int {
    y / 4 - y / 100 + y / 400
  }

  lemma DivStep(y: int, n: nat)
    requires n > 1
    ensures y / n == (y - 1) / n + if y % n == 0 then 1 else 0
  {
    var q, r := y / n, y % n;
    if r == 0 {
      assert y - 1 == (q - 1) * n + (n - 1);
      ModArith.DivModUnique(q - 1, n, n - 1);
    } else {
      assert y - 1 == q * n + (r - 1);
      ModArith.DivModUnique(q, n, r - 1);
    }
  }

  lemma LeapsStep(y: int)
    ensures Leaps(y) == Leaps(y - 1) + if IsLeapYear(y) then 1 else 0
  {
    DivStep(y, 4);
    DivStep(y, 100);
    DivStep(y, 400);
    Multiples(y);
  }

  lemma Multiples(y: int)
    ensures y % 100 == 0 ==> y % 4 == 0
    ensures y % 400 == 0 ==> y % 100 == 0
  {
    if y % 100 == 0 {
      assert y == (25 * (y / 100)) * 4 + 0;
      ModArith.DivModUnique(25 * (y / 100), 4, 0);
    }
    if y % 400 == 0 {
      assert y == (4 * (y / 400)) * 100 + 0;
      ModArith.DivModUnique(4 * (y / 400), 100, 0);
    }
  }

  lemma {:induction false} YearsClosed(y: nat)
    requires y >= 1970
    ensures DaysBeforeYear(y) == 365 * (y - 1970) + Leaps(y - 1) - 477
  {
    if y > 1970 {
      YearsClosed(y - 1);
      LeapsStep(y - 1);
    }
  }

  /** Counting months from March makes the lengths follow one formula. */
  lemma MonthsClosed(y: int, m: nat)
    requires 1 <= m <= 12
    ensures m >= 3 ==> DaysBeforeMonth(y, m) == (153 * m - 457) / 5 + 59 + if IsLeapYear(y) then 1 else 0
    ensures m <= 2 ==> DaysBeforeMonth(y, m) == (153 * (m + 12) - 457) / 5 - 306
  {
    assert DaysBeforeMonth(y, 1) == 0;
    assert DaysBeforeMonth(y, 2) == 31;
    assert DaysBeforeMonth(y, 3) == 59 + if IsLeapYear(y) then 1 else 0;
    var k := DaysBeforeMonth(y, 3);
    assert DaysBeforeMonth(y, 4) == k + 31;
    assert DaysBeforeMonth(y, 5) == k + 61;
    assert DaysBeforeMonth(y, 6) == k + 92;
    assert DaysBeforeMonth(y, 7) == k + 122;
    assert DaysBeforeMonth(y, 8) == k + 153;
    assert DaysBeforeMonth(y, 9) == k + 184;
    assert DaysBeforeMonth(y, 10) == k + 214;
    assert DaysBeforeMonth(y, 11) == k + 245;
    assert DaysBeforeMonth(y, 12) == k + 275;
  }

  /** The day number in one expression; January and February count as the last months
      of the year before. */
  lemma DayNumberClosed(y: nat, m: nat, d: nat)
    requires y >= 1970 && 1 <= m <= 12
    ensures var Y, M := if m <= 2 then y - 1 else y, if m <= 2 then m + 12 else m;
            DayNumber(y, m, d) == 365 * Y + Leaps(Y) + (153 * M - 457) / 5 + d - 719469
  {
    YearsClosed(y);
    MonthsClosed(y, m);
    LeapsStep(y);
  }

  // ----- weekday -----

  /** Division and remainder that round toward zero. */
  function TDiv(a: int, n: nat): int
    requires n > 0
  {
    if a >= 0 then a / n else -((-a) / n)
  }

  function TRem(a: int, n: nat): int
    requires n > 0
  {
    if a >= 0 then a % n else -((-a) % n)
  }

  function Zeller(y: int, m: nat, d: nat): int {
    var M, Y := if m < 3 then m + 12 else m, if m < 3 then y - 1 else y;
    var k, j := TRem(Y, 100), TDiv(Y, 100);
    d + 13 * (M + 1) / 5 + k + TDiv(k, 4) + TDiv(j, 4) - 2 * j
  }

  function CalculateWeekday(y: nat, m: nat, d: nat): int {
    TRem(TRem(Zeller(y, m, d), 7) + 6, 7)
  }

  /** A negative remainder does no harm: six is added before the second one. */
  lemma NoNegativeRemainder(h: int)
    ensures TRem(TRem(h, 7) + 6, 7) == (h + 6) % 7
  {
    if h < 0 {
      var q, r := (-h) / 7, (-h) % 7;
      assert h + 6 == (-q) * 7 + (6 - r);
      ModArith.DivModUnique(-q, 7, 6 - r);
    } else {
      Shift7(h + 6, h % 7 + 6, h / 7);
    }
  }

  lemma Century(Y: nat)
    ensures var k, j := Y % 100, Y / 100; Leaps(Y) == 24 * j + k / 4 + j / 4
  {
    var k, j := Y % 100, Y / 100;
    assert Y == 100 * j + k;
    assert Y / 4 == 25 * j + k / 4;
    assert Y / 400 == j / 4;
  }

  lemma MonthTerms(M: nat)
    requires 3 <= M <= 14
    ensures (153 * M - 457) / 5 == 13 * (M + 1) / 5 + 28 * M - 94
  {
  }

  /** Zeller's number and the day number agree modulo 7, up to the shift. */
  lemma ZellerDays(y: nat, m: nat, d: nat)
    requires y >= 1970 && 1 <= m <= 12
    ensures (DayNumber(y, m, d) + 4) % 7 == (Zeller(y, m, d) + 6) % 7
  {
    var M, Y := if m < 3 then m + 12 else m, if m < 3 then y - 1 else y;
    var k, j := Y % 100, Y / 100;
    var n := DayNumber(y, m, d);
    assert n == 365 * Y + Leaps(Y) + (153 * M - 457) / 5 + d - 719469 by {
      DayNumberClosed(y, m, d);
    }
    Century(Y);
    MonthTerms(M);
    assert Zeller(y, m, d) == d + 13 * (M + 1) / 5 + k + k / 4 + j / 4 - 2 * j;
    Shift7(n + 4, Zeller(y, m, d) + 6, 5218 * j + 52 * k + 4 * M - 102795);
  }

  lemma Shift7(a: int, b: int, q: int)
    requires a == b + 7 * q
    ensures a % 7 == b % 7
  {
  }

  /** The weekday of every date from 1970 on, counted from a Thursday. */
  lemma WeekdayIs(y: nat, m: nat, d: nat)
    requires y >= 1970 && 1 <= m <= 12
    ensures CalculateWeekday(y, m, d) == (DayNumber(y, m, d) + 4) % 7
  {
    NoNegativeRemainder(Zeller(y, m, d));
    ZellerDays(y, m, d);
  }

  // ----- the closed-form timestamp -----

  const WORD: nat := 0x1_0000_0000

  function ClosedDays(t: DateTime): int {
    var y, m := if t.month <= 2 then t.year - 1 else t.year, if t.month <= 2 then t.month + 12 else t.month;
    365 * y + TDiv(y, 4) - TDiv(y, 100) + TDiv(y, 400) + TDiv(153 * m - 457, 5) + t.day - 719528
  }

  /** The 32-bit result, and whether its arithmetic overflowed on the way. */
  function RtcToPosix(t: DateTime): (nat, bool) {
    var days := ClosedDays(t) % WORD;
    var sum := days * 86400 + t.hour * 3600 + t.minute * 60 + t.second;
    (sum % WORD, sum >= WORD)
  }

  lemma WrapProduct(x: int, n: nat, a: nat)
    requires n > 0
    ensures (x % n * 86400 + a) % n == (x * 86400 + a) % n
  {
    var q, r := x / n, x % n;
    assert x * 86400 + a == (r * 86400 + a) + n * (q * 86400);
    var p, s := (r * 86400 + a) / n, (r * 86400 + a) % n;
    assert x * 86400 + a == (p + q * 86400) * n + s;
    ModArith.DivModUnique(p + q * 86400, n, s);
  }

  lemma Overflows(days: int, a: nat)
    requires -59 <= days < WORD && a < 86400
    ensures days % WORD * 86400 + a >= WORD <==> !(0 <= days * 86400 + a < WORD)
  {
    if days < 0 {
      assert days % WORD == days + WORD;
    } else {
      assert days % WORD == days;
    }
  }

  lemma ClosedDaysIs(t: DateTime)
    requires Valid(t)
    ensures ClosedDays(t) == DayNumber(t.year, t.month, t.day) - 59
  {
    DayNumberClosed(t.year, t.month, t.day);
  }

  lemma {:induction false} YearsBounded(y: nat)
    requires y >= 1970
    ensures 0 <= DaysBeforeYear(y) <= 366 * (y - 1970)
  {
    if y > 1970 {
      YearsBounded(y - 1);
    }
  }

  lemma {:induction false} MonthsBounded(y: nat, m: nat)
    ensures 0 <= DaysBeforeMonth(y, m) <= 31 * m
  {
    if m > 1 {
      MonthsBounded(y, m - 1);
    }
  }

  /** For every valid date the closed form is 59 days behind, modulo 2^32; it overflows
      exactly when the right value less 59 days does not fit. */
  lemma PosixIsBehind(t: DateTime)
    requires Valid(t)
    ensures RtcToPosix(t).0 == (Timestamp(t) - 59 * 86400) % WORD
    ensures RtcToPosix(t).1 <==> !(0 <= Timestamp(t) - 59 * 86400 < WORD)
  {
    ClosedDaysIs(t);
    YearsBounded(t.year);
    MonthsBounded(t.year, t.month);
    var days, a := ClosedDays(t), t.hour * 3600 + t.minute * 60 + t.second;
    Behind(t, days, DayNumber(t.year, t.month, t.day), a);
  }

  lemma Behind(t: DateTime, days: int, n: int, a: nat)
    requires days == ClosedDays(t) && n == DayNumber(t.year, t.month, t.day) && days == n - 59 && 0 <= n < WORD
    requires a == t.hour * 3600 + t.minute * 60 + t.second && a < 86400
    ensures RtcToPosix(t).0 == (Timestamp(t) - 59 * 86400) % WORD
    ensures RtcToPosix(t).1 <==> !(0 <= Timestamp(t) - 59 * 86400 < WORD)
  {
    assert Timestamp(t) - 59 * 86400 == days * 86400 + a;
    WrapProduct(days, WORD, a);
    Overflows(days, a);
  }

  /** So it is never the right value. */
  lemma PosixNeverRight(t: DateTime)
    requires Valid(t)
    ensures RtcToPosix(t).0 != Timestamp(t)
  {
    PosixIsBehind(t);
  }

  // ----- the loops -----

  /** A cast to eight bits. */
  function U8(x: int): nat {
    x % 256
  }

  /** Date to timestamp. A month above 13 indexes past the table, which panics. */
  method DatetimeToUnixTimestamp(t: DateTime) returns (r: Option<int>)
    ensures r == if t.month <= 13 then Some(Timestamp(t)) else None
  {
    var days := 0;
    var y := 1970;
    while y < t.year
      invariant y == 1970 || 1970 <= y <= t.year
      invariant days == DaysBeforeYear(y)
    {
      days := days + if IsLeapYear(y) then 366 else 365;
      y := y + 1;
    }
    assert days == DaysBeforeYear(t.year);
    var m := 1;
    while m < t.month
      invariant m == 1 || 1 <= m <= t.month
      invariant m <= 13 && days == DaysBeforeYear(t.year) + DaysBeforeMonth(t.year, m)
    {
      if m > 12 {
        return None;
      }
      days := days + CommonDays(m);
      if m == 2 && IsLeapYear(t.year) {
        days := days + 1;
      }
      m := m + 1;
    }
    assert DaysBeforeMonth(t.year, m) == DaysBeforeMonth(t.year, t.month);
    days := days + t.day - 1;
    return Some(days * 86400 + t.hour * 3600 + t.minute * 60 + t.second);
  }

  lemma YearLength(y: nat)
    ensures DaysBeforeMonth(y, 13) == DaysInYear(y)
  {
    MonthsClosed(y, 12);
    assert DaysBeforeMonth(y, 13) == DaysBeforeMonth(y, 12) + 31;
  }

  /** The month and the day in it of day `n` of a year. */
  method MonthAndDay(year: nat, n: int) returns (month: nat, days: int)
    ensures 0 <= n < DaysInYear(year) ==>
              1 <= month <= 12 && 0 <= days < DaysInMonth(year, month) && n == DaysBeforeMonth(year, month) + days
    ensures n < 0 ==> month == 1 && days == n
  {
    month, days := 1, n;
    YearLength(year);
    for m := 0 to 12
      invariant month == m + 1
      invariant days == n - DaysBeforeMonth(year, month)
      invariant n >= 0 ==> days >= 0
      invariant n < 0 ==> m == 0
    {
      var daysInMonth := CommonDays(m + 1);
      if m == 1 && IsLeapYear(year) {
        daysInMonth := daysInMonth + 1;
      }
      if days < daysInMonth {
        break;
      }
      days := days - daysInMonth;
      month := month + 1;
    }
  }

  /** The year and the day in it of day `n`; the 16-bit year overflows, which panics,
      when there is none. */
  method YearAndDay(n: int) returns (r: Option<(nat, int)>)
    ensures n < 0 ==> r == Some((1970, n))
    ensures n >= 0 && r.Some? ==>
              1970 <= r.value.0 < 65536 && 0 <= r.value.1 < DaysInYear(r.value.0)
              && n == DaysBeforeYear(r.value.0) + r.value.1
    ensures r == None <==> n >= 365 * (65536 - 1970) + Leaps(65535) - 477
  {
    var year, days := 1970, n;
    YearsClosed(1970);
    while days >= DaysInYear(year)
      invariant 1970 <= year < 65536 && days == n - DaysBeforeYear(year)
      invariant n >= 0 ==> days >= 0
      invariant n < 0 ==> year == 1970
      decreases 65536 - year
    {
      days := days - DaysInYear(year);
      YearsClosed(year + 1);
      if year == 65535 {
        return None;
      }
      year := year + 1;
    }
    NotAfter(year, n);
    return Some((year, days));
  }

  lemma {:induction false} YearsMonotone(x: nat, y: nat)
    requires x <= y
    ensures DaysBeforeYear(x) <= DaysBeforeYear(y)
    decreases y - x
  {
    if x < y {
      YearsMonotone(x, y - 1);
    }
  }

  lemma NotAfter(year: nat, n: int)
    requires 1970 <= year < 65536 && n < DaysBeforeYear(year) + DaysInYear(year)
    ensures n < 365 * (65536 - 1970) + Leaps(65535) - 477
  {
    YearsClosed(year + 1);
    LeapsMonotone(year, 65535);
  }

  lemma LeapsMonotone(a: nat, b: nat)
    requires a <= b
    ensures Leaps(a) <= Leaps(b)
    decreases b - a
  {
    if a < b {
      LeapsMonotone(a, b - 1);
      LeapsStep(b);
    }
  }

  method Date(year: nat, n: int) returns (month: nat, day: nat, weekday: nat)
    ensures year >= 1970 && 0 <= n < DaysInYear(year) ==>
              && ValidDate(year, month, day) && DayNumber(year, month, day) == DaysBeforeYear(year) + n
              && weekday == (DaysBeforeYear(year) + n + 4) % 7
    ensures n < 0 ==> month == 1 && day == U8(n + 1)
  {
    var rest;
    month, rest := MonthAndDay(year, n);
    day := U8(rest + 1);
    weekday := WeekdayByte(year, month, day);
  }

  method WeekdayByte(year: nat, month: nat, day: nat) returns (w: nat)
    ensures year >= 1970 && 1 <= month <= 12 ==> w == (DayNumber(year, month, day) + 4) % 7
  {
    w := U8(CalculateWeekday(year, month, day));
    if year >= 1970 && 1 <= month <= 12 {
      WeekdayIs(year, month, day);
    }
  }

  method Clock(ts: int) returns (days: int, hour: nat, minute: nat, second: nat)
    ensures ts >= 0 ==> days == ts / 86400 && hour < 24 && minute < 60 && second < 60
    ensures ts >= 0 ==> ts == days * 86400 + hour * 3600 + minute * 60 + second
    ensures ts < 0 ==> days == -(-ts / 86400)
    ensures ts < 0 && -ts % 86400 == 0 ==> hour == 0 && minute == 0 && second == 0
  {
    days := TDiv(ts, 86400);
    hour, minute, second := TimeOfDay(TRem(ts, 86400));
  }

  method TimeOfDay(inDay: int) returns (hour: nat, minute: nat, second: nat)
    ensures 0 <= inDay < 86400 ==> hour < 24 && minute < 60 && second < 60
    ensures 0 <= inDay < 86400 ==> inDay == hour * 3600 + minute * 60 + second
  {
    var remaining := inDay;
    hour := U8(TDiv(remaining, 3600));
    remaining := TRem(remaining, 3600);
    minute := U8(TDiv(remaining, 60));
    second := U8(TRem(remaining, 60));
  }

  /** Timestamp to date: for every timestamp from 1970 on whose year fits 16 bits, a
      valid date with that timestamp and the right weekday. Before 1970 it gives a day
      of January 1970, never a valid date with that timestamp. */
  method UnixTimestampToDatetime(ts: int) returns (r: Option<DateTime>)
    ensures ts >= 0 ==> (r == None <==> ts / 86400 >= 365 * (65536 - 1970) + Leaps(65535) - 477)
    ensures ts >= 0 && r.Some? ==> Valid(r.value) && Timestamp(r.value) == ts
    ensures ts >= 0 && r.Some? ==> r.value.weekday == (ts / 86400 + 4) % 7
    ensures ts < 0 ==> r.Some? && r.value.year == 1970 && r.value.month == 1
    ensures ts < 0 ==> (Timestamp(r.value) == ts <==> ts == -86400)
    ensures ts < 0 && Valid(r.value) ==> Timestamp(r.value) != ts
  {
    var days, hour, minute, second := Clock(ts);
    var yd := YearAndDay(days);
    if yd == None {
      return None;
    }
    var year := yd.value.0;
    var month, day, weekday := Date(year, yd.value.1);
    if ts < 0 {
      Before1970(ts, days, day, hour, minute, second);
    }
    return Some(DateTime(second, minute, hour, day, month, year, weekday));
  }

  lemma Before1970(ts: int, days: int, day: nat, hour: nat, minute: nat, second: nat)
    requires ts < 0 && days == -(-ts / 86400) && day == U8(days + 1)
    requires -ts % 86400 == 0 ==> hour == 0 && minute == 0 && second == 0
    ensures (day - 1) * 86400 + hour * 3600 + minute * 60 + second == ts <==> ts == -86400
    ensures ts == -86400 ==> day == 0
  {
  }

  // ----- the two directions are inverse -----

  lemma {:induction false} MonthsMonotone(y: nat, x: nat, m: nat)
    requires x <= m
    ensures DaysBeforeMonth(y, x) <= DaysBeforeMonth(y, m)
    decreases m - x
  {
    if x < m {
      MonthsMonotone(y, x, m - 1);
    }
  }

  lemma LaterYear(y: nat, m: nat, d: nat, y': nat, m': nat, d': nat)
    requires ValidDate(y, m, d) && ValidDate(y', m', d') && y < y'
    ensures DayNumber(y, m, d) < DayNumber(y', m', d')
  {
    MonthsMonotone(y, m + 1, 13);
    YearLength(y);
    YearsMonotone(y + 1, y');
  }

  lemma LaterMonth(y: nat, m: nat, d: nat, m': nat, d': nat)
    requires ValidDate(y, m, d) && ValidDate(y, m', d') && m < m'
    ensures DayNumber(y, m, d) < DayNumber(y, m', d')
  {
    MonthsMonotone(y, m + 1, m');
  }

  lemma DayNumberInjective(y: nat, m: nat, d: nat, y': nat, m': nat, d': nat)
    requires ValidDate(y, m, d) && ValidDate(y', m', d') && DayNumber(y, m, d) == DayNumber(y', m', d')
    ensures y == y' && m == m' && d == d'
  {
    if y < y' {
      LaterYear(y, m, d, y', m', d');
    } else if y' < y {
      LaterYear(y', m', d', y, m, d);
    } else if m < m' {
      LaterMonth(y, m, d, m', d');
    } else if m' < m {
      LaterMonth(y, m', d', m, d);
    }
  }

  /** A timestamp has one valid date, up to the weekday field. */
  lemma TimestampInjective(s: DateTime, t: DateTime)
    requires Valid(s) && Valid(t) && Timestamp(s) == Timestamp(t)
    ensures s == t.(weekday := s.weekday)
  {
    SameClock(DayNumber(s.year, s.month, s.day), s.hour, s.minute, s.second,
              DayNumber(t.year, t.month, t.day), t.hour, t.minute, t.second);
    DayNumberInjective(s.year, s.month, s.day, t.year, t.month, t.day);
  }

  lemma SameClock(n: int, h: nat, m: nat, s: nat, n': int, h': nat, m': nat, s': nat)
    requires h < 24 && m < 60 && s < 60 && h' < 24 && m' < 60 && s' < 60
    requires n * 86400 + h * 3600 + m * 60 + s == n' * 86400 + h' * 3600 + m' * 60 + s'
    ensures n == n' && h == h' && m == m' && s == s'
  {
  }

  /** Timestamp to date and back: the identity exactly for timestamps from 1970 on whose
      year fits, and by chance one day before. */
  method RoundTripTimestamp(ts: int) returns (back: Option<int>)
    ensures back == None <==> ts / 86400 >= 365 * (65536 - 1970) + Leaps(65535) - 477
    ensures back == Some(ts) <==> (ts >= 0 || ts == -86400) && back.Some?
  {
    var t := UnixTimestampToDatetime(ts);
    if t == None {
      return None;
    }
    back := DatetimeToUnixTimestamp(t.value);
  }

  /** Date to timestamp and back: the same date, with its weekday set right. */
  method RoundTripDate(t: DateTime) returns (back: Option<DateTime>)
    requires Valid(t)
    ensures back == Some(t.(weekday := (DayNumber(t.year, t.month, t.day) + 4) % 7))
  {
    var ts := DatetimeToUnixTimestamp(t);
    Fits(t);
    back := UnixTimestampToDatetime(ts.value);
    TimestampInjective(back.value, t);
  }

  lemma Fits(t: DateTime)
    requires Valid(t)
    ensures Timestamp(t) >= 0 && Timestamp(t) / 86400 == DayNumber(t.year, t.month, t.day)
    ensures DayNumber(t.year, t.month, t.day) < 365 * (65536 - 1970) + Leaps(65535) - 477
  {
    MonthsMonotone(t.year, t.month + 1, 13);
    YearLength(t.year);
    NotAfter(t.year, DayNumber(t.year, t.month, t.day));
  }
}
