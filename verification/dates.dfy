/**
 * ISO 8601 calendar dates (`yyyy-mm-dd`, proleptic Gregorian, years 1 to 9999)
 * as used by the rate-plan checker: validity, day addition, the signed day
 * difference, containment, interval overlap and the day of the week.
 *
 * Every date carries a ghost ordinal, `DayNumber`, counting days from
 * 0001-01-01 (day 1); the contracts of the operations are stated with it.
 */
module Dates {
  import opened Wrappers
  import opened Errors
  import opened Text
  import opened Tree

  datatype Date = Date(year: int, month: int, day: int)

  const MinDate := Date(1, 1, 1)
  const MaxDate := Date(9999, 12, 31)

  predicate IsLeapYear(y: int) {
    y % 400 == 0 || (y % 4 == 0 && y % 100 != 0)
  }

  /** days_in_month: February has 29 days exactly in leap years. */
  function DaysInMonth(y: int, m: int): (n: int)
    requires 1 <= m <= 12
    ensures 28 <= n <= 31
    ensures m == 2 ==> (n == 29 <==> IsLeapYear(y)) && (n == 28 <==> !IsLeapYear(y))
    ensures m in {4, 6, 9, 11} ==> n == 30
    ensures m in {1, 3, 5, 7, 8, 10, 12} ==> n == 31
  {
    if m != 2 then [0, 31, 29, 31, 30, 31, 30, 31, 31, 30, 31, 30, 31][m]
    else if y % 400 == 0 then 29
    else if y % 100 == 0 then 28
    else if y % 4 == 0 then 29
    else 28
  }

  predicate Valid(d: Date) {
    1 <= d.year <= 9999 && 1 <= d.month <= 12 && 1 <= d.day <= DaysInMonth(d.year, d.month)
  }

  // ------------------------------------------------------------ ordinals

  /** Number of days from 0001-01-01 up to, not including, the first of month `m` of year `y`. */
  ghost function DaysBeforeMonth(y: int, m: int): int
    requires 1 <= y && 1 <= m <= 12
    decreases y, m
  {
    if m > 1 then DaysBeforeMonth(y, m - 1) + DaysInMonth(y, m - 1)
    else if y == 1 then 0
    else DaysBeforeMonth(y - 1, 12) + DaysInMonth(y - 1, 12)
  }

  /** The ordinal of a date: 0001-01-01 is day 1. */
  ghost function DayNumber(d: Date): int
    requires Valid(d)
  {
    DaysBeforeMonth(d.year, d.month) + d.day
  }

  function MonthIndex(y: int, m: int): int {
    y * 12 + m
  }

  /** The month after `(y, m)`. */
  function NextMonth(y: int, m: int): (int, int) {
    if m == 12 then (y + 1, 1) else (y, m + 1)
  }

  /** The month before `(y, m)`. */
  function PrevMonth(y: int, m: int): (int, int) {
    if m == 1 then (y - 1, 12) else (y, m - 1)
  }

  /** Total length of the months strictly between `(y, m)` and a later month `(ey, em)`. */
  function ForwardMonths(y: int, m: int, ey: int, em: int): (sum: int)
    requires 1 <= y && 1 <= m <= 12 && 1 <= em <= 12
    requires MonthIndex(y, m) < MonthIndex(ey, em)
    ensures sum >= 0
    ensures DaysBeforeMonth(ey, em) == DaysBeforeMonth(y, m) + DaysInMonth(y, m) + sum
    decreases MonthIndex(ey, em) - MonthIndex(y, m)
  {
    var (ny, nm) := NextMonth(y, m);
    if ny == ey && nm == em then 0
    else DaysInMonth(ny, nm) + ForwardMonths(ny, nm, ey, em)
  }

  /** Total length of the months strictly between an earlier month `(ey, em)` and `(y, m)`. */
  function BackwardMonths(y: int, m: int, ey: int, em: int): (sum: int)
    requires 1 <= y && 1 <= m <= 12 && 1 <= ey && 1 <= em <= 12
    requires MonthIndex(ey, em) < MonthIndex(y, m)
    ensures sum >= 0
    ensures DaysBeforeMonth(y, m) == DaysBeforeMonth(ey, em) + DaysInMonth(ey, em) + sum
    decreases MonthIndex(y, m) - MonthIndex(ey, em)
  {
    var (py, pm) := PrevMonth(y, m);
    if py == ey && pm == em then 0
    else DaysInMonth(py, pm) + BackwardMonths(py, pm, ey, em)
  }

  /** Lexicographic order of (year, month, day), i.e. the order of the ISO strings. */
  predicate Before(a: Date, b: Date) {
    a.year < b.year ||
    (a.year == b.year && a.month < b.month) ||
    (a.year == b.year && a.month == b.month && a.day < b.day)
  }

  /** The ordinal orders dates chronologically and tells distinct dates apart. */
  lemma DayNumberOrder(a: Date, b: Date)
    requires Valid(a) && Valid(b)
    ensures Before(a, b) <==> DayNumber(a) < DayNumber(b)
    ensures a == b <==> DayNumber(a) == DayNumber(b)
  {
    if MonthIndex(a.year, a.month) < MonthIndex(b.year, b.month) {
      var _ := ForwardMonths(a.year, a.month, b.year, b.month);
    } else if MonthIndex(b.year, b.month) < MonthIndex(a.year, a.month) {
      var _ := ForwardMonths(b.year, b.month, a.year, a.month);
    }
  }

  lemma MinMaxBound(d: Date)
    requires Valid(d)
    ensures DayNumber(MinDate) <= DayNumber(d) <= DayNumber(MaxDate)
  {
    DayNumberOrder(MinDate, d);
    DayNumberOrder(d, MaxDate);
  }

  // ------------------------------------------------------------ stepping

  /** The day after `d`, stepping the way date_add's loop does. */
  function Next(d: Date): (r: Date)
    requires Valid(d) && d != MaxDate
    ensures Valid(r) && DayNumber(r) == DayNumber(d) + 1
  {
    if d.day < DaysInMonth(d.year, d.month) then Date(d.year, d.month, d.day + 1)
    else if d.month < 12 then Date(d.year, d.month + 1, 1)
    else Date(d.year + 1, 1, 1)
  }

  /**
   * date_add on a valid date: steps `n` days forward and fails exactly when
   * the result would lie beyond 9999-12-31.
   */
  function AddDays(d: Date, n: nat): (r: Result<Date>)
    requires Valid(d)
    ensures r.Ok? <==> DayNumber(d) + n <= DayNumber(MaxDate)
    ensures r.Ok? ==> Valid(r.value) && DayNumber(r.value) == DayNumber(d) + n
    ensures r.Err? ==> r.error == DateErr(OutOfRange)
    decreases n
  {
    if n == 0 then MinMaxBound(d); Ok(d)
    else if d == MaxDate then Err(DateErr(OutOfRange))
    else AddDays(Next(d), n - 1)
  }

  lemma AddZero(d: Date)
    requires Valid(d)
    ensures AddDays(d, 0) == Ok(d)
  {
  }

  /** Adding `a` and then `b` days is adding `a + b` days, failures included. */
  lemma {:induction false} AddAssociative(d: Date, a: nat, b: nat)
    requires Valid(d)
    ensures AddDays(d, a + b) ==
      (match AddDays(d, a)
       case Ok(x) => AddDays(x, b)
       case Err(m) => Err(m))
    decreases a
  {
    if a > 0 && d != MaxDate {
      AddAssociative(Next(d), a - 1, b);
    }
  }

  /**
   * date_diff: the signed number of days from `s` to `e`, computed by
   * stepping whole months from `s` towards `e`.
   */
  function Diff(s: Date, e: Date): (r: int)
    requires Valid(s) && Valid(e)
    ensures r == DayNumber(e) - DayNumber(s)
  {
    if e.year == s.year && e.month == s.month then e.day - s.day
    else if e.year > s.year || (e.year == s.year && e.month > s.month) then
      DaysInMonth(s.year, s.month) - s.day + ForwardMonths(s.year, s.month, e.year, e.month) + e.day
    else
      -s.day - BackwardMonths(s.year, s.month, e.year, e.month) - (DaysInMonth(e.year, e.month) - e.day)
  }

  lemma DiffProperties(a: Date, b: Date, n: nat)
    requires Valid(a) && Valid(b)
    ensures Diff(a, a) == 0
    ensures Diff(a, b) == -Diff(b, a)
    ensures Diff(a, b) == 0 <==> a == b
    ensures Diff(a, b) > 0 <==> Before(a, b)
    ensures AddDays(a, n).Ok? ==> Diff(a, AddDays(a, n).value) == n
  {
    DayNumberOrder(a, b);
  }

  /** The date `n` days after `a` is the one `n` days away. */
  lemma AddDiff(a: Date, b: Date, n: nat)
    requires Valid(a) && Valid(b)
    requires Diff(a, b) == n
    ensures AddDays(a, n) == Ok(b)
  {
    MinMaxBound(b);
    DayNumberOrder(AddDays(a, n).value, b);
  }

  /** date_between: `s <= c <= e`. */
  function Between(s: Date, e: Date, c: Date): (r: bool)
    requires Valid(s) && Valid(e) && Valid(c)
    ensures r <==> DayNumber(s) <= DayNumber(c) <= DayNumber(e)
  {
    Diff(s, c) >= 0 && Diff(c, e) >= 0
  }

  /** date_interval_overlaps: one interval contains the other's start. */
  function Overlaps(aStart: Date, aEnd: Date, bStart: Date, bEnd: Date): (r: bool)
    requires Valid(aStart) && Valid(aEnd) && Valid(bStart) && Valid(bEnd)
    ensures r <==>
      (DayNumber(aStart) <= DayNumber(bStart) <= DayNumber(aEnd)) ||
      (DayNumber(bStart) <= DayNumber(aStart) <= DayNumber(bEnd))
  {
    Between(aStart, aEnd, bStart) || Between(bStart, bEnd, aStart)
  }

  lemma OverlapsSymmetric(aStart: Date, aEnd: Date, bStart: Date, bEnd: Date)
    requires Valid(aStart) && Valid(aEnd) && Valid(bStart) && Valid(bEnd)
    ensures Overlaps(aStart, aEnd, bStart, bEnd) == Overlaps(bStart, bEnd, aStart, aEnd)
  {
  }

  /** For intervals with start <= end, overlapping means sharing at least one day. */
  lemma OverlapsWellFormed(aStart: Date, aEnd: Date, bStart: Date, bEnd: Date)
    requires Valid(aStart) && Valid(aEnd) && Valid(bStart) && Valid(bEnd)
    requires Diff(aStart, aEnd) >= 0 && Diff(bStart, bEnd) >= 0
    ensures Overlaps(aStart, aEnd, bStart, bEnd) <==>
      Diff(aStart, bEnd) >= 0 && Diff(bStart, aEnd) >= 0
  {
  }

  // -------------------------------------------------------- day of week

  /** JavaScript's `%` by 7: the remainder takes the sign of the dividend. */
  function JsRem7(a: int): (r: int)
    ensures Cong7(r, a)
    ensures a >= 0 ==> 0 <= r < 7
    ensures a < 0 ==> -7 < r <= 0
  {
    if a >= 0 then a % 7 else -((-a) % 7)
  }

  /** `a` and `b` leave the same remainder modulo 7. */
  predicate Cong7(a: int, b: int) {
    (a - b) % 7 == 0
  }

  lemma Cong7Trans(a: int, b: int, c: int)
    requires Cong7(a, b) && Cong7(b, c)
    ensures Cong7(a, c)
  {
    var p, q := (a - b) / 7, (b - c) / 7;
    assert a - c == 7 * (p + q);
  }

  lemma Cong7Sum(a: int, b: int, c: int, d: int)
    requires Cong7(a, b) && Cong7(c, d)
    ensures Cong7(a + c, b + d)
  {
    var p, q := (a - b) / 7, (c - d) / 7;
    assert (a + c) - (b + d) == 7 * (p + q);
  }

  lemma Cong7Mod(a: int)
    ensures Cong7(a % 7, a)
  {
    assert a % 7 - a == 7 * (-(a / 7));
  }

  /** date_dow's century term: `(3 - cc % 4) * 2` with `cc = floor(y / 100)`. */
  function CenturyTerm(y: int): int
    requires y >= 1
  {
    (3 - (y / 100) % 4) * 2
  }

  /** date_dow's year term: `(yy + floor(yy / 4)) % 7` with `yy = y % 100`. */
  function YearTerm(y: int): int
    requires y >= 1
  {
    var yy := y % 100;
    (yy + yy / 4) % 7
  }

  /** date_dow's month table `nm_lut`. */
  function MonthTerm(m: int): int
    requires 1 <= m <= 12
  {
    [0, 0, 3, 3, 6, 1, 4, 6, 2, 5, 0, 3, 5][m]
  }

  /** date_dow's leap correction: -1 in January and February of a leap year. */
  function LeapTerm(y: int, m: int): int
    requires y >= 1 && 1 <= m <= 12
  {
    var cc := y / 100;
    var yy := y % 100;
    if m <= 2 && DaysInMonth(cc * 100 + yy, 2) == 29 then -1 else 0
  }

  /** The sum date_dow reduces modulo 7. */
  function DowSum(d: Date): (s: int)
    requires Valid(d)
    ensures s >= -1
  {
    d.day % 7 + MonthTerm(d.month) + CenturyTerm(d.year) + YearTerm(d.year) + LeapTerm(d.year, d.month)
  }

  /** The true weekday, 0 = Sunday .. 6 = Saturday (0001-01-01 was a Monday). */
  ghost function Weekday(d: Date): int
    requires Valid(d)
  {
    DayNumber(d) % 7
  }

  lemma LeapTermIsLeap(y: int, m: int)
    requires y >= 1 && 1 <= m <= 12
    ensures LeapTerm(y, m) == if m <= 2 && IsLeapYear(y) then -1 else 0
  {
    assert (y / 100) * 100 + y % 100 == y;
  }

  /** From one first-of-month to the next the sum moves by the month's length, modulo 7. */
  lemma MonthStep(y: int, m: int)
    requires 1 <= y <= 9999 && 2 <= m <= 12
    ensures Cong7(DowSum(Date(y, m, 1)), DowSum(Date(y, m - 1, 1)) + DaysInMonth(y, m - 1))
  {
    MonthTermStep(y, m);
    assert DowSum(Date(y, m, 1)) - DowSum(Date(y, m - 1, 1)) ==
      MonthTerm(m) - MonthTerm(m - 1) + LeapTerm(y, m) - LeapTerm(y, m - 1);
  }

  /** The month and leap terms of date_dow move by each month's length, modulo 7. */
  lemma MonthTermStep(y: int, m: int)
    requires 1 <= y && 2 <= m <= 12
    ensures Cong7(MonthTerm(m) - MonthTerm(m - 1) + LeapTerm(y, m) - LeapTerm(y, m - 1), DaysInMonth(y, m - 1))
  {
    LeapTermIsLeap(y, m);
    LeapTermIsLeap(y, m - 1);
  }

  lemma YearDigitsStep(yy: int)
    requires 1 <= yy <= 99
    ensures Cong7((yy + yy / 4) % 7, ((yy - 1) + (yy - 1) / 4) % 7 + (if yy % 4 == 0 then 2 else 1))
  {
    var a, b := yy + yy / 4, (yy - 1) + (yy - 1) / 4;
    var k := if yy % 4 == 0 then 2 else 1;
    assert a == b + k by {
      QuarterStep(yy);
    }
    Cong7Shift(a, b, k);
  }

  /** Stepping a year count by one moves its quarter exactly on multiples of four. */
  lemma QuarterStep(n: int)
    requires n >= 1
    ensures n / 4 == (n - 1) / 4 + (if n % 4 == 0 then 1 else 0)
  {
    var q, r := (n - 1) / 4, (n - 1) % 4;
    assert n - 1 == 4 * q + r && 0 <= r < 4;
    if r == 3 {
      assert n == 4 * (q + 1) + 0;
    } else {
      assert n == 4 * q + (r + 1) && r + 1 < 4;
    }
  }

  lemma Cong7Shift(a: int, b: int, k: int)
    requires a == b + k
    ensures Cong7(a % 7, b % 7 + k)
  {
    var x, y := a / 7, b / 7;
    assert a == 7 * x + a % 7 && b == 7 * y + b % 7;
    assert a % 7 - (b % 7 + k) == 7 * (y - x);
  }

  lemma Cong7Symmetric(a: int, b: int)
    requires Cong7(a, b)
    ensures Cong7(b, a)
  {
    var p := (a - b) / 7;
    assert b - a == 7 * (-p);
  }

  lemma SameCentury(y: int)
    requires 2 <= y && y % 100 != 0
    ensures (y - 1) / 100 == y / 100 && (y - 1) % 100 == y % 100 - 1
    ensures y % 4 == (y % 100) % 4
  {
    assert y == (y / 100) * 100 + y % 100;
  }

  /** Within a century the year term grows by one, and by two into a leap year. */
  lemma YearTermStep(y: int)
    requires 2 <= y && y % 100 != 0
    ensures CenturyTerm(y) == CenturyTerm(y - 1)
    ensures Cong7(YearTerm(y), YearTerm(y - 1) + (if y % 4 == 0 then 2 else 1))
    ensures IsLeapYear(y) <==> y % 4 == 0
  {
    SameCentury(y);
    var yy := y % 100;
    YearDigitsStep(yy);
    assert YearTerm(y) == (yy + yy / 4) % 7;
    assert YearTerm(y - 1) == ((yy - 1) + (yy - 1) / 4) % 7;
    LeapOffCentury(y);
  }

  /** Outside century years, a year is a leap year exactly when four divides it. */
  lemma LeapOffCentury(y: int)
    requires y % 100 != 0
    ensures IsLeapYear(y) <==> y % 4 == 0
  {
  }

  /** Into a century year the year term drops from 4 to 0 and the century term moves. */
  lemma CenturyStep(y: int)
    requires 2 <= y && y % 100 == 0
    ensures YearTerm(y) == 0 && YearTerm(y - 1) == 4
    ensures CenturyTerm(y) - CenturyTerm(y - 1) == if (y / 100) % 4 == 0 then 6 else -2
    ensures IsLeapYear(y) <==> (y / 100) % 4 == 0
  {
    var cc := y / 100;
    assert y == cc * 100;
    assert (y - 1) / 100 == cc - 1 && (y - 1) % 100 == 99;
    assert (cc - 1) % 4 == if cc % 4 == 0 then 3 else cc % 4 - 1;
    assert y % 400 == 0 <==> cc % 4 == 0;
  }

  /** From 1 December to 1 January the sum moves by 31, modulo 7, across century years too. */
  lemma YearStep(y: int)
    requires 2 <= y <= 9999
    ensures Cong7(DowSum(Date(y, 1, 1)), DowSum(Date(y - 1, 12, 1)) + 31)
  {
    LeapTermIsLeap(y, 1);
    LeapTermIsLeap(y - 1, 12);
    var jan := 1 + CenturyTerm(y) + YearTerm(y) + LeapTerm(y, 1);
    var dec := 1 + 5 + CenturyTerm(y - 1) + YearTerm(y - 1);
    assert DowSum(Date(y, 1, 1)) == jan;
    assert DowSum(Date(y - 1, 12, 1)) == dec;
    if y % 100 == 0 {
      CenturyStep(y);
    } else {
      YearTermStep(y);
      var k := if y % 4 == 0 then 2 else 1;
      assert jan - (dec + 31) == (YearTerm(y) - (YearTerm(y - 1) + k)) - 35;
    }
  }

  lemma Cong7Chain(a: int, p: int, d: int, b: int)
    requires Cong7(a, p + d) && Cong7(p, b)
    ensures Cong7(a, b + d)
  {
    var i, j := (a - (p + d)) / 7, (p - b) / 7;
    assert a - (b + d) == 7 * (i + j);
  }

  /** On the first of every month the sum is congruent to the ordinal. */
  lemma {:induction false} MonthStartCongruent(y: int, m: int)
    requires 1 <= y <= 9999 && 1 <= m <= 12
    ensures Cong7(DowSum(Date(y, m, 1)), DaysBeforeMonth(y, m) + 1)
    decreases y, m
  {
    if m > 1 {
      MonthStartCongruent(y, m - 1);
      MonthCase(y, m);
    } else if y > 1 {
      MonthStartCongruent(y - 1, 12);
      YearCase(y);
    } else {
      EpochCase();
    }
  }

  lemma MonthCase(y: int, m: int)
    requires 1 <= y <= 9999 && 2 <= m <= 12
    requires Cong7(DowSum(Date(y, m - 1, 1)), DaysBeforeMonth(y, m - 1) + 1)
    ensures Cong7(DowSum(Date(y, m, 1)), DaysBeforeMonth(y, m) + 1)
  {
    MonthStep(y, m);
    Cong7Chain(DowSum(Date(y, m, 1)), DowSum(Date(y, m - 1, 1)), DaysInMonth(y, m - 1),
      DaysBeforeMonth(y, m - 1) + 1);
    assert DaysBeforeMonth(y, m) + 1 == DaysBeforeMonth(y, m - 1) + 1 + DaysInMonth(y, m - 1);
  }

  lemma YearCase(y: int)
    requires 2 <= y <= 9999
    requires Cong7(DowSum(Date(y - 1, 12, 1)), DaysBeforeMonth(y - 1, 12) + 1)
    ensures Cong7(DowSum(Date(y, 1, 1)), DaysBeforeMonth(y, 1) + 1)
  {
    YearStep(y);
    NewYearDays(y);
    Cong7Chain(DowSum(Date(y, 1, 1)), DowSum(Date(y - 1, 12, 1)), 31, DaysBeforeMonth(y - 1, 12) + 1);
  }

  /** December has 31 days in every year. */
  lemma NewYearDays(y: int)
    requires y >= 2
    ensures DaysBeforeMonth(y, 1) == DaysBeforeMonth(y - 1, 12) + 31
  {
  }

  lemma EpochCase()
    ensures Cong7(DowSum(Date(1, 1, 1)), DaysBeforeMonth(1, 1) + 1)
  {
    assert DowSum(Date(1, 1, 1)) == 8;
  }

  /** The sum is congruent to the ordinal modulo 7. */
  lemma DowSumCongruent(d: Date)
    requires Valid(d)
    ensures Cong7(DowSum(d), DayNumber(d))
  {
    var first := Date(d.year, d.month, 1);
    MonthStartCongruent(d.year, d.month);
    assert DowSum(d) == DowSum(first) + d.day % 7 - 1;
    Cong7Mod(d.day);
    Cong7Sum(DowSum(first), DaysBeforeMonth(d.year, d.month) + 1, d.day % 7 - 1, d.day - 1);
  }

  /**
   * date_dow as written: the weekday, 0 = Sunday .. 6 = Saturday, except
   * that the truncating final `%` yields -1 rather than 6 for some Saturdays
   * (see Dow1984).
   */
  function Dow(d: Date): (r: int)
    requires Valid(d)
    ensures -1 <= r <= 6
    ensures r == Weekday(d) || (r == -1 && Weekday(d) == 6)
  {
    DowRemWeekday(d);
    JsRem7(DowSum(d))
  }

  lemma DowRemWeekday(d: Date)
    requires Valid(d)
    ensures -1 <= JsRem7(DowSum(d)) <= 6
    ensures JsRem7(DowSum(d)) == Weekday(d) || (JsRem7(DowSum(d)) == -1 && Weekday(d) == 6)
  {
    DowSumCongruent(d);
    TruncRemCongruent(DowSum(d), DayNumber(d));
  }

  /** The truncating remainder of `s >= -1` names the residue of any `n` congruent to it, or -1 for 6. */
  lemma TruncRemCongruent(s: int, n: int)
    requires s >= -1 && Cong7(s, n)
    ensures -1 <= JsRem7(s) <= 6
    ensures JsRem7(s) == n % 7 || (JsRem7(s) == -1 && n % 7 == 6)
  {
    Cong7Mod(n);
    Cong7Trans(JsRem7(s), s, n);
    Cong7Trans(JsRem7(s), n, n % 7);
    SmallCong7(JsRem7(s), n % 7);
  }

  /** Two congruent values in -1..6 and 0..6 agree, except -1 standing for 6. */
  lemma SmallCong7(a: int, b: int)
    requires -1 <= a <= 6 && 0 <= b <= 6 && Cong7(a, b)
    ensures a == b || (a == -1 && b == 6)
  {
    var p := (a - b) / 7;
    assert a - b == 7 * p;
  }

  /** Seven days later the weekday number is the same, up to the -1 for Saturday. */
  lemma DowWeekLater(d: Date)
    requires Valid(d)
    requires AddDays(d, 7).Ok?
    ensures Cong7(Dow(AddDays(d, 7).value), Dow(d))
  {
    SameWeekday(d, AddDays(d, 7).value);
  }

  lemma SameWeekday(d: Date, e: Date)
    requires Valid(d) && Valid(e)
    requires DayNumber(e) == DayNumber(d) + 7
    ensures Cong7(Dow(e), Dow(d))
  {
    WeekLaterResidue(DayNumber(d));
    SameResidue(Dow(e), Dow(d), Weekday(d));
  }

  lemma WeekLaterResidue(n: int)
    ensures (n + 7) % 7 == n % 7
  {
  }

  /** Two weekday numbers standing for the same residue are congruent. */
  lemma SameResidue(a: int, b: int, w: int)
    requires a == w || (a == -1 && w == 6)
    requires b == w || (b == -1 && w == 6)
    ensures Cong7(a, b)
  {
  }

  /** 1984-01-07, a Saturday, gets -1 instead of 6. */
  lemma Dow1984()
    ensures Valid(Date(1984, 1, 7))
    ensures Dow(Date(1984, 1, 7)) == -1
    ensures Weekday(Date(1984, 1, 7)) == 6
  {
    assert DowSum(Date(1984, 1, 7)) == -1;
  }

  // ------------------------------------------------------------ strings

  /** is_valid_date: `^(\d{4})-(\d{2})-(\d{2})$` naming an existing day. */
  predicate IsValidDate(s: string) {
    |s| == 10 && s[4] == '-' && s[7] == '-' &&
    AllDigits(s[..4]) && AllDigits(s[5..7]) && AllDigits(s[8..]) &&
    Valid(Date(DigitsValue(s[..4]), DigitsValue(s[5..7]), DigitsValue(s[8..])))
  }

  /** The attribute `name` of `e` is present and a valid date. */
  predicate DateAttr(e: Element, name: string) {
    Attr(e, name).Some? && IsValidDate(Attr(e, name).value)
  }

  function ParseDate(s: string): (d: Date)
    requires IsValidDate(s)
    ensures Valid(d)
  {
    Date(DigitsValue(s[..4]), DigitsValue(s[5..7]), DigitsValue(s[8..]))
  }

  /** The string date_add returns: four, two and two zero-padded digits. */
  function FormatDate(d: Date): (s: string)
    requires Valid(d)
    ensures IsValidDate(s) && ParseDate(s) == d
  {
    var y, m, dd := ZeroPad(d.year, 4), ZeroPad(d.month, 2), ZeroPad(d.day, 2);
    ZeroPadFixedWidth(d.year, 4);
    ZeroPadFixedWidth(d.month, 2);
    ZeroPadFixedWidth(d.day, 2);
    var s := y + "-" + m + "-" + dd;
    assert s[..4] == y && s[5..7] == m && s[8..] == dd;
    s
  }

  /** Every valid date string is the rendering of the date it names. */
  lemma FormatParse(s: string)
    requires IsValidDate(s)
    ensures FormatDate(ParseDate(s)) == s
  {
    ZeroPadRoundTrip(s[..4]);
    ZeroPadRoundTrip(s[5..7]);
    ZeroPadRoundTrip(s[8..]);
    assert s == s[..4] + "-" + s[5..7] + "-" + s[8..];
  }

  /** Distinct valid dates have distinct strings, and vice versa. */
  lemma ParseInjective(a: string, b: string)
    requires IsValidDate(a) && IsValidDate(b)
    ensures ParseDate(a) == ParseDate(b) <==> a == b
  {
    FormatParse(a);
    FormatParse(b);
  }

  // ------------------------------------------------ the exported functions

  /** date_add on strings: the date argument must be valid and the count non-negative. */
  function DateAdd(dt: string, n: int): (r: Result<string>)
    ensures !IsValidDate(dt) ==> r == Err(DateErr(InvalidDate("date_add", dt)))
    ensures IsValidDate(dt) && n < 0 ==> r.Err?
    ensures IsValidDate(dt) && n >= 0 ==>
      (r.Ok? <==> DayNumber(ParseDate(dt)) + n <= DayNumber(MaxDate))
    ensures r.Ok? ==> IsValidDate(r.value) && Diff(ParseDate(dt), ParseDate(r.value)) == n
  {
    if !IsValidDate(dt) then Err(DateErr(InvalidDate("date_add", dt)))
    else if n < 0 then Err(DateErr(BadDayCount(n)))
    else
      var d :- AddDays(ParseDate(dt), n);
      Ok(FormatDate(d))
  }

  /** date_diff on strings. */
  function DateDiff(start: string, end: string): (r: Result<int>)
    ensures r.Ok? <==> IsValidDate(start) && IsValidDate(end)
    ensures r.Ok? ==> r.value == DayNumber(ParseDate(end)) - DayNumber(ParseDate(start))
  {
    if !IsValidDate(start) then Err(DateErr(InvalidDate("date_diff", start)))
    else if !IsValidDate(end) then Err(DateErr(InvalidDate("date_diff", end)))
    else Ok(Diff(ParseDate(start), ParseDate(end)))
  }

  /** date_between on strings. */
  function DateBetween(start: string, end: string, check: string): (r: Result<bool>)
    ensures r.Ok? <==> IsValidDate(start) && IsValidDate(end) && IsValidDate(check)
    ensures r.Ok? ==> (r.value <==>
      DayNumber(ParseDate(start)) <= DayNumber(ParseDate(check)) <= DayNumber(ParseDate(end)))
  {
    if !IsValidDate(start) then Err(DateErr(InvalidDate("date_between", start)))
    else if !IsValidDate(end) then Err(DateErr(InvalidDate("date_between", end)))
    else if !IsValidDate(check) then Err(DateErr(InvalidDate("date_between", check)))
    else Ok(Between(ParseDate(start), ParseDate(end), ParseDate(check)))
  }

  /**
   * date_interval_overlaps on strings. The `||` short-circuits: when `bStart`
   * lies in the first interval, `bEnd` is never looked at.
   */
  function DateIntervalOverlaps(aStart: string, aEnd: string, bStart: string, bEnd: string): (r: Result<bool>)
    ensures !(IsValidDate(aStart) && IsValidDate(aEnd) && IsValidDate(bStart)) ==> r.Err?
    ensures IsValidDate(aStart) && IsValidDate(aEnd) && IsValidDate(bStart) && IsValidDate(bEnd) ==>
      r == Ok(Overlaps(ParseDate(aStart), ParseDate(aEnd), ParseDate(bStart), ParseDate(bEnd)))
    ensures r.Ok? && !IsValidDate(bEnd) ==>
      r.value && Between(ParseDate(aStart), ParseDate(aEnd), ParseDate(bStart))
  {
    var first :- DateBetween(aStart, aEnd, bStart);
    if first then Ok(true)
    else DateBetween(bStart, bEnd, aStart)
  }

  /** date_dow on strings. */
  function DateDow(date: string): (r: Result<int>)
    ensures r.Ok? <==> IsValidDate(date)
    ensures r.Ok? ==> r.value == Weekday(ParseDate(date)) || (r.value == -1 && Weekday(ParseDate(date)) == 6)
  {
    if !IsValidDate(date) then Err(DateErr(InvalidDate("date_dow", date)))
    else Ok(Dow(ParseDate(date)))
  }
}
