/** The part of the ECMAScript `Date` object the timeline slider relies on,
    over time values in milliseconds since 1970-01-01T00:00Z: the
    proleptic Gregorian calendar, `getFullYear`, `getMonth` (zero-based)
    and the month/day normalisation of the constructor
    `new Date(year, month, date)`. Time is taken to be UTC. */
module Calendar {

  const MsPerDay: int := 86400000

  /** Day number of a time value (ECMAScript `Day(t) = floor(t / msPerDay)`). */
  function Day(t: int): int
  {
    t / MsPerDay
  }

  predicate IsLeapYear(y: int)
  {
    y % 4 == 0 && (y % 100 != 0 || y % 400 == 0)
  }

  function DaysInYear(y: int): int
  {
    if IsLeapYear(y) then 366 else 365
  }

  /** ECMAScript `DayFromYear`: the day number of January 1 of `y`. */
  function DayFromYear(y: int): int
  {
    365 * (y - 1970) + (y - 1969) / 4 - (y - 1901) / 100 + (y - 1601) / 400
  }

  /** Consecutive years start `DaysInYear` days apart. */
  lemma DayFromYearStep(y: int)
    ensures DayFromYear(y + 1) == DayFromYear(y) + DaysInYear(y)
  {
    var d4 := (y - 1968) / 4 - (y - 1969) / 4;
    var d100 := (y - 1900) / 100 - (y - 1901) / 100;
    var d400 := (y - 1600) / 400 - (y - 1601) / 400;
    assert DayFromYear(y + 1) - DayFromYear(y) == 365 + d4 - d100 + d400;
    LeapSteps(y);
    DivisibilityChain(y);
    LeapCount(d4, d100, d400, y % 4 == 0, y % 100 == 0, y % 400 == 0);
  }

  /** The three quotient steps add up to the length of the year. */
  lemma LeapCount(d4: int, d100: int, d400: int, by4: bool, by100: bool, by400: bool)
    requires d4 == (if by4 then 1 else 0)
    requires d100 == (if by100 then 1 else 0)
    requires d400 == (if by400 then 1 else 0)
    requires by400 ==> by100
    requires by100 ==> by4
    ensures 365 + d4 - d100 + d400 == if by4 && (!by100 || by400) then 366 else 365
  {
  }

  /** Multiples of 400 are multiples of 100, which are multiples of 4. */
  lemma DivisibilityChain(y: int)
    ensures y % 400 == 0 ==> y % 100 == 0
    ensures y % 100 == 0 ==> y % 4 == 0
  {
    if y % 400 == 0 {
      MultipleOf400(y);
    }
    if y % 100 == 0 {
      MultipleOf100(y);
    }
  }

  lemma MultipleOf400(y: int)
    requires y % 400 == 0
    ensures y % 100 == 0
  {
    var k, q, r := y / 400, y / 100, y % 100;
    assert y == 400 * k;
    assert y == 100 * q + r && 0 <= r < 100;
    assert r == 100 * (4 * k - q);
  }

  lemma MultipleOf100(y: int)
    requires y % 100 == 0
    ensures y % 4 == 0
  {
    var k, q, r := y / 100, y / 4, y % 4;
    assert y == 100 * k;
    assert y == 4 * q + r && 0 <= r < 4;
    assert r == 4 * (25 * k - q);
  }

  /** Each of the three quotients in `DayFromYear` steps up exactly when
      the year is a multiple of its divisor. */
  lemma LeapSteps(y: int)
    ensures (y - 1968) / 4 - (y - 1969) / 4 == if y % 4 == 0 then 1 else 0
    ensures (y - 1900) / 100 - (y - 1901) / 100 == if y % 100 == 0 then 1 else 0
    ensures (y - 1600) / 400 - (y - 1601) / 400 == if y % 400 == 0 then 1 else 0
  {
    var k := y / 4;
    assert y == 4 * k + y % 4;
    assert y - 1968 == 4 * (k - 492) + y % 4;
    var m := y / 100;
    assert y == 100 * m + y % 100;
    assert y - 1900 == 100 * (m - 19) + y % 100;
    var n := y / 400;
    assert y == 400 * n + y % 400;
    assert y - 1600 == 400 * (n - 4) + y % 400;
  }

  /** Days of year `y` before the first day of month `m` (1-based); month
      13 stands for the end of the year. */
  function DaysBeforeMonth(y: int, m: int): (r: int)
    requires 1 <= m <= 13
    ensures m == 1 ==> r == 0
    ensures m == 13 ==> r == DaysInYear(y)
  {
    // 0, 31, 59, 90, 120, 151, 181, 212, 243, 273, 304, 334, 365
    var common := 30 * (m - 1) + (m + m / 8) / 2 - (if m > 2 then 2 else 0);
    if m > 2 && IsLeapYear(y) then common + 1 else common
  }

  /** Month lengths are 28 to 31 days. */
  lemma DaysInMonthRange(y: int, m: int)
    requires 1 <= m <= 12
    ensures 28 <= DaysBeforeMonth(y, m + 1) - DaysBeforeMonth(y, m) <= 31
  {
  }

  /** Months counted from year 0 (`12 * year + zero-based month`) of the
      month holding day number `d`: the month whose days enclose `d`. */
  function MonthOfDay(d: int): (k: int)
    ensures MonthStart(k) <= d < MonthStart(k + 1)
  {
    MonthStartSteps();
    Enclosing(MonthStart, d)
  }

  /** The month number of time value `t`. */
  function MonthIndex(t: int): int
  {
    MonthOfDay(Day(t))
  }

  /** `getFullYear()`. */
  function FullYear(t: int): int
  {
    MonthIndex(t) / 12
  }

  /** `getMonth()`: 0 for January to 11 for December. */
  function Month(t: int): (m: int)
    ensures 0 <= m <= 11
  {
    MonthIndex(t) % 12
  }

  /** ECMAScript `MakeDay(year, month, date)`: the month is zero-based and
      may lie outside 0..11 (it rolls the year over), and the date may lie
      outside the month (date 0 is the last day of the month before). */
  function MakeDay(year: int, month: int, date: int): int
  {
    var ym := year + month / 12;
    var mn := month % 12;
    DayFromYear(ym) + DaysBeforeMonth(ym, mn + 1) + date - 1
  }

  /** The year `new Date(year, month, date)` uses: the constructor reads a
      year from 0 to 99 as 1900 plus that year. */
  function ConstructorYear(year: int): (y: int)
    ensures 0 <= year <= 99 ==> 1900 <= y <= 1999
    ensures y - year == if 0 <= year <= 99 then 1900 else 0
  {
    if 0 <= year <= 99 then 1900 + year else year
  }

  /** The month number `new Date(year, month, ...)` falls in: the
      constructor's reading of the year, with the month rolling over. */
  function ConstructorMonth(year: int, month: int): (mi: int)
    ensures mi == 12 * year + month + if 0 <= year <= 99 then 12 * 1900 else 0
  {
    12 * ConstructorYear(year) + month
  }

  /** `new Date(year, month, date)` with the time of day 0, in UTC: the
      constructor's reading of the year, then `MakeDay`. It falls on day
      `date` of month number `ConstructorMonth(year, month)`, counting from
      1 and rolling over in both directions. */
  function NewDate(year: int, month: int, date: int): (t: int)
    ensures Day(t) == MonthStart(ConstructorMonth(year, month)) + date - 1
  {
    MidnightMakeDay(ConstructorYear(year), month, ConstructorMonth(year, month), date);
    MakeDay(ConstructorYear(year), month, date) * MsPerDay
  }

  /** Day number of the first day of month number `mi`. */
  function MonthStart(mi: int): int
  {
    DayFromYear(mi / 12) + DaysBeforeMonth(mi / 12, mi % 12 + 1)
  }

  /** Each month starts 28 to 31 days after the one before it. */
  lemma MonthStartStep(mi: int)
    ensures MonthStart(mi) + 28 <= MonthStart(mi + 1) <= MonthStart(mi) + 31
  {
    var y := mi / 12;
    DaysInMonthRange(y, mi % 12 + 1);
    if mi % 12 == 11 {
      assert (mi + 1) / 12 == y + 1 && (mi + 1) % 12 == 0;
      DayFromYearStep(y);
    } else {
      assert (mi + 1) / 12 == y && (mi + 1) % 12 == mi % 12 + 1;
    }
  }

  /** Every step of `MonthStart` is 28 to 31 days. */
  lemma MonthStartSteps()
    ensures Increasing(MonthStart)
  {
    forall a, b | a < b
      ensures MonthStart(a) < MonthStart(b)
    {
      MonthStartMonotone(a, b);
    }
  }

  /** Month starts increase with the month number. */
  lemma {:induction false} MonthStartMonotone(a: int, b: int)
    requires a < b
    ensures MonthStart(a) < MonthStart(b)
    decreases b - a
  {
    MonthStartStep(a);
    if a + 1 < b {
      MonthStartMonotone(a + 1, b);
    }
  }

  /** `MakeDay` with the month rolled over lands on the same day as
      counting months from year 0. */
  lemma MakeDayMonthStart(year: int, month: int, date: int)
    ensures MakeDay(year, month, date) == MonthStart(12 * year + month) + date - 1
  {
    assert (12 * year + month) / 12 == year + month / 12;
    assert (12 * year + month) % 12 == month % 12;
  }

  /** Months do not overlap: a day lies in one month only. */
  lemma MonthOfDayUnique(d: int, mi: int)
    requires MonthStart(mi) <= d < MonthStart(mi + 1)
    ensures MonthOfDay(d) == mi
  {
    MonthStartSteps();
    EnclosingIs(MonthStart, d, mi);
  }

  /** Later days never fall in earlier months. */
  lemma MonthOfDayMonotone(d1: int, d2: int)
    requires d1 <= d2
    ensures MonthOfDay(d1) <= MonthOfDay(d2)
  {
    MonthStartSteps();
    EnclosingMonotone(MonthStart, d1, d2);
  }

  /** A time value whose day lies in month `mi` has month number `mi`. */
  lemma MonthIndexOfDay(t: int, mi: int)
    requires MonthStart(mi) <= Day(t) < MonthStart(mi + 1)
    ensures MonthIndex(t) == mi
  {
    MonthOfDayUnique(Day(t), mi);
  }

  /** A time value on the last day before the month of `t` starts lies in
      the month before, and earlier than `t`. */
  lemma DayBeforeMonthOf(t: int, prev: int)
    requires Day(prev) + 1 == MonthStart(MonthIndex(t))
    ensures MonthIndex(prev) == MonthIndex(t) - 1
    ensures prev < t
  {
    var mi := MonthIndex(t);
    MonthStartStep(mi - 1);
    MonthIndexOfDay(prev, mi - 1);
    DayOrder(prev, t);
  }

  /** A time value on the last day before month `mi` lies in the month
      before `mi`. */
  lemma LastDayBeforeMonth(t: int, mi: int)
    requires Day(t) + 1 == MonthStart(mi)
    ensures MonthIndex(t) == mi - 1
  {
    MonthStartStep(mi - 1);
    MonthIndexOfDay(t, mi - 1);
  }

  /** A time value on the first day of the month after the month of `t`
      lies in that month, and later than `t`. */
  lemma FirstDayAfterMonthOf(t: int, next: int)
    requires Day(next) == MonthStart(MonthIndex(t) + 1)
    ensures MonthIndex(next) == MonthIndex(t) + 1
    ensures t < next
  {
    FirstDayOfMonth(next, MonthIndex(t) + 1);
    DayOrder(t, next);
  }

  /** A time value on the first day of month `mi` lies in month `mi`. */
  lemma FirstDayOfMonth(t: int, mi: int)
    requires Day(t) == MonthStart(mi)
    ensures MonthIndex(t) == mi
  {
    MonthStartStep(mi);
    MonthIndexOfDay(t, mi);
  }

  /** Earlier days hold earlier time values. */
  lemma DayOrder(a: int, b: int)
    requires Day(a) < Day(b)
    ensures a < b
  {
  }

  /** The year and the month put back together give the month number. */
  lemma YearMonthIndex(t: int)
    ensures 12 * FullYear(t) + Month(t) == MonthIndex(t)
  {
  }

  /** The day of midnight on the date `MakeDay` yields, counted from the
      start of the month number `12 * year + month`. */
  lemma MidnightMakeDay(year: int, month: int, mi: int, date: int)
    requires 12 * year + month == mi
    ensures Day(MakeDay(year, month, date) * MsPerDay) == MonthStart(mi) + date - 1
  {
    MakeDayMonthStart(year, month, date);
    MidnightDay(MakeDay(year, month, date));
  }

  /** Later time values never fall in earlier months. */
  lemma MonthIndexMonotone(a: int, b: int)
    requires a <= b
    ensures MonthIndex(a) <= MonthIndex(b)
  {
    assert Day(a) <= Day(b);
    MonthOfDayMonotone(Day(a), Day(b));
  }

  /** Same year and same month is the same month number. */
  lemma SameMonthIndex(a: int, b: int)
    ensures (FullYear(a) == FullYear(b) && Month(a) == Month(b)) <==> MonthIndex(a) == MonthIndex(b)
  {
    TwelveDigits(FullYear(a), Month(a), FullYear(b), Month(b));
  }

  lemma TwelveDigits(y1: int, m1: int, y2: int, m2: int)
    requires 0 <= m1 <= 11 && 0 <= m2 <= 11
    ensures 12 * y1 + m1 == 12 * y2 + m2 <==> y1 == y2 && m1 == m2
  {
    if 12 * y1 + m1 == 12 * y2 + m2 {
      assert (12 * y1 + m1) / 12 == y1;
      assert (12 * y2 + m2) / 12 == y2;
    }
  }

  /** The time value of midnight at the start of day `d`. */
  lemma MidnightDay(d: int)
    ensures Day(d * MsPerDay) == d
  {
  }

  /* A strictly increasing `f` cuts the integers into consecutive
     intervals `f(k) <= d < f(k + 1)`; months are such intervals of days. */

  ghost predicate Increasing(f: int -> int)
  {
    forall i, j :: i < j ==> f(i) < f(j)
  }

  /** The index of the interval of `f` enclosing `d`. */
  function Enclosing(f: int -> int, d: int): (k: int)
    requires Increasing(f)
    ensures f(k) <= d < f(k + 1)
  {
    EnclosingExists(f, d);
    EnclosingUniqueAll(f, d);
    var k :| f(k) <= d < f(k + 1);
    k
  }

  lemma EnclosingExists(f: int -> int, d: int)
    requires Increasing(f)
    ensures exists k :: f(k) <= d < f(k + 1)
  {
    var k := if f(0) <= d then EnclosingUp(f, 0, d) else EnclosingDown(f, -1, d);
  }

  lemma EnclosingUniqueAll(f: int -> int, d: int)
    requires Increasing(f)
    ensures forall k, j :: f(k) <= d < f(k + 1) && f(j) <= d < f(j + 1) ==> k == j
  {
    forall k, j | f(k) <= d < f(k + 1) && f(j) <= d < f(j + 1)
      ensures k == j
    {
      EnclosingUnique(f, d, k, j);
    }
  }

  ghost function EnclosingUp(f: int -> int, k: int, d: int): (r: int)
    requires Increasing(f)
    requires f(k) <= d
    ensures f(r) <= d < f(r + 1)
    decreases d - f(k)
  {
    if d < f(k + 1) then k else EnclosingUp(f, k + 1, d)
  }

  ghost function EnclosingDown(f: int -> int, k: int, d: int): (r: int)
    requires Increasing(f)
    requires d < f(k + 1)
    ensures f(r) <= d < f(r + 1)
    decreases f(k + 1) - d
  {
    if f(k) <= d then k else EnclosingDown(f, k - 1, d)
  }

  /** Intervals do not overlap. */
  lemma EnclosingUnique(f: int -> int, d: int, k: int, j: int)
    requires Increasing(f)
    requires f(k) <= d < f(k + 1)
    requires f(j) <= d < f(j + 1)
    ensures k == j
  {
  }

  /** Intervals follow the order of the values they enclose. */
  lemma EnclosingOrdered(f: int -> int, d1: int, k1: int, d2: int, k2: int)
    requires Increasing(f)
    requires f(k1) <= d1 < f(k1 + 1)
    requires f(k2) <= d2 < f(k2 + 1)
    requires d1 <= d2
    ensures k1 <= k2
  {
  }

  /** The interval enclosing `d` is the one whose bounds hold `d`. */
  lemma EnclosingIs(f: int -> int, d: int, k: int)
    requires Increasing(f)
    requires f(k) <= d < f(k + 1)
    ensures Enclosing(f, d) == k
  {
    EnclosingUnique(f, d, Enclosing(f, d), k);
  }

  /** Larger values lie in later (or the same) intervals. */
  lemma EnclosingMonotone(f: int -> int, d1: int, d2: int)
    requires Increasing(f)
    requires d1 <= d2
    ensures Enclosing(f, d1) <= Enclosing(f, d2)
  {
    EnclosingOrdered(f, d1, Enclosing(f, d1), d2, Enclosing(f, d2));
  }
}
