/** The timeline range slider: two handles (start and end dates) dragged
    over a track that maps the range `[minDate, maxDate]` linearly to the
    positions 0 to 100 percent. Dates are time values in milliseconds. */
module TimelineSlider {
  import opened Calendar
  import opened Wrappers
  import opened Numbers

  /** JavaScript turns a fractional time value into an integral one by
      truncating toward zero (`TimeClip`). */
  function Trunc(x: real): (n: int)
    ensures x >= 0.0 ==> n as real <= x < n as real + 1.0
    ensures x < 0.0 ==> n as real - 1.0 < x <= n as real
  {
    if x >= 0.0 then x.Floor else -((-x).Floor)
  }

  /** Position of date `t` on the track, in percent. */
  function DateToPercentage(minDate: int, maxDate: int, t: int): real
    requires minDate < maxDate
  {
    ((t - minDate) as real / (maxDate - minDate) as real) * 100.0
  }

  /** The date at position `p` of the track. */
  function PercentageToDate(minDate: int, maxDate: int, p: real): int
    requires minDate < maxDate
  {
    Trunc(minDate as real + (p / 100.0) * (maxDate - minDate) as real)
  }

  /** The two ends of the range sit at 0 and 100 percent. */
  lemma PercentageEnds(minDate: int, maxDate: int)
    requires minDate < maxDate
    ensures DateToPercentage(minDate, maxDate, minDate) == 0.0
    ensures DateToPercentage(minDate, maxDate, maxDate) == 100.0
  {
  }

  /** Positions follow the order of dates, in both directions. */
  lemma PercentageMonotone(minDate: int, maxDate: int, a: int, b: int)
    requires minDate < maxDate
    ensures a <= b <==> DateToPercentage(minDate, maxDate, a) <= DateToPercentage(minDate, maxDate, b)
  {
    var r := (maxDate - minDate) as real;
    assert DateToPercentage(minDate, maxDate, b) - DateToPercentage(minDate, maxDate, a)
        == ((b - a) as real / r) * 100.0;
  }

  /** Converting a date to its position and back yields the same date. */
  lemma PercentageRoundTrip(minDate: int, maxDate: int, t: int)
    requires minDate < maxDate
    ensures PercentageToDate(minDate, maxDate, DateToPercentage(minDate, maxDate, t)) == t
  {
    var r := (maxDate - minDate) as real;
    var q := (t - minDate) as real / r;
    assert q * r == (t - minDate) as real;
    assert (q * 100.0 / 100.0) * r == (t - minDate) as real;
  }

  /** The pointer position is clamped to the track. */
  function ClampPercent(raw: real): (p: real)
    ensures 0.0 <= p <= 100.0
    ensures 0.0 <= raw <= 100.0 ==> p == raw
    ensures raw < 0.0 ==> p == 0.0
    ensures raw > 100.0 ==> p == 100.0
  {
    if raw < 0.0 then 0.0 else if raw > 100.0 then 100.0 else raw
  }

  /** A pointer at or past either end of the track selects that end of
      the range. */
  lemma PointerPastEnds(minDate: int, maxDate: int, raw: real)
    requires minDate < maxDate
    ensures raw <= 0.0 ==> PercentageToDate(minDate, maxDate, ClampPercent(raw)) == minDate
    ensures raw >= 100.0 ==> PercentageToDate(minDate, maxDate, ClampPercent(raw)) == maxDate
  {
    assert minDate as real + (0.0 / 100.0) * (maxDate - minDate) as real == minDate as real;
    assert minDate as real + (100.0 / 100.0) * (maxDate - minDate) as real == maxDate as real;
  }

  /** A position on the track maps to a date of the range. */
  lemma PercentageToDateInRange(minDate: int, maxDate: int, p: real)
    requires minDate < maxDate
    requires 0.0 <= p <= 100.0
    ensures minDate <= PercentageToDate(minDate, maxDate, p) <= maxDate
  {
    OffsetWithin(minDate, maxDate, p / 100.0);
    TruncBetween(minDate as real + (p / 100.0) * (maxDate - minDate) as real, minDate, maxDate);
  }

  /** A fraction of the way from `lo` to `hi` lies between them. */
  lemma OffsetWithin(lo: int, hi: int, f: real)
    requires lo < hi && 0.0 <= f <= 1.0
    ensures lo as real <= lo as real + f * (hi - lo) as real <= hi as real
  {
    var r := (hi - lo) as real;
    FractionOf(f, r);
    assert lo as real + r == hi as real;
  }

  /** A fraction of a positive length is at most that length. */
  lemma FractionOf(f: real, r: real)
    requires 0.0 <= f <= 1.0 && 0.0 < r
    ensures 0.0 <= f * r <= r
  {
    assert (1.0 - f) * r >= 0.0;
  }

  /** Truncating a value between two integers stays between them. */
  lemma TruncBetween(x: real, lo: int, hi: int)
    requires lo as real <= x <= hi as real
    ensures lo <= Trunc(x) <= hi
  {
  }

  /** `a` and `b` fall in the same month of the same year. */
  predicate IsSameYearMonth(a: int, b: int)
  {
    FullYear(a) == FullYear(b) && Month(a) == Month(b)
  }

  /** The reference falls in a year from 0 to 99, which the `Date`
      constructor reads as a year of the twentieth century. */
  predicate TwoDigitYear(reference: int)
  {
    0 <= FullYear(reference) <= 99
  }

  /** How many months the `Date` constructor moves the month of
      `reference` when it rebuilds a date from its year and month. */
  function MonthShift(reference: int): int
  {
    if TwoDigitYear(reference) then 12 * 1900 else 0
  }

  /** Midnight of the last day of the month before the month of
      `reference` (`new Date(year, month, 0)`), with the constructor's
      reading of the year. */
  function PrevMonthDate(reference: int): int
  {
    NewDate(FullYear(reference), Month(reference), 0)
  }

  /** Midnight of the first day of the month after the month of
      `reference` (`new Date(year, month + 1, 1)`), with the constructor's
      reading of the year. */
  function NextMonthDate(reference: int): int
  {
    NewDate(FullYear(reference), Month(reference) + 1, 1)
  }

  /** The previous-month date lies on the last day before the month of
      `reference` (moved by 1900 years when the year has two digits): so
      before `reference`, except for a two-digit year, where it lies after. */
  lemma PrevMonthDateFacts(reference: int)
    ensures MonthIndex(PrevMonthDate(reference)) == MonthIndex(reference) + MonthShift(reference) - 1
    ensures Day(PrevMonthDate(reference)) + 1 == MonthStart(MonthIndex(reference) + MonthShift(reference))
    ensures !TwoDigitYear(reference) ==> PrevMonthDate(reference) < reference
    ensures TwoDigitYear(reference) ==> reference < PrevMonthDate(reference)
  {
    PrevMonthDateDay(reference);
    PrevCore(reference, PrevMonthDate(reference), MonthIndex(reference) + MonthShift(reference));
  }

  /** The previous-month date falls on the day before month number
      `MonthIndex(reference) + MonthShift(reference)` starts. */
  lemma PrevMonthDateDay(reference: int)
    ensures Day(PrevMonthDate(reference)) + 1 == MonthStart(MonthIndex(reference) + MonthShift(reference))
  {
    ShiftedMonthIndex(reference);
  }

  /** The month numbers the constructor gives to the year and month of
      `reference`, and to the month after: 1900 years on for a two-digit
      year. */
  lemma ShiftedMonthIndex(reference: int)
    ensures ConstructorMonth(FullYear(reference), Month(reference)) == MonthIndex(reference) + MonthShift(reference)
    ensures ConstructorMonth(FullYear(reference), Month(reference) + 1) == MonthIndex(reference) + MonthShift(reference) + 1
  {
    YearMonthIndex(reference);
  }

  lemma PrevCore(reference: int, prev: int, mi: int)
    requires mi == MonthIndex(reference) || MonthIndex(reference) + 1 < mi
    requires Day(prev) + 1 == MonthStart(mi)
    ensures MonthIndex(prev) == mi - 1
    ensures mi == MonthIndex(reference) ==> prev < reference
    ensures mi != MonthIndex(reference) ==> reference < prev
  {
    if mi == MonthIndex(reference) {
      DayBeforeMonthOf(reference, prev);
    } else {
      LastDayBeforeMonth(prev, mi);
      LaterMonthLater(reference, prev);
    }
  }

  /** A time value in a later month is later. */
  lemma LaterMonthLater(a: int, b: int)
    requires MonthIndex(a) < MonthIndex(b)
    ensures a < b
  {
    if b <= a {
      MonthIndexMonotone(b, a);
    }
  }

  /** The next-month date is the first day of the month after the month of
      `reference` (moved by 1900 years when the year has two digits), and
      so after `reference` in every case. */
  lemma NextMonthDateFacts(reference: int)
    ensures MonthIndex(NextMonthDate(reference)) == MonthIndex(reference) + MonthShift(reference) + 1
    ensures Day(NextMonthDate(reference)) == MonthStart(MonthIndex(reference) + MonthShift(reference) + 1)
    ensures reference < NextMonthDate(reference)
  {
    NextMonthDateDay(reference);
    NextCore(reference, NextMonthDate(reference), MonthIndex(reference) + MonthShift(reference) + 1);
  }

  lemma NextCore(reference: int, next: int, mi: int)
    requires mi == MonthIndex(reference) + 1 || MonthIndex(reference) + 1 < mi
    requires Day(next) == MonthStart(mi)
    ensures MonthIndex(next) == mi
    ensures reference < next
  {
    FirstDayOfMonth(next, mi);
    LaterMonthLater(reference, next);
  }

  /** The next-month date falls on the day month number
      `MonthIndex(reference) + MonthShift(reference) + 1` starts. */
  lemma NextMonthDateDay(reference: int)
    ensures Day(NextMonthDate(reference)) == MonthStart(MonthIndex(reference) + MonthShift(reference) + 1)
  {
    ShiftedMonthIndex(reference);
  }

  /** The start handle dragged to `newDate`: kept within the range and not
      past the end date, and moved back to the last day of the previous
      month when it would share the end date's month. */
  function MoveStart(minDate: int, maxDate: int, tempEnd: int, newDate: int): int
  {
    var maxStartDate := Min(tempEnd, maxDate);
    var clamped := Max(minDate, Min(newDate, maxStartDate));
    if IsSameYearMonth(clamped, tempEnd) then Max(minDate, PrevMonthDate(tempEnd)) else clamped
  }

  /** The end handle dragged to `newDate`: kept within the range and not
      before the start date, and moved on to the first day of the next
      month when it would share the start date's month. */
  function MoveEnd(minDate: int, maxDate: int, tempStart: int, newDate: int): int
  {
    var minEndDate := Max(tempStart, minDate);
    var clamped := Max(minEndDate, Min(newDate, maxDate));
    if IsSameYearMonth(tempStart, clamped) then Min(maxDate, NextMonthDate(tempStart)) else clamped
  }

  /** Year and month agree exactly when the month numbers agree. */
  lemma SameYearMonthIndex(a: int, b: int)
    ensures IsSameYearMonth(a, b) <==> MonthIndex(a) == MonthIndex(b)
  {
    SameMonthIndex(a, b);
  }

  /** A dragged start handle stays between the lower end of the range and
      the end handle. */
  lemma MoveStartBounds(minDate: int, maxDate: int, tempEnd: int, newDate: int)
    requires minDate <= tempEnd <= maxDate
    requires !TwoDigitYear(tempEnd)
    ensures minDate <= MoveStart(minDate, maxDate, tempEnd, newDate) <= tempEnd
  {
    var clamped := Max(minDate, Min(newDate, Min(tempEnd, maxDate)));
    PrevMonthDateFacts(tempEnd);
    BoundsCore(minDate, tempEnd, Max(minDate, PrevMonthDate(tempEnd)), clamped,
      IsSameYearMonth(clamped, tempEnd), MoveStart(minDate, maxDate, tempEnd, newDate));
  }

  /** With the end handle in a year from 0 to 99, a start handle dragged up
      to the end handle is sent past it: the previous-month date the source
      builds lies 1900 years later. */
  lemma MoveStartPastEnd(minDate: int, maxDate: int, tempEnd: int, newDate: int)
    requires minDate <= tempEnd <= maxDate
    requires TwoDigitYear(tempEnd)
    requires tempEnd <= newDate
    ensures tempEnd < MoveStart(minDate, maxDate, tempEnd, newDate)
  {
    assert MoveStart(minDate, maxDate, tempEnd, newDate) == Max(minDate, PrevMonthDate(tempEnd)) by {
      assert Max(minDate, Min(newDate, Min(tempEnd, maxDate))) == tempEnd;
      assert IsSameYearMonth(tempEnd, tempEnd);
    }
    PrevMonthDateFacts(tempEnd);
  }

  /** A result picked between two values in `[lo, hi]` lies in `[lo, hi]`. */
  lemma BoundsCore(lo: int, hi: int, a: int, b: int, pickA: bool, r: int)
    requires lo <= a <= hi && lo <= b <= hi
    requires r == if pickA then a else b
    ensures lo <= r <= hi
  {
  }

  /** The start handle ends up in an earlier month than the end handle,
      unless it is held at the lower end of the range; and it shares the
      end handle's month exactly when the lower end of the range does. */
  lemma MoveStartGap(minDate: int, maxDate: int, tempEnd: int, newDate: int)
    requires minDate <= tempEnd <= maxDate
    requires !TwoDigitYear(tempEnd)
    ensures var r := MoveStart(minDate, maxDate, tempEnd, newDate);
      (r == minDate || MonthIndex(r) < MonthIndex(tempEnd)) &&
      (IsSameYearMonth(r, tempEnd) <==> IsSameYearMonth(minDate, tempEnd))
  {
    var r := MoveStart(minDate, maxDate, tempEnd, newDate);
    var clamped := Max(minDate, Min(newDate, Min(tempEnd, maxDate)));
    SameYearMonthIndex(clamped, tempEnd);
    SameYearMonthIndex(r, tempEnd);
    SameYearMonthIndex(minDate, tempEnd);
    PrevMonthDateFacts(tempEnd);
    StartGapCore(minDate, tempEnd, clamped, PrevMonthDate(tempEnd), r);
  }

  lemma StartGapCore(minDate: int, tempEnd: int, clamped: int, prev: int, r: int)
    requires minDate <= clamped <= tempEnd
    requires MonthIndex(prev) == MonthIndex(tempEnd) - 1
    requires r == if MonthIndex(clamped) == MonthIndex(tempEnd) then Max(minDate, prev) else clamped
    ensures r == minDate || MonthIndex(r) < MonthIndex(tempEnd)
    ensures MonthIndex(r) == MonthIndex(tempEnd) <==> MonthIndex(minDate) == MonthIndex(tempEnd)
  {
    if MonthIndex(clamped) == MonthIndex(tempEnd) {
      if minDate <= prev {
        MonthIndexMonotone(minDate, prev);
      }
    } else {
      MonthIndexMonotone(minDate, clamped);
      MonthIndexMonotone(clamped, tempEnd);
    }
  }

  /** A dragged end handle stays between the start handle and the upper
      end of the range. */
  lemma MoveEndBounds(minDate: int, maxDate: int, tempStart: int, newDate: int)
    requires minDate <= tempStart <= maxDate
    ensures tempStart <= MoveEnd(minDate, maxDate, tempStart, newDate) <= maxDate
  {
    var clamped := Max(Max(tempStart, minDate), Min(newDate, maxDate));
    NextMonthDateFacts(tempStart);
    BoundsCore(tempStart, maxDate, Min(maxDate, NextMonthDate(tempStart)), clamped,
      IsSameYearMonth(tempStart, clamped), MoveEnd(minDate, maxDate, tempStart, newDate));
  }

  /** The end handle ends up in a later month than the start handle,
      unless it is held at the upper end of the range; and it shares the
      start handle's month exactly when the upper end of the range does. */
  lemma MoveEndGap(minDate: int, maxDate: int, tempStart: int, newDate: int)
    requires minDate <= tempStart <= maxDate
    ensures var r := MoveEnd(minDate, maxDate, tempStart, newDate);
      (r == maxDate || MonthIndex(tempStart) < MonthIndex(r)) &&
      (IsSameYearMonth(tempStart, r) <==> IsSameYearMonth(tempStart, maxDate))
  {
    var r := MoveEnd(minDate, maxDate, tempStart, newDate);
    var clamped := Max(Max(tempStart, minDate), Min(newDate, maxDate));
    SameYearMonthIndex(tempStart, clamped);
    SameYearMonthIndex(tempStart, r);
    SameYearMonthIndex(tempStart, maxDate);
    NextMonthDateFacts(tempStart);
    EndGapCore(maxDate, tempStart, clamped, NextMonthDate(tempStart), r);
  }

  lemma EndGapCore(maxDate: int, tempStart: int, clamped: int, next: int, r: int)
    requires tempStart <= clamped <= maxDate
    requires MonthIndex(tempStart) < MonthIndex(next)
    requires r == if MonthIndex(tempStart) == MonthIndex(clamped) then Min(maxDate, next) else clamped
    ensures r == maxDate || MonthIndex(tempStart) < MonthIndex(r)
    ensures MonthIndex(tempStart) == MonthIndex(r) <==> MonthIndex(tempStart) == MonthIndex(maxDate)
  {
    if MonthIndex(tempStart) == MonthIndex(clamped) {
      if next <= maxDate {
        MonthIndexMonotone(next, maxDate);
      }
    } else {
      MonthIndexMonotone(clamped, maxDate);
      MonthIndexMonotone(tempStart, clamped);
    }
  }

  /** Over the range 2023-01-01 to 2023-12-31, with the end handle on
      2023-06-01, dragging the start handle to 2023-06-15 leaves it on
      2023-05-31. */
  lemma MoveStartIntoEndMonth()
    ensures MoveStart(19358 * MsPerDay, 19722 * MsPerDay, 19509 * MsPerDay, 19523 * MsPerDay)
         == 19508 * MsPerDay
  {
    var june1 := 19509 * MsPerDay;
    PrevMonthOfJune2023();
    assert Max(19358 * MsPerDay, Min(19523 * MsPerDay, Min(june1, 19722 * MsPerDay))) == june1;
  }

  /** The month before the month of 2023-06-01 ends on 2023-05-31. */
  lemma PrevMonthOfJune2023()
    ensures PrevMonthDate(19509 * MsPerDay) == 19508 * MsPerDay
  {
    InJune2023(19509 * MsPerDay);
    assert MakeDay(2023, 5, 0) == 19508;
  }

  /** Over the same range, with the start handle on 2023-03-01, dragging
      the end handle to 2023-03-10 moves it on to 2023-04-01. */
  lemma MoveEndIntoStartMonth()
    ensures MoveEnd(19358 * MsPerDay, 19722 * MsPerDay, 19417 * MsPerDay, 19426 * MsPerDay)
         == 19448 * MsPerDay
  {
    var march1 := 19417 * MsPerDay;
    var march10 := 19426 * MsPerDay;
    NextMonthOfMarch2023();
    assert Max(Max(march1, 19358 * MsPerDay), Min(march10, 19722 * MsPerDay)) == march10;
  }

  /** 2023-03-01 and 2023-03-10 share their month, and the month after
      starts on 2023-04-01. */
  lemma NextMonthOfMarch2023()
    ensures IsSameYearMonth(19417 * MsPerDay, 19426 * MsPerDay)
    ensures NextMonthDate(19417 * MsPerDay) == 19448 * MsPerDay
  {
    InMarch2023(19417 * MsPerDay);
    InMarch2023(19426 * MsPerDay);
    assert MakeDay(2023, 3, 1) == 19448;
  }

  /** Days 19509 to 19538 are June 2023. */
  lemma InJune2023(t: int)
    requires 19509 <= Day(t) < 19539
    ensures FullYear(t) == 2023 && Month(t) == 5
  {
    JuneStarts();
    MonthIndexOfDay(t, 24281);
  }

  lemma JuneStarts()
    ensures MonthStart(24281) == 19509 && MonthStart(24282) == 19539
  {
    Year2023Starts();
    assert DaysBeforeMonth(2023, 6) == 151;
    assert DaysBeforeMonth(2023, 7) == 181;
  }

  /** 2023 is a common year starting on day 19358. */
  lemma Year2023Starts()
    ensures DayFromYear(2023) == 19358 && !IsLeapYear(2023)
  {
  }

  /** Days 19417 to 19447 are March 2023. */
  lemma InMarch2023(t: int)
    requires 19417 <= Day(t) < 19448
    ensures FullYear(t) == 2023 && Month(t) == 2
  {
    MarchStarts();
    MonthIndexOfDay(t, 24278);
  }

  lemma MarchStarts()
    ensures MonthStart(24278) == 19417 && MonthStart(24279) == 19448
  {
    Year2023Starts();
    assert DaysBeforeMonth(2023, 3) == 59;
    assert DaysBeforeMonth(2023, 4) == 90;
  }

  /** Truncation keeps the order of values. */
  lemma TruncMonotone(x: real, y: real)
    requires x <= y
    ensures Trunc(x) <= Trunc(y)
  {
  }

  /** A reference mark on the track: a date and its position. */
  datatype Marker = Marker(date: int, position: real, isMin: bool, isMax: bool)

  /** The `i`-th of the evenly spaced reference dates: the range is cut
      into six intervals of `totalDays / 6` days each. */
  function MiddleDate(minDate: int, maxDate: int, i: int): int
  {
    var totalDays := (maxDate - minDate) as real / (1000 * 60 * 60 * 24) as real;
    var interval := totalDays / 6.0;
    Trunc(minDate as real + interval * i as real * 24.0 * 60.0 * 60.0 * 1000.0)
  }

  /** The reference dates are spaced a sixth of the range apart. */
  lemma MiddleDateExact(minDate: int, maxDate: int, i: int)
    ensures MiddleDate(minDate, maxDate, i) == Trunc(SixthPoint(minDate, maxDate, i))
  {
    var r := (maxDate - minDate) as real;
    assert (r / 86400000.0 / 6.0) * i as real * 24.0 * 60.0 * 60.0 * 1000.0 == r * i as real / 6.0;
  }

  /** The reference dates lie in the range and follow their index. */
  lemma MiddleDateBounds(minDate: int, maxDate: int, i: int, j: int)
    requires minDate < maxDate
    requires 0 <= i <= j <= 6
    ensures minDate <= MiddleDate(minDate, maxDate, i) <= MiddleDate(minDate, maxDate, j) <= maxDate
  {
    MiddleDateExact(minDate, maxDate, i);
    MiddleDateExact(minDate, maxDate, j);
    var xi := SixthPoint(minDate, maxDate, i);
    var xj := SixthPoint(minDate, maxDate, j);
    SixthsOrdered(minDate, maxDate, i, j);
    TruncBetween(xi, minDate, maxDate);
    TruncBetween(xj, minDate, maxDate);
    TruncMonotone(xi, xj);
  }

  /** The point `i` sixths of the way from `lo` to `hi`. */
  function SixthPoint(lo: int, hi: int, i: int): real
  {
    lo as real + (hi - lo) as real * i as real / 6.0
  }

  lemma SixthsOrdered(lo: int, hi: int, i: int, j: int)
    requires lo < hi
    requires 0 <= i <= j <= 6
    ensures lo as real <= SixthPoint(lo, hi, i) <= SixthPoint(lo, hi, j) <= hi as real
  {
    var r := (hi - lo) as real;
    assert r * j as real - r * i as real == r * (j - i) as real;
    assert r * 6.0 - r * j as real == r * (6 - j) as real;
    assert 0.0 <= r * (6 - j) as real;
    assert 0.0 <= r * (j - i) as real;
    assert 0.0 <= r * i as real;
    assert lo as real + r * 6.0 / 6.0 == hi as real;
  }

  /** The marker of the `i`-th reference date. */
  function MiddleMarker(minDate: int, maxDate: int, i: int): Marker
    requires minDate < maxDate
  {
    var date := MiddleDate(minDate, maxDate, i);
    Marker(date, DateToPercentage(minDate, maxDate, date), false, false)
  }

  /** The five reference marks strictly inside the track. */
  function MiddleMarkers(minDate: int, maxDate: int): (ms: seq<Marker>)
    requires minDate < maxDate
    ensures |ms| == 5
  {
    seq(5, k requires 0 <= k < 5 => MiddleMarker(minDate, maxDate, k + 1))
  }

  /** Markers in order of position. */
  ghost predicate SortedByPosition(ms: seq<Marker>)
  {
    forall i, j :: 0 <= i < j < |ms| ==> ms[i].position <= ms[j].position
  }

  /** `Array.prototype.sort` with the comparator `a.position - b.position`,
      which is stable: an insertion sort that puts an element before the
      first one whose position is not smaller. */
  function SortByPosition(ms: seq<Marker>): (r: seq<Marker>)
    ensures |r| == |ms|
  {
    if ms == [] then [] else InsertByPosition(ms[0], SortByPosition(ms[1..]))
  }

  function InsertByPosition(m: Marker, sorted: seq<Marker>): (r: seq<Marker>)
    ensures |r| == |sorted| + 1
  {
    if sorted == [] || m.position <= sorted[0].position then [m] + sorted
    else [sorted[0]] + InsertByPosition(m, sorted[1..])
  }

  /** Inserting into markers in position order keeps them in order, and
      adds exactly the inserted marker. */
  lemma {:induction false} InsertSorted(m: Marker, s: seq<Marker>)
    requires SortedByPosition(s)
    ensures SortedByPosition(InsertByPosition(m, s))
    ensures multiset(InsertByPosition(m, s)) == multiset(s) + multiset{m}
  {
    if s == [] || m.position <= s[0].position {
      ConsSorted(m, s);
    } else {
      var rest := InsertByPosition(m, s[1..]);
      InsertSorted(m, s[1..]);
      SameMarkersAtLeast(s[0].position, s[1..] + [m], rest);
      ConsSorted(s[0], rest);
      assert s == [s[0]] + s[1..];
    }
  }

  /** Every marker of `s` is at `lo` or beyond. */
  ghost predicate AllAtLeast(lo: real, s: seq<Marker>)
  {
    forall k :: 0 <= k < |s| ==> lo <= s[k].position
  }

  /** A marker placed before sorted markers it does not exceed keeps them
      sorted. */
  lemma ConsSorted(x: Marker, s: seq<Marker>)
    requires SortedByPosition(s)
    requires AllAtLeast(x.position, s)
    ensures SortedByPosition([x] + s)
  {
  }

  /** Markers that are the same multiset as ones at `lo` or beyond are at
      `lo` or beyond. */
  lemma SameMarkersAtLeast(lo: real, s: seq<Marker>, t: seq<Marker>)
    requires AllAtLeast(lo, s)
    requires multiset(t) == multiset(s)
    ensures AllAtLeast(lo, t)
  {
    forall k | 0 <= k < |t|
      ensures lo <= t[k].position
    {
      assert t[k] in multiset(s);
    }
  }

  /** The sort puts the markers in position order and keeps every marker,
      no more and no fewer. */
  lemma {:induction false} SortSorts(ms: seq<Marker>)
    ensures SortedByPosition(SortByPosition(ms))
    ensures multiset(SortByPosition(ms)) == multiset(ms)
  {
    if ms != [] {
      SortSorts(ms[1..]);
      InsertSorted(ms[0], SortByPosition(ms[1..]));
      assert ms == [ms[0]] + ms[1..];
    }
  }

  /** Sorting markers that are already in order of position changes nothing. */
  lemma {:induction false} SortSortedIdentity(ms: seq<Marker>)
    requires SortedByPosition(ms)
    ensures SortByPosition(ms) == ms
  {
    if ms != [] {
      assert SortedByPosition(ms[1..]);
      SortSortedIdentity(ms[1..]);
      assert [ms[0]] + ms[1..] == ms;
    }
  }

  /** The unsorted list of all markers: the lower end, the five reference
      marks, the upper end. */
  function MarkerList(minDate: int, maxDate: int): seq<Marker>
    requires minDate < maxDate
  {
    [Marker(minDate, 0.0, true, false)] + MiddleMarkers(minDate, maxDate) + [Marker(maxDate, 100.0, false, true)]
  }

  /** All markers, sorted by position. */
  function AllDateMarkers(minDate: int, maxDate: int): seq<Marker>
    requires minDate < maxDate
  {
    SortByPosition(MarkerList(minDate, maxDate))
  }

  /** Each marker sits at the position of its date. */
  ghost predicate MarkersAtTheirDates(minDate: int, maxDate: int, ms: seq<Marker>)
    requires minDate < maxDate
  {
    forall k :: 0 <= k < |ms| ==> ms[k].position == DateToPercentage(minDate, maxDate, ms[k].date)
  }

  /** The seven markers are already in order (so the sort keeps them as
      listed), run from the lower end at 0 to the upper end at 100, and
      each sits at the position of its date. */
  lemma AllDateMarkersShape(minDate: int, maxDate: int)
    requires minDate < maxDate
    ensures var ms := AllDateMarkers(minDate, maxDate);
      ms == MarkerList(minDate, maxDate) && |ms| == 7 &&
      ms[0] == Marker(minDate, 0.0, true, false) && ms[6] == Marker(maxDate, 100.0, false, true) &&
      SortedByPosition(ms) && MarkersAtTheirDates(minDate, maxDate, ms)
  {
    var ms := MarkerList(minDate, maxDate);
    PercentageEnds(minDate, maxDate);
    forall i, j | 0 <= i < j < 7
      ensures ms[i].date <= ms[j].date
    {
      MiddleDateBounds(minDate, maxDate, i, j);
    }
    forall i, j | 0 <= i < j < 7
      ensures ms[i].position <= ms[j].position
    {
      PercentageMonotone(minDate, maxDate, ms[i].date, ms[j].date);
    }
    SortSortedIdentity(ms);
  }

  /** Position `p` lies in the interval from marker `i` (included) to
      marker `i + 1` (excluded). */
  predicate InInterval(ms: seq<Marker>, p: real, i: int)
  {
    0 <= i < |ms| - 1 && ms[i].position <= p < ms[i + 1].position
  }

  /** The first interval, from index `from` on, that holds `p`. */
  function FirstInterval(ms: seq<Marker>, p: real, from: nat): (r: Option<nat>)
    ensures r.Some? ==> from <= r.value && InInterval(ms, p, r.value)
    ensures r.Some? ==> forall j :: from <= j < r.value ==> !InInterval(ms, p, j)
    ensures r.None? ==> forall j :: from <= j ==> !InInterval(ms, p, j)
    decreases |ms| - from
  {
    if from + 1 >= |ms| then None
    else if InInterval(ms, p, from) then Some(from)
    else FirstInterval(ms, p, from + 1)
  }

  /** The date bolded for the start handle at position `p`: the start of
      the interval holding `p`; else the last marker when `p` is at or past
      it; else the first marker. */
  function IntervalStart(ms: seq<Marker>, p: real): int
    requires |ms| >= 1
  {
    match FirstInterval(ms, p, 0)
    case Some(i) => ms[i].date
    case None => if p >= ms[|ms| - 1].position then ms[|ms| - 1].date else ms[0].date
  }

  /** The date bolded for the end handle at position `p`: the end of the
      interval holding `p`; else the last marker when `p` is at or past it;
      else the second marker (the first when there is only one). */
  function IntervalEnd(ms: seq<Marker>, p: real): int
    requires |ms| >= 1
  {
    match FirstInterval(ms, p, 0)
    case Some(i) => ms[i + 1].date
    case None =>
      if p >= ms[|ms| - 1].position then ms[|ms| - 1].date
      else if |ms| > 1 then ms[1].date
      else ms[0].date
  }

  /** The interval scan for the start handle. */
  method FindIntervalStart(ms: seq<Marker>, p: real) returns (date: int)
    requires |ms| >= 1
    ensures date == IntervalStart(ms, p)
  {
    for i := 0 to |ms| - 1
      invariant FirstInterval(ms, p, 0) == FirstInterval(ms, p, i)
    {
      if p >= ms[i].position && p < ms[i + 1].position {
        return ms[i].date;
      }
    }
    if p >= ms[|ms| - 1].position {
      return ms[|ms| - 1].date;
    }
    return ms[0].date;
  }

  /** The interval scan for the end handle. */
  method FindIntervalEnd(ms: seq<Marker>, p: real) returns (date: int)
    requires |ms| >= 1
    ensures date == IntervalEnd(ms, p)
  {
    for i := 0 to |ms| - 1
      invariant FirstInterval(ms, p, 0) == FirstInterval(ms, p, i)
    {
      if p >= ms[i].position && p < ms[i + 1].position {
        return ms[i + 1].date;
      }
    }
    if p >= ms[|ms| - 1].position {
      return ms[|ms| - 1].date;
    }
    return if |ms| > 1 then ms[1].date else ms[0].date;
  }

  /** Sorted markers leave no gap: every position from the first marker
      up to (not including) the last lies in some interval. */
  lemma {:induction false} IntervalCovers(ms: seq<Marker>, p: real, from: nat)
    requires SortedByPosition(ms)
    requires from < |ms| - 1
    requires ms[from].position <= p < ms[|ms| - 1].position
    ensures FirstInterval(ms, p, from).Some?
    decreases |ms| - from
  {
    if !InInterval(ms, p, from) {
      IntervalCovers(ms, p, from + 1);
    }
  }

  /** Over sorted markers, the start handle's bolded date is a marker at
      or before the handle whose successor (if any) lies past it. */
  lemma IntervalStartBrackets(ms: seq<Marker>, p: real)
    requires |ms| >= 1
    requires SortedByPosition(ms)
    requires ms[0].position <= p
    ensures exists k {:trigger ms[k]} :: (0 <= k < |ms| && ms[k].date == IntervalStart(ms, p) &&
                         ms[k].position <= p && (k + 1 < |ms| ==> p < ms[k + 1].position))
  {
    var last := |ms| - 1;
    if p < ms[last].position {
      IntervalCovers(ms, p, 0);
      var i := FirstInterval(ms, p, 0).value;
      assert ms[i].date == IntervalStart(ms, p);
    } else {
      NoIntervalPastLast(ms, p);
      assert ms[last].date == IntervalStart(ms, p);
    }
  }

  /** Over sorted markers, the end handle's bolded date is a marker at or
      after the handle whose predecessor lies at or before it. */
  lemma IntervalEndBrackets(ms: seq<Marker>, p: real)
    requires |ms| >= 2
    requires SortedByPosition(ms)
    requires ms[0].position <= p <= ms[|ms| - 1].position
    ensures exists k {:trigger ms[k]} :: (0 < k < |ms| && ms[k].date == IntervalEnd(ms, p) &&
                         ms[k - 1].position <= p <= ms[k].position)
  {
    var last := |ms| - 1;
    if p < ms[last].position {
      IntervalCovers(ms, p, 0);
      var i := FirstInterval(ms, p, 0).value;
      assert ms[i + 1].date == IntervalEnd(ms, p);
    } else {
      NoIntervalPastLast(ms, p);
      assert ms[last - 1].position <= ms[last].position;
      assert ms[last].date == IntervalEnd(ms, p);
    }
  }

  /** Over sorted markers, no interval holds a position at or past the
      last marker. */
  lemma NoIntervalPastLast(ms: seq<Marker>, p: real)
    requires |ms| >= 1
    requires SortedByPosition(ms)
    requires ms[|ms| - 1].position <= p
    ensures FirstInterval(ms, p, 0).None?
  {
    forall j | 0 <= j < |ms| - 1
      ensures !InInterval(ms, p, j)
    {
      assert ms[j + 1].position <= ms[|ms| - 1].position;
    }
  }

  /** The handle being dragged. */
  datatype Handle = StartHandle | EndHandle

  /** A date range reported to the owner of the slider. */
  datatype DateRange = DateRange(start: int, end: int)

  /** The slider's state: the fixed range, the handle being dragged, the
      handle dates shown while dragging, and the ranges reported so far
      through `onDateRangeChange`. */
  class RangeSlider {
    const minDate: int
    const maxDate: int
    var dragging: Option<Handle>
    var tempStart: int
    var tempEnd: int
    var reported: seq<DateRange>

    ghost predicate Valid()
      reads this
    {
      minDate < maxDate
    }

    /** Both handles within the range, the start not after the end. */
    ghost predicate Ordered()
      reads this
    {
      minDate <= tempStart <= tempEnd <= maxDate
    }

    constructor (minDate: int, maxDate: int, startDate: int, endDate: int)
      requires minDate < maxDate
      ensures Valid()
      ensures this.minDate == minDate && this.maxDate == maxDate
      ensures dragging == None && tempStart == startDate && tempEnd == endDate
      ensures reported == []
    {
      this.minDate := minDate;
      this.maxDate := maxDate;
      dragging := None;
      tempStart := startDate;
      tempEnd := endDate;
      reported := [];
    }

    /** Positions of the handles on the track. */
    function StartPosition(): real
      reads this
      requires Valid()
    {
      DateToPercentage(minDate, maxDate, tempStart)
    }

    function EndPosition(): real
      reads this
      requires Valid()
    {
      DateToPercentage(minDate, maxDate, tempEnd)
    }

    /** Pressing a handle starts dragging it. */
    method PointerDown(handle: Handle)
      modifies this
      ensures dragging == Some(handle)
      ensures tempStart == old(tempStart) && tempEnd == old(tempEnd) && reported == old(reported)
    {
      dragging := Some(handle);
    }

    /** A pointer move at `raw` percent of the track's width (before
      clamping): the dragged handle follows it under the slider's rules;
      without a drag nothing changes. The handles stay ordered within the
      range, and the moved handle keeps a month away from the other one
      unless it is held at its end of the range. Both promises fail for a
      start handle dragged against an end handle in a year from 0 to 99
      (see `MoveStartPastEnd`). */
    method PointerMove(raw: real)
      requires Valid()
      modifies this
      ensures dragging == old(dragging) && reported == old(reported)
      ensures old(dragging) == None ==> tempStart == old(tempStart) && tempEnd == old(tempEnd)
      ensures old(dragging) == Some(StartHandle) ==>
        tempStart == MoveStart(minDate, maxDate, old(tempEnd), PercentageToDate(minDate, maxDate, ClampPercent(raw))) &&
        tempEnd == old(tempEnd)
      ensures old(dragging) == Some(EndHandle) ==>
        tempEnd == MoveEnd(minDate, maxDate, old(tempStart), PercentageToDate(minDate, maxDate, ClampPercent(raw))) &&
        tempStart == old(tempStart)
      ensures old(Ordered()) && !(dragging == Some(StartHandle) && TwoDigitYear(tempEnd)) ==> Ordered()
      ensures old(Ordered()) && dragging == Some(StartHandle) && !TwoDigitYear(tempEnd) ==>
        tempStart == minDate || MonthIndex(tempStart) < MonthIndex(tempEnd)
      ensures old(Ordered()) && dragging == Some(EndHandle) ==>
        tempEnd == maxDate || MonthIndex(tempStart) < MonthIndex(tempEnd)
    {
      if dragging == None {
        return;
      }
      var percentage := ClampPercent(raw);
      var newDate := PercentageToDate(minDate, maxDate, percentage);
      if dragging == Some(StartHandle) {
        if Ordered() && !TwoDigitYear(tempEnd) {
          MoveStartBounds(minDate, maxDate, tempEnd, newDate);
          MoveStartGap(minDate, maxDate, tempEnd, newDate);
        }
        tempStart := MoveStart(minDate, maxDate, tempEnd, newDate);
      } else {
        if Ordered() {
          MoveEndBounds(minDate, maxDate, tempStart, newDate);
          MoveEndGap(minDate, maxDate, tempStart, newDate);
        }
        tempEnd := MoveEnd(minDate, maxDate, tempStart, newDate);
      }
    }

    /** Releasing the pointer ends the drag and reports the handle dates,
      once; without a drag nothing happens. Ending the drag re-runs the
      effect that depends on `isDragging`, which resets the handles to the
      owner's `startDate` and `endDate` as they stand once the owner has
      handled the report. */
    method PointerUp(startDate: int, endDate: int)
      modifies this
      ensures dragging == None
      ensures reported == old(reported) + (if old(dragging) == None then [] else [DateRange(old(tempStart), old(tempEnd))])
      ensures old(dragging) == None ==> tempStart == old(tempStart) && tempEnd == old(tempEnd)
      ensures old(dragging) != None ==> tempStart == startDate && tempEnd == endDate
    {
      if dragging != None {
        dragging := None;
        reported := reported + [DateRange(tempStart, tempEnd)];
        SyncDates(startDate, endDate);
      }
    }

    /** New start and end dates from the owner replace the handle dates,
      except during a drag. */
    method SyncDates(startDate: int, endDate: int)
      modifies this
      ensures dragging == old(dragging) && reported == old(reported)
      ensures old(dragging) == None ==> tempStart == startDate && tempEnd == endDate
      ensures old(dragging) != None ==> tempStart == old(tempStart) && tempEnd == old(tempEnd)
    {
      if dragging == None {
        tempStart := startDate;
        tempEnd := endDate;
      }
    }

    /** The five reference marks, built one by one. */
    method MiddleDates() returns (dates: seq<Marker>)
      requires Valid()
      ensures dates == MiddleMarkers(minDate, maxDate)
    {
      dates := [];
      for i := 1 to 6
        invariant dates == MiddleMarkers(minDate, maxDate)[..i - 1]
      {
        var middleDate := MiddleDate(minDate, maxDate, i);
        dates := dates + [Marker(middleDate, DateToPercentage(minDate, maxDate, middleDate), false, false)];
      }
    }

    /** The dates shown in bold: the start of the interval holding the
      start handle and the end of the interval holding the end handle. */
    method BoldedDates() returns (bold: set<int>)
      requires Valid()
      ensures bold == {IntervalStart(AllDateMarkers(minDate, maxDate), StartPosition()),
                       IntervalEnd(AllDateMarkers(minDate, maxDate), EndPosition())}
    {
      var middle := MiddleDates();
      var markers := SortByPosition([Marker(minDate, 0.0, true, false)] + middle + [Marker(maxDate, 100.0, false, true)]);
      var leftIntervalStart := FindIntervalStart(markers, StartPosition());
      var rightIntervalEnd := FindIntervalEnd(markers, EndPosition());
      bold := {leftIntervalStart, rightIntervalEnd};
    }
  }

  /** With the handles ordered within the range, the bolded start date is
      a marker at or before the start handle, and the bolded end date a
      marker at or after the end handle. */
  lemma BoldedDatesBracketHandles(minDate: int, maxDate: int, tempStart: int, tempEnd: int)
    requires minDate < maxDate
    requires minDate <= tempStart <= tempEnd <= maxDate
    ensures var ms := AllDateMarkers(minDate, maxDate);
      (exists k {:trigger ms[k]} :: 0 <= k < |ms| && ms[k].date == IntervalStart(ms, DateToPercentage(minDate, maxDate, tempStart)) &&
                                    ms[k].date <= tempStart) &&
      (exists k {:trigger ms[k]} :: 0 <= k < |ms| && ms[k].date == IntervalEnd(ms, DateToPercentage(minDate, maxDate, tempEnd)) &&
                                    tempEnd <= ms[k].date)
  {
    var ms := AllDateMarkers(minDate, maxDate);
    var ps := DateToPercentage(minDate, maxDate, tempStart);
    var pe := DateToPercentage(minDate, maxDate, tempEnd);
    AllDateMarkersShape(minDate, maxDate);
    PercentageMonotone(minDate, maxDate, minDate, tempStart);
    PercentageMonotone(minDate, maxDate, tempEnd, maxDate);
    PercentageMonotone(minDate, maxDate, minDate, tempEnd);
    PercentageEnds(minDate, maxDate);
    IntervalStartBrackets(ms, ps);
    var ks :| 0 <= ks < |ms| && ms[ks].date == IntervalStart(ms, ps) && ms[ks].position <= ps;
    PercentageMonotone(minDate, maxDate, ms[ks].date, tempStart);
    IntervalEndBrackets(ms, pe);
    var ke :| 0 < ke < |ms| && ms[ke].date == IntervalEnd(ms, pe) && pe <= ms[ke].position;
    PercentageMonotone(minDate, maxDate, tempEnd, ms[ke].date);
  }
}
