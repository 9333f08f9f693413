/** Year extraction from a PostgreSQL timestamp (microseconds since 2000-01-01).

    Source: src/privacy_zone/tee.cpp, timestamp_extract_year. */
module Calendar {
  import opened Arith

  const USECS_PER_DAY: int := 86400000000
  const POSTGRES_EPOCH_JDATE: int := 2451545
  const INT_MAX: int := 0x7fff_ffff
  const TWO_32: int := 0x1_0000_0000
  const TWO_63: int := 0x8000_0000_0000_0000

  // ------------------------------------------------------------------------------------------
  // The calendar
  // ------------------------------------------------------------------------------------------

  predicate Leap(y: int) {
    y % 4 == 0 && (y % 100 != 0 || y % 400 == 0)
  }

  /** The Julian day number of 1 January of year `y`, counted year by year from 2000. */
  function Jan1(y: int): int
    decreases if y >= 2000 then y - 2000 else 2000 - y
  {
    if y == 2000 then POSTGRES_EPOCH_JDATE
    else if y > 2000 then Jan1(y - 1) + DaysIn(y - 1)
    else Jan1(y + 1) - DaysIn(y)
  }

  function DaysIn(y: int): int {
    if Leap(y) then 366 else 365
  }

  /** The leap days among the years before `y`, counted from year 0. */
  function LeapsBefore(y: int): int {
    (y + 3) / 4 - (y + 99) / 100 + (y + 399) / 400
  }

  lemma CeilStep(y: int, d: int)
    requires 0 < d
    ensures (y + 1 + (d - 1)) / d == (y + (d - 1)) / d + if y % d == 0 then 1 else 0
  {
    var q, m := y / d, y % d;
    DivModOf(y + d, d, q + 1, m);
    if m == 0 { DivModOf(y + d - 1, d, q, d - 1); } else { DivModOf(y + d - 1, d, q + 1, m - 1); }
  }

  lemma CenturiesAreDivisible(y: int)
    ensures y % 400 == 0 ==> y % 100 == 0
    ensures y % 100 == 0 ==> y % 4 == 0
  {
    if y % 400 == 0 { DivModOf(y, 100, 4 * (y / 400), 0); }
    if y % 100 == 0 { DivModOf(y, 4, 25 * (y / 100), 0); }
  }

  lemma LeapsBeforeNext(y: int)
    ensures LeapsBefore(y + 1) == LeapsBefore(y) + if Leap(y) then 1 else 0
  {
    CeilStep(y, 4);
    CeilStep(y, 100);
    CeilStep(y, 400);
    CenturiesAreDivisible(y);
  }

  lemma {:induction false} Jan1Closed(y: int)
    ensures Jan1(y) == 1721060 + 365 * y + LeapsBefore(y)
    decreases if y >= 2000 then y - 2000 else 2000 - y
  {
    if y > 2000 {
      Jan1Closed(y - 1);
      LeapsBeforeNext(y - 1);
    } else if y < 2000 {
      Jan1Closed(y + 1);
      LeapsBeforeNext(y);
    }
  }

  // ------------------------------------------------------------------------------------------
  // The source's computation
  // ------------------------------------------------------------------------------------------

  /** C division of int64: toward zero. */
  function CDiv(x: int, d: int): int
    requires d > 0
  {
    if x >= 0 then x / d else -((-x) / d)
  }

  /** The days since 2000-01-01, with the correction for negative timestamps. */
  function DayOf(timestamp: int): int {
    var q := CDiv(timestamp, USECS_PER_DAY);
    var rest := if q != 0 then timestamp - q * USECS_PER_DAY else timestamp;
    if rest < 0 then q - 1 else q
  }

  lemma DayOfIsFloor(timestamp: int)
    ensures DayOf(timestamp) * USECS_PER_DAY <= timestamp < (DayOf(timestamp) + 1) * USECS_PER_DAY
  {
  }

  /** Conversion to unsigned int. */
  function U32(x: int): int {
    x % TWO_32
  }

  /** The two nested division tricks, with every unsigned conversion written out. */
  function YearOfJulianDay(jd: int): int {
    var date := jd + 32044;
    var quad := U32(date / 146097);
    var extra := U32((date - U32(quad * 146097)) * 4 + 3);
    var date1 := date + U32(60 + U32(quad * 3) + extra / 146097);
    var quad1 := U32(date1 / 1461);
    var date2 := date1 - U32(quad1 * 1461);
    date2 * 4 / 1461 + U32(quad1 * 4) - 4800
  }

  function TimestampExtractYear(timestamp: int): int {
    var date := DayOf(timestamp) + POSTGRES_EPOCH_JDATE;
    if date < 0 || date > INT_MAX then -1 else YearOfJulianDay(date)
  }

  // ------------------------------------------------------------------------------------------
  // Proof
  // ------------------------------------------------------------------------------------------

  lemma U32Small(x: int)
    requires 0 <= x < TWO_32
    ensures U32(x) == x
  {
    DivModOf(x, TWO_32, 0, x);
  }

  /** The same computation in unbounded integers. */
  function ExactYear(jd: int): int {
    var date := jd + 32044;
    var quad := date / 146097;
    var extra := (date - quad * 146097) * 4 + 3;
    var date1 := date + 60 + quad * 3 + extra / 146097;
    var quad1 := date1 / 1461;
    (date1 - quad1 * 1461) * 4 / 1461 + quad1 * 4 - 4800
  }

  /** For every day the source lets through, no conversion to unsigned int changes a value. */
  lemma NoUnsignedWrap(jd: int)
    requires 0 <= jd <= INT_MAX
    ensures var date := jd + 32044; var quad := date / 146097; var extra := (date - quad * 146097) * 4 + 3;
      var shift := 60 + quad * 3 + extra / 146097; var quad1 := (date + shift) / 1461;
      && 0 <= quad <= quad * 146097 < TWO_32 && 0 <= extra < TWO_32
      && 0 <= quad * 3 <= shift < TWO_32
      && 0 <= quad1 <= quad1 * 4 < TWO_32 && quad1 * 1461 < TWO_32
    ensures YearOfJulianDay(jd) == ExactYear(jd)
  {
    var date := jd + 32044;
    var quad := date / 146097;
    U32Small(quad);
    U32Small(quad * 146097);
    var extra := (date - quad * 146097) * 4 + 3;
    U32Small(extra);
    U32Small(quad * 3);
    var shift := 60 + quad * 3 + extra / 146097;
    U32Small(shift);
    var quad1 := (date + shift) / 1461;
    U32Small(quad1);
    U32Small(quad1 * 1461);
    U32Small(quad1 * 4);
  }

  /** Day `d` of a calendar with a leap year every four years lies in year `4 * g + k`. */
  lemma WithinFourYears(d: int, g: int, h: int, k: int)
    requires d == 1461 * g + h && 0 <= h < 1461 && 1461 * k <= 4 * h < 1461 * (k + 1)
    ensures var z := 4 * g + k; 365 * z + (z + 3) / 4 <= d < 365 * (z + 1) + (z + 4) / 4
  {
    var z := 4 * g + k;
    assert 0 <= k <= 3;
    assert (z + 3) / 4 == g + (k + 3) / 4 && (z + 4) / 4 == g + (k + 4) / 4;
  }

  /** In century `c` of a cycle, counted from 0, so many leap days are missing. */
  lemma MissingLeaps(z: int, c: int)
    requires 0 <= c <= 3 && 100 * c < z <= 100 * c + 100
    ensures LeapsBefore(z) == (z + 3) / 4 - c
  {
    assert (z + 99) / 100 == c + 1 && (z + 399) / 400 == 1;
  }

  /** The arithmetic heart: `e` days into a 400-year cycle that starts on 1 March lie in year `z`
      of the cycle, where `c` counts the missing leap days and `g`, `k` are the four-year block and
      the year in it. */
  lemma WithinCycle(e: int, c: int, g: int, h: int, k: int)
    requires 0 <= e < 146097 && 146097 * c <= 4 * e + 3 < 146097 * (c + 1)
    requires e + c + 60 == 1461 * g + h && 0 <= h < 1461
    requires 1461 * k <= 4 * h < 1461 * (k + 1)
    ensures var z := 4 * g + k;
      365 * z + LeapsBefore(z) <= e + 60 < 365 * (z + 1) + LeapsBefore(z + 1)
  {
    var z := 4 * g + k;
    WithinFourYears(e + c + 60, g, h, k);
    assert 0 <= c <= 3 && 100 * c <= z <= 100 * c + 100;
    if z > 100 * c { MissingLeaps(z, c); } else if c > 0 { MissingLeaps(z, c - 1); }
    if z < 100 * c + 100 { MissingLeaps(z + 1, c); } else if c < 3 { MissingLeaps(z + 1, c + 1); }
  }

  /** A whole number of 400-year cycles shifts 1 January by that many times 146097 days. */
  lemma Jan1OfCycle(q: int, z: int)
    ensures Jan1(400 * q + z) == 1721060 + 146097 * q + 365 * z + LeapsBefore(z)
  {
    Jan1Closed(400 * q + z);
    DivModOf(400 * q + z + 3, 4, 100 * q + (z + 3) / 4, (z + 3) % 4);
    DivModOf(400 * q + z + 99, 100, 4 * q + (z + 99) / 100, (z + 99) % 100);
    DivModOf(400 * q + z + 399, 400, q + (z + 399) / 400, (z + 399) % 400);
  }

  /** The second division trick does not see the whole cycles. */
  lemma YearInCycle(jd: int, q: int, e: int, c: int, g: int, h: int)
    requires jd + 32044 == 146097 * q + e && 0 <= e < 146097
    requires c == (4 * e + 3) / 146097 && e + c + 60 == 1461 * g + h && 0 <= h < 1461
    ensures ExactYear(jd) == 400 * (q - 12) + (4 * g + h * 4 / 1461)
  {
    DivModOf(jd + 32044, 146097, q, e);
    DivModOf(146100 * q + e + c + 60, 1461, 100 * q + g, h);
  }

  lemma ExactYearIsRight(jd: int)
    ensures Jan1(ExactYear(jd)) <= jd < Jan1(ExactYear(jd) + 1)
  {
    var date := jd + 32044;
    var q, e := date / 146097, date % 146097;
    var c := (4 * e + 3) / 146097;
    var g, h := (e + c + 60) / 1461, (e + c + 60) % 1461;
    var z := 4 * g + h * 4 / 1461;
    YearInCycle(jd, q, e, c, g, h);
    WithinCycle(e, c, g, h, h * 4 / 1461);
    Jan1OfCycle(q - 12, z);
    Jan1OfCycle(q - 12, z + 1);
  }

  lemma {:induction false} Jan1Increases(y: int, z: int)
    requires y < z
    ensures Jan1(y) < Jan1(z)
    decreases z - y
  {
    Jan1Closed(z - 1);
    Jan1Closed(z);
    LeapsBeforeNext(z - 1);
    if y < z - 1 { Jan1Increases(y, z - 1); }
  }

  /** Main result: for every 64-bit timestamp the function returns -1 exactly when the Julian day is
      negative, and otherwise the one Gregorian year (year 0 is 1 BC) that contains the day. */
  lemma ExtractedYearContainsTheDay(timestamp: int)
    requires -TWO_63 <= timestamp < TWO_63
    ensures var day := DayOf(timestamp) + POSTGRES_EPOCH_JDATE; var y := TimestampExtractYear(timestamp);
      if day < 0 then y == -1
      else Jan1(y) <= day < Jan1(y + 1) && forall x | Jan1(x) <= day < Jan1(x + 1) :: x == y
  {
    var day := DayOf(timestamp) + POSTGRES_EPOCH_JDATE;
    DayOfIsFloor(timestamp);
    assert day <= INT_MAX;
    if day >= 0 {
      NoUnsignedWrap(day);
      ExactYearIsRight(day);
      var y := ExactYear(day);
      forall x | Jan1(x) <= day < Jan1(x + 1) ensures x == y {
        if x < y && x + 1 < y { Jan1Increases(x + 1, y); }
        if y < x && y + 1 < x { Jan1Increases(y + 1, x); }
      }
    }
  }

  /** The first microsecond of a year belongs to it and the one before to the year before. */
  lemma YearsBeginAtMidnight(y: int)
    requires Jan1(y) > 0
    requires var t := (Jan1(y) - Jan1(2000)) * 24 * 60 * 60 * 1000000; -TWO_63 < t < TWO_63
    ensures var t := (Jan1(y) - Jan1(2000)) * 24 * 60 * 60 * 1000000;
      TimestampExtractYear(t) == y && TimestampExtractYear(t - 1) == y - 1
  {
    var t := (Jan1(y) - Jan1(2000)) * 24 * 60 * 60 * 1000000;
    DayOfIsFloor(t);
    DayOfIsFloor(t - 1);
    Jan1Increases(y, y + 1);
    Jan1Increases(y - 1, y);
    ExtractedYearContainsTheDay(t);
    ExtractedYearContainsTheDay(t - 1);
  }
}
