/** Day numbers and proleptic-Gregorian dates (src/value.rs:407-481). */
module Dates {
  import opened Wrappers

  /** Rust's `/` on signed integers truncates toward zero. */
  function Div(a: int, b: int): int
    requires b > 0
  {
    if a >= 0 then a / b else -((-a) / b)
  }

  /** Days since 1970-01-01 of a year, month and day. */
  function DaysFromCivil(y0: int, m: int, d: int): int {
    var y := if m <= 2 then y0 - 1 else y0;
    var era := Div(if y >= 0 then y else y - 399, 400);
    var yoe := y - era * 400;
    var doy := Div(153 * (if m > 2 then m - 3 else m + 9) + 2, 5) + d - 1;
    var doe := yoe * 365 + Div(yoe, 4) - Div(yoe, 100) + doy;
    era * 146097 + doe - 719468
  }

  function CivilFromDays(z0: int): (int, int, int) {
    var z := z0 + 719468;
    var era := Div(if z >= 0 then z else z - 146096, 146097);
    CivilInEra(era, z - era * 146097)
  }

  function CivilInEra(era: int, doe: int): (int, int, int) {
    var yoe := Div(doe - Div(doe, 1460) + Div(doe, 36524) - Div(doe, 146096), 365);
    CivilInYear(yoe + era * 400, doe - (365 * yoe + Div(yoe, 4) - Div(yoe, 100)))
  }

  function CivilInYear(y: int, doy: int): (int, int, int) {
    var mp := Div(5 * doy + 2, 153);
    var d := doy - Div(153 * mp + 2, 5) + 1;
    var m := if mp < 10 then mp + 3 else mp - 9;
    (if m <= 2 then y + 1 else y, m, d)
  }

  // ---- the calendar --------------------------------------------------------

  predicate Leap(y: int) { y % 4 == 0 && (y % 100 != 0 || y % 400 == 0) }

  function DaysInMonth(y: int, m: int): int {
    if m == 2 then (if Leap(y) then 29 else 28)
    else if m == 4 || m == 6 || m == 9 || m == 11 then 30
    else 31
  }

  predicate ValidDate(y: int, m: int, d: int) { 1 <= m <= 12 && 1 <= d <= DaysInMonth(y, m) }

  /** The day after, on the calendar. */
  function NextDate(y: int, m: int, d: int): (int, int, int) {
    if d < DaysInMonth(y, m) then (y, m, d + 1)
    else if m < 12 then (y, m + 1, 1)
    else (y + 1, 1, 1)
  }

  // ---- one era: 400 years starting 1 March ---------------------------------

  /** Day of the March-based year on which month `mp` starts. */
  function MonthStart(mp: int): int { (153 * mp + 2) / 5 }

  /** Day of the era on which year `yoe` starts. */
  function YearStart(yoe: int): int { 365 * yoe + yoe / 4 - yoe / 100 }

  /** Days in the March-based year `yoe`: its February belongs to the next calendar year. */
  function YearLength(yoe: int): int {
    if (yoe + 1) % 4 == 0 && ((yoe + 1) % 100 != 0 || (yoe + 1) % 400 == 0) then 366 else 365
  }

  lemma {:induction false} EraOf(y: int)
    ensures Div(if y >= 0 then y else y - 399, 400) == y / 400
    ensures 0 <= y - (y / 400) * 400 < 400
  {
  }

  lemma {:induction false} DayEraOf(z: int)
    ensures Div(if z >= 0 then z else z - 146096, 146097) == z / 146097
    ensures 0 <= z - (z / 146097) * 146097 < 146097
  {
  }

  lemma {:induction false} YearStep(yoe: int)
    requires 0 <= yoe < 400
    ensures YearStart(yoe) >= 0
    ensures YearStart(yoe + 1) == YearStart(yoe) + YearLength(yoe) - (if yoe == 399 then 1 else 0)
  {
    assert (yoe + 1) / 4 - yoe / 4 == if (yoe + 1) % 4 == 0 then 1 else 0;
    assert (yoe + 1) / 100 - yoe / 100 == if (yoe + 1) % 100 == 0 then 1 else 0;
    assert (yoe + 1) % 400 == 0 <==> yoe == 399;
  }

  /** A year of the era as century, four-year cycle and year of the cycle. */
  lemma {:induction false} YearParts(c: int, q: int, r: int)
    requires 0 <= c < 4 && 0 <= q < 25 && 0 <= r < 4
    ensures var yoe := 100 * c + 4 * q + r;
      && 0 <= yoe < 400 && YearStart(yoe) == 36524 * c + 1461 * q + 365 * r
      && (YearLength(yoe) == 366 <==> r == 3 && (q != 24 || c == 3))
  {
    var yoe := 100 * c + 4 * q + r;
    assert yoe / 4 == 25 * c + q && yoe / 100 == c;
    assert (yoe + 1) % 4 == (r + 1) % 4;
  }

  function FoundYear(doe: int): int { (doe - doe / 1460 + doe / 36524 - doe / 146096) / 365 }

  /** The year formula finds the year its day lies in. */
  lemma {:induction false} YearFound(c: int, q: int, r: int, doy: int)
    requires 0 <= c < 4 && 0 <= q < 25 && 0 <= r < 4
    requires 0 <= doy < YearLength(100 * c + 4 * q + r)
    ensures var yoe := 100 * c + 4 * q + r;
      var doe := YearStart(yoe) + doy;
      0 <= doe < 146097 && FoundYear(doe) == yoe
  {
    var yoe := 100 * c + 4 * q + r;
    YearParts(c, q, r);
    var doe := 36524 * c + 1461 * q + 365 * r + doy;
    assert doy < 366 && (doy == 365 ==> r == 3 && (q != 24 || c == 3));
    var e1 := if 24 * c + q + 365 * r + doy >= 1460 then 1 else 0;
    var e2 := if doe == 146096 then 1 else 0;
    assert doe / 1460 == 25 * c + q + e1;
    CenturyOf(c, q, r, doy);
    assert doe / 146096 == e2;
    assert doe - doe / 1460 + doe / 36524 - doe / 146096 == 365 * yoe + doy - e1;
    assert 0 <= doy - e1 < 365;
  }

  lemma {:induction false} CenturyOf(c: int, q: int, r: int, doy: int)
    requires 0 <= c < 4 && 0 <= q < 25 && 0 <= r < 4 && 0 <= doy < 366 && (doy == 365 ==> r == 3 && (q != 24 || c == 3))
    ensures var doe := 36524 * c + 1461 * q + 365 * r + doy;
      0 <= doe <= 146096 && doe / 36524 == c + if doe == 146096 then 1 else 0
  {
    var rest := 1461 * q + 365 * r + doy;
    assert rest <= 36524 && (rest == 36524 ==> q == 24 && r == 3 && doy == 365);
  }

  /** And every day of the era lies in a year. */
  lemma {:induction false} DayLies(doe: int) returns (c: int, q: int, r: int, doy: int)
    requires 0 <= doe < 146097
    ensures 0 <= c < 4 && 0 <= q < 25 && 0 <= r < 4 && 0 <= doy < YearLength(100 * c + 4 * q + r)
    ensures doe == YearStart(100 * c + 4 * q + r) + doy
  {
    c := if doe / 36524 < 3 then doe / 36524 else 3;
    var inCentury := doe - 36524 * c;
    q := inCentury / 1461;
    var inCycle := inCentury - 1461 * q;
    r := if inCycle / 365 < 3 then inCycle / 365 else 3;
    doy := inCycle - 365 * r;
    YearParts(c, q, r);
  }

  // ---- months --------------------------------------------------------------

  lemma {:induction false} MonthFound(mp: int, dom: int)
    requires 0 <= mp < 12 && 0 <= dom && MonthStart(mp) + dom < (if mp == 11 then 366 else MonthStart(mp + 1))
    ensures (5 * (MonthStart(mp) + dom) + 2) / 153 == mp
  {
  }

  lemma {:induction false} MonthLies(doy: int)
    requires 0 <= doy < 366
    ensures var mp := (5 * doy + 2) / 153;
      0 <= mp < 12 && MonthStart(mp) <= doy < (if mp == 11 then 366 else MonthStart(mp + 1))
  {
  }

  /** March-based month and year of a calendar month. */
  function MonthIndex(m: int): int { if m > 2 then m - 3 else m + 9 }

  function MarchYear(y: int, m: int): int { if m <= 2 then y - 1 else y }

  lemma {:induction false} MonthLength(y: int, m: int)
    requires 1 <= m <= 12
    ensures var (mp, yoe) := (MonthIndex(m), MarchYear(y, m) % 400);
      0 <= mp < 12 && MonthStart(mp) + DaysInMonth(y, m) == if mp == 11 then YearLength(yoe) else MonthStart(mp + 1)
  {
    if m == 2 { SameLeap(y); }
  }

  lemma {:induction false} SameLeap(y: int)
    ensures var yoe := (y - 1) % 400; Leap(y) <==> (yoe + 1) % 4 == 0 && ((yoe + 1) % 100 != 0 || (yoe + 1) % 400 == 0)
  {
    var yoe := (y - 1) % 400;
    var k := (y - 1) / 400;
    assert y == 400 * k + (yoe + 1);
    ModSkips(100 * k, 4, yoe + 1);
    ModSkips(4 * k, 100, yoe + 1);
    ModSkips(k, 400, yoe + 1);
  }

  lemma {:induction false} ModSkips(k: int, n: int, r: int)
    requires n == 4 || n == 100 || n == 400
    ensures (n * k + r) % n == r % n
  {
  }

  /** Both conversions in Euclidean terms. */
  lemma {:induction false} DaysAre(y: int, m: int, d: int)
    requires 1 <= m <= 12
    ensures var my := MarchYear(y, m);
      DaysFromCivil(y, m, d) == (my / 400) * 146097 + YearStart(my % 400) + MonthStart(MonthIndex(m)) + d - 1 - 719468
  {
    EraOf(MarchYear(y, m));
  }

  /** Year, month and day of day `doy` of March-based year `y`. */
  function Assembled(y: int, doy: int): (int, int, int) {
    var mp := (5 * doy + 2) / 153;
    var m := if mp < 10 then mp + 3 else mp - 9;
    (if m <= 2 then y + 1 else y, m, doy - MonthStart(mp) + 1)
  }

  lemma {:induction false} YearIsFound(doe: int, yoe: int)
    requires 0 <= doe < 146097 && FoundYear(doe) == yoe >= 0
    ensures Div(doe - Div(doe, 1460) + Div(doe, 36524) - Div(doe, 146096), 365) == yoe
    ensures Div(yoe, 4) == yoe / 4 && Div(yoe, 100) == yoe / 100
  {
    var inner := doe - doe / 1460 + doe / 36524 - doe / 146096;
    assert inner >= 0;
  }

  lemma {:induction false} DayIsFound(doy: int)
    requires 0 <= doy < 366
    ensures var mp := Div(5 * doy + 2, 153); mp == (5 * doy + 2) / 153 && Div(153 * mp + 2, 5) == MonthStart(mp)
  {
    MonthLies(doy);
  }

  lemma {:induction false} CivilIs(z: int, era: int, yoe: int, doy: int)
    requires 0 <= yoe < 400 && 0 <= doy < YearLength(yoe)
    requires z + 719468 == era * 146097 + (YearStart(yoe) + doy)
    ensures CivilFromDays(z) == Assembled(yoe + era * 400, doy)
  {
    hide YearStart;
    hide FoundYear;
    hide CivilInEra;
    hide CivilInYear;
    hide Assembled;
    var doe := YearStart(yoe) + doy;
    YearBounds(yoe, doy);
    EraIs(z, era, doe);
    InEra(era, doe, yoe, doy);
    InYear(yoe + era * 400, doy);
  }

  lemma {:induction false} EraIs(z: int, era: int, doe: int)
    requires 0 <= doe < 146097 && z + 719468 == era * 146097 + doe
    ensures CivilFromDays(z) == CivilInEra(era, doe)
  {
    hide CivilInEra;
    hide Div;
    EraSplits(era, doe);
    DayEraOf(z + 719468);
  }

  lemma {:induction false} InYear(y: int, doy: int)
    requires 0 <= doy < 366
    ensures CivilInYear(y, doy) == Assembled(y, doy)
  {
    hide MonthStart;
    hide Div;
    DayIsFound(doy);
  }

  lemma {:induction false} InEra(era: int, doe: int, yoe: int, doy: int)
    requires 0 <= doe < 146097 && FoundYear(doe) == yoe >= 0 && doe == YearStart(yoe) + doy
    ensures CivilInEra(era, doe) == CivilInYear(yoe + era * 400, doy)
  {
    YearIsFound(doe, yoe);
    hide Div;
    hide CivilInYear;
  }

  // ---- the theorems --------------------------------------------------------

  /** Numbers count from the first of January 1970. */
  lemma {:induction false} EpochDay()
    ensures DaysFromCivil(1970, 1, 1) == 0 && DaysFromCivil(2000, 3, 1) == 11017 && CivilFromDays(-1) == (1969, 12, 31)
  {
  }

  /** Every valid date survives the trip through its day number. */
  lemma {:induction false} CivilTrip(y: int, m: int, d: int)
    requires ValidDate(y, m, d)
    ensures CivilFromDays(DaysFromCivil(y, m, d)) == (y, m, d)
  {
    hide DaysFromCivil;
    hide CivilFromDays;
    hide DaysInMonth;
    hide YearLength;
    hide YearStart;
    hide MonthStart;
    var (my, mp) := (MarchYear(y, m), MonthIndex(m));
    var yoe := my % 400;
    MonthLength(y, m);
    MonthEnds(mp, yoe);
    MonthFound(mp, d - 1);
    DaysAre(y, m, d);
    assert my == (my / 400) * 400 + yoe;
    var doy := MonthStart(mp) + d - 1;
    CivilIs(DaysFromCivil(y, m, d), my / 400, yoe, doy);
  }

  lemma {:induction false} MonthEnds(mp: int, yoe: int)
    requires 0 <= mp < 12
    ensures 0 <= MonthStart(mp) && (mp < 11 ==> MonthStart(mp + 1) <= 337) && 365 <= YearLength(yoe) <= 366
  {
  }

  lemma {:induction false} EraSplits(era: int, doe: int)
    requires 0 <= doe < 146097
    ensures (era * 146097 + doe) / 146097 == era && (era * 146097 + doe) % 146097 == doe
  {
  }

  lemma {:induction false} YearBounds(yoe: int, doy: int)
    requires 0 <= yoe < 400 && 0 <= doy < YearLength(yoe)
    ensures 0 <= YearStart(yoe) + doy < 146097 && FoundYear(YearStart(yoe) + doy) == yoe
  {
    YearFound(yoe / 100, yoe % 100 / 4, yoe % 4, doy);
    assert 100 * (yoe / 100) + 4 * (yoe % 100 / 4) + yoe % 4 == yoe;
  }

  /** Every day number is the day number of the valid date it converts to. */
  lemma {:induction false} DaysTrip(z: int)
    ensures var (y, m, d) := CivilFromDays(z); ValidDate(y, m, d) && DaysFromCivil(y, m, d) == z
  {
    hide CivilFromDays;
    hide DaysFromCivil;
    hide YearStart;
    hide YearLength;
    hide MonthStart;
    hide DaysInMonth;
    var (era, doe) := ((z + 719468) / 146097, (z + 719468) % 146097);
    var c, q, r, doy := DayLies(doe);
    var yoe := 100 * c + 4 * q + r;
    MonthEnds(0, yoe);
    CivilIs(z, era, yoe, doy);
    MonthLies(doy);
    var (y, m, d) := Assembled(yoe + era * 400, doy);
    assert MarchYear(y, m) == yoe + era * 400;
    YearSplits(era, yoe);
    MonthLength(y, m);
    DaysAre(y, m, d);
  }

  lemma {:induction false} YearSplits(era: int, yoe: int)
    requires 0 <= yoe < 400
    ensures (yoe + era * 400) / 400 == era && (yoe + era * 400) % 400 == yoe
  {
  }

  /** The next calendar day is the next number, over months, years and eras. */
  lemma {:induction false} NextDayNextNumber(y: int, m: int, d: int)
    requires ValidDate(y, m, d)
    ensures var (y', m', d') := NextDate(y, m, d); ValidDate(y', m', d') && DaysFromCivil(y', m', d') == DaysFromCivil(y, m, d) + 1
  {
    hide DaysFromCivil;
    hide YearStart;
    hide YearLength;
    hide MonthStart;
    hide Leap;
    var (y', m', d') := NextDate(y, m, d);
    DaysAre(y, m, d);
    DaysAre(y', m', d');
    MonthLength(y, m);
    FirstMonth();
    if d == DaysInMonth(y, m) && m == 2 {
      NextMarch(y - 1);
    }
  }

  lemma {:induction false} FirstMonth()
    ensures MonthStart(0) == 0
  {
  }

  lemma {:induction false} NextMarch(my: int)
    ensures ((my + 1) / 400) * 146097 + YearStart((my + 1) % 400) == (my / 400) * 146097 + YearStart(my % 400) + YearLength(my % 400)
  {
    var (era, yoe) := (my / 400, my % 400);
    YearStep(yoe);
    if yoe == 399 {
      assert my + 1 == (era + 1) * 400;
      YearSplits(era + 1, 0);
    } else {
      YearSplits(era, yoe + 1);
    }
  }

  /** So consecutive numbers are consecutive days. */
  lemma {:induction false} NextNumberNextDay(z: int)
    ensures var (y, m, d) := CivilFromDays(z); CivilFromDays(z + 1) == NextDate(y, m, d)
  {
    hide CivilFromDays;
    hide DaysFromCivil;
    hide ValidDate;
    hide NextDate;
    var (y, m, d) := CivilFromDays(z);
    DaysTrip(z);
    NextDayNextNumber(y, m, d);
    var (y', m', d') := NextDate(y, m, d);
    CivilTrip(y', m', d');
  }

  /** What the parser accepts: any day up to 31 whatever the month (src/value.rs:455-466). */
  predicate Accepted(y: int, m: int, d: int) { -MAX_YEAR <= y <= MAX_YEAR && 1 <= m <= 12 && 1 <= d <= 31 }

  const MAX_YEAR: int := 262143

  /** An accepted date comes back from its day number exactly when the month has that day. */
  lemma {:induction false} AcceptedTrip(y: int, m: int, d: int)
    requires Accepted(y, m, d)
    ensures CivilFromDays(DaysFromCivil(y, m, d)) == (y, m, d) <==> d <= DaysInMonth(y, m)
  {
    if d <= DaysInMonth(y, m) { CivilTrip(y, m, d); }
    DaysTrip(DaysFromCivil(y, m, d));
  }

  const MICROS_PER_DAY: int := 86_400_000_000
  const TWO63: int := 0x8000_0000_0000_0000

  /** The year bound keeps the microsecond arithmetic inside `i64`, so the checked
      operations never fail on an accepted date. */
  lemma {:induction false} MicrosFit(y: int, m: int, d: int, micros: int)
    requires Accepted(y, m, d) && -1_000_000 < micros < MICROS_PER_DAY + 1_000_000
    ensures -TWO63 <= DaysFromCivil(y, m, d) * MICROS_PER_DAY < TWO63
    ensures -TWO63 <= DaysFromCivil(y, m, d) * MICROS_PER_DAY + micros < TWO63
  {
    DaysAre(y, m, d);
    var my := MarchYear(y, m);
    assert -656 <= my / 400 <= 655;
    assert 0 <= my % 400 < 400;
    var days := DaysFromCivil(y, m, d);
    assert -100_000_000 <= days <= 100_000_000;
  }
}
