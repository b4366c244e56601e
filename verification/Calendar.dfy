/** Civil dates and day numbers, in the two forms the engine uses: the Julian-day arithmetic and time windows of
    `src/core/calendar.rs`, and the era arithmetic of `src/api/ingest/datetime.rs`. */
module Calendar {
  import opened Collections
  import opened Wrappers

  const MILLIS_PER_DAY: nat := 86_400_000
  const MIN_YEAR := 1990
  const MAX_YEAR := 2100
  const MAX_DAY_OF_MONTH: nat := 31
  const FIRST_WEEK_END_DAY: nat := 7
  const LAST_WEEK_DAY_OFFSET: nat := 6
  const UNIX_EPOCH_JDN := 2_440_588

  datatype Date = Date(year: int, month: nat, day: nat)

  predicate IsLeap(year: int) {
    (year % 4 == 0 && year % 100 != 0) || year % 400 == 0
  }

  function DaysInMonth(year: int, month: nat): (days: nat)
    ensures 28 <= days <= 31
  {
    if month == 1 || month == 3 || month == 5 || month == 7 || month == 8 || month == 10 || month == 12 then 31
    else if month == 2 then if IsLeap(year) then 29 else 28
    else 30
  }

  predicate Valid(d: Date) {
    1 <= d.month <= 12 && 1 <= d.day <= DaysInMonth(d.year, d.month)
  }

  /** Division of machine integers: towards zero. */
  function TruncDiv(a: int, b: int): int
    requires b > 0
  {
    if a >= 0 then a / b else -(-a / b)
  }

  /** Julian day number less that of 1970-01-01. */
  function DaysSinceEpoch(year: int, month: nat, day: nat): int {
    var a := TruncDiv(14 - month, 12);
    var y := year + 4800 - a;
    var m := month + 12 * a - 3;
    day + TruncDiv(153 * m + 2, 5) + 365 * y + TruncDiv(y, 4) - TruncDiv(y, 100) + TruncDiv(y,
        400) - 32045 - UNIX_EPOCH_JDN
  }

  /** Day number by 400-year eras of years that begin in March. */
  function DaysFromCivil(year: int, month: nat, day: nat): int {
    var y := if month <= 2 then year - 1 else year;
    var era := TruncDiv(if y >= 0 then y else y - 399, 400);
    var yoe := y - era * 400;
    var mp := month + if month > 2 then -3 else 9;
    var doy := TruncDiv(153 * mp + 2, 5) + day - 1;
    var doe := yoe * 365 + TruncDiv(yoe, 4) - TruncDiv(yoe, 100) + doy;
    era * 146_097 + doe - 719_468
  }

  function CivilFromDays(days: int): (int, int, int) {
    var z := days + 719_468;
    var era := EraOf(z);
    var doe := z - era * 146_097;
    var yoe := YearOfEra(doe);
    FromYearAndDay(yoe + era * 400, doe - (365 * yoe + TruncDiv(yoe, 4) - TruncDiv(yoe, 100)))
  }

  function EraOf(z: int): int {
    TruncDiv(if z >= 0 then z else z - 146_096, 146_097)
  }

  function YearOfEra(doe: int): int {
    TruncDiv(doe - TruncDiv(doe, 1_460) + TruncDiv(doe, 36_524) - TruncDiv(doe, 146_096), 365)
  }

  function FromYearAndDay(y: int, doy: int): (int, int, int) {
    var mp := TruncDiv(5 * doy + 2, 153);
    var d := doy - TruncDiv(153 * mp + 2, 5) + 1;
    var m := mp + if mp < 10 then 3 else -9;
    (if m <= 2 then y + 1 else y, m, d)
  }

  // ----- Years that begin in March -----

  function MarchYear(year: int, month: nat): int {
    if month <= 2 then year - 1 else year
  }

  function MarchMonth(month: nat): int {
    if month <= 2 then month + 9 else month - 3
  }

  /** Days before March-year `y`, from a fixed origin. */
  function YearStart(y: int): int {
    365 * y + y / 4 - y / 100 + y / 400
  }

  function MonthStart(mp: int): int {
    (153 * mp + 2) / 5
  }

  /** The day number of a day of a March-year. */
  function MarchDays(y: int, mp: int, day: int): int {
    YearStart(y) + MonthStart(mp) + day - 1 - 719_468
  }

  /** A March-year ends in the February of the next year. */
  function YearLength(y: int): int {
    if IsLeap(y + 1) then 366 else 365
  }

  function MonthEnd(y: int, mp: int): int {
    if mp == 11 then YearLength(y) else MonthStart(mp + 1)
  }

  lemma QuotientSteps(y: int)
    ensures (y + 1) / 4 == y / 4 + if (y + 1) % 4 == 0 then 1 else 0
    ensures (y + 1) / 100 == y / 100 + if (y + 1) % 100 == 0 then 1 else 0
    ensures (y + 1) / 400 == y / 400 + if (y + 1) % 400 == 0 then 1 else 0
  {}

  lemma Divisors(y: int)
    ensures y % 400 == 0 ==> y % 100 == 0
    ensures y % 100 == 0 ==> y % 4 == 0
  {}

  lemma NextYearStart(y: int)
    ensures YearStart(y + 1) == YearStart(y) + YearLength(y)
  {
    QuotientSteps(y);
    Divisors(y + 1);
  }

  lemma {:induction false} YearsStartInOrder(y: int, z: int)
    requires y < z
    ensures YearStart(y) + YearLength(y) <= YearStart(z)
    decreases z - y
  {
    NextYearStart(y);
    if y + 1 < z {
      YearsStartInOrder(y + 1, z);
    }
  }

  lemma MonthFits(year: int, month: nat)
    requires 1 <= month <= 12
    ensures var mp := MarchMonth(month);
            0 <= mp <= 11 && MonthStart(mp) + DaysInMonth(year, month) == MonthEnd(MarchYear(year, month), mp)
  {}

  lemma {:induction false} MonthsStartInOrder(y: int, mp: int, mq: int)
    requires 0 <= mp < mq <= 11
    ensures MonthEnd(y, mp) <= MonthStart(mq) && MonthEnd(y, mq) <= YearLength(y)
  {}

  lemma EraForm(year: int, month: nat, day: nat)
    requires 1 <= month <= 12
    ensures DaysFromCivil(year, month, day) == MarchDays(MarchYear(year, month), MarchMonth(month), day)
  {
    var y := MarchYear(year, month);
    var era := TruncDiv(if y >= 0 then y else y - 399, 400);
    assert era == y / 400;
    var yoe := y - era * 400;
    assert 0 <= yoe < 400;
    assert y / 4 == 100 * era + yoe / 4 && y / 100 == 4 * era + yoe / 100;
  }

  /** The Julian-day form agrees with the era form exactly from the March-year -4800 on, and before it only in leap
      March-years, where truncation and flooring coincide. */
  lemma JulianFormAgreesIff(year: int, month: nat, day: nat)
    requires 1 <= month <= 12
    ensures DaysSinceEpoch(year, month, day) == DaysFromCivil(year, month, day) <==>
              MarchYear(year, month) >= -4800 || IsLeap(MarchYear(year, month))
  {
    EraForm(year, month, day);
    var y := MarchYear(year, month) + 4800;
    JulianForm(year, month, day);
    ShiftedYears(y - 4800);
    if y < 0 {
      TruncatedYears(y);
    }
  }

  lemma JulianForm(year: int, month: nat, day: nat)
    requires 1 <= month <= 12
    ensures var y := MarchYear(year, month) + 4800;
            DaysSinceEpoch(year, month, day) == 365 * y + TruncDiv(y, 4) - TruncDiv(y, 100) + TruncDiv(y,
                400) + MonthStart(MarchMonth(month)) + day - 2_472_633
  {
    assert TruncDiv(14 - month, 12) == if month <= 2 then 1 else 0;
  }

  lemma ShiftedYears(y: int)
    ensures YearStart(y + 4800) == YearStart(y) + 1_753_164
    ensures IsLeap(y + 4800) == IsLeap(y)
  {
    assert (y + 4800) / 4 == y / 4 + 1200;
    assert (y + 4800) / 100 == y / 100 + 48;
    assert (y + 4800) / 400 == y / 400 + 12;
  }

  lemma TruncatedYears(y: int)
    requires y < 0
    ensures TruncDiv(y, 4) - TruncDiv(y, 100) + TruncDiv(y, 400) == y / 4 - y / 100 + y / 400 <==> IsLeap(y)
  {
    assert TruncDiv(y, 4) == if y % 4 == 0 then y / 4 else y / 4 + 1;
    assert TruncDiv(y, 100) == if y % 100 == 0 then y / 100 else y / 100 + 1;
    assert TruncDiv(y, 400) == if y % 400 == 0 then y / 400 else y / 400 + 1;
  }

  // ----- The two conversions undo each other -----

  /** A year of the era as century, four-year cycle and year, with its day. */
  lemma YearOfEraIsRight(c: int, q: int, r: int, doy: int)
    requires 0 <= c <= 3 && 0 <= q <= 24 && 0 <= r <= 3 && 0 <= doy < YearLength(100 * c + 4 * q + r)
    ensures YearOfEra(36_524 * c + 1_461 * q + 365 * r + doy) == 100 * c + 4 * q + r
  {
    LongYears(c, q, r);
    var doe := 36_524 * c + 1_461 * q + 365 * r + doy;
    var last := if doe == 146_096 then 1 else 0;
    assert doe / 146_096 == last;
    assert doe / 36_524 == c + last;
    var e := if 24 * c + q + 365 * r + doy >= 1_460 then 1 else 0;
    assert doe / 1_460 == 25 * c + q + e;
    assert doe - doe / 1_460 + doe / 36_524 - doe / 146_096 == 365 * (100 * c + 4 * q + r) + doy - e;
  }

  lemma LongYears(c: int, q: int, r: int)
    requires 0 <= c <= 3 && 0 <= q <= 24 && 0 <= r <= 3
    ensures YearLength(100 * c + 4 * q + r) == 366 <==> r == 3 && (q < 24 || c == 3)
  {
    var y := 100 * c + 4 * q + r + 1;
    assert y % 4 == 0 <==> r == 3;
    assert y % 100 == 0 <==> r == 3 && q == 24;
    assert y % 400 == 0 <==> r == 3 && q == 24 && c == 3;
  }

  lemma SplitYear(yoe: int) returns (c: int, q: int, r: int)
    requires 0 <= yoe < 400
    ensures 0 <= c <= 3 && 0 <= q <= 24 && 0 <= r <= 3 && yoe == 100 * c + 4 * q + r
    ensures 365 * yoe + yoe / 4 - yoe / 100 == 36_524 * c + 1_461 * q + 365 * r
  {
    c := yoe / 100;
    q := yoe % 100 / 4;
    r := yoe % 4;
    assert yoe / 4 == 25 * c + q;
  }

  lemma SplitDay(doe: int) returns (c: int, q: int, r: int, doy: int)
    requires 0 <= doe < 146_097
    ensures 0 <= c <= 3 && 0 <= q <= 24 && 0 <= r <= 3 && 0 <= doy < YearLength(100 * c + 4 * q + r)
    ensures doe == 36_524 * c + 1_461 * q + 365 * r + doy
  {
    c := if doe < 146_096 then doe / 36_524 else 3;
    var inCentury := doe - 36_524 * c;
    q := inCentury / 1_461;
    var inCycle := inCentury - 1_461 * q;
    r := if inCycle < 1_460 then inCycle / 365 else 3;
    doy := inCycle - 365 * r;
    LongYears(c, q, r);
  }

  lemma MonthOfDay(mp: int, doy: int)
    requires 0 <= mp <= 11 && MonthStart(mp) <= doy < if mp == 11 then 366 else MonthStart(mp + 1)
    ensures (5 * doy + 2) / 153 == mp
  {}

  lemma DayHasMonth(doy: int) returns (mp: int)
    requires 0 <= doy < 366
    ensures 0 <= mp <= 11 && MonthStart(mp) <= doy < if mp == 11 then 366 else MonthStart(mp + 1)
  {
    mp := (5 * doy + 2) / 153;
  }

  lemma ReadYear(era: int, doe: int, doy: int)
    requires 0 <= doe < 146_097 && 0 <= YearOfEra(doe) < 400
    requires var yoe := YearOfEra(doe); doy == doe - (365 * yoe + yoe / 4 - yoe / 100)
    ensures CivilFromDays(146_097 * era + doe - 719_468) == FromYearAndDay(YearOfEra(doe) + 400 * era, doy)
  {
    EraOfDays(era, doe);
  }

  lemma DayOfEra(yoe: int, doy: int) returns (doe: int)
    requires 0 <= yoe < 400 && 0 <= doy < YearLength(yoe)
    ensures 0 <= doe < 146_097 && doe == 365 * yoe + yoe / 4 - yoe / 100 + doy && YearOfEra(doe) == yoe
  {
    var c, q, r := SplitYear(yoe);
    LongYears(c, q, r);
    YearOfEraIsRight(c, q, r, doy);
    doe := 36_524 * c + 1_461 * q + 365 * r + doy;
  }

  lemma StartOfEra(y: int)
    ensures var era, yoe := y / 400, y % 400; YearStart(y) == 146_097 * era + 365 * yoe + yoe / 4 - yoe / 100
  {
    var era, yoe := y / 400, y % 400;
    assert y / 4 == 100 * era + yoe / 4 && y / 100 == 4 * era + yoe / 100;
  }

  /** The era arithmetic recovers a March-year from any of its days. */
  lemma YearOfDay(y: int, doy: int)
    requires 0 <= doy < YearLength(y)
    ensures CivilFromDays(YearStart(y) + doy - 719_468) == FromYearAndDay(y, doy)
  {
    YearLengthInEra(y);
    var doe := DayOfEra(y % 400, doy);
    StartOfEra(y);
    ReadYear(y / 400, doe, doy);
  }

  /** Reads a day number given as March-year, month and day. */
  lemma CivilOfMarchDate(y: int, mp: int, day: int)
    requires 0 <= mp <= 11 && day >= 1 && MonthStart(mp) + day - 1 < MonthEnd(y, mp)
    ensures CivilFromDays(MarchDays(y, mp, day)) ==
              (if mp >= 10 then y + 1 else y, if mp < 10 then mp + 3 else mp - 9, day)
  {
    var doy := MonthStart(mp) + day - 1;
    LastDayInYear(y, mp);
    YearOfDay(y, doy);
    MonthOfDay(mp, doy);
    ReadDay(y, mp, doy);
  }

  // Whole multiples do not change a remainder, for each of the calendar's moduli.

  lemma FoursDrop(k: int, a: int)
    ensures (4 * k + a) % 4 == a % 4
  {}

  lemma CenturiesDrop(k: int, a: int)
    ensures (100 * k + a) % 100 == a % 100
  {}

  lemma ErasDrop(k: int, a: int)
    ensures (400 * k + a) % 400 == a % 400
  {}

  lemma YearLengthInEra(y: int)
    ensures YearLength(y) == YearLength(y % 400)
  {
    var era, yoe := y / 400, y % 400;
    FoursDrop(100 * era, yoe + 1);
    CenturiesDrop(4 * era, yoe + 1);
    ErasDrop(era, yoe + 1);
    assert y + 1 == 400 * era + (yoe + 1);
  }

  lemma LastDayInYear(y: int, mp: int)
    requires 0 <= mp <= 11
    ensures MonthEnd(y, mp) <= YearLength(y)
  {}

  lemma EraOfDays(era: int, doe: int)
    requires 0 <= doe < 146_097
    ensures EraOf(146_097 * era + doe) == era
  {
    var z := 146_097 * era + doe;
    assert z / 146_097 == era;
    if z < 0 {
      assert -(z - 146_096) == 146_097 * (-era) + (146_096 - doe);
    }
  }

  lemma ReadDay(y: int, mp: int, doy: int)
    requires 0 <= doy < 366 && mp == (5 * doy + 2) / 153
    ensures FromYearAndDay(y, doy) ==
              (if mp >= 10 then y + 1 else y, if mp < 10 then mp + 3 else mp - 9, doy - MonthStart(mp) + 1)
  {}

  /** A valid date comes back from its day number: for every year, before the epoch or after. */
  lemma CivilRoundTrip(d: Date)
    requires Valid(d)
    ensures CivilFromDays(DaysFromCivil(d.year, d.month, d.day)) == (d.year, d.month, d.day)
  {
    EraForm(d.year, d.month, d.day);
    MonthFits(d.year, d.month);
    CivilOfMarchDate(MarchYear(d.year, d.month), MarchMonth(d.month), d.day);
  }

  lemma MarchDateOf(days: int) returns (y: int, mp: int, day: int)
    ensures 0 <= mp <= 11 && day >= 1 && MonthStart(mp) + day - 1 < MonthEnd(y, mp) && MarchDays(y, mp, day) == days
  {
    var z := days + 719_468;
    var era, doe := z / 146_097, z % 146_097;
    var c, q, r, doy := SplitDay(doe);
    var yoe := 100 * c + 4 * q + r;
    y := 400 * era + yoe;
    YearOfParts(era, c, q, r);
    YearLengthInEra(y);
    mp := DayHasMonth(doy);
    day := doy - MonthStart(mp) + 1;
  }

  lemma YearOfParts(era: int, c: int, q: int, r: int)
    requires 0 <= c <= 3 && 0 <= q <= 24 && 0 <= r <= 3
    ensures var yoe := 100 * c + 4 * q + r;
            var y := 400 * era + yoe;
            y % 400 == yoe && YearStart(y) == 146_097 * era + 36_524 * c + 1_461 * q + 365 * r
  {
    var yoe := 100 * c + 4 * q + r;
    var y := 400 * era + yoe;
    assert y / 4 == 100 * era + 25 * c + q;
    assert y / 100 == 4 * era + c;
    assert y / 400 == era;
  }

  /** Every day number is that of a valid date. */
  lemma DaysRoundTrip(days: int) returns (d: Date)
    ensures Valid(d) && CivilFromDays(days) == (d.year, d.month as int, d.day as int)
    ensures DaysFromCivil(d.year, d.month, d.day) == days
  {
    var y, mp, day := MarchDateOf(days);
    CivilOfMarchDate(y, mp, day);
    d := Date(if mp >= 10 then y + 1 else y, if mp < 10 then mp + 3 else mp - 9, day);
    MonthFits(d.year, d.month);
    EraForm(d.year, d.month, d.day);
  }

  // ----- Days follow dates -----

  function Days(d: Date): int {
    DaysFromCivil(d.year, d.month, d.day)
  }

  predicate Before(a: Date, b: Date) {
    a.year < b.year || (a.year == b.year && (a.month < b.month || (a.month == b.month && a.day < b.day)))
  }

  function Next(d: Date): Date {
    if d.day < DaysInMonth(d.year, d.month) then Date(d.year, d.month, d.day + 1)
    else if d.month < 12 then Date(d.year, d.month + 1, 1)
    else Date(d.year + 1, 1, 1)
  }

  /** The next date has the next day number. */
  lemma NextDateIsNextDay(d: Date)
    requires Valid(d)
    ensures Valid(Next(d)) && Days(Next(d)) == Days(d) + 1
  {
    var e := Next(d);
    EraForm(d.year, d.month, d.day);
    EraForm(e.year, e.month, e.day);
    MonthFits(d.year, d.month);
    NextYearStart(MarchYear(d.year, d.month));
  }

  lemma DaysInOrder(a: Date, b: Date)
    requires Valid(a) && Valid(b) && Before(a, b)
    ensures Days(a) < Days(b)
  {
    var ya, yb, ma, mb := MarchYear(a.year, a.month), MarchYear(b.year,
        b.month), MarchMonth(a.month), MarchMonth(b.month);
    EraForm(a.year, a.month, a.day);
    EraForm(b.year, b.month, b.day);
    MonthFits(a.year, a.month);
    MonthFits(b.year, b.month);
    LastDayInYear(ya, ma);
    if ya < yb {
      YearsStartInOrder(ya, yb);
    } else if ma < mb {
      MonthsStartInOrder(ya, ma, mb);
    }
  }

  /** Dates and day numbers are ordered alike; with the round trips, an order isomorphism onto the integers. */
  lemma OrderOfDates(a: Date, b: Date)
    requires Valid(a) && Valid(b)
    ensures Days(a) < Days(b) <==> Before(a, b)
    ensures Days(a) == Days(b) <==> a == b
  {
    if Before(a, b) {
      DaysInOrder(a, b);
    } else if a != b {
      DaysInOrder(b, a);
    }
  }

  /** The Julian-day form shares all of this from the year 0 on. */
  lemma JulianDaysAreDays(d: Date)
    requires Valid(d) && d.year >= 0
    ensures DaysSinceEpoch(d.year, d.month, d.day) == Days(d)
  {
    JulianFormAgreesIff(d.year, d.month, d.day);
  }

  // ----- Instants: `epoch_ms_from_ymd` and back -----

  function EpochMsFromYmd(year: int, month: nat, day: nat): Option<nat> {
    if !(1 <= month <= 12) || !(1 <= day <= 31) then None
    else
      var days := DaysFromCivil(year, month, day);
      if days < 0 then None else Some(days * MILLIS_PER_DAY)
  }

  function CivilFromEpochMs(ms: nat): (int, int, int) {
    CivilFromDays(ms / MILLIS_PER_DAY)
  }

  /** The instant reads back as the date given exactly when the month has that day; the 31st of a shorter month, which
      is accepted, runs over into the next one. */
  lemma EpochRoundTripIff(year: int, month: nat, day: nat)
    requires EpochMsFromYmd(year, month, day).Some?
    ensures CivilFromEpochMs(EpochMsFromYmd(year, month, day).value) == (year, month, day) <==>
              day <= DaysInMonth(year, month)
  {
    var days := DaysFromCivil(year, month, day);
    assert days * MILLIS_PER_DAY / MILLIS_PER_DAY == days;
    if day <= DaysInMonth(year, month) {
      CivilRoundTrip(Date(year, month, day));
    } else {
      var d := DaysRoundTrip(days);
    }
  }

  // ----- Time windows -----

  datatype Season = Spring | Summer | Fall | Winter

  /** What the scan of a query finds: a full date, else a year with a season or a month, and the words qualifying the
      month. */
  datatype Query = Query(date: Option<Date>, year: Option<int>, season: Option<Season>, month: Option<nat>,
        lastWeek: bool, firstWeek: bool, day: Option<nat>)

  /** The ranges the scan checks before it accepts a number. */
  predicate Scanned(q: Query) {
    && (q.date.Some? ==> MIN_YEAR <= q.date.value.year <= MAX_YEAR && 1 <= q.date.value.month <= 12)
    && (q.date.Some? ==> 1 <= q.date.value.day <= MAX_DAY_OF_MONTH)
    && (q.year.Some? ==> MIN_YEAR <= q.year.value <= MAX_YEAR)
    && (q.month.Some? ==> 1 <= q.month.value <= 12)
    && (q.day.Some? ==> 1 <= q.day.value <= MAX_DAY_OF_MONTH)
  }

  const TWO_64: nat := 0x1_0000_0000_0000_0000

  /** The cast to an unsigned word wraps. */
  function MonthToMs(year: int, month: nat, day: nat): nat {
    DaysSinceEpoch(year, month, day) % TWO_64 * MILLIS_PER_DAY
  }

  function Months(s: Season): (nat, nat) {
    match s
    case Spring => (3, 5)
    case Summer => (6, 8)
    case Fall => (9, 11)
    case Winter => (12, 2)
  }

  /** First and last day of the window, as the source picks them. */
  function Ends(q: Query): Option<(Date, Date)>
    requires Scanned(q)
  {
    if q.date.Some? then
      var d := Date(q.date.value.year, q.date.value.month,
          Min(q.date.value.day, DaysInMonth(q.date.value.year, q.date.value.month)));
      Some((d, d))
    else if q.year.None? then None
    else if q.season.Some? then
      var year, ends := q.year.value, Months(q.season.value);
      var lastYear := if ends.1 < ends.0 then year + 1 else year;
      Some((Date(year, ends.0, 1), Date(lastYear, ends.1, DaysInMonth(lastYear, ends.1))))
    else if q.month.None? then None
    else
      var year, month := q.year.value, q.month.value;
      var dom := DaysInMonth(year, month);
      var weekStart := if dom < LAST_WEEK_DAY_OFFSET + 1 then 1 else dom - LAST_WEEK_DAY_OFFSET;
      if q.lastWeek then Some((Date(year, month, weekStart), Date(year, month, dom)))
      else if q.firstWeek then Some((Date(year, month, 1), Date(year, month, FIRST_WEEK_END_DAY)))
      else if q.day.Some? then
        var d := Date(year, month, Min(q.day.value, dom));
        Some((d, d))
      else Some((Date(year, month, 1), Date(year, month, dom)))
  }

  /** The absolute window of a query, in milliseconds, end excluded. */
  function Window(q: Query): Option<(nat, nat)>
    requires Scanned(q)
  {
    var ends := Ends(q);
    if ends.None? then None
    else
      var a, b := ends.value.0, ends.value.1;
      Some((MonthToMs(a.year, a.month, a.day), MonthToMs(b.year, b.month, b.day) + MILLIS_PER_DAY))
  }

  predicate InSeason(year: int, s: Season, d: Date) {
    match s
    case Spring => d.year == year && 3 <= d.month <= 5
    case Summer => d.year == year && 6 <= d.month <= 8
    case Fall => d.year == year && 9 <= d.month <= 11
    case Winter => (d.year == year && d.month == 12) || (d.year == year + 1 && d.month <= 2)
  }

  /** The dates a query is about. */
  predicate About(q: Query, d: Date) {
    if q.date.Some? then
      d == Date(q.date.value.year, q.date.value.month, Min(q.date.value.day, DaysInMonth(d.year, d.month)))
    else if q.year.None? then false
    else if q.season.Some? then InSeason(q.year.value, q.season.value, d)
    else if q.month.None? || d.year != q.year.value || d.month != q.month.value then false
    else if q.lastWeek then d.day + 7 > DaysInMonth(d.year, d.month)
    else if q.firstWeek then d.day <= 7
    else if q.day.Some? then d.day == Min(q.day.value, DaysInMonth(d.year, d.month))
    else true
  }

  lemma DaysBound(d: Date)
    requires Valid(d) && 1970 <= d.year <= MAX_YEAR + 1
    ensures 0 <= Days(d) <= 48_211
  {
    OrderOfDates(d, Date(1970, 1, 1));
    OrderOfDates(Date(2101, 12, 31), d);
    FirstAndLastDays();
  }

  lemma FirstAndLastDays()
    ensures Days(Date(1970, 1, 1)) == 0 && Days(Date(2101, 12, 31)) == 48_211
  {}

  lemma MsOfDate(d: Date)
    requires Valid(d) && 1970 <= d.year <= MAX_YEAR + 1
    ensures MonthToMs(d.year, d.month, d.day) == Days(d) * MILLIS_PER_DAY && Days(d) >= 0
  {
    JulianDaysAreDays(d);
    DaysBound(d);
  }

  lemma SpanCovers(a: Date, b: Date, d: Date, t: nat)
    requires Valid(a) && Valid(b) && Valid(d) && Days(d) == t / MILLIS_PER_DAY
    requires 1970 <= a.year <= MAX_YEAR + 1 && 1970 <= b.year <= MAX_YEAR + 1
    ensures MonthToMs(a.year, a.month, a.day) <= t < MonthToMs(b.year, b.month, b.day) + MILLIS_PER_DAY <==>
              !Before(d, a) && !Before(b, d)
  {
    MsOfDate(a);
    MsOfDate(b);
    OrderOfDates(d, a);
    OrderOfDates(b, d);
    var n, r := t / MILLIS_PER_DAY, t % MILLIS_PER_DAY;
    assert t == n * MILLIS_PER_DAY + r;
  }

  lemma EndsBound(q: Query, d: Date)
    requires Scanned(q) && Ends(q).Some? && Valid(d)
    ensures var ends := Ends(q).value;
            Valid(ends.0) && Valid(ends.1) && 1990 <= ends.0.year <= ends.1.year <= MAX_YEAR + 1
    ensures var ends := Ends(q).value; About(q, d) <==> !Before(d, ends.0) && !Before(ends.1, d)
  {}

  /** An instant lies in a query's window exactly when its date is one the query is about: a season is its three months,
      winter across the year end and leap Februaries included, and the weeks are seven days of the month. */
  lemma WindowCovers(q: Query, d: Date, t: nat)
    requires Scanned(q) && Window(q).Some? && Valid(d) && Days(d) == t / MILLIS_PER_DAY
    ensures Window(q).value.0 <= t < Window(q).value.1 <==> About(q, d)
  {
    EndsBound(q, d);
    SpanCovers(Ends(q).value.0, Ends(q).value.1, d, t);
  }

  /** Month windows tile time: each ends where the next begins. */
  lemma MonthWindowsTile(year: int, month: nat)
    requires MIN_YEAR <= year <= MAX_YEAR && 1 <= month <= 12
    ensures var next := Next(Date(year, month, DaysInMonth(year, month)));
            MonthToMs(year, month, DaysInMonth(year, month)) + MILLIS_PER_DAY == MonthToMs(next.year, next.month, 1)
  {
    var last := Date(year, month, DaysInMonth(year, month));
    NextDateIsNextDay(last);
    MsOfDate(last);
    MsOfDate(Next(last));
  }

  /** A query has a window exactly when it gives a date, or a year with a season or a month. */
  lemma WindowIff(q: Query)
    requires Scanned(q)
    ensures Window(q).Some? <==> q.date.Some? || (q.year.Some? && (q.season.Some? || q.month.Some?))
  {}

  lemma {:induction false} DayOfMonth(year: int, month: nat, day: nat)
    requires 1 <= month <= 12 && 1 <= day <= DaysInMonth(year, month)
    ensures Days(Date(year, month, day)) == Days(Date(year, month, 1)) + day - 1
  {
    if day > 1 {
      DayOfMonth(year, month, day - 1);
      NextDateIsNextDay(Date(year, month, day - 1));
    }
  }

  /** The instant at which the day `day` of a month begins. */
  function Start(year: int, month: nat, day: nat): int
    requires 1 <= month <= 12
  {
    (Days(Date(year, month, 1)) + day - 1) * MILLIS_PER_DAY
  }

  lemma DayStarts(year: int, month: nat, day: nat)
    requires 1970 <= year <= MAX_YEAR + 1 && 1 <= month <= 12 && 1 <= day <= DaysInMonth(year, month)
    ensures MonthToMs(year, month, day) == Start(year, month, day)
    ensures MonthToMs(year, month, day) + MILLIS_PER_DAY == Start(year, month, day + 1)
  {
    DayOfMonth(year, month, day);
    MsOfDate(Date(year, month, day));
  }

  lemma SpanStarts(q: Query, a: Date, b: Date)
    requires Scanned(q) && Ends(q) == Some((a, b))
    requires Valid(a) && Valid(b) && 1970 <= a.year <= MAX_YEAR + 1 && 1970 <= b.year <= MAX_YEAR + 1
    ensures Window(q) == Some((Start(a.year, a.month, a.day), Start(b.year, b.month, b.day + 1)))
  {
    DayStarts(a.year, a.month, a.day);
    DayStarts(b.year, b.month, b.day);
  }

  /** A full date gives its day, cut to the month. */
  lemma DateSpan(q: Query)
    requires Scanned(q) && q.date.Some?
    ensures var year, month := q.date.value.year, q.date.value.month;
            var day := Min(q.date.value.day, DaysInMonth(year, month));
            Window(q) == Some((Start(year, month, day), Start(year, month, day + 1)))
  {
    var ends := Ends(q).value;
    SpanStarts(q, ends.0, ends.1);
  }

  /** A year with a season gives the days from the first of its first month to the last of its third. */
  lemma SeasonSpan(q: Query)
    requires Scanned(q) && q.date.None? && q.year.Some? && q.season.Some?
    ensures var year := q.year.value;
            Window(q) ==
              match q.season.value
              case Spring => Some((Start(year, 3, 1), Start(year, 5, 32)))
              case Summer => Some((Start(year, 6, 1), Start(year, 8, 32)))
              case Fall => Some((Start(year, 9, 1), Start(year, 11, 31)))
              case Winter => Some((Start(year, 12, 1), Start(year + 1, 2, DaysInMonth(year + 1, 2) + 1)))
  {
    var ends := Ends(q).value;
    SpanStarts(q, ends.0, ends.1);
  }

  /** A year and month give the last seven days, the first seven, one day cut to the month, or all. */
  lemma MonthSpan(q: Query)
    requires Scanned(q) && q.date.None? && q.year.Some? && q.season.None? && q.month.Some?
    ensures var year, month := q.year.value, q.month.value;
            var length := DaysInMonth(year, month);
            Window(q) ==
              if q.lastWeek then Some((Start(year, month, length - 6), Start(year, month, length + 1)))
              else if q.firstWeek then Some((Start(year, month, 1), Start(year, month, 8)))
              else if q.day.Some? then
                Some((Start(year, month, Min(q.day.value, length)), Start(year, month, Min(q.day.value, length) + 1)))
              else Some((Start(year, month, 1), Start(year, month, length + 1)))
  {
    var ends := Ends(q).value;
    SpanStarts(q, ends.0, ends.1);
  }
}
