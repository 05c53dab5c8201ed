/** The day a client names to the server, from a count of days since 1970-01-01. The
    calendar is the Gregorian one of RFC 3339, section 5.7 for the months and appendix C
    for the leap years. */
module CivilDay {

  datatype Date = Date(year: int, month: int, day: int)

  // ----- the calendar -----

  predicate IsLeap(year: int)
  {
    year % 4 == 0 && (year % 100 != 0 || year % 400 == 0)
  }

  function DaysIn(year: int, month: int): int
  {
    if month == 2 then (if IsLeap(year) then 29 else 28)
    else if month == 4 || month == 6 || month == 9 || month == 11 then 30
    else 31
  }

  predicate IsDate(date: Date)
  {
    1 <= date.month <= 12 && 1 <= date.day <= DaysIn(date.year, date.month)
  }

  function NextDay(date: Date): Date
  {
    if date.day < DaysIn(date.year, date.month) then date.(day := date.day + 1)
    else if date.month < 12 then Date(date.year, date.month + 1, 1)
    else Date(date.year + 1, 1, 1)
  }

  /** The calendar, day by day. */
  function DaysAfterEpoch(n: nat): Date
  {
    if n == 0 then Date(1970, 1, 1) else NextDay(DaysAfterEpoch(n - 1))
  }

  predicate Before(a: Date, b: Date)
  {
    a.year < b.year || (a.year == b.year && (a.month < b.month || (a.month == b.month && a.day < b.day)))
  }

  // ----- the arithmetic -----

  /** The year within an era of 400, counted from 1 March, that a day of the era falls in. */
  function YearOfEra(doe: int): int
  {
    (doe - doe / 1460 + doe / 36524 - doe / 146096) / 365
  }

  /** The date of a day of a year that starts on 1 March. */
  function DateIn(year: int, doy: int): Date
  {
    var mp := (5 * doy + 2) / 153;
    var day := doy - (153 * mp + 2) / 5 + 1;
    var month := if mp < 10 then mp + 3 else mp - 9;
    Date(if month <= 2 then year + 1 else year, month, day)
  }

  function Today(days: int): Date
  {
    var z := days + 719468;
    var era, doe := z / 146097, z % 146097;
    var yoe := YearOfEra(doe);
    var doy := doe - (365 * yoe + yoe / 4 - yoe / 100);
    DateIn(yoe + era * 400, doy)
  }

  // ----- years from March -----

  /** The days before a year's 1 March. */
  function March(year: int): int
  {
    365 * year + year / 4 - year / 100 + year / 400
  }

  lemma MarchStep(year: int)
    ensures March(year + 1) - March(year) == (if IsLeap(year + 1) then 366 else 365)
  {
    FloorStep(year, 4);
    FloorStep(year, 100);
    FloorStep(year, 400);
    Hundreds(year + 1);
  }

  lemma FloorStep(x: int, k: int)
    requires k == 4 || k == 100 || k == 400
    ensures (x + 1) / k - x / k == (if (x + 1) % k == 0 then 1 else 0)
  {
    if k == 4 {
    } else if k == 100 {
    } else {
    }
  }

  lemma Hundreds(x: int)
    ensures (x % 400 == 0 ==> x % 100 == 0) && (x % 100 == 0 ==> x % 4 == 0)
  {
  }

  lemma {:induction false} MarchGrows(a: int, b: int)
    requires a <= b
    ensures March(b) - March(a) >= 365 * (b - a)
    decreases b - a
  {
    if a < b {
      MarchGrows(a, b - 1);
      MarchStep(b - 1);
    }
    hide March, IsLeap;
  }

  /** A day lies in one year only. */
  lemma OneYear(z: int, a: int, b: int)
    requires March(a) <= z < March(a + 1) && March(b) <= z < March(b + 1)
    ensures a == b
  {
    if a < b {
      MarchGrows(a + 1, b);
    } else if b < a {
      MarchGrows(b + 1, a);
    }
    hide March;
  }

  // ----- the year of a day -----

  /** The years of one century of the era: t years in, of r days. */
  lemma YearOfCentury(c: int, r: int) returns (t: int)
    requires 0 <= c < 4 && 0 <= r < 36524
    ensures 0 <= t < 100 && t == (r - (24 * c + r) / 1460) / 365
    ensures 365 * t + t / 4 <= r
    ensures r < 365 * (t + 1) + (t + 1) / 4 - (t + 1) / 100
  {
    var q, s := r / 1461, r % 1461;
    var x := (24 * c + r) / 1460;
    assert r == 1461 * q + s && 0 <= q <= 24;
    LeapDaysPassed(c, q, s);
    t := (r - x) / 365;
    if s < 365 {
      assert t == 4 * q;
    } else if s < 730 {
      assert t == 4 * q + 1;
    } else if s < 1095 {
      assert t == 4 * q + 2;
    } else {
      assert t == 4 * q + 3;
    }
  }

  /** The fourth of a day's leap days is counted only late in its fourth year. */
  lemma LeapDaysPassed(c: int, q: int, s: int)
    requires 0 <= c < 4 && 0 <= q <= 24 && 0 <= s < 1461
    ensures var x := (24 * c + 1461 * q + s) / 1460; x == q || (x == q + 1 && s >= 1364)
    ensures s == 1460 ==> (24 * c + 1461 * q + s) / 1460 == q + 1
  {
    var over := 24 * c + q + s;
    assert 24 * c + 1461 * q + s == 1460 * q + over;
    assert (1460 * q + over) / 1460 == q + over / 1460;
  }

  lemma YearOfEraIsRight(doe: int)
    requires 0 <= doe < 146097
    ensures var y := YearOfEra(doe); 0 <= y < 400 && March(y) <= doe < March(y + 1)
  {
    if doe == 146096 {
      assert YearOfEra(doe) == 399;
    } else {
      var c, r := doe / 36524, doe % 36524;
      assert doe == 36524 * c + r;
      var t := YearOfCentury(c, r);
      CenturyShift(c, r);
      assert YearOfEra(doe) == 100 * c + t;
      MarchInCentury(c, t);
      MarchInCentury(c, t + 1);
    }
  }

  lemma CenturyShift(c: int, r: int)
    requires 0 <= c < 4 && 0 <= r < 36524
    ensures YearOfEra(36524 * c + r) == 100 * c + (r - (24 * c + r) / 1460) / 365
  {
    var doe := 36524 * c + r;
    assert doe == 1460 * (25 * c) + (24 * c + r);
    assert doe / 1460 == 25 * c + (24 * c + r) / 1460;
    assert doe / 36524 == c;
    assert doe / 146096 == 0;
    var w := r - (24 * c + r) / 1460;
    assert doe - doe / 1460 + doe / 36524 - doe / 146096 == 365 * (100 * c) + w;
    assert (365 * (100 * c) + w) / 365 == 100 * c + w / 365;
  }

  lemma MarchInCentury(c: int, t: int)
    requires 0 <= c < 4 && 0 <= t <= 100
    ensures March(100 * c + t) == 36524 * c + 365 * t + t / 4 - t / 100 + (100 * c + t) / 400
  {
    assert (100 * c + t) / 4 == 25 * c + t / 4;
    assert (100 * c + t) / 100 == c + t / 100;
  }

  lemma EraShift(era: int, y: int)
    ensures March(y + era * 400) == March(y) + 146097 * era
  {
    assert (y + era * 400) / 4 == y / 4 + 100 * era;
    assert (y + era * 400) / 100 == y / 100 + 4 * era;
    assert (y + era * 400) / 400 == y / 400 + era;
  }

  // ----- the whole -----

  /** The March year and the day of it that a day number stands for. */
  predicate Stands(days: int, year: int, doy: int)
  {
    days + 719468 == March(year) + doy && 0 <= doy < March(year + 1) - March(year)
  }

  lemma TodayStands(days: int) returns (year: int, doy: int)
    ensures Stands(days, year, doy) && Today(days) == DateIn(year, doy)
  {
    hide *;
    var z := days + 719468;
    var era, doe := z / 146097, z % 146097;
    var yoe := YearOfEra(doe);
    YearOfEraIsRight(doe);
    MarchInEra(yoe);
    EraShift(era, yoe);
    EraShift(era, yoe + 1);
    year := yoe + era * 400;
    doy := doe - March(yoe);
    StandsIn(days, era, doe, yoe);
    TodayUnfolds(days);
  }

  lemma TodayUnfolds(days: int)
    ensures var z := days + 719468; var yoe := YearOfEra(z % 146097);
      Today(days) == DateIn(yoe + z / 146097 * 400, z % 146097 - (365 * yoe + yoe / 4 - yoe / 100))
  {
    hide YearOfEra, DateIn;
  }

  lemma MarchInEra(yoe: int)
    requires 0 <= yoe < 400
    ensures March(yoe) == 365 * yoe + yoe / 4 - yoe / 100
  {
  }

  lemma StandsIn(days: int, era: int, doe: int, yoe: int)
    requires days + 719468 == 146097 * era + doe && March(yoe) <= doe < March(yoe + 1)
    requires March(yoe + era * 400) == March(yoe) + 146097 * era
    requires March(yoe + 1 + era * 400) == March(yoe + 1) + 146097 * era
    ensures Stands(days, yoe + era * 400, doe - March(yoe))
  {
    hide March;
    assert yoe + era * 400 + 1 == yoe + 1 + era * 400;
  }

  /** Any March year and day that a day number stands for give the date of that day. */
  lemma StandingIsUnique(days: int, a: int, i: int, b: int, j: int)
    requires Stands(days, a, i) && Stands(days, b, j)
    ensures a == b && i == j
  {
    OneYear(days + 719468, a, b);
  }

  lemma DateInIsDate(year: int, doy: int)
    requires 0 <= doy < 365 || (doy == 365 && IsLeap(year + 1))
    ensures IsDate(DateIn(year, doy))
  {
    var mp := (5 * doy + 2) / 153;
    assert 0 <= mp <= 11;
    hide IsLeap;
  }

  lemma DateInSteps(year: int, doy: int)
    requires 0 <= doy < 364 || (doy == 364 && IsLeap(year + 1))
    ensures DateIn(year, doy + 1) == NextDay(DateIn(year, doy))
  {
    var mp := (5 * doy + 2) / 153;
    assert 0 <= mp <= 11;
    hide IsLeap;
  }

  lemma YearEnds(year: int, doy: int)
    requires doy == (if IsLeap(year + 1) then 365 else 364)
    ensures DateIn(year + 1, 0) == NextDay(DateIn(year, doy))
  {
    hide IsLeap;
  }

  lemma TodayIsADate(days: int)
    ensures IsDate(Today(days))
  {
    var year, doy := TodayStands(days);
    MarchStep(year);
    hide March, IsLeap, IsDate, DateIn, Today;
    DateInIsDate(year, doy);
  }

  /** The day after is the day after: over month ends, leap days, centuries and eras. */
  lemma TomorrowFollows(days: int)
    ensures Today(days + 1) == NextDay(Today(days))
  {
    var year, doy := TodayStands(days);
    var year', doy' := TodayStands(days + 1);
    MarchStep(year);
    MarchStep(year + 1);
    hide March, IsLeap, DateIn, Today, NextDay;
    if Stands(days + 1, year, doy + 1) {
      StandingIsUnique(days + 1, year, doy + 1, year', doy');
      DateInSteps(year, doy);
    } else {
      assert Stands(days + 1, year + 1, 0);
      StandingIsUnique(days + 1, year + 1, 0, year', doy');
      YearEnds(year, doy);
    }
  }

  /** Day 0 is 1 January 1970, and every later day is the calendar's. */
  lemma {:induction false} TodayIsTheCalendars(n: nat)
    ensures Today(n) == DaysAfterEpoch(n)
    decreases n
  {
    hide Today, NextDay;
    if n == 0 {
      DayZero();
    } else {
      TodayIsTheCalendars(n - 1);
      TomorrowFollows(n - 1);
    }
  }

  lemma DayZero()
    ensures Today(0) == Date(1970, 1, 1)
  {
    assert 719468 / 146097 == 4 && 719468 % 146097 == 135080;
    assert YearOfEra(135080) == 369;
  }

  lemma NextIsLater(date: Date)
    requires IsDate(date)
    ensures Before(date, NextDay(date))
  {
  }

  /** Later days have later dates; so no two days share one. */
  lemma {:induction false} DatesGrow(a: int, b: int)
    requires a < b
    ensures Before(Today(a), Today(b))
    decreases b - a
  {
    hide Today, NextDay, IsDate;
    TodayIsADate(b - 1);
    NextIsLater(Today(b - 1));
    TomorrowFollows(b - 1);
    if a < b - 1 {
      DatesGrow(a, b - 1);
    }
  }
}
