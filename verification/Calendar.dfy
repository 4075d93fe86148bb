/**
 Day numbers to civil dates, as the session list prints them. `CivilFromDays` is the
 era-based division of the source; the reference is the calendar itself: a leap-year
 rule, month lengths, and the successor of a date.
 */
module Calendar {

  datatype Date = Date(year: int, month: int, day: int)

  // ----- the calendar (reference)

  predicate Leap(year: int) {
    year % 4 == 0 && (year % 100 != 0 || year % 400 == 0)
  }

  function MonthLength(year: int, month: int): int {
    if month == 2 then (if Leap(year) then 29 else 28)
    else if month == 4 || month == 6 || month == 9 || month == 11 then 30
    else 31
  }

  predicate Valid(date: Date) {
    1 <= date.month <= 12 && 1 <= date.day <= MonthLength(date.year, date.month)
  }

  /** The day after, by the calendar's own rules. */
  function Successor(date: Date): Date {
    if date.day < MonthLength(date.year, date.month) then Date(date.year, date.month, date.day + 1)
    else if date.month < 12 then Date(date.year, date.month + 1, 1)
    else Date(date.year + 1, 1, 1)
  }

  const EPOCH := Date(1970, 1, 1)

  /** The date `n` days after the epoch (before it, when negative), one day at a time. */
  ghost predicate IsDay(date: Date, n: int)
    decreases if n < 0 then -n else n
  {
    if n == 0 then date == EPOCH
    else if n > 0 then exists before :: Valid(before) && IsDay(before, n - 1) && date == Successor(before)
    else Valid(date) && IsDay(Successor(date), n + 1)
  }

  // ----- the source's arithmetic

  /** Division of a 64-bit integer rounds towards zero. */
  function TruncDiv(a: int, b: int): int
    requires b > 0
  {
    if a >= 0 then a / b else -((-a) / b)
  }

  function Era(z: int): int {
    TruncDiv(if z >= 0 then z else z - 146096, 146097)
  }

  function YearOfEra(doe: int): int {
    (doe - doe / 1460 + doe / 36524 - doe / 146096) / 365
  }

  function DayOfYear(doe: int, yoe: int): int {
    doe - (365 * yoe + yoe / 4 - yoe / 100)
  }

  /** Every day number is a day of the calendar, and its date gives the number back. */
  function CivilFromDays(days: int): (date: Date)
    ensures Valid(date)
    ensures DaysFromCivil(date) == days
  {
    var z := days + 719468;
    var era := Era(z);
    var doe := z - era * 146097;
    var yoe := YearOfEra(doe);
    PartsOfDay(z, era, doe, yoe);
    PartsAreADate(yoe + era * 400, DayOfYear(doe, yoe));
    InMarchYear(yoe + era * 400, DayOfYear(doe, yoe))
  }

  /** The month and day of a day of the year that begins in March, as the source finds them. */
  function InMarchYear(year: int, doy: int): Date {
    var mp := (5 * doy + 2) / 153;
    var day := doy - (153 * mp + 2) / 5 + 1;
    var month := if mp < 10 then mp + 3 else mp - 9;
    Date(if month <= 2 then year + 1 else year, month, day)
  }

  // ----- day numbers of dates

  /** Days from the epoch to a date: whole years counted from March, then months, then days. */
  function DaysFromCivil(date: Date): int {
    var y := if date.month <= 2 then date.year - 1 else date.year;
    var mp := if date.month <= 2 then date.month + 9 else date.month - 3;
    YearStart(y) + MonthStart(mp) + date.day - 1 - 719468
  }

  /** Days from 1 March of year 0 to 1 March of year `y`. */
  function YearStart(y: int): int {
    365 * y + y / 4 - y / 100 + y / 400
  }

  /** Days from 1 March to the first of the month `mp` months later. */
  function MonthStart(mp: int): int {
    (153 * mp + 2) / 5
  }

  lemma EraIsFloor(z: int)
    ensures 0 <= z - Era(z) * 146097 < 146097
    ensures Era(z) == z / 146097
  {
  }

  /** An era is four centuries, a century 25 four-year cycles (the last one short unless
      it ends the era), a cycle four years; `e` is the day of the March year. */
  ghost predicate Parts(doe: int, c: int, q: int, t: int, e: int) {
    && 0 <= c < 4 && 0 <= q < 25 && 0 <= t < 4 && 0 <= e
    && doe == 36524 * c + 1461 * q + 365 * t + e
    && e <= (if t == 3 && (q < 24 || c == 3) then 365 else 364)
  }

  lemma PartsOf(doe: int) returns (c: int, q: int, t: int, e: int)
    requires 0 <= doe < 146097
    ensures Parts(doe, c, q, t, e)
  {
    c := if doe == 146096 then 3 else doe / 36524;
    var r := doe - 36524 * c;
    q := r / 1461;
    var s := r - 1461 * q;
    t := if s == 1460 then 3 else s / 365;
    e := s - 365 * t;
  }

  lemma YearOfParts(doe: int, c: int, q: int, t: int, e: int)
    requires Parts(doe, c, q, t, e)
    ensures YearOfEra(doe) == 100 * c + 4 * q + t
  {
    var x := 24 * c + q + 365 * t + e;
    assert doe == 1460 * (25 * c + q) + x;
    assert doe / 1460 == 25 * c + q + (if x >= 1460 then 1 else 0);
    assert doe / 36524 == c + (if 1461 * q + 365 * t + e >= 36524 then 1 else 0);
    assert doe / 146096 == if doe == 146096 then 1 else 0;
  }

  lemma YearStartOfParts(c: int, q: int, t: int)
    requires 0 <= c < 4 && 0 <= q < 25 && 0 <= t < 4
    ensures YearStart(100 * c + 4 * q + t) == 36524 * c + 1461 * q + 365 * t
    ensures YearStart(100 * c + 4 * q + t + 1) ==
              36524 * c + 1461 * q + 365 * t + (if t == 3 && (q < 24 || c == 3) then 366 else 365)
  {
    var y := 100 * c + 4 * q + t;
    assert y / 4 == 25 * c + q;
    assert y / 100 == c;
    assert y / 400 == 0;
  }

  /** The March year that contains day `doe` of an era. */
  lemma YearOfEraIsRight(doe: int)
    requires 0 <= doe < 146097
    ensures 0 <= YearOfEra(doe) < 400
    ensures YearStart(YearOfEra(doe)) <= doe < YearStart(YearOfEra(doe) + 1)
  {
    var c, q, t, e := PartsOf(doe);
    YearOfParts(doe, c, q, t, e);
    YearStartOfParts(c, q, t);
  }

  lemma YearStartOfEra(era: int, yoe: int)
    ensures YearStart(era * 400 + yoe) == era * 146097 + YearStart(yoe)
  {
    assert (era * 400 + yoe) / 4 == era * 100 + yoe / 4;
    assert (era * 400 + yoe) / 100 == era * 4 + yoe / 100;
    assert (era * 400 + yoe) / 400 == era + yoe / 400;
  }

  /** The March year beginning in `y` is as long as the calendar year after it. */
  lemma YearLength(y: int)
    ensures YearStart(y + 1) - YearStart(y) == if Leap(y + 1) then 366 else 365
  {
    StepDiv(y, 4);
    StepDiv(y, 100);
    StepDiv(y, 400);
    assert (y + 1) % 100 == 0 ==> (y + 1) % 4 == 0;
    assert (y + 1) % 400 == 0 ==> (y + 1) % 100 == 0;
  }

  lemma StepDiv(y: int, k: int)
    requires k == 4 || k == 100 || k == 400
    ensures (y + 1) / k - y / k == if (y + 1) % k == 0 then 1 else 0
  {
  }

  /** A day of the March year falls in exactly one of its months. */
  lemma MonthOfDay(doy: int)
    requires 0 <= doy <= 365
    ensures 0 <= (5 * doy + 2) / 153 < 12
    ensures MonthStart((5 * doy + 2) / 153) <= doy < MonthStart((5 * doy + 2) / 153 + 1)
  {
  }

  function CalendarMonth(mp: int): int {
    if mp < 10 then mp + 3 else mp - 9
  }

  /** The months from March on have the lengths of the calendar; February takes what is left. */
  lemma MonthLengths(year: int, mp: int)
    requires 0 <= mp < 11
    ensures MonthStart(mp + 1) - MonthStart(mp) == MonthLength(year, CalendarMonth(mp))
  {
  }

  /** Putting the era back: the day of the year, counted in the year's own terms. */
  lemma EraYear(z: int, era: int, doe: int, yoe: int)
    requires z == era * 146097 + doe && 0 <= yoe < 400
    requires YearStart(yoe) <= doe < YearStart(yoe + 1)
    ensures z == YearStart(yoe + era * 400) + DayOfYear(doe, yoe)
    ensures 0 <= DayOfYear(doe, yoe) < YearStart(yoe + era * 400 + 1) - YearStart(yoe + era * 400)
  {
    YearStartOfEra(era, yoe);
    YearStartOfEra(era, yoe + 1);
    DayOfYearIs(doe, yoe);
  }

  lemma DayOfYearIs(doe: int, yoe: int)
    requires 0 <= yoe < 400
    ensures DayOfYear(doe, yoe) == doe - YearStart(yoe)
  {
    assert yoe / 400 == 0;
  }

  /** The March year and the day in it that the source computes for a day number. */
  lemma PartsOfDay(z: int, era: int, doe: int, yoe: int)
    requires era == Era(z) && doe == z - era * 146097 && yoe == YearOfEra(doe)
    ensures z == YearStart(yoe + era * 400) + DayOfYear(doe, yoe)
    ensures 0 <= DayOfYear(doe, yoe) < YearStart(yoe + era * 400 + 1) - YearStart(yoe + era * 400)
  {
    EraIsFloor(z);
    YearOfEraIsRight(doe);
    EraYear(z, era, doe, yoe);
  }

  lemma PartsAreADate(y: int, doy: int)
    requires 0 <= doy < YearStart(y + 1) - YearStart(y)
    ensures Valid(InMarchYear(y, doy)) && DaysFromCivil(InMarchYear(y, doy)) == YearStart(y) + doy - 719468
  {
    var mp := (5 * doy + 2) / 153;
    YearLength(y);
    MonthOfDay(doy);
    if mp < 11 {
      MonthLengths(if CalendarMonth(mp) <= 2 then y + 1 else y, mp);
    }
  }

  /** Advancing the date by the calendar's rules advances the day number by one. */
  lemma SuccessorIsNextDay(date: Date)
    requires Valid(date)
    ensures Valid(Successor(date))
    ensures DaysFromCivil(Successor(date)) == DaysFromCivil(date) + 1
  {
    YearLength(date.year - 1);
    if date.day == MonthLength(date.year, date.month) && date.month != 2 {
      var mp := if date.month == 1 then 10 else date.month - 3;
      MonthLengths(date.year, mp);
    }
  }

  /** No two dates share a day number: the inverse in the other direction. */
  lemma CivilFromDaysInverts(date: Date)
    requires Valid(date)
    ensures CivilFromDays(DaysFromCivil(date)) == date
  {
    Injective(CivilFromDays(DaysFromCivil(date)), date);
  }

  lemma {:induction false} YearStartMonotone(a: int, b: int)
    requires a <= b
    ensures YearStart(a) <= YearStart(b)
    decreases b - a
  {
    if a < b {
      YearStartMonotone(a, b - 1);
      YearLength(b - 1);
    }
  }

  /** Day of the March year, and how it is bounded by the year's length. */
  lemma MarchYear(date: Date) returns (y: int, doy: int, mp: int)
    requires Valid(date)
    ensures y == if date.month <= 2 then date.year - 1 else date.year
    ensures date.month == CalendarMonth(mp) && 0 <= mp < 12
    ensures doy == MonthStart(mp) + date.day - 1
    ensures MonthStart(mp) <= doy && (mp < 11 ==> doy < MonthStart(mp + 1))
    ensures 0 <= doy < YearStart(y + 1) - YearStart(y)
    ensures DaysFromCivil(date) == YearStart(y) + doy - 719468
  {
    y := if date.month <= 2 then date.year - 1 else date.year;
    mp := if date.month <= 2 then date.month + 9 else date.month - 3;
    doy := MonthStart(mp) + date.day - 1;
    YearLength(y);
    if mp < 11 {
      MonthLengths(date.year, mp);
    }
  }

  lemma Injective(a: Date, b: Date)
    requires Valid(a) && Valid(b)
    ensures DaysFromCivil(a) == DaysFromCivil(b) ==> a == b
  {
    if DaysFromCivil(a) == DaysFromCivil(b) {
      var ya, da, ma := MarchYear(a);
      var yb, db, mb := MarchYear(b);
      SameYear(ya, da, yb, db);
      SameMonth(da, ma, mb);
    }
  }

  lemma SameYear(ya: int, da: int, yb: int, db: int)
    requires 0 <= da < YearStart(ya + 1) - YearStart(ya)
    requires 0 <= db < YearStart(yb + 1) - YearStart(yb)
    requires YearStart(ya) + da == YearStart(yb) + db
    ensures ya == yb && da == db
  {
    if ya < yb {
      YearStartMonotone(ya + 1, yb);
    } else if yb < ya {
      YearStartMonotone(yb + 1, ya);
    }
  }

  lemma SameMonth(doy: int, ma: int, mb: int)
    requires 0 <= ma < 12 && 0 <= mb < 12
    requires MonthStart(ma) <= doy && (ma < 11 ==> doy < MonthStart(ma + 1))
    requires MonthStart(mb) <= doy && (mb < 11 ==> doy < MonthStart(mb + 1))
    ensures ma == mb
  {
    if ma < mb {
      MonthStartMonotone(ma + 1, mb);
    } else if mb < ma {
      MonthStartMonotone(mb + 1, ma);
    }
  }

  lemma MonthStartMonotone(a: int, b: int)
    requires 0 <= a <= b
    ensures MonthStart(a) <= MonthStart(b)
  {
  }

  /** What the conversion has to be: a date of the calendar with the right day count. */
  ghost predicate Converts(civil: int -> Date) {
    forall n :: Valid(civil(n)) && DaysFromCivil(civil(n)) == n
  }

  lemma CivilFromDaysConverts()
    ensures Converts(CivilFromDays)
  {
  }

  /** Of any such conversion day d + 1 is the calendar successor of day d, leap rules and
      negative eras included. */
  lemma NextDayIsSuccessor(civil: int -> Date, days: int)
    requires Converts(civil)
    ensures civil(days + 1) == Successor(civil(days))
  {
    DayAfter(civil(days), civil(days + 1));
  }

  lemma DayAfter(today: Date, tomorrow: Date)
    requires Valid(today) && Valid(tomorrow)
    ensures DaysFromCivil(tomorrow) == DaysFromCivil(today) + 1 ==> tomorrow == Successor(today)
  {
    SuccessorIsNextDay(today);
    Injective(tomorrow, Successor(today));
  }

  /** Only one date has a given successor. */
  lemma SuccessorInjective(a: Date, b: Date)
    requires Valid(a) && Valid(b) && Successor(a) == Successor(b)
    ensures a == b
  {
    SuccessorIsNextDay(a);
    SuccessorIsNextDay(b);
    Injective(a, b);
  }

  /** Counting days reaches at most one date. */
  lemma {:induction false} DayIsUnique(a: Date, b: Date, n: int)
    requires Valid(a) && Valid(b) && IsDay(a, n) && IsDay(b, n)
    ensures a == b
    decreases if n < 0 then -n else n
  {
    if n > 0 {
      var a' :| Valid(a') && IsDay(a', n - 1) && a == Successor(a');
      var b' :| Valid(b') && IsDay(b', n - 1) && b == Successor(b');
      DayIsUnique(a', b', n - 1);
    } else if n < 0 {
      SuccessorIsNextDay(a);
      SuccessorIsNextDay(b);
      DayIsUnique(Successor(a), Successor(b), n + 1);
      SuccessorInjective(a, b);
    }
  }

  /** A conversion that moves to the calendar successor when the day number grows by one. */
  ghost predicate Follows(f: int -> Date, n: int) {
    Valid(f(n)) && f(n + 1) == Successor(f(n))
  }

  /** Starting at the epoch and following the calendar leaves no freedom at all. */
  lemma {:induction false} FollowingIsCounting(f: int -> Date, n: int)
    requires f(0) == EPOCH && forall k :: Follows(f, k)
    ensures IsDay(f(n), n)
    decreases if n < 0 then -n else n
  {
    if n > 0 {
      assert Follows(f, n - 1);
      FollowingIsCounting(f, n - 1);
    } else if n < 0 {
      assert Follows(f, n);
      FollowingIsCounting(f, n + 1);
    }
  }

  /** So of the source's. */
  lemma CivilFromDaysFollows(days: int)
    ensures Follows(CivilFromDays, days)
  {
    CivilFromDaysConverts();
    NextDayIsSuccessor(CivilFromDays, days);
  }

  /** So a conversion that gives day 0 as the epoch is the calendar. */
  lemma ConversionIsTheCalendar(civil: int -> Date, days: int, date: Date)
    requires Converts(civil) && civil(0) == EPOCH && Valid(date)
    ensures IsDay(date, days) <==> date == civil(days)
  {
    forall k ensures Follows(civil, k) {
      NextDayIsSuccessor(civil, k);
    }
    FollowingIsCounting(civil, days);
    if IsDay(date, days) {
      DayIsUnique(date, civil(days), days);
    }
  }

  lemma EpochComesBack(days: int)
    requires days == DaysFromCivil(EPOCH)
    ensures CivilFromDays(days) == EPOCH
  {
    Injective(CivilFromDays(days), EPOCH);
  }

  lemma EpochIsDayZero()
    ensures DaysFromCivil(EPOCH) == 0
  {
  }

  lemma DayZero()
    ensures CivilFromDays(0) == EPOCH
  {
    EpochIsDayZero();
    EpochComesBack(0);
  }

  /** The conversion is the calendar counted from 1970-01-01 in either direction: for
      every day number it gives the one date that counting reaches. */
  lemma CivilFromDaysIsTheCalendar(days: int, date: Date)
    requires Valid(date)
    ensures IsDay(date, days) <==> date == CivilFromDays(days)
  {
    DayZero();
    CivilFromDaysConverts();
    ConversionIsTheCalendar(CivilFromDays, days, date);
  }

  /** Inside the range `format_time` can pass, no intermediate value leaves 64 bits and no
      unsigned subtraction goes below zero. */
  lemma NoOverflow(days: int)
    requires 0 <= days <= 0xFFFF_FFFF_FFFF_FFFF / 86400
    ensures var z := days + 719468;
            var doe := z - Era(z) * 146097;
            var yoe := YearOfEra(doe);
            && 0 <= z < 0x8000_0000_0000_0000
            && 0 <= doe - doe / 1460 <= doe && doe / 146096 <= doe - doe / 1460 + doe / 36524
            && 0 <= 365 * yoe + yoe / 4 - yoe / 100 <= doe
            && 0 <= DayOfYear(doe, yoe) <= 365
            && 0 <= YearOfEra(doe) + Era(z) * 400 < 0x8000_0000_0000_0000
  {
    var z := days + 719468;
    EraIsFloor(z);
    var doe := z - Era(z) * 146097;
    YearOfEraIsRight(doe);
    var yoe := YearOfEra(doe);
    YearLength(yoe);
    assert yoe / 400 == 0;
  }
}
