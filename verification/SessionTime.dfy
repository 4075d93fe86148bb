/**
 The time column of the session list: `YYYY-MM-DD HH:MM` in UTC. Reading the column
 back recovers the minute, so no two minutes print alike.
 */
module SessionTime {
  import opened Calendar

  function Digit(d: int): char
    requires 0 <= d < 10
  {
    '0' + d as char
  }

  /** Decimal digits, left-padded with zeros to at least `width`. */
  function Padded(n: nat, width: nat): (s: string)
    ensures |s| >= width
    ensures n < 100 && width == 2 ==> |s| == 2
    decreases n, width
  {
    if n < 10 && width <= 1 then [Digit(n)]
    else Padded(n / 10, if width == 0 then 0 else width - 1) + [Digit(n % 10)]
  }

  function Value(s: string): int {
    if s == "" then 0 else 10 * Value(s[..|s| - 1]) + (s[|s| - 1] as int - '0' as int)
  }

  lemma {:induction false} ValueOfPadded(n: nat, width: nat)
    ensures Value(Padded(n, width)) == n
    decreases n, width
  {
    var s := Padded(n, width);
    if n < 10 && width <= 1 {
      assert s[..0] == "";
    } else {
      var w := if width == 0 then 0 else width - 1;
      ValueOfPadded(n / 10, w);
      assert s[..|s| - 1] == Padded(n / 10, w);
    }
  }

  datatype Column = Column(date: Date, hour: int, minute: int)

  function Joined(year: string, month: string, day: string, hour: string, minute: string): string {
    year + ("-" + month + "-" + day + " " + hour + ":" + minute)
  }

  function Print(c: Column): string {
    Joined(Padded(Nat(c.date.year), 4), Padded(Nat(c.date.month), 2), Padded(Nat(c.date.day), 2),
           Padded(Nat(c.hour), 2), Padded(Nat(c.minute), 2))
  }

  function Nat(n: int): nat {
    if n < 0 then 0 else n
  }

  /** The printed column, given the conversion of day numbers. */
  function Formatted(civil: int -> Date, s: nat): string {
    Print(Column(civil(s / 86400), s % 86400 / 3600, s % 86400 % 3600 / 60))
  }

  /** Seconds since the epoch; a time before it counts as the epoch. */
  function FormatTime(seconds: int): string {
    Formatted(CivilFromDays, Nat(seconds))
  }

  /** The fields of a printed column; all but the year have fixed width. */
  function Read(s: string): Column
    requires |s| >= 12
  {
    var y := |s| - 12;
    Column(Date(Value(s[..y]), Value(s[y + 1..y + 3]), Value(s[y + 4..y + 6])), Value(s[y + 7..y + 9]), Value(s[y + 10..]))
  }

  lemma JoinedSlices(year: string, month: string, day: string, hour: string, minute: string)
    requires |month| == |day| == |hour| == |minute| == 2
    ensures var s := Joined(year, month, day, hour, minute);
            var y := |year|;
            && |s| == y + 12 && s[..y] == year && s[y + 1..y + 3] == month && s[y + 4..y + 6] == day
            && s[y + 7..y + 9] == hour && s[y + 10..] == minute
  {
    var tail := "-" + month + "-" + day + " " + hour + ":" + minute;
    assert tail[1..3] == month && tail[4..6] == day && tail[7..9] == hour && tail[10..] == minute;
    var s, y := year + tail, |year|;
    assert s[y + 1..y + 3] == tail[1..3] && s[y + 4..y + 6] == tail[4..6];
    assert s[y + 7..y + 9] == tail[7..9] && s[y + 10..] == tail[10..];
  }

  lemma PrintReadsBack(c: Column)
    requires Valid(c.date) && c.date.year >= 0 && 0 <= c.hour < 24 && 0 <= c.minute < 60
    ensures |Print(c)| >= 16
    ensures Read(Print(c)) == c
  {
    assert c.date.month < 100 && c.date.day < 100;
    JoinedSlices(Padded(c.date.year, 4), Padded(c.date.month, 2), Padded(c.date.day, 2),
                 Padded(c.hour, 2), Padded(c.minute, 2));
    ValueOfPadded(c.date.year, 4);
    ValueOfPadded(c.date.month, 2);
    ValueOfPadded(c.date.day, 2);
    ValueOfPadded(c.hour, 2);
    ValueOfPadded(c.minute, 2);
  }

  lemma YearNotNegative(date: Date)
    requires Valid(date) && DaysFromCivil(date) >= 0
    ensures date.year >= 1970
  {
    var y, doy, mp := MarchYear(date);
    if date.year < 1970 {
      YearStartMonotone(y + 1, if date.month <= 2 then 1969 else 1970);
    }
  }

  lemma Clock(seconds: nat) returns (days: nat, hour: nat, minute: nat)
    ensures days == seconds / 86400
    ensures hour == seconds % 86400 / 3600 && minute == seconds % 86400 % 3600 / 60
    ensures hour < 24 && minute < 60
    ensures seconds / 60 == days * 1440 + hour * 60 + minute
  {
    days, hour, minute := seconds / 86400, seconds % 86400 / 3600, seconds % 86400 % 3600 / 60;
  }

  /** Reading a printed time gives back its day, its hour and its minute. */
  lemma PrintedTimeReadsBack(civil: int -> Date, seconds: nat) returns (days: nat, hour: nat, minute: nat)
    requires Converts(civil)
    ensures |Formatted(civil, seconds)| >= 16
    ensures seconds / 60 == days * 1440 + hour * 60 + minute && hour < 24 && minute < 60
    ensures Formatted(civil, seconds) == Print(Column(civil(days), hour, minute))
    ensures Read(Formatted(civil, seconds)) == Column(civil(days), hour, minute)
    ensures DaysFromCivil(Read(Formatted(civil, seconds)).date) == days
  {
    days, hour, minute := Clock(seconds);
    YearNotNegative(civil(days));
    PrintReadsBack(Column(civil(days), hour, minute));
  }

  /** The time printed is the calendar's day, counted from 1970-01-01, and the minute of that
      day; a time before the epoch prints as the epoch. */
  lemma PrintsItsOwnTime(seconds: nat, early: int)
    requires early < 0
    ensures |FormatTime(seconds)| >= 16
    ensures var c := Read(FormatTime(seconds));
            && Valid(c.date) && IsDay(c.date, seconds / 86400)
            && 0 <= c.hour < 24 && 0 <= c.minute < 60 && c.hour * 60 + c.minute == seconds % 86400 / 60
    ensures FormatTime(early) == FormatTime(0)
  {
    CivilFromDaysConverts();
    var days, hour, minute := PrintedTimeReadsBack(CivilFromDays, seconds);
    var date := Read(FormatTime(seconds)).date;
    MinuteOfDay(seconds, days, hour, minute);
    CivilFromDaysIsTheCalendar(days, date);
  }

  lemma MinuteOfDay(seconds: nat, days: nat, hour: nat, minute: nat)
    requires seconds / 60 == days * 1440 + hour * 60 + minute && hour < 24 && minute < 60
    ensures days == seconds / 86400 && hour * 60 + minute == seconds % 86400 / 60
  {
  }

  /** Four digits or more for the year, two for each other field, and between them what stands
      between them in `YYYY-MM-DD HH:MM`. */
  lemma PrintsTheSeparators(seconds: nat)
    ensures |FormatTime(seconds)| >= 16
    ensures var s, y := FormatTime(seconds), |FormatTime(seconds)| - 12;
            && s[y] == '-' && s[y + 3] == '-' && s[y + 6] == ' ' && s[y + 9] == ':'
            && forall k | 0 <= k < |s| && k != y && k != y + 3 && k != y + 6 && k != y + 9 :: '0' <= s[k] <= '9'
  {
    var days, hour, minute := Clock(seconds);
    YearNotNegative(CivilFromDays(days));
    ColumnSeparators(Column(CivilFromDays(days), hour, minute));
  }

  lemma TwoDigits(n: nat)
    requires n < 100
    ensures Padded(n, 2) == [Digit(n / 10), Digit(n % 10)]
  {
    assert Padded(n / 10, 1) == [Digit(n / 10)];
  }

  lemma OneMoreDigit(n: nat, width: nat)
    requires width >= 2
    ensures Padded(n, width) == Padded(n / 10, width - 1) + [Digit(n % 10)]
  {
  }

  lemma FourDigits(n: nat)
    requires n < 10000
    ensures Padded(n, 4) == Padded(n / 100, 2) + Padded(n % 100, 2)
  {
    Hundreds(n);
    OneMoreDigit(n, 4);
    OneMoreDigit(n / 10, 3);
    TwoDigits(n % 100);
  }

  lemma Hundreds(n: nat)
    ensures n / 10 / 10 == n / 100 && n / 10 % 10 == n % 100 / 10 && n % 100 % 10 == n % 10
  {
  }

  /** Which digit stands where, for the years that four digits can hold. */
  lemma PrintsTheDigits(seconds: nat)
    ensures |FormatTime(seconds)| >= 16
    ensures var s, c := FormatTime(seconds), Read(FormatTime(seconds));
            0 <= c.date.year < 10000 ==>
              && |s| == 16 && DigitsAt(s, 5, c.date.month) && DigitsAt(s, 8, c.date.day)
              && DigitsAt(s, 11, c.hour) && DigitsAt(s, 14, c.minute)
              && DigitsAt(s, 0, c.date.year / 100) && DigitsAt(s, 2, c.date.year % 100)
  {
    CivilFromDaysConverts();
    var days, hour, minute := PrintedTimeReadsBack(CivilFromDays, seconds);
    DigitsOfColumn(FormatTime(seconds), Column(CivilFromDays(days), hour, minute));
  }

  lemma DigitsOfColumn(s: string, c: Column)
    requires Valid(c.date) && 0 <= c.hour < 24 && 0 <= c.minute < 60 && s == Print(c)
    ensures 0 <= c.date.year < 10000 ==>
              && |s| == 16 && DigitsAt(s, 5, c.date.month) && DigitsAt(s, 8, c.date.day)
              && DigitsAt(s, 11, c.hour) && DigitsAt(s, 14, c.minute)
              && DigitsAt(s, 0, c.date.year / 100) && DigitsAt(s, 2, c.date.year % 100)
  {
    if 0 <= c.date.year < 10000 {
      ColumnDigits(c);
    }
  }

  /** The two characters at `at` are the decimal digits of `n`. */
  predicate DigitsAt(s: string, at: nat, n: int)
    requires at + 2 <= |s|
  {
    s[at] as int - '0' as int == n / 10 && s[at + 1] as int - '0' as int == n % 10
  }

  lemma ColumnDigits(c: Column)
    requires Valid(c.date) && 0 <= c.date.year < 10000 && 0 <= c.hour < 24 && 0 <= c.minute < 60
    ensures var s := Print(c);
            && |s| == 16 && DigitsAt(s, 5, c.date.month) && DigitsAt(s, 8, c.date.day)
            && DigitsAt(s, 11, c.hour) && DigitsAt(s, 14, c.minute)
            && DigitsAt(s, 0, c.date.year / 100) && DigitsAt(s, 2, c.date.year % 100)
  {
    assert c.date.month < 100 && c.date.day < 100;
    FourDigits(c.date.year);
    TwoDigits(c.date.month);
    TwoDigits(c.date.day);
    TwoDigits(c.hour);
    TwoDigits(c.minute);
    TwoDigits(c.date.year / 100);
    TwoDigits(c.date.year % 100);
    var year, month, day, hour, minute := Padded(c.date.year, 4), Padded(c.date.month, 2), Padded(c.date.day, 2),
                                          Padded(c.hour, 2), Padded(c.minute, 2);
    JoinedSlices(year, month, day, hour, minute);
    var s := Print(c);
    assert s[0] == s[..4][0] && s[1] == s[..4][1] && s[2] == s[..4][2] && s[3] == s[..4][3];
    assert s[5] == s[5..7][0] && s[6] == s[5..7][1] && s[8] == s[8..10][0] && s[9] == s[8..10][1];
    assert s[11] == s[11..13][0] && s[12] == s[11..13][1] && s[14] == s[14..][0] && s[15] == s[14..][1];
  }

  lemma {:induction false} PaddedIsDigits(n: nat, width: nat)
    ensures forall k | 0 <= k < |Padded(n, width)| :: '0' <= Padded(n, width)[k] <= '9'
    decreases n, width
  {
    if !(n < 10 && width <= 1) {
      PaddedIsDigits(n / 10, if width == 0 then 0 else width - 1);
    }
  }

  lemma ColumnSeparators(c: Column)
    requires Valid(c.date) && c.date.year >= 0 && 0 <= c.hour < 24 && 0 <= c.minute < 60
    ensures |Print(c)| >= 16
    ensures var s, y := Print(c), |Print(c)| - 12;
            && s[y] == '-' && s[y + 3] == '-' && s[y + 6] == ' ' && s[y + 9] == ':'
            && forall k | 0 <= k < |s| && k != y && k != y + 3 && k != y + 6 && k != y + 9 :: '0' <= s[k] <= '9'
  {
    assert c.date.month < 100 && c.date.day < 100;
    PaddedIsDigits(c.date.year, 4);
    PaddedIsDigits(c.date.month, 2);
    PaddedIsDigits(c.date.day, 2);
    PaddedIsDigits(c.hour, 2);
    PaddedIsDigits(c.minute, 2);
    JoinedSeparators(Padded(c.date.year, 4), Padded(c.date.month, 2), Padded(c.date.day, 2),
                     Padded(c.hour, 2), Padded(c.minute, 2));
  }

  predicate AllDigits(s: string) {
    forall k | 0 <= k < |s| :: '0' <= s[k] <= '9'
  }

  lemma JoinedSeparators(year: string, month: string, day: string, hour: string, minute: string)
    requires |month| == |day| == |hour| == |minute| == 2
    requires AllDigits(year) && AllDigits(month) && AllDigits(day) && AllDigits(hour) && AllDigits(minute)
    ensures var s, y := Joined(year, month, day, hour, minute), |year|;
            && |s| == y + 12 && s[y] == '-' && s[y + 3] == '-' && s[y + 6] == ' ' && s[y + 9] == ':'
            && forall k | 0 <= k < |s| && k != y && k != y + 3 && k != y + 6 && k != y + 9 :: '0' <= s[k] <= '9'
  {
    var tail := "-" + month + "-" + day + " " + hour + ":" + minute;
    assert forall k | 0 <= k < |tail| && k != 0 && k != 3 && k != 6 && k != 9 :: '0' <= tail[k] <= '9';
    var s, y := year + tail, |year|;
    assert forall k | y <= k < |s| :: s[k] == tail[k - y];
  }

  lemma SameMinute(civil: int -> Date, a: nat, b: nat)
    requires Converts(civil)
    ensures Formatted(civil, a) == Formatted(civil, b) <==> a / 60 == b / 60
  {
    var da, ha, ma := PrintedTimeReadsBack(civil, a);
    var db, hb, mb := PrintedTimeReadsBack(civil, b);
    if a / 60 == b / 60 {
      SameClock(da, ha, ma, db, hb, mb);
    }
  }

  /** Two times print alike exactly when they fall in the same minute. */
  lemma SameColumnSameMinute(a: nat, b: nat)
    ensures FormatTime(a) == FormatTime(b) <==> a / 60 == b / 60
  {
    CivilFromDaysConverts();
    SameMinute(CivilFromDays, a, b);
  }

  lemma SameClock(da: nat, ha: nat, ma: nat, db: nat, hb: nat, mb: nat)
    requires ha < 24 && ma < 60 && hb < 24 && mb < 60
    requires da * 1440 + ha * 60 + ma == db * 1440 + hb * 60 + mb
    ensures da == db && ha == hb && ma == mb
  {
  }
}
