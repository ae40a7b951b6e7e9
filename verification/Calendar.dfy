/** The calendar on both sides of time(2): the kernel turns the clock chip's date into seconds, and the date command
    turns seconds back into a date. */
module Calendar {
  const DAY := 86400
  const WRAP := 0x1_0000_0000
  const HALF := 0x8000_0000

  datatype Date = Date(year: int, month: int, day: int, hour: int, minute: int, second: int)

  predicate IsLeap(y: int) {
    if y % 400 == 0 then true else if y % 100 == 0 then false else y % 4 == 0
  }

  function YearDays(y: int): (n: int)
    ensures 365 <= n <= 366
  {
    365 + if IsLeap(y) then 1 else 0
  }

  function MonthDays(y: int, m: int): (n: int)
    ensures 28 <= n <= 31
  {
    if m == 2 then (if IsLeap(y) then 29 else 28)
    else if m == 4 || m == 6 || m == 9 || m == 11 then 30
    else 31
  }

  /** Days from the start of 1970 to the start of a year, and from the start of a year to the start of a month. */
  function DaysToYear(y: int): nat
    requires y >= 1970
    decreases y
  {
    if y == 1970 then 0 else DaysToYear(y - 1) + YearDays(y - 1)
  }

  function DaysToMonth(y: int, m: int): nat
    requires 1 <= m <= 13
    decreases m
  {
    if m == 1 then 0 else DaysToMonth(y, m - 1) + MonthDays(y, m - 1)
  }

  predicate IsDate(d: Date) {
    && d.year >= 1970 && 1 <= d.month <= 12 && 1 <= d.day <= MonthDays(d.year, d.month)
    && 0 <= d.hour < 24 && 0 <= d.minute < 60 && 0 <= d.second < 60
  }

  /** Seconds from the start of 1970. */
  function Instant(d: Date): int
    requires d.year >= 1970 && 1 <= d.month <= 12
  {
    (DaysToYear(d.year) + DaysToMonth(d.year, d.month) + d.day - 1) * DAY + d.hour * 3600 + d.minute * 60 + d.second
  }

  /** The twelve months make the year. */
  lemma MonthsMakeYear(y: int)
    ensures DaysToMonth(y, 13) == YearDays(y)
  {
    assert DaysToMonth(y, 4) == DaysToMonth(y, 3) + 31 == DaysToMonth(y, 2) + MonthDays(y, 2) + 31;
    assert DaysToMonth(y, 7) == DaysToMonth(y, 4) + 91;
    assert DaysToMonth(y, 10) == DaysToMonth(y, 7) + 92;
    assert DaysToMonth(y, 13) == DaysToMonth(y, 10) + 92;
  }

  // ---- The same days in closed form, from the rules of the Gregorian calendar ----

  function Fourths(y: int): int {
    (y - 1969) / 4
  }

  function Hundredths(y: int): int {
    (y - 1901) / 100
  }

  function FourHundredths(y: int): int {
    (y - 1601) / 400
  }

  predicate Leap(y: int) {
    y % 4 == 0 && (y % 100 != 0 || y % 400 == 0)
  }

  /** Days from the start of 1970 to the first of a month: every fourth year a day more, but not every hundredth, and
      yet every four hundredth; months of 30 and 31 days in turn, with one more day in July and August, and February
      short by two days or one. */
  function DayNumber(y: int, m: int): int {
    365 * (y - 1970) + Fourths(y) - Hundredths(y) + FourHundredths(y)
    + (367 * m - 362) / 12 - if m <= 2 then 0 else if Leap(y) then 1 else 2
  }

  /** A date's seconds since 1970 without any table. */
  function Seconds(d: Date): int {
    (DayNumber(d.year, d.month) + d.day - 1) * 86400 + d.hour * 3600 + d.minute * 60 + d.second
  }

  lemma FourthsStep(y: int)
    ensures Fourths(y) == Fourths(y - 1) + if (y - 1) % 4 == 0 then 1 else 0
  {
    var q, r := (y - 1) / 4, (y - 1) % 4;
    By4(y - 1969, q - 492, r);
    if r == 0 {
      By4(y - 1970, q - 493, 3);
    } else {
      By4(y - 1970, q - 492, r - 1);
    }
  }

  lemma By4(a: int, q: int, r: int)
    requires a == 4 * q + r && 0 <= r < 4
    ensures a / 4 == q
  {
  }

  lemma HundredthsStep(y: int)
    ensures Hundredths(y) == Hundredths(y - 1) + if (y - 1) % 100 == 0 then 1 else 0
  {
    var q, r := (y - 1) / 100, (y - 1) % 100;
    By100(y - 1901, q - 19, r);
    if r == 0 {
      By100(y - 1902, q - 20, 99);
    } else {
      By100(y - 1902, q - 19, r - 1);
    }
  }

  lemma By100(a: int, q: int, r: int)
    requires a == 100 * q + r && 0 <= r < 100
    ensures a / 100 == q
  {
  }

  lemma FourHundredthsStep(y: int)
    ensures FourHundredths(y) == FourHundredths(y - 1) + if (y - 1) % 400 == 0 then 1 else 0
  {
    var q, r := (y - 1) / 400, (y - 1) % 400;
    By400(y - 1601, q - 4, r);
    if r == 0 {
      By400(y - 1602, q - 5, 399);
    } else {
      By400(y - 1602, q - 4, r - 1);
    }
  }

  lemma By400(a: int, q: int, r: int)
    requires a == 400 * q + r && 0 <= r < 400
    ensures a / 400 == q
  {
  }

  lemma LeapIs(y: int)
    ensures IsLeap(y) <==> Leap(y)
    ensures y % 400 == 0 ==> y % 100 == 0
    ensures y % 100 == 0 ==> y % 4 == 0
  {
    var q, c := y / 400, y / 100;
    if y % 400 == 0 {
      assert y == 100 * (4 * q);
    }
    if y % 100 == 0 {
      assert y == 4 * (25 * c);
    }
  }

  /** The leap years before y are the fourths without the hundredths and with the four hundredths. */
  lemma {:induction false} YearsInDays(y: int)
    requires y >= 1970
    ensures DaysToYear(y) == 365 * (y - 1970) + Fourths(y) - Hundredths(y) + FourHundredths(y)
    decreases y
  {
    hide Fourths, Hundredths, FourHundredths, IsLeap;
    if y == 1970 {
      assert Fourths(1970) == Hundredths(1970) == FourHundredths(1970) == 0 by { FirstYear(); }
    } else {
      YearsInDays(y - 1);
      FourthsStep(y);
      HundredthsStep(y);
      FourHundredthsStep(y);
      LeapIs(y - 1);
    }
  }

  lemma FirstYear()
    ensures Fourths(1970) == Hundredths(1970) == FourHundredths(1970) == 0
  {
  }

  lemma MonthsInDays(y: int, m: int)
    requires 1 <= m <= 12
    ensures DaysToMonth(y, m) == (367 * m - 362) / 12 - if m <= 2 then 0 else if Leap(y) then 1 else 2
  {
    hide IsLeap, Leap;
    LeapIs(y);
    assert DaysToMonth(y, 3) == 59 + if IsLeap(y) then 1 else 0;
    assert DaysToMonth(y, 6) == DaysToMonth(y, 3) + 92;
    assert DaysToMonth(y, 9) == DaysToMonth(y, 6) + 92;
    assert DaysToMonth(y, 12) == DaysToMonth(y, 9) + 91;
  }

  lemma InstantIs(d: Date)
    requires d.year >= 1970 && 1 <= d.month <= 12
    ensures Instant(d) == Seconds(d)
  {
    hide DaysToYear, DaysToMonth, Fourths, Hundredths, FourHundredths, Leap;
    YearsInDays(d.year);
    MonthsInDays(d.year, d.month);
  }

  /** The days of a month are the days to the first of the next. */
  lemma MonthIs(y: int, m: int)
    requires y >= 1970 && 1 <= m <= 12
    ensures MonthDays(y, m) == if m == 12 then DayNumber(y + 1, 1) - DayNumber(y, 12)
                               else DayNumber(y, m + 1) - DayNumber(y, m)
  {
    hide DaysToYear, MonthDays, YearDays, Fourths, Hundredths, FourHundredths, Leap;
    YearsInDays(y);
    YearsInDays(y + 1);
    MonthsInDays(y, m);
    assert DaysToMonth(y, m + 1) == DaysToMonth(y, m) + MonthDays(y, m);
    if m == 12 {
      MonthsMakeYear(y);
      MonthsInDays(y + 1, 1);
      assert DaysToYear(y + 1) == DaysToYear(y) + YearDays(y) by { NextYear(y); }
    } else {
      MonthsInDays(y, m + 1);
    }
  }

  lemma NextYear(y: int)
    requires y >= 1970
    ensures DaysToYear(y + 1) == DaysToYear(y) + YearDays(y)
  {
  }

  /** The kernel's table of days before each month. */
  method DaysBeforeMonth(y: int, m: int) returns (d: int)
    ensures d == if 1 <= m <= 12 then DaysToMonth(y, m) else 0
  {
    var table := [0, 31, 59, 90, 120, 151, 181, 212, 243, 273, 304, 334];
    if m < 1 || m > 12 {
      return 0;
    }
    d := table[m - 1];
    if m > 2 && IsLeap(y) {
      d := d + 1;
    }
    assert DaysToMonth(y, 3) == 59 + if IsLeap(y) then 1 else 0;
    assert DaysToMonth(y, 6) == DaysToMonth(y, 3) + 92;
    assert DaysToMonth(y, 9) == DaysToMonth(y, 6) + 92;
    assert DaysToMonth(y, 12) == DaysToMonth(y, 9) + 91;
  }

  /** What 32 unsigned bits keep of a number. */
  function U32(x: int): int {
    x % WRAP
  }

  lemma U32Is(x: int)
    ensures U32(x) == x % 0x1_0000_0000
  {
  }

  lemma AddWraps(a: int, b: int)
    ensures U32(U32(a) + b) == U32(a + b)
  {
  }

  lemma ScaleWraps(days: int, rest: int)
    ensures U32(U32(days) * DAY + rest) == U32(days * DAY + rest)
  {
    var q, r := days / WRAP, days % WRAP;
    assert days * DAY + rest == (q * DAY) * WRAP + (r * DAY + rest);
  }

  /** utc_mktime(): 32-bit unsigned arithmetic; 0 for what is not a date even roughly. */
  method Mktime(d: Date) returns (t: int)
    ensures t == if d.year < 1970 || d.month < 1 || d.month > 12 || d.day < 1 || d.day > 31 then 0
                 else Seconds(d) % 0x1_0000_0000
    ensures t != 0 ==> t == U32(Instant(d))
  {
    hide U32, DaysToMonth;
    if d.year < 1970 || d.month < 1 || d.month > 12 || d.day < 1 || d.day > 31 {
      return 0;
    }
    var days := U32(0);
    var y := 1970;
    while y < d.year
      invariant 1970 <= y <= d.year && days == U32(DaysToYear(y))
    {
      hide U32, DaysToMonth;
      AddWraps(DaysToYear(y), YearDays(y));
      days := U32(days + YearDays(y));
      y := y + 1;
    }
    var before := DaysBeforeMonth(d.year, d.month);
    AddWraps(DaysToYear(d.year), before);
    days := U32(days + before);
    AddWraps(DaysToYear(d.year) + before, d.day - 1);
    days := U32(days + (d.day - 1));
    ScaleWraps(DaysToYear(d.year) + before + (d.day - 1), d.hour * 3600 + d.minute * 60 + d.second);
    t := U32(days * DAY + (d.hour * 3600 + d.minute * 60 + d.second));
    InstantIs(d);
    assert U32(Seconds(d)) == Seconds(d) % 0x1_0000_0000 by { U32Is(Seconds(d)); }
  }

  /** The year a day count falls in, and the days into it. */
  function SplitYear(y: int, days: int): (int, int)
    decreases days
  {
    if days < YearDays(y) then (y, days) else SplitYear(y + 1, days - YearDays(y))
  }

  function SplitMonth(y: int, m: int, days: int): (int, int)
    decreases days
  {
    if days < MonthDays(y, m) then (m, days) else SplitMonth(y, m + 1, days - MonthDays(y, m))
  }

  lemma {:induction false} SplitYearIs(y: int, days: nat)
    requires y >= 1970
    ensures var (y', rest) := SplitYear(y, days);
            y' >= y && 0 <= rest < YearDays(y') && DaysToYear(y) + days == DaysToYear(y') + rest
    decreases days
  {
    if days >= YearDays(y) {
      SplitYearIs(y + 1, days - YearDays(y));
    }
  }

  lemma {:induction false} SplitMonthIs(y: int, m: int, days: nat)
    requires 1 <= m <= 12 && DaysToMonth(y, m) + days < YearDays(y)
    ensures var (m', rest) := SplitMonth(y, m, days);
            m <= m' <= 12 && 0 <= rest < MonthDays(y, m') && DaysToMonth(y, m) + days == DaysToMonth(y, m') + rest
    decreases days
  {
    hide YearDays, MonthDays;
    MonthsMakeYear(y);
    if days >= MonthDays(y, m) {
      SplitMonthIs(y, m + 1, days - MonthDays(y, m));
    }
  }

  /** The C quotient and remainder, which truncate toward zero. */
  function Quot(a: int, b: int): int
    requires b > 0
  {
    if a >= 0 then a / b else -(-a / b)
  }

  function Rem(a: int, b: int): int
    requires b > 0
  {
    a - b * Quot(a, b)
  }

  /** What unix_to_tm() makes of a 32-bit signed number, whatever its sign. */
  function TmOf(t: int): Date {
    var days, sod := Quot(t, DAY), Rem(t, DAY);
    var (y, inYear) := SplitYear(1970, days);
    var (m, inMonth) := SplitMonth(y, 1, inYear);
    Date(y, m, inMonth + 1, Quot(sod, 3600), Rem(Quot(sod, 60), 60), Rem(sod, 60))
  }

  function Weekday(t: int): int {
    Rem(Quot(t, DAY) + 4, 7)
  }

  /** unix_to_tm() */
  method UnixToTm(t: int) returns (d: Date, weekday: int)
    ensures d == TmOf(t) && weekday == Weekday(t)
    ensures t >= 0 ==> IsDate(d) && Seconds(d) == t && weekday == (t / 86400 + 4) % 7
  {
    var days, sod := Quot(t, DAY), Rem(t, DAY);
    var second, minute, hour := Rem(sod, 60), Rem(Quot(sod, 60), 60), Quot(sod, 3600);
    var y := 1970;
    while days >= YearDays(y)
      invariant SplitYear(y, days) == SplitYear(1970, Quot(t, DAY))
      decreases days
    {
      days := days - YearDays(y);
      y := y + 1;
    }
    var m := 1;
    ghost var inYear := days;
    while days >= MonthDays(y, m)
      invariant SplitMonth(y, m, days) == SplitMonth(y, 1, inYear)
      decreases days
    {
      days := days - MonthDays(y, m);
      m := m + 1;
    }
    d := Date(y, m, days + 1, hour, minute, second);
    weekday := Rem(Quot(t, DAY) + 4, 7);
    if t >= 0 {
      TmIsDate(t);
    }
  }

  /** Seconds to a date and back: for every second from 1970 on the result is a date, and the date of that second. */
  lemma TmIsDate(t: nat)
    ensures IsDate(TmOf(t)) && Instant(TmOf(t)) == Seconds(TmOf(t)) == t
  {
    hide DaysToYear, DaysToMonth, SplitYear, SplitMonth, DayNumber;
    var days, sod := t / DAY, t % DAY;
    SplitYearIs(1970, days);
    var (y, inYear) := SplitYear(1970, days);
    Starts(y);
    SplitMonthIs(y, 1, inYear);
    Clock(sod);
    InstantIs(TmOf(t));
  }

  /** Hours, minutes and seconds of a second of the day. */
  lemma Clock(sod: nat)
    requires sod < DAY
    ensures var h, m, s := sod / 3600, sod / 60 % 60, sod % 60;
            h < 24 && m < 60 && s < 60 && h * 3600 + m * 60 + s == sod
  {
    var minutes := sod / 60;
    assert sod == 60 * minutes + sod % 60;
    Hours(sod, minutes / 60);
  }

  lemma Hours(sod: nat, h: nat)
    requires 3600 * h <= sod < 3600 * h + 3600
    ensures sod / 3600 == h
  {
  }

  lemma Starts(y: int)
    ensures DaysToYear(1970) == 0 && DaysToMonth(y, 1) == 0
  {
  }

  lemma {:induction false} YearsGrow(y: int, z: int)
    requires 1970 <= y < z
    ensures DaysToYear(y) + YearDays(y) <= DaysToYear(z)
    decreases z
  {
    if y < z - 1 {
      YearsGrow(y, z - 1);
    }
  }

  lemma {:induction false} MonthsGrow(y: int, m: int, n: int)
    requires 1 <= m < n <= 13
    ensures DaysToMonth(y, m) + MonthDays(y, m) <= DaysToMonth(y, n)
    decreases n
  {
    if m < n - 1 {
      MonthsGrow(y, m, n - 1);
    }
  }

  predicate Before(d: Date, e: Date) {
    || d.year < e.year
    || (d.year == e.year && (d.month < e.month
       || (d.month == e.month && (d.day < e.day
          || (d.day == e.day && d.hour * 3600 + d.minute * 60 + d.second < e.hour * 3600 + e.minute * 60 + e.second)))))
  }

  function DayOf(d: Date): int
    requires d.year >= 1970 && 1 <= d.month <= 12
  {
    DaysToYear(d.year) + DaysToMonth(d.year, d.month) + d.day - 1
  }

  lemma DaysOrdered(d: Date, e: Date)
    requires IsDate(d) && IsDate(e) && Before(d, e)
    ensures if (d.year, d.month, d.day) == (e.year, e.month, e.day) then DayOf(d) == DayOf(e) else DayOf(d) < DayOf(e)
  {
    hide DaysToYear, DaysToMonth;
    if d.year < e.year {
      YearsGrow(d.year, e.year);
      MonthsGrow(d.year, d.month, 13);
      MonthsMakeYear(d.year);
    } else if d.month < e.month {
      MonthsGrow(d.year, d.month, e.month);
    }
  }

  /** Later dates are later seconds, so no two dates share one. */
  lemma Ordered(d: Date, e: Date)
    requires IsDate(d) && IsDate(e) && Before(d, e)
    ensures Instant(d) < Instant(e)
  {
    hide DaysToYear, DaysToMonth;
    DaysOrdered(d, e);
  }

  lemma SameInstant(d: Date, e: Date)
    requires IsDate(d) && IsDate(e) && Instant(d) == Instant(e)
    ensures d == e
  {
    hide DaysToYear, DaysToMonth, Instant;
    if Before(d, e) {
      Ordered(d, e);
    } else if Before(e, d) {
      Ordered(e, d);
    }
    assert d.hour * 3600 + d.minute * 60 + d.second == e.hour * 3600 + e.minute * 60 + e.second;
  }

  /** An unsigned word read as a signed one. */
  function Signed(u: int): int {
    if u >= HALF then u - WRAP else u
  }

  /** What date prints for a time before 1970 is in January 1970, whatever it was. */
  lemma NegativeTime(t: int)
    requires t < 0
    ensures TmOf(t).year == 1970 && TmOf(t).month == 1
  {
    assert Quot(t, DAY) <= 0;
  }

  /** The clock's date comes back as it was exactly until the seconds no longer fit a signed word, in 2038. */
  lemma ClockRoundTrip(d: Date)
    requires IsDate(d)
    ensures TmOf(Signed(U32(Instant(d)))) == d <==> Instant(d) < HALF
  {
    hide DaysToYear, DaysToMonth, TmOf, Instant, Seconds, DayNumber;
    InstantPositive(d);
    var t := Signed(U32(Instant(d)));
    if t >= 0 {
      TmIsDate(t);
      if Instant(d) == t {
        SameInstant(d, TmOf(t));
      }
    } else {
      NegativeTime(t);
      if d.year == 1970 {
        EarlyDates(d);
      }
    }
  }

  lemma InstantPositive(d: Date)
    requires IsDate(d)
    ensures Instant(d) >= 0
  {
  }

  lemma EarlyDates(d: Date)
    requires IsDate(d) && d.year == 1970
    ensures Instant(d) < HALF
  {
    hide DaysToMonth;
    MonthsGrow(1970, d.month, 13);
    MonthsMakeYear(1970);
  }

  /** The weekday starts at Thursday and moves on by one each day. */
  lemma WeekdayMoves(t: nat)
    ensures Weekday(0) == 4 && 0 <= Weekday(t) < 7 && Weekday(t + DAY) == (Weekday(t) + 1) % 7
  {
    assert (t + DAY) / DAY == t / DAY + 1;
  }

  /** Before 1970 the remainder can be negative: the weekday is one exactly when this many days are not too few. */
  lemma WeekdayRange(t: int)
    ensures 0 <= Weekday(t) < 7 <==> Quot(t, DAY) + 4 >= 0 || (Quot(t, DAY) + 4) % 7 == 0
  {
    var x := Quot(t, DAY) + 4;
    if x < 0 {
      assert -x == 7 * (-x / 7) + -x % 7;
      assert Rem(x, 7) == -(-x % 7);
    }
  }

  // ---- The first dates that go wrong ----

  lemma {:induction false} YearsAhead(y: int)
    requires 1970 <= y
    ensures DaysToYear(y + 4) == DaysToYear(y) + YearDays(y) + YearDays(y + 1) + YearDays(y + 2) + YearDays(y + 3)
  {
    assert DaysToYear(y + 4) == DaysToYear(y + 3) + YearDays(y + 3);
    assert DaysToYear(y + 3) == DaysToYear(y + 2) + YearDays(y + 2);
    assert DaysToYear(y + 2) == DaysToYear(y + 1) + YearDays(y + 1);
  }

  lemma FourDays(y: int)
    requires 1970 <= y <= 2095 && y % 4 == 2
    ensures YearDays(y) + YearDays(y + 1) + YearDays(y + 2) + YearDays(y + 3) == 1461
  {
    hide IsLeap;
    LeapHere(y);
    LeapHere(y + 1);
    LeapHere(y + 2);
    LeapHere(y + 3);
  }

  lemma LeapHere(y: int)
    requires 1970 <= y < 2100
    ensures IsLeap(y) <==> y % 4 == 0
  {
    if y % 100 == 0 {
      assert y == 100 * (y / 100);
      assert y / 100 == 20;
    }
  }

  /** Up to 2098 every fourth year is a leap year. */
  lemma {:induction false} FourYears(k: nat)
    requires k <= 17
    ensures DaysToYear(1970 + 4 * k) == 1461 * k
  {
    hide YearDays;
    if k > 0 {
      FourYears(k - 1);
      YearsAhead(1970 + 4 * (k - 1));
      FourDays(1970 + 4 * (k - 1));
    }
  }

  /** Fourteen minutes and eight seconds past three on 19 January 2038 is the first that does not come back. */
  lemma FirstLost()
    ensures var d := Date(2038, 1, 19, 3, 14, 8);
            IsDate(d) && Instant(d) == HALF && TmOf(Signed(U32(Instant(d)))) != d
  {
    var d := Date(2038, 1, 19, 3, 14, 8);
    FourYears(17);
    assert DaysToMonth(2038, 1) == 0;
    ClockRoundTrip(d);
  }

  /** Five days before 1970 the weekday is -1. */
  lemma WeekdayLost()
    ensures Weekday(-5 * DAY) == -1
  {
  }
}
