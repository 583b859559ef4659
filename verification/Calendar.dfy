/** days_from_civil of src/rtc.c against the rules of the proleptic Gregorian calendar. */
module Calendar {
  datatype Date = Date(y: int, m: int, d: int)

  // ----- The rules -----

  predicate Leap(y: int) {
    y % 4 == 0 && (y % 100 != 0 || y % 400 == 0)
  }

  function MonthLength(y: int, m: int): int {
    if m == 2 then (if Leap(y) then 29 else 28)
    else if m == 4 || m == 6 || m == 9 || m == 11 then 30
    else 31
  }

  predicate ValidDate(t: Date) {
    1 <= t.m <= 12 && 1 <= t.d <= MonthLength(t.y, t.m)
  }

  /** The day after. */
  function Next(t: Date): (n: Date)
    requires ValidDate(t)
    ensures ValidDate(n)
  {
    if t.d < MonthLength(t.y, t.m) then t.(d := t.d + 1)
    else if t.m < 12 then Date(t.y, t.m + 1, 1)
    else Date(t.y + 1, 1, 1)
  }

  function Previous(t: Date): (p: Date)
    requires ValidDate(t)
    ensures ValidDate(p) && Next(p) == t
  {
    if t.d > 1 then t.(d := t.d - 1)
    else if t.m > 1 then Date(t.y, t.m - 1, MonthLength(t.y, t.m - 1))
    else Date(t.y - 1, 12, 31)
  }

  predicate Before(a: Date, b: Date) {
    a.y < b.y || (a.y == b.y && (a.m < b.m || (a.m == b.m && a.d < b.d)))
  }

  // ----- The code -----

  /** Division as C does it, towards zero. */
  function TruncDiv(a: int, b: int): int
    requires b > 0
  {
    if a >= 0 then a / b else -((-a) / b)
  }

  /** Days from the start of era 0 to the first of March that starts year `y` of the March calendar. */
  function YearStart(y: int): int {
    var era := TruncDiv(if y >= 0 then y else y - 399, 400);
    var yoe := y - era * 400;
    era * 146097 + (yoe * 365 + TruncDiv(yoe, 4) - TruncDiv(yoe, 100))
  }

  /** Day of the year that starts in March. */
  function DayOfYear(m: int, d: int): int {
    TruncDiv(153 * (m + (if m > 2 then -3 else 9)) + 2, 5) + d - 1
  }

  function DaysFromCivil(t: Date): int {
    var y := if t.m <= 2 then t.y - 1 else t.y;
    YearStart(y) + DayOfYear(t.m, t.d) - 719468
  }

  // ----- Days count days -----

  /** The era of a year is its floor, whatever its sign. */
  lemma EraIsFloor(y: int)
    ensures TruncDiv(if y >= 0 then y else y - 399, 400) == y / 400
  {
  }

  /** Days from the start of an era to year `yoe` of it. */
  function InEra(yoe: int): int {
    yoe * 365 + yoe / 4 - yoe / 100
  }

  lemma YearStartIs(y: int)
    ensures YearStart(y) == y / 400 * 146097 + InEra(y % 400)
  {
    EraIsFloor(y);
    assert y - y / 400 * 400 == y % 400;
  }

  lemma InEraStep(yoe: int)
    requires 0 <= yoe < 399
    ensures InEra(yoe + 1) == InEra(yoe) + if Leap(yoe + 1) then 366 else 365
  {
    QuotientStep(yoe, 4);
    QuotientStep(yoe, 100);
    assert (yoe + 1) % 400 == yoe + 1;
    if (yoe + 1) % 100 == 0 {
      assert yoe + 1 == 4 * (25 * ((yoe + 1) / 100));
    }
  }

  lemma QuotientStep(a: int, n: int)
    requires a >= 0 && (n == 4 || n == 100)
    ensures (a + 1) / n == a / n + if (a + 1) % n == 0 then 1 else 0
  {
  }

  /** The rule repeats every 400 years. */
  lemma LeapRepeats(y: int)
    ensures Leap(y) <==> Leap(y % 400)
  {
    var q := y / 400;
    assert y == 400 * q + y % 400;
    Remainder(100 * q, 4, y % 400);
    Remainder(4 * q, 100, y % 400);
  }

  lemma Remainder(k: int, n: int, r: int)
    requires n == 4 || n == 100
    ensures (n * k + r) % n == r % n
  {
  }

  /** A March year is as long as the February it ends with makes it. */
  lemma YearLength(y: int)
    ensures YearStart(y + 1) == YearStart(y) + if Leap(y + 1) then 366 else 365
  {
    YearStartIs(y);
    YearStartIs(y + 1);
    LeapRepeats(y + 1);
    if y % 400 == 399 {
      assert (y + 1) / 400 == y / 400 + 1 && (y + 1) % 400 == 0;
    } else {
      assert (y + 1) / 400 == y / 400 && (y + 1) % 400 == y % 400 + 1;
      InEraStep(y % 400);
    }
  }

  /** The next day is one more, across ends of months, leap days, centuries and negative years. */
  lemma NextIsOneMore(t: Date)
    requires ValidDate(t)
    ensures DaysFromCivil(Next(t)) == DaysFromCivil(t) + 1
  {
    if t.d == MonthLength(t.y, t.m) {
      if t.m == 2 {
        YearLength(t.y - 1);
        assert DayOfYear(2, t.d) == 336 + t.d && DayOfYear(3, 1) == 0;
      } else if t.m == 12 {
        assert DayOfYear(12, 31) == 305 && DayOfYear(1, 1) == 306;
      } else {
        MonthStep(t.m);
      }
    }
  }

  lemma MonthStep(m: int)
    requires 1 <= m < 12 && m != 2
    ensures DayOfYear(m + 1, 1) == DayOfYear(m, MonthLength(0, m)) + 1
  {
  }

  lemma EpochIsZero()
    ensures DaysFromCivil(Date(1970, 1, 1)) == 0
  {
  }

  // ----- Order -----

  lemma {:induction false} MonthsApart(y: int, m: int, m': int)
    requires 1 <= m < m' <= 12
    ensures DaysFromCivil(Date(y, m, MonthLength(y, m))) < DaysFromCivil(Date(y, m', 1))
    decreases m' - m
  {
    NextIsOneMore(Date(y, m, MonthLength(y, m)));
    if m + 1 < m' {
      MonthsApart(y, m + 1, m');
    }
  }

  lemma {:induction false} YearsApart(y: int, y': int)
    requires y < y'
    ensures DaysFromCivil(Date(y, 12, 31)) < DaysFromCivil(Date(y', 1, 1))
    decreases y' - y
  {
    NextIsOneMore(Date(y, 12, 31));
    if y + 1 < y' {
      WithinYear(Date(y + 1, 1, 1));
      YearsApart(y + 1, y');
    }
  }

  lemma SameMonth(y: int, m: int, d: int, d': int)
    ensures DaysFromCivil(Date(y, m, d')) == DaysFromCivil(Date(y, m, d)) + d' - d
  {
  }

  lemma WithinYear(t: Date)
    requires ValidDate(t)
    ensures DaysFromCivil(Date(t.y, 1, 1)) <= DaysFromCivil(t) <= DaysFromCivil(Date(t.y, 12, 31))
  {
    FromJanuary(t);
    ToDecember(t);
  }

  lemma FromJanuary(t: Date)
    requires ValidDate(t)
    ensures DaysFromCivil(Date(t.y, 1, 1)) <= DaysFromCivil(t)
  {
    SameMonth(t.y, t.m, 1, t.d);
    if t.m > 1 {
      SameMonth(t.y, 1, 1, 31);
      MonthsApart(t.y, 1, t.m);
    }
  }

  lemma ToDecember(t: Date)
    requires ValidDate(t)
    ensures DaysFromCivil(t) <= DaysFromCivil(Date(t.y, 12, 31))
  {
    SameMonth(t.y, t.m, t.d, MonthLength(t.y, t.m));
    if t.m < 12 {
      SameMonth(t.y, 12, 1, 31);
      MonthsApart(t.y, t.m, 12);
    }
  }

  /** A later date has a larger number. */
  lemma Increasing(a: Date, b: Date)
    requires ValidDate(a) && ValidDate(b) && Before(a, b)
    ensures DaysFromCivil(a) < DaysFromCivil(b)
  {
    if a.y < b.y {
      WithinYear(a);
      WithinYear(b);
      YearsApart(a.y, b.y);
    } else {
      SameMonth(a.y, a.m, a.d, MonthLength(a.y, a.m));
      SameMonth(a.y, a.m, a.d, b.d);
      SameMonth(b.y, b.m, 1, b.d);
      if a.m < b.m {
        MonthsApart(a.y, a.m, b.m);
      }
    }
  }

  /** No two dates share a number. */
  lemma OneToOne(a: Date, b: Date)
    requires ValidDate(a) && ValidDate(b) && DaysFromCivil(a) == DaysFromCivil(b)
    ensures a == b
  {
    if Before(a, b) {
      Increasing(a, b);
    } else if Before(b, a) {
      Increasing(b, a);
    }
  }

  // ----- No gaps -----

  /** The date `n` days after the epoch, found by counting days. */
  function Civil(n: int): (t: Date)
    ensures ValidDate(t)
    decreases if n < 0 then -n else n
  {
    if n == 0 then Date(1970, 1, 1)
    else if n > 0 then Next(Civil(n - 1))
    else Previous(Civil(n + 1))
  }

  /** Every number is the number of a date. */
  lemma {:induction false} CivilHasNumber(n: int)
    ensures DaysFromCivil(Civil(n)) == n
    decreases if n < 0 then -n else n
  {
    if n == 0 {
      EpochIsZero();
    } else if n > 0 {
      CivilHasNumber(n - 1);
      NextIsOneMore(Civil(n - 1));
    } else {
      CivilHasNumber(n + 1);
      NextIsOneMore(Previous(Civil(n + 1)));
    }
  }

  /** days_from_civil is the inverse of counting days. */
  lemma CivilOfDays(t: Date)
    requires ValidDate(t)
    ensures Civil(DaysFromCivil(t)) == t
  {
    CivilHasNumber(DaysFromCivil(t));
    OneToOne(Civil(DaysFromCivil(t)), t);
  }

  // ----- The epoch -----

  /** The time of day on a date. */
  datatype Time = Time(date: Date, hour: int, minute: int, second: int)

  /** rtc_epoch: seconds since 1970, 0 before it. */
  function Epoch(t: Time): nat {
    if Seconds(t) < 0 then 0 else Seconds(t)
  }

  predicate ValidTime(t: Time) {
    ValidDate(t.date) && 0 <= t.hour < 24 && 0 <= t.minute < 60 && 0 <= t.second < 60
  }

  /** The clock one second later. */
  function NextSecond(t: Time): (n: Time)
    requires ValidTime(t)
    ensures ValidTime(n)
  {
    if t.second < 59 then t.(second := t.second + 1)
    else if t.minute < 59 then t.(minute := t.minute + 1, second := 0)
    else if t.hour < 23 then Time(t.date, t.hour + 1, 0, 0)
    else Time(Next(t.date), 0, 0, 0)
  }

  lemma SinceEpoch(t: Date)
    requires ValidDate(t)
    ensures DaysFromCivil(t) >= 0 <==> t.y >= 1970
  {
    EpochIsZero();
    if t.y < 1970 {
      Increasing(t, Date(1970, 1, 1));
    } else if t != Date(1970, 1, 1) {
      Increasing(Date(1970, 1, 1), t);
    }
  }

  /** The seconds of a time, before they are cut off at 0. */
  function Seconds(t: Time): int {
    DaysFromCivil(t.date) * 86400 + t.hour * 3600 + t.minute * 60 + t.second
  }

  lemma OneMoreSecond(t: Time)
    requires ValidTime(t)
    ensures Seconds(NextSecond(t)) == Seconds(t) + 1
  {
    NextIsOneMore(t.date);
  }

  /** From 1970 on the epoch counts the ticks of the clock; until then it is 0. */
  lemma EpochCountsSeconds(t: Time)
    requires ValidTime(t)
    ensures Epoch(Time(Date(1970, 1, 1), 0, 0, 0)) == 0
    ensures Epoch(NextSecond(t)) == if t.date.y >= 1970 then Epoch(t) + 1 else 0
  {
    OneMoreSecond(t);
    SignOfSeconds(t, DaysFromCivil(t.date));
    EpochStart();
  }

  lemma SignOfSeconds(t: Time, days: int)
    requires ValidTime(t) && days == DaysFromCivil(t.date)
    ensures Seconds(t) >= 0 <==> t.date.y >= 1970
  {
    SinceEpoch(t.date);
  }

  lemma EpochStart()
    ensures Epoch(Time(Date(1970, 1, 1), 0, 0, 0)) == 0
  {
    EpochIsZero();
  }

  /** Later times have larger epochs, from 1970 on. */
  lemma EpochIncreasing(a: Time, b: Time)
    requires ValidDate(a.date) && ValidDate(b.date) && a.date.y >= 1970
    requires 0 <= a.hour < 24 && 0 <= a.minute < 60 && 0 <= a.second < 60 && 0 <= b.hour < 24 && 0 <= b.minute < 60
    requires 0 <= b.second < 60
    requires Before(a.date, b.date) || (a.date == b.date &&
             a.hour * 3600 + a.minute * 60 + a.second < b.hour * 3600 + b.minute * 60 + b.second)
    ensures Epoch(a) < Epoch(b)
  {
    EpochIsZero();
    if a.date != Date(1970, 1, 1) {
      Increasing(Date(1970, 1, 1), a.date);
    }
    if Before(a.date, b.date) {
      Increasing(a.date, b.date);
    }
  }
}
