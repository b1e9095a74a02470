/** The real-time clock's date as seconds since 1970, against a calendar that is counted day by day. */
module Rtc {

  const WORD32: nat := 0x1_0000_0000

  const DAY: nat := 86400

  datatype Date = Date(year: nat, month: nat, day: nat)

  datatype Time = Time(date: Date, hour: nat, minute: nat, second: nat)

  const EPOCH: Date := Date(1970, 1, 1)

  // ---------- The calendar ----------

  /** `y` is a multiple of `k`, by taking `k` away. */
  predicate Multiple(y: nat, k: nat)
    requires k > 0
    decreases y, k
  {
    if y < k then y == 0 else Multiple(y - k, k)
  }

  predicate Leap(y: nat) { Multiple(y, 4) && (!Multiple(y, 100) || Multiple(y, 400)) }

  function DaysIn(y: nat, m: nat): nat {
    if m == 2 then (if Leap(y) then 29 else 28) else if m == 4 || m == 6 || m == 9 || m == 11 then 30 else 31
  }

  predicate IsDate(d: Date) { 1 <= d.month <= 12 && 1 <= d.day <= DaysIn(d.year, d.month) }

  function NextDay(d: Date): (r: Date)
    requires IsDate(d)
    ensures IsDate(r)
  {
    if d.day < DaysIn(d.year, d.month) then d.(day := d.day + 1)
    else if d.month < 12 then Date(d.year, d.month + 1, 1)
    else Date(d.year + 1, 1, 1)
  }

  /** The day `n` days after the first of January 1970. */
  function After(n: nat): (d: Date)
    ensures IsDate(d)
  {
    if n == 0 then EPOCH else NextDay(After(n - 1))
  }

  // ---------- The closed form ----------

  /** The days before March of year `y`, year by year. */
  function YearDays(y: nat): nat {
    if y == 0 then 0 else YearDays(y - 1) + if Leap(y) then 366 else 365
  }

  lemma {:induction false} MultipleOf4(y: nat)
    ensures Multiple(y, 4) <==> y % 4 == 0
  {
    if y >= 4 { MultipleOf4(y - 4); }
  }

  lemma {:induction false} MultipleOf100(y: nat)
    ensures Multiple(y, 100) <==> y % 100 == 0
  {
    if y >= 100 { MultipleOf100(y - 100); }
  }

  lemma {:induction false} MultipleOf400(y: nat)
    ensures Multiple(y, 400) <==> y % 400 == 0
  {
    if y >= 400 { MultipleOf400(y - 400); }
  }

  /** The leap days up to year `y`. */
  function Leaps(y: nat): int { y / 4 - y / 100 + y / 400 }

  lemma LeapDays(y: nat)
    ensures Leaps(y + 1) == Leaps(y) + if Leap(y + 1) then 1 else 0
  {
    MultipleOf4(y + 1);
    MultipleOf100(y + 1);
    MultipleOf400(y + 1);
    LeapDivisions(y);
  }

  lemma LeapDivisions(y: nat)
    ensures (y + 1) / 4 == y / 4 + if (y + 1) % 4 == 0 then 1 else 0
    ensures (y + 1) / 100 == y / 100 + if (y + 1) % 100 == 0 then 1 else 0
    ensures (y + 1) / 400 == y / 400 + if (y + 1) % 400 == 0 then 1 else 0
    ensures (y + 1) % 400 == 0 ==> (y + 1) % 100 == 0
    ensures (y + 1) % 100 == 0 ==> (y + 1) % 4 == 0
  {}

  lemma {:induction false} YearDaysClosed(y: nat)
    ensures YearDays(y) == 365 * y + Leaps(y)
  {
    if y > 0 {
      YearDaysClosed(y - 1);
      LeapDays(y - 1);
    }
  }

  /** The days from March to month `m`, with January and February as months 13 and 14. */
  function MonthDays(m: nat): nat { 306 * (m + 1) / 10 }

  /** Years start in March, so that the leap day comes last: `a` are the days before this March, `b` before the last. */
  function CountFrom(d: Date, b: int, a: int): int {
    (if d.month <= 2 then b + MonthDays(d.month + 12) else a + MonthDays(d.month)) + d.day - 719591
  }

  function Count(d: Date): int
    requires d.year > 0
  {
    CountFrom(d, YearDays(d.year - 1), YearDays(d.year))
  }

  lemma NextDayFrom(d: Date, b: int, a: int, c: int)
    requires IsDate(d) && a == b + (if Leap(d.year) then 366 else 365)
    ensures var same := NextDay(d).year == d.year;
      CountFrom(NextDay(d), if same then b else a, if same then a else c) == CountFrom(d, b, a) + 1
  {}

  lemma NextDayCounts(d: Date)
    requires IsDate(d) && d.year > 0
    ensures Count(NextDay(d)) == Count(d) + 1
  {
    NextDayFrom(d, YearDays(d.year - 1), YearDays(d.year), YearDays(d.year + 1));
  }

  /** The closed form counts the days since 1970. */
  lemma {:induction false} CountAfter(n: nat)
    ensures After(n).year >= 1970 && Count(After(n)) == n
  {
    if n == 0 {
      YearDaysClosed(1969);
    } else {
      CountAfter(n - 1);
      NextDayCounts(After(n - 1));
    }
  }

  ghost predicate Before(d: Date, e: Date) {
    d.year < e.year || (d.year == e.year && (d.month < e.month || (d.month == e.month && d.day < e.day)))
  }

  lemma {:induction false} YearsGrow(y: nat, z: nat)
    requires y <= z
    ensures YearDays(z) >= YearDays(y) + 365 * (z - y)
    decreases z
  {
    if y < z {
      YearsGrow(y, z - 1);
    }
  }

  /** Where a year's days lie: from the first of January to the last of December. */
  lemma YearSpan(d: Date, b: int, a: int)
    requires IsDate(d) && a == b + (if Leap(d.year) then 366 else 365)
    ensures b + 429 <= CountFrom(d, b, a) + 719591 <= a + 428
  {}

  lemma OrderInYear(d: Date, e: Date, b: int, a: int)
    requires IsDate(d) && IsDate(e) && d.year == e.year && Before(d, e) && a == b + (if Leap(d.year) then 366 else 365)
    ensures CountFrom(d, b, a) < CountFrom(e, b, a)
  {}

  /** A later date has a higher count. */
  lemma CountOrder(d: Date, e: Date)
    requires IsDate(d) && IsDate(e) && d.year > 0 && Before(d, e)
    ensures Count(d) < Count(e)
  {
    var b, a, b', a' := YearDays(d.year - 1), YearDays(d.year), YearDays(e.year - 1), YearDays(e.year);
    if d.year == e.year {
      OrderInYear(d, e, b, a);
    } else {
      YearsGrow(d.year, e.year - 1);
      YearSpan(d, b, a);
      YearSpan(e, b', a');
    }
  }

  /** Every date since 1970 is reached by counting, after as many days as the closed form says. */
  lemma EveryDate(d: Date)
    requires IsDate(d) && d.year >= 1970
    ensures Count(d) >= 0 && After(Count(d)) == d
  {
    CountAfter(0);
    if d != EPOCH { CountOrder(EPOCH, d); }
    var e := After(Count(d));
    CountAfter(Count(d));
    if Before(d, e) { CountOrder(d, e); }
    if Before(e, d) { CountOrder(e, d); }
  }

  // ---------- The program's arithmetic ----------

  function U32(x: int): (r: nat)
    ensures r < WORD32
  {
    x % WORD32
  }

  /** The sum is formed in 32 bits before it is widened. */
  function RtcToEpoch(t: Time): nat {
    var y, m := if t.date.month <= 2 then U32(t.date.year - 1) else t.date.year,
      if t.date.month <= 2 then t.date.month + 12 else t.date.month;
    U32(U32(365 * y) + Leaps(y) + MonthDays(m) + t.date.day - 719591) * DAY + TimeOfDay(t)
  }

  function TimeOfDay(t: Time): nat { t.hour * 3600 + t.minute * 60 + t.second }

  ghost predicate IsClock(t: Time) { t.hour < 24 && t.minute < 60 && t.second < 60 }

  ghost predicate IsTime(t: Time) {
    IsDate(t.date) && t.date.year < WORD32 && IsClock(t)
  }

  lemma SameResidue(x: int, y: int)
    ensures U32(U32(x) + y) == U32(x + y)
  {
    var k := x / WORD32;
    assert x == k * WORD32 + U32(x);
  }

  /** For every date since 1970 the result is the true one with the number of days taken modulo 2^32. */
  lemma EpochIsCount(t: Time)
    requires IsTime(t) && t.date.year >= 1970
    ensures RtcToEpoch(t) == U32(Count(t.date)) * DAY + TimeOfDay(t)
  {
    var y := if t.date.month <= 2 then t.date.year - 1 else t.date.year;
    var m := if t.date.month <= 2 then t.date.month + 12 else t.date.month;
    Small(y);
    YearDaysClosed(y);
    var rest := Leaps(y) + MonthDays(m) + t.date.day - 719591;
    SameResidue(365 * y, rest);
    assert Count(t.date) == 365 * y + rest;
    assert RtcToEpoch(t) == U32(U32(365 * y) + rest) * DAY + TimeOfDay(t);
  }

  lemma Small(x: nat)
    requires x < WORD32
    ensures U32(x) == x
  {}

  lemma Residue(n: nat)
    ensures U32(n) <= n && (U32(n) == n <==> n < WORD32)
  {}

  lemma ClockInDay(t: Time)
    requires IsClock(t)
    ensures TimeOfDay(t) < DAY
  {}

  /** Days and seconds of day, compared. */
  lemma DaysFirst(m: nat, n: nat, s: nat, t: nat)
    requires s < DAY && t < DAY
    ensures m < n ==> m * DAY + s < n * DAY + t
  {}

  /** The seconds since 1970 are right exactly while the number of days fits 32 bits, and fit 64 bits always. */
  lemma EpochIsTrue(t: Time, n: nat)
    requires IsTime(t) && t.date.year >= 1970 && After(n) == t.date
    ensures RtcToEpoch(t) == n * DAY + TimeOfDay(t) <==> n < WORD32
    ensures RtcToEpoch(t) < 0x1_0000_0000_0000_0000
  {
    CountAfter(n);
    EpochIsCount(t);
    Residue(n);
    ClockInDay(t);
    DaysFirst(U32(n), n, TimeOfDay(t), TimeOfDay(t));
    DaysFirst(U32(n), WORD32, TimeOfDay(t), 0);
  }

  // ---------- Seconds, counted one by one ----------

  /** The clock a second later. */
  function NextSecond(t: Time): (u: Time)
    requires IsDate(t.date)
    ensures IsDate(u.date)
  {
    if t.second < 59 then t.(second := t.second + 1)
    else if t.minute < 59 then t.(minute := t.minute + 1, second := 0)
    else if t.hour < 23 then t.(hour := t.hour + 1, minute := 0, second := 0)
    else Time(NextDay(t.date), 0, 0, 0)
  }

  /** The clock `n` seconds after 1970 began. */
  function Later(n: nat): (t: Time)
    ensures IsDate(t.date)
  {
    if n == 0 then Time(EPOCH, 0, 0, 0) else NextSecond(Later(n - 1))
  }

  lemma SecondOfDay(t: Time)
    requires IsDate(t.date) && IsClock(t)
    ensures IsClock(NextSecond(t))
    ensures TimeOfDay(NextSecond(t)) == if TimeOfDay(t) == DAY - 1 then 0 else TimeOfDay(t) + 1
    ensures NextSecond(t).date == if TimeOfDay(t) == DAY - 1 then NextDay(t.date) else t.date
  {}

  lemma NextQuotient(n: nat)
    requires n > 0
    ensures n % DAY == (if (n - 1) % DAY == DAY - 1 then 0 else (n - 1) % DAY + 1)
    ensures n / DAY == (n - 1) / DAY + if (n - 1) % DAY == DAY - 1 then 1 else 0
  {}

  /** The clock moves as quotient and remainder do. */
  lemma ClockMoves(t: Time, n: nat)
    requires n > 0 && IsDate(t.date) && IsClock(t) && TimeOfDay(t) == (n - 1) % DAY
    ensures IsClock(NextSecond(t)) && TimeOfDay(NextSecond(t)) == n % DAY
    ensures if n / DAY == (n - 1) / DAY then NextSecond(t).date == t.date
            else n / DAY == (n - 1) / DAY + 1 && NextSecond(t).date == NextDay(t.date)
  {
    SecondOfDay(t);
    NextQuotient(n);
  }

  /** A day has as many seconds as the clock counts before the date changes. */
  lemma {:induction false} LaterSplits(n: nat)
    ensures IsClock(Later(n)) && Later(n).date == After(n / DAY) && TimeOfDay(Later(n)) == n % DAY
  {
    if n > 0 {
      LaterSplits(n - 1);
      ClockMoves(Later(n - 1), n);
    }
  }

  /** The result for the time `n` seconds after 1970 began is `n`, exactly while the number of days fits 32 bits. */
  lemma EpochCountsSeconds(n: nat)
    requires Later(n).date.year < WORD32
    ensures RtcToEpoch(Later(n)) == n <==> n < WORD32 * DAY
  {
    LaterSplits(n);
    CountAfter(n / DAY);
    EpochIsTrue(Later(n), n / DAY);
  }

  /** Every time since 1970 is reached by counting seconds. */
  lemma EveryTime(t: Time)
    requires IsDate(t.date) && IsClock(t) && t.date.year >= 1970
    ensures Count(t.date) >= 0 && Later(Count(t.date) * DAY + TimeOfDay(t)) == t
  {
    EveryDate(t.date);
    TimeAt(t, Count(t.date));
  }

  lemma TimeAt(t: Time, d: nat)
    requires IsDate(t.date) && IsClock(t) && After(d) == t.date
    ensures Later(d * DAY + TimeOfDay(t)) == t
  {
    var n := d * DAY + TimeOfDay(t);
    LaterSplits(n);
    ClockInDay(t);
    WholeDays(d, TimeOfDay(t));
    SameClock(t, Later(n));
  }

  lemma WholeDays(d: nat, s: nat)
    requires s < DAY
    ensures (d * DAY + s) / DAY == d && (d * DAY + s) % DAY == s
  {}

  lemma SameClock(t: Time, u: Time)
    requires IsClock(t) && IsClock(u) && TimeOfDay(t) == TimeOfDay(u)
    ensures t.hour == u.hour && t.minute == u.minute && t.second == u.second
  {}

  /** The clock starts at zero. */
  lemma EpochStarts()
    ensures RtcToEpoch(Time(EPOCH, 0, 0, 0)) == 0
  {
    EpochCountsSeconds(0);
  }

  /** Every second adds one, as long as the number of days fits 32 bits. */
  lemma EpochNextSecond(t: Time)
    requires IsTime(t) && IsTime(NextSecond(t)) && t.date.year >= 1970 && Count(NextSecond(t).date) < WORD32
    ensures RtcToEpoch(NextSecond(t)) == RtcToEpoch(t) + 1
  {
    SecondOfDay(t);
    if TimeOfDay(t) == DAY - 1 { NextDayCounts(t.date); }
    EpochSum(t);
    EpochSum(NextSecond(t));
  }

  lemma EpochSum(t: Time)
    requires IsTime(t) && t.date.year >= 1970 && Count(t.date) < WORD32
    ensures RtcToEpoch(t) == Count(t.date) * DAY + TimeOfDay(t)
  {
    EveryDate(t.date);
    EpochIsCount(t);
    Residue(Count(t.date));
  }

  /** A later time of the same day. */
  ghost predicate Earlier(t: Time, u: Time) {
    t.hour < u.hour || (t.hour == u.hour && (t.minute < u.minute || (t.minute == u.minute && t.second < u.second)))
  }

  /** A later time gives a higher number. */
  lemma EpochOrder(t: Time, u: Time)
    requires IsTime(t) && IsTime(u) && t.date.year >= 1970 && u.date.year >= 1970 && Count(u.date) < WORD32
    requires Before(t.date, u.date) || (t.date == u.date && Earlier(t, u))
    ensures RtcToEpoch(t) < RtcToEpoch(u)
  {
    var m, n := Count(t.date), Count(u.date);
    assert m < n || (m == n && t.date == u.date) by { if Before(t.date, u.date) { CountOrder(t.date, u.date); } }
    EveryDate(t.date);
    EveryDate(u.date);
    EpochIsCount(t);
    EpochIsCount(u);
    Residue(m);
    Residue(n);
    ClockInDay(t);
    ClockInDay(u);
    DaysFirst(m, n, TimeOfDay(t), TimeOfDay(u));
  }
}
