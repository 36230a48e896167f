/**
Where a producer timestamp stands in history order, and why that is UTC calendar order
(sections 5.6 and 5.7 of RFC 3339).

A timestamp is taken as its fields, read from the text in HistoryText. `Date.parse` is the
Gregorian day count and truncation to the millisecond.
*/
module HistoryOrder {
  import opened Protocol
  import opened History

  /** The fields of a timestamp of the protocol's shape. */
  datatype Stamp = Stamp(
    year: nat, month: nat, day: nat, hour: nat, minute: nat, second: nat, fraction: seq<nat>,
    west: bool, offsetHour: nat, offsetMinute: nat)

  predicate Shaped(s: Stamp) {
    && s.year < 10000 && s.month < 100 && s.day < 100 && s.hour < 100 && s.minute < 100 && s.second < 100
    && s.offsetHour < 100 && s.offsetMinute < 100
    && |s.fraction| <= 9 && forall d | d in s.fraction :: d < 10
  }

  // ---------------------------------------------------------------- the calendar

  predicate LeapYear(y: int) {
    y % 4 == 0 && (y % 100 != 0 || y % 400 == 0)
  }

  function DaysIn(y: int, m: int): int {
    if m == 2 then (if LeapYear(y) then 29 else 28)
    else if m == 4 || m == 6 || m == 9 || m == 11 then 30
    else 31
  }

  datatype Date = Date(year: int, month: int, day: int)

  predicate ValidDate(d: Date) {
    1 <= d.month <= 12 && 1 <= d.day <= DaysIn(d.year, d.month)
  }

  function NextDay(d: Date): Date {
    if d.day < DaysIn(d.year, d.month) then d.(day := d.day + 1)
    else if d.month < 12 then Date(d.year, d.month + 1, 1)
    else Date(d.year + 1, 1, 1)
  }

  function PreviousDay(d: Date): Date {
    if d.day > 1 then d.(day := d.day - 1)
    else if d.month > 1 then Date(d.year, d.month - 1, DaysIn(d.year, d.month - 1))
    else Date(d.year - 1, 12, 31)
  }

  // ---------------------------------------------------------------- counting days

  function DaysBeforeYear(y: int): int {
    365 * y + (y + 3) / 4 - (y + 99) / 100 + (y + 399) / 400
  }

  function DaysBeforeMonth(y: int, m: int): int {
    if m <= 1 then 0 else DaysBeforeMonth(y, m - 1) + DaysIn(y, m - 1)
  }

  function DayNumber(d: Date): int {
    DaysBeforeYear(d.year) + DaysBeforeMonth(d.year, d.month) + d.day - 1
  }

  /** Multiples of four, of a hundred and of four hundred are met one at a time. */
  lemma Fours(y: int)
    ensures (y + 4) / 4 == (y + 3) / 4 + if y % 4 == 0 then 1 else 0
  {
  }

  lemma Hundreds(y: int)
    ensures (y + 100) / 100 == (y + 99) / 100 + if y % 100 == 0 then 1 else 0
  {
  }

  lemma FourHundreds(y: int)
    ensures (y + 400) / 400 == (y + 399) / 400 + if y % 400 == 0 then 1 else 0
  {
  }

  lemma Multiples(y: int)
    ensures y % 400 == 0 ==> y % 100 == 0
    ensures y % 100 == 0 ==> y % 4 == 0
  {
  }

  /** Years before `y`, by the multiples met so far: the sums only, no division. */
  lemma YearSum(y: int, a: int, b: int, c: int, p: int, q: int, r: int)
    requires p == (y + 3) / 4 && q == (y + 99) / 100 && r == (y + 399) / 400
    requires a == (y + 4) / 4 && b == (y + 100) / 100 && c == (y + 400) / 400
    ensures DaysBeforeYear(y) == 365 * y + p - q + r && DaysBeforeYear(y + 1) == 365 * y + 365 + a - b + c
  {
  }

  lemma YearLength(y: int)
    ensures DaysBeforeYear(y + 1) == DaysBeforeYear(y) + (if LeapYear(y) then 366 else 365)
  {
    hide DaysBeforeYear;
    var a, b, c, p, q, r := (y + 4) / 4, (y + 100) / 100, (y + 400) / 400, (y + 3) / 4, (y + 99) / 100, (y + 399) / 400;
    Fours(y);
    Hundreds(y);
    FourHundreds(y);
    Multiples(y);
    YearSum(y, a, b, c, p, q, r);
  }

  lemma {:induction false} MonthsAdd(y: int, m: int, n: int)
    requires 1 <= m < n
    ensures DaysBeforeMonth(y, n) >= DaysBeforeMonth(y, m) + DaysIn(y, m)
    decreases n
  {
    if m < n - 1 { MonthsAdd(y, m, n - 1); }
  }

  lemma MonthsFill(y: int)
    ensures DaysBeforeMonth(y, 13) == if LeapYear(y) then 366 else 365
  {
    hide LeapYear;
    assert DaysBeforeMonth(y, 2) == DaysBeforeMonth(y, 1) + DaysIn(y, 1);
    assert DaysBeforeMonth(y, 3) == DaysBeforeMonth(y, 2) + DaysIn(y, 2);
    assert DaysBeforeMonth(y, 4) == DaysBeforeMonth(y, 3) + DaysIn(y, 3);
    assert DaysBeforeMonth(y, 5) == DaysBeforeMonth(y, 4) + DaysIn(y, 4);
    assert DaysBeforeMonth(y, 6) == DaysBeforeMonth(y, 5) + DaysIn(y, 5);
    assert DaysBeforeMonth(y, 7) == DaysBeforeMonth(y, 6) + DaysIn(y, 6);
    assert DaysBeforeMonth(y, 8) == DaysBeforeMonth(y, 7) + DaysIn(y, 7);
    assert DaysBeforeMonth(y, 9) == DaysBeforeMonth(y, 8) + DaysIn(y, 8);
    assert DaysBeforeMonth(y, 10) == DaysBeforeMonth(y, 9) + DaysIn(y, 9);
    assert DaysBeforeMonth(y, 11) == DaysBeforeMonth(y, 10) + DaysIn(y, 10);
    assert DaysBeforeMonth(y, 12) == DaysBeforeMonth(y, 11) + DaysIn(y, 11);
    assert DaysBeforeMonth(y, 13) == DaysBeforeMonth(y, 12) + DaysIn(y, 12);
  }

  /** A date lies in its year. */
  lemma InYear(d: Date)
    requires ValidDate(d)
    ensures DaysBeforeYear(d.year) <= DayNumber(d) < DaysBeforeYear(d.year + 1)
  {
    hide LeapYear, DaysBeforeYear;
    YearLength(d.year);
    MonthsFill(d.year);
    MonthsAdd(d.year, d.month, 13);
    MonthsStart(d.year, d.month);
  }

  lemma {:induction false} MonthsStart(y: int, m: int)
    ensures DaysBeforeMonth(y, m) >= 0
    decreases m
  {
    if m > 1 { MonthsStart(y, m - 1); }
  }

  lemma {:induction false} YearsAdd(y: int, z: int)
    requires y < z
    ensures DaysBeforeYear(y + 1) <= DaysBeforeYear(z)
    decreases z - y
  {
    hide DaysBeforeYear, LeapYear;
    if y + 1 < z {
      YearsAdd(y, z - 1);
      YearLength(z - 1);
    }
  }

  predicate DateBefore(a: Date, b: Date) {
    a.year < b.year || (a.year == b.year && (a.month < b.month || (a.month == b.month && a.day < b.day)))
  }

  lemma EarlierCounts(a: Date, b: Date)
    requires ValidDate(a) && ValidDate(b) && DateBefore(a, b)
    ensures DayNumber(a) < DayNumber(b)
  {
    hide LeapYear, DaysBeforeYear, DaysIn;
    if a.year < b.year {
      InYear(a);
      InYear(b);
      YearsAdd(a.year, b.year);
      hide DayNumber, ValidDate;
    } else if a.month < b.month {
      MonthsAdd(a.year, a.month, b.month);
    }
  }

  /** The day count follows the calendar. */
  lemma DaysAgree(a: Date, b: Date)
    requires ValidDate(a) && ValidDate(b)
    ensures DateBefore(a, b) <==> DayNumber(a) < DayNumber(b)
    ensures a == b <==> DayNumber(a) == DayNumber(b)
  {
    hide DayNumber, ValidDate;
    if DateBefore(a, b) { EarlierCounts(a, b); }
    if DateBefore(b, a) { EarlierCounts(b, a); }
  }

  lemma NextCounts(d: Date)
    requires ValidDate(d)
    ensures ValidDate(NextDay(d)) && DayNumber(NextDay(d)) == DayNumber(d) + 1
  {
    hide LeapYear, DaysBeforeYear;
    YearLength(d.year);
    MonthsFill(d.year);
  }

  lemma PreviousCounts(d: Date)
    requires ValidDate(d)
    ensures ValidDate(PreviousDay(d)) && DayNumber(PreviousDay(d)) == DayNumber(d) - 1
  {
    hide LeapYear, DaysBeforeYear;
    YearLength(d.year - 1);
    MonthsFill(d.year - 1);
  }

  // ---------------------------------------------------------------- positions

  const EPOCH_DAY := 719528

  function DateOf(s: Stamp): Date {
    Date(s.year, s.month, s.day)
  }

  /** Minutes east of UTC. */
  function Offset(s: Stamp): int {
    (if s.west then -1 else 1) * (s.offsetHour * 60 + s.offsetMinute)
  }

  function Padded(fraction: seq<nat>, i: nat): nat {
    if i < |fraction| then fraction[i] else 0
  }

  /** Three digits of the fraction, the rest dropped. */
  function Millisecond(s: Stamp): nat {
    Padded(s.fraction, 0) * 100 + Padded(s.fraction, 1) * 10 + Padded(s.fraction, 2)
  }

  /** Minutes of UTC since day zero. */
  function UtcMinute(s: Stamp): int {
    DayNumber(DateOf(s)) * 1440 + s.hour * 60 + s.minute - Offset(s)
  }

  predicate InRange(s: Stamp) {
    && ValidDate(DateOf(s))
    && s.hour <= 23 && s.minute <= 59 && s.second <= 60 && s.offsetHour <= 23 && s.offsetMinute <= 59
  }

  /** The position of a timestamp; nothing for one that no validator accepts. */
  function HistoryInstant(s: Stamp): Option<Position> {
    if !InRange(s) then None
    else if s.second < 60 then
      Some(Position((UtcMinute(s) - EPOCH_DAY * 1440) * 60000 + s.second * 1000 + Millisecond(s), 0))
    else if (s.hour * 60 + s.minute - Offset(s)) % 1440 != 1439 then None
    else Some(Position((UtcMinute(s) - EPOCH_DAY * 1440) * 60000 + 59999, 1 + Millisecond(s)))
  }

  predicate InstantBefore(a: Position, b: Position) {
    a.epochMs < b.epochMs || (a.epochMs == b.epochMs && a.leap < b.leap)
  }

  // ---------------------------------------------------------------- UTC by the calendar

  /** A moment of UTC as the calendar writes it; second 60 is a leap second. */
  datatype Moment = Moment(date: Date, hour: int, minute: int, second: int, millisecond: int)

  /** The moment a timestamp names, moved to UTC by whole days and minutes of the calendar. */
  function Utc(s: Stamp): Moment {
    var m := s.hour * 60 + s.minute - Offset(s);
    var d := DateOf(s);
    if m < 0 then Moment(PreviousDay(d), (m + 1440) / 60, (m + 1440) % 60, s.second, Millisecond(s))
    else if m >= 1440 then Moment(NextDay(d), (m - 1440) / 60, (m - 1440) % 60, s.second, Millisecond(s))
    else Moment(d, m / 60, m % 60, s.second, Millisecond(s))
  }

  predicate MomentBefore(a: Moment, b: Moment) {
    || DateBefore(a.date, b.date)
    || (a.date == b.date && ClockBefore(a, b))
  }

  predicate ClockBefore(a: Moment, b: Moment) {
    || a.hour < b.hour
    || (a.hour == b.hour && a.minute < b.minute)
    || (a.hour == b.hour && a.minute == b.minute && a.second < b.second)
    || (a.hour == b.hour && a.minute == b.minute && a.second == b.second && a.millisecond < b.millisecond)
  }

  function MinuteOf(m: Moment): int {
    DayNumber(m.date) * 1440 + m.hour * 60 + m.minute
  }

  lemma MillisecondRange(s: Stamp)
    requires Shaped(s)
    ensures 0 <= Millisecond(s) <= 999
  {
    forall i: nat | i < 3 ensures Padded(s.fraction, i) <= 9 {
      if i < |s.fraction| { assert s.fraction[i] in s.fraction; }
    }
  }

  /** Moving to UTC keeps the minute. */
  lemma UtcKeeps(s: Stamp)
    requires InRange(s)
    ensures ValidDate(Utc(s).date) && MinuteOf(Utc(s)) == UtcMinute(s)
    ensures 0 <= Utc(s).hour <= 23 && 0 <= Utc(s).minute <= 59
    ensures (s.hour * 60 + s.minute - Offset(s)) % 1440 == Utc(s).hour * 60 + Utc(s).minute
  {
    hide DayNumber, ValidDate;
    NextCounts(DateOf(s));
    PreviousCounts(DateOf(s));
    hide NextDay, PreviousDay;
    assert -1440 < Offset(s) < 1440;
  }

  /** Moments follow their minutes, then their seconds, then their milliseconds. */
  lemma MomentsAgree(a: Moment, b: Moment)
    requires ValidDate(a.date) && ValidDate(b.date)
    requires 0 <= a.hour <= 23 && 0 <= a.minute <= 59 && 0 <= b.hour <= 23 && 0 <= b.minute <= 59
    ensures MomentBefore(a, b) <==>
            || MinuteOf(a) < MinuteOf(b)
            || (MinuteOf(a) == MinuteOf(b) && (a.second < b.second || (a.second == b.second && a.millisecond < b.millisecond)))
    ensures a == b <==> MinuteOf(a) == MinuteOf(b) && a.second == b.second && a.millisecond == b.millisecond
  {
    hide DayNumber, ValidDate;
    DaysAgree(a.date, b.date);
    hide DateBefore;
  }

  lemma Positioned(s: Stamp)
    requires Shaped(s) && HistoryInstant(s).Some?
    ensures InRange(s) && 0 <= Millisecond(s) <= 999
    ensures var p := HistoryInstant(s).value; var base := (UtcMinute(s) - EPOCH_DAY * 1440) * 60000;
            if s.second == 60 then p == Position(base + 59999, 1 + Millisecond(s))
            else s.second <= 59 && p == Position(base + s.second * 1000 + Millisecond(s), 0)
  {
    hide UtcMinute, InRange;
    MillisecondRange(s);
    assert InRange(s) ==> s.second <= 60 by { RangeSecond(s); }
  }

  lemma RangeSecond(s: Stamp)
    ensures InRange(s) ==> s.second <= 60
  {
  }

  /** Positions follow their minutes, then their seconds, then their milliseconds. */
  lemma PositionsAgree(m: int, s: int, f: int, n: int, t: int, g: int, p: Position, q: Position)
    requires 0 <= s <= 60 && 0 <= t <= 60 && 0 <= f <= 999 && 0 <= g <= 999
    requires p == if s == 60 then Position(m * 60000 + 59999, 1 + f) else Position(m * 60000 + s * 1000 + f, 0)
    requires q == if t == 60 then Position(n * 60000 + 59999, 1 + g) else Position(n * 60000 + t * 1000 + g, 0)
    ensures InstantBefore(p, q) <==> m < n || (m == n && (s < t || (s == t && f < g)))
    ensures p == q <==> m == n && s == t && f == g
  {
  }

  /**
   * History order is UTC calendar order to the millisecond: one accepted timestamp is placed before
   * another exactly when the moment it names comes first, and two get one place exactly when they
   * name one moment, whatever offsets they are written with.
   */
  lemma HistoryIsCalendar(a: Stamp, b: Stamp)
    requires Shaped(a) && Shaped(b) && HistoryInstant(a).Some? && HistoryInstant(b).Some?
    ensures InstantBefore(HistoryInstant(a).value, HistoryInstant(b).value) <==> MomentBefore(Utc(a), Utc(b))
    ensures HistoryInstant(a) == HistoryInstant(b) <==> Utc(a) == Utc(b)
  {
    hide HistoryInstant, UtcMinute, MinuteOf, ValidDate, MomentBefore, InstantBefore, Millisecond;
    Positioned(a);
    Positioned(b);
    UtcKeeps(a);
    UtcKeeps(b);
    MomentsAgree(Utc(a), Utc(b));
    PositionsAgree(UtcMinute(a) - EPOCH_DAY * 1440, a.second, Millisecond(a), UtcMinute(b) - EPOCH_DAY * 1440, b.second, Millisecond(b),
                   HistoryInstant(a).value, HistoryInstant(b).value);
    hide InRange;
  }

  /**
   * A leap second is accepted only as the last second of a UTC day, and stands after every instant
   * of 23:59:59 and before the following 00:00:00.
   */
  lemma LeapSecondsStand(leap: Stamp, other: Stamp)
    requires Shaped(leap) && Shaped(other) && HistoryInstant(leap).Some? && HistoryInstant(other).Some? && leap.second == 60
    ensures Utc(leap).hour == 23 && Utc(leap).minute == 59
    ensures Utc(other).date == Utc(leap).date && other.second < 60 ==>
              InstantBefore(HistoryInstant(other).value, HistoryInstant(leap).value)
    ensures Utc(other).date == NextDay(Utc(leap).date) ==>
              InstantBefore(HistoryInstant(leap).value, HistoryInstant(other).value)
  {
    hide UtcMinute, MinuteOf, ValidDate, InstantBefore, Millisecond, DayNumber;
    UtcKeeps(leap);
    UtcKeeps(other);
    HistoryIsCalendar(leap, other);
    HistoryIsCalendar(other, leap);
    NextIsLater(Utc(leap).date);
  }

  lemma NextIsLater(d: Date)
    requires ValidDate(d)
    ensures DateBefore(d, NextDay(d))
  {
  }

  /** The day count starts the epoch where it should: 1970-01-01T00:00:00Z is instant zero. */
  lemma EpochIsZero()
    ensures HistoryInstant(Stamp(1970, 1, 1, 0, 0, 0, [], false, 0, 0)) == Some(Position(0, 0))
  {
    assert DaysBeforeYear(1970) == EPOCH_DAY;
    assert DayNumber(Date(1970, 1, 1)) == EPOCH_DAY;
  }
}
