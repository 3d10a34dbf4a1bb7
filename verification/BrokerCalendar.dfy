/** The calendar behind recorded times: dates follow one another one day at a time from 1970-01-01, and the broker
    day begins at 18:30 UTC. */
module BrokerCalendar {
  import opened Prelude
  import opened BrokerRecords

  datatype Date = Date(year: nat, month: nat, day: nat)

  predicate RealDate(d: Date) {
    1 <= d.month <= 12 && 1 <= d.day <= MonthLength(d.year, d.month)
  }

  function DayNumber(d: Date): int {
    DaysFromEpoch(d.year, d.month, d.day)
  }

  /** The date after a date: thirty days have September, April, June and November, and February has 28, in leap
      years 29. */
  function Tomorrow(d: Date): Date {
    var length := if d.month == 2 then (if Leap(d.year) then 29 else 28)
                  else if d.month in {4, 6, 9, 11} then 30 else 31;
    if d.day < length then d.(day := d.day + 1)
    else if d.month < 12 then Date(d.year, d.month + 1, 1)
    else Date(d.year + 1, 1, 1)
  }

  /** Days before the March that begins year s, up to a constant. */
  function Marches(s: int): int {
    var era := s / 400;
    var yearOfEra := s - era * 400;
    era * 146_097 + yearOfEra * 365 + yearOfEra / 4 - yearOfEra / 100
  }

  function Floor(s: int, n: nat): int
    requires n > 0
  {
    s / n
  }

  predicate Divides(n: nat, s: int)
    requires n > 0
  {
    s % n == 0
  }

  lemma MarchesFlat(s: int)
    ensures Marches(s) == 365 * s + Floor(s, 4) - Floor(s, 100) + Floor(s, 400)
  {
    var e := s / 400;
    var r := s - e * 400;
    assert (400 * e + r) / 4 == 100 * e + r / 4;
    assert (400 * e + r) / 100 == 4 * e + r / 100;
  }

  predicate Leap(y: int) {
    Divides(400, y) || (Divides(4, y) && !Divides(100, y))
  }

  lemma NextMarch(s: int)
    ensures Marches(s + 1) - Marches(s) == 365 + if Leap(s + 1) then 1 else 0
  {
    MarchesFlat(s);
    MarchesFlat(s + 1);
    FloorStep(s, 4);
    FloorStep(s, 100);
    FloorStep(s, 400);
    Divisors(s + 1);
    hide Marches, Floor, Divides;
  }

  lemma FloorStep(s: int, n: nat)
    requires n == 4 || n == 100 || n == 400
    ensures Floor(s + 1, n) - Floor(s, n) == if Divides(n, s + 1) then 1 else 0
  {
  }

  lemma Divisors(s: int)
    ensures Divides(400, s) ==> Divides(100, s)
    ensures Divides(100, s) ==> Divides(4, s)
  {
  }

  lemma EpochIsZero()
    ensures DayNumber(Date(1970, 1, 1)) == 0
  {
  }

  /** The number of the next real date is the next number, and 1970-01-01 is number zero. */
  lemma TomorrowIsNext(d: Date)
    requires RealDate(d)
    ensures RealDate(Tomorrow(d)) && DayNumber(Tomorrow(d)) == DayNumber(d) + 1
    ensures DayNumber(Date(1970, 1, 1)) == 0
  {
    EpochIsZero();
    LeapIs(d.year);
    hide DaysFromEpoch, Marches, MonthsBefore, Leap, LeapYear;
    var t := Tomorrow(d);
    DaysAre(d.year, d.month, d.day);
    DaysAre(t.year, t.month, t.day);
    MonthFollows(d.month);
    NextMarch(d.year - 1);
  }

  lemma LeapIs(y: nat)
    ensures Leap(y) <==> LeapYear(y)
  {
    Divisors(y);
  }

  /** The number of whole months of 30 or 31 days before a month, in a year that begins in March, as days. */
  function MonthsBefore(m: nat): int {
    (153 * (if m > 2 then m - 3 else m + 9) + 2) / 5
  }

  lemma MonthFollows(m: nat)
    requires 1 <= m <= 12
    ensures m == 2 ==> MonthsBefore(2) == 337 && MonthsBefore(3) == 0
    ensures m == 12 ==> MonthsBefore(1) == MonthsBefore(12) + 31
    ensures m != 2 && m < 12 ==> MonthsBefore(m + 1) == MonthsBefore(m) + if m in {4, 6, 9, 11} then 30 else 31
  {
  }

  lemma DaysAre(y: nat, m: nat, d: nat)
    ensures DaysFromEpoch(y, m, d) == Marches(if m <= 2 then y - 1 else y) + MonthsBefore(m) + d - 1 - 719_468
  {
  }

  /** A valid time counts its date's days, hours, minutes, seconds and milliseconds from 1970. */
  lemma InstantExact(s: Stamp)
    requires ValidStamp(s)
    ensures var t := s.text;
      var days := DaysFromEpoch(Number(t, 0, 4), Number(t, 5, 7), Number(t, 8, 10));
      var seconds := ((days * 24 + Number(t, 11, 13)) * 60 + Number(t, 14, 16)) * 60 + Number(t, 17, 19);
      s.ms == seconds * 1000 + if |t| == 29 then Number(t, 20, 23) else 0
  {
    hide Number, DaysFromEpoch;
  }

  /** A valid time lies in the broker day of its date when its clock reads less than 18:30, and in the next from then
      on. */
  lemma BrokerDayExact(s: Stamp)
    requires ValidStamp(s)
    ensures var t := s.text;
      Day(s) == DaysFromEpoch(Number(t, 0, 4), Number(t, 5, 7), Number(t, 8, 10))
                + if Number(t, 11, 13) * 60 + Number(t, 14, 16) < 18 * 60 + 30 then 0 else 1
  {
    var t := s.text;
    var fraction := if |t| == 29 then Number(t, 20, 23) else 0;
    if |t| == 29 {
      FractionSmall(t);
    }
    hide Number, DaysFromEpoch;
    DaySplit(DaysFromEpoch(Number(t, 0, 4), Number(t, 5, 7), Number(t, 8, 10)), Number(t, 11, 13), Number(t, 14, 16),
             Number(t, 17, 19), fraction);
  }

  lemma FractionSmall(t: Text)
    requires IsoShape(t) && |t| == 29
    ensures Number(t, 20, 23) < 1000
  {
    assert Number(t, 20, 21) < 10 && Number(t, 20, 22) < 100;
  }

  lemma DaySplit(days: int, hours: nat, minutes: nat, seconds: nat, fraction: nat)
    requires hours < 24 && minutes < 60 && seconds < 60 && fraction < 1000
    ensures (days * 86_400_000 + hours * 3_600_000 + minutes * 60_000 + seconds * 1000 + fraction + 330 * 60_000)
              / 86_400_000
         == days + if hours * 60 + minutes < 18 * 60 + 30 then 0 else 1
  {
  }
}
