/** What the days of a report cover and add up to. */
module ReportTheorems {
  import opened Prelude
  import opened AccountBenchmark
  import opened PaperAccount
  import opened AccountTheorems
  import opened AccountReport

  // ---------- the sessions a report covers ----------

  /** The eligible sessions are the declared ones completed by the account's valuation, in order. */
  lemma {:induction false} EligibleExact(calendar: seq<int>, accountDate: int, afterClose: bool, d: int)
    ensures d in Eligible(calendar, accountDate, afterClose)
       <==> d in calendar && (d < accountDate || (d == accountDate && afterClose))
    decreases |calendar|
  {
    if calendar != [] {
      var n := |calendar| - 1;
      EligibleExact(calendar[..n], accountDate, afterClose, d);
      assert calendar == calendar[..n] + [calendar[n]];
    }
  }

  /** The window runs to the latest eligible session without leaving one out; it starts at the session before the
      first fill, unless more than 253 sessions follow, and then holds exactly the last 253. */
  lemma WindowExact(eligible: seq<int>, fills: seq<Fill>)
    requires Ascending(eligible) && Window(eligible, fills).Some?
    ensures var w, first := Window(eligible, fills).value, fills[0].day;
      && TailOf(w, eligible) && |w| <= WINDOW && (|w| == WINDOW || w[0] < first)
      && (w[0] < first ==> |w| > 1 && w[1] == first && forall d | d in eligible && d < first :: d <= w[0])
  {
    hide IndexOf;
    var i, w := IndexOf(eligible, fills[0].day), Window(eligible, fills).value;
    var skipped := |eligible| - |w|;
    assert w == eligible[skipped..] && i - 1 <= skipped;
    hide Window;
    if w[0] < fills[0].day {
      assert w[0] == eligible[skipped];
      assert skipped == i - 1;
      forall d | d in eligible && d < fills[0].day ensures d <= w[0] {
        var j :| 0 <= j < |eligible| && eligible[j] == d;
      }
    }
  }

  ghost predicate TailOf(w: seq<int>, eligible: seq<int>) {
    0 < |w| <= |eligible| && w == eligible[|eligible| - |w|..]
  }

  lemma NothingListed()
    ensures Listed(OpenInstruments([])) == [] && Complete([]) && MarketValue([]) == 0.0
  {
    assert OpenInstruments([]) == {};
  }

  /** Before the first fill the account is its starting capital. */
  lemma DayBeforeFills(start: real, fills: seq<Fill>, costs: seq<Cost>, closes: Closes, date: int)
    requires fills != [] && date < fills[0].day
    ensures DayOf(start, fills, costs, closes, date) == Day(date, start, Some(start), 0.0, 0, [])
  {
    assert Passed(fills, date) == 0;
    assert fills[..0] == [];
    NothingListed();
    hide Listed, OpenInstruments, Passed;
    assert Holdings([], [], closes, date) == [];
  }

  ghost predicate DaysOf(days: seq<Day>, sessions: seq<int>, fills: seq<Fill>, costs: seq<Cost>, start: real,
                         closes: Closes)
  {
    && |days| == |sessions|
    && forall i | 0 <= i < |days| ::
         days[i].date == sessions[i] && days[i] == DayOf(start, fills, costs, closes, sessions[i])
  }

  lemma SessionsShown(fills: seq<Fill>, all: nat, costs: seq<Cost>, calendar: seq<int>, coverageStart: int, date: int,
                      afterClose: bool, start: real, closes: Closes, state: BenchmarkState)
    requires ShownFills(fills, all, costs, calendar, coverageStart, date, afterClose, start, closes, state)
    requires state.Benchmark?
    ensures var w := Window(Eligible(calendar, date, afterClose), fills);
      && fills != [] && w.Some? && DaysOf(state.days, w.value, fills, costs, start, closes)
      && state.fillCount == |fills| && state.fillCount + state.excluded == all
  {
    hide SoundReplay, Window, Eligible, OnSessions;
    forall d ensures DayOf(start, fills, costs, closes, d).date == d {
    }
  }

  /** A tail of the eligible sessions leaves out none of the calendar's between its ends. */
  lemma TailCovers(calendar: seq<int>, date: int, afterClose: bool, w: seq<int>, d: int)
    requires Ascending(calendar)
    requires TailOf(w, Eligible(calendar, date, afterClose))
    requires d in calendar && w[0] <= d <= w[|w| - 1]
    ensures d in w
  {
    hide Eligible;
    var eligible := Eligible(calendar, date, afterClose);
    EligibleAscends(calendar, date, afterClose);
    var last := eligible[|eligible| - 1];
    assert last in eligible && last == w[|w| - 1];
    EligibleExact(calendar, date, afterClose, last);
    EligibleExact(calendar, date, afterClose, d);
    var j :| 0 <= j < |eligible| && eligible[j] == d;
    assert w[0] == eligible[|eligible| - |w|];
    assert w[j - (|eligible| - |w|)] == d;
  }

  /** The days end at the latest completed session and leave out no declared one in between. */
  ghost predicate Covers(days: seq<Day>, calendar: seq<int>, through: int) {
    && days != [] && days[|days| - 1].date == through
    && forall d | d in calendar && days[0].date <= d <= through :: exists i :: 0 <= i < |days| && days[i].date == d
  }

  /** The first day is the last declared session before the first fill, with the starting capital in cash and nothing
      else; the first fill's day follows. */
  ghost predicate StartsBefore(days: seq<Day>, calendar: seq<int>, first: int, start: real) {
    && |days| > 1 && days[0] == Day(days[0].date, start, Some(start), 0.0, 0, []) && days[1].date == first
    && forall d | d in calendar && d < first :: d <= days[0].date
  }

  lemma DaysCover(calendar: seq<int>, date: int, afterClose: bool, w: seq<int>, days: seq<Day>)
    requires Ascending(calendar) && TailOf(w, Eligible(calendar, date, afterClose))
    requires |days| == |w| && forall i | 0 <= i < |w| :: days[i].date == w[i]
    ensures Covers(days, calendar, w[|w| - 1])
  {
    hide Eligible, Ascending;
    forall d | d in calendar && w[0] <= d <= w[|w| - 1] ensures exists i :: 0 <= i < |days| && days[i].date == d {
      TailCovers(calendar, date, afterClose, w, d);
      var i :| 0 <= i < |w| && w[i] == d;
      assert days[i].date == d;
    }
  }

  lemma StartExact(calendar: seq<int>, date: int, afterClose: bool, w: seq<int>, days: seq<Day>, fills: seq<Fill>,
                   costs: seq<Cost>, start: real, closes: Closes)
    requires var eligible := Eligible(calendar, date, afterClose);
      Ascending(calendar) && Window(eligible, fills) == Some(w) && w != [] && w[0] < fills[0].day
    requires fills != [] && DaysOf(days, w, fills, costs, start, closes)
    ensures StartsBefore(days, calendar, fills[0].day, start)
  {
    hide Eligible, Window, DayOf;
    var eligible := Eligible(calendar, date, afterClose);
    EligibleAscends(calendar, date, afterClose);
    WindowExact(eligible, fills);
    DayBeforeFills(start, fills, costs, closes, w[0]);
    forall d | d in calendar && d < fills[0].day ensures d <= w[0] {
      assert w[1] in eligible;
      EligibleExact(calendar, date, afterClose, d);
      EligibleExact(calendar, date, afterClose, w[1]);
    }
  }

  /** The days of a report are consecutive sessions up to the latest completed one. It either covers exactly the last
      253, or starts at the last session before the first fill, with the starting capital in cash and nothing else. */
  lemma ReportSpans(entries: seq<Entry>, charges: seq<Charge>, asOf: int, asOfZoned: bool, calendar: seq<int>,
                    coverageStart: int, start: real, closes: Closes, state: BenchmarkState)
    requires Ascending(calendar) && state.Benchmark?
    requires Reports(Accepted, entries, charges, asOf, asOfZoned, calendar, coverageStart, start, closes, state)
    ensures var through := Through(calendar, asOf).value;
      var fills := UpTo(Fills(entries), through);
      && fills != [] && state.fillCount == |fills| && state.fillCount + state.excluded == |entries|
      && Covers(state.days, calendar, through) && state.days != []
      && (|state.days| == WINDOW || (|state.days| < WINDOW && state.days[0].date < fills[0].day))
      && (state.days[0].date < fills[0].day ==> StartsBefore(state.days, calendar, fills[0].day, start))
  {
    hide UpTo, Fills, Costs, ShownFills, Eligible, Covers, StartsBefore, Ascending;
    var fills := UpTo(Fills(entries), Through(calendar, asOf).value);
    ShownSpan(fills, |entries|, Costs(charges), calendar, coverageStart, DateAt(asOf), TimeAt(asOf) >= CLOSES, start,
              closes, state);
  }

  lemma ShownSpan(fills: seq<Fill>, all: nat, costs: seq<Cost>, calendar: seq<int>, coverageStart: int, date: int,
                  afterClose: bool, start: real, closes: Closes, state: BenchmarkState)
    requires Ascending(calendar) && state.Benchmark?
    requires ShownFills(fills, all, costs, calendar, coverageStart, date, afterClose, start, closes, state)
    ensures var eligible := Eligible(calendar, date, afterClose);
      && fills != [] && eligible != [] && state.fillCount == |fills| && state.fillCount + state.excluded == all
      && Covers(state.days, calendar, eligible[|eligible| - 1]) && state.days != []
      && (|state.days| == WINDOW || (|state.days| < WINDOW && state.days[0].date < fills[0].day))
      && (state.days[0].date < fills[0].day ==> StartsBefore(state.days, calendar, fills[0].day, start))
  {
    hide ShownFills, DayOf, Eligible, Window, Covers, StartsBefore, Ascending;
    var eligible := Eligible(calendar, date, afterClose);
    SessionsShown(fills, all, costs, calendar, coverageStart, date, afterClose, start, closes, state);
    EligibleAscends(calendar, date, afterClose);
    WindowExact(eligible, fills);
    var w := Window(eligible, fills).value;
    assert w[|w| - 1] == eligible[|eligible| - 1];
    DaysCover(calendar, date, afterClose, w, state.days);
    if w[0] < fills[0].day {
      StartExact(calendar, date, afterClose, w, state.days, fills, costs, start, closes);
    }
  }

  // ---------- what the days add up to ----------

  function FeesOver(sessions: seq<int>, fills: seq<Fill>, costs: seq<Cost>): real {
    if sessions == [] then 0.0 else FeesOn(fills, costs, sessions[0]) + FeesOver(sessions[1..], fills, costs)
  }

  function CountOver(sessions: seq<int>, fills: seq<Fill>): nat {
    if sessions == [] then 0 else CountOn(fills, sessions[0]) + CountOver(sessions[1..], fills)
  }

  lemma OnStep(fills: seq<Fill>, f: Fill, costs: seq<Cost>, date: int)
    ensures FeesOn(fills + [f], costs, date)
         == FeesOn(fills, costs, date) + if f.day == date then FeeOf(costs, f.orderId) else 0.0
    ensures CountOn(fills + [f], date) == CountOn(fills, date) + if f.day == date then 1 else 0
  {
    assert (fills + [f])[..|fills|] == fills;
  }

  lemma {:induction false} OverStep(sessions: seq<int>, fills: seq<Fill>, f: Fill, costs: seq<Cost>)
    requires Ascending(sessions)
    ensures FeesOver(sessions, fills + [f], costs)
         == FeesOver(sessions, fills, costs) + if f.day in sessions then FeeOf(costs, f.orderId) else 0.0
    ensures CountOver(sessions, fills + [f]) == CountOver(sessions, fills) + if f.day in sessions then 1 else 0
    decreases |sessions|
  {
    hide FeesOn, CountOn, FeeOf;
    if sessions != [] {
      OverStep(sessions[1..], fills, f, costs);
      OnStep(fills, f, costs, sessions[0]);
      assert sessions == [sessions[0]] + sessions[1..];
      assert sessions[0] !in sessions[1..];
    }
  }

  lemma {:induction false} NothingOver(sessions: seq<int>, costs: seq<Cost>)
    ensures FeesOver(sessions, [], costs) == 0.0 && CountOver(sessions, []) == 0
    decreases |sessions|
  {
    if sessions != [] {
      NothingOver(sessions[1..], costs);
    }
  }

  lemma {:induction false} OverAll(sessions: seq<int>, fills: seq<Fill>, costs: seq<Cost>)
    requires Ascending(sessions) && forall f | f in fills :: f.day in sessions
    ensures FeesOver(sessions, fills, costs) == TotalFees(fills, costs) && CountOver(sessions, fills) == |fills|
    decreases |fills|
  {
    hide FeeOf, FeesOver, CountOver, Ascending;
    if fills == [] {
      NothingOver(sessions, costs);
    } else {
      var n := |fills| - 1;
      assert fills == fills[..n] + [fills[n]];
      OverAll(sessions, fills[..n], costs);
      OverStep(sessions, fills[..n], fills[n], costs);
    }
  }

  function ShownFees(days: seq<Day>): real {
    if days == [] then 0.0 else days[0].cashFees + ShownFees(days[1..])
  }

  function ShownCount(days: seq<Day>): nat {
    if days == [] then 0 else days[0].fillCount + ShownCount(days[1..])
  }

  lemma {:induction false} OnConcat(a: seq<Fill>, b: seq<Fill>, costs: seq<Cost>, date: int)
    ensures FeesOn(a + b, costs, date) == FeesOn(a, costs, date) + FeesOn(b, costs, date)
    ensures CountOn(a + b, date) == CountOn(a, date) + CountOn(b, date)
    decreases |b|
  {
    hide FeeOf;
    if b == [] {
      assert a + b == a;
    } else {
      var n := |b| - 1;
      assert (a + b)[..|a| + n] == a + b[..n];
      OnConcat(a, b[..n], costs, date);
    }
  }

  lemma DayShows(start: real, fills: seq<Fill>, costs: seq<Cost>, closes: Closes, date: int)
    requires DateOrdered(fills)
    ensures var d := DayOf(start, fills, costs, closes, date);
      d.cashFees == FeesOn(fills, costs, date) && d.fillCount == CountOn(fills, date)
  {
    hide Holdings, Listed, OpenInstruments, Cash, MarketValue, Complete, FeesOn, CountOn, Passed, DateOrdered;
    OnPassed(fills, costs, date);
  }

  lemma OnPassed(fills: seq<Fill>, costs: seq<Cost>, date: int)
    requires DateOrdered(fills)
    ensures FeesOn(fills[..Passed(fills, date)], costs, date) == FeesOn(fills, costs, date)
    ensures CountOn(fills[..Passed(fills, date)], date) == CountOn(fills, date)
  {
    hide FeesOn, CountOn, Passed;
    var n := Passed(fills, date);
    LaterFills(fills, date);
    assert fills == fills[..n] + fills[n..];
    OnConcat(fills[..n], fills[n..], costs, date);
    NothingOn(fills[n..], costs, date);
  }

  lemma LaterFills(fills: seq<Fill>, date: int)
    requires DateOrdered(fills)
    ensures forall i | 0 <= i < |fills[Passed(fills, date)..]| :: fills[Passed(fills, date)..][i].day != date
  {
    hide Passed;
    var n := Passed(fills, date);
    forall i | 0 <= i < |fills| - n ensures fills[n..][i].day != date {
      assert fills[n..][i] == fills[n + i] && fills[n].day <= fills[n + i].day;
    }
  }

  lemma {:induction false} ShownOver(days: seq<Day>, w: seq<int>, fills: seq<Fill>, costs: seq<Cost>, start: real,
                                     closes: Closes)
    requires DaysOf(days, w, fills, costs, start, closes) && DateOrdered(fills)
    ensures ShownFees(days) == FeesOver(w, fills, costs) && ShownCount(days) == CountOver(w, fills)
    decreases |days|
  {
    hide DayOf, DateOrdered, FeesOn, CountOn;
    if days != [] {
      DayShows(start, fills, costs, closes, w[0]);
      ShownOver(days[1..], w[1..], fills, costs, start, closes);
    }
  }

  /** When a report starts before the first fill, its days' fees add up to the fees of all the fills it counts, and
      their counts to that count. */
  lemma DaysAddUp(fills: seq<Fill>, all: nat, costs: seq<Cost>, calendar: seq<int>, coverageStart: int, date: int,
                  afterClose: bool, start: real, closes: Closes, state: BenchmarkState)
    requires Ascending(calendar) && DateOrdered(fills) && state.Benchmark?
    requires ShownFills(fills, all, costs, calendar, coverageStart, date, afterClose, start, closes, state)
    requires state.days != [] && fills != [] && state.days[0].date < fills[0].day
    requires forall f | f in fills :: f.day <= state.days[|state.days| - 1].date
    ensures ShownFees(state.days) == TotalFees(fills, costs) && ShownCount(state.days) == state.fillCount
  {
    FillsDeclared(fills, all, costs, calendar, coverageStart, date, afterClose, start, closes, state);
    hide ShownFills, DayOf, Eligible, Window, FeesOver, CountOver, TotalFees, OnSessions, DateOrdered, Ascending;
    hide DaysOf, ShownFees, ShownCount, TailOf;
    var eligible := Eligible(calendar, date, afterClose);
    SessionsShown(fills, all, costs, calendar, coverageStart, date, afterClose, start, closes, state);
    EligibleAscends(calendar, date, afterClose);
    WindowExact(eligible, fills);
    var w := Window(eligible, fills).value;
    WindowFacts(eligible, fills);
    DaysEnd(state.days, w, fills, costs, start, closes);
    FillsInWindow(fills, calendar, date, afterClose, w);
    ShownOver(state.days, w, fills, costs, start, closes);
    OverAll(w, fills, costs);
  }

  lemma DaysEnd(days: seq<Day>, w: seq<int>, fills: seq<Fill>, costs: seq<Cost>, start: real, closes: Closes)
    requires DaysOf(days, w, fills, costs, start, closes) && w != []
    ensures days != [] && days[0].date == w[0] && days[|days| - 1].date == w[|w| - 1]
  {
  }

  lemma FillsInWindow(fills: seq<Fill>, calendar: seq<int>, date: int, afterClose: bool, w: seq<int>)
    requires Ascending(calendar) && DateOrdered(fills) && fills != []
    requires TailOf(w, Eligible(calendar, date, afterClose)) && w[0] < fills[0].day
    requires forall f | f in fills :: f.day in calendar && f.day <= w[|w| - 1]
    ensures forall f | f in fills :: f.day in w
  {
    hide Eligible, Ascending, TailOf;
    forall f | f in fills ensures f.day in w {
      var i :| 0 <= i < |fills| && fills[i] == f;
      TailCovers(calendar, date, afterClose, w, f.day);
    }
  }

  lemma FillsDeclared(fills: seq<Fill>, all: nat, costs: seq<Cost>, calendar: seq<int>, coverageStart: int, date: int,
                      afterClose: bool, start: real, closes: Closes, state: BenchmarkState)
    requires ShownFills(fills, all, costs, calendar, coverageStart, date, afterClose, start, closes, state)
    requires state.Benchmark?
    ensures forall f | f in fills :: f.day in calendar
  {
    hide SoundReplay, Window, Eligible, DayOf;
  }
}
