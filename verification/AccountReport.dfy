/** `readAccountBenchmark` behind the account's own acceptance: which evidence gives a report, and what every
    day of a report then is. */
module AccountReport {
  import opened Prelude
  import opened AccountBenchmark
  import opened PaperAccount
  import opened AccountTheorems

  datatype BenchmarkState = NotAvailable | InvalidEvidence | Benchmark(days: seq<Day>, fillCount: nat, excluded: nat)

  function Eligible(calendar: seq<int>, accountDate: int, afterClose: bool): seq<int> {
    if calendar == [] then []
    else
      var last := calendar[|calendar| - 1];
      Eligible(calendar[..|calendar| - 1], accountDate, afterClose)
      + if last < accountDate || (last == accountDate && afterClose) then [last] else []
  }

  function IndexOf(xs: seq<int>, x: int): (i: int)
    ensures -1 <= i < |xs|
    ensures i == -1 <==> x !in xs
    ensures i >= 0 ==> xs[i] == x
  {
    if xs == [] then -1
    else if xs[|xs| - 1] == x && x !in xs[..|xs| - 1] then |xs| - 1
    else
      assert xs == xs[..|xs| - 1] + [xs[|xs| - 1]];
      IndexOf(xs[..|xs| - 1], x)
  }

  lemma {:induction false} EligibleAscends(calendar: seq<int>, accountDate: int, afterClose: bool)
    requires Ascending(calendar)
    ensures Ascending(Eligible(calendar, accountDate, afterClose))
    ensures forall d | d in Eligible(calendar, accountDate, afterClose) :: d in calendar
    decreases |calendar|
  {
    if calendar != [] {
      var n := |calendar| - 1;
      var rest := Eligible(calendar[..n], accountDate, afterClose);
      EligibleAscends(calendar[..n], accountDate, afterClose);
      forall i | 0 <= i < |rest| ensures rest[i] < calendar[n] {
        assert rest[i] in rest;
      }
    }
  }

  /** The declared sessions the replay covers: from the session before the first fill, at most the last
      253, up to the latest completed one. None when the report is not available. */
  function Window(eligible: seq<int>, fills: seq<Fill>): Option<seq<int>> {
    if eligible == [] || fills == [] || IndexOf(eligible, fills[0].day) < 1 then None
    else Some(LastWindow(eligible[IndexOf(eligible, fills[0].day) - 1..]))
  }

  ghost predicate OnSessions(fills: seq<Fill>, calendar: seq<int>) {
    forall f | f in fills :: f.day in calendar && f.inSession
  }

  lemma WindowFacts(eligible: seq<int>, fills: seq<Fill>)
    requires Ascending(eligible) && Window(eligible, fills).Some?
    ensures var sessions := Window(eligible, fills).value;
      sessions != [] && Ascending(sessions) && sessions[|sessions| - 1] == eligible[|eligible| - 1]
  {
    hide IndexOf;
  }

  /** The latest completed session, if there is one. */
  function Through(calendar: seq<int>, asOf: int): Option<int> {
    var eligible := Eligible(calendar, DateAt(asOf), TimeAt(asOf) >= CLOSES);
    if eligible == [] then None else Some(eligible[|eligible| - 1])
  }

  /** What the report is for an account of this standing. */
  ghost predicate Reports(standing: Standing, entries: seq<Entry>, charges: seq<Charge>, asOf: int, asOfZoned: bool,
                          calendar: seq<int>, coverageStart: int, start: real, closes: Closes, state: BenchmarkState)
  {
    if !standing.Accepted? then
      state == if standing.Refused? then InvalidEvidence else NotAvailable
    else if !asOfZoned then state == InvalidEvidence
    else if Through(calendar, asOf).None? then state == NotAvailable
    else if exists e :: e in entries && !e.zoned then state == InvalidEvidence
    else
      var fills := UpTo(Fills(entries), Through(calendar, asOf).value);
      ShownFills(fills, |entries|, Costs(charges), calendar, coverageStart, DateAt(asOf), TimeAt(asOf) >= CLOSES,
                 start, closes, state)
  }

  ghost predicate ShownFills(fills: seq<Fill>, all: nat, costs: seq<Cost>, calendar: seq<int>, coverageStart: int,
                             date: int, afterClose: bool, start: real, closes: Closes, state: BenchmarkState)
  {
    var eligible := Eligible(calendar, date, afterClose);
    if fills == [] || fills[0].day < coverageStart then state == NotAvailable
    else if !OnSessions(fills, calendar) then state == InvalidEvidence
    else if Window(eligible, fills).None? then state == NotAvailable
    else
      var sessions := Window(eligible, fills).value;
      if !SoundReplay(start, fills, costs, closes, sessions) then state == InvalidEvidence
      else
        && state.Benchmark? && state.fillCount == |fills| && state.excluded == all - |fills|
        && |state.days| == |sessions|
        && forall i | 0 <= i < |sessions| :: state.days[i] == DayOf(start, fills, costs, closes, sessions[i])
  }

  method ShowFills(fills: seq<Fill>, all: nat, costs: seq<Cost>, calendar: seq<int>, coverageStart: int,
                   date: int, afterClose: bool, start: real, closes: Closes) returns (state: BenchmarkState)
    requires Ascending(calendar) && Eligible(calendar, date, afterClose) != [] && |fills| <= all
    requires var eligible := Eligible(calendar, date, afterClose);
      forall f | f in fills :: f.day <= eligible[|eligible| - 1]
    ensures ShownFills(fills, all, costs, calendar, coverageStart, date, afterClose, start, closes, state)
  {
    hide SoundReplay, DayOf, IndexOf, Eligible, Ascending, LastWindow;
    var eligible := Eligible(calendar, date, afterClose);
    EligibleAscends(calendar, date, afterClose);
    if fills == [] || fills[0].day < coverageStart {
      return NotAvailable;
    }
    if exists f | f in fills :: f.day !in calendar || !f.inSession {
      return InvalidEvidence;
    }
    var firstIndex := IndexOf(eligible, fills[0].day);
    if firstIndex < 1 {
      return NotAvailable;
    }
    var sessions := LastWindow(eligible[firstIndex - 1..]);
    WindowFacts(eligible, fills);
    var days := Replay(start, fills, costs, closes, sessions);
    if days.None? {
      return InvalidEvidence;
    }
    return Benchmark(days.value, |fills|, all - |fills|);
  }

  method ReadAccountBenchmark(standing: Standing, entries: seq<Entry>, charges: seq<Charge>, asOf: int, asOfZoned: bool,
                              calendar: seq<int>, coverageStart: int, start: real, closes: Closes)
      returns (state: BenchmarkState)
    requires Ascending(calendar)
    ensures Reports(standing, entries, charges, asOf, asOfZoned, calendar, coverageStart, start, closes, state)
  {
    hide ShownFills, Eligible, UpTo, Ascending;
    if !standing.Accepted? {
      return if standing.Refused? then InvalidEvidence else NotAvailable;
    }
    if !asOfZoned {
      return InvalidEvidence;
    }
    var date, afterClose := DateAt(asOf), TimeAt(asOf) >= CLOSES;
    var eligible := Eligible(calendar, date, afterClose);
    if eligible == [] {
      return NotAvailable;
    }
    if exists e | e in entries :: !e.zoned {
      return InvalidEvidence;
    }
    var through := eligible[|eligible| - 1];
    var fills := UpTo(Fills(entries), through);
    UpToExact(Fills(entries), through);
    UpToShorter(Fills(entries), through);
    state := ShowFills(fills, |entries|, Costs(charges), calendar, coverageStart, date, afterClose, start, closes);
  }

  /** The account is accepted, then replayed, in one reading of the ledger. No report is made of an account that is
      not accepted, and every day of a report is the account defined from scratch on the whole ledger. */
  method ReadSnapshotBenchmark(stored: bool, matches: bool, agrees: bool, entries: seq<Entry>, charges: seq<Charge>,
                               start: real, cash: real, asOf: int, asOfZoned: bool, calendar: seq<int>,
                               coverageStart: int, closes: Closes)
      returns (state: BenchmarkState, standing: Standing)
    requires Ascending(calendar)
    ensures Stands(standing, stored, matches, agrees, entries, charges, start, cash, asOf)
    ensures Reports(standing, entries, charges, asOf, asOfZoned, calendar, coverageStart, start, closes, state)
    ensures state.Benchmark? ==> AcceptedLedger(entries, charges, start, cash, asOf)
    ensures state.Benchmark? ==>
              forall d | d in state.days :: FromScratch(d, start, Fills(entries), Costs(charges), closes)
  {
    hide AcceptedLedger, Reports, FromScratch;
    standing := AcceptAccount(stored, matches, agrees, entries, charges, start, cash, asOf);
    state := ReadAccountBenchmark(standing, entries, charges, asOf, asOfZoned, calendar, coverageStart, start, closes);
    if state.Benchmark? {
      ReportIsAccepted(standing, entries, charges, asOf, asOfZoned, calendar, coverageStart, start, closes, state);
      ReportFromScratch(standing, entries, charges, cash, asOf, asOfZoned, calendar, coverageStart, start, closes,
                        state);
    }
  }

  lemma ReportIsAccepted(standing: Standing, entries: seq<Entry>, charges: seq<Charge>, asOf: int, asOfZoned: bool,
                         calendar: seq<int>, coverageStart: int, start: real, closes: Closes, state: BenchmarkState)
    requires Reports(standing, entries, charges, asOf, asOfZoned, calendar, coverageStart, start, closes, state)
    requires state.Benchmark?
    ensures standing.Accepted?
  {
    hide ShownFills;
  }

  lemma ReportFromScratch(standing: Standing, entries: seq<Entry>, charges: seq<Charge>, cash: real, asOf: int,
                          asOfZoned: bool, calendar: seq<int>, coverageStart: int, start: real, closes: Closes,
                          state: BenchmarkState)
    requires Ascending(calendar) && AcceptedLedger(entries, charges, start, cash, asOf)
    requires Reports(standing, entries, charges, asOf, asOfZoned, calendar, coverageStart, start, closes, state)
    requires standing.Accepted? && state.Benchmark?
    ensures forall d | d in state.days :: FromScratch(d, start, Fills(entries), Costs(charges), closes)
  {
    hide FromScratch, DayOf, Eligible, UpTo, SoundReplay, AcceptedEntries, AcceptedCharges, SignedNotional, IndexOf,
         LastWindow, OnSessions;
    var eligible := Eligible(calendar, DateAt(asOf), TimeAt(asOf) >= CLOSES);
    EligibleAscends(calendar, DateAt(asOf), TimeAt(asOf) >= CLOSES);
    var through := eligible[|eligible| - 1];
    var fills := UpTo(Fills(entries), through);
    WindowFacts(eligible, fills);
    var sessions := Window(eligible, fills).value;
    forall d | d in state.days ensures FromScratch(d, start, Fills(entries), Costs(charges), closes) {
      var i :| 0 <= i < |state.days| && state.days[i] == d;
      AcceptedDayFromScratch(entries, asOf, start, Costs(charges), closes, sessions[i], through);
    }
  }
}
