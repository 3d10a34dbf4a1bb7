/** Clock-driven withdrawal of claims: a cached workspace aged against the present. */
module Freshness {
  import opened Prelude

  /** A source time in microseconds; None when missing, without a zone or otherwise unreadable. */
  type Stamp = Option<int>

  /** The age in microseconds at `now`, a clock reading in milliseconds. */
  function SourceAge(s: Stamp, now: int): Option<int> {
    if s.None? then None else Some(now * 1000 - s.value)
  }

  predicate WithinAge(age: Option<int>, seconds: nat, futureTolerance: nat) {
    age.Some? && age.value + futureTolerance * 1_000_000 >= 0 && age.value <= seconds * 1_000_000
  }

  predicate Within(s: Stamp, now: int, seconds: nat, futureTolerance: nat) {
    WithinAge(SourceAge(s, now), seconds, futureTolerance)
  }

  // ---------- the engine's watchlist ----------

  datatype Status = Running | Ok | Degraded | Stale | Invalid | Other(name: Text)

  datatype Reason = Duplicate | EngineUnverified | TimestampUnrecorded | FutureTick | TickExpired | EngineRejected
                  | Fresh | WorkspaceExpired

  /** A watched instrument; a field that is not text is the empty text. The tick's age and the stated
      reason are written by each ageing. */
  datatype Row = Row(market: Text, exchange: Text, assetClass: Text, symbol: Text, currency: Text,
                     tickAt: Stamp, isFresh: bool, tickAge: Option<int>, reason: Option<Reason>)

  datatype Listing<T> = Absent | Malformed | Rows(rows: seq<T>)

  datatype Manifest = Manifest(checkedAt: Stamp, sourceCheckAge: Option<int>)

  datatype Runtime = Runtime(status: Status, paper: bool, updatedAt: Stamp, watchlist: Listing<Row>,
                             manifest: Manifest, reconciledAt: Stamp, coveredAt: Stamp, sweptAt: Stamp)

  const MAX_ROWS: nat := 500

  predicate TextField(t: Text) {
    0 < |t| <= 100
  }

  predicate SoundRow(r: Row) {
    && TextField(r.symbol) && TextField(r.market) && TextField(r.assetClass) && TextField(r.currency)
    && TextField(r.exchange)
  }

  function ListedRows<T>(l: Listing<T>): seq<T> {
    if l.Rows? then l.rows else []
  }

  predicate SoundWatchlist(l: Listing<Row>) {
    !l.Malformed? && |ListedRows(l)| <= MAX_ROWS && forall r | r in ListedRows(l) :: SoundRow(r)
  }

  /** The text an instrument is identified by. */
  function Key(r: Row): Text {
    r.market + [58] + r.exchange + [58] + r.assetClass + [58] + r.symbol
  }

  function Keys(rows: seq<Row>): (keys: seq<Text>)
    ensures |keys| == |rows|
  {
    seq(|rows|, i requires 0 <= i < |rows| => Key(rows[i]))
  }

  ghost predicate Repeated(keys: seq<Text>, k: Text) {
    exists i, j :: 0 <= i < j < |keys| && keys[i] == k && keys[j] == k
  }

  method FindDuplicates(keys: seq<Text>) returns (duplicates: set<Text>)
    ensures forall k :: k in duplicates <==> Repeated(keys, k)
  {
    var seen: set<Text> := {};
    duplicates := {};
    for n := 0 to |keys|
      invariant forall k :: k in seen <==> k in keys[..n]
      invariant forall k :: k in duplicates <==> Repeated(keys[..n], k)
    {
      RepeatedStep(keys, n);
      if keys[n] in seen {
        duplicates := duplicates + {keys[n]};
      }
      seen := seen + {keys[n]};
    }
    assert keys[..|keys|] == keys;
  }

  lemma RepeatedStep(keys: seq<Text>, n: nat)
    requires n < |keys|
    ensures forall k :: Repeated(keys[..n + 1], k) <==> Repeated(keys[..n], k) || (k == keys[n] && k in keys[..n])
  {
    var a, b := keys[..n], keys[..n + 1];
    forall k ensures Repeated(b, k) <==> Repeated(a, k) || (k == keys[n] && k in a) {
      if i, j :| 0 <= i < j < |b| && b[i] == k && b[j] == k {
        assert a[i] == k;
      }
      if Repeated(a, k) {
        var i, j :| 0 <= i < j < |a| && a[i] == k && a[j] == k;
        assert b[i] == k && b[j] == k;
      }
      if k == keys[n] && k in a {
        var i :| 0 <= i < |a| && a[i] == k;
        assert b[i] == k && b[n] == k;
      }
    }
  }

  predicate DuplicateRow(rows: seq<Row>, i: nat)
    requires i < |rows|
  {
    exists j :: 0 <= j < |rows| && j != i && Key(rows[j]) == Key(rows[i])
  }

  lemma RepeatedRow(rows: seq<Row>, i: nat)
    requires i < |rows|
    ensures Repeated(Keys(rows), Key(rows[i])) <==> DuplicateRow(rows, i)
  {
    var keys := Keys(rows);
    if a, b :| 0 <= a < b < |keys| && keys[a] == Key(rows[i]) && keys[b] == Key(rows[i]) {
      assert Key(rows[if a == i then b else a]) == Key(rows[i]);
    }
    if j :| 0 <= j < |rows| && j != i && Key(rows[j]) == Key(rows[i]) {
      assert keys[j] == Key(rows[i]) && keys[i] == Key(rows[i]);
    }
  }

  predicate HeartbeatCurrent(r: Runtime, now: int) {
    Within(r.updatedAt, now, 10, 5)
  }

  function HeartbeatStatus(r: Runtime, now: int): Status {
    if HeartbeatCurrent(r, now) then r.status else Stale
  }

  predicate EngineRunning(r: Runtime, now: int) {
    HeartbeatStatus(r, now).Running? && r.paper
  }

  /** Why a row is or is not fresh, from the first test that decides it. */
  function FreshnessReason(row: Row, duplicate: bool, running: bool, now: int): Reason {
    var age := SourceAge(row.tickAt, now);
    if duplicate then Duplicate
    else if !running then EngineUnverified
    else if age.None? then TimestampUnrecorded
    else if age.value < 0 then FutureTick
    else if age.value > 120_000_000 then TickExpired
    else if !row.isFresh then EngineRejected
    else Fresh
  }

  function AgedRow(row: Row, duplicate: bool, running: bool, now: int): (aged: Row)
    ensures aged.isFresh <==> aged.reason == Some(Fresh)
  {
    row.(isFresh := running && !duplicate && row.isFresh && Within(row.tickAt, now, 120, 0),
         tickAge := SourceAge(row.tickAt, now), reason := Some(FreshnessReason(row, duplicate, running, now)))
  }

  predicate RowFresh(rows: seq<Row>, i: nat, running: bool, now: int)
    requires i < |rows|
  {
    AgedRow(rows[i], DuplicateRow(rows, i), running, now).isFresh
  }

  function AgedRows(rows: seq<Row>, running: bool, now: int): (aged: seq<Row>)
    ensures |aged| == |rows|
  {
    seq(|rows|, i requires 0 <= i < |rows| => AgedRow(rows[i], DuplicateRow(rows, i), running, now))
  }

  /** `ageRuntime`, as a definition. */
  function AgedRuntime(r: Runtime, now: int): Runtime {
    if SoundWatchlist(r.watchlist) then
      r.(status := HeartbeatStatus(r, now),
         watchlist := Rows(AgedRows(ListedRows(r.watchlist), EngineRunning(r, now), now)))
    else
      r.(status := Invalid, watchlist := Rows([]))
  }

  method AgeRuntime(r: Runtime, now: int) returns (aged: Runtime)
    ensures aged == AgedRuntime(r, now)
  {
    hide SoundWatchlist, Repeated, DuplicateRow, Within, AgedRow;
    var status := if HeartbeatCurrent(r, now) then r.status else Stale;
    var running := status.Running? && r.paper;
    var rows := ListedRows(r.watchlist);
    if !SoundWatchlist(r.watchlist) {
      return r.(status := Invalid, watchlist := Rows([]));
    }
    var duplicates := FindDuplicates(Keys(rows));
    var out := [];
    for n := 0 to |rows|
      invariant out == AgedRows(rows, running, now)[..n]
    {
      var row := rows[n];
      RepeatedRow(rows, n);
      out := out + [AgedRow(row, Key(row) in duplicates, running, now)];
    }
    assert out == AgedRows(rows, running, now);
    aged := r.(status := status, watchlist := Rows(out));
  }

  /** `tradingFeedCheck`: the feed is covered when the engine runs on paper and every row is fresh. */
  predicate FeedPasses(r: Runtime, now: int) {
    var aged := AgedRuntime(r, now);
    var rows := ListedRows(aged.watchlist);
    && aged.status.Running? && aged.paper && |rows| > 0
    && (forall i | 0 <= i < |rows| :: rows[i].isFresh)
    && |set k | k in Keys(rows)| == |rows|
  }

  // ---------- the paper portfolio ----------

  datatype Holding = Holding(market: Text, assetClass: Text, symbol: Text, isFresh: bool, priced: bool, liveTick: bool,
                             markAt: Stamp)

  /** `priced`: the mark price is a positive number. `allMarksFresh`: None when the field is missing. */
  datatype Portfolio = Portfolio(status: Status, engineLive: bool, updatedAt: Stamp, holdings: Listing<Holding>,
                                 allMarksFresh: Option<bool>)

  predicate BookCurrent(p: Portfolio, now: int) {
    p.engineLive && (p.status.Ok? || p.status.Degraded?) && Within(p.updatedAt, now, 30, 5)
  }

  predicate MarkFresh(h: Holding, current: bool, now: int) {
    current && h.isFresh && h.priced && h.liveTick && Within(h.markAt, now, 120, 0)
  }

  function AgedHoldings(hs: seq<Holding>, current: bool, now: int): (aged: seq<Holding>)
    ensures |aged| == |hs|
  {
    seq(|hs|, i requires 0 <= i < |hs| => hs[i].(isFresh := MarkFresh(hs[i], current, now)))
  }

  predicate AllFresh(hs: seq<Holding>) {
    forall i | 0 <= i < |hs| :: hs[i].isFresh
  }

  function AgedPortfolio(p: Portfolio, now: int): Portfolio {
    var current := BookCurrent(p, now);
    var valid := !p.holdings.Malformed?;
    var holdings := AgedHoldings(ListedRows(p.holdings), current, now);
    var allFresh := valid && p.allMarksFresh != Some(false) && AllFresh(holdings);
    var status :=
      if !valid || p.status.Invalid? then Invalid
      else if !p.engineLive then p.status
      else if !current then Stale
      else if !allFresh then Degraded
      else p.status;
    p.(status := status, holdings := Rows(holdings), allMarksFresh := Some(current && allFresh))
  }

  // ---------- the workspace ----------

  datatype CheckId = Engine | EntryControls | StrategyManifest | StrategyEvidence | Reconciliation
                   | ProtectionCoverage | ProtectionSweep | Evidence | Ticks | Quotes | Marks | OtherCheck(name: Text)

  datatype Check = Check(id: CheckId, pass: bool)

  datatype ContributionRow = ContributionRow(market: Text, assetClass: Text, symbol: Text, markFresh: bool)

  /** A panel that carries a verdict fixed when it was fetched. */
  datatype Observation = Observation(available: bool, hasReport: bool, finishedAt: Stamp)

  /** `attribution`, `historicalRisk`: whether the panel shows current figures.
      `contribution`: the rows of its report, None without one. */
  datatype Workspace = Workspace(generatedAt: Stamp, runtime: Runtime, portfolio: Portfolio, fetchedAt: Stamp,
                                 collectorStale: bool, checks: seq<Check>, broker: Observation, account: Observation,
                                 attribution: bool, historicalRisk: bool, contribution: Option<seq<ContributionRow>>)

  predicate ResponseCurrent(w: Workspace, now: int) {
    Within(w.generatedAt, now, 30, 5)
  }

  function ExpiredRows(rows: seq<Row>): (r: seq<Row>)
    ensures |r| == |rows|
  {
    seq(|rows|, i requires 0 <= i < |rows| => rows[i].(isFresh := false, reason := Some(WorkspaceExpired)))
  }

  function ExpiredHoldings(hs: seq<Holding>): (r: seq<Holding>)
    ensures |r| == |hs|
  {
    seq(|hs|, i requires 0 <= i < |hs| => hs[i].(isFresh := false))
  }

  function ShownRuntime(r: Runtime, responseCurrent: bool, now: int): Runtime {
    var aged := AgedRuntime(r, now);
    if responseCurrent then aged
    else aged.(status := Stale, watchlist := Rows(ExpiredRows(ListedRows(aged.watchlist))))
  }

  function ShownPortfolio(p: Portfolio, responseCurrent: bool, now: int): Portfolio {
    var aged := AgedPortfolio(p, now);
    if responseCurrent then aged
    else aged.(status := if aged.status.Invalid? then Invalid else Stale,
               holdings := Rows(ExpiredHoldings(ListedRows(aged.holdings))))
  }

  predicate EngineCurrent(shown: Runtime) {
    shown.status.Running? && shown.paper
  }

  predicate ManifestCurrent(shown: Runtime, now: int) {
    var m := shown.manifest;
    && EngineCurrent(shown) && Within(m.checkedAt, now, 10, 5)
    && m.sourceCheckAge.Some? && m.sourceCheckAge.value >= 0
    && m.sourceCheckAge.value + Max(SourceAge(m.checkedAt, now).value, 0) <= 65_000_000
  }

  predicate CurrentBook(shown: Portfolio, responseCurrent: bool) {
    responseCurrent && shown.engineLive && shown.status.Ok?
  }

  /** Whether a check may still pass, given what is shown. */
  predicate Allowed(id: CheckId, responseCurrent: bool, r: Runtime, p: Portfolio, collectorStale: bool, now: int) {
    && responseCurrent
    && match id
       case Ticks => FeedPasses(r, now)
       case Quotes => !collectorStale
       case Marks => CurrentBook(p, responseCurrent)
       case StrategyManifest => ManifestCurrent(r, now)
       case StrategyEvidence => ManifestCurrent(r, now)
       case Evidence => ManifestCurrent(r, now)
       case Reconciliation => EngineCurrent(r) && Within(r.reconciledAt, now, 120, 5)
       case ProtectionCoverage => EngineCurrent(r) && CurrentBook(p, responseCurrent) && Within(r.coveredAt, now, 10, 5)
       case ProtectionSweep => EngineCurrent(r) && Within(r.sweptAt, now, 10, 5)
       case Engine => EngineCurrent(r)
       case EntryControls => EngineCurrent(r)
       case OtherCheck(_) => true
  }

  function AgedChecks(checks: seq<Check>, responseCurrent: bool, r: Runtime, p: Portfolio, collectorStale: bool,
                      now: int): (aged: seq<Check>)
    ensures |aged| == |checks|
  {
    seq(|checks|, i requires 0 <= i < |checks| =>
      checks[i].(pass := checks[i].pass && Allowed(checks[i].id, responseCurrent, r, p, collectorStale, now)))
  }

  predicate Backed(row: ContributionRow, hs: seq<Holding>) {
    row.markFresh ==>
      exists h ::
        h in hs && h.market == row.market && h.assetClass == row.assetClass && h.symbol == row.symbol && h.isFresh
  }

  predicate ContributionCurrent(rows: seq<ContributionRow>, p: Portfolio, responseCurrent: bool, now: int) {
    && responseCurrent && Within(p.updatedAt, now, 30, 5)
    && forall row | row in rows :: Backed(row, ListedRows(p.holdings))
  }

  function AgedObservation(o: Observation, now: int): Observation {
    if o.hasReport && o.available && !Within(o.finishedAt, now, 120, 5) then o.(available := false) else o
  }

  predicate CollectorStale(w: Workspace, now: int) {
    w.collectorStale || !Within(w.fetchedAt, now, 120, 5)
  }

  function AgedWorkspace(w: Workspace, now: int): Workspace {
    var responseCurrent := ResponseCurrent(w, now);
    var r := ShownRuntime(w.runtime, responseCurrent, now);
    var p := ShownPortfolio(w.portfolio, responseCurrent, now);
    var stale := CollectorStale(w, now);
    var book := CurrentBook(p, responseCurrent);
    Workspace(w.generatedAt, r, p, w.fetchedAt, stale, AgedChecks(w.checks, responseCurrent, r, p, stale, now),
              AgedObservation(w.broker, now), AgedObservation(w.account, now),
              w.attribution && book, w.historicalRisk && book,
              if w.contribution.Some? && !ContributionCurrent(w.contribution.value, p, responseCurrent, now) then None
              else w.contribution)
  }
}
