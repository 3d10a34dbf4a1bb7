/** Ageing only withdraws claims, and ageing twice is ageing once at the later time. */
module AgeingTheorems {
  import opened Prelude
  import opened Freshness

  // ---------- one stamp ----------

  /** The stamp is not further in the future than its tolerance. */
  predicate NotAhead(s: Stamp, now: int, futureTolerance: nat) {
    s.Some? ==> s.value <= now * 1000 + futureTolerance * 1_000_000
  }

  /** A stamp qualifies from the given age before the clock up to the tolerance after it, both ends included. */
  lemma WithinMeans(s: Stamp, now: int, seconds: nat, futureTolerance: nat)
    ensures Within(s, now, seconds, futureTolerance) <==>
      && s.Some?
      && now * 1000 - seconds * 1_000_000 <= s.value <= now * 1000 + futureTolerance * 1_000_000
  {
  }

  lemma StaysWithin(s: Stamp, t1: int, t2: int, seconds: nat, futureTolerance: nat)
    requires t1 <= t2 && NotAhead(s, t1, futureTolerance) && Within(s, t2, seconds, futureTolerance)
    ensures Within(s, t1, seconds, futureTolerance)
  {
  }

  ghost predicate Composes(s: Stamp, t1: int, seconds: nat, futureTolerance: nat) {
    forall t2 | t1 <= t2 :: Within(s, t2, seconds, futureTolerance) ==> Within(s, t1, seconds, futureTolerance)
  }

  /** Ageing a stamp at t1 and then at any later time is ageing it once exactly when the stamp is not
      further in the future at t1 than its tolerance: otherwise a verdict refused at t1 comes back. */
  lemma CompositionExact(s: Stamp, t1: int, seconds: nat, futureTolerance: nat)
    requires seconds > 0
    ensures Composes(s, t1, seconds, futureTolerance) <==> NotAhead(s, t1, futureTolerance)
  {
    if NotAhead(s, t1, futureTolerance) {
      forall t2 | t1 <= t2 && Within(s, t2, seconds, futureTolerance) ensures Within(s, t1, seconds, futureTolerance) {
        StaysWithin(s, t1, t2, seconds, futureTolerance);
      }
    } else {
      var t2 := s.value / 1000 + 1;
      var later := if t2 < t1 then t1 else t2;
      assert Within(s, later, seconds, futureTolerance);
    }
  }

  // ---------- the engine ----------

  ghost predicate RowsNotAhead(rows: seq<Row>, now: int) {
    forall i | 0 <= i < |rows| :: NotAhead(rows[i].tickAt, now, 0)
  }

  ghost predicate RuntimeNotAhead(r: Runtime, now: int) {
    && NotAhead(r.updatedAt, now, 5) && NotAhead(r.manifest.checkedAt, now, 5) && NotAhead(r.reconciledAt, now, 5)
    && NotAhead(r.coveredAt, now, 5) && NotAhead(r.sweptAt, now, 5) && RowsNotAhead(ListedRows(r.watchlist), now)
  }

  lemma RunningStays(r: Runtime, t1: int, t2: int)
    requires t1 <= t2 && (t1 == t2 || NotAhead(r.updatedAt, t1, 5)) && HeartbeatCurrent(r, t2)
    ensures HeartbeatCurrent(r, t1)
  {
    if t1 < t2 {
      StaysWithin(r.updatedAt, t1, t2, 10, 5);
    }
  }

  lemma DuplicatesKept(rows: seq<Row>, aged: seq<Row>, i: nat)
    requires i < |rows| == |aged| && forall j | 0 <= j < |rows| :: Key(aged[j]) == Key(rows[j])
    ensures DuplicateRow(aged, i) <==> DuplicateRow(rows, i)
  {
    hide Key;
  }

  /** The same row but for what an ageing writes. */
  predicate Relabelled(row: Row, aged: Row) {
    aged == row.(isFresh := aged.isFresh, tickAge := aged.tickAge, reason := aged.reason)
  }

  lemma SoundKept(rows: seq<Row>, aged: seq<Row>)
    requires SoundWatchlist(Rows(rows)) && |aged| == |rows|
    requires forall i | 0 <= i < |rows| :: Relabelled(rows[i], aged[i])
    ensures SoundWatchlist(Rows(aged))
  {
    forall r | r in aged ensures SoundRow(r) {
      var i :| 0 <= i < |aged| && aged[i] == r;
      assert rows[i] in rows;
    }
  }

  lemma RowFreshStays(rows: seq<Row>, i: nat, t1: int, t2: int, running1: bool, running2: bool)
    requires i < |rows| && t1 <= t2 && (t1 == t2 || NotAhead(rows[i].tickAt, t1, 0)) && (running2 ==> running1)
    ensures RowFresh(rows, i, running2, t2) ==> RowFresh(rows, i, running1, t1)
  {
    if Within(rows[i].tickAt, t2, 120, 0) && t1 < t2 {
      StaysWithin(rows[i].tickAt, t1, t2, 120, 0);
    }
  }

  lemma RowsCompose(rows: seq<Row>, t1: int, t2: int, running1: bool, running2: bool)
    requires t1 <= t2 && (t1 == t2 || RowsNotAhead(rows, t1)) && (running2 ==> running1)
    ensures AgedRows(AgedRows(rows, running1, t1), running2, t2) == AgedRows(rows, running2, t2)
  {
    var once := AgedRows(rows, running1, t1);
    forall i | 0 <= i < |rows| ensures AgedRows(once, running2, t2)[i] == AgedRows(rows, running2, t2)[i] {
      RowFreshStays(rows, i, t1, t2, running1, running2);
      DuplicatesKept(rows, once, i);
    }
  }

  lemma ExpiredCompose(rows: seq<Row>, t1: int, t2: int, running1: bool, running2: bool)
    ensures ExpiredRows(AgedRows(ExpiredRows(AgedRows(rows, running1, t1)), false, t2))
         == ExpiredRows(AgedRows(rows, running2, t2))
  {
  }

  /** Ageing an engine with a sound watchlist at t1 and then at t2 is ageing it once at t2. */
  lemma EngineComposes(r: Runtime, t1: int, t2: int)
    requires t1 <= t2 && (t1 == t2 || RuntimeNotAhead(r, t1)) && SoundWatchlist(r.watchlist)
    ensures AgedRuntime(AgedRuntime(r, t1), t2) == AgedRuntime(r, t2)
  {
    hide AgedRows, SoundWatchlist, Within;
    var once, rows := AgedRuntime(r, t1), ListedRows(r.watchlist);
    AgedSound(r, t1);
    if HeartbeatCurrent(r, t2) {
      RunningStays(r, t1, t2);
    }
    RowsCompose(rows, t1, t2, EngineRunning(r, t1), EngineRunning(once, t2));
    assert EngineRunning(once, t2) == EngineRunning(r, t2);
  }

  lemma AgedSound(r: Runtime, now: int)
    requires SoundWatchlist(r.watchlist)
    ensures SoundWatchlist(AgedRuntime(r, now).watchlist)
  {
    hide Within, DuplicateRow;
    SoundKept(ListedRows(r.watchlist), AgedRows(ListedRows(r.watchlist), EngineRunning(r, now), now));
  }

  lemma ShownSound(r: Runtime, responseCurrent: bool, now: int)
    requires SoundWatchlist(r.watchlist)
    ensures SoundWatchlist(ShownRuntime(r, responseCurrent, now).watchlist)
  {
    hide AgedRows, Within;
    AgedSound(r, now);
    var rows := ListedRows(AgedRuntime(r, now).watchlist);
    SoundKept(rows, ExpiredRows(rows));
  }

  lemma ShownEngineComposes(r: Runtime, t1: int, t2: int, current1: bool, current2: bool)
    requires t1 <= t2 && RuntimeNotAhead(r, t1) && SoundWatchlist(r.watchlist) && (current2 ==> current1)
    ensures ShownRuntime(ShownRuntime(r, current1, t1), current2, t2) == ShownRuntime(r, current2, t2)
  {
    hide SoundWatchlist, Within, AgedRows, ExpiredRows, RuntimeNotAhead, HeartbeatCurrent;
    if current1 {
      EngineComposes(r, t1, t2);
    } else {
      ShownSound(r, false, t1);
      var rows := ListedRows(r.watchlist);
      ExpiredCompose(rows, t1, t2, EngineRunning(r, t1), EngineRunning(r, t2));
      assert HeartbeatStatus(ShownRuntime(r, false, t1), t2) == Stale;
    }
  }

  /** Apart from the status label the shown engine of a malformed watchlist is also the same, and neither
      label claims that the engine runs. */
  lemma MalformedComposes(r: Runtime, t1: int, t2: int, current1: bool, current2: bool)
    requires !SoundWatchlist(r.watchlist)
    ensures var twice, once := ShownRuntime(ShownRuntime(r, current1, t1), current2, t2), ShownRuntime(r, current2, t2);
      twice == once.(status := twice.status) && !twice.status.Running? && !once.status.Running?
  {
    hide Within;
  }

  /** The label differs exactly when both pages are current and the heartbeat has expired by the second
      ageing: a malformed watchlist is then called stale instead of invalid. */
  lemma MalformedLabelExact(r: Runtime, t1: int, t2: int, current1: bool, current2: bool)
    requires !SoundWatchlist(r.watchlist) && (current2 ==> current1)
    ensures ShownRuntime(ShownRuntime(r, current1, t1), current2, t2).status == ShownRuntime(r, current2, t2).status
       <==> !current2 || HeartbeatCurrent(r, t2)
  {
    hide Within;
  }

  const EARLY_TICK := Row([1], [1], [1], [1], [1], Some(1_000_000), true, None, None)

  /** A tick dated one second ahead is not fresh now, is fresh a second later, and is not if the row was also aged
      in between. */
  lemma EarlyTickReturns()
    ensures !AgedRows([EARLY_TICK], true, 0)[0].isFresh && AgedRows([EARLY_TICK], true, 1000)[0].isFresh
    ensures !AgedRows(AgedRows([EARLY_TICK], true, 0), true, 1000)[0].isFresh
  {
    var rows := [EARLY_TICK];
    assert !DuplicateRow(rows, 0) && !DuplicateRow(AgedRows(rows, true, 0), 0);
    assert !AgedRow(EARLY_TICK, false, true, 0).isFresh;
  }

  // ---------- the trading feed ----------

  lemma {:induction false} DistinctCount(keys: seq<Text>)
    requires forall i, j | 0 <= i < j < |keys| :: keys[i] != keys[j]
    ensures |set k | k in keys| == |keys|
    decreases |keys|
  {
    if keys != [] {
      var n := |keys| - 1;
      DistinctCount(keys[..n]);
      assert keys == keys[..n] + [keys[n]];
      assert (set k | k in keys) == (set k | k in keys[..n]) + {keys[n]};
    }
  }

  ghost predicate FeedCovered(r: Runtime, now: int) {
    && SoundWatchlist(r.watchlist) && EngineRunning(r, now) && |ListedRows(r.watchlist)| > 0
    && forall i | 0 <= i < |ListedRows(r.watchlist)| :: RowFresh(ListedRows(r.watchlist), i, true, now)
  }

  /** The feed check passes exactly when a running paper engine has a sound, non-empty watchlist on which
      every row is fresh: no repeated instrument, no future tick, none older than 120 seconds. */
  lemma FeedExact(r: Runtime, now: int)
    ensures FeedPasses(r, now) <==> FeedCovered(r, now)
  {
    hide Within, SoundWatchlist;
    var rows := ListedRows(r.watchlist);
    if FeedPasses(r, now) {
      FeedPassesOn(r, now);
    }
    if FeedCovered(r, now) {
      forall i | 0 <= i < |rows| ensures AgedRows(rows, true, now)[i].isFresh {
        assert RowFresh(rows, i, true, now);
      }
      var keys := Keys(AgedRows(rows, true, now));
      forall i, j | 0 <= i < j < |keys| ensures keys[i] != keys[j] {
        assert RowFresh(rows, i, true, now);
        assert keys[i] == Key(rows[i]) && keys[j] == Key(rows[j]);
      }
      DistinctCount(keys);
    }
  }

  lemma FeedPassesOn(r: Runtime, now: int)
    requires FeedPasses(r, now)
    ensures FeedCovered(r, now)
  {
    hide Within, SoundWatchlist, DuplicateRow, Keys;
    var rows := ListedRows(r.watchlist);
    var aged := ListedRows(AgedRuntime(r, now).watchlist);
    assert SoundWatchlist(r.watchlist) && EngineRunning(r, now) && aged == AgedRows(rows, true, now);
    forall i | 0 <= i < |rows| ensures RowFresh(rows, i, true, now) {
      assert aged[i].isFresh;
    }
  }

  lemma ShownFeed(r: Runtime, now: int)
    requires SoundWatchlist(r.watchlist)
    ensures FeedPasses(ShownRuntime(r, true, now), now) <==> FeedCovered(r, now)
  {
    hide SoundWatchlist, Within, FeedCovered;
    EngineComposes(r, now, now);
    FeedExact(r, now);
  }

  lemma FeedStays(r: Runtime, t1: int, t2: int)
    requires t1 <= t2 && RuntimeNotAhead(r, t1) && FeedCovered(r, t2)
    ensures FeedCovered(r, t1)
  {
    hide Within, SoundWatchlist;
    RunningStays(r, t1, t2);
    var rows := ListedRows(r.watchlist);
    forall i | 0 <= i < |rows| ensures RowFresh(rows, i, true, t1) {
      RowFreshStays(rows, i, t1, t2, true, true);
    }
  }

  // ---------- the portfolio ----------

  ghost predicate HoldingsNotAhead(hs: seq<Holding>, now: int) {
    forall i | 0 <= i < |hs| :: NotAhead(hs[i].markAt, now, 0)
  }

  ghost predicate PortfolioNotAhead(p: Portfolio, now: int) {
    NotAhead(p.updatedAt, now, 5) && HoldingsNotAhead(ListedRows(p.holdings), now)
  }

  lemma HoldingsCompose(hs: seq<Holding>, t1: int, t2: int, current1: bool, current2: bool)
    requires t1 <= t2 && HoldingsNotAhead(hs, t1) && (current2 ==> current1)
    ensures AgedHoldings(AgedHoldings(hs, current1, t1), current2, t2) == AgedHoldings(hs, current2, t2)
    ensures AllFresh(AgedHoldings(hs, current2, t2)) ==> AllFresh(AgedHoldings(hs, current1, t1))
  {
    var once := AgedHoldings(hs, current1, t1);
    forall i | 0 <= i < |hs|
      ensures MarkFresh(hs[i], current2, t2) ==> MarkFresh(hs[i], current1, t1)
      ensures AgedHoldings(once, current2, t2)[i] == AgedHoldings(hs, current2, t2)[i]
    {
      if Within(hs[i].markAt, t2, 120, 0) {
        StaysWithin(hs[i].markAt, t1, t2, 120, 0);
      }
    }
  }

  lemma BookStays(p: Portfolio, t1: int, t2: int)
    requires t1 <= t2 && NotAhead(p.updatedAt, t1, 5) && BookCurrent(p, t2)
    ensures BookCurrent(p, t1)
  {
    StaysWithin(p.updatedAt, t1, t2, 30, 5);
  }

  /** Ageing the portfolio at t1 and then at t2 is ageing it once at t2. */
  lemma PortfolioComposes(p: Portfolio, t1: int, t2: int)
    requires t1 <= t2 && PortfolioNotAhead(p, t1)
    ensures AgedPortfolio(AgedPortfolio(p, t1), t2) == AgedPortfolio(p, t2)
  {
    hide Within, AgedHoldings, AllFresh;
    var once, hs := AgedPortfolio(p, t1), ListedRows(p.holdings);
    if BookCurrent(p, t2) {
      BookStays(p, t1, t2);
    }
    HoldingsCompose(hs, t1, t2, BookCurrent(p, t1), BookCurrent(p, t2));
    if BookCurrent(p, t1) {
      assert BookCurrent(once, t2) ==> BookCurrent(p, t2);
      HoldingsCompose(hs, t1, t2, BookCurrent(p, t1), BookCurrent(once, t2));
    }
  }

  lemma ExpiredHoldingsCompose(hs: seq<Holding>, c1: bool, c2: bool, t1: int, t2: int)
    ensures ExpiredHoldings(AgedHoldings(ExpiredHoldings(AgedHoldings(hs, c1, t1)), c2, t2)) == ExpiredHoldings(hs)
    ensures ExpiredHoldings(AgedHoldings(hs, c2, t2)) == ExpiredHoldings(hs)
  {
  }

  /** So is the shown portfolio, except that a page already expired at t1 may lose the all-marks-fresh
      flag that ageing once would have left standing. */
  lemma ShownPortfolioComposes(p: Portfolio, t1: int, t2: int, current1: bool, current2: bool)
    requires t1 <= t2 && PortfolioNotAhead(p, t1) && (current2 ==> current1)
    ensures var twice := ShownPortfolio(ShownPortfolio(p, current1, t1), current2, t2);
            var once := ShownPortfolio(p, current2, t2);
      && twice == once.(allMarksFresh := twice.allMarksFresh)
      && (current1 ==> twice == once) && (!current1 ==> twice.allMarksFresh == Some(false))
  {
    hide Within, AgedHoldings, ExpiredHoldings, AllFresh, PortfolioNotAhead;
    if current1 {
      PortfolioComposes(p, t1, t2);
    } else {
      var first := ShownPortfolio(p, false, t1);
      ExpiredHoldingsCompose(ListedRows(p.holdings), BookCurrent(p, t1), BookCurrent(first, t2), t1, t2);
      ExpiredHoldingsCompose(ListedRows(p.holdings), BookCurrent(p, t1), BookCurrent(p, t2), t1, t2);
    }
  }

  // ---------- the workspace ----------

  ghost predicate NothingAhead(w: Workspace, now: int) {
    && NotAhead(w.generatedAt, now, 5) && NotAhead(w.fetchedAt, now, 5)
    && NotAhead(w.broker.finishedAt, now, 5) && NotAhead(w.account.finishedAt, now, 5)
    && RuntimeNotAhead(w.runtime, now) && PortfolioNotAhead(w.portfolio, now)
  }

  lemma ResponseStays(w: Workspace, t1: int, t2: int)
    requires t1 <= t2 && NotAhead(w.generatedAt, t1, 5) && ResponseCurrent(w, t2)
    ensures ResponseCurrent(w, t1)
  {
    StaysWithin(w.generatedAt, t1, t2, 30, 5);
  }

  lemma EngineStays(r: Runtime, t1: int, t2: int)
    requires t1 <= t2 && RuntimeNotAhead(r, t1) && EngineCurrent(ShownRuntime(r, true, t2))
    ensures EngineCurrent(ShownRuntime(r, true, t1)) && SoundWatchlist(r.watchlist)
  {
    hide SoundWatchlist, AgedRows, Within;
    RunningStays(r, t1, t2);
  }

  lemma ManifestStays(r: Runtime, t1: int, t2: int)
    requires t1 <= t2 && RuntimeNotAhead(r, t1) && ManifestCurrent(ShownRuntime(r, true, t2), t2)
    ensures ManifestCurrent(ShownRuntime(r, true, t1), t1)
  {
    EngineStays(r, t1, t2);
    hide SoundWatchlist, AgedRows, EngineCurrent;
    StaysWithin(r.manifest.checkedAt, t1, t2, 10, 5);
  }

  lemma CurrentBookStays(p: Portfolio, t1: int, t2: int)
    requires t1 <= t2 && PortfolioNotAhead(p, t1) && CurrentBook(ShownPortfolio(p, true, t2), true)
    ensures CurrentBook(ShownPortfolio(p, true, t1), true)
  {
    hide Within, AgedHoldings, AllFresh;
    BookStays(p, t1, t2);
    HoldingsCompose(ListedRows(p.holdings), t1, t2, BookCurrent(p, t1), BookCurrent(p, t2));
  }

  ghost predicate AllowedAt(w: Workspace, id: CheckId, now: int) {
    var current := ResponseCurrent(w, now);
    Allowed(id, current, ShownRuntime(w.runtime, current, now), ShownPortfolio(w.portfolio, current, now),
            CollectorStale(w, now), now)
  }

  lemma FeedCheckStays(r: Runtime, t1: int, t2: int)
    requires t1 <= t2 && RuntimeNotAhead(r, t1) && FeedPasses(ShownRuntime(r, true, t2), t2)
    ensures FeedPasses(ShownRuntime(r, true, t1), t1)
  {
    hide RuntimeNotAhead, SoundWatchlist, FeedCovered, FeedPasses;
    if SoundWatchlist(r.watchlist) {
      ShownFeed(r, t2);
      FeedStays(r, t1, t2);
      ShownFeed(r, t1);
    } else {
      MalformedFeed(r, true, t2, t2);
    }
  }

  lemma MalformedFeed(r: Runtime, current: bool, t: int, now: int)
    requires !SoundWatchlist(r.watchlist)
    ensures !FeedPasses(ShownRuntime(r, current, t), now)
  {
    hide Within;
  }

  /** What may pass later could pass earlier. */
  lemma AllowedStays(w: Workspace, id: CheckId, t1: int, t2: int)
    requires t1 <= t2 && NothingAhead(w, t1) && AllowedAt(w, id, t2)
    ensures AllowedAt(w, id, t1)
  {
    hide Within, ShownRuntime, ShownPortfolio, EngineCurrent, ManifestCurrent, FeedPasses, CurrentBook;
    hide PortfolioNotAhead;
    ResponseStays(w, t1, t2);
    var r := w.runtime;
    match id
    case Ticks => FeedCheckStays(r, t1, t2);
    case Quotes => StaysWithin(w.fetchedAt, t1, t2, 120, 5);
    case Marks => CurrentBookStays(w.portfolio, t1, t2);
    case StrategyManifest => ManifestStays(r, t1, t2);
    case StrategyEvidence => ManifestStays(r, t1, t2);
    case Evidence => ManifestStays(r, t1, t2);
    case Reconciliation =>
      EngineStays(r, t1, t2);
      ShownStamps(r, t1);
      ShownStamps(r, t2);
      StaysWithin(r.reconciledAt, t1, t2, 120, 5);
    case ProtectionCoverage =>
      EngineStays(r, t1, t2);
      CurrentBookStays(w.portfolio, t1, t2);
      ShownStamps(r, t1);
      ShownStamps(r, t2);
      StaysWithin(r.coveredAt, t1, t2, 10, 5);
    case ProtectionSweep =>
      EngineStays(r, t1, t2);
      ShownStamps(r, t1);
      ShownStamps(r, t2);
      StaysWithin(r.sweptAt, t1, t2, 10, 5);
    case Engine => EngineStays(r, t1, t2);
    case EntryControls => EngineStays(r, t1, t2);
    case OtherCheck(_) =>
  }

  lemma ShownStamps(r: Runtime, now: int)
    ensures var s := ShownRuntime(r, true, now);
      s.reconciledAt == r.reconciledAt && s.coveredAt == r.coveredAt && s.sweptAt == r.sweptAt
      && s.manifest == r.manifest
  {
  }

  /** Checks do not look at the runtime's status label beyond "running", nor at the all-marks flag. */
  lemma AllowedAlike(id: CheckId, current: bool, r: Runtime, r': Runtime, p: Portfolio, p': Portfolio, stale: bool,
                     now: int)
    requires r == r' || (r == r'.(status := r.status) && !r.status.Running? && !r'.status.Running?
                         && !FeedPasses(r, now) && !FeedPasses(r', now))
    requires p == p'.(allMarksFresh := p.allMarksFresh)
    ensures Allowed(id, current, r, p, stale, now) == Allowed(id, current, r', p', stale, now)
  {
    hide FeedPasses, Within;
  }

  lemma ShownPairAlike(w: Workspace, t1: int, t2: int)
    requires t1 <= t2 && NothingAhead(w, t1)
    ensures var once := AgedWorkspace(w, t1);
      var current2 := ResponseCurrent(w, t2);
      var r, r' := ShownRuntime(once.runtime, current2, t2), ShownRuntime(w.runtime, current2, t2);
      var p, p' := ShownPortfolio(once.portfolio, current2, t2), ShownPortfolio(w.portfolio, current2, t2);
      && (r == r' || (r == r'.(status := r.status) && !r.status.Running? && !r'.status.Running?
                       && !FeedPasses(r, t2) && !FeedPasses(r', t2)))
      && p == p'.(allMarksFresh := p.allMarksFresh)
  {
    hide Within, ShownRuntime, ShownPortfolio, FeedPasses, SoundWatchlist, RuntimeNotAhead, PortfolioNotAhead;
    hide AgedChecks, ContributionCurrent;
    var current1, current2 := ResponseCurrent(w, t1), ResponseCurrent(w, t2);
    if current2 {
      ResponseStays(w, t1, t2);
    }
    ShownPortfolioComposes(w.portfolio, t1, t2, current1, current2);
    if SoundWatchlist(w.runtime.watchlist) {
      ShownEngineComposes(w.runtime, t1, t2, current1, current2);
    } else {
      MalformedComposes(w.runtime, t1, t2, current1, current2);
      MalformedFeed(w.runtime, current2, t2, t2);
      MalformedTwice(w.runtime, current1, current2, t1, t2);
    }
  }

  lemma MalformedTwice(r: Runtime, current1: bool, current2: bool, t1: int, t2: int)
    requires !SoundWatchlist(r.watchlist)
    ensures !FeedPasses(ShownRuntime(ShownRuntime(r, current1, t1), current2, t2), t2)
  {
    hide Within;
  }

  lemma CollectorComposes(w: Workspace, t1: int, t2: int)
    requires t1 <= t2 && NothingAhead(w, t1)
    ensures CollectorStale(AgedWorkspace(w, t1), t2) == CollectorStale(w, t2)
  {
    hide ShownRuntime, ShownPortfolio, AgedChecks, ContributionCurrent, RuntimeNotAhead, PortfolioNotAhead;
    if Within(w.fetchedAt, t2, 120, 5) {
      StaysWithin(w.fetchedAt, t1, t2, 120, 5);
    }
  }

  /** The checks of a workspace aged at t1 and then at t2 pass exactly as if it had been aged once at t2. */
  lemma ChecksCompose(w: Workspace, t1: int, t2: int)
    requires t1 <= t2 && NothingAhead(w, t1)
    ensures AgedWorkspace(AgedWorkspace(w, t1), t2).checks == AgedWorkspace(w, t2).checks
  {
    hide Within, ShownRuntime, ShownPortfolio, Allowed, ContributionCurrent, NothingAhead, CollectorStale;
    CollectorComposes(w, t1, t2);
    ShownPairAlike(w, t1, t2);
    var once := AgedWorkspace(w, t1);
    var current2 := ResponseCurrent(w, t2);
    forall i | 0 <= i < |w.checks|
      ensures AgedWorkspace(once, t2).checks[i] == AgedWorkspace(w, t2).checks[i]
    {
      var id := w.checks[i].id;
      AllowedAlike(id, current2, ShownRuntime(once.runtime, current2, t2), ShownRuntime(w.runtime, current2, t2),
                   ShownPortfolio(once.portfolio, current2, t2), ShownPortfolio(w.portfolio, current2, t2),
                   CollectorStale(w, t2), t2);
      if AllowedAt(w, id, t2) {
        AllowedStays(w, id, t1, t2);
      }
    }
  }

  lemma ObservationComposes(o: Observation, t1: int, t2: int)
    requires t1 <= t2 && NotAhead(o.finishedAt, t1, 5)
    ensures AgedObservation(AgedObservation(o, t1), t2) == AgedObservation(o, t2)
  {
    if Within(o.finishedAt, t2, 120, 5) {
      StaysWithin(o.finishedAt, t1, t2, 120, 5);
    }
  }

  lemma PanelComposes(w: Workspace, t1: int, t2: int)
    requires t1 <= t2 && NothingAhead(w, t1)
    ensures var twice, once := AgedWorkspace(AgedWorkspace(w, t1), t2), AgedWorkspace(w, t2);
      twice.attribution == once.attribution && twice.historicalRisk == once.historicalRisk
  {
    hide Within, ShownRuntime, ShownPortfolio, Allowed, ContributionCurrent, CollectorStale, RuntimeNotAhead,
         PortfolioNotAhead, FeedPasses;
    ShownPairAlike(w, t1, t2);
    if ResponseCurrent(w, t2) {
      ResponseStays(w, t1, t2);
      if CurrentBook(ShownPortfolio(w.portfolio, true, t2), true) {
        CurrentBookStays(w.portfolio, t1, t2);
      }
    }
  }

  lemma BackedStays(row: ContributionRow, hs: seq<Holding>, earlier: seq<Holding>)
    requires Backed(row, hs) && |earlier| == |hs|
    requires forall i | 0 <= i < |hs| ::
      earlier[i] == hs[i].(isFresh := earlier[i].isFresh) && (hs[i].isFresh ==> earlier[i].isFresh)
    ensures Backed(row, earlier)
  {
    if row.markFresh {
      var h :| h in hs && h.market == row.market && h.assetClass == row.assetClass && h.symbol == row.symbol
               && h.isFresh;
      var i :| 0 <= i < |hs| && hs[i] == h;
      assert earlier[i] in earlier && earlier[i].isFresh;
    }
  }

  lemma HoldingsStay(p: Portfolio, t1: int, t2: int)
    requires t1 <= t2 && PortfolioNotAhead(p, t1)
    ensures var later, earlier := ShownPortfolio(p, true, t2).holdings.rows, ShownPortfolio(p, true, t1).holdings.rows;
      && |earlier| == |later|
      && forall i | 0 <= i < |later| ::
           earlier[i] == later[i].(isFresh := earlier[i].isFresh) && (later[i].isFresh ==> earlier[i].isFresh)
  {
    var hs := ListedRows(p.holdings);
    if BookCurrent(p, t2) {
      BookStays(p, t1, t2);
    }
    hide BookCurrent;
    forall i | 0 <= i < |hs| && MarkFresh(hs[i], BookCurrent(p, t2), t2)
      ensures MarkFresh(hs[i], BookCurrent(p, t1), t1)
    {
      StaysWithin(hs[i].markAt, t1, t2, 120, 0);
    }
  }

  lemma ContributionStays(w: Workspace, rows: seq<ContributionRow>, t1: int, t2: int)
    requires t1 <= t2 && PortfolioNotAhead(w.portfolio, t1)
    requires ContributionCurrent(rows, ShownPortfolio(w.portfolio, true, t2), true, t2)
    ensures ContributionCurrent(rows, ShownPortfolio(w.portfolio, true, t1), true, t1)
  {
    StaysWithin(w.portfolio.updatedAt, t1, t2, 30, 5);
    HoldingsStay(w.portfolio, t1, t2);
    hide Within, Backed, PortfolioNotAhead, AgedHoldings;
    var later := ShownPortfolio(w.portfolio, true, t2).holdings.rows;
    var earlier := ShownPortfolio(w.portfolio, true, t1).holdings.rows;
    forall row | row in rows ensures Backed(row, earlier) {
      BackedStays(row, later, earlier);
    }
  }

  lemma ContributionComposes(w: Workspace, t1: int, t2: int)
    requires t1 <= t2 && NothingAhead(w, t1)
    ensures AgedWorkspace(AgedWorkspace(w, t1), t2).contribution == AgedWorkspace(w, t2).contribution
  {
    hide Within, ShownRuntime, ShownPortfolio, Allowed, CollectorStale, RuntimeNotAhead, PortfolioNotAhead, FeedPasses,
         Backed;
    ShownPairAlike(w, t1, t2);
    if w.contribution.Some? && ResponseCurrent(w, t2) {
      ResponseStays(w, t1, t2);
      if ContributionCurrent(w.contribution.value, ShownPortfolio(w.portfolio, true, t2), true, t2) {
        ContributionStays(w, w.contribution.value, t1, t2);
      }
    }
  }

  /** The two workspaces show the same, up to a malformed watchlist's status label and the all-marks flag
      of a page that had already expired. */
  ghost predicate SameClaims(w: Workspace, t1: int, twice: Workspace, once: Workspace) {
    && twice == once.(runtime := twice.runtime, portfolio := twice.portfolio)
    && (SoundWatchlist(w.runtime.watchlist) ==> twice.runtime == once.runtime)
    && twice.runtime == once.runtime.(status := twice.runtime.status)
    && twice.runtime.status.Running? == once.runtime.status.Running?
    && twice.portfolio == once.portfolio.(allMarksFresh := twice.portfolio.allMarksFresh)
    && (ResponseCurrent(w, t1) ==> twice.portfolio == once.portfolio)
  }

  /** If no stamp is further in the future at t1 than its tolerance, ageing a workspace at t1 and then at
      any later t2 shows the same passing checks, fresh rows, marks and panels as ageing it once at t2. */
  lemma AgeingComposes(w: Workspace, t1: int, t2: int)
    requires t1 <= t2 && NothingAhead(w, t1)
    ensures SameClaims(w, t1, AgedWorkspace(AgedWorkspace(w, t1), t2), AgedWorkspace(w, t2))
  {
    hide Within, ShownRuntime, ShownPortfolio, Allowed, ContributionCurrent, AgedChecks, CollectorStale, SoundWatchlist,
         RuntimeNotAhead, PortfolioNotAhead, AgedObservation, CurrentBook;
    ChecksCompose(w, t1, t2);
    PanelComposes(w, t1, t2);
    ContributionComposes(w, t1, t2);
    CollectorComposes(w, t1, t2);
    ObservationComposes(w.broker, t1, t2);
    ObservationComposes(w.account, t1, t2);
    var current1, current2 := ResponseCurrent(w, t1), ResponseCurrent(w, t2);
    if current2 {
      ResponseStays(w, t1, t2);
    }
    ShownPortfolioComposes(w.portfolio, t1, t2, current1, current2);
    if SoundWatchlist(w.runtime.watchlist) {
      ShownEngineComposes(w.runtime, t1, t2, current1, current2);
    } else {
      MalformedComposes(w.runtime, t1, t2, current1, current2);
    }
  }

  // ---------- ageing only withdraws ----------

  ghost predicate RowsWithdrawn(before: seq<Row>, after: seq<Row>) {
    |after| == |before| && forall i | 0 <= i < |before| ::
      Relabelled(before[i], after[i]) && (after[i].isFresh ==> before[i].isFresh)
  }

  ghost predicate HoldingsWithdrawn(before: seq<Holding>, after: seq<Holding>) {
    |after| == |before| && forall i | 0 <= i < |before| ::
      after[i] == before[i].(isFresh := after[i].isFresh) && (after[i].isFresh ==> before[i].isFresh)
  }

  ghost predicate ChecksWithdrawn(before: seq<Check>, after: seq<Check>) {
    && |after| == |before|
    && forall i | 0 <= i < |before| :: after[i].id == before[i].id && (after[i].pass ==> before[i].pass)
  }

  ghost predicate OnlyWithdrawn(before: Workspace, after: Workspace) {
    && ChecksWithdrawn(before.checks, after.checks)
    && (if SoundWatchlist(before.runtime.watchlist)
        then RowsWithdrawn(ListedRows(before.runtime.watchlist), ListedRows(after.runtime.watchlist))
        else ListedRows(after.runtime.watchlist) == [])
    && HoldingsWithdrawn(ListedRows(before.portfolio.holdings), ListedRows(after.portfolio.holdings))
    && (after.runtime.status.Running? ==> before.runtime.status.Running?)
    && (after.portfolio.status.Ok? ==> before.portfolio.status.Ok?)
    && (after.portfolio.allMarksFresh == Some(true) ==> before.portfolio.allMarksFresh != Some(false))
    && (before.collectorStale ==> after.collectorStale)
    && (after.broker.available ==> before.broker.available) && (after.account.available ==> before.account.available)
    && (after.attribution ==> before.attribution) && (after.historicalRisk ==> before.historicalRisk)
    && (after.contribution == None || after.contribution == before.contribution)
  }

  /** Whatever the clocks say, ageing a workspace can only take claims away. */
  lemma AgeingOnlyWithdraws(w: Workspace, now: int)
    ensures OnlyWithdrawn(w, AgedWorkspace(w, now))
  {
    hide Within, SoundWatchlist, Allowed, ContributionCurrent, DuplicateRow;
  }

  // ---------- what a passing check rests on ----------

  /** A current page with a sound watchlist, from a paper engine that runs and has just reported. */
  predicate EngineEvidence(w: Workspace, now: int) {
    && SoundWatchlist(w.runtime.watchlist) && w.runtime.status.Running? && w.runtime.paper
    && Within(w.runtime.updatedAt, now, 10, 5)
  }

  predicate LiveMark(h: Holding, now: int) {
    h.isFresh && h.priced && h.liveTick && Within(h.markAt, now, 120, 0)
  }

  /** The snapshot's book has an engine valuation still current, and every mark on it is live. */
  predicate AllMarksLive(p: Portfolio, now: int) {
    && BookCurrent(p, now) && !p.holdings.Malformed? && p.allMarksFresh != Some(false)
    && forall h | h in ListedRows(p.holdings) :: LiveMark(h, now)
  }

  lemma FlagMeansLive(p: Portfolio, now: int)
    ensures AgedPortfolio(p, now).allMarksFresh == Some(true) <==> AllMarksLive(p, now)
  {
    hide Within;
    var hs, current := ListedRows(p.holdings), BookCurrent(p, now);
    if AllMarksLive(p, now) {
      forall i | 0 <= i < |hs| ensures AgedHoldings(hs, current, now)[i].isFresh {
        assert LiveMark(hs[i], now);
      }
    }
    if current && AllFresh(AgedHoldings(hs, current, now)) {
      forall h | h in hs ensures LiveMark(h, now) {
        var i :| 0 <= i < |hs| && hs[i] == h;
        assert AgedHoldings(hs, current, now)[i].isFresh;
      }
    }
  }

  predicate BookEvidence(w: Workspace, now: int) {
    w.portfolio.status.Ok? && AllMarksLive(w.portfolio, now)
  }

  /** A strategy manifest checked within ten seconds whose source check is at most 65 seconds old in all. */
  predicate ManifestEvidence(w: Workspace, now: int) {
    var m := w.runtime.manifest;
    && Within(m.checkedAt, now, 10, 5) && m.sourceCheckAge.Some? && m.sourceCheckAge.value >= 0
    && m.sourceCheckAge.value + Max(now * 1000 - m.checkedAt.value, 0) <= 65_000_000
  }

  predicate LiveRow(rows: seq<Row>, i: nat, now: int)
    requires i < |rows|
  {
    && rows[i].isFresh && Within(rows[i].tickAt, now, 120, 0)
    && forall j | 0 <= j < |rows| && j != i :: Key(rows[j]) != Key(rows[i])
  }

  predicate FeedEvidence(w: Workspace, now: int) {
    var rows := ListedRows(w.runtime.watchlist);
    rows != [] && forall i | 0 <= i < |rows| :: LiveRow(rows, i, now)
  }

  /** The evidence, in the snapshot as it was taken, that a check needs at the present time. */
  predicate Evidenced(w: Workspace, id: CheckId, now: int) {
    && Within(w.generatedAt, now, 30, 5)
    && match id
       case Ticks => EngineEvidence(w, now) && FeedEvidence(w, now)
       case Quotes => !w.collectorStale && Within(w.fetchedAt, now, 120, 5)
       case Marks => BookEvidence(w, now)
       case StrategyManifest => EngineEvidence(w, now) && ManifestEvidence(w, now)
       case StrategyEvidence => EngineEvidence(w, now) && ManifestEvidence(w, now)
       case Evidence => EngineEvidence(w, now) && ManifestEvidence(w, now)
       case Reconciliation => EngineEvidence(w, now) && Within(w.runtime.reconciledAt, now, 120, 5)
       case ProtectionCoverage =>
         EngineEvidence(w, now) && BookEvidence(w, now) && Within(w.runtime.coveredAt, now, 10, 5)
       case ProtectionSweep => EngineEvidence(w, now) && Within(w.runtime.sweptAt, now, 10, 5)
       case Engine => EngineEvidence(w, now)
       case EntryControls => EngineEvidence(w, now)
       case OtherCheck(_) => true
  }

  lemma EngineExact(w: Workspace, now: int)
    ensures EngineCurrent(ShownRuntime(w.runtime, true, now)) <==> EngineEvidence(w, now)
  {
    hide Within, SoundWatchlist, AgedRows;
  }

  lemma ManifestExact(w: Workspace, now: int)
    ensures ManifestCurrent(ShownRuntime(w.runtime, true, now), now)
       <==> EngineEvidence(w, now) && ManifestEvidence(w, now)
  {
    hide EngineEvidence, SoundWatchlist, AgedRows, EngineCurrent;
    EngineExact(w, now);
  }

  lemma BookExact(w: Workspace, now: int)
    ensures CurrentBook(ShownPortfolio(w.portfolio, true, now), true) <==> BookEvidence(w, now)
  {
    FlagMeansLive(w.portfolio, now);
    hide Within, AllMarksLive, AllFresh, AgedHoldings;
  }

  lemma FeedCheckExact(w: Workspace, now: int)
    ensures FeedPasses(ShownRuntime(w.runtime, true, now), now) <==> EngineEvidence(w, now) && FeedEvidence(w, now)
  {
    hide Within, SoundWatchlist, FeedPasses, ShownRuntime, Key;
    var r := w.runtime;
    var rows := ListedRows(r.watchlist);
    if SoundWatchlist(r.watchlist) {
      ShownFeed(r, now);
      forall i | 0 <= i < |rows| ensures RowFresh(rows, i, true, now) <==> LiveRow(rows, i, now) {
      }
    } else {
      MalformedFeed(r, true, now, now);
    }
  }

  /** A check passes on the aged page exactly when it passed when the page was taken and the evidence it
      needs is still current. */
  lemma CheckPassesExactly(w: Workspace, now: int, i: nat)
    requires i < |w.checks|
    ensures AgedWorkspace(w, now).checks[i].pass <==> w.checks[i].pass && Evidenced(w, w.checks[i].id, now)
  {
    hide Within, ContributionCurrent, EngineEvidence, BookEvidence, FeedEvidence, FeedPasses, CurrentBook;
    hide EngineCurrent, ShownPortfolio, ShownRuntime, ManifestCurrent, ManifestEvidence;
    EngineExact(w, now);
    ManifestExact(w, now);
    BookExact(w, now);
    FeedCheckExact(w, now);
    ShownStamps(w.runtime, now);
  }

  /** A row of a sound watchlist is shown as fresh, and given as its reason "fresh", exactly when the page and
      the engine are current and the row is live. */
  lemma RowShownExactly(w: Workspace, now: int, i: nat)
    requires SoundWatchlist(w.runtime.watchlist) && i < |ListedRows(w.runtime.watchlist)|
    ensures var shown := ListedRows(AgedWorkspace(w, now).runtime.watchlist);
      && |shown| == |ListedRows(w.runtime.watchlist)|
      && (shown[i].isFresh <==>
            && Within(w.generatedAt, now, 30, 5) && EngineEvidence(w, now)
            && LiveRow(ListedRows(w.runtime.watchlist), i, now))
      && (shown[i].isFresh <==> shown[i].reason == Some(Fresh))
      && shown[i].tickAge == SourceAge(ListedRows(w.runtime.watchlist)[i].tickAt, now)
  {
    hide Within, SoundWatchlist, Key, ShownPortfolio, ContributionCurrent, AgedChecks;
  }

  predicate SharesKey(rows: seq<Row>, i: nat)
    requires i < |rows|
  {
    exists j :: 0 <= j < |rows| && j != i && Key(rows[j]) == Key(rows[i])
  }

  /** The reason shown with a row, from the snapshot: the page has expired; or, on a current page, the first of these
      that holds: another row has its key, the engine is not current, its tick has no time, is in the future, is over
      two minutes old, or was rejected by the engine. */
  lemma RowReasonExactly(w: Workspace, now: int, i: nat)
    requires SoundWatchlist(w.runtime.watchlist) && i < |ListedRows(w.runtime.watchlist)|
    ensures var rows := ListedRows(w.runtime.watchlist);
      var reason, tick := ListedRows(AgedWorkspace(w, now).runtime.watchlist)[i].reason, rows[i].tickAt;
      var shared, live, page := SharesKey(rows, i), EngineEvidence(w, now), Within(w.generatedAt, now, 30, 5);
      && (reason == Some(WorkspaceExpired) <==> !page)
      && (reason == Some(Duplicate) <==> page && shared)
      && (reason == Some(EngineUnverified) <==> page && !shared && !live)
      && (reason == Some(TimestampUnrecorded) <==> page && !shared && live && tick.None?)
      && (reason == Some(FutureTick) <==> page && !shared && live && tick.Some? && now * 1000 < tick.value)
      && (reason == Some(TickExpired) <==>
            page && !shared && live && tick.Some? && tick.value + 120_000_000 < now * 1000)
      && (reason == Some(EngineRejected) <==>
            page && !shared && live && Within(tick, now, 120, 0) && !rows[i].isFresh)
  {
    hide SoundWatchlist, Key, ShownPortfolio, ContributionCurrent, AgedChecks;
  }

  /** The status shown with the engine: an expired page is stale; on a current one a malformed watchlist is invalid, an
      engine whose heartbeat has expired stale, and any other status the snapshot's own. */
  lemma EngineStatusExactly(w: Workspace, now: int)
    ensures AgedWorkspace(w, now).runtime.status
         == if !Within(w.generatedAt, now, 30, 5) then Stale
            else if !SoundWatchlist(w.runtime.watchlist) then Invalid
            else if !Within(w.runtime.updatedAt, now, 10, 5) then Stale
            else w.runtime.status
  {
    hide Within, SoundWatchlist, ShownPortfolio, ContributionCurrent, AgedChecks, AgedRows, CurrentBook;
  }

  // ---------- the portfolio and the panels ----------

  /** The status shown with the portfolio: invalid for malformed holdings or an invalid valuation; stale on an expired
      page and for a valuation from the engine that is no longer current; degraded when one of its marks is not live. */
  lemma PortfolioStatusExactly(w: Workspace, now: int)
    ensures var p, status := w.portfolio, AgedWorkspace(w, now).portfolio.status;
      var invalid := p.holdings.Malformed? || p.status.Invalid?;
      && (invalid ==> status == Invalid)
      && (!invalid && !Within(w.generatedAt, now, 30, 5) ==> status == Stale)
      && (!invalid && Within(w.generatedAt, now, 30, 5) && !p.engineLive ==> status == p.status)
      && (!invalid && Within(w.generatedAt, now, 30, 5) && p.engineLive ==>
            status == if !BookCurrent(p, now) then Stale else if AllMarksLive(p, now) then p.status else Degraded)
  {
    FlagMeansLive(w.portfolio, now);
    hide Within, ShownRuntime, AgedChecks, ContributionCurrent, AllMarksLive, AllFresh, AgedHoldings;
  }

  /** A holding of the row's instrument whose mark is live. */
  predicate MarkFor(row: ContributionRow, hs: seq<Holding>, now: int) {
    exists h ::
      && h in hs && LiveMark(h, now)
      && h.market == row.market && h.assetClass == row.assetClass && h.symbol == row.symbol
  }

  /** Every row that claims a fresh mark has one in a current book. */
  predicate ContributionEvidence(w: Workspace, rows: seq<ContributionRow>, now: int) {
    && Within(w.portfolio.updatedAt, now, 30, 5)
    && forall row | row in rows && row.markFresh ::
         BookCurrent(w.portfolio, now) && MarkFor(row, ListedRows(w.portfolio.holdings), now)
  }

  lemma BackedExact(hs: seq<Holding>, row: ContributionRow, current: bool, now: int)
    requires row.markFresh
    ensures Backed(row, AgedHoldings(hs, current, now)) <==> current && MarkFor(row, hs, now)
  {
    hide Within;
    var aged := AgedHoldings(hs, current, now);
    if h :| h in aged && h.market == row.market && h.assetClass == row.assetClass && h.symbol == row.symbol
            && h.isFresh {
      var i :| 0 <= i < |aged| && aged[i] == h;
      assert LiveMark(hs[i], now);
    }
    if current {
      if h :| h in hs && LiveMark(h, now) && h.market == row.market && h.assetClass == row.assetClass
              && h.symbol == row.symbol {
        var i :| 0 <= i < |hs| && hs[i] == h;
        assert aged[i] in aged;
      }
    }
  }

  lemma ContributionExact(w: Workspace, rows: seq<ContributionRow>, now: int)
    ensures ContributionCurrent(rows, ShownPortfolio(w.portfolio, true, now), true, now)
       <==> ContributionEvidence(w, rows, now)
  {
    hide Within, AgedHoldings, MarkFor, Backed;
    var hs, current := ListedRows(w.portfolio.holdings), BookCurrent(w.portfolio, now);
    forall row | row in rows
      ensures Backed(row, AgedHoldings(hs, current, now)) <==> (row.markFresh ==> current && MarkFor(row, hs, now))
    {
      if row.markFresh {
        BackedExact(hs, row, current, now);
      } else {
        Unclaimed(row, AgedHoldings(hs, current, now));
      }
    }
    hide BookCurrent;
  }

  lemma Unclaimed(row: ContributionRow, hs: seq<Holding>)
    requires !row.markFresh
    ensures Backed(row, hs)
  {
  }

  /** Each panel is shown exactly when the snapshot showed it and what it rests on is still current: exposure and
      historical risk on the book, the contribution on the marks it names, an observation and the collected market
      data on their own times. */
  lemma PanelsExact(w: Workspace, now: int)
    ensures var aged, page := AgedWorkspace(w, now), Within(w.generatedAt, now, 30, 5);
      && (aged.attribution <==> w.attribution && page && BookEvidence(w, now))
      && (aged.historicalRisk <==> w.historicalRisk && page && BookEvidence(w, now))
      && (aged.contribution.Some? <==>
            w.contribution.Some? && page && ContributionEvidence(w, w.contribution.value, now))
      && (aged.contribution.Some? ==> aged.contribution == w.contribution)
      && (aged.broker.available <==>
            w.broker.available && (w.broker.hasReport ==> Within(w.broker.finishedAt, now, 120, 5)))
      && (aged.account.available <==>
            w.account.available && (w.account.hasReport ==> Within(w.account.finishedAt, now, 120, 5)))
      && (aged.collectorStale <==> w.collectorStale || !Within(w.fetchedAt, now, 120, 5))
  {
    BookExact(w, now);
    if w.contribution.Some? {
      ContributionExact(w, w.contribution.value, now);
    }
    hide Within, ShownRuntime, ShownPortfolio, AgedChecks, BookEvidence, ContributionEvidence, CurrentBook;
    if !Within(w.generatedAt, now, 30, 5) {
      NoBook(ShownPortfolio(w.portfolio, false, now));
      NoContribution(w, now);
    }
  }

  lemma NoBook(p: Portfolio)
    ensures !CurrentBook(p, false)
  {
  }

  lemma NoContribution(w: Workspace, now: int)
    ensures forall rows, p :: !ContributionCurrent(rows, p, false, now)
  {
    hide Within, Backed;
  }

  // ---------- the all-marks flag ----------

  ghost predicate FlagHonest(p: Portfolio) {
    p.allMarksFresh == Some(true) ==> AllFresh(ListedRows(p.holdings))
  }

  /** The all-marks flag of an aged page tells the truth about the marks it shows exactly when the page is
      current, or nothing is held, or the snapshot's book is not one whose marks are all live: an expired page
      withdraws such marks one by one but keeps the flag. */
  lemma AllMarksFlagExact(w: Workspace, now: int)
    ensures FlagHonest(AgedWorkspace(w, now).portfolio)
       <==> ResponseCurrent(w, now) || ListedRows(w.portfolio.holdings) == [] || !AllMarksLive(w.portfolio, now)
  {
    FlagMeansLive(w.portfolio, now);
    hide Within, ShownRuntime, AgedChecks, ContributionCurrent, AllMarksLive;
    var shown := ShownPortfolio(w.portfolio, ResponseCurrent(w, now), now);
    if !ResponseCurrent(w, now) && ListedRows(w.portfolio.holdings) != [] {
      assert !ListedRows(shown.holdings)[0].isFresh;
    }
  }

  /** A page generated 31 seconds ago whose valuation is dated two seconds after it. */
  const EXPIRED_PAGE := Workspace(
    Some(0),
    Runtime(Running, true, Some(30_000_000), Rows([]), Manifest(None, None), None, None, None),
    Portfolio(Ok, true, Some(2_000_000), Rows([Holding([1], [1], [1], true, true, true, Some(2_000_000))]), Some(true)),
    None, false, [], Observation(false, false, None), Observation(false, false, None), false, false, None)

  /** Aged, it shows no fresh mark and still claims that all marks are fresh. */
  lemma ExpiredPageKeepsFlag()
    ensures var p := AgedWorkspace(EXPIRED_PAGE, 31_000).portfolio;
      p.status == Stale && p.allMarksFresh == Some(true) && |p.holdings.rows| == 1 && !p.holdings.rows[0].isFresh
  {
    var h := EXPIRED_PAGE.portfolio.holdings.rows[0];
    assert LiveMark(h, 31_000) && AllMarksLive(EXPIRED_PAGE.portfolio, 31_000);
    FlagMeansLive(EXPIRED_PAGE.portfolio, 31_000);
    hide ShownRuntime, AgedChecks, ContributionCurrent;
  }
}
