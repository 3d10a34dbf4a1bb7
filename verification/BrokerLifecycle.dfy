/** `BrokerLifecycle`: the day-scoped observation state machine. Its maps are updated in place; every
    call reports what a scan of the whole run reports. */
module BrokerLifecycle {
  import opened Prelude
  import opened BrokerRecords
  import opened BrokerCapture
  import opened LifecycleHistory
  import opened LifecycleMemory
  import opened LifecycleReports

  /** A counter with the first few entries, as the `issue` and `change` closures keep them. */
  datatype Log<T> = Log(count: nat, kept: seq<T>)

  function Capped<T>(xs: seq<T>, limit: nat): Log<T> {
    Log(|xs|, Cap(xs, limit))
  }

  method Append<T>(log: Log<T>, found: seq<T>, limit: nat, ghost before: seq<T>) returns (log': Log<T>)
    requires log == Capped(before, limit)
    ensures log' == Capped(before + found, limit)
  {
    log' := log;
    for i := 0 to |found|
      invariant log' == Capped(before + found[..i], limit)
    {
      assert before + found[..i + 1] == before + found[..i] + [found[i]];
      log' := Log(log'.count + 1, if log'.count < limit then log'.kept + [found[i]] else log'.kept);
    }
    assert found[..|found|] == found;
  }

  class BrokerLifecycle {
    var orderKeys: seq<Text>
    var orders: map<Text, Order>
    var tradeKeys: seq<TradeKey>
    var trades: map<TradeKey, Trade>
    var terminals: map<Text, Order>
    var exchangeIds: map<Text, Text>
    var maxFilled: map<Text, nat>
    var previous: Option<Capture>
    var currentDay: Option<int>
    var stableSeen: bool
    var cumulativeIssueCount: nat

    /** Every capture inspected so far. */
    ghost var run: seq<Observed>

    function Mem(): Memory
      reads `orderKeys, `orders, `tradeKeys, `trades, `terminals, `exchangeIds, `maxFilled
    {
      Memory(orderKeys, orders, tradeKeys, trades, terminals, exchangeIds, maxFilled)
    }

    ghost predicate Valid()
      reads this
    {
      && currentDay == CurrentDay(run)
      && previous == (if run == [] then None else Some(run[|run| - 1].capture))
      && Mirrors(Mem(), Today(run))
      && (stableSeen <==> Today(run) != [])
      && cumulativeIssueCount == TotalIssues(run)
    }

    constructor ()
      ensures Valid() && run == []
    {
      orderKeys, orders, tradeKeys, trades := [], map[], [], map[];
      terminals, exchangeIds, maxFilled := map[], map[], map[];
      previous, currentDay, stableSeen, cumulativeIssueCount := None, None, false, 0;
      run := [];
      new;
      EmptyMirrors();
    }

    /** Reports exactly what the scan of the whole run reports, and remembers the capture. */
    method Inspect(c: Capture, status: InspectionStatus, issueCount: nat) returns (r: TemporalReport)
      requires Valid() && UniqueOrders(c.orders) && UniqueTrades(c.trades)
      modifies this
      ensures Valid()
      ensures run == old(run) + [Observed(c, status, issueCount)]
      ensures r == Report(old(run), Observed(c, status, issueCount))
      ensures StatusMeans(r, Observed(c, status, issueCount), SeenStable(old(run), Day(c.finishedAt)))
    {
      StatusExact(run, Observed(c, status, issueCount));
      hide StatusMeans, SeenStable;
      hide Mirrors, Mem, Today, TotalIssues, ReportFindings, ReportChanges, PriorUnresolved, Cap;
      ghost var x := Observed(c, status, issueCount);
      RunExtended(run, x);
      var boundary := currentDay != Some(Day(c.finishedAt));
      var unresolved, issues := OpenDay(boundary, c, x);
      var comparable := stableSeen && status != Changing;
      var changes;
      issues, changes := Compare(c, status, x, issues);
      cumulativeIssueCount := cumulativeIssueCount + issues.count + issueCount;
      var verdict := if status == Changing then Unverified else if issues.count > 0 then TemporalIssues
                     else if comparable then Compared else Baseline;
      var gap := if previous.None? then None
                 else Some((c.startedAt.ms - previous.value.finishedAt.ms) as real / 1000.0);
      r := TemporalReport(verdict, issues.count, issues.kept, changes.count, changes.kept, boundary, unresolved, gap);
      previous := Some(c);
      run := run + [x];
    }

    /** Nothing is compared or remembered for a changing capture. */
    method Compare(c: Capture, status: InspectionStatus, ghost x: Observed, issues: Log<TemporalFinding>)
        returns (issues': Log<TemporalFinding>, changes: Log<Change>)
      requires UniqueOrders(c.orders) && UniqueTrades(c.trades) && x.capture == c && x.status == status
      requires Mirrors(Mem(), Past(run, x)) && (stableSeen <==> Past(run, x) != [])
      requires issues == Capped(BoundaryFindings(run, x), 100)
      modifies `orderKeys, `orders, `tradeKeys, `trades, `terminals, `exchangeIds, `maxFilled, `stableSeen
      ensures issues' == Capped(ReportFindings(run, x), 100)
      ensures changes == Capped(ReportChanges(run, x), 250)
      ensures Mirrors(Mem(), Today(run + [x])) && (stableSeen <==> Today(run + [x]) != [])
    {
      hide Mirrors, Mem, Today, Past, BoundaryFindings, Contradictions, Changes;
      RunExtended(run, x);
      issues', changes := issues, Log(0, []);
      if status != Changing {
        issues', changes := Observe(c, Past(run, x), issues, BoundaryFindings(run, x));
        stableSeen := true;
      }
    }

    /** At a day boundary, count what the old day left open, report it, and forget the old day. */
    method OpenDay(boundary: bool, c: Capture, ghost x: Observed)
        returns (unresolved: nat, issues: Log<TemporalFinding>)
      requires Valid() && x.capture == c && (boundary <==> Boundary(run, x))
      modifies `orderKeys, `orders, `tradeKeys, `trades, `terminals, `exchangeIds, `maxFilled, `currentDay, `stableSeen
      ensures unresolved == PriorUnresolved(run, x)
      ensures issues == Capped(BoundaryFindings(run, x), 100)
      ensures Mirrors(Mem(), Past(run, x)) && (stableSeen <==> Past(run, x) != [])
      ensures currentDay == Some(DayOf(x))
    {
      hide Mirrors, Unresolved, DayStable, Today, Past, Mem;
      BoundaryPast(run, x);
      unresolved, issues := 0, Log(0, []);
      if boundary {
        unresolved := CountUnresolved(Today(run));
        NothingUnresolved();
        if currentDay.Some? && unresolved > 0 {
          issues := Log(1, [TemporalFinding(DayBoundaryUnresolvedOrders, None)]);
        }
        Forget();
        currentDay, stableSeen := Some(Day(c.finishedAt)), false;
      }
    }

    method Forget()
      modifies `orderKeys, `orders, `tradeKeys, `trades, `terminals, `exchangeIds, `maxFilled
      ensures Mirrors(Mem(), [])
    {
      orderKeys, orders, tradeKeys, trades := [], map[], [], map[];
      terminals, exchangeIds, maxFilled := map[], map[], map[];
      EmptyMirrors();
    }

    method CountUnresolved(ghost past: seq<Capture>) returns (open: nat)
      requires Mirrors(Mem(), past)
      ensures open == Unresolved(past)
    {
      open := 0;
      for i := 0 to |orderKeys|
        invariant open == LatestOpen(past, orderKeys[..i])
      {
        var id := orderKeys[i];
        SeenOrdersExact(past, id);
        assert OrderView(Mem(), id) == Recall(past, id);
        assert orderKeys[..i + 1][..i] == orderKeys[..i];
        open := open + if Terminal(orders[id].status) then 0 else 1;
      }
      assert orderKeys[..|orderKeys|] == orderKeys;
    }

    /** The body for a capture that is not changing: compare with the memory, then remember. */
    method Observe(c: Capture, ghost past: seq<Capture>, issues: Log<TemporalFinding>,
                   ghost before: seq<TemporalFinding>)
        returns (issues': Log<TemporalFinding>, changes: Log<Change>)
      requires UniqueOrders(c.orders) && UniqueTrades(c.trades)
      requires Mirrors(Mem(), past) && issues == Capped(before, 100)
      modifies `orderKeys, `orders, `tradeKeys, `trades, `terminals, `exchangeIds, `maxFilled
      ensures Mirrors(Mem(), past + [c])
      ensures issues' == Capped(before + Contradictions(past, c), 100)
      ensures changes == Capped(Changes(past, c), 250)
    {
      hide Mirrors, OrdersTemporal, TradesTemporal, OrdersChanges, TradesChanges, MissingOrders, MissingTrades;
      var missing := MissingOrders(orderKeys, c);
      MirroredKeys(Mem(), past);
      issues' := Append(issues, missing, 100, before);
      var gone := MissingExecutions(c, past);
      issues' := Append(issues', gone, 100, before + missing);
      ghost var earlier := before + missing + gone;
      NothingYet(Mem(), past, c);
      issues', changes := ObserveOrders(c, past, issues', earlier);
      issues', changes := ObserveTrades(c, past, issues', earlier + OrdersTemporal(past, c.orders), changes);
      assert Part(c, |c.orders|, |c.trades|) == c;
      assert earlier + OrdersTemporal(past, c.orders) + TradesTemporal(past, c.trades)
          == before + Contradictions(past, c);
    }

    method MissingExecutions(c: Capture, ghost past: seq<Capture>) returns (gone: seq<TemporalFinding>)
      requires Mirrors(Mem(), past)
      ensures gone == MissingTrades(SeenTrades(past), past, c)
    {
      gone := [];
      for i := 0 to |tradeKeys|
        invariant gone == MissingTrades(tradeKeys[..i], past, c)
      {
        var key := tradeKeys[i];
        SeenTradesExact(past, key);
        assert Lookup(trades, key) == FirstTrade(past, key);
        assert tradeKeys[..i + 1][..i] == tradeKeys[..i];
        gone := gone + Flag(FindTrade(c.trades, key).None?, PreviouslyObservedTradeMissing, trades[key].orderId);
      }
      assert tradeKeys[..|tradeKeys|] == tradeKeys;
    }

    method ObserveOrders(c: Capture, ghost past: seq<Capture>, issues: Log<TemporalFinding>,
                         ghost before: seq<TemporalFinding>)
        returns (issues': Log<TemporalFinding>, changes: Log<Change>)
      requires UniqueOrders(c.orders) && Mirrors(Mem(), past + [Part(c, 0, 0)])
      requires issues == Capped(before, 100)
      modifies `orderKeys, `orders, `terminals, `exchangeIds, `maxFilled
      ensures Mirrors(Mem(), past + [Part(c, |c.orders|, 0)])
      ensures issues' == Capped(before + OrdersTemporal(past, c.orders), 100)
      ensures changes == Capped(OrdersChanges(past, c.orders), 250)
    {
      hide Mirrors, OrderTemporal, OrderChanges, Recall, RememberOrder, OrderView;
      issues', changes := issues, Log(0, []);
      assert before + [] == before;
      for i := 0 to |c.orders|
        invariant Mirrors(Mem(), past + [Part(c, i, 0)])
        invariant issues' == Capped(before + OrdersTemporal(past, c.orders[..i]), 100)
        invariant changes == Capped(OrdersChanges(past, c.orders[..i]), 250)
      {
        var o := c.orders[i];
        var mem := OrderView(Mem(), o.orderId);
        RememberOrderMirrors(Mem(), past, c, i);
        assert c.orders[..i + 1][..i] == c.orders[..i];
        ghost var found := OrdersTemporal(past, c.orders[..i]);
        issues' := Append(issues', OrderTemporal(mem, o), 100, before + found);
        assert before + found + OrderTemporal(mem, o) == before + (found + OrderTemporal(mem, o));
        changes := Append(changes, OrderChanges(mem, o), 250, OrdersChanges(past, c.orders[..i]));
        Remember(o);
      }
      assert c.orders[..|c.orders|] == c.orders;
    }

    /** The four map updates at the end of the loop body over orders. */
    method Remember(o: Order)
      modifies `orderKeys, `orders, `terminals, `exchangeIds, `maxFilled
      ensures Mem() == RememberOrder(old(Mem()), o)
    {
      var key := o.orderId;
      if o.exchangeOrderId.Some? && key !in exchangeIds {
        exchangeIds := exchangeIds[key := o.exchangeOrderId.value];
      }
      var largest := if key in maxFilled then maxFilled[key] else 0;
      maxFilled := maxFilled[key := if largest > o.filled then largest else o.filled];
      if Terminal(o.status) && key !in terminals {
        terminals := terminals[key := o];
      }
      if key in orders {
        orders := orders[key := Merge(orders[key], o)];
      } else {
        orders, orderKeys := orders[key := o], orderKeys + [key];
      }
    }

    method ObserveTrades(c: Capture, ghost past: seq<Capture>, issues: Log<TemporalFinding>,
                         ghost before: seq<TemporalFinding>, changes: Log<Change>)
        returns (issues': Log<TemporalFinding>, changes': Log<Change>)
      requires UniqueTrades(c.trades) && Mirrors(Mem(), past + [Part(c, |c.orders|, 0)])
      requires issues == Capped(before, 100) && changes == Capped(OrdersChanges(past, c.orders), 250)
      modifies `tradeKeys, `trades
      ensures Mirrors(Mem(), past + [Part(c, |c.orders|, |c.trades|)])
      ensures issues' == Capped(before + TradesTemporal(past, c.trades), 100)
      ensures changes' == Capped(Changes(past, c), 250)
    {
      hide Mirrors, OrdersChanges, TradeTemporal, TradeChanges, Cap, FirstTrade, UniqueTrades;
      issues', changes' := issues, changes;
      ghost var sofar := OrdersChanges(past, c.orders);
      assert before + [] == before && sofar + [] == sofar;
      for j := 0 to |c.trades|
        invariant Mirrors(Mem(), past + [Part(c, |c.orders|, j)])
        invariant issues' == Capped(before + TradesTemporal(past, c.trades[..j]), 100)
        invariant changes' == Capped(sofar + TradesChanges(past, c.trades[..j]), 250)
      {
        var t := c.trades[j];
        var first := Lookup(trades, KeyOf(t));
        RememberTradeMirrors(Mem(), past, c, j);
        assert c.trades[..j + 1][..j] == c.trades[..j];
        ghost var found, news := TradesTemporal(past, c.trades[..j]), TradesChanges(past, c.trades[..j]);
        issues' := Append(issues', TradeTemporal(first, t), 100, before + found);
        assert before + found + TradeTemporal(first, t) == before + (found + TradeTemporal(first, t));
        changes' := Append(changes', TradeChanges(first, t), 250, sofar + news);
        assert sofar + news + TradeChanges(first, t) == sofar + (news + TradeChanges(first, t));
        if first.None? {
          trades, tradeKeys := trades[KeyOf(t) := t], tradeKeys + [KeyOf(t)];
        }
      }
      assert c.trades[..|c.trades|] == c.trades;
    }
  }

  lemma RunExtended(run: seq<Observed>, x: Observed)
    ensures CurrentDay(run + [x]) == Some(DayOf(x))
    ensures Today(run + [x]) == if x.status == Changing then Past(run, x) else Past(run, x) + [x.capture]
    ensures TotalIssues(run + [x]) == TotalIssues(run) + |ReportFindings(run, x)| + x.issueCount
  {
    hide ReportFindings;
    assert (run + [x])[..|run|] == run;
  }

  lemma BoundaryPast(run: seq<Observed>, x: Observed)
    ensures Past(run, x) == if Boundary(run, x) then [] else Today(run)
    ensures run == [] ==> Today(run) == []
  {
  }

  lemma NothingUnresolved()
    ensures Unresolved([]) == 0
  {
  }

  lemma MirroredKeys(m: Memory, past: seq<Capture>)
    requires Mirrors(m, past)
    ensures m.orderKeys == SeenOrders(past) && m.tradeKeys == SeenTrades(past)
  {
  }
}
