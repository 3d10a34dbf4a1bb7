/** What an inspection without findings means: the orders and the executions of the capture account
    for each other exactly. */
module BrokerReconciliation {
  import opened Prelude
  import opened BrokerRecords
  import opened BrokerCapture

  // ---------- zero findings, in quantifiers ----------

  ghost predicate TradeReconciled(c: Capture, t: Trade) {
    && (exists o | o in c.orders :: o.orderId == t.orderId && SameInstrument(t, o) && o.at.ms <= t.at.ms)
    && Day(t.at) == Day(c.finishedAt) && t.at.ms <= c.finishedAt.ms
  }

  ghost predicate OrderReconciled(c: Capture, o: Order) {
    var linked := Linked(c.trades, o.orderId);
    && o.at.ms <= c.finishedAt.ms && SupportedStatus(o.status) && SupportedVariety(o.variety)
    && o.filled == Quantity(linked)
    && o.filled + o.cancelled <= o.quantity && o.pending <= o.quantity
    && (o.status == COMPLETE ==> o.filled == o.quantity && o.pending == 0 && o.cancelled == 0)
    && (o.status == COMPLETE ==> AverageWithinCent(o, linked))
    && (o.status == REJECTED ==> o.filled == 0)
  }

  /** The reported average is within a hundredth of the execution-weighted price. */
  ghost predicate AverageWithinCent(o: Order, linked: seq<Trade>) {
    var qty := Quantity(linked);
    (o.averagePrice.units - CENT) * qty <= Value(linked) <= (o.averagePrice.units + CENT) * qty
  }

  ghost predicate Reconciled(c: Capture) {
    && (forall t | t in c.trades :: TradeReconciled(c, t))
    && (forall o | o in c.orders :: OrderReconciled(c, o))
  }

  lemma TradeSilent(c: Capture, t: Trade)
    requires UniqueOrders(c.orders)
    ensures TradeFindings(t, FindOrder(c.orders, t.orderId), c.finishedAt) == [] <==> TradeReconciled(c, t)
  {
    FindOrderExact(c.orders, t.orderId);
    var checks := TradeChecks(t, FindOrder(c.orders, t.orderId), c.finishedAt);
    RaisedNothing(checks, t.orderId);
    assert (forall i | 0 <= i < |checks| :: !checks[i].bad) <==>
      !checks[0].bad && !checks[1].bad && !checks[2].bad && !checks[3].bad;
  }

  lemma {:induction false} NoQuantityNoValue(trades: seq<Trade>)
    requires Quantity(trades) == 0
    ensures Value(trades) == 0
    decreases |trades|
  {
    if trades != [] {
      NoQuantityNoValue(trades[..|trades| - 1]);
    }
  }

  lemma AverageSilent(o: Order, linked: seq<Trade>)
    ensures !AverageOff(o, linked) <==> AverageWithinCent(o, linked)
  {
    var qty, avg := Quantity(linked), o.averagePrice.units;
    if qty == 0 {
      NoQuantityNoValue(linked);
    }
    assert (avg - CENT) * qty == avg * qty - CENT * qty;
    assert (avg + CENT) * qty == avg * qty + CENT * qty;
  }

  lemma OrderSilent(c: Capture, o: Order)
    ensures OrderFindings(o, Linked(c.trades, o.orderId), c.finishedAt) == [] <==> OrderReconciled(c, o)
  {
    AverageSilent(o, Linked(c.trades, o.orderId));
    var checks := OrderChecks(o, Linked(c.trades, o.orderId), c.finishedAt);
    RaisedNothing(checks, o.orderId);
    assert (forall i | 0 <= i < |checks| :: !checks[i].bad) <==>
      && !checks[0].bad && !checks[1].bad && !checks[2].bad && !checks[3].bad
      && !checks[4].bad && !checks[5].bad && !checks[6].bad && !checks[7].bad;
  }

  lemma {:induction false} TradesSilent(c: Capture, n: nat)
    requires n <= |c.trades| && UniqueOrders(c.orders)
    ensures TradesFindings(c, n) == [] <==> forall i | 0 <= i < n :: TradeReconciled(c, c.trades[i])
  {
    hide TradeReconciled, TradeFindings;
    if n > 0 {
      TradesSilent(c, n - 1);
      TradeSilent(c, c.trades[n - 1]);
    }
  }

  lemma {:induction false} OrdersSilent(c: Capture, n: nat)
    requires n <= |c.orders|
    ensures OrdersFindings(c, n) == [] <==> forall i | 0 <= i < n :: OrderReconciled(c, c.orders[i])
  {
    hide OrderReconciled, OrderFindings;
    if n > 0 {
      OrdersSilent(c, n - 1);
      OrderSilent(c, c.orders[n - 1]);
    }
  }

  /** An inspection counts no finding exactly when every execution and every order is reconciled. */
  lemma ZeroFindingsExact(c: Capture)
    requires UniqueOrders(c.orders)
    ensures Inspected(c).issueCount == 0 <==> Reconciled(c)
  {
    TradesSilent(c, |c.trades|);
    OrdersSilent(c, |c.orders|);
  }

  // ---------- each finding, and the status ----------

  /** An execution and its order disagree about what was traded. */
  predicate Mismatch(t: Trade, o: Order) {
    || t.instrumentId != o.instrumentId || t.symbol != o.symbol || t.exchange != o.exchange
    || t.product != o.product || t.side != o.side || o.exchangeOrderId != Some(t.exchangeOrderId)
  }

  lemma {:induction false} RaisedExact(checks: seq<Check>, id: Text, x: Finding)
    ensures x in Raised(checks, id) <==> x.orderId == id && Check(true, x.code) in checks
    decreases |checks|
  {
    if checks != [] {
      RaisedExact(checks[1..], id, x);
      assert checks == [checks[0]] + checks[1..];
    }
  }

  lemma {:induction false} TradesFindingsExact(c: Capture, n: nat, x: Finding)
    requires n <= |c.trades|
    ensures x in TradesFindings(c, n) <==>
      exists i :: 0 <= i < n && x in TradeFindings(c.trades[i], FindOrder(c.orders, c.trades[i].orderId), c.finishedAt)
    decreases n
  {
    hide TradeFindings, FindOrder;
    if n > 0 {
      TradesFindingsExact(c, n - 1, x);
    }
  }

  lemma {:induction false} OrdersFindingsExact(c: Capture, n: nat, x: Finding)
    requires n <= |c.orders|
    ensures x in OrdersFindings(c, n) <==>
      exists i :: 0 <= i < n
                  && x in OrderFindings(c.orders[i], Linked(c.trades, c.orders[i].orderId), c.finishedAt)
    decreases n
  {
    hide OrderFindings, Linked;
    if n > 0 {
      OrdersFindingsExact(c, n - 1, x);
    }
  }

  /** What a finding about one execution, or one order, says of it. */
  ghost predicate TradeAtFault(c: Capture, t: Trade, code: Code) {
    match code
    case OrphanTrade => forall o | o in c.orders :: o.orderId != t.orderId
    case TradeIdentityMismatch => exists o :: o in c.orders && o.orderId == t.orderId && Mismatch(t, o)
    case TradeTimeOutsideCaptureDay => Day(t.at) != Day(c.finishedAt) || c.finishedAt.ms < t.at.ms
    case TradePrecedesOrder => exists o :: o in c.orders && o.orderId == t.orderId && t.at.ms < o.at.ms
    case _ => false
  }

  lemma TradeFindingExact(c: Capture, t: Trade, x: Finding)
    requires UniqueOrders(c.orders)
    ensures x in TradeFindings(t, FindOrder(c.orders, t.orderId), c.finishedAt)
       <==> x.orderId == t.orderId && TradeAtFault(c, t, x.code)
  {
    var order := FindOrder(c.orders, t.orderId);
    FindOrderExact(c.orders, t.orderId);
    hide FindOrder, UniqueOrders;
    var checks := TradeChecks(t, order, c.finishedAt);
    RaisedExact(checks, t.orderId, x);
    assert Check(true, x.code) in checks <==>
      || Check(true, x.code) == checks[0] || Check(true, x.code) == checks[1]
      || Check(true, x.code) == checks[2] || Check(true, x.code) == checks[3];
  }

  ghost predicate OrderAtFault(c: Capture, o: Order, code: Code) {
    match code
    case OrderTimeAfterCapture => c.finishedAt.ms < o.at.ms
    case UnsupportedStatus => !SupportedStatus(o.status)
    case UnsupportedOrderVariety => !SupportedVariety(o.variety)
    case FilledQuantityMismatch => o.filled != Quantity(Linked(c.trades, o.orderId))
    case QuantityComponentsExceedOrder => o.quantity < o.filled + o.cancelled || o.quantity < o.pending
    case CompleteOrderQuantities =>
      o.status == COMPLETE && !(o.filled == o.quantity && o.pending == 0 && o.cancelled == 0)
    case CompleteAveragePriceMismatch =>
      o.status == COMPLETE && !AverageWithinCent(o, Linked(c.trades, o.orderId))
    case RejectedOrderHasFills => o.status == REJECTED && o.filled > 0
    case _ => false
  }

  lemma OrderFindingExact(c: Capture, o: Order, x: Finding)
    ensures x in OrderFindings(o, Linked(c.trades, o.orderId), c.finishedAt)
       <==> x.orderId == o.orderId && OrderAtFault(c, o, x.code)
  {
    AverageSilent(o, Linked(c.trades, o.orderId));
    hide Linked, Quantity, AverageOff, AverageWithinCent, SupportedStatus, SupportedVariety;
    var checks := OrderChecks(o, Linked(c.trades, o.orderId), c.finishedAt);
    RaisedExact(checks, o.orderId, x);
    var y := Check(true, x.code);
    assert y in checks <==>
      || y == checks[0] || y == checks[1] || y == checks[2] || y == checks[3]
      || y == checks[4] || y == checks[5] || y == checks[6] || y == checks[7];
  }

  /** An execution or an order under this id is at fault in the way the code names. */
  ghost predicate Inconsistent(c: Capture, code: Code, id: Text) {
    || (exists t :: t in c.trades && t.orderId == id && TradeAtFault(c, t, code))
    || (exists o :: o in c.orders && o.orderId == id && OrderAtFault(c, o, code))
  }

  /** A finding is raised for an order exactly when the capture has, at that order, the inconsistency its code names. */
  lemma InspectionFindingExact(c: Capture, code: Code, id: Text)
    requires UniqueOrders(c.orders)
    ensures Finding(code, id) in AllFindings(c) <==> Inconsistent(c, code, id)
  {
    var x := Finding(code, id);
    hide UniqueOrders, TradeFindings, OrderFindings, Linked, FindOrder, TradeAtFault, OrderAtFault;
    TradesFindingsExact(c, |c.trades|, x);
    OrdersFindingsExact(c, |c.orders|, x);
    forall i | 0 <= i < |c.trades|
      ensures x in TradeFindings(c.trades[i], FindOrder(c.orders, c.trades[i].orderId), c.finishedAt)
         <==> id == c.trades[i].orderId && TradeAtFault(c, c.trades[i], code)
    {
      TradeFindingExact(c, c.trades[i], x);
    }
    forall i | 0 <= i < |c.orders|
      ensures x in OrderFindings(c.orders[i], Linked(c.trades, c.orders[i].orderId), c.finishedAt)
         <==> id == c.orders[i].orderId && OrderAtFault(c, c.orders[i], code)
    {
      OrderFindingExact(c, c.orders[i], x);
    }
  }

  /** A capture is changing when its two reads differ; otherwise it has issues, is consistent or is empty: issues
      when something is not reconciled, empty when it shows nothing at all. */
  lemma InspectionStatusExact(c: Capture)
    requires UniqueOrders(c.orders)
    ensures var status, stable := Inspected(c).status, c.ordersBefore == c.orders && c.tradesBefore == c.trades;
      && (status == Changing <==> !stable)
      && (status == Issues <==> stable && !Reconciled(c))
      && (status == Consistent <==> stable && Reconciled(c) && c.orders != [])
      && (status == Empty <==> stable && c.orders == [] && c.trades == [])
  {
    ZeroFindingsExact(c);
    hide AllFindings, FirstFindings, OrderReconciled, Day;
    if Reconciled(c) && c.trades != [] {
      assert TradeReconciled(c, c.trades[0]);
    }
  }

  ghost function OpenIndices(rows: seq<Order>): set<nat> {
    set i: nat | i < |rows| && rows[i].status !in {COMPLETE, CANCELLED, REJECTED}
  }

  lemma OpenIndicesStep(rows: seq<Order>)
    requires rows != []
    ensures var n := |rows| - 1;
      |OpenIndices(rows)| == |OpenIndices(rows[..n])| + if Terminal(rows[n].status) then 0 else 1
  {
    var n := |rows| - 1;
    var before := OpenIndices(rows[..n]);
    if Terminal(rows[n].status) {
      assert OpenIndices(rows) == before;
    } else {
      assert OpenIndices(rows) == before + {n} && n !in before;
    }
  }

  /** The open orders are counted one by one. */
  lemma {:induction false} OpenOrdersExact(rows: seq<Order>)
    ensures OpenOrders(rows) == |OpenIndices(rows)|
    decreases |rows|
  {
    if rows != [] {
      var n := |rows| - 1;
      OpenOrdersExact(rows[..n]);
      OpenIndicesStep(rows);
      hide OpenIndices, Terminal;
    } else {
      assert OpenIndices(rows) == {};
    }
  }

  // ---------- conservation ----------

  function TotalFilled(rows: seq<Order>): nat {
    if rows == [] then 0 else TotalFilled(rows[..|rows| - 1]) + rows[|rows| - 1].filled
  }

  /** What all the orders together see of a list of executions. */
  function TotalLinked(rows: seq<Order>, trades: seq<Trade>): nat {
    if rows == [] then 0
    else TotalLinked(rows[..|rows| - 1], trades) + Quantity(Linked(trades, rows[|rows| - 1].orderId))
  }

  ghost predicate Known(rows: seq<Order>, t: Trade) {
    exists o | o in rows :: o.orderId == t.orderId
  }

  lemma {:induction false} TotalLinkedStep(rows: seq<Order>, trades: seq<Trade>)
    requires trades != [] && UniqueOrders(rows)
    ensures TotalLinked(rows, trades) == TotalLinked(rows, trades[..|trades| - 1])
      + if Known(rows, trades[|trades| - 1]) then trades[|trades| - 1].quantity else 0
    decreases |rows|
  {
    if rows != [] {
      var n, t := |rows| - 1, trades[|trades| - 1];
      TotalLinkedStep(rows[..n], trades);
      LinkedStep(trades, rows[n].orderId);
      if rows[n].orderId == t.orderId {
        assert rows[n] in rows;
        assert forall o | o in rows[..n] :: o.orderId != t.orderId;
      } else {
        assert forall o | o in rows :: o in rows[..n] || o == rows[n];
      }
    }
  }

  lemma LinkedStep(trades: seq<Trade>, id: Text)
    requires trades != []
    ensures Quantity(Linked(trades, id)) == Quantity(Linked(trades[..|trades| - 1], id))
      + if trades[|trades| - 1].orderId == id then trades[|trades| - 1].quantity else 0
  {
    var rest := Linked(trades[..|trades| - 1], id);
    assert (rest + [trades[|trades| - 1]])[..|rest|] == rest;
  }

  lemma {:induction false} NoTrades(rows: seq<Order>)
    ensures TotalLinked(rows, []) == 0
    decreases |rows|
  {
    if rows != [] {
      NoTrades(rows[..|rows| - 1]);
    }
  }

  lemma {:induction false} EveryExecutionCountedOnce(rows: seq<Order>, trades: seq<Trade>)
    requires UniqueOrders(rows)
    requires forall t | t in trades :: Known(rows, t)
    ensures TotalLinked(rows, trades) == Quantity(trades)
    decreases |trades|
  {
    if trades == [] {
      NoTrades(rows);
    } else {
      assert forall t | t in trades[..|trades| - 1] :: t in trades;
      EveryExecutionCountedOnce(rows, trades[..|trades| - 1]);
      TotalLinkedStep(rows, trades);
      assert trades[|trades| - 1] in trades;
    }
  }

  lemma {:induction false} FilledIsLinked(rows: seq<Order>, trades: seq<Trade>)
    requires forall o | o in rows :: o.filled == Quantity(Linked(trades, o.orderId))
    ensures TotalFilled(rows) == TotalLinked(rows, trades)
    decreases |rows|
  {
    if rows != [] {
      assert forall o | o in rows[..|rows| - 1] :: o in rows;
      FilledIsLinked(rows[..|rows| - 1], trades);
      assert rows[|rows| - 1] in rows;
    }
  }

  /** Exactly one order of the capture is the one an execution names. */
  ghost predicate LinkedOnce(c: Capture, t: Trade) {
    exists i | 0 <= i < |c.orders| :: c.orders[i].orderId == t.orderId && OthersDiffer(c.orders, i)
  }

  ghost predicate OthersDiffer(rows: seq<Order>, i: nat)
    requires i < |rows|
  {
    forall j | 0 <= j < |rows| && j != i :: rows[j].orderId != rows[i].orderId
  }

  /** A capture without findings conserves quantity: each execution belongs to exactly one order,
      each order's filled quantity is the sum of its executions, and so the totals agree. */
  lemma QuantityConserved(c: Capture)
    requires UniqueOrders(c.orders) && Inspected(c).issueCount == 0
    ensures forall t | t in c.trades :: LinkedOnce(c, t)
    ensures forall o | o in c.orders :: o.filled == Quantity(Linked(c.trades, o.orderId))
    ensures TotalFilled(c.orders) == Quantity(c.trades)
  {
    ZeroFindingsExact(c);
    forall t | t in c.trades
      ensures LinkedOnce(c, t)
    {
      assert TradeReconciled(c, t);
      var o :| o in c.orders && o.orderId == t.orderId;
      var i :| 0 <= i < |c.orders| && c.orders[i] == o;
      assert OthersDiffer(c.orders, i);
    }
    forall o | o in c.orders ensures o.filled == Quantity(Linked(c.trades, o.orderId)) {
      assert OrderReconciled(c, o);
    }
    FilledIsLinked(c.orders, c.trades);
    EveryExecutionCountedOnce(c.orders, c.trades);
  }

  // ---------- average price ----------

  lemma ValueStep(low: int, high: int, quantity: nat, rest: int, total: int)
    requires low <= high && total == rest + quantity
    ensures low * total == low * rest + low * quantity
    ensures low * quantity <= high * quantity
  {
    assert (high - low) * quantity >= 0;
  }

  lemma {:induction false} ValueAtLeast(trades: seq<Trade>, bound: nat)
    requires forall t | t in trades :: bound <= t.price.units
    ensures bound * Quantity(trades) <= Value(trades)
    decreases |trades|
  {
    if trades != [] {
      var n := |trades| - 1;
      ValueAtLeast(trades[..n], bound);
      assert trades[n] in trades;
      ValueStep(bound, trades[n].price.units, trades[n].quantity, Quantity(trades[..n]), Quantity(trades));
    }
  }

  lemma {:induction false} ValueAtMost(trades: seq<Trade>, bound: int)
    requires forall t | t in trades :: t.price.units <= bound
    ensures Value(trades) <= bound * Quantity(trades)
    decreases |trades|
  {
    if trades != [] {
      var n := |trades| - 1;
      ValueAtMost(trades[..n], bound);
      assert trades[n] in trades;
      ValueStep(trades[n].price.units, bound, trades[n].quantity, 0, trades[n].quantity);
      ValueStep(bound, bound, trades[n].quantity, Quantity(trades[..n]), Quantity(trades));
    }
  }

  /** An average within a hundredth of the weighted price is within a hundredth of some execution
      from above and of some execution from below. */
  lemma CheapestWithinCent(o: Order, linked: seq<Trade>)
    requires AverageWithinCent(o, linked) && Quantity(linked) > 0
    ensures exists t :: t in linked && t.price.units <= o.averagePrice.units + CENT
  {
    var qty, avg := Quantity(linked), o.averagePrice.units;
    if forall t | t in linked :: t.price.units > avg + CENT {
      ValueAtLeast(linked, avg + CENT + 1);
      Scale(avg + CENT, 1, qty);
    }
  }

  lemma DearestWithinCent(o: Order, linked: seq<Trade>)
    requires AverageWithinCent(o, linked) && Quantity(linked) > 0
    ensures exists t :: t in linked && o.averagePrice.units - CENT <= t.price.units
  {
    var qty, avg := Quantity(linked), o.averagePrice.units;
    if forall t | t in linked :: t.price.units < avg - CENT {
      ValueAtMost(linked, avg - CENT - 1);
      Scale(avg - CENT, -1, qty);
    }
  }

  lemma Scale(a: int, b: int, q: int)
    ensures (a + b) * q == a * q + b * q
  {
  }

  /** The average of a complete order in a capture without findings lies within a hundredth of its
      execution-weighted price and of the range of its execution prices. */
  lemma AverageWithinRange(c: Capture, o: Order)
    requires UniqueOrders(c.orders) && Inspected(c).issueCount == 0
    requires o in c.orders && o.status == COMPLETE && o.quantity > 0
    ensures AverageWithinCent(o, Linked(c.trades, o.orderId))
    ensures exists t :: t in c.trades && t.orderId == o.orderId && t.price.units <= o.averagePrice.units + 1_000_000
    ensures exists t :: t in c.trades && t.orderId == o.orderId && o.averagePrice.units - 1_000_000 <= t.price.units
  {
    ZeroFindingsExact(c);
    LinkedExact(c.trades, o.orderId);
    assert OrderReconciled(c, o);
    CheapestWithinCent(o, Linked(c.trades, o.orderId));
    DearestWithinCent(o, Linked(c.trades, o.orderId));
  }
}
