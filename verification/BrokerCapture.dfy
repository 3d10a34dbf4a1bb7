/** `inspectBrokerCapture`: the reconciliation of orders with executions inside one capture. */
module BrokerCapture {
  import opened Prelude
  import opened CanonicalJson
  import opened BrokerRecords

  datatype Code =
    | OrphanTrade | TradeIdentityMismatch | TradeTimeOutsideCaptureDay | TradePrecedesOrder
    | OrderTimeAfterCapture | UnsupportedStatus | UnsupportedOrderVariety | FilledQuantityMismatch
    | QuantityComponentsExceedOrder | CompleteOrderQuantities | CompleteAveragePriceMismatch
    | RejectedOrderHasFills

  datatype Finding = Finding(code: Code, orderId: Text)

  datatype InspectionStatus = Consistent | Issues | Changing | Empty

  datatype Inspection = Inspection(
    status: InspectionStatus, issueCount: nat, issues: seq<Finding>,
    orderCount: nat, tradeCount: nat, openOrderCount: nat)

  const SUPPORTED_STATUSES: seq<Text> := [
    COMPLETE, CANCELLED, REJECTED, Ascii("OPEN"), Ascii("TRIGGER PENDING"), Ascii("VALIDATION PENDING"),
    Ascii("PUT ORDER REQ RECEIVED"), Ascii("OPEN PENDING"), Ascii("MODIFY VALIDATION PENDING"),
    Ascii("MODIFY PENDING"), Ascii("CANCEL PENDING"), Ascii("AMO REQ RECEIVED")]

  predicate SupportedStatus(status: Text) {
    status in SUPPORTED_STATUSES
  }

  predicate SupportedVariety(variety: Text) {
    variety == Ascii("regular") || variety == Ascii("amo")
  }

  /** One hundredth of a rupee in price units. */
  const CENT := 1_000_000

  ghost predicate UniqueOrders(rows: seq<Order>) {
    forall i, j | 0 <= i < j < |rows| :: rows[i].orderId != rows[j].orderId
  }

  ghost predicate UniqueTrades(rows: seq<Trade>) {
    forall i, j | 0 <= i < j < |rows| :: KeyOf(rows[i]) != KeyOf(rows[j])
  }

  lemma ValidOrdersUnique(rows: seq<Order>)
    requires ValidOrders(rows)
    ensures UniqueOrders(rows)
  {
    var identity := (o: Order) => o.orderId;
    assert ValidCollection(rows, identity, ValidOrder, 5000);
    forall i, j | 0 <= i < j < |rows| ensures rows[i].orderId != rows[j].orderId {
      assert identity(rows[i]) != identity(rows[j]);
    }
  }

  lemma ValidTradesUnique(rows: seq<Trade>)
    requires ValidTrades(rows)
    ensures UniqueTrades(rows)
  {
  }

  // ---------- lookups ----------

  /** The order a map keyed by order id holds: the last row wins. */
  function FindOrder(rows: seq<Order>, id: Text): Option<Order> {
    if rows == [] then None
    else if rows[|rows| - 1].orderId == id then Some(rows[|rows| - 1])
    else FindOrder(rows[..|rows| - 1], id)
  }

  /** The executions of one order, in recorded order. */
  function Linked(trades: seq<Trade>, id: Text): seq<Trade> {
    if trades == [] then []
    else if trades[|trades| - 1].orderId == id then Linked(trades[..|trades| - 1], id) + [trades[|trades| - 1]]
    else Linked(trades[..|trades| - 1], id)
  }

  function Quantity(trades: seq<Trade>): nat {
    if trades == [] then 0 else Quantity(trades[..|trades| - 1]) + trades[|trades| - 1].quantity
  }

  function Value(trades: seq<Trade>): nat {
    if trades == [] then 0
    else Value(trades[..|trades| - 1]) + trades[|trades| - 1].price.units * trades[|trades| - 1].quantity
  }

  lemma {:induction false} FindOrderExact(rows: seq<Order>, id: Text)
    ensures FindOrder(rows, id).None? <==> forall o | o in rows :: o.orderId != id
    ensures FindOrder(rows, id).Some? ==>
      FindOrder(rows, id).value in rows && FindOrder(rows, id).value.orderId == id
    ensures UniqueOrders(rows) ==> forall o | o in rows && o.orderId == id :: FindOrder(rows, id) == Some(o)
    decreases |rows|
  {
    if rows != [] {
      var n := |rows| - 1;
      FindOrderExact(rows[..n], id);
      assert rows == rows[..n] + [rows[n]];
    }
  }

  lemma {:induction false} LinkedExact(trades: seq<Trade>, id: Text)
    ensures forall t :: t in Linked(trades, id) <==> t in trades && t.orderId == id
    decreases |trades|
  {
    if trades != [] {
      var n := |trades| - 1;
      LinkedExact(trades[..n], id);
      assert trades == trades[..n] + [trades[n]];
    }
  }

  // ---------- findings ----------

  predicate SameInstrument(t: Trade, o: Order) {
    && t.instrumentId == o.instrumentId && t.symbol == o.symbol && t.exchange == o.exchange
    && t.product == o.product && t.side == o.side && Some(t.exchangeOrderId) == o.exchangeOrderId
  }

  datatype Check = Check(bad: bool, code: Code)

  /** The findings of a list of checks, in order. */
  function Raised(checks: seq<Check>, id: Text): seq<Finding> {
    if checks == [] then []
    else (if checks[0].bad then [Finding(checks[0].code, id)] else []) + Raised(checks[1..], id)
  }

  lemma {:induction false} RaisedNothing(checks: seq<Check>, id: Text)
    ensures Raised(checks, id) == [] <==> forall i | 0 <= i < |checks| :: !checks[i].bad
    decreases |checks|
  {
    if checks != [] {
      RaisedNothing(checks[1..], id);
      assert forall i | 1 <= i < |checks| :: checks[i] == checks[1..][i - 1];
      assert forall i | 0 <= i < |checks| - 1 :: checks[1..][i] == checks[i + 1];
    }
  }

  function TradeChecks(t: Trade, order: Option<Order>, end: Stamp): seq<Check> {
    [Check(order.None?, OrphanTrade),
     Check(order.Some? && !SameInstrument(t, order.value), TradeIdentityMismatch),
     Check(Day(t.at) != Day(end) || t.at.ms > end.ms, TradeTimeOutsideCaptureDay),
     Check(order.Some? && t.at.ms < order.value.at.ms, TradePrecedesOrder)]
  }

  function TradeFindings(t: Trade, order: Option<Order>, end: Stamp): seq<Finding> {
    Raised(TradeChecks(t, order, end), t.orderId)
  }

  /** The volume-weighted price differs from the reported average by more than a hundredth. */
  predicate AverageOff(o: Order, linked: seq<Trade>) {
    var qty := Quantity(linked);
    var deviation := Value(linked) - o.averagePrice.units * qty;
    qty > 0 && (if deviation < 0 then -deviation else deviation) > CENT * qty
  }

  function OrderChecks(o: Order, linked: seq<Trade>, end: Stamp): seq<Check> {
    [Check(o.at.ms > end.ms, OrderTimeAfterCapture),
     Check(!SupportedStatus(o.status), UnsupportedStatus),
     Check(!SupportedVariety(o.variety), UnsupportedOrderVariety),
     Check(o.filled != Quantity(linked), FilledQuantityMismatch),
     Check(o.filled + o.cancelled > o.quantity || o.pending > o.quantity, QuantityComponentsExceedOrder),
     Check(o.status == COMPLETE && (o.filled != o.quantity || o.pending != 0 || o.cancelled != 0),
           CompleteOrderQuantities),
     Check(o.status == COMPLETE && AverageOff(o, linked), CompleteAveragePriceMismatch),
     Check(o.status == REJECTED && o.filled != 0, RejectedOrderHasFills)]
  }

  function OrderFindings(o: Order, linked: seq<Trade>, end: Stamp): seq<Finding> {
    Raised(OrderChecks(o, linked, end), o.orderId)
  }

  function TradesFindings(c: Capture, n: nat): seq<Finding>
    requires n <= |c.trades|
  {
    if n == 0 then []
    else
      var t := c.trades[n - 1];
      TradesFindings(c, n - 1) + TradeFindings(t, FindOrder(c.orders, t.orderId), c.finishedAt)
  }

  function OrdersFindings(c: Capture, n: nat): seq<Finding>
    requires n <= |c.orders|
  {
    if n == 0 then []
    else
      var o := c.orders[n - 1];
      OrdersFindings(c, n - 1) + OrderFindings(o, Linked(c.trades, o.orderId), c.finishedAt)
  }

  function AllFindings(c: Capture): seq<Finding> {
    TradesFindings(c, |c.trades|) + OrdersFindings(c, |c.orders|)
  }

  function FirstFindings(xs: seq<Finding>): (r: seq<Finding>)
    ensures r <= xs && |r| == Min(|xs|, 50)
  {
    if |xs| <= 50 then xs else xs[..50]
  }

  function OpenOrders(rows: seq<Order>): nat {
    if rows == [] then 0
    else OpenOrders(rows[..|rows| - 1]) + (if Terminal(rows[|rows| - 1].status) then 0 else 1)
  }

  ghost predicate FillsMirror(fills: map<Text, seq<Trade>>, trades: seq<Trade>) {
    forall id :: (if id in fills then fills[id] else []) == Linked(trades, id)
  }

  /** What an inspection reports, from the findings and from whether the two reads agree. */
  function Inspected(c: Capture): Inspection {
    var findings := AllFindings(c);
    var stable := c.ordersBefore == c.orders && c.tradesBefore == c.trades;
    var status := if !stable then Changing else if findings != [] then Issues
                  else if c.orders != [] then Consistent else Empty;
    Inspection(status, |findings|, FirstFindings(findings), |c.orders|, |c.trades|, OpenOrders(c.orders))
  }

  /** The maps, counters and canonical texts of the inspection compute exactly the findings that the
      definitions above raise row by row and the field-for-field stability of the two reads. */
  method InspectCapture(c: Capture) returns (r: Inspection)
    requires ValidRows(c)
    ensures r == Inspected(c)
  {
    hide ValidRows;
    var orders := MapOrders(c.orders);
    var count, kept, fills := InspectTrades(c, orders);
    count, kept := InspectOrders(c, fills, count, kept);
    var open := CountOpen(c.orders);
    var stable := ReadsAgree(c);
    var status := if !stable then Changing else if count > 0 then Issues
                  else if c.orders != [] then Consistent else Empty;
    r := Inspection(status, count, kept, |c.orders|, |c.trades|, open);
  }

  method ReadsAgree(c: Capture) returns (stable: bool)
    requires ValidRows(c)
    ensures stable <==> c.ordersBefore == c.orders && c.tradesBefore == c.trades
  {
    StableReads(c);
    stable :=
      && Canonical(OrdersJson(c.ordersBefore)) == Canonical(OrdersJson(c.orders))
      && Canonical(TradesJson(c.tradesBefore)) == Canonical(TradesJson(c.trades));
  }

  method InspectTrades(c: Capture, orders: map<Text, Order>)
      returns (count: nat, kept: seq<Finding>, fills: map<Text, seq<Trade>>)
    requires forall id :: FindOrder(c.orders, id) == if id in orders then Some(orders[id]) else None
    ensures count == |TradesFindings(c, |c.trades|)| && kept == FirstFindings(TradesFindings(c, |c.trades|))
    ensures FillsMirror(fills, c.trades)
  {
    hide TradeChecks, Raised;
    count, kept, fills := 0, [], map[];
    for i := 0 to |c.trades|
      invariant FillsMirror(fills, c.trades[..i])
      invariant count == |TradesFindings(c, i)| && kept == FirstFindings(TradesFindings(c, i))
    {
      var t := c.trades[i];
      var order := if t.orderId in orders then Some(orders[t.orderId]) else None;
      count, kept := Tally(count, kept, TradeFindings(t, order, c.finishedAt), TradesFindings(c, i));
      assert c.trades[..i + 1][..i] == c.trades[..i];
      fills := fills[t.orderId := (if t.orderId in fills then fills[t.orderId] else []) + [t]];
    }
    assert c.trades[..|c.trades|] == c.trades;
  }

  method InspectOrders(c: Capture, fills: map<Text, seq<Trade>>, count: nat, kept: seq<Finding>)
      returns (count': nat, kept': seq<Finding>)
    requires FillsMirror(fills, c.trades)
    requires count == |TradesFindings(c, |c.trades|)| && kept == FirstFindings(TradesFindings(c, |c.trades|))
    ensures count' == |AllFindings(c)| && kept' == FirstFindings(AllFindings(c))
  {
    hide OrderChecks, Raised;
    ghost var earlier := TradesFindings(c, |c.trades|);
    count', kept' := count, kept;
    assert earlier + OrdersFindings(c, 0) == earlier;
    for i := 0 to |c.orders|
      invariant count' == |earlier + OrdersFindings(c, i)|
      invariant kept' == FirstFindings(earlier + OrdersFindings(c, i))
    {
      var o := c.orders[i];
      var found := OrderFindings(o, if o.orderId in fills then fills[o.orderId] else [], c.finishedAt);
      count', kept' := Tally(count', kept', found, earlier + OrdersFindings(c, i));
      Regroup(earlier, OrdersFindings(c, i), found);
    }
  }

  lemma Regroup(a: seq<Finding>, b: seq<Finding>, c: seq<Finding>)
    ensures a + b + c == a + (b + c)
  {
  }

  method CountOpen(rows: seq<Order>) returns (open: nat)
    ensures open == OpenOrders(rows)
  {
    open := 0;
    for i := 0 to |rows|
      invariant open == OpenOrders(rows[..i])
    {
      assert rows[..i + 1][..i] == rows[..i];
      open := open + if Terminal(rows[i].status) then 0 else 1;
    }
    assert rows[..|rows|] == rows;
  }

  method MapOrders(rows: seq<Order>) returns (orders: map<Text, Order>)
    ensures forall id :: FindOrder(rows, id) == if id in orders then Some(orders[id]) else None
  {
    orders := map[];
    for i := 0 to |rows|
      invariant forall id :: FindOrder(rows[..i], id) == if id in orders then Some(orders[id]) else None
    {
      assert rows[..i + 1][..i] == rows[..i];
      orders := orders[rows[i].orderId := rows[i]];
    }
    assert rows[..|rows|] == rows;
  }

  /** `issue(...)` for each finding in turn: count all, keep the first fifty. */
  method Tally(count: nat, kept: seq<Finding>, found: seq<Finding>, ghost before: seq<Finding>)
      returns (count': nat, kept': seq<Finding>)
    requires count == |before| && kept == FirstFindings(before)
    ensures count' == |before + found| && kept' == FirstFindings(before + found)
  {
    count', kept' := count, kept;
    for i := 0 to |found|
      invariant count' == |before + found[..i]| && kept' == FirstFindings(before + found[..i])
    {
      assert before + found[..i + 1] == before + found[..i] + [found[i]];
      if |kept'| < 50 {
        kept' := kept' + [found[i]];
      }
      count' := count' + 1;
    }
    assert found[..|found|] == found;
  }
}
