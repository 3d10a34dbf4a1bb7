/** What the lifecycle of a broker account should report about a capture, defined by scanning every
    capture seen before it. No remembered state appears here. */
module LifecycleHistory {
  import opened Prelude
  import opened BrokerRecords
  import opened BrokerCapture

  datatype TemporalCode =
    | DayBoundaryUnresolvedOrders | PreviouslyObservedOrderMissing | PreviouslyObservedTradeMissing
    | OrderIdentityChanged | ExchangeOrderIdentityChanged | FilledQuantityRegressed
    | TerminalOrderChanged | PreviousExecutionChanged

  datatype TemporalFinding = TemporalFinding(code: TemporalCode, orderId: Option<Text>)

  datatype ChangeKind =
    | StatusChange | QuantityChange | FilledChange | PendingChange | CancelledChange
    | AveragePriceChange | ExchangeOrderIdChange | AtChange
    | OrderFirstObserved | ExecutionFirstObserved

  datatype FieldValue = Null | Words(text: Text) | Amount(n: nat)

  datatype Change = Change(kind: ChangeKind, orderId: Text, before: FieldValue, after: FieldValue)

  datatype TemporalStatus = Unverified | TemporalIssues | Compared | Baseline

  datatype TemporalReport = TemporalReport(
    status: TemporalStatus, issueCount: nat, issues: seq<TemporalFinding>,
    changeCount: nat, changes: seq<Change>,
    dayBoundary: bool, unresolvedPriorDayOrders: nat, gapSeconds: Option<real>)

  /** A capture together with what its own inspection said. */
  datatype Observed = Observed(capture: Capture, status: InspectionStatus, issueCount: nat)

  function DayOf(x: Observed): int {
    Day(x.capture.finishedAt)
  }

  // ---------- the captures that count ----------

  /** The captures at the end of a run that lie in the given day, without the changing ones. */
  function DayStable(run: seq<Observed>, day: int): seq<Capture> {
    if run == [] || DayOf(run[|run| - 1]) != day then []
    else if run[|run| - 1].status == Changing then DayStable(run[..|run| - 1], day)
    else DayStable(run[..|run| - 1], day) + [run[|run| - 1].capture]
  }

  function CurrentDay(run: seq<Observed>): Option<int> {
    if run == [] then None else Some(DayOf(run[|run| - 1]))
  }

  /** The stable captures of the day of the latest capture. */
  function Today(run: seq<Observed>): seq<Capture> {
    if run == [] then [] else DayStable(run, DayOf(run[|run| - 1]))
  }

  // ---------- sightings ----------

  function Sightings(past: seq<Capture>, id: Text): seq<Order> {
    if past == [] then []
    else
      var earlier := Sightings(past[..|past| - 1], id);
      match FindOrder(past[|past| - 1].orders, id)
      case None => earlier
      case Some(o) => earlier + [o]
  }

  function FindTrade(rows: seq<Trade>, key: TradeKey): Option<Trade> {
    if rows == [] then None
    else if KeyOf(rows[|rows| - 1]) == key then Some(rows[|rows| - 1])
    else FindTrade(rows[..|rows| - 1], key)
  }

  function FirstTrade(past: seq<Capture>, key: TradeKey): Option<Trade> {
    if past == [] then None
    else
      var earlier := FirstTrade(past[..|past| - 1], key);
      if earlier.Some? then earlier else FindTrade(past[|past| - 1].trades, key)
  }

  function MaxFilled(seen: seq<Order>): nat {
    if seen == [] then 0
    else
      var earlier, last := MaxFilled(seen[..|seen| - 1]), seen[|seen| - 1].filled;
      if earlier < last then last else earlier
  }

  function FirstTerminal(seen: seq<Order>): Option<Order> {
    if seen == [] then None
    else
      var earlier, last := FirstTerminal(seen[..|seen| - 1]), seen[|seen| - 1];
      if earlier.Some? then earlier else if Terminal(last.status) then Some(last) else None
  }

  function FirstExchangeId(seen: seq<Order>): Option<Text> {
    if seen == [] then None
    else
      var earlier := FirstExchangeId(seen[..|seen| - 1]);
      if earlier.Some? then earlier else seen[|seen| - 1].exchangeOrderId
  }

  /** The identity of the first sighting with the latest mutable fields. */
  function Merge(first: Order, last: Order): Order {
    first.(status := last.status, quantity := last.quantity, filled := last.filled, pending := last.pending,
           cancelled := last.cancelled, averagePrice := last.averagePrice,
           exchangeOrderId := last.exchangeOrderId, at := last.at)
  }

  datatype OrderMemory = OrderMemory(
    seen: Option<Order>, maxFilled: nat, ended: Option<Order>, exchangeId: Option<Text>)

  function RecallSightings(seen: seq<Order>): OrderMemory {
    OrderMemory(if seen == [] then None else Some(Merge(seen[0], seen[|seen| - 1])),
                MaxFilled(seen), FirstTerminal(seen), FirstExchangeId(seen))
  }

  function Recall(past: seq<Capture>, id: Text): OrderMemory {
    RecallSightings(Sightings(past, id))
  }

  /** Order ids and execution keys in the order of their first sighting. */
  function AddIds(ids: seq<Text>, rows: seq<Order>): seq<Text> {
    if rows == [] then ids
    else
      var earlier, id := AddIds(ids, rows[..|rows| - 1]), rows[|rows| - 1].orderId;
      if id in earlier then earlier else earlier + [id]
  }

  function AddKeys(keys: seq<TradeKey>, rows: seq<Trade>): seq<TradeKey> {
    if rows == [] then keys
    else
      var earlier, key := AddKeys(keys, rows[..|rows| - 1]), KeyOf(rows[|rows| - 1]);
      if key in earlier then earlier else earlier + [key]
  }

  function SeenOrders(past: seq<Capture>): seq<Text> {
    if past == [] then [] else AddIds(SeenOrders(past[..|past| - 1]), past[|past| - 1].orders)
  }

  function SeenTrades(past: seq<Capture>): seq<TradeKey> {
    if past == [] then [] else AddKeys(SeenTrades(past[..|past| - 1]), past[|past| - 1].trades)
  }

  // ---------- findings ----------

  predicate SameIdentity(a: Order, b: Order) {
    && a.instrumentId == b.instrumentId && a.symbol == b.symbol && a.exchange == b.exchange
    && a.product == b.product && a.side == b.side && a.variety == b.variety
  }

  predicate SameEnd(ended: Order, o: Order) {
    && o.status == ended.status && o.quantity == ended.quantity && o.filled == ended.filled
    && (ended.status == COMPLETE ==> o.averagePrice == ended.averagePrice)
  }

  function Flag(bad: bool, code: TemporalCode, id: Text): seq<TemporalFinding> {
    if bad then [TemporalFinding(code, Some(id))] else []
  }

  function OrderTemporal(mem: OrderMemory, o: Order): seq<TemporalFinding> {
    if mem.seen.None? then []
    else
      Flag(!SameIdentity(mem.seen.value, o), OrderIdentityChanged, o.orderId)
      + Flag(mem.exchangeId.Some? && mem.exchangeId != o.exchangeOrderId, ExchangeOrderIdentityChanged, o.orderId)
      + Flag(o.filled < mem.maxFilled, FilledQuantityRegressed, o.orderId)
      + Flag(mem.ended.Some? && !SameEnd(mem.ended.value, o), TerminalOrderChanged, o.orderId)
  }

  function TradeTemporal(first: Option<Trade>, t: Trade): seq<TemporalFinding> {
    Flag(first.Some? && first.value != t, PreviousExecutionChanged, t.orderId)
  }

  function MissingOrders(ids: seq<Text>, c: Capture): seq<TemporalFinding> {
    if ids == [] then []
    else
      var id := ids[|ids| - 1];
      MissingOrders(ids[..|ids| - 1], c)
      + Flag(FindOrder(c.orders, id).None?, PreviouslyObservedOrderMissing, id)
  }

  function MissingTrades(keys: seq<TradeKey>, past: seq<Capture>, c: Capture): seq<TemporalFinding> {
    if keys == [] then []
    else
      var key := keys[|keys| - 1];
      var first := FirstTrade(past, key);
      MissingTrades(keys[..|keys| - 1], past, c)
      + Flag(FindTrade(c.trades, key).None?, PreviouslyObservedTradeMissing,
             if first.Some? then first.value.orderId else [])
  }

  function OrdersTemporal(past: seq<Capture>, rows: seq<Order>): seq<TemporalFinding> {
    if rows == [] then []
    else
      var o := rows[|rows| - 1];
      OrdersTemporal(past, rows[..|rows| - 1]) + OrderTemporal(Recall(past, o.orderId), o)
  }

  function TradesTemporal(past: seq<Capture>, rows: seq<Trade>): seq<TemporalFinding> {
    if rows == [] then []
    else
      var t := rows[|rows| - 1];
      TradesTemporal(past, rows[..|rows| - 1]) + TradeTemporal(FirstTrade(past, KeyOf(t)), t)
  }

  /** What a stable capture contradicts in the stable captures of its day before it. */
  function Contradictions(past: seq<Capture>, c: Capture): seq<TemporalFinding> {
    MissingOrders(SeenOrders(past), c) + MissingTrades(SeenTrades(past), past, c)
    + OrdersTemporal(past, c.orders) + TradesTemporal(past, c.trades)
  }

  // ---------- changes ----------

  function Moved(moved: bool, kind: ChangeKind, id: Text, before: FieldValue, after: FieldValue): seq<Change> {
    if moved then [Change(kind, id, before, after)] else []
  }

  function Optional(t: Option<Text>): FieldValue {
    if t.Some? then Words(t.value) else Null
  }

  function FieldChanges(was: Order, o: Order): seq<Change> {
    Moved(was.status != o.status, StatusChange, o.orderId, Words(was.status), Words(o.status))
    + Moved(was.quantity != o.quantity, QuantityChange, o.orderId, Amount(was.quantity), Amount(o.quantity))
    + Moved(was.filled != o.filled, FilledChange, o.orderId, Amount(was.filled), Amount(o.filled))
    + Moved(was.pending != o.pending, PendingChange, o.orderId, Amount(was.pending), Amount(o.pending))
    + Moved(was.cancelled != o.cancelled, CancelledChange, o.orderId, Amount(was.cancelled), Amount(o.cancelled))
    + Moved(was.averagePrice != o.averagePrice, AveragePriceChange, o.orderId,
            Words(was.averagePrice.text), Words(o.averagePrice.text))
    + Moved(was.exchangeOrderId != o.exchangeOrderId, ExchangeOrderIdChange, o.orderId,
            Optional(was.exchangeOrderId), Optional(o.exchangeOrderId))
    + Moved(was.at != o.at, AtChange, o.orderId, Words(was.at.text), Words(o.at.text))
  }

  function OrderChanges(mem: OrderMemory, o: Order): seq<Change> {
    if mem.seen.None? then [Change(OrderFirstObserved, o.orderId, Null, Words(o.status))]
    else FieldChanges(mem.seen.value, o)
  }

  function TradeChanges(first: Option<Trade>, t: Trade): seq<Change> {
    if first.None? then [Change(ExecutionFirstObserved, t.orderId, Null, Words(t.tradeId))] else []
  }

  function OrdersChanges(past: seq<Capture>, rows: seq<Order>): seq<Change> {
    if rows == [] then []
    else
      var o := rows[|rows| - 1];
      OrdersChanges(past, rows[..|rows| - 1]) + OrderChanges(Recall(past, o.orderId), o)
  }

  function TradesChanges(past: seq<Capture>, rows: seq<Trade>): seq<Change> {
    if rows == [] then []
    else
      var t := rows[|rows| - 1];
      TradesChanges(past, rows[..|rows| - 1]) + TradeChanges(FirstTrade(past, KeyOf(t)), t)
  }

  function Changes(past: seq<Capture>, c: Capture): seq<Change> {
    OrdersChanges(past, c.orders) + TradesChanges(past, c.trades)
  }

  // ---------- the report ----------

  function LatestOpen(past: seq<Capture>, ids: seq<Text>): nat {
    if ids == [] then 0
    else
      var mem := Recall(past, ids[|ids| - 1]);
      LatestOpen(past, ids[..|ids| - 1])
      + if mem.seen.Some? && !Terminal(mem.seen.value.status) then 1 else 0
  }

  function Unresolved(past: seq<Capture>): nat {
    LatestOpen(past, SeenOrders(past))
  }

  function Cap<T>(xs: seq<T>, limit: nat): seq<T> {
    if |xs| <= limit then xs else xs[..limit]
  }

  predicate Boundary(run: seq<Observed>, x: Observed) {
    CurrentDay(run) != Some(DayOf(x))
  }

  function PriorUnresolved(run: seq<Observed>, x: Observed): nat {
    if Boundary(run, x) then Unresolved(Today(run)) else 0
  }

  /** The stable captures of x's own day before x. */
  function Past(run: seq<Observed>, x: Observed): seq<Capture> {
    DayStable(run, DayOf(x))
  }

  function BoundaryFindings(run: seq<Observed>, x: Observed): seq<TemporalFinding> {
    if PriorUnresolved(run, x) > 0 then [TemporalFinding(DayBoundaryUnresolvedOrders, None)] else []
  }

  function ReportFindings(run: seq<Observed>, x: Observed): seq<TemporalFinding> {
    BoundaryFindings(run, x) + if x.status == Changing then [] else Contradictions(Past(run, x), x.capture)
  }

  function ReportChanges(run: seq<Observed>, x: Observed): seq<Change> {
    if x.status == Changing then [] else Changes(Past(run, x), x.capture)
  }

  function ReportStatus(run: seq<Observed>, x: Observed): TemporalStatus {
    if x.status == Changing then Unverified
    else if ReportFindings(run, x) != [] then TemporalIssues
    else if Past(run, x) != [] then Compared
    else Baseline
  }

  function Gap(run: seq<Observed>, x: Observed): Option<real> {
    if run == [] then None
    else Some((x.capture.startedAt.ms - run[|run| - 1].capture.finishedAt.ms) as real / 1000.0)
  }

  /** The report on capture x after the run of captures before it. */
  function Report(run: seq<Observed>, x: Observed): TemporalReport {
    var findings, changes := ReportFindings(run, x), ReportChanges(run, x);
    TemporalReport(ReportStatus(run, x), |findings|, Cap(findings, 100), |changes|, Cap(changes, 250),
                   Boundary(run, x), PriorUnresolved(run, x), Gap(run, x))
  }

  /** All findings counted over a run: each capture's own and each report's. */
  function TotalIssues(run: seq<Observed>): nat {
    if run == [] then 0
    else
      var n := |run| - 1;
      TotalIssues(run[..n]) + |ReportFindings(run[..n], run[n])| + run[n].issueCount
  }
}
