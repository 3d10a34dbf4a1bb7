/** When each change is reported and which orders count as left open, said about the captures: a change
    compares with the latest earlier sighting of the same day, and an order is left open by its last one. */
module LifecycleChanges {
  import opened Prelude
  import opened BrokerRecords
  import opened BrokerCapture
  import opened LifecycleHistory
  import opened LifecycleMemory
  import opened LifecycleFindings

  // ---------- last sightings ----------

  /** f is what the last capture that shows this order says of it, and that capture is number k. */
  ghost predicate LastSeen(past: seq<Capture>, id: Text, k: nat, f: Order) {
    k < |past| && f in past[k].orders && f.orderId == id && NoneIn(past[k + 1..], Named(id))
  }

  ghost predicate EverLastSeen(past: seq<Capture>, id: Text, f: Order) {
    exists k: nat :: LastSeen(past, id, k, f)
  }

  function LastSighting(past: seq<Capture>, id: Text): Option<Order> {
    var seen := Sightings(past, id);
    if seen == [] then None else Some(seen[|seen| - 1])
  }

  lemma NoneNamedAppend(past: seq<Capture>, last: Capture, id: Text)
    ensures NoneIn(past + [last], Named(id))
       <==> NoneIn(past, Named(id)) && forall o | o in last.orders :: o.orderId != id
  {
    var p := Named(id);
    assert last in past + [last];
    assert forall c :: c in past + [last] <==> c in past || c == last;
    assert forall o: Order :: p(o) <==> o.orderId == id;
    if NoneIn(past + [last], p) {
      forall o | o in last.orders ensures o.orderId != id {
        assert !p(o);
      }
    }
  }

  lemma LastSeenAppend(past: seq<Capture>, last: Capture, id: Text, k: nat, f: Order)
    ensures k < |past| ==> (LastSeen(past + [last], id, k, f)
              <==> LastSeen(past, id, k, f) && forall o | o in last.orders :: o.orderId != id)
    ensures LastSeen(past + [last], id, |past|, f) <==> f in last.orders && f.orderId == id
  {
    hide NoneIn;
    if k < |past| {
      assert (past + [last])[k + 1..] == past[k + 1..] + [last];
      NoneNamedAppend(past[k + 1..], last, id);
    }
    assert (past + [last])[|past| + 1..] == [];
    NothingSeen(id);
  }

  lemma NothingSeen(id: Text)
    ensures NoneIn([], Named(id))
  {
  }

  lemma LastSightingStep(past: seq<Capture>, last: Capture, id: Text)
    ensures LastSighting(past + [last], id)
         == if FindOrder(last.orders, id).Some? then FindOrder(last.orders, id) else LastSighting(past, id)
  {
    assert (past + [last])[..|past|] == past;
  }

  lemma {:induction false} LastSightingExact(past: seq<Capture>, id: Text, f: Order)
    requires UniqueRows(past)
    ensures LastSighting(past, id) == Some(f) <==> EverLastSeen(past, id, f)
    ensures LastSighting(past, id).None? <==> NoneIn(past, Named(id))
    decreases |past|
  {
    hide NoneIn, LastSeen, LastSighting, UniqueOrders, UniqueTrades;
    if past == [] {
      NothingSighted(id, f);
    } else {
      var n := |past| - 1;
      var before, last := past[..n], past[n];
      assert past == before + [last];
      assert UniqueRows(before) by { assert forall c | c in before :: c in past; }
      assert UniqueOrders(last.orders) by { assert last in past; }
      LastSightingExact(before, id, f);
      LastSightingStep(before, last, id);
      FindOrderExact(last.orders, id);
      NoneNamedAppend(before, last, id);
      EverLastSeenAppend(before, last, id, f);
    }
  }

  lemma NothingSighted(id: Text, f: Order)
    ensures LastSighting([], id).None? && !EverLastSeen([], id, f) && NoneIn([], Named(id))
  {
  }

  lemma EverLastSeenAppend(past: seq<Capture>, last: Capture, id: Text, f: Order)
    ensures EverLastSeen(past + [last], id, f)
       <==> (f in last.orders && f.orderId == id)
            || (EverLastSeen(past, id, f) && forall o | o in last.orders :: o.orderId != id)
  {
    hide LastSeen;
    LastSeenAppend(past, last, id, |past|, f);
    if EverLastSeen(past + [last], id, f) {
      var k: nat :| LastSeen(past + [last], id, k, f);
      LastSeenWithin(past + [last], id, k, f);
      LastSeenAppend(past, last, id, k, f);
    }
    if EverLastSeen(past, id, f) {
      var k: nat :| LastSeen(past, id, k, f);
      LastSeenWithin(past, id, k, f);
      LastSeenAppend(past, last, id, k, f);
    }
  }

  lemma LastSeenWithin(past: seq<Capture>, id: Text, k: nat, f: Order)
    requires LastSeen(past, id, k, f)
    ensures k < |past|
  {
  }

  // ---------- changes ----------

  /** The value of the field a change is about. */
  function FieldOf(kind: ChangeKind, o: Order): FieldValue {
    match kind
    case StatusChange => Words(o.status)
    case QuantityChange => Amount(o.quantity)
    case FilledChange => Amount(o.filled)
    case PendingChange => Amount(o.pending)
    case CancelledChange => Amount(o.cancelled)
    case AveragePriceChange => Words(o.averagePrice.text)
    case ExchangeOrderIdChange => if o.exchangeOrderId.Some? then Words(o.exchangeOrderId.value) else Null
    case AtChange => Words(o.at.text)
    case OrderFirstObserved => Words(o.status)
    case ExecutionFirstObserved => Null
  }

  predicate IsField(kind: ChangeKind) {
    !kind.OrderFirstObserved? && !kind.ExecutionFirstObserved?
  }

  /** Prices and times are read from their texts, so equal texts mean equal fields. */
  ghost predicate ReadFromText(f: Order, o: Order) {
    && (f.averagePrice.text == o.averagePrice.text ==> f.averagePrice == o.averagePrice)
    && (f.at.text == o.at.text ==> f.at == o.at)
  }

  lemma FieldChangesExact(f: Order, o: Order, x: Change)
    requires ReadFromText(f, o) && IsField(x.kind)
    ensures x in FieldChanges(f, o)
       <==> x.orderId == o.orderId
            && x.before == FieldOf(x.kind, f) && x.after == FieldOf(x.kind, o) && x.before != x.after
  {
    hide Moved;
    forall moved, kind, id, before, after
      ensures x in Moved(moved, kind, id, before, after) <==> moved && x == Change(kind, id, before, after)
    {
      MovedExact(moved, kind, id, before, after, x);
    }
  }

  lemma MovedExact(moved: bool, kind: ChangeKind, id: Text, before: FieldValue, after: FieldValue, x: Change)
    ensures x in Moved(moved, kind, id, before, after) <==> moved && x == Change(kind, id, before, after)
  {
  }

  lemma FieldChangesOnly(f: Order, o: Order, x: Change)
    requires x in FieldChanges(f, o)
    ensures IsField(x.kind)
  {
    hide Moved, Optional;
    forall moved, kind, id, before, after ensures x in Moved(moved, kind, id, before, after) ==> x.kind == kind {
      MovedExact(moved, kind, id, before, after, x);
    }
  }

  lemma {:induction false} OrdersChangesExact(past: seq<Capture>, rows: seq<Order>, x: Change)
    ensures x in OrdersChanges(past, rows) <==> exists o :: o in rows && x in OrderChanges(Recall(past, o.orderId), o)
    decreases |rows|
  {
    hide OrderChanges, Recall;
    if rows != [] {
      var n := |rows| - 1;
      OrdersChangesExact(past, rows[..n], x);
      assert rows == rows[..n] + [rows[n]];
    }
  }

  lemma {:induction false} TradesChangesExact(past: seq<Capture>, rows: seq<Trade>, x: Change)
    ensures x in TradesChanges(past, rows)
       <==> exists t :: t in rows && x in TradeChanges(FirstTrade(past, KeyOf(t)), t)
    decreases |rows|
  {
    hide TradeChanges, FirstTrade;
    if rows != [] {
      var n := |rows| - 1;
      TradesChangesExact(past, rows[..n], x);
      assert rows == rows[..n] + [rows[n]];
    }
  }

  lemma RecalledState(past: seq<Capture>, id: Text, o: Order)
    ensures Recall(past, id).seen.Some? <==> LastSighting(past, id).Some?
    ensures LastSighting(past, id).Some? ==>
              FieldChanges(Recall(past, id).seen.value, o) == FieldChanges(LastSighting(past, id).value, o)
  {
  }

  lemma OneOrderChanges(past: seq<Capture>, o: Order, x: Change)
    requires IsField(x.kind)
    requires forall c, f | c in past && f in c.orders :: ReadFromText(f, o)
    requires UniqueRows(past)
    ensures x in OrderChanges(Recall(past, o.orderId), o)
       <==> exists f :: EverLastSeen(past, o.orderId, f) && x.orderId == o.orderId
                        && x.before == FieldOf(x.kind, f) && x.after == FieldOf(x.kind, o) && x.before != x.after
  {
    hide FieldChanges, EverLastSeen, UniqueRows, ReadFromText, FieldOf;
    var last := LastSighting(past, o.orderId);
    RecalledState(past, o.orderId, o);
    if last.Some? {
      LastSightingExact(past, o.orderId, last.value);
      SightingRead(past, o, last.value);
      FieldChangesExact(last.value, o, x);
    }
    if f :| EverLastSeen(past, o.orderId, f) && x.orderId == o.orderId
            && x.before == FieldOf(x.kind, f) && x.after == FieldOf(x.kind, o) && x.before != x.after {
      LastSightingExact(past, o.orderId, f);
    }
  }

  lemma SightingRead(past: seq<Capture>, o: Order, f: Order)
    requires forall c, f | c in past && f in c.orders :: ReadFromText(f, o)
    requires EverLastSeen(past, o.orderId, f)
    ensures ReadFromText(f, o)
  {
    hide ReadFromText;
    var k: nat :| LastSeen(past, o.orderId, k, f);
    assert past[k] in past;
  }

  ghost predicate Differs(past: seq<Capture>, c: Capture, x: Change) {
    exists o, f :: o in c.orders && EverLastSeen(past, o.orderId, f) && x.orderId == o.orderId
                   && x.before == FieldOf(x.kind, f) && x.after == FieldOf(x.kind, o) && x.before != x.after
  }

  lemma ReadChangeExact(past: seq<Capture>, c: Capture, x: Change)
    requires UniqueRows(past) && IsField(x.kind)
    requires forall d, f, o | d in past && f in d.orders && o in c.orders :: ReadFromText(f, o)
    ensures x in Changes(past, c) <==> Differs(past, c, x)
  {
    hide FieldOf, EverLastSeen, OrderChanges, UniqueRows, ReadFromText, Recall, FirstTrade;
    OrdersChangesExact(past, c.orders, x);
    TradesChangesExact(past, c.trades, x);
    forall o | o in c.orders
      ensures x in OrderChanges(Recall(past, o.orderId), o)
         <==> exists f :: EverLastSeen(past, o.orderId, f) && x.orderId == o.orderId
                          && x.before == FieldOf(x.kind, f) && x.after == FieldOf(x.kind, o) && x.before != x.after
    {
      OneOrderChanges(past, o, x);
    }
  }

  lemma ValidReads(f: Order, o: Order)
    requires ValidOrder(f) && ValidOrder(o)
    ensures ReadFromText(f, o)
  {
    hide ValidPrice, ValidStamp;
    if f.averagePrice.text == o.averagePrice.text {
      PriceExact(f.averagePrice, o.averagePrice);
    }
    if f.at.text == o.at.text {
      StampExact(f.at, o.at);
    }
  }

  lemma ValidUnique(d: Capture)
    requires ValidRows(d)
    ensures UniqueOrders(d.orders) && UniqueTrades(d.trades)
    ensures forall o | o in d.orders :: ValidOrder(o)
  {
    hide ValidOrder, ValidTrade, ValidStamp;
    assert ValidOrders(d.orders) && ValidTrades(d.trades);
  }

  /** Among validated captures, a field change is reported exactly when an order of the capture differs in
      that field from its latest earlier sighting of the day, with the two values before and after. */
  lemma ChangeExact(past: seq<Capture>, c: Capture, x: Change)
    requires (forall d | d in past :: ValidRows(d)) && ValidRows(c) && IsField(x.kind)
    ensures x in Changes(past, c) <==> Differs(past, c, x)
  {
    hide ValidRows, ValidOrder, Changes, Differs, ReadFromText, UniqueOrders, UniqueTrades;
    ValidUnique(c);
    forall d | d in past
      ensures UniqueOrders(d.orders) && UniqueTrades(d.trades) && forall o | o in d.orders :: ValidOrder(o)
    {
      ValidUnique(d);
    }
    forall d, f, o | d in past && f in d.orders && o in c.orders ensures ReadFromText(f, o) {
      ValidReads(f, o);
    }
    ReadChangeExact(past, c, x);
  }

  ghost predicate FirstObserved(past: seq<Capture>, c: Capture, x: Change) {
    || (exists o :: o in c.orders && NoneIn(past, Named(o.orderId))
                    && x == Change(OrderFirstObserved, o.orderId, Null, Words(o.status)))
    || (exists t :: t in c.trades && NoneExecuted(past, KeyOf(t))
                    && x == Change(ExecutionFirstObserved, t.orderId, Null, Words(t.tradeId)))
  }

  /** Orders and executions are reported as first observed exactly when no earlier stable capture of the
      day shows them. */
  lemma FirstObservedExact(past: seq<Capture>, c: Capture, x: Change)
    requires UniqueRows(past) && !IsField(x.kind)
    ensures x in Changes(past, c) <==> FirstObserved(past, c, x)
  {
    hide NoneIn, NoneExecuted, UniqueRows, FirstTrade, FieldChanges, Recall;
    OrdersChangesExact(past, c.orders, x);
    TradesChangesExact(past, c.trades, x);
    forall o | o in c.orders
      ensures x in OrderChanges(Recall(past, o.orderId), o)
         <==> NoneIn(past, Named(o.orderId)) && x == Change(OrderFirstObserved, o.orderId, Null, Words(o.status))
    {
      RecalledState(past, o.orderId, o);
      LastSightingExact(past, o.orderId, o);
      if Recall(past, o.orderId).seen.Some? && x in FieldChanges(Recall(past, o.orderId).seen.value, o) {
        FieldChangesOnly(Recall(past, o.orderId).seen.value, o, x);
      }
    }
    forall t | t in c.trades
      ensures x in TradeChanges(FirstTrade(past, KeyOf(t)), t)
         <==> NoneExecuted(past, KeyOf(t)) && x == Change(ExecutionFirstObserved, t.orderId, Null, Words(t.tradeId))
    {
      FirstTradeExact(past, KeyOf(t));
    }
  }

  // ---------- orders left open ----------

  ghost predicate DistinctIds(ids: seq<Text>) {
    forall i, j | 0 <= i < j < |ids| :: ids[i] != ids[j]
  }

  lemma {:induction false} AddIdsDistinct(ids: seq<Text>, rows: seq<Order>)
    requires DistinctIds(ids)
    ensures DistinctIds(AddIds(ids, rows))
    decreases |rows|
  {
    if rows != [] {
      AddIdsDistinct(ids, rows[..|rows| - 1]);
    }
  }

  lemma {:induction false} SeenOrdersDistinct(past: seq<Capture>)
    ensures DistinctIds(SeenOrders(past))
    decreases |past|
  {
    if past != [] {
      SeenOrdersDistinct(past[..|past| - 1]);
      AddIdsDistinct(SeenOrders(past[..|past| - 1]), past[|past| - 1].orders);
    }
  }

  predicate LeftOpen(past: seq<Capture>, id: Text) {
    var last := LastSighting(past, id);
    last.Some? && !Terminal(last.value.status)
  }

  function OpenIds(past: seq<Capture>, ids: seq<Text>): set<Text> {
    set id | id in ids && LeftOpen(past, id)
  }

  lemma {:induction false} LatestOpenCounts(past: seq<Capture>, ids: seq<Text>)
    requires DistinctIds(ids)
    ensures LatestOpen(past, ids) == |OpenIds(past, ids)|
    decreases |ids|
  {
    hide LeftOpen, Recall;
    if ids == [] {
      assert OpenIds(past, ids) == {};
    } else {
      var n := |ids| - 1;
      var id := ids[n];
      LatestOpenCounts(past, ids[..n]);
      OpenIsRecalled(past, id);
      assert ids == ids[..n] + [id];
      assert OpenIds(past, ids) == OpenIds(past, ids[..n]) + if LeftOpen(past, id) then {id} else {};
      assert id !in OpenIds(past, ids[..n]);
    }
  }

  lemma OpenIsRecalled(past: seq<Capture>, id: Text)
    ensures LeftOpen(past, id) <==> Recall(past, id).seen.Some? && !Terminal(Recall(past, id).seen.value.status)
  {
    hide Terminal;
  }

  /** The count reported at a day boundary is the number of orders whose last stable sighting on the old
      day was not terminal. */
  lemma UnresolvedExact(past: seq<Capture>, open: set<Text>)
    requires UniqueRows(past)
    requires forall id :: id in open <==> exists f :: EverLastSeen(past, id, f) && !Terminal(f.status)
    ensures Unresolved(past) == |open|
  {
    hide EverLastSeen, UniqueRows, LatestOpen, LastSighting, Terminal;
    SeenOrdersDistinct(past);
    LatestOpenCounts(past, SeenOrders(past));
    forall id ensures id in OpenIds(past, SeenOrders(past)) <==> id in open {
      SeenOrdersExact(past, id);
      SightedHasLast(past, id);
      if LastSighting(past, id).Some? {
        LastSightingExact(past, id, LastSighting(past, id).value);
      }
      if f :| EverLastSeen(past, id, f) && !Terminal(f.status) {
        LastSightingExact(past, id, f);
      }
    }
    assert OpenIds(past, SeenOrders(past)) == open;
  }

  lemma SightedHasLast(past: seq<Capture>, id: Text)
    ensures LastSighting(past, id).Some? <==> Sightings(past, id) != []
  {
  }
}
