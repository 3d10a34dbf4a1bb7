/** The maps a lifecycle keeps, as one value, and the proof that they stay a cache of the history:
    remembering a capture row by row gives what a scan of all captures gives. */
module LifecycleMemory {
  import opened Prelude
  import opened BrokerRecords
  import opened BrokerCapture
  import opened LifecycleHistory

  /** The six maps; `orderKeys` and `tradeKeys` are the insertion orders of the two that are iterated. */
  datatype Memory = Memory(
    orderKeys: seq<Text>, orders: map<Text, Order>,
    tradeKeys: seq<TradeKey>, trades: map<TradeKey, Trade>,
    terminals: map<Text, Order>, exchangeIds: map<Text, Text>, maxFilled: map<Text, nat>)

  function Lookup<K, V>(m: map<K, V>, k: K): Option<V> {
    if k in m then Some(m[k]) else None
  }

  function OrderView(m: Memory, id: Text): OrderMemory {
    OrderMemory(Lookup(m.orders, id), if id in m.maxFilled then m.maxFilled[id] else 0,
                Lookup(m.terminals, id), Lookup(m.exchangeIds, id))
  }

  /** Every map says what a scan of the captures says. */
  ghost predicate Mirrors(m: Memory, past: seq<Capture>) {
    && m.orderKeys == SeenOrders(past)
    && m.tradeKeys == SeenTrades(past)
    && (forall id :: OrderView(m, id) == Recall(past, id))
    && (forall key :: Lookup(m.trades, key) == FirstTrade(past, key))
  }

  function RememberOrder(m: Memory, o: Order): Memory {
    var id := o.orderId;
    m.(exchangeIds := if o.exchangeOrderId.Some? && id !in m.exchangeIds
                      then m.exchangeIds[id := o.exchangeOrderId.value] else m.exchangeIds,
       maxFilled := m.maxFilled[id := if id in m.maxFilled && m.maxFilled[id] > o.filled
                                      then m.maxFilled[id] else o.filled],
       terminals := if Terminal(o.status) && id !in m.terminals then m.terminals[id := o] else m.terminals,
       orders := m.orders[id := if id in m.orders then Merge(m.orders[id], o) else o],
       orderKeys := if id in m.orders then m.orderKeys else m.orderKeys + [id])
  }

  function RememberTrade(m: Memory, t: Trade): Memory {
    if KeyOf(t) in m.trades then m
    else m.(trades := m.trades[KeyOf(t) := t], tradeKeys := m.tradeKeys + [KeyOf(t)])
  }

  const EMPTY_MEMORY: Memory := Memory([], map[], [], map[], map[], map[], map[])

  lemma EmptyMirrors()
    ensures Mirrors(EMPTY_MEMORY, [])
  {
  }

  // ---------- one more sighting ----------

  /** What one more sighting does to the memory of an order. */
  function Sighted(mem: OrderMemory, o: Order): OrderMemory {
    OrderMemory(
      Some(if mem.seen.Some? then Merge(mem.seen.value, o) else o),
      if mem.maxFilled > o.filled then mem.maxFilled else o.filled,
      if mem.ended.Some? then mem.ended else if Terminal(o.status) then Some(o) else None,
      if mem.exchangeId.Some? then mem.exchangeId else o.exchangeOrderId)
  }

  lemma SightedOnce(seen: seq<Order>, o: Order)
    ensures RecallSightings(seen + [o]) == Sighted(RecallSightings(seen), o)
  {
    assert (seen + [o])[..|seen|] == seen;
  }

  lemma RememberOrderView(m: Memory, o: Order, id: Text)
    ensures OrderView(RememberOrder(m, o), id)
         == if id == o.orderId then Sighted(OrderView(m, id), o) else OrderView(m, id)
  {
  }

  // ---------- part of a capture ----------

  /** The first i orders and j executions of a capture. */
  function Part(c: Capture, i: nat, j: nat): Capture
    requires i <= |c.orders| && j <= |c.trades|
  {
    c.(orders := c.orders[..i], trades := c.trades[..j])
  }

  lemma PastAndPart(past: seq<Capture>, part: Capture, id: Text, key: TradeKey)
    ensures Sightings(past + [part], id) == match FindOrder(part.orders, id)
                                            case None => Sightings(past, id)
                                            case Some(o) => Sightings(past, id) + [o]
    ensures FirstTrade(past + [part], key) == if FirstTrade(past, key).Some? then FirstTrade(past, key)
                                              else FindTrade(part.trades, key)
    ensures SeenOrders(past + [part]) == AddIds(SeenOrders(past), part.orders)
    ensures SeenTrades(past + [part]) == AddKeys(SeenTrades(past), part.trades)
  {
    assert (past + [part])[..|past|] == past;
  }

  lemma NothingYet(m: Memory, past: seq<Capture>, c: Capture)
    requires Mirrors(m, past)
    ensures Mirrors(m, past + [Part(c, 0, 0)])
  {
    hide RecallSightings, OrderView;
    forall id ensures OrderView(m, id) == Recall(past + [Part(c, 0, 0)], id) {
      PastAndPart(past, Part(c, 0, 0), id, TradeKey([], []));
      assert OrderView(m, id) == Recall(past, id);
    }
    forall key ensures Lookup(m.trades, key) == FirstTrade(past + [Part(c, 0, 0)], key) {
      PastAndPart(past, Part(c, 0, 0), [], key);
    }
    PastAndPart(past, Part(c, 0, 0), [], TradeKey([], []));
  }

  lemma {:induction false} AddIdsExact(ids: seq<Text>, rows: seq<Order>, id: Text)
    ensures id in AddIds(ids, rows) <==> id in ids || FindOrder(rows, id).Some?
    decreases |rows|
  {
    if rows != [] {
      AddIdsExact(ids, rows[..|rows| - 1], id);
    }
  }

  /** An order is remembered in sighting order exactly when it was ever sighted. */
  lemma {:induction false} SeenOrdersExact(past: seq<Capture>, id: Text)
    ensures id in SeenOrders(past) <==> Sightings(past, id) != []
    decreases |past|
  {
    if past != [] {
      var n := |past| - 1;
      SeenOrdersExact(past[..n], id);
      AddIdsExact(SeenOrders(past[..n]), past[n].orders, id);
    }
  }

  lemma {:induction false} AddKeysExact(keys: seq<TradeKey>, rows: seq<Trade>, key: TradeKey)
    ensures key in AddKeys(keys, rows) <==> key in keys || FindTrade(rows, key).Some?
    decreases |rows|
  {
    if rows != [] {
      AddKeysExact(keys, rows[..|rows| - 1], key);
    }
  }

  lemma {:induction false} SeenTradesExact(past: seq<Capture>, key: TradeKey)
    ensures key in SeenTrades(past) <==> FirstTrade(past, key).Some?
    decreases |past|
  {
    if past != [] {
      var n := |past| - 1;
      SeenTradesExact(past[..n], key);
      AddKeysExact(SeenTrades(past[..n]), past[n].trades, key);
    }
  }

  // ---------- remembering row by row ----------

  lemma OrderNotYet(c: Capture, i: nat)
    requires i < |c.orders| && UniqueOrders(c.orders)
    ensures FindOrder(c.orders[..i], c.orders[i].orderId).None?
  {
    FindOrderExact(c.orders[..i], c.orders[i].orderId);
  }

  lemma FindOrderStep(rows: seq<Order>, i: nat, id: Text)
    requires i < |rows|
    ensures FindOrder(rows[..i + 1], id)
         == if rows[i].orderId == id then Some(rows[i]) else FindOrder(rows[..i], id)
  {
    assert rows[..i + 1][..i] == rows[..i];
  }

  lemma NextOrderSightings(past: seq<Capture>, c: Capture, i: nat, id: Text)
    requires i < |c.orders| && UniqueOrders(c.orders)
    ensures Recall(past + [Part(c, i + 1, 0)], id)
         == if id == c.orders[i].orderId then Sighted(Recall(past + [Part(c, i, 0)], id), c.orders[i])
            else Recall(past + [Part(c, i, 0)], id)
    ensures Recall(past + [Part(c, i, 0)], c.orders[i].orderId) == Recall(past, c.orders[i].orderId)
  {
    hide RecallSightings, Sighted, FindOrder, Sightings, UniqueOrders, FirstTrade;
    var key := TradeKey([], []);
    PastAndPart(past, Part(c, i + 1, 0), id, key);
    PastAndPart(past, Part(c, i, 0), id, key);
    PastAndPart(past, Part(c, i, 0), c.orders[i].orderId, key);
    OrderNotYet(c, i);
    FindOrderStep(c.orders, i, id);
    SightedOnce(Sightings(past, id), c.orders[i]);
  }

  lemma RememberOrderMirrors(m: Memory, past: seq<Capture>, c: Capture, i: nat)
    requires i < |c.orders| && UniqueOrders(c.orders)
    requires Mirrors(m, past + [Part(c, i, 0)])
    ensures Mirrors(RememberOrder(m, c.orders[i]), past + [Part(c, i + 1, 0)])
    ensures OrderView(m, c.orders[i].orderId) == Recall(past, c.orders[i].orderId)
  {
    hide Sighted, OrderView, RecallSightings;
    var o := c.orders[i];
    var m', before, after := RememberOrder(m, o), past + [Part(c, i, 0)], past + [Part(c, i + 1, 0)];
    forall id ensures OrderView(m', id) == Recall(after, id) {
      RememberOrderView(m, o, id);
      NextOrderSightings(past, c, i, id);
      assert OrderView(m, id) == Recall(before, id);
    }
    NextOrderSightings(past, c, i, o.orderId);
    assert OrderView(m, o.orderId) == Recall(before, o.orderId);
    forall key ensures Lookup(m'.trades, key) == FirstTrade(after, key) {
      PastAndPart(past, Part(c, i, 0), [], key);
      PastAndPart(past, Part(c, i + 1, 0), [], key);
      assert Lookup(m.trades, key) == FirstTrade(before, key);
    }
    OrderKeysGrow(m, past, c, i);
  }

  /** One more order adds its id, unless it is already there, and no execution. */
  lemma NextOrderIds(past: seq<Capture>, c: Capture, i: nat)
    requires i < |c.orders|
    ensures var before, id := SeenOrders(past + [Part(c, i, 0)]), c.orders[i].orderId;
            SeenOrders(past + [Part(c, i + 1, 0)]) == if id in before then before else before + [id]
    ensures SeenTrades(past + [Part(c, i + 1, 0)]) == SeenTrades(past + [Part(c, i, 0)])
  {
    hide SeenTrades, SeenOrders, FirstTrade, Sightings;
    var key := TradeKey([], []);
    PastAndPart(past, Part(c, i, 0), [], key);
    PastAndPart(past, Part(c, i + 1, 0), [], key);
    AddIdsStep(SeenOrders(past), c.orders, i);
  }

  lemma AddIdsStep(ids: seq<Text>, rows: seq<Order>, i: nat)
    requires i < |rows|
    ensures var earlier, id := AddIds(ids, rows[..i]), rows[i].orderId;
            AddIds(ids, rows[..i + 1]) == if id in earlier then earlier else earlier + [id]
  {
    assert rows[..i + 1][..i] == rows[..i];
  }

  lemma RecalledOnce(past: seq<Capture>, id: Text)
    ensures Recall(past, id).seen.Some? <==> Sightings(past, id) != []
  {
  }

  lemma SeenInView(m: Memory, id: Text)
    ensures OrderView(m, id).seen.Some? <==> id in m.orders
  {
  }

  lemma OrderKeysGrow(m: Memory, past: seq<Capture>, c: Capture, i: nat)
    requires i < |c.orders| && UniqueOrders(c.orders)
    requires Mirrors(m, past + [Part(c, i, 0)])
    ensures RememberOrder(m, c.orders[i]).orderKeys == SeenOrders(past + [Part(c, i + 1, 0)])
    ensures m.tradeKeys == SeenTrades(past + [Part(c, i + 1, 0)])
  {
    hide OrderView, Recall, Sightings, SeenOrders, SeenTrades, UniqueOrders;
    var o := c.orders[i];
    NextOrderIds(past, c, i);
    RecalledOnce(past + [Part(c, i, 0)], o.orderId);
    SeenInView(m, o.orderId);
    SeenOrdersExact(past + [Part(c, i, 0)], o.orderId);
    assert OrderView(m, o.orderId) == Recall(past + [Part(c, i, 0)], o.orderId);
  }

  lemma {:induction false} FindTradeExact(rows: seq<Trade>, key: TradeKey)
    ensures FindTrade(rows, key).None? <==> forall t | t in rows :: KeyOf(t) != key
    ensures FindTrade(rows, key).Some? ==>
      FindTrade(rows, key).value in rows && KeyOf(FindTrade(rows, key).value) == key
    ensures UniqueTrades(rows) ==> forall t | t in rows && KeyOf(t) == key :: FindTrade(rows, key) == Some(t)
    decreases |rows|
  {
    if rows != [] {
      var n := |rows| - 1;
      FindTradeExact(rows[..n], key);
      assert rows == rows[..n] + [rows[n]];
    }
  }

  lemma TradeNotYet(c: Capture, j: nat)
    requires j < |c.trades| && UniqueTrades(c.trades)
    ensures FindTrade(c.trades[..j], KeyOf(c.trades[j])).None?
  {
    FindTradeExact(c.trades[..j], KeyOf(c.trades[j]));
  }

  lemma NextTradeSighting(past: seq<Capture>, c: Capture, j: nat, key: TradeKey)
    requires j < |c.trades| && UniqueTrades(c.trades)
    ensures FirstTrade(past + [Part(c, |c.orders|, j + 1)], key)
         == if key == KeyOf(c.trades[j]) && FirstTrade(past + [Part(c, |c.orders|, j)], key).None?
            then Some(c.trades[j])
            else FirstTrade(past + [Part(c, |c.orders|, j)], key)
    ensures FirstTrade(past + [Part(c, |c.orders|, j)], KeyOf(c.trades[j])) == FirstTrade(past, KeyOf(c.trades[j]))
  {
    hide FindTrade, FirstTrade, UniqueTrades;
    var n := |c.orders|;
    PastAndPart(past, Part(c, n, j + 1), [], key);
    PastAndPart(past, Part(c, n, j), [], key);
    PastAndPart(past, Part(c, n, j), [], KeyOf(c.trades[j]));
    TradeNotYet(c, j);
    FindTradeStep(c.trades, j, key);
  }

  lemma FindTradeStep(rows: seq<Trade>, j: nat, key: TradeKey)
    requires j < |rows|
    ensures FindTrade(rows[..j + 1], key)
         == if KeyOf(rows[j]) == key then Some(rows[j]) else FindTrade(rows[..j], key)
  {
    assert rows[..j + 1][..j] == rows[..j];
  }

  /** One more execution adds its key, unless it is already there, and no order. */
  lemma NextTradeKeys(past: seq<Capture>, c: Capture, j: nat)
    requires j < |c.trades|
    ensures var before, key := SeenTrades(past + [Part(c, |c.orders|, j)]), KeyOf(c.trades[j]);
            SeenTrades(past + [Part(c, |c.orders|, j + 1)]) == if key in before then before else before + [key]
    ensures SeenOrders(past + [Part(c, |c.orders|, j + 1)]) == SeenOrders(past + [Part(c, |c.orders|, j)])
  {
    hide SeenTrades, SeenOrders, FirstTrade, Sightings;
    var n, key := |c.orders|, KeyOf(c.trades[j]);
    PastAndPart(past, Part(c, n, j), [], key);
    PastAndPart(past, Part(c, n, j + 1), [], key);
    AddKeysStep(SeenTrades(past), c.trades, j);
  }

  lemma AddKeysStep(keys: seq<TradeKey>, rows: seq<Trade>, j: nat)
    requires j < |rows|
    ensures var earlier, key := AddKeys(keys, rows[..j]), KeyOf(rows[j]);
            AddKeys(keys, rows[..j + 1]) == if key in earlier then earlier else earlier + [key]
  {
    assert rows[..j + 1][..j] == rows[..j];
  }

  lemma RememberTradeMirrors(m: Memory, past: seq<Capture>, c: Capture, j: nat)
    requires j < |c.trades| && UniqueTrades(c.trades)
    requires Mirrors(m, past + [Part(c, |c.orders|, j)])
    ensures Mirrors(RememberTrade(m, c.trades[j]), past + [Part(c, |c.orders|, j + 1)])
    ensures Lookup(m.trades, KeyOf(c.trades[j])) == FirstTrade(past, KeyOf(c.trades[j]))
  {
    hide OrderView, RecallSightings;
    var t := c.trades[j];
    var m', n := RememberTrade(m, t), |c.orders|;
    var before, after := past + [Part(c, n, j)], past + [Part(c, n, j + 1)];
    forall id ensures OrderView(m', id) == Recall(after, id) {
      PastAndPart(past, Part(c, n, j), id, KeyOf(t));
      PastAndPart(past, Part(c, n, j + 1), id, KeyOf(t));
      assert OrderView(m, id) == Recall(before, id);
      assert OrderView(m', id) == OrderView(m, id) by { SameOrderMaps(m, t, id); }
    }
    forall key ensures Lookup(m'.trades, key) == FirstTrade(after, key) {
      NextTradeSighting(past, c, j, key);
      assert Lookup(m.trades, key) == FirstTrade(before, key);
    }
    NextTradeSighting(past, c, j, KeyOf(t));
    TradeKeysGrow(m, past, c, j);
  }

  lemma SameOrderMaps(m: Memory, t: Trade, id: Text)
    ensures OrderView(RememberTrade(m, t), id) == OrderView(m, id)
  {
  }

  lemma TradeKeysGrow(m: Memory, past: seq<Capture>, c: Capture, j: nat)
    requires j < |c.trades| && UniqueTrades(c.trades)
    requires Mirrors(m, past + [Part(c, |c.orders|, j)])
    ensures RememberTrade(m, c.trades[j]).tradeKeys == SeenTrades(past + [Part(c, |c.orders|, j + 1)])
    ensures m.orderKeys == SeenOrders(past + [Part(c, |c.orders|, j + 1)])
  {
    hide OrderView, Recall, FirstTrade, SeenTrades, SeenOrders, UniqueTrades;
    var n, t := |c.orders|, c.trades[j];
    NextTradeKeys(past, c, j);
    SeenTradesExact(past + [Part(c, n, j)], KeyOf(t));
    assert Lookup(m.trades, KeyOf(t)) == FirstTrade(past + [Part(c, n, j)], KeyOf(t));
  }
}
