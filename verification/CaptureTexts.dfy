/** What the hashed and compared texts say, field by field, to a reader of JSON. */
module CaptureTexts {
  import opened Prelude
  import opened CanonicalJson
  import opened JsonReader
  import opened BrokerRecords
  import opened BrokerJournal

  /** The object has this member. */
  ghost predicate Holds(v: Json, name: string, x: Json) {
    v.JObject? && Member(Ascii(name), x) in v.members
  }

  /** What the canonical text of a value reads as. */
  ghost function AsRead(v: Json): (r: Json)
    ensures ReadValue(Canonical(v)) == Some((r, []))
  {
    ValueRead(v, []);
    assert Canonical(v) + [] == Canonical(v);
    ReadValue(Canonical(v)).value.0
  }

  lemma AsReadIsSorted(v: Json)
    ensures AsRead(v) == Sorted(v)
  {
    ValueRead(v, []);
    assert Canonical(v) + [] == Canonical(v);
  }

  lemma ScalarRead(v: Json)
    requires !v.JArray? && !v.JObject?
    ensures Sorted(v) == v
  {
  }

  lemma FieldRead(keys: seq<Text>, values: seq<Json>, i: nat)
    requires i < |keys| == |values|
    ensures AsRead(Record(keys, values)).JObject? && |AsRead(Record(keys, values)).members| == |keys|
    ensures Member(keys[i], Sorted(values[i])) in AsRead(Record(keys, values)).members
  {
    AsReadIsSorted(Record(keys, values));
    hide AsRead;
    var ms := Record(keys, values).members;
    var ps := SortMembers(ms);
    assert ms[i] == Member(keys[i], values[i]) && ms[i] in ps;
    var j :| 0 <= j < |ps| && ps[j] == ms[i];
    MembersAt(ps, j);
    assert SortedMembers(ps)[j] in SortedMembers(ps);
  }

  function OrderJson(o: Order): Json {
    Record(ORDER_KEYS, OrderValues(o))
  }

  function TradeJson(t: Trade): Json {
    Record(TRADE_KEYS, TradeValues(t))
  }

  /** The field at position i, under its name. */
  lemma FieldHolds(keys: seq<Text>, values: seq<Json>, i: nat, name: string, x: Json)
    requires i < |keys| == |values| && keys[i] == Ascii(name) && Sorted(values[i]) == x
    ensures Holds(AsRead(Record(keys, values)), name, x)
    ensures |AsRead(Record(keys, values)).members| == |keys|
  {
    hide AsRead, Ascii, Sorted;
    FieldRead(keys, values, i);
  }

  lemma ScalarHolds(keys: seq<Text>, values: seq<Json>, i: nat, name: string, x: Json)
    requires i < |keys| == |values| && keys[i] == Ascii(name) && values[i] == x && !x.JArray? && !x.JObject?
    ensures Holds(AsRead(Record(keys, values)), name, x)
    ensures |AsRead(Record(keys, values)).members| == |keys|
  {
    ScalarRead(x);
    FieldHolds(keys, values, i, name, x);
  }

  lemma OrderKeysAt()
    ensures |ORDER_KEYS| == 15
    ensures ORDER_KEYS[0] == Ascii("at") && ORDER_KEYS[1] == Ascii("side") && ORDER_KEYS[2] == Ascii("filled")
    ensures ORDER_KEYS[3] == Ascii("symbol") && ORDER_KEYS[4] == Ascii("status")
    ensures ORDER_KEYS[5] == Ascii("orderId") && ORDER_KEYS[6] == Ascii("pending")
    ensures ORDER_KEYS[7] == Ascii("product") && ORDER_KEYS[8] == Ascii("variety")
    ensures ORDER_KEYS[9] == Ascii("exchange") && ORDER_KEYS[10] == Ascii("quantity")
    ensures ORDER_KEYS[11] == Ascii("cancelled") && ORDER_KEYS[12] == Ascii("averagePrice")
    ensures ORDER_KEYS[13] == Ascii("instrumentId") && ORDER_KEYS[14] == Ascii("exchangeOrderId")
  {
    hide Ascii;
  }

  lemma FirstOrderValues(o: Order)
    ensures |OrderValues(o)| == 15
    ensures OrderValues(o)[0] == JString(o.at.text) && OrderValues(o)[1] == SideJson(o.side)
    ensures OrderValues(o)[2] == JNumber(o.filled) && OrderValues(o)[3] == JString(o.symbol)
    ensures OrderValues(o)[4] == JString(o.status)
  {
    hide SideJson, OptionalJson, Ascii;
  }

  lemma MiddleOrderValues(o: Order)
    ensures |OrderValues(o)| == 15
    ensures OrderValues(o)[5] == JString(o.orderId) && OrderValues(o)[6] == JNumber(o.pending)
    ensures OrderValues(o)[7] == JString(o.product) && OrderValues(o)[8] == JString(o.variety)
    ensures OrderValues(o)[9] == JString(o.exchange)
  {
    hide SideJson, OptionalJson, Ascii;
  }

  lemma LastOrderValues(o: Order)
    ensures |OrderValues(o)| == 15
    ensures OrderValues(o)[10] == JNumber(o.quantity) && OrderValues(o)[11] == JNumber(o.cancelled)
    ensures OrderValues(o)[12] == JString(o.averagePrice.text) && OrderValues(o)[13] == JString(o.instrumentId)
    ensures OrderValues(o)[14] == OptionalJson(o.exchangeOrderId)
  {
    hide SideJson, OptionalJson, Ascii;
  }

  lemma OrderValuesAt(o: Order)
    ensures |OrderValues(o)| == 15
    ensures OrderValues(o)[0] == JString(o.at.text) && OrderValues(o)[1] == SideJson(o.side)
    ensures OrderValues(o)[2] == JNumber(o.filled) && OrderValues(o)[3] == JString(o.symbol)
    ensures OrderValues(o)[4] == JString(o.status) && OrderValues(o)[5] == JString(o.orderId)
    ensures OrderValues(o)[6] == JNumber(o.pending) && OrderValues(o)[7] == JString(o.product)
    ensures OrderValues(o)[8] == JString(o.variety) && OrderValues(o)[9] == JString(o.exchange)
    ensures OrderValues(o)[10] == JNumber(o.quantity) && OrderValues(o)[11] == JNumber(o.cancelled)
    ensures OrderValues(o)[12] == JString(o.averagePrice.text) && OrderValues(o)[13] == JString(o.instrumentId)
    ensures OrderValues(o)[14] == OptionalJson(o.exchangeOrderId)
  {
    hide OrderValues;
    FirstOrderValues(o);
    MiddleOrderValues(o);
    LastOrderValues(o);
  }

  /** A side, as the text writes it. */
  function SideWord(s: Side): Json {
    JString(Ascii(if s.Buy? then "BUY" else "SELL"))
  }

  lemma SideText(s: Side)
    ensures SideJson(s) == SideWord(s)
  {
  }

  ghost predicate OrderIdentitySays(r: Json, o: Order) {
    && Holds(r, "orderId", JString(o.orderId)) && Holds(r, "instrumentId", JString(o.instrumentId))
    && Holds(r, "symbol", JString(o.symbol)) && Holds(r, "exchange", JString(o.exchange))
    && Holds(r, "product", JString(o.product))
  }

  lemma OrderIdentityText(o: Order)
    ensures OrderIdentitySays(AsRead(OrderJson(o)), o) && |AsRead(OrderJson(o)).members| == 15
  {
    hide AsRead, Holds, Ascii, OrderValues, ORDER_KEYS;
    OrderKeysAt();
    OrderValuesAt(o);
    var values := OrderValues(o);
    ScalarHolds(ORDER_KEYS, values, 5, "orderId", JString(o.orderId));
    ScalarHolds(ORDER_KEYS, values, 13, "instrumentId", JString(o.instrumentId));
    ScalarHolds(ORDER_KEYS, values, 3, "symbol", JString(o.symbol));
    ScalarHolds(ORDER_KEYS, values, 9, "exchange", JString(o.exchange));
    ScalarHolds(ORDER_KEYS, values, 7, "product", JString(o.product));
  }

  ghost predicate OrderStateSays(r: Json, o: Order) {
    && Holds(r, "side", SideWord(o.side)) && Holds(r, "status", JString(o.status))
    && Holds(r, "variety", JString(o.variety)) && Holds(r, "quantity", JNumber(o.quantity))
    && Holds(r, "at", JString(o.at.text))
  }

  lemma OrderStateText(o: Order)
    ensures OrderStateSays(AsRead(OrderJson(o)), o) && |AsRead(OrderJson(o)).members| == 15
  {
    hide AsRead, Holds, Ascii, OrderValues, ORDER_KEYS;
    OrderKeysAt();
    OrderValuesAt(o);
    var values := OrderValues(o);
    SideText(o.side);
    ScalarHolds(ORDER_KEYS, values, 1, "side", SideWord(o.side));
    ScalarHolds(ORDER_KEYS, values, 4, "status", JString(o.status));
    ScalarHolds(ORDER_KEYS, values, 8, "variety", JString(o.variety));
    ScalarHolds(ORDER_KEYS, values, 10, "quantity", JNumber(o.quantity));
    ScalarHolds(ORDER_KEYS, values, 0, "at", JString(o.at.text));
  }

  ghost predicate OrderFillSays(r: Json, o: Order) {
    && Holds(r, "filled", JNumber(o.filled)) && Holds(r, "pending", JNumber(o.pending))
    && Holds(r, "cancelled", JNumber(o.cancelled)) && Holds(r, "averagePrice", JString(o.averagePrice.text))
    && Holds(r, "exchangeOrderId", OptionalJson(o.exchangeOrderId))
  }

  lemma OrderFillText(o: Order)
    ensures OrderFillSays(AsRead(OrderJson(o)), o) && |AsRead(OrderJson(o)).members| == 15
  {
    hide AsRead, Holds, Ascii, OrderValues, ORDER_KEYS;
    OrderKeysAt();
    OrderValuesAt(o);
    var values := OrderValues(o);
    ScalarHolds(ORDER_KEYS, values, 2, "filled", JNumber(o.filled));
    ScalarHolds(ORDER_KEYS, values, 6, "pending", JNumber(o.pending));
    ScalarHolds(ORDER_KEYS, values, 11, "cancelled", JNumber(o.cancelled));
    ScalarHolds(ORDER_KEYS, values, 12, "averagePrice", JString(o.averagePrice.text));
    ScalarHolds(ORDER_KEYS, values, 14, "exchangeOrderId", OptionalJson(o.exchangeOrderId));
  }

  ghost predicate OrderSays(r: Json, o: Order) {
    OrderIdentitySays(r, o) && OrderStateSays(r, o) && OrderFillSays(r, o) && |r.members| == 15
  }

  /** The text of an order is an object of its fifteen fields, each under its own name. */
  lemma OrderText(o: Order)
    ensures OrderSays(AsRead(OrderJson(o)), o)
  {
    hide AsRead, OrderIdentitySays, OrderStateSays, OrderFillSays, OrderJson;
    OrderIdentityText(o);
    OrderStateText(o);
    OrderFillText(o);
  }

  lemma TradeKeysAt()
    ensures |TRADE_KEYS| == 11
    ensures TRADE_KEYS[0] == Ascii("at") && TRADE_KEYS[1] == Ascii("side") && TRADE_KEYS[2] == Ascii("price")
    ensures TRADE_KEYS[3] == Ascii("symbol") && TRADE_KEYS[4] == Ascii("orderId")
    ensures TRADE_KEYS[5] == Ascii("product") && TRADE_KEYS[6] == Ascii("tradeId")
    ensures TRADE_KEYS[7] == Ascii("exchange") && TRADE_KEYS[8] == Ascii("quantity")
    ensures TRADE_KEYS[9] == Ascii("instrumentId") && TRADE_KEYS[10] == Ascii("exchangeOrderId")
  {
    hide Ascii;
  }

  lemma TradeValuesAt(t: Trade)
    ensures |TradeValues(t)| == 11
    ensures TradeValues(t)[0] == JString(t.at.text) && TradeValues(t)[1] == SideJson(t.side)
    ensures TradeValues(t)[2] == JString(t.price.text) && TradeValues(t)[3] == JString(t.symbol)
    ensures TradeValues(t)[4] == JString(t.orderId) && TradeValues(t)[5] == JString(t.product)
    ensures TradeValues(t)[6] == JString(t.tradeId) && TradeValues(t)[7] == JString(t.exchange)
    ensures TradeValues(t)[8] == JNumber(t.quantity) && TradeValues(t)[9] == JString(t.instrumentId)
    ensures TradeValues(t)[10] == JString(t.exchangeOrderId)
  {
    hide SideJson, Ascii;
  }

  ghost predicate TradeIdentitySays(r: Json, t: Trade) {
    && Holds(r, "orderId", JString(t.orderId)) && Holds(r, "instrumentId", JString(t.instrumentId))
    && Holds(r, "symbol", JString(t.symbol)) && Holds(r, "exchange", JString(t.exchange))
    && Holds(r, "product", JString(t.product)) && Holds(r, "side", SideWord(t.side))
  }

  lemma TradeIdentityText(t: Trade)
    ensures TradeIdentitySays(AsRead(TradeJson(t)), t) && |AsRead(TradeJson(t)).members| == 11
  {
    hide AsRead, Holds, Ascii, TradeValues, TRADE_KEYS;
    TradeKeysAt();
    TradeValuesAt(t);
    var values := TradeValues(t);
    ScalarHolds(TRADE_KEYS, values, 4, "orderId", JString(t.orderId));
    ScalarHolds(TRADE_KEYS, values, 9, "instrumentId", JString(t.instrumentId));
    ScalarHolds(TRADE_KEYS, values, 3, "symbol", JString(t.symbol));
    ScalarHolds(TRADE_KEYS, values, 7, "exchange", JString(t.exchange));
    ScalarHolds(TRADE_KEYS, values, 5, "product", JString(t.product));
    SideText(t.side);
    ScalarHolds(TRADE_KEYS, values, 1, "side", SideWord(t.side));
  }

  ghost predicate TradeFillSays(r: Json, t: Trade) {
    && Holds(r, "quantity", JNumber(t.quantity)) && Holds(r, "at", JString(t.at.text))
    && Holds(r, "tradeId", JString(t.tradeId)) && Holds(r, "exchangeOrderId", JString(t.exchangeOrderId))
    && Holds(r, "price", JString(t.price.text))
  }

  lemma TradeFillText(t: Trade)
    ensures TradeFillSays(AsRead(TradeJson(t)), t) && |AsRead(TradeJson(t)).members| == 11
  {
    hide AsRead, Holds, Ascii, TradeValues, TRADE_KEYS;
    TradeKeysAt();
    TradeValuesAt(t);
    var values := TradeValues(t);
    ScalarHolds(TRADE_KEYS, values, 8, "quantity", JNumber(t.quantity));
    ScalarHolds(TRADE_KEYS, values, 0, "at", JString(t.at.text));
    ScalarHolds(TRADE_KEYS, values, 6, "tradeId", JString(t.tradeId));
    ScalarHolds(TRADE_KEYS, values, 10, "exchangeOrderId", JString(t.exchangeOrderId));
    ScalarHolds(TRADE_KEYS, values, 2, "price", JString(t.price.text));
  }

  ghost predicate TradeSays(r: Json, t: Trade) {
    TradeIdentitySays(r, t) && TradeFillSays(r, t) && |r.members| == 11
  }

  /** And that of an execution of its eleven. */
  lemma TradeText(t: Trade)
    ensures TradeSays(AsRead(TradeJson(t)), t)
  {
    hide AsRead, TradeIdentitySays, TradeFillSays, TradeJson;
    TradeIdentityText(t);
    TradeFillText(t);
  }

  lemma {:induction false} NumberIsDecimal(t: Text, lo: nat, hi: nat)
    requires lo <= hi <= |t| && Digits(t, lo, hi)
    ensures Number(t, lo, hi) == DecimalValue(t[lo..hi])
    decreases hi
  {
    if lo < hi {
      NumberIsDecimal(t, lo, hi - 1);
      assert t[lo..hi][..hi - lo - 1] == t[lo..hi - 1];
    }
  }

  function TenTo(n: nat): nat {
    if n == 0 then 1 else 10 * TenTo(n - 1)
  }

  lemma {:induction false} DecimalConcat(a: Text, b: Text)
    ensures DecimalValue(a + b) == DecimalValue(a) * TenTo(|b|) + DecimalValue(b)
    decreases |b|
  {
    if b == [] {
      assert a + b == a;
    } else {
      var n := |b| - 1;
      assert (a + b)[..|a| + n] == a + b[..n];
      DecimalConcat(a, b[..n]);
      Shift(DecimalValue(a), TenTo(n), DecimalValue(b[..n]));
    }
  }

  lemma Shift(x: int, p: int, y: int)
    ensures (x * p + y) * 10 == x * (10 * p) + y * 10
  {
  }

  /** The value of a price is the number its text writes without the point, eight digits after it. */
  lemma PriceText(p: Price)
    requires ValidPrice(p)
    ensures var t := p.text;
      && t[|t| - 9] == 46 && p.units == DecimalValue(t[..|t| - 9] + t[|t| - 8..])
  {
    var t := p.text;
    var whole, fraction := t[..|t| - 9], t[|t| - 8..];
    NumberIsDecimal(t, 0, |t| - 9);
    NumberIsDecimal(t, |t| - 8, |t|);
    assert t[0..|t| - 9] == whole && t[|t| - 8..|t|] == fraction;
    DecimalConcat(whole, fraction);
    EightZeros();
    hide DecimalValue, Number;
  }

  lemma EightZeros()
    ensures TenTo(8) == 100_000_000
  {
    assert TenTo(4) == 10_000;
  }

  lemma SortedRows(items: seq<Json>, i: nat)
    requires i < |items|
    ensures Sorted(JArray(items)).JArray? && |Sorted(JArray(items)).items| == |items|
    ensures Sorted(JArray(items)).items[i] == AsRead(items[i])
  {
    ItemsAt(items, i);
    AsReadIsSorted(items[i]);
  }

  /** An array of one record per order, in order, and likewise of executions. */
  ghost predicate OrdersSay(r: Json, rows: seq<Order>) {
    r.JArray? && |r.items| == |rows| && forall i | 0 <= i < |rows| :: OrderSays(r.items[i], rows[i])
  }

  ghost predicate TradesSay(r: Json, rows: seq<Trade>) {
    r.JArray? && |r.items| == |rows| && forall i | 0 <= i < |rows| :: TradeSays(r.items[i], rows[i])
  }

  lemma OrdersText(rows: seq<Order>)
    ensures OrdersSay(Sorted(OrdersJson(rows)), rows)
  {
    hide OrderSays, OrderValues;
    forall i | 0 <= i < |rows| ensures OrderSays(Sorted(OrdersJson(rows)).items[i], rows[i]) {
      SortedRows(OrdersJson(rows).items, i);
      OrderText(rows[i]);
    }
  }

  lemma TradesText(rows: seq<Trade>)
    ensures TradesSay(Sorted(TradesJson(rows)), rows)
  {
    hide TradeSays, TradeValues;
    forall i | 0 <= i < |rows| ensures TradeSays(Sorted(TradesJson(rows)).items[i], rows[i]) {
      SortedRows(TradesJson(rows).items, i);
      TradeText(rows[i]);
    }
  }

  ghost predicate HoldsOrders(r: Json, name: string, rows: seq<Order>) {
    exists x :: Holds(r, name, x) && OrdersSay(x, rows)
  }

  ghost predicate HoldsTrades(r: Json, name: string, rows: seq<Trade>) {
    exists x :: Holds(r, name, x) && TradesSay(x, rows)
  }

  lemma CaptureKeysAt()
    ensures |CAPTURE_KEYS| == 11
    ensures CAPTURE_KEYS[0] == Ascii("scope") && CAPTURE_KEYS[1] == Ascii("broker")
    ensures CAPTURE_KEYS[2] == Ascii("orders") && CAPTURE_KEYS[3] == Ascii("schema")
    ensures CAPTURE_KEYS[4] == Ascii("trades") && CAPTURE_KEYS[5] == Ascii("tenantId")
    ensures CAPTURE_KEYS[6] == Ascii("startedAt") && CAPTURE_KEYS[7] == Ascii("accountRef")
    ensures CAPTURE_KEYS[8] == Ascii("finishedAt") && CAPTURE_KEYS[9] == Ascii("ordersBefore")
    ensures CAPTURE_KEYS[10] == Ascii("tradesBefore")
  {
    hide Ascii;
  }

  lemma CaptureValuesAt(c: Capture)
    ensures |CaptureValues(c)| == 11
    ensures CaptureValues(c)[0] == JString(SCOPE) && CaptureValues(c)[1] == JString(BROKER)
    ensures CaptureValues(c)[2] == OrdersJson(c.orders) && CaptureValues(c)[3] == JString(SCHEMA)
    ensures CaptureValues(c)[4] == TradesJson(c.trades) && CaptureValues(c)[5] == JString(c.tenantId)
    ensures CaptureValues(c)[6] == JString(c.startedAt.text) && CaptureValues(c)[7] == JString(c.accountRef)
    ensures CaptureValues(c)[8] == JString(c.finishedAt.text)
    ensures CaptureValues(c)[9] == OrdersJson(c.ordersBefore)
    ensures CaptureValues(c)[10] == TradesJson(c.tradesBefore)
  {
    hide OrdersJson, TradesJson, Ascii;
  }

  ghost predicate HeaderSays(r: Json, c: Capture) {
    && Holds(r, "schema", JString(Ascii("pramana.broker_observation.v1")))
    && Holds(r, "scope", JString(Ascii("kite_daily_order_trade_consistency_only")))
    && Holds(r, "broker", JString(Ascii("zerodha-kite")))
    && Holds(r, "tenantId", JString(c.tenantId)) && Holds(r, "accountRef", JString(c.accountRef))
    && Holds(r, "startedAt", JString(c.startedAt.text)) && Holds(r, "finishedAt", JString(c.finishedAt.text))
  }

  lemma HeaderText(c: Capture)
    ensures HeaderSays(AsRead(Unsigned(c)), c) && |AsRead(Unsigned(c)).members| == 11
  {
    hide AsRead, Holds, Ascii, OrdersJson, TradesJson, CaptureValues, CAPTURE_KEYS;
    CaptureKeysAt();
    CaptureValuesAt(c);
    var values := CaptureValues(c);
    ScalarHolds(CAPTURE_KEYS, values, 0, "scope", JString(SCOPE));
    ScalarHolds(CAPTURE_KEYS, values, 1, "broker", JString(BROKER));
    ScalarHolds(CAPTURE_KEYS, values, 3, "schema", JString(SCHEMA));
    ScalarHolds(CAPTURE_KEYS, values, 5, "tenantId", JString(c.tenantId));
    ScalarHolds(CAPTURE_KEYS, values, 6, "startedAt", JString(c.startedAt.text));
    ScalarHolds(CAPTURE_KEYS, values, 7, "accountRef", JString(c.accountRef));
    ScalarHolds(CAPTURE_KEYS, values, 8, "finishedAt", JString(c.finishedAt.text));
  }

  ghost predicate RowsSay(r: Json, c: Capture) {
    && HoldsOrders(r, "ordersBefore", c.ordersBefore) && HoldsTrades(r, "tradesBefore", c.tradesBefore)
    && HoldsOrders(r, "orders", c.orders) && HoldsTrades(r, "trades", c.trades)
  }

  lemma RowsText(c: Capture)
    ensures RowsSay(AsRead(Unsigned(c)), c)
  {
    hide AsRead, Holds, Ascii, OrdersSay, TradesSay, OrdersJson, TradesJson, Sorted, CaptureValues, CAPTURE_KEYS;
    CaptureKeysAt();
    CaptureValuesAt(c);
    var values := CaptureValues(c);
    OrdersText(c.orders);
    TradesText(c.trades);
    OrdersText(c.ordersBefore);
    TradesText(c.tradesBefore);
    FieldHolds(CAPTURE_KEYS, values, 2, "orders", Sorted(OrdersJson(c.orders)));
    FieldHolds(CAPTURE_KEYS, values, 4, "trades", Sorted(TradesJson(c.trades)));
    FieldHolds(CAPTURE_KEYS, values, 9, "ordersBefore", Sorted(OrdersJson(c.ordersBefore)));
    FieldHolds(CAPTURE_KEYS, values, 10, "tradesBefore", Sorted(TradesJson(c.tradesBefore)));
  }

  /** What a capture's hash covers is an object of these eleven members and no other. */
  lemma CaptureText(c: Capture)
    ensures var r := AsRead(Unsigned(c)); HeaderSays(r, c) && RowsSay(r, c) && |r.members| == 11
  {
    hide AsRead, HeaderSays, RowsSay, Unsigned;
    HeaderText(c);
    RowsText(c);
  }

  /** What an entry hash covers is an object of these four. */
  lemma EntryReads(journalId: Text, sequence: nat, previousHash: Option<Text>, captureSha: Text)
    ensures var r := ReadValue(EntryText(journalId, sequence, previousHash, captureSha));
      && r.Some? && r.value.1 == [] && r.value.0.JObject? && |r.value.0.members| == 4
      && Holds(r.value.0, "journalId", JString(journalId)) && Holds(r.value.0, "sequence", JNumber(sequence))
      && Holds(r.value.0, "previousHash", if previousHash.None? then JNull else JString(previousHash.value))
      && Holds(r.value.0, "captureSha256", JString(captureSha))
  {
    hide AsRead, Ascii;
    var values := EntryValues(journalId, sequence, previousHash, captureSha);
    ScalarHolds(ENTRY_KEYS, values, 0, "sequence", JNumber(sequence));
    ScalarHolds(ENTRY_KEYS, values, 1, "journalId", JString(journalId));
    ScalarHolds(ENTRY_KEYS, values, 2, "previousHash", OptionalJson(previousHash));
    ScalarHolds(ENTRY_KEYS, values, 3, "captureSha256", JString(captureSha));
    hide Holds, ReadValue, Canonical, Record;
    assert EntryText(journalId, sequence, previousHash, captureSha) == Canonical(Record(ENTRY_KEYS, values));
    var r := AsRead(Record(ENTRY_KEYS, values));
  }
}
