/** The recorded broker evidence: orders, executions and captures, their row validation, and the
    JSON values they are compared and hashed as. */
module BrokerRecords {
  import opened Prelude
  import opened CanonicalJson
  import JsonReader

  datatype Side = Buy | Sell

  /** A timestamp: the recorded text and the instant, in milliseconds, that Date.parse gives it. */
  datatype Stamp = Stamp(text: Text, ms: int)

  /** A price: the recorded decimal text and its value in units of 1e-8. */
  datatype Price = Price(text: Text, units: nat)

  datatype Order = Order(
    orderId: Text, instrumentId: Text, symbol: Text, exchange: Text, product: Text, side: Side,
    quantity: nat, status: Text, variety: Text, filled: nat, pending: nat, cancelled: nat,
    averagePrice: Price, exchangeOrderId: Option<Text>, at: Stamp)

  datatype Trade = Trade(
    orderId: Text, instrumentId: Text, symbol: Text, exchange: Text, product: Text, side: Side,
    quantity: nat, at: Stamp, tradeId: Text, exchangeOrderId: Text, price: Price)

  datatype Capture = Capture(
    tenantId: Text, accountRef: Text, startedAt: Stamp, finishedAt: Stamp,
    ordersBefore: seq<Order>, tradesBefore: seq<Trade>, orders: seq<Order>, trades: seq<Trade>,
    sha256: Text)

  datatype TradeKey = TradeKey(exchange: Text, tradeId: Text)

  function KeyOf(t: Trade): TradeKey {
    TradeKey(t.exchange, t.tradeId)
  }

  const COMPLETE := Ascii("COMPLETE")
  const CANCELLED := Ascii("CANCELLED")
  const REJECTED := Ascii("REJECTED")

  predicate Terminal(status: Text) {
    status == COMPLETE || status == CANCELLED || status == REJECTED
  }

  /** The broker day, at UTC+05:30. */
  function Day(s: Stamp): int {
    (s.ms + 330 * 60_000) / 86_400_000
  }

  // ---------- field validation ----------

  predicate Label(t: Text) {
    0 < |t| <= 160 && forall i | 0 <= i < |t| :: t[i] >= 32
  }

  predicate Digits(t: Text, lo: nat, hi: nat)
    requires lo <= hi <= |t|
  {
    forall i | lo <= i < hi :: IsDigit(t[i])
  }

  /** The number written by the digits of t from lo up to hi. */
  function Number(t: Text, lo: nat, hi: nat): nat
    requires lo <= hi <= |t| && Digits(t, lo, hi)
    decreases hi
  {
    if lo == hi then 0 else Number(t, lo, hi - 1) * 10 + (t[hi - 1] - 48)
  }

  predicate LeapYear(y: nat) {
    y % 4 == 0 && (y % 100 != 0 || y % 400 == 0)
  }

  function MonthLength(y: nat, m: nat): nat {
    if m == 2 then (if LeapYear(y) then 29 else 28)
    else if m == 4 || m == 6 || m == 9 || m == 11 then 30
    else 31
  }

  /** Days from 1970-01-01 to a date of the proleptic Gregorian calendar. */
  function DaysFromEpoch(y: nat, m: nat, d: nat): int {
    var shifted := if m <= 2 then y - 1 else y;
    var era := shifted / 400;
    var yearOfEra := shifted - era * 400;
    var dayOfYear := (153 * (if m > 2 then m - 3 else m + 9) + 2) / 5 + d - 1;
    era * 146_097 + yearOfEra * 365 + yearOfEra / 4 - yearOfEra / 100 + dayOfYear - 719_468
  }

  predicate IsoShape(t: Text) {
    && (|t| == 25 || |t| == 29)
    && Digits(t, 0, 4) && t[4] == 45 && Digits(t, 5, 7) && t[7] == 45 && Digits(t, 8, 10) && t[10] == 84
    && Digits(t, 11, 13) && t[13] == 58 && Digits(t, 14, 16) && t[16] == 58 && Digits(t, 17, 19)
    && (|t| == 29 ==> t[19] == 46 && Digits(t, 20, 23))
    && t[|t| - 6..] == Ascii("+00:00")
  }

  function Instant(t: Text): int
    requires IsoShape(t)
  {
    DaysFromEpoch(Number(t, 0, 4), Number(t, 5, 7), Number(t, 8, 10)) * 86_400_000
    + Number(t, 11, 13) * 3_600_000 + Number(t, 14, 16) * 60_000 + Number(t, 17, 19) * 1000
    + (if |t| == 29 then Number(t, 20, 23) else 0)
  }

  predicate CalendarDate(t: Text)
    requires IsoShape(t)
  {
    && 1 <= Number(t, 5, 7) <= 12
    && 1 <= Number(t, 8, 10) <= MonthLength(Number(t, 0, 4), Number(t, 5, 7))
    && Number(t, 11, 13) < 24 && Number(t, 14, 16) < 60 && Number(t, 17, 19) < 60
  }

  predicate ValidStamp(s: Stamp) {
    IsoShape(s.text) && CalendarDate(s.text) && s.ms == Instant(s.text)
  }

  predicate PriceShape(t: Text) {
    10 <= |t| <= 22 && Digits(t, 0, |t| - 9) && t[|t| - 9] == 46 && Digits(t, |t| - 8, |t|)
  }

  predicate ValidPrice(p: Price) {
    && PriceShape(p.text)
    && p.units == Number(p.text, 0, |p.text| - 9) * 100_000_000 + Number(p.text, |p.text| - 8, |p.text|)
    && p.units <= 1_000_000_000_000 * 100_000_000
  }

  predicate InstrumentId(t: Text) {
    |t| > 0 && Digits(t, 0, |t|) && t[0] != 48 && Number(t, 0, |t|) <= MAX_SAFE_INTEGER
  }

  predicate ValidOrder(o: Order) {
    && Label(o.orderId) && Label(o.instrumentId) && Label(o.symbol) && Label(o.exchange) && Label(o.product)
    && 0 < o.quantity <= MAX_SAFE_INTEGER && ValidStamp(o.at) && InstrumentId(o.instrumentId)
    && Label(o.status) && Label(o.variety)
    && o.filled <= MAX_SAFE_INTEGER && o.pending <= MAX_SAFE_INTEGER && o.cancelled <= MAX_SAFE_INTEGER
    && ValidPrice(o.averagePrice) && (o.exchangeOrderId.Some? ==> Label(o.exchangeOrderId.value))
  }

  predicate ValidTrade(t: Trade) {
    && Label(t.orderId) && Label(t.instrumentId) && Label(t.symbol) && Label(t.exchange) && Label(t.product)
    && 0 < t.quantity <= MAX_SAFE_INTEGER && ValidStamp(t.at) && InstrumentId(t.instrumentId)
    && Label(t.tradeId) && Label(t.exchangeOrderId) && ValidPrice(t.price) && t.price.units > 0
  }

  ghost predicate ValidOrders(rows: seq<Order>) {
    ValidCollection(rows, (o: Order) => o.orderId, ValidOrder, 5000)
  }

  ghost predicate ValidTrades(rows: seq<Trade>) {
    ValidCollection(rows, KeyOf, ValidTrade, 10000)
  }

  ghost predicate ValidCollection<R, K(!new)>(rows: seq<R>, identity: R -> K, valid: R -> bool, bound: nat) {
    && |rows| <= bound
    && (forall i | 0 <= i < |rows| :: valid(rows[i]))
    && (forall i, j | 0 <= i < j < |rows| :: identity(rows[i]) != identity(rows[j]))
  }

  /** `rows`: a bounded collection is accepted exactly when every row passes its field checks and
      no identity repeats. */
  method CheckRows<R, K(==, !new)>(rows: seq<R>, identity: R -> K, valid: R -> bool, bound: nat) returns (ok: bool)
    ensures ok <==> ValidCollection(rows, identity, valid, bound)
  {
    if |rows| > bound {
      return false;
    }
    var seen: set<K> := {};
    for i := 0 to |rows|
      invariant forall j | 0 <= j < i :: valid(rows[j]) && identity(rows[j]) in seen
      invariant forall k | k in seen :: exists j | 0 <= j < i :: identity(rows[j]) == k
      invariant forall j, k | 0 <= j < k < i :: identity(rows[j]) != identity(rows[k])
    {
      if !valid(rows[i]) || identity(rows[i]) in seen {
        return false;
      }
      seen := seen + {identity(rows[i])};
    }
    return true;
  }

  ghost predicate ValidRows(c: Capture) {
    && ValidOrders(c.ordersBefore) && ValidOrders(c.orders)
    && ValidTrades(c.tradesBefore) && ValidTrades(c.trades)
    && ValidStamp(c.startedAt) && ValidStamp(c.finishedAt)
  }

  // ---------- records as JSON ----------

  ghost predicate DistinctTexts(keys: seq<Text>) {
    forall i, j | 0 <= i < j < |keys| :: keys[i] != keys[j]
  }

  function Record(keys: seq<Text>, values: seq<Json>): Json
    requires |keys| == |values|
  {
    JObject(seq(|keys|, i requires 0 <= i < |keys| => Member(keys[i], values[i])))
  }

  /** Two records with the same field names have the same canonical text exactly when their
      fields agree one by one. */
  lemma RecordExact(keys: seq<Text>, xs: seq<Json>, ys: seq<Json>)
    requires |keys| == |xs| == |ys| && DistinctTexts(keys)
    requires Same(Record(keys, xs), Record(keys, ys))
    ensures forall i | 0 <= i < |xs| :: Same(xs[i], ys[i])
  {
    var ms, ns := Record(keys, xs).members, Record(keys, ys).members;
    forall i | 0 <= i < |xs|
      ensures Same(xs[i], ys[i])
    {
      assert ms[i] in ms;
      var n :| n in ns && ms[i].key == n.key && Same(ms[i].value, n.value);
      var j :| 0 <= j < |ns| && ns[j] == n;
      assert j == i;
    }
  }

  /** Enough of a field name to tell it from the others. */
  function Tag(t: Text): int {
    if t == [] then 0 else
    var head: int, last: int := t[0], t[|t| - 1];
    |t| * 100_000_000 + head * 1000 + last
  }

  lemma {:induction false} AscendingTagsDistinct(keys: seq<Text>)
    requires forall i | 0 <= i < |keys| - 1 :: Tag(keys[i]) < Tag(keys[i + 1])
    ensures DistinctTexts(keys)
  {
    forall i, j | 0 <= i < j < |keys|
      ensures keys[i] != keys[j]
    {
      TagsAscend(keys, i, j);
    }
  }

  lemma {:induction false} TagsAscend(keys: seq<Text>, i: nat, j: nat)
    requires forall i | 0 <= i < |keys| - 1 :: Tag(keys[i]) < Tag(keys[i + 1])
    requires i < j < |keys|
    ensures Tag(keys[i]) < Tag(keys[j])
    decreases j
  {
    if i + 1 < j {
      TagsAscend(keys, i, j - 1);
    }
    assert Tag(keys[j - 1]) < Tag(keys[j - 1 + 1]);
  }

  const ORDER_KEYS: seq<Text> := [
    Ascii("at"), Ascii("side"), Ascii("filled"), Ascii("symbol"), Ascii("status"), Ascii("orderId"),
    Ascii("pending"), Ascii("product"), Ascii("variety"), Ascii("exchange"), Ascii("quantity"),
    Ascii("cancelled"), Ascii("averagePrice"), Ascii("instrumentId"), Ascii("exchangeOrderId")]

  const TRADE_KEYS: seq<Text> := [
    Ascii("at"), Ascii("side"), Ascii("price"), Ascii("symbol"), Ascii("orderId"), Ascii("product"),
    Ascii("tradeId"), Ascii("exchange"), Ascii("quantity"), Ascii("instrumentId"), Ascii("exchangeOrderId")]

  const CAPTURE_KEYS: seq<Text> := [
    Ascii("scope"), Ascii("broker"), Ascii("orders"), Ascii("schema"), Ascii("trades"), Ascii("tenantId"),
    Ascii("startedAt"), Ascii("accountRef"), Ascii("finishedAt"), Ascii("ordersBefore"), Ascii("tradesBefore")]

  function SideJson(s: Side): Json {
    JString(if s == Buy then Ascii("BUY") else Ascii("SELL"))
  }

  function OptionalJson(t: Option<Text>): Json {
    if t.None? then JNull else JString(t.value)
  }

  function OrderValues(o: Order): seq<Json> {
    [JString(o.at.text), SideJson(o.side), JNumber(o.filled), JString(o.symbol), JString(o.status),
     JString(o.orderId), JNumber(o.pending), JString(o.product), JString(o.variety), JString(o.exchange),
     JNumber(o.quantity), JNumber(o.cancelled), JString(o.averagePrice.text), JString(o.instrumentId),
     OptionalJson(o.exchangeOrderId)]
  }

  function TradeValues(t: Trade): seq<Json> {
    [JString(t.at.text), SideJson(t.side), JString(t.price.text), JString(t.symbol), JString(t.orderId),
     JString(t.product), JString(t.tradeId), JString(t.exchange), JNumber(t.quantity),
     JString(t.instrumentId), JString(t.exchangeOrderId)]
  }

  function OrdersJson(rows: seq<Order>): Json {
    JArray(seq(|rows|, i requires 0 <= i < |rows| => Record(ORDER_KEYS, OrderValues(rows[i]))))
  }

  function TradesJson(rows: seq<Trade>): Json {
    JArray(seq(|rows|, i requires 0 <= i < |rows| => Record(TRADE_KEYS, TradeValues(rows[i]))))
  }

  const SCOPE := Ascii("kite_daily_order_trade_consistency_only")
  const BROKER := Ascii("zerodha-kite")
  const SCHEMA := Ascii("pramana.broker_observation.v1")

  function CaptureValues(c: Capture): seq<Json> {
    [JString(SCOPE), JString(BROKER), OrdersJson(c.orders), JString(SCHEMA), TradesJson(c.trades),
     JString(c.tenantId), JString(c.startedAt.text), JString(c.accountRef), JString(c.finishedAt.text),
     OrdersJson(c.ordersBefore), TradesJson(c.tradesBefore)]
  }

  /** The capture without its own hash: the value that hash covers. */
  function Unsigned(c: Capture): Json {
    Record(CAPTURE_KEYS, CaptureValues(c))
  }

  predicate Plain(s: string) {
    s != "" && s[0] < 128 as char && s[|s| - 1] < 128 as char
  }

  /** Shorter names come first, then those with the earlier first or, failing that, last letter. */
  lemma Earlier(a: string, b: string)
    requires Plain(a) && Plain(b) && |a| <= |b|
    requires |a| < |b| || a[0] < b[0] || (a[0] == b[0] && a[|a| - 1] < b[|b| - 1])
    ensures Tag(Ascii(a)) < Tag(Ascii(b))
  {
  }

  lemma OrderKeysDistinct()
    ensures DistinctTexts(ORDER_KEYS)
  {
    hide Tag, Ascii;
    Earlier("at", "side");
    Earlier("side", "filled");
    Earlier("filled", "symbol");
    Earlier("symbol", "status");
    Earlier("status", "orderId");
    Earlier("orderId", "pending");
    Earlier("pending", "product");
    Earlier("product", "variety");
    Earlier("variety", "exchange");
    Earlier("exchange", "quantity");
    Earlier("quantity", "cancelled");
    Earlier("cancelled", "averagePrice");
    Earlier("averagePrice", "instrumentId");
    Earlier("instrumentId", "exchangeOrderId");
    AscendingTagsDistinct(ORDER_KEYS);
  }

  lemma TradeKeysDistinct()
    ensures DistinctTexts(TRADE_KEYS)
  {
    hide Tag, Ascii;
    Earlier("at", "side");
    Earlier("side", "price");
    Earlier("price", "symbol");
    Earlier("symbol", "orderId");
    Earlier("orderId", "product");
    Earlier("product", "tradeId");
    Earlier("tradeId", "exchange");
    Earlier("exchange", "quantity");
    Earlier("quantity", "instrumentId");
    Earlier("instrumentId", "exchangeOrderId");
    AscendingTagsDistinct(TRADE_KEYS);
  }

  lemma CaptureKeysDistinct()
    ensures DistinctTexts(CAPTURE_KEYS)
  {
    hide Tag, Ascii;
    Earlier("scope", "broker");
    Earlier("broker", "orders");
    Earlier("orders", "schema");
    Earlier("schema", "trades");
    Earlier("trades", "tenantId");
    Earlier("tenantId", "startedAt");
    Earlier("startedAt", "accountRef");
    Earlier("accountRef", "finishedAt");
    Earlier("finishedAt", "ordersBefore");
    Earlier("ordersBefore", "tradesBefore");
    AscendingTagsDistinct(CAPTURE_KEYS);
  }

  lemma SideExact(a: Side, b: Side)
    ensures SideJson(a) == SideJson(b) <==> a == b
  {
    assert Ascii("BUY")[0] != Ascii("SELL")[0];
  }

  lemma StampExact(a: Stamp, b: Stamp)
    requires ValidStamp(a) && ValidStamp(b) && a.text == b.text
    ensures a == b
  {
  }

  lemma PriceExact(a: Price, b: Price)
    requires ValidPrice(a) && ValidPrice(b) && a.text == b.text
    ensures a == b
  {
  }

  lemma FirstOrderFields(a: Order, b: Order)
    requires forall i | 0 <= i < 15 :: Same(OrderValues(a)[i], OrderValues(b)[i])
    ensures a.at.text == b.at.text && a.side == b.side && a.filled == b.filled && a.symbol == b.symbol
    ensures a.status == b.status && a.orderId == b.orderId && a.pending == b.pending && a.product == b.product
  {
    var x, y := OrderValues(a), OrderValues(b);
    assert x[0] == y[0] && x[1] == y[1] && x[2] == y[2] && x[3] == y[3];
    assert x[4] == y[4] && x[5] == y[5] && x[6] == y[6] && x[7] == y[7];
    SideExact(a.side, b.side);
  }

  lemma LastOrderFields(a: Order, b: Order)
    requires forall i | 0 <= i < 15 :: Same(OrderValues(a)[i], OrderValues(b)[i])
    ensures a.variety == b.variety && a.exchange == b.exchange && a.quantity == b.quantity
    ensures a.cancelled == b.cancelled && a.averagePrice.text == b.averagePrice.text
    ensures a.instrumentId == b.instrumentId && a.exchangeOrderId == b.exchangeOrderId
  {
    var x, y := OrderValues(a), OrderValues(b);
    assert x[8] == y[8] && x[9] == y[9] && x[10] == y[10] && x[11] == y[11];
    assert x[12] == y[12] && x[13] == y[13] && x[14] == y[14];
  }

  lemma OrderExact(a: Order, b: Order)
    requires ValidOrder(a) && ValidOrder(b)
    requires Same(Record(ORDER_KEYS, OrderValues(a)), Record(ORDER_KEYS, OrderValues(b)))
    ensures a == b
  {
    OrderKeysDistinct();
    RecordExact(ORDER_KEYS, OrderValues(a), OrderValues(b));
    FirstOrderFields(a, b);
    LastOrderFields(a, b);
    StampExact(a.at, b.at);
    PriceExact(a.averagePrice, b.averagePrice);
  }

  lemma TradeFields(a: Trade, b: Trade)
    requires forall i | 0 <= i < 11 :: Same(TradeValues(a)[i], TradeValues(b)[i])
    ensures a.(at := b.at, price := b.price) == b
    ensures a.at.text == b.at.text && a.price.text == b.price.text
  {
    var x, y := TradeValues(a), TradeValues(b);
    assert x[0] == y[0] && x[1] == y[1] && x[2] == y[2] && x[3] == y[3] && x[4] == y[4];
    assert x[5] == y[5] && x[6] == y[6] && x[7] == y[7] && x[8] == y[8] && x[9] == y[9] && x[10] == y[10];
    SideExact(a.side, b.side);
  }

  lemma TradeExact(a: Trade, b: Trade)
    requires ValidTrade(a) && ValidTrade(b)
    requires Same(Record(TRADE_KEYS, TradeValues(a)), Record(TRADE_KEYS, TradeValues(b)))
    ensures a == b
  {
    TradeKeysDistinct();
    RecordExact(TRADE_KEYS, TradeValues(a), TradeValues(b));
    TradeFields(a, b);
    StampExact(a.at, b.at);
    PriceExact(a.price, b.price);
  }

  lemma OrdersExact(xs: seq<Order>, ys: seq<Order>)
    requires ValidOrders(xs) && ValidOrders(ys)
    ensures Same(OrdersJson(xs), OrdersJson(ys)) ==> xs == ys
  {
    hide ValidOrder, Record, OrderValues;
    if Same(OrdersJson(xs), OrdersJson(ys)) {
      forall i | 0 <= i < |xs|
        ensures xs[i] == ys[i]
      {
        assert Same(OrdersJson(xs).items[i], OrdersJson(ys).items[i]);
        OrderExact(xs[i], ys[i]);
      }
    }
  }

  lemma TradesExact(xs: seq<Trade>, ys: seq<Trade>)
    requires ValidTrades(xs) && ValidTrades(ys)
    ensures Same(TradesJson(xs), TradesJson(ys)) ==> xs == ys
  {
    hide ValidTrade, Record, TradeValues;
    if Same(TradesJson(xs), TradesJson(ys)) {
      forall i | 0 <= i < |xs|
        ensures xs[i] == ys[i]
      {
        assert Same(TradesJson(xs).items[i], TradesJson(ys).items[i]);
        TradeExact(xs[i], ys[i]);
      }
    }
  }

  /** The two collection reads inside one capture are judged stable exactly when they are equal
      field for field. */
  lemma StableReads(c: Capture)
    requires ValidRows(c)
    ensures Canonical(OrdersJson(c.ordersBefore)) == Canonical(OrdersJson(c.orders)) <==> c.ordersBefore == c.orders
    ensures Canonical(TradesJson(c.tradesBefore)) == Canonical(TradesJson(c.trades)) <==> c.tradesBefore == c.trades
  {
    if Canonical(OrdersJson(c.ordersBefore)) == Canonical(OrdersJson(c.orders)) {
      JsonReader.ValueReadable(OrdersJson(c.ordersBefore), OrdersJson(c.orders));
      OrdersExact(c.ordersBefore, c.orders);
    }
    if Canonical(TradesJson(c.tradesBefore)) == Canonical(TradesJson(c.trades)) {
      JsonReader.ValueReadable(TradesJson(c.tradesBefore), TradesJson(c.trades));
      TradesExact(c.tradesBefore, c.trades);
    }
  }

  lemma UnsignedFields(a: Capture, b: Capture)
    requires Canonical(Unsigned(a)) == Canonical(Unsigned(b))
    ensures forall i | 0 <= i < 11 :: Same(CaptureValues(a)[i], CaptureValues(b)[i])
  {
    JsonReader.ValueReadable(Unsigned(a), Unsigned(b));
    CaptureKeysDistinct();
    RecordExact(CAPTURE_KEYS, CaptureValues(a), CaptureValues(b));
  }

  /** The text a capture's hash covers determines every other field of the capture. */
  lemma UnsignedExact(a: Capture, b: Capture)
    requires ValidRows(a) && ValidRows(b)
    requires Canonical(Unsigned(a)) == Canonical(Unsigned(b))
    ensures a.(sha256 := b.sha256) == b
  {
    hide ValidOrders, ValidTrades, ValidStamp;
    UnsignedFields(a, b);
    var x, y := CaptureValues(a), CaptureValues(b);
    assert Same(x[2], y[2]) && Same(x[4], y[4]) && Same(x[9], y[9]) && Same(x[10], y[10]);
    assert Same(x[5], y[5]) && Same(x[6], y[6]) && Same(x[7], y[7]) && Same(x[8], y[8]);
    OrdersExact(a.orders, b.orders);
    OrdersExact(a.ordersBefore, b.ordersBefore);
    TradesExact(a.trades, b.trades);
    TradesExact(a.tradesBefore, b.tradesBefore);
    StampExact(a.startedAt, b.startedAt);
    StampExact(a.finishedAt, b.finishedAt);
  }
}
