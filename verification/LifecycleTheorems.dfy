/** What the reports of a broker day mean: when each finding is raised, what a silent day implies,
    and that a changing capture leaves no trace. */
module LifecycleTheorems {
  import opened Prelude
  import opened BrokerRecords
  import opened BrokerCapture
  import opened LifecycleHistory
  import opened LifecycleMemory
  import opened LifecycleFindings

  // ---------- each finding, exactly ----------

  /** Capture c contradicts the earlier stable captures of its day, as finding `code` for order `id`. */
  ghost predicate Contradicts(past: seq<Capture>, c: Capture, code: TemporalCode, id: Text) {
    match code
    case DayBoundaryUnresolvedOrders => false
    case PreviouslyObservedOrderMissing =>
      !NoneIn(past, Named(id)) && forall o | o in c.orders :: o.orderId != id
    case PreviouslyObservedTradeMissing =>
      exists k: nat, f :: FirstExecuted(past, k, f) && f.orderId == id
                          && forall t | t in c.trades :: KeyOf(t) != KeyOf(f)
    case OrderIdentityChanged =>
      exists o, k: nat, f :: o in c.orders && o.orderId == id && First(past, Named(id), k, f) && !SameIdentity(f, o)
    case ExchangeOrderIdentityChanged =>
      exists o, k: nat, f :: o in c.orders && o.orderId == id && First(past, NamedNumbered(id), k, f)
                             && o.exchangeOrderId != f.exchangeOrderId
    case FilledQuantityRegressed =>
      exists o, d, f :: o in c.orders && o.orderId == id && d in past && f in d.orders && f.orderId == id
                        && o.filled < f.filled
    case TerminalOrderChanged =>
      exists o, k: nat, f :: o in c.orders && o.orderId == id && First(past, NamedTerminal(id), k, f) && !SameEnd(f, o)
    case PreviousExecutionChanged =>
      exists t, k: nat, f :: t in c.trades && t.orderId == id && FirstExecuted(past, k, f)
                             && KeyOf(f) == KeyOf(t) && f != t
  }

  lemma {:induction false} MissingOrdersExact(ids: seq<Text>, c: Capture, x: TemporalFinding)
    ensures x in MissingOrders(ids, c) <==>
      && x.code == PreviouslyObservedOrderMissing && x.orderId.Some?
      && x.orderId.value in ids && FindOrder(c.orders, x.orderId.value).None?
    decreases |ids|
  {
    if ids != [] {
      var n := |ids| - 1;
      MissingOrdersExact(ids[..n], c, x);
      assert ids == ids[..n] + [ids[n]];
    }
  }

  /** The remembered execution `key` is missing from c, and x is the finding that says so. */
  ghost predicate Gone(past: seq<Capture>, c: Capture, key: TradeKey, x: TemporalFinding) {
    && FirstTrade(past, key).Some? && FindTrade(c.trades, key).None?
    && x == TemporalFinding(PreviouslyObservedTradeMissing, Some(FirstTrade(past, key).value.orderId))
  }

  lemma {:induction false} MissingTradesExact(keys: seq<TradeKey>, past: seq<Capture>, c: Capture, x: TemporalFinding)
    requires forall key | key in keys :: FirstTrade(past, key).Some?
    ensures x in MissingTrades(keys, past, c) <==> exists key :: key in keys && Gone(past, c, key, x)
    decreases |keys|
  {
    hide FirstTrade, FindTrade;
    if keys != [] {
      var n := |keys| - 1;
      assert keys == keys[..n] + [keys[n]];
      assert forall key | key in keys[..n] :: key in keys;
      MissingTradesExact(keys[..n], past, c, x);
      assert x in MissingTrades(keys, past, c) <==> x in MissingTrades(keys[..n], past, c) || Gone(past, c, keys[n], x);
      assert keys[n] in keys;
    }
  }

  lemma {:induction false} OrdersTemporalExact(past: seq<Capture>, rows: seq<Order>, x: TemporalFinding)
    ensures x in OrdersTemporal(past, rows) <==>
      exists o :: o in rows && x in OrderTemporal(Recall(past, o.orderId), o)
    decreases |rows|
  {
    hide OrderTemporal, Recall;
    if rows != [] {
      var n := |rows| - 1;
      OrdersTemporalExact(past, rows[..n], x);
      assert rows == rows[..n] + [rows[n]];
    }
  }

  lemma {:induction false} TradesTemporalExact(past: seq<Capture>, rows: seq<Trade>, x: TemporalFinding)
    ensures x in TradesTemporal(past, rows) <==>
      exists t :: t in rows && x in TradeTemporal(FirstTrade(past, KeyOf(t)), t)
    decreases |rows|
  {
    hide TradeTemporal, FirstTrade;
    if rows != [] {
      var n := |rows| - 1;
      TradesTemporalExact(past, rows[..n], x);
      assert rows == rows[..n] + [rows[n]];
    }
  }

  lemma NotNoneIn(past: seq<Capture>, p: Order -> bool, j: nat, e: Order, k: nat)
    requires j < k <= |past| && e in past[j].orders && p(e)
    ensures !NoneIn(past[..k], p)
  {
    assert past[j] in past[..k];
  }

  lemma FirstUnique(past: seq<Capture>, p: Order -> bool, j: nat, e: Order, k: nat, f: Order)
    requires UniqueRows(past) && First(past, p, j, e) && First(past, p, k, f) && e.orderId == f.orderId
    ensures j == k && e == f
  {
    hide NoneIn;
    if j < k { NotNoneIn(past, p, j, e, k); }
    if k < j { NotNoneIn(past, p, k, f, j); }
    assert past[j] in past && past[k] in past;
    FindOrderExact(past[j].orders, e.orderId);
  }

  lemma NotNoneExecuted(past: seq<Capture>, j: nat, e: Trade, k: nat)
    requires j < k <= |past| && e in past[j].trades
    ensures !NoneExecuted(past[..k], KeyOf(e))
  {
    assert past[j] in past[..k];
  }

  lemma FirstExecutedUnique(past: seq<Capture>, j: nat, e: Trade, k: nat, f: Trade)
    requires UniqueRows(past) && FirstExecuted(past, j, e) && FirstExecuted(past, k, f) && KeyOf(e) == KeyOf(f)
    ensures e == f
  {
    hide NoneExecuted;
    if j < k { NotNoneExecuted(past, j, e, k); }
    if k < j { NotNoneExecuted(past, k, f, j); }
    assert past[j] in past && past[k] in past;
    FindTradeExact(past[j].trades, KeyOf(e));
  }

  lemma FirstMeansSome(past: seq<Capture>, p: Order -> bool, k: nat, f: Order)
    requires First(past, p, k, f)
    ensures !NoneIn(past, p)
  {
    assert past[k] in past;
  }

  lemma OrderMissingExact(past: seq<Capture>, c: Capture, id: Text)
    requires UniqueRows(past)
    ensures TemporalFinding(PreviouslyObservedOrderMissing, Some(id)) in MissingOrders(SeenOrders(past), c)
       <==> Contradicts(past, c, PreviouslyObservedOrderMissing, id)
  {
    hide RecallMeans, NoneIn;
    MissingOrdersExact(SeenOrders(past), c, TemporalFinding(PreviouslyObservedOrderMissing, Some(id)));
    SeenOrdersExact(past, id);
    FindOrderExact(c.orders, id);
    RecallExact(past, id);
    SeenMeans(past, id, Recall(past, id));
  }

  lemma SeenMeans(past: seq<Capture>, id: Text, mem: OrderMemory)
    requires RecallMeans(past, id, mem)
    ensures mem.seen.None? <==> NoneIn(past, Named(id))
  {
  }

  lemma TradeMissingExact(past: seq<Capture>, c: Capture, id: Text)
    requires UniqueRows(past)
    ensures TemporalFinding(PreviouslyObservedTradeMissing, Some(id)) in MissingTrades(SeenTrades(past), past, c)
       <==> Contradicts(past, c, PreviouslyObservedTradeMissing, id)
  {
    hide FirstExecuted, NoneExecuted, FirstTrade, FindTrade, MissingTrades;
    var x := TemporalFinding(PreviouslyObservedTradeMissing, Some(id));
    forall key | key in SeenTrades(past) ensures FirstTrade(past, key).Some? {
      SeenTradesExact(past, key);
    }
    MissingTradesExact(SeenTrades(past), past, c, x);
    if x in MissingTrades(SeenTrades(past), past, c) {
      var key :| key in SeenTrades(past) && Gone(past, c, key, x);
      FirstTradeExact(past, key);
      FindTradeExact(c.trades, key);
      var k: nat :| FirstExecuted(past, k, FirstTrade(past, key).value);
    }
    if k: nat, f :| FirstExecuted(past, k, f) && f.orderId == id && forall t | t in c.trades :: KeyOf(t) != KeyOf(f) {
      FirstExecutedRecalled(past, k, f);
      SeenTradesExact(past, KeyOf(f));
      FindTradeExact(c.trades, KeyOf(f));
      assert Gone(past, c, KeyOf(f), x);
    }
  }

  lemma FirstExecutedRecalled(past: seq<Capture>, k: nat, f: Trade)
    requires UniqueRows(past) && FirstExecuted(past, k, f)
    ensures FirstTrade(past, KeyOf(f)) == Some(f)
  {
    hide FirstTrade;
    FirstTradeExact(past, KeyOf(f));
    assert past[k] in past;
    var j: nat :| FirstExecuted(past, j, FirstTrade(past, KeyOf(f)).value);
    FirstExecutedUnique(past, j, FirstTrade(past, KeyOf(f)).value, k, f);
  }

  lemma ExecutionChangedExact(past: seq<Capture>, c: Capture, id: Text)
    requires UniqueRows(past)
    ensures TemporalFinding(PreviousExecutionChanged, Some(id)) in TradesTemporal(past, c.trades)
       <==> Contradicts(past, c, PreviousExecutionChanged, id)
  {
    hide FirstExecuted, FirstTrade, TradesTemporal;
    var x := TemporalFinding(PreviousExecutionChanged, Some(id));
    TradesTemporalExact(past, c.trades, x);
    if x in TradesTemporal(past, c.trades) {
      var t :| t in c.trades && x in TradeTemporal(FirstTrade(past, KeyOf(t)), t);
      FirstTradeExact(past, KeyOf(t));
      var k: nat :| FirstExecuted(past, k, FirstTrade(past, KeyOf(t)).value);
    }
    if t, k: nat, f :| t in c.trades && t.orderId == id && FirstExecuted(past, k, f) && KeyOf(f) == KeyOf(t) && f != t {
      FirstExecutedRecalled(past, k, f);
      assert x in TradeTemporal(FirstTrade(past, KeyOf(t)), t);
    }
  }

  /** The findings one order raises against what is recalled of it, code by code. */
  lemma OrderTemporalExact(mem: OrderMemory, o: Order, x: TemporalFinding)
    ensures x in OrderTemporal(mem, o) <==>
      && mem.seen.Some? && x.orderId == Some(o.orderId)
      && ( || (x.code == OrderIdentityChanged && !SameIdentity(mem.seen.value, o))
           || (x.code == ExchangeOrderIdentityChanged && mem.exchangeId.Some? && mem.exchangeId != o.exchangeOrderId)
           || (x.code == FilledQuantityRegressed && o.filled < mem.maxFilled)
           || (x.code == TerminalOrderChanged && mem.ended.Some? && !SameEnd(mem.ended.value, o)))
  {
  }

  /** The recalled facts about an order against the first occurrences they stand for. */
  lemma RecalledReferences(past: seq<Capture>, id: Text)
    requires UniqueRows(past)
    ensures Recall(past, id).seen.Some? <==> exists k: nat, f :: First(past, Named(id), k, f)
    ensures forall k: nat, f | First(past, Named(id), k, f) :: SameIdentity(Recall(past, id).seen.value, f)
    ensures Recall(past, id).ended.Some? <==> exists k: nat, f :: First(past, NamedTerminal(id), k, f)
    ensures forall k: nat, f | First(past, NamedTerminal(id), k, f) :: Recall(past, id).ended == Some(f)
    ensures Recall(past, id).exchangeId.Some? <==> exists k: nat, f :: First(past, NamedNumbered(id), k, f)
    ensures forall k: nat, f | First(past, NamedNumbered(id), k, f) :: Recall(past, id).exchangeId == f.exchangeOrderId
  {
    RecallExact(past, id);
    var mem := Recall(past, id);
    hide Recall, NoneIn;
    forall k: nat, f | First(past, Named(id), k, f) ensures mem.seen.Some? && SameIdentity(mem.seen.value, f) {
      FirstMeansSome(past, Named(id), k, f);
      var j: nat, e :| First(past, Named(id), j, e) && SameIdentity(mem.seen.value, e);
      FirstUnique(past, Named(id), j, e, k, f);
    }
    forall k: nat, f | First(past, NamedTerminal(id), k, f) ensures mem.ended == Some(f) {
      FirstMeansSome(past, NamedTerminal(id), k, f);
      var j: nat :| First(past, NamedTerminal(id), j, mem.ended.value);
      FirstUnique(past, NamedTerminal(id), j, mem.ended.value, k, f);
    }
    forall k: nat, f | First(past, NamedNumbered(id), k, f) ensures mem.exchangeId == f.exchangeOrderId {
      FirstMeansSome(past, NamedNumbered(id), k, f);
      var j: nat, e :| First(past, NamedNumbered(id), j, e) && e.exchangeOrderId == mem.exchangeId;
      FirstUnique(past, NamedNumbered(id), j, e, k, f);
    }
  }

  lemma SightedIsSeen(past: seq<Capture>, id: Text, d: Capture, f: Order)
    requires UniqueRows(past) && d in past && f in d.orders && f.orderId == id
    ensures Recall(past, id).seen.Some?
  {
    hide Recall;
    RecallExact(past, id);
    assert Named(id)(f);
  }

  lemma IdentityChangedExact(past: seq<Capture>, c: Capture, id: Text)
    requires UniqueRows(past)
    ensures TemporalFinding(OrderIdentityChanged, Some(id)) in OrdersTemporal(past, c.orders)
       <==> Contradicts(past, c, OrderIdentityChanged, id)
  {
    hide First, Recall, OrderTemporal, OrdersTemporal;
    var x := TemporalFinding(OrderIdentityChanged, Some(id));
    OrdersTemporalExact(past, c.orders, x);
    RecalledReferences(past, id);
    forall o: Order ensures x in OrderTemporal(Recall(past, o.orderId), o) <==>
      o.orderId == id && Recall(past, id).seen.Some? && !SameIdentity(Recall(past, id).seen.value, o)
    {
      OrderTemporalExact(Recall(past, o.orderId), o, x);
    }
  }

  lemma ExchangeIdChangedExact(past: seq<Capture>, c: Capture, id: Text)
    requires UniqueRows(past)
    ensures TemporalFinding(ExchangeOrderIdentityChanged, Some(id)) in OrdersTemporal(past, c.orders)
       <==> Contradicts(past, c, ExchangeOrderIdentityChanged, id)
  {
    hide Recall, OrderTemporal, OrdersTemporal;
    var x := TemporalFinding(ExchangeOrderIdentityChanged, Some(id));
    OrdersTemporalExact(past, c.orders, x);
    RecalledReferences(past, id);
    forall k: nat, f | First(past, NamedNumbered(id), k, f) ensures Recall(past, id).seen.Some? {
      SightedIsSeen(past, id, past[k], f);
    }
    hide First;
    forall o: Order ensures x in OrderTemporal(Recall(past, o.orderId), o) <==>
      o.orderId == id && Recall(past, id).seen.Some?
      && Recall(past, id).exchangeId.Some? && Recall(past, id).exchangeId != o.exchangeOrderId
    {
      OrderTemporalExact(Recall(past, o.orderId), o, x);
    }
  }

  lemma TerminalChangedExact(past: seq<Capture>, c: Capture, id: Text)
    requires UniqueRows(past)
    ensures TemporalFinding(TerminalOrderChanged, Some(id)) in OrdersTemporal(past, c.orders)
       <==> Contradicts(past, c, TerminalOrderChanged, id)
  {
    hide Recall, OrderTemporal, OrdersTemporal;
    var x := TemporalFinding(TerminalOrderChanged, Some(id));
    OrdersTemporalExact(past, c.orders, x);
    RecalledReferences(past, id);
    forall k: nat, f | First(past, NamedTerminal(id), k, f) ensures Recall(past, id).seen.Some? {
      SightedIsSeen(past, id, past[k], f);
    }
    hide First, SameEnd;
    forall o: Order ensures x in OrderTemporal(Recall(past, o.orderId), o) <==>
      o.orderId == id && Recall(past, id).seen.Some?
      && Recall(past, id).ended.Some? && !SameEnd(Recall(past, id).ended.value, o)
    {
      OrderTemporalExact(Recall(past, o.orderId), o, x);
    }
  }

  lemma FilledRegressedExact(past: seq<Capture>, c: Capture, id: Text)
    requires UniqueRows(past)
    ensures TemporalFinding(FilledQuantityRegressed, Some(id)) in OrdersTemporal(past, c.orders)
       <==> Contradicts(past, c, FilledQuantityRegressed, id)
  {
    hide Recall, OrderTemporal, OrdersTemporal, UniqueRows;
    var x := TemporalFinding(FilledQuantityRegressed, Some(id));
    OrdersTemporalExact(past, c.orders, x);
    LargestExact(past, id);
    forall d, f | d in past && f in d.orders && f.orderId == id ensures Recall(past, id).seen.Some? {
      SightedIsSeen(past, id, d, f);
    }
    forall o: Order ensures x in OrderTemporal(Recall(past, o.orderId), o) <==>
      o.orderId == id && Recall(past, id).seen.Some? && o.filled < Recall(past, id).maxFilled
    {
      OrderTemporalExact(Recall(past, o.orderId), o, x);
    }
  }

  /** A finding carries the order it is about, and each part of the comparison its own codes. */
  lemma FindingSources(past: seq<Capture>, c: Capture, x: TemporalFinding)
    requires UniqueRows(past)
    requires x in Contradictions(past, c)
    ensures x.orderId.Some?
    ensures match x.code
      case DayBoundaryUnresolvedOrders => false
      case PreviouslyObservedOrderMissing => x in MissingOrders(SeenOrders(past), c)
      case PreviouslyObservedTradeMissing => x in MissingTrades(SeenTrades(past), past, c)
      case PreviousExecutionChanged => x in TradesTemporal(past, c.trades)
      case _ => x in OrdersTemporal(past, c.orders)
  {
    hide MissingOrders, MissingTrades, OrdersTemporal, TradesTemporal, Recall, FirstTrade, OrderTemporal;
    MissingOrdersExact(SeenOrders(past), c, x);
    forall key | key in SeenTrades(past) ensures FirstTrade(past, key).Some? {
      SeenTradesExact(past, key);
    }
    MissingTradesExact(SeenTrades(past), past, c, x);
    OrdersTemporalExact(past, c.orders, x);
    TradesTemporalExact(past, c.trades, x);
    if x in OrdersTemporal(past, c.orders) {
      var o :| o in c.orders && x in OrderTemporal(Recall(past, o.orderId), o);
      OrderTemporalExact(Recall(past, o.orderId), o, x);
    }
  }

  /** After any stable captures of a day, a finding is raised on the next stable capture exactly when
      a scan of those captures shows the contradiction it names. */
  lemma FindingExact(past: seq<Capture>, c: Capture, code: TemporalCode, id: Text)
    requires UniqueRows(past)
    ensures TemporalFinding(code, Some(id)) in Contradictions(past, c) <==> Contradicts(past, c, code, id)
  {
    hide MissingOrders, MissingTrades, OrdersTemporal, TradesTemporal, Contradicts, UniqueRows;
    var x := TemporalFinding(code, Some(id));
    if x in Contradictions(past, c) {
      FindingSources(past, c, x);
    }
    match code {
      case DayBoundaryUnresolvedOrders => NeverContradicts(past, c, id);
      case PreviouslyObservedOrderMissing => OrderMissingExact(past, c, id);
      case PreviouslyObservedTradeMissing => TradeMissingExact(past, c, id);
      case OrderIdentityChanged => IdentityChangedExact(past, c, id);
      case ExchangeOrderIdentityChanged => ExchangeIdChangedExact(past, c, id);
      case FilledQuantityRegressed => FilledRegressedExact(past, c, id);
      case TerminalOrderChanged => TerminalChangedExact(past, c, id);
      case PreviousExecutionChanged => ExecutionChangedExact(past, c, id);
    }
  }

  lemma NeverContradicts(past: seq<Capture>, c: Capture, id: Text)
    ensures !Contradicts(past, c, DayBoundaryUnresolvedOrders, id)
  {
  }

  /** What a report finds is the boundary's leftover orders and, for a stable capture, its contradictions with the
      stable captures of the day before it. */
  lemma ReportedExact(run: seq<Observed>, x: Observed, f: TemporalFinding)
    requires UniqueRows(Past(run, x))
    ensures f in ReportFindings(run, x) <==>
      || (f == TemporalFinding(DayBoundaryUnresolvedOrders, None)
          && Boundary(run, x) && Unresolved(Today(run)) > 0)
      || (x.status != Changing && f.orderId.Some? && Contradicts(Past(run, x), x.capture, f.code, f.orderId.value))
  {
    hide Contradictions, Contradicts, UniqueRows, Unresolved, Today, Past, Boundary;
    if f in Contradictions(Past(run, x), x.capture) {
      FindingSources(Past(run, x), x.capture, f);
    }
    if f.orderId.Some? {
      FindingExact(Past(run, x), x.capture, f.code, f.orderId.value);
      assert f == TemporalFinding(f.code, Some(f.orderId.value));
    }
  }

  lemma SilentMeans(past: seq<Capture>, c: Capture)
    requires UniqueRows(past)
    ensures Contradictions(past, c) == [] <==> forall code, id :: !Contradicts(past, c, code, id)
  {
    hide Contradictions, Contradicts, UniqueRows;
    var xs := Contradictions(past, c);
    forall code, id ensures TemporalFinding(code, Some(id)) in xs <==> Contradicts(past, c, code, id) {
      FindingExact(past, c, code, id);
    }
    if xs != [] {
      assert xs[0] in xs;
      FindingSources(past, c, xs[0]);
      assert xs[0] == TemporalFinding(xs[0].code, Some(xs[0].orderId.value));
    }
  }

  // ---------- a silent day ----------

  /** A later sighting of an order agrees with an earlier one. */
  ghost predicate OrderFollows(o: Order, o': Order) {
    && SameIdentity(o, o') && o.filled <= o'.filled
    && (o.exchangeOrderId.Some? ==> o'.exchangeOrderId == o.exchangeOrderId)
    && (Terminal(o.status) ==> SameEnd(o, o'))
  }

  /** Everything capture d shows is still in capture c, and has only moved forward. */
  ghost predicate Follows(d: Capture, c: Capture) {
    && (forall o | o in d.orders :: exists o' :: o' in c.orders && o'.orderId == o.orderId && OrderFollows(o, o'))
    && (forall t | t in d.trades :: t in c.trades)
  }

  /** No capture of the day contradicts the stable captures before it. */
  ghost predicate SilentDay(day: seq<Capture>) {
    forall j | 0 <= j < |day| :: Contradictions(day[..j], day[j]) == []
  }

  lemma PrefixUnique(day: seq<Capture>, j: nat)
    requires UniqueRows(day) && j <= |day|
    ensures UniqueRows(day[..j])
  {
    assert forall c | c in day[..j] :: c in day;
  }

  lemma SilentAt(day: seq<Capture>, j: nat, code: TemporalCode, id: Text)
    requires UniqueRows(day) && SilentDay(day) && j < |day|
    ensures !Contradicts(day[..j], day[j], code, id)
  {
    hide Contradicts, Contradictions;
    PrefixUnique(day, j);
    SilentMeans(day[..j], day[j]);
  }

  /** On a silent day an order agrees, at any later capture, with its first occurrence of each kind. */
  lemma AgreesWithFirst(day: seq<Capture>, p: Order -> bool, k: nat, f: Order, i: nat, o: Order)
    requires UniqueRows(day) && SilentDay(day)
    requires First(day, p, k, f) && k <= i < |day| && o in day[i].orders && o.orderId == f.orderId
    ensures p == Named(f.orderId) ==> SameIdentity(f, o)
    ensures p == NamedNumbered(f.orderId) ==> o.exchangeOrderId == f.exchangeOrderId
    ensures p == NamedTerminal(f.orderId) ==> SameEnd(f, o)
  {
    hide SilentDay, NoneIn, SameIdentity, SameEnd;
    if k == i {
      assert day[i] in day;
      FindOrderExact(day[i].orders, o.orderId);
      SelfAgrees(o);
    } else {
      assert day[..i][..k] == day[..k];
      assert First(day[..i], p, k, f);
      SilentAt(day, i, OrderIdentityChanged, o.orderId);
      SilentAt(day, i, ExchangeOrderIdentityChanged, o.orderId);
      SilentAt(day, i, TerminalOrderChanged, o.orderId);
    }
  }

  lemma SelfAgrees(o: Order)
    ensures SameIdentity(o, o) && SameEnd(o, o)
  {
  }

  lemma StillThere(day: seq<Capture>, i: nat, j: nat, o: Order) returns (o': Order)
    requires UniqueRows(day) && SilentDay(day) && i < j < |day| && o in day[i].orders
    ensures o' in day[j].orders && o'.orderId == o.orderId && o.filled <= o'.filled
  {
    hide SilentDay;
    SilentAt(day, j, PreviouslyObservedOrderMissing, o.orderId);
    assert day[i] in day[..j];
    assert !NoneIn(day[..j], Named(o.orderId)) by { assert Named(o.orderId)(o); }
    o' :| o' in day[j].orders && o'.orderId == o.orderId;
    SilentAt(day, j, FilledQuantityRegressed, o.orderId);
  }

  lemma OrderMovesForward(day: seq<Capture>, i: nat, j: nat, o: Order)
    requires UniqueRows(day) && SilentDay(day) && i < j < |day| && o in day[i].orders
    ensures exists o' :: o' in day[j].orders && o'.orderId == o.orderId && OrderFollows(o, o')
  {
    hide SilentDay, First, UniqueRows;
    var id := o.orderId;
    var o' := StillThere(day, i, j, o);
    var k: nat, f := FirstBy(day, Named(id), i, o);
    AgreesWithFirst(day, Named(id), k, f, i, o);
    AgreesWithFirst(day, Named(id), k, f, j, o');
    if o.exchangeOrderId.Some? {
      k, f := FirstBy(day, NamedNumbered(id), i, o);
      AgreesWithFirst(day, NamedNumbered(id), k, f, i, o);
      AgreesWithFirst(day, NamedNumbered(id), k, f, j, o');
    }
    if Terminal(o.status) {
      k, f := FirstBy(day, NamedTerminal(id), i, o);
      AgreesWithFirst(day, NamedTerminal(id), k, f, i, o);
      AgreesWithFirst(day, NamedTerminal(id), k, f, j, o');
    }
  }

  lemma FirstBy(day: seq<Capture>, p: Order -> bool, i: nat, o: Order) returns (k: nat, f: Order)
    requires i < |day| && o in day[i].orders && p(o)
    ensures k <= i && First(day, p, k, f) && p(f)
  {
    FirstExists(day, p, i, o);
    k, f :| k <= i && First(day, p, k, f);
  }

  lemma ExecutionStays(day: seq<Capture>, i: nat, j: nat, t: Trade)
    requires UniqueRows(day) && SilentDay(day) && i < j < |day| && t in day[i].trades
    ensures t in day[j].trades
  {
    hide SilentDay, NoneExecuted;
    FirstExecutedExists(day, i, t);
    var k: nat, f :| k <= i && FirstExecuted(day, k, f) && KeyOf(f) == KeyOf(t);
    ExecutionUnchanged(day, k, f, i, t);
    assert day[..j][..k] == day[..k];
    assert FirstExecuted(day[..j], k, f);
    SilentAt(day, j, PreviouslyObservedTradeMissing, f.orderId);
    var u :| u in day[j].trades && KeyOf(u) == KeyOf(f);
    ExecutionUnchanged(day, k, f, j, u);
  }

  lemma ExecutionUnchanged(day: seq<Capture>, k: nat, f: Trade, i: nat, t: Trade)
    requires UniqueRows(day) && SilentDay(day)
    requires FirstExecuted(day, k, f) && k <= i < |day| && t in day[i].trades && KeyOf(t) == KeyOf(f)
    ensures t == f
  {
    hide SilentDay, NoneExecuted;
    if k == i {
      assert day[i] in day;
      FindTradeExact(day[i].trades, KeyOf(t));
    } else {
      assert day[..i][..k] == day[..k];
      assert FirstExecuted(day[..i], k, f);
      SilentAt(day, i, PreviousExecutionChanged, t.orderId);
    }
  }

  /** A capture that follows every earlier one raises nothing. */
  lemma FollowingIsSilent(past: seq<Capture>, c: Capture)
    requires UniqueRows(past) && UniqueOrders(c.orders) && UniqueTrades(c.trades)
    requires forall d | d in past :: Follows(d, c)
    ensures Contradictions(past, c) == []
  {
    hide Contradictions;
    forall code, id ensures !Contradicts(past, c, code, id) {
      FollowingContradictsNothing(past, c, code, id);
    }
    SilentMeans(past, c);
  }

  lemma FollowedOrder(past: seq<Capture>, c: Capture, d: Capture, f: Order, o: Order)
    requires UniqueOrders(c.orders) && d in past && Follows(d, c)
    requires f in d.orders && o in c.orders && o.orderId == f.orderId
    ensures OrderFollows(f, o)
  {
    var o' :| o' in c.orders && o'.orderId == f.orderId && OrderFollows(f, o');
    FindOrderExact(c.orders, o.orderId);
  }

  lemma FollowingContradictsNothing(past: seq<Capture>, c: Capture, code: TemporalCode, id: Text)
    requires UniqueOrders(c.orders) && UniqueTrades(c.trades)
    requires forall d | d in past :: Follows(d, c)
    ensures !Contradicts(past, c, code, id)
  {
    if code.PreviouslyObservedOrderMissing? || code.PreviouslyObservedTradeMissing? || code.PreviousExecutionChanged? {
      FollowingMissesNothing(past, c, code, id);
    } else if code.OrderIdentityChanged? {
      FollowingFirst(past, c, Named(id));
    } else if code.ExchangeOrderIdentityChanged? {
      FollowingFirst(past, c, NamedNumbered(id));
    } else if code.TerminalOrderChanged? {
      FollowingFirst(past, c, NamedTerminal(id));
    } else {
      hide UniqueOrders, Follows;
      forall d, f, o | d in past && f in d.orders && o in c.orders && o.orderId == f.orderId
        ensures f.filled <= o.filled
      {
        FollowedOrder(past, c, d, f, o);
      }
    }
  }

  /** A capture that follows all of them follows the first order with any property. */
  lemma FollowingFirst(past: seq<Capture>, c: Capture, p: Order -> bool)
    requires UniqueOrders(c.orders) && forall d | d in past :: Follows(d, c)
    ensures forall k: nat, f, o | First(past, p, k, f) && o in c.orders && o.orderId == f.orderId ::
              p(f) && OrderFollows(f, o)
  {
    hide UniqueOrders, OrderFollows, Follows, NoneIn;
    forall k: nat, f, o | First(past, p, k, f) && o in c.orders && o.orderId == f.orderId
      ensures p(f) && OrderFollows(f, o)
    {
      FollowedOrder(past, c, past[k], f, o);
    }
  }

  lemma FollowingMissesNothing(past: seq<Capture>, c: Capture, code: TemporalCode, id: Text)
    requires UniqueTrades(c.trades)
    requires forall d | d in past :: Follows(d, c)
    requires code in {PreviouslyObservedOrderMissing, PreviouslyObservedTradeMissing, PreviousExecutionChanged}
    ensures !Contradicts(past, c, code, id)
  {
    hide UniqueTrades, OrderFollows;
    forall d, f, t | d in past && f in d.trades && t in c.trades && KeyOf(t) == KeyOf(f)
      ensures t == f
    {
      assert Follows(d, c);
      FindTradeExact(c.trades, KeyOf(t));
    }
    assert forall k | 0 <= k < |past| :: past[k] in past;
  }

  /** A day raises no temporal finding exactly when every stable capture of it follows every earlier
      one: order and execution sets only grow, filled quantities never fall, identities, executions
      and known exchange ids never change, and an ended order keeps its end. */
  lemma SilentDayExact(day: seq<Capture>)
    requires UniqueRows(day)
    ensures SilentDay(day) <==> forall i, j | 0 <= i < j < |day| :: Follows(day[i], day[j])
  {
    hide UniqueRows, OrderFollows;
    if SilentDay(day) {
      forall i, j | 0 <= i < j < |day| ensures Follows(day[i], day[j]) {
        forall o | o in day[i].orders
          ensures exists o' :: o' in day[j].orders && o'.orderId == o.orderId && OrderFollows(o, o')
        {
          OrderMovesForward(day, i, j, o);
        }
        forall t | t in day[i].trades ensures t in day[j].trades {
          ExecutionStays(day, i, j, t);
        }
      }
    }
    if forall i, j | 0 <= i < j < |day| :: Follows(day[i], day[j]) {
      forall j | 0 <= j < |day| ensures Contradictions(day[..j], day[j]) == [] {
        PrefixUnique(day, j);
        RowsAt(day, j);
        FollowingIsSilent(day[..j], day[j]);
      }
    }
  }

  lemma RowsAt(day: seq<Capture>, j: nat)
    requires UniqueRows(day) && j < |day|
    ensures UniqueOrders(day[j].orders) && UniqueTrades(day[j].trades)
  {
    assert day[j] in day;
  }

  /** Position n belongs to the captures of the given day at the end of the run. */
  ghost predicate InDay(run: seq<Observed>, day: int, n: nat) {
    n < |run| && forall k | n <= k < |run| :: DayOf(run[k]) == day
  }

  lemma InDayStep(run: seq<Observed>, day: int, n: nat)
    requires run != []
    ensures InDay(run, day, n) <==>
      DayOf(run[|run| - 1]) == day && (n == |run| - 1 || InDay(run[..|run| - 1], day, n))
  {
    var m := |run| - 1;
    if InDay(run, day, n) && n < m {
      assert forall k | n <= k < m :: run[..m][k] == run[k];
    }
    if DayOf(run[m]) == day && InDay(run[..m], day, n) {
      assert forall k | n <= k < m :: run[k] == run[..m][k];
    }
  }

  lemma SilentDayStep(day: seq<Capture>, c: Capture)
    ensures SilentDay(day + [c]) <==> SilentDay(day) && Contradictions(day, c) == []
  {
    hide Contradictions;
    var longer := day + [c];
    assert longer[..|day|] == day;
    assert forall j | 0 <= j < |day| :: longer[..j] == day[..j];
    if SilentDay(longer) {
      assert Contradictions(longer[..|day|], longer[|day|]) == [];
      assert forall j | 0 <= j < |day| :: longer[j] == day[j];
    }
  }

  lemma {:induction false} SilentDayByPosition(run: seq<Observed>, day: int)
    ensures SilentDay(DayStable(run, day)) <==>
      forall n: nat | InDay(run, day, n) && run[n].status != Changing ::
        Contradictions(DayStable(run[..n], day), run[n].capture) == []
    decreases |run|
  {
    hide Contradictions, SilentDay, InDay;
    NothingIsSilent();
    forall n: nat | InDay(run, day, n) ensures n < |run| && DayOf(run[|run| - 1]) == day {
      InDayBounds(run, day, n);
    }
    if run != [] && DayOf(run[|run| - 1]) == day {
      var m := |run| - 1;
      var rest, x := run[..m], run[m];
      SilentDayByPosition(rest, day);
      SilentDayStep(DayStable(rest, day), x.capture);
      forall n: nat ensures InDay(run, day, n) <==> n == m || InDay(rest, day, n) {
        InDayStep(run, day, n);
      }
      forall n: nat | InDay(rest, day, n) ensures n < m && rest[n] == run[n] && rest[..n] == run[..n] {
        InDayBounds(rest, day, n);
      }
    }
  }

  lemma InDayBounds(run: seq<Observed>, day: int, n: nat)
    requires InDay(run, day, n)
    ensures n < |run| && DayOf(run[|run| - 1]) == day
  {
  }

  lemma NothingIsSilent()
    ensures SilentDay([])
  {
  }

  /** The report on capture n counts no finding but, at most, the one about the day before. */
  ghost predicate QuietAt(run: seq<Observed>, n: nat)
    requires n < |run|
  {
    Report(run[..n], run[n]).issueCount == |BoundaryFindings(run[..n], run[n])|
  }

  lemma QuietExact(run: seq<Observed>, day: int, n: nat)
    requires InDay(run, day, n)
    ensures QuietAt(run, n)
       <==> run[n].status == Changing || Contradictions(DayStable(run[..n], day), run[n].capture) == []
  {
    hide Contradictions, DayStable, Changes, BoundaryFindings;
  }

  ghost predicate UniqueRun(run: seq<Observed>) {
    forall x | x in run :: UniqueOrders(x.capture.orders) && UniqueTrades(x.capture.trades)
  }

  lemma {:induction false} StableFromRun(run: seq<Observed>, day: int)
    requires UniqueRun(run)
    ensures UniqueRows(DayStable(run, day))
    decreases |run|
  {
    hide UniqueOrders, UniqueTrades;
    if run != [] {
      var n := |run| - 1;
      assert run == run[..n] + [run[n]];
      StableFromRun(run[..n], day);
    }
  }

  /** Over a whole run: the reports on the captures of the latest day are all quiet exactly when each of its
      stable captures follows every earlier one. */
  lemma QuietReportsExact(run: seq<Observed>, day: int)
    requires UniqueRun(run)
    ensures (forall n: nat | InDay(run, day, n) :: QuietAt(run, n))
       <==> var stable := DayStable(run, day);
            forall i, j | 0 <= i < j < |stable| :: Follows(stable[i], stable[j])
  {
    hide Contradictions, QuietAt, Follows, DayStable, SilentDay;
    StableFromRun(run, day);
    SilentDayExact(DayStable(run, day));
    SilentDayByPosition(run, day);
    forall n: nat | InDay(run, day, n)
      ensures QuietAt(run, n)
         <==> run[n].status == Changing || Contradictions(DayStable(run[..n], day), run[n].capture) == []
    {
      QuietExact(run, day, n);
    }
  }

  // ---------- changing captures ----------

  lemma {:induction false} ChangingDropsOut(run: seq<Observed>, x: Observed, later: seq<Observed>, day: int)
    requires run != [] && x.status == Changing && DayOf(x) == DayOf(run[|run| - 1])
    ensures DayStable(run + [x] + later, day) == DayStable(run + later, day)
    ensures CurrentDay(run + [x] + later) == CurrentDay(run + later)
    decreases |later|
  {
    if later == [] {
      assert run + [x] + [] == run + [x] && run + [] == run;
      assert (run + [x])[..|run|] == run;
    } else {
      var n := |later| - 1;
      assert (run + [x] + later)[..|run| + 1 + n] == run + [x] + later[..n];
      assert (run + later)[..|run| + n] == run + later[..n];
      ChangingDropsOut(run, x, later[..n], day);
    }
  }

  /** A capture that was changing while it was read, taken on a day already begun, leaves every later
      report as if it had not been taken: same findings, changes, status, boundary and leftovers. */
  lemma ChangingLeavesNoTrace(run: seq<Observed>, x: Observed, later: seq<Observed>, y: Observed)
    requires run != [] && x.status == Changing && DayOf(x) == DayOf(run[|run| - 1])
    ensures Report(run + [x] + later, y).(gapSeconds := None) == Report(run + later, y).(gapSeconds := None)
    ensures later != [] ==> Report(run + [x] + later, y) == Report(run + later, y)
  {
    hide Contradictions, Changes, Unresolved, DayStable, Cap;
    var long, short := run + [x] + later, run + later;
    ChangingDropsOut(run, x, later, DayOf(y));
    ChangingDropsOut(run, x, later, DayOf(short[|short| - 1]));
    assert later != [] ==> long[|long| - 1] == short[|short| - 1];
  }
}
