/** When each temporal finding is raised, said about the captures themselves: which earlier capture
    of the same day, and which order or execution in it, a later capture contradicts. */
module LifecycleFindings {
  import opened Prelude
  import opened BrokerRecords
  import opened BrokerCapture
  import opened LifecycleHistory
  import opened LifecycleMemory

  ghost predicate UniqueRows(past: seq<Capture>) {
    forall c | c in past :: UniqueOrders(c.orders) && UniqueTrades(c.trades)
  }

  // ---------- first occurrences ----------

  function Named(id: Text): Order -> bool {
    (o: Order) => o.orderId == id
  }

  function NamedTerminal(id: Text): Order -> bool {
    (o: Order) => o.orderId == id && Terminal(o.status)
  }

  function NamedNumbered(id: Text): Order -> bool {
    (o: Order) => o.orderId == id && o.exchangeOrderId.Some?
  }

  ghost predicate NoneIn(past: seq<Capture>, p: Order -> bool) {
    forall c, o | c in past && o in c.orders :: !p(o)
  }

  /** f is the first order of these captures with property p, and it is in capture k. */
  ghost predicate First(past: seq<Capture>, p: Order -> bool, k: nat, f: Order) {
    k < |past| && f in past[k].orders && p(f) && NoneIn(past[..k], p)
  }

  ghost predicate NoneExecuted(past: seq<Capture>, key: TradeKey) {
    forall c, t | c in past && t in c.trades :: KeyOf(t) != key
  }

  ghost predicate FirstExecuted(past: seq<Capture>, k: nat, f: Trade) {
    k < |past| && f in past[k].trades && NoneExecuted(past[..k], KeyOf(f))
  }

  lemma {:induction false} FirstExists(past: seq<Capture>, p: Order -> bool, i: nat, o: Order)
    requires i < |past| && o in past[i].orders && p(o)
    ensures exists k: nat, f :: k <= i && First(past, p, k, f)
    decreases i
  {
    if NoneIn(past[..i], p) {
      assert First(past, p, i, o);
    } else {
      var c, e :| c in past[..i] && e in c.orders && p(e);
      var j :| 0 <= j < i && past[j] == c;
      FirstExists(past, p, j, e);
    }
  }

  lemma {:induction false} FirstExecutedExists(past: seq<Capture>, i: nat, t: Trade)
    requires i < |past| && t in past[i].trades
    ensures exists k: nat, f :: k <= i && FirstExecuted(past, k, f) && KeyOf(f) == KeyOf(t)
    decreases i
  {
    if NoneExecuted(past[..i], KeyOf(t)) {
      assert FirstExecuted(past, i, t);
    } else {
      var c, e :| c in past[..i] && e in c.trades && KeyOf(e) == KeyOf(t);
      var j :| 0 <= j < i && past[j] == c;
      FirstExecutedExists(past, j, e);
    }
  }

  /** First occurrences survive when captures are added at the end, and are the only change. */
  lemma FirstExtends(past: seq<Capture>, last: Capture, p: Order -> bool, k: nat, f: Order)
    ensures First(past, p, k, f) ==> First(past + [last], p, k, f)
    ensures k == |past| && NoneIn(past, p) && f in last.orders && p(f) ==> First(past + [last], p, k, f)
    ensures NoneIn(past + [last], p) <==> NoneIn(past, p) && forall o | o in last.orders :: !p(o)
  {
    if k <= |past| {
      assert (past + [last])[..k] == past[..k];
    }
    assert past[..|past|] == past;
    assert last in past + [last];
    assert forall c :: c in past + [last] <==> c in past || c == last;
  }

  /** What a scan recalls of an order, in terms of first occurrences and bounds. */
  ghost predicate RecallMeans(past: seq<Capture>, id: Text, mem: OrderMemory) {
    && (mem.seen.None? <==> NoneIn(past, Named(id)))
    && (mem.seen.Some? ==> exists k: nat, f :: First(past, Named(id), k, f) && SameIdentity(mem.seen.value, f))
    && (mem.ended.None? <==> NoneIn(past, NamedTerminal(id)))
    && (mem.ended.Some? ==> exists k: nat :: First(past, NamedTerminal(id), k, mem.ended.value))
    && (mem.exchangeId.None? <==> NoneIn(past, NamedNumbered(id)))
    && (mem.exchangeId.Some? ==>
         exists k: nat, f :: First(past, NamedNumbered(id), k, f) && f.exchangeOrderId == mem.exchangeId)
  }

  ghost predicate LargestFilled(past: seq<Capture>, id: Text, largest: nat) {
    && (forall c, o | c in past && o in c.orders && o.orderId == id :: o.filled <= largest)
    && (largest > 0 ==> exists c, o :: c in past && o in c.orders && o.orderId == id && o.filled == largest)
  }

  lemma RecallLast(past: seq<Capture>, last: Capture, id: Text)
    ensures Recall(past + [last], id) == match FindOrder(last.orders, id)
                                         case None => Recall(past, id)
                                         case Some(o) => Sighted(Recall(past, id), o)
  {
    hide RecallSightings, Sighted;
    assert (past + [last])[..|past|] == past;
    var found := FindOrder(last.orders, id);
    if found.Some? {
      SightedOnce(Sightings(past, id), found.value);
    }
  }

  lemma UnseenMeans(past: seq<Capture>, last: Capture, id: Text, mem: OrderMemory)
    requires RecallMeans(past, id, mem)
    requires forall o | o in last.orders :: o.orderId != id
    ensures RecallMeans(past + [last], id, mem)
  {
    hide First, NoneIn;
    var o :| true;
    FirstExtends(past, last, Named(id), 0, o);
    FirstExtends(past, last, NamedTerminal(id), 0, o);
    FirstExtends(past, last, NamedNumbered(id), 0, o);
    if mem.seen.Some? {
      var k: nat, f :| First(past, Named(id), k, f) && SameIdentity(mem.seen.value, f);
      FirstExtends(past, last, Named(id), k, f);
    }
    if mem.ended.Some? {
      var k: nat :| First(past, NamedTerminal(id), k, mem.ended.value);
      FirstExtends(past, last, NamedTerminal(id), k, mem.ended.value);
    }
    if mem.exchangeId.Some? {
      var k: nat, f :| First(past, NamedNumbered(id), k, f) && f.exchangeOrderId == mem.exchangeId;
      FirstExtends(past, last, NamedNumbered(id), k, f);
    }
  }

  lemma SightedSeen(past: seq<Capture>, last: Capture, o: Order, mem: OrderMemory)
    requires RecallMeans(past, o.orderId, mem)
    requires o in last.orders
    ensures !NoneIn(past + [last], Named(o.orderId))
    ensures exists k: nat, f :: First(past + [last], Named(o.orderId), k, f)
                           && SameIdentity(Sighted(mem, o).seen.value, f)
  {
    var p := Named(o.orderId);
    FirstExtends(past, last, p, |past|, o);
    if mem.seen.Some? {
      var k: nat, f :| First(past, p, k, f) && SameIdentity(mem.seen.value, f);
      FirstExtends(past, last, p, k, f);
      assert First(past + [last], p, k, f) && SameIdentity(Sighted(mem, o).seen.value, f);
    } else {
      assert First(past + [last], p, |past|, o) && SameIdentity(Sighted(mem, o).seen.value, o);
    }
  }

  lemma SightedEnded(past: seq<Capture>, last: Capture, o: Order, mem: OrderMemory)
    requires RecallMeans(past, o.orderId, mem)
    requires o in last.orders && forall e | e in last.orders && e.orderId == o.orderId :: e == o
    ensures Sighted(mem, o).ended.None? <==> NoneIn(past + [last], NamedTerminal(o.orderId))
    ensures Sighted(mem, o).ended.Some? ==>
      exists k: nat :: First(past + [last], NamedTerminal(o.orderId), k, Sighted(mem, o).ended.value)
  {
    var p := NamedTerminal(o.orderId);
    FirstExtends(past, last, p, |past|, o);
    if mem.ended.Some? {
      var k: nat :| First(past, p, k, mem.ended.value);
      FirstExtends(past, last, p, k, mem.ended.value);
    }
  }

  lemma SightedNumbered(past: seq<Capture>, last: Capture, o: Order, mem: OrderMemory)
    requires RecallMeans(past, o.orderId, mem)
    requires o in last.orders && forall e | e in last.orders && e.orderId == o.orderId :: e == o
    ensures Sighted(mem, o).exchangeId.None? <==> NoneIn(past + [last], NamedNumbered(o.orderId))
    ensures Sighted(mem, o).exchangeId.Some? ==>
      exists k: nat, f :: First(past + [last], NamedNumbered(o.orderId), k, f)
                     && f.exchangeOrderId == Sighted(mem, o).exchangeId
  {
    var p := NamedNumbered(o.orderId);
    FirstExtends(past, last, p, |past|, o);
    if mem.exchangeId.Some? {
      var k: nat, f :| First(past, p, k, f) && f.exchangeOrderId == mem.exchangeId;
      FirstExtends(past, last, p, k, f);
    } else if o.exchangeOrderId.Some? {
      assert First(past + [last], p, |past|, o);
    }
  }

  lemma SightedMeans(past: seq<Capture>, last: Capture, o: Order, mem: OrderMemory)
    requires RecallMeans(past, o.orderId, mem)
    requires o in last.orders && forall e | e in last.orders && e.orderId == o.orderId :: e == o
    ensures RecallMeans(past + [last], o.orderId, Sighted(mem, o))
  {
    hide First, NoneIn, Sighted, SameIdentity;
    SightedSeen(past, last, o, mem);
    SightedEnded(past, last, o, mem);
    SightedNumbered(past, last, o, mem);
    SightedSome(mem, o);
  }

  /** The scan's memory of an order means what the first occurrences say. */
  lemma {:induction false} RecallExact(past: seq<Capture>, id: Text)
    requires UniqueRows(past)
    ensures RecallMeans(past, id, Recall(past, id))
    decreases |past|
  {
    if past != [] {
      hide RecallSightings, Sighted, RecallMeans;
      var n := |past| - 1;
      var before, last := past[..n], past[n];
      assert past == before + [last];
      assert last in past;
      assert UniqueRows(before);
      RecallExact(before, id);
      RecallLast(before, last, id);
      FindOrderExact(last.orders, id);
      var mem := Recall(before, id);
      match FindOrder(last.orders, id) {
        case None => UnseenMeans(before, last, id, mem);
        case Some(o) => SightedMeans(before, last, o, mem);
      }
    }
  }

  lemma SightedSome(mem: OrderMemory, o: Order)
    ensures Sighted(mem, o).seen.Some?
  {
  }

  lemma {:induction false} LargestExact(past: seq<Capture>, id: Text)
    requires UniqueRows(past)
    ensures LargestFilled(past, id, Recall(past, id).maxFilled)
    decreases |past|
  {
    if past != [] {
      hide RecallSightings;
      var n := |past| - 1;
      var before, last := past[..n], past[n];
      assert past == before + [last];
      assert last in past;
      assert forall c :: c in past <==> c in before || c == last;
      LargestExact(before, id);
      RecallLast(before, last, id);
      FindOrderExact(last.orders, id);
    }
  }

  lemma FirstTradeExtends(past: seq<Capture>, last: Capture, key: TradeKey)
    ensures NoneExecuted(past + [last], key)
       <==> NoneExecuted(past, key) && forall t | t in last.trades :: KeyOf(t) != key
    ensures forall k: nat, f :: FirstExecuted(past, k, f) ==> FirstExecuted(past + [last], k, f)
    ensures NoneExecuted(past, key) ==>
      forall f | f in last.trades && KeyOf(f) == key :: FirstExecuted(past + [last], |past|, f)
  {
    assert forall c :: c in past + [last] <==> c in past || c == last;
    forall k: nat, f | FirstExecuted(past, k, f)
      ensures FirstExecuted(past + [last], k, f)
    {
      assert (past + [last])[..k] == past[..k];
    }
    assert (past + [last])[..|past|] == past;
  }

  lemma {:induction false} FirstTradeExact(past: seq<Capture>, key: TradeKey)
    requires UniqueRows(past)
    ensures FirstTrade(past, key).None? <==> NoneExecuted(past, key)
    ensures FirstTrade(past, key).Some? ==>
      KeyOf(FirstTrade(past, key).value) == key && exists k: nat :: FirstExecuted(past, k, FirstTrade(past, key).value)
    decreases |past|
  {
    if past != [] {
      var n := |past| - 1;
      var before, last := past[..n], past[n];
      assert past == before + [last];
      assert last in past;
      assert forall c :: c in past <==> c in before || c == last;
      FirstTradeExact(before, key);
      FindTradeExact(last.trades, key);
      assert FirstTrade(past, key) == if FirstTrade(before, key).Some? then FirstTrade(before, key)
                                      else FindTrade(last.trades, key);
      FirstTradeExtends(before, last, key);
    }
  }
}
