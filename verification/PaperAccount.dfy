/** The checks a recorded paper account passes before anything is computed from it: its fills in time order
    with distinct orders and covered sales, its charges each against one of those orders, and its cash balance
    reconciled with both. */
module PaperAccount {
  import opened Prelude
  import opened AccountBenchmark

  datatype Side = Buy | Sell | Unreadable

  /** A stored row of the paper ledger. An amount or a time that cannot be read is None; `zoned` tells whether
      the time names its offset, `inScope` whether tenant, status, market, asset class, symbol and row number
      are acceptable. */
  datatype Entry = Entry(orderId: string, instrument: Instrument, at: Option<int>, zoned: bool, side: Side,
                         quantity: int, price: Option<real>, notional: Option<real>, inScope: bool)

  /** A stored row of the cost ledger. */
  datatype Charge = Charge(orderId: string, code: string, cashDebit: int, amount: Option<real>, at: Option<int>,
                           inTenant: bool)

  const MAX_ENTRIES: nat := 20000
  const MAX_CHARGES: nat := 200000
  const MAX_INSTRUMENTS: nat := 1000

  // ---------- rows as the replay reads them ----------

  /** The date and the time of day, in milliseconds, at UTC+05:30. */
  function DateAt(ms: int): int {
    (ms + 19_800_000) / 86_400_000
  }

  function TimeAt(ms: int): int {
    (ms + 19_800_000) % 86_400_000
  }

  const OPENS := 33_300_000
  const CLOSES := 55_800_000

  function Known<T>(value: Option<T>, otherwise: T): T {
    if value.Some? then value.value else otherwise
  }

  function FillOf(e: Entry): Fill {
    var at := Known(e.at, 0);
    Fill(e.orderId, e.instrument, DateAt(at), OPENS <= TimeAt(at) < CLOSES, e.side.Buy?, e.quantity,
         Known(e.notional, 0.0))
  }

  function Fills(entries: seq<Entry>): (fills: seq<Fill>)
    ensures |fills| == |entries|
    ensures forall i | 0 <= i < |fills| :: fills[i] == FillOf(entries[i])
  {
    seq(|entries|, i requires 0 <= i < |entries| => FillOf(entries[i]))
  }

  /** A row's local date and clock, 5:30 ahead of UTC: it is in session from 9:15 until before 15:30. */
  lemma FillClock(e: Entry, day: int, hour: nat, minute: nat, rest: nat)
    requires hour < 24 && minute < 60 && rest < 60_000
    requires e.at == Some(((day * 24 + hour) * 60 + minute) * 60_000 + rest - (5 * 60 + 30) * 60_000)
    ensures var f := FillOf(e);
      && f.day == day && (f.inSession <==> 9 * 60 + 15 <= hour * 60 + minute < 15 * 60 + 30)
  {
  }

  function CostOf(c: Charge): Cost {
    Cost(c.orderId, c.cashDebit == 1, Known(c.amount, 0.0))
  }

  function Costs(charges: seq<Charge>): (costs: seq<Cost>)
    ensures |costs| == |charges|
    ensures forall i | 0 <= i < |costs| :: costs[i] == CostOf(charges[i])
  {
    seq(|charges|, i requires 0 <= i < |charges| => CostOf(charges[i]))
  }

  // ---------- what is accepted ----------

  function Largest(a: real, b: real): real {
    if a < b then b else a
  }

  /** 1e-8 plus 32 units in the last place of a double, relative to the larger amount. */
  function Tolerance(a: real, b: real): real {
    0.00000001 + Largest(1.0, Largest(Abs(a), Abs(b))) / 140_737_488_355_328.0
  }

  predicate Same(a: real, b: real) {
    Abs(a - b) <= Tolerance(a, b)
  }

  function SignedNotional(fills: seq<Fill>): real {
    if fills == [] then 0.0
    else
      var last := fills[|fills| - 1];
      SignedNotional(fills[..|fills| - 1]) + if last.buy then last.notional else -last.notional
  }

  /** All recorded cash charges. */
  function CashCharges(costs: seq<Cost>): real {
    if costs == [] then 0.0
    else
      var last := costs[|costs| - 1];
      CashCharges(costs[..|costs| - 1]) + if last.cashDebit then last.amount else 0.0
  }

  predicate SoundEntry(e: Entry, asOf: int) {
    && e.inScope && e.orderId != "" && 0 < e.quantity <= MAX_SAFE_INTEGER && !e.side.Unreadable?
    && e.price.Some? && e.price.value > 0.0 && e.notional.Some?
    && Same(e.notional.value, Times(e.price.value, e.quantity as real))
    && e.at.Some? && e.at.value <= asOf
  }

  /** Row i is sound by itself, names an order of its own, is no earlier than the row before it, and sells no more
      than the rows before it hold. */
  ghost predicate AcceptedEntry(entries: seq<Entry>, i: nat, asOf: int)
    requires i < |entries|
  {
    var e := entries[i];
    && SoundEntry(e, asOf)
    && (forall j | 0 <= j < i :: entries[j].orderId != e.orderId)
    && (i > 0 && entries[i - 1].at.Some? ==> entries[i - 1].at.value <= e.at.value)
    && (e.side.Sell? ==> e.quantity <= Position(Fills(entries[..i]), e.instrument))
  }

  ghost predicate AcceptedEntries(entries: seq<Entry>, n: nat, asOf: int)
    requires n <= |entries|
  {
    forall i | 0 <= i < n :: AcceptedEntry(entries, i, asOf)
  }

  ghost predicate OrderAt(entries: seq<Entry>, order: string, at: Option<int>) {
    exists e :: e in entries && e.orderId == order && e.at == at
  }

  predicate SoundCharge(c: Charge) {
    && c.inTenant && c.code != "" && c.amount.Some? && c.amount.value >= 0.0
    && (c.cashDebit == 0 || c.cashDebit == 1)
    && (c.cashDebit == 1 ==> c.code != "SPREAD" && c.code != "SLIPPAGE")
  }

  /** Charge j is sound by itself, is dated as an order of the ledger, and is the only one of its code for it. */
  ghost predicate AcceptedCharge(entries: seq<Entry>, charges: seq<Charge>, j: nat)
    requires j < |charges|
  {
    var c := charges[j];
    && SoundCharge(c) && OrderAt(entries, c.orderId, c.at)
    && forall k | 0 <= k < j :: charges[k].orderId != c.orderId || charges[k].code != c.code
  }

  ghost predicate AcceptedCharges(entries: seq<Entry>, charges: seq<Charge>, n: nat)
    requires n <= |charges|
  {
    forall j | 0 <= j < n :: AcceptedCharge(entries, charges, j)
  }

  ghost predicate AcceptedLedger(entries: seq<Entry>, charges: seq<Charge>, start: real, cash: real, asOf: int) {
    && AcceptedEntries(entries, |entries|, asOf) && AcceptedCharges(entries, charges, |charges|)
    && Same(cash, start - SignedNotional(Fills(entries)) - CashCharges(Costs(charges)))
  }

  // ---------- average cost ----------

  /** What is held of an instrument, at which average cost, and what its sales have realised. */
  datatype Book = Book(quantity: int, average: real, realized: real)

  const NO_BOOK := Book(0, 0.0, 0.0)

  function BookCost(b: Book): real {
    Times(b.quantity as real, b.average)
  }

  function Trade(b: Book, e: Entry): Book {
    if e.side.Buy? then
      var q := b.quantity + e.quantity;
      Book(q, if q == 0 then 0.0 else (BookCost(b) + Known(e.notional, 0.0)) / q as real, b.realized)
    else
      var q := b.quantity - e.quantity;
      Book(q, if q == 0 then 0.0 else b.average,
           b.realized + Times(Known(e.price, 0.0) - b.average, e.quantity as real))
  }

  /** The book of one instrument after these rows. */
  function BookOf(entries: seq<Entry>, k: Instrument): Book {
    if entries == [] then NO_BOOK
    else
      var n := |entries| - 1;
      var b := BookOf(entries[..n], k);
      if entries[n].instrument == k then Trade(b, entries[n]) else b
  }

  lemma BookStep(entries: seq<Entry>, e: Entry, k: Instrument)
    ensures BookOf(entries + [e], k)
         == if e.instrument == k then Trade(BookOf(entries, k), e) else BookOf(entries, k)
  {
    hide Trade;
    assert (entries + [e])[..|entries|] == entries;
  }

  /** A book holds the position of its fills. */
  lemma {:induction false} BookQuantity(entries: seq<Entry>, k: Instrument)
    ensures BookOf(entries, k).quantity == Position(Fills(entries), k)
    decreases |entries|
  {
    hide Times;
    if entries != [] {
      var n := |entries| - 1;
      BookQuantity(entries[..n], k);
      var fills := Fills(entries);
      assert fills[..n] == Fills(entries[..n]) && fills[n] == FillOf(entries[n]);
    }
  }

  // ---------- the loop over fills ----------

  lemma FillsStep(entries: seq<Entry>, n: nat)
    requires n < |entries|
    ensures Fills(entries[..n + 1]) == Fills(entries[..n]) + [FillOf(entries[n])]
    ensures SignedNotional(Fills(entries[..n + 1]))
         == SignedNotional(Fills(entries[..n])) + if entries[n].side.Buy? then Known(entries[n].notional, 0.0)
                                                  else -Known(entries[n].notional, 0.0)
  {
    var longer := Fills(entries[..n + 1]);
    assert longer == Fills(entries[..n]) + [FillOf(entries[n])];
    assert longer[..n] == Fills(entries[..n]);
  }

  /** What the loop remembers of the rows it has passed. */
  ghost predicate Passing(entries: seq<Entry>, n: nat, orders: map<string, int>, books: map<Instrument, Book>,
                          previous: Option<int>, expected: real, start: real)
    requires n <= |entries|
  {
    && Dated(entries[..n], orders) && Booked(books, entries[..n])
    && previous == (if n == 0 then None else entries[n - 1].at)
    && expected == start - SignedNotional(Fills(entries[..n]))
  }

  /** The map holds the book of each instrument of these rows. */
  ghost predicate Booked(books: map<Instrument, Book>, entries: seq<Entry>) {
    && books.Keys == Instruments(Fills(entries))
    && forall k :: BookIn(books, k) == BookOf(entries, k)
  }

  function BookIn(books: map<Instrument, Book>, k: Instrument): Book {
    if k in books then books[k] else NO_BOOK
  }

  lemma BookedStep(books: map<Instrument, Book>, entries: seq<Entry>, e: Entry)
    requires Booked(books, entries)
    ensures Booked(books[e.instrument := Trade(BookIn(books, e.instrument), e)], entries + [e])
  {
    hide Trade, BookOf;
    var next := books[e.instrument := Trade(BookIn(books, e.instrument), e)];
    assert Fills(entries + [e]) == Fills(entries) + [FillOf(e)];
    InstrumentsStep(Fills(entries), FillOf(e));
    forall k ensures BookIn(next, k) == BookOf(entries + [e], k) {
      BookStep(entries, e, k);
      assert BookIn(books, k) == BookOf(entries, k);
    }
  }

  /** The map holds each order of these rows with its time. */
  ghost predicate Dated(entries: seq<Entry>, orders: map<string, int>) {
    && (forall e | e in entries :: e.orderId in orders && e.at == Some(orders[e.orderId]))
    && (forall order | order in orders :: OrderAt(entries, order, Some(orders[order])))
  }

  lemma DatedStep(entries: seq<Entry>, e: Entry, orders: map<string, int>)
    requires Dated(entries, orders) && e.orderId !in orders && e.at.Some?
    ensures Dated(entries + [e], orders[e.orderId := e.at.value])
  {
    var longer, next := entries + [e], orders[e.orderId := e.at.value];
    forall order | order in next ensures OrderAt(longer, order, Some(next[order])) {
      if order == e.orderId {
        assert e in longer;
      } else {
        var x :| x in entries && x.orderId == order && x.at == Some(orders[order]);
        assert x in longer;
      }
    }
  }

  lemma PassingStep(entries: seq<Entry>, n: nat, orders: map<string, int>, books: map<Instrument, Book>,
                    previous: Option<int>, expected: real, start: real)
    requires n < |entries| && Passing(entries, n, orders, books, previous, expected, start)
    requires entries[n].orderId !in orders && entries[n].at.Some? && entries[n].notional.Some?
    ensures var e := entries[n];
      Passing(entries, n + 1, orders[e.orderId := e.at.value],
              books[e.instrument := Trade(BookIn(books, e.instrument), e)], e.at,
              if e.side.Buy? then expected - e.notional.value else expected + e.notional.value, start)
  {
    hide Booked, Dated, SignedNotional, Trade;
    assert entries[..n + 1] == entries[..n] + [entries[n]];
    FillsStep(entries, n);
    BookedStep(books, entries[..n], entries[n]);
    DatedStep(entries[..n], entries[n], orders);
  }

  lemma NewOrder(entries: seq<Entry>, n: nat, orders: map<string, int>)
    requires n < |entries| && Dated(entries[..n], orders)
    ensures entries[n].orderId !in orders <==> forall j | 0 <= j < n :: entries[j].orderId != entries[n].orderId
  {
    if entries[n].orderId in orders {
      var e :| e in entries[..n] && e.orderId == entries[n].orderId && e.at == Some(orders[entries[n].orderId]);
    }
    forall j | 0 <= j < n ensures entries[j].orderId in orders {
      assert entries[j] in entries[..n];
    }
  }

  lemma HeldIsPosition(books: map<Instrument, Book>, entries: seq<Entry>, k: Instrument)
    requires Booked(books, entries)
    ensures BookIn(books, k).quantity == Position(Fills(entries), k)
  {
    hide BookOf, Position, Instruments;
    BookQuantity(entries, k);
    assert BookIn(books, k) == BookOf(entries, k);
  }

  /** The loop's test of row n is its acceptance. */
  lemma EntryTest(entries: seq<Entry>, n: nat, asOf: int, orders: map<string, int>, books: map<Instrument, Book>,
                  previous: Option<int>, expected: real, start: real)
    requires n < |entries| && Passing(entries, n, orders, books, previous, expected, start)
    requires AcceptedEntries(entries, n, asOf)
    ensures AcceptedEntry(entries, n, asOf) <==>
      && SoundEntry(entries[n], asOf) && entries[n].orderId !in orders
      && (previous.Some? ==> previous.value <= entries[n].at.value)
      && (entries[n].side.Sell? ==> entries[n].quantity <= BookIn(books, entries[n].instrument).quantity)
  {
    hide SoundEntry, Booked, Dated, SignedNotional, Position, Fills, BookIn;
    HeldIsPosition(books, entries[..n], entries[n].instrument);
    NewOrder(entries, n, orders);
    EntryReadable(entries[n], asOf);
  }

  method CheckFills(entries: seq<Entry>, asOf: int, start: real)
      returns (ok: bool, orders: map<string, int>, books: map<Instrument, Book>, expected: real)
    ensures ok <==> AcceptedEntries(entries, |entries|, asOf)
    ensures ok ==> Dated(entries, orders) && Booked(books, entries)
                   && expected == start - SignedNotional(Fills(entries))
  {
    hide AcceptedEntry, SoundEntry, Passing, Trade;
    var previous: Option<int> := None;
    orders, books, expected := map[], map[], start;
    NothingPassed(entries, start);
    for n := 0 to |entries|
      invariant AcceptedEntries(entries, n, asOf)
      invariant Passing(entries, n, orders, books, previous, expected, start)
    {
      var e := entries[n];
      EntryTest(entries, n, asOf, orders, books, previous, expected, start);
      EntryReadable(e, asOf);
      if !SoundEntry(e, asOf) || e.orderId in orders || (previous.Some? && e.at.value < previous.value)
         || (e.side.Sell? && e.quantity > BookIn(books, e.instrument).quantity) {
        return false, orders, books, expected;
      }
      PassingStep(entries, n, orders, books, previous, expected, start);
      previous, orders := e.at, orders[e.orderId := e.at.value];
      books := books[e.instrument := Trade(BookIn(books, e.instrument), e)];
      expected := if e.side.Buy? then expected - e.notional.value else expected + e.notional.value;
    }
    AllPassedIs(entries, orders, books, previous, expected, start);
    ok := true;
  }

  lemma EntryReadable(e: Entry, asOf: int)
    ensures SoundEntry(e, asOf) ==> e.at.Some? && e.notional.Some?
  {
  }

  lemma NothingPassed(entries: seq<Entry>, start: real)
    ensures Passing(entries, 0, map[], map[], None, start, start)
  {
  }

  lemma AllPassedIs(entries: seq<Entry>, orders: map<string, int>, books: map<Instrument, Book>,
                    previous: Option<int>, expected: real, start: real)
    requires Passing(entries, |entries|, orders, books, previous, expected, start)
    ensures Dated(entries, orders) && Booked(books, entries)
    ensures expected == start - SignedNotional(Fills(entries))
  {
    hide Dated, Booked, SignedNotional;
    assert entries[..|entries|] == entries;
  }

  // ---------- the loop over charges ----------

  lemma CostsStep(charges: seq<Charge>, n: nat)
    requires n < |charges|
    ensures CashCharges(Costs(charges[..n + 1]))
         == CashCharges(Costs(charges[..n])) + if charges[n].cashDebit == 1 then Known(charges[n].amount, 0.0) else 0.0
  {
    var longer := Costs(charges[..n + 1]);
    assert longer[..n] == Costs(charges[..n]);
  }

  lemma DatedOrder(entries: seq<Entry>, orders: map<string, int>, order: string, at: Option<int>)
    requires Dated(entries, orders)
    ensures OrderAt(entries, order, at) <==> order in orders && at == Some(orders[order])
  {
  }

  method CheckCharges(entries: seq<Entry>, charges: seq<Charge>, orders: map<string, int>, start: real)
      returns (ok: bool, expected: real)
    requires Dated(entries, orders)
    ensures ok <==> AcceptedCharges(entries, charges, |charges|)
    ensures ok ==> expected == start - CashCharges(Costs(charges))
  {
    hide Dated, SoundCharge, OrderAt, CashCharges;
    var codes: set<(string, string)> := {};
    expected := start;
    assert CashCharges(Costs(charges[..0])) == 0.0 by { NoCharges(); }
    for n := 0 to |charges|
      invariant AcceptedCharges(entries, charges, n)
      invariant codes == set k | 0 <= k < n :: (charges[k].orderId, charges[k].code)
      invariant expected == start - CashCharges(Costs(charges[..n]))
    {
      var c := charges[n];
      DatedOrder(entries, orders, c.orderId, c.at);
      if !SoundCharge(c) || c.orderId !in orders || c.at != Some(orders[c.orderId]) || (c.orderId, c.code) in codes {
        assert !AcceptedCharge(entries, charges, n);
        return false, expected;
      }
      assert AcceptedCharge(entries, charges, n);
      ChargeReadable(c);
      CostsStep(charges, n);
      codes := codes + {(c.orderId, c.code)};
      if c.cashDebit == 1 {
        expected := expected - c.amount.value;
      }
    }
    assert charges[..|charges|] == charges;
    ok := true;
  }

  lemma ChargeReadable(c: Charge)
    requires SoundCharge(c)
    ensures c.amount.Some?
  {
  }

  lemma NoCharges()
    ensures CashCharges([]) == 0.0 && Costs([]) == []
  {
  }

  // ---------- the account ----------

  /** Unavailable and Refused accounts carry no report. */
  datatype Standing = Unavailable | Refused | Accepted

  predicate Bounded(entries: seq<Entry>, charges: seq<Charge>) {
    |entries| <= MAX_ENTRIES && |charges| <= MAX_CHARGES
  }

  /** `stored`: an engine valuation and all four tables are there, within bounds; `matches`: the valuation belongs to
      this ledger, tenant and cash; `agrees`: positions, holdings and profit reconcile too. */
  ghost predicate Stands(standing: Standing, stored: bool, matches: bool, agrees: bool, entries: seq<Entry>,
                         charges: seq<Charge>, start: real, cash: real, asOf: int)
  {
    && (standing.Accepted? <==>
          && stored && Bounded(entries, charges) && matches && agrees
          && |Instruments(Fills(entries))| <= MAX_INSTRUMENTS
          && AcceptedLedger(entries, charges, start, cash, asOf))
    && (standing.Unavailable? <==>
          || !stored || !Bounded(entries, charges)
          || (matches && AcceptedEntries(entries, |entries|, asOf) && |Instruments(Fills(entries))| > MAX_INSTRUMENTS))
  }

  method AcceptAccount(stored: bool, matches: bool, agrees: bool, entries: seq<Entry>, charges: seq<Charge>,
                       start: real, cash: real, asOf: int) returns (standing: Standing)
    ensures Stands(standing, stored, matches, agrees, entries, charges, start, cash, asOf)
  {
    hide AcceptedEntries, AcceptedCharges, Same, Dated, SignedNotional, CashCharges, Instruments;
    if !stored || !Bounded(entries, charges) {
      return Unavailable;
    }
    if !matches {
      return Refused;
    }
    var ok, orders, books, afterFills := CheckFills(entries, asOf, start);
    if !ok {
      return Refused;
    }
    if |books| > MAX_INSTRUMENTS {
      return Unavailable;
    }
    var charged, expected := CheckCharges(entries, charges, orders, afterFills);
    standing := if charged && Same(cash, expected) && agrees then Accepted else Refused;
  }

  // ---------- what acceptance gives ----------

  ghost predicate DateOrdered(fills: seq<Fill>) {
    forall i, j | 0 <= i < j < |fills| :: fills[i].day <= fills[j].day
  }

  ghost predicate DistinctOrders(fills: seq<Fill>) {
    forall i, j | 0 <= i < j < |fills| :: fills[i].orderId != fills[j].orderId
  }

  ghost predicate NeverShort(fills: seq<Fill>) {
    forall n, k | 0 <= n <= |fills| :: Position(fills[..n], k) >= 0
  }

  lemma {:induction false} TimesAscend(entries: seq<Entry>, i: nat, j: nat, asOf: int)
    requires i <= j < |entries| && AcceptedEntries(entries, |entries|, asOf)
    ensures entries[i].at.Some? && entries[j].at.Some? && entries[i].at.value <= entries[j].at.value
    decreases j
  {
    hide Same, Position;
    assert AcceptedEntry(entries, j, asOf) && AcceptedEntry(entries, i, asOf);
    if i < j {
      TimesAscend(entries, i, j - 1, asOf);
    }
  }

  lemma DatesAscend(a: int, b: int)
    requires a <= b
    ensures DateAt(a) <= DateAt(b)
  {
  }

  lemma {:induction false} CoveredSales(entries: seq<Entry>, n: nat, k: Instrument, asOf: int)
    requires n <= |entries| && AcceptedEntries(entries, |entries|, asOf)
    ensures Position(Fills(entries[..n]), k) >= 0
    decreases n
  {
    if n > 0 {
      var e := entries[n - 1];
      CoveredSales(entries, n - 1, k, asOf);
      assert AcceptedEntry(entries, n - 1, asOf);
      assert entries[..n] == entries[..n - 1] + [e];
      FillsStep(entries, n - 1);
      hide Same, SignedNotional;
      var fills := Fills(entries[..n]);
      assert fills[..n - 1] == Fills(entries[..n - 1]) && fills[n - 1] == FillOf(e);
    }
  }

  /** The fills of an accepted account are in date order, each of an order of its own, and never go short. */
  lemma AcceptedFills(entries: seq<Entry>, asOf: int)
    requires AcceptedEntries(entries, |entries|, asOf)
    ensures DateOrdered(Fills(entries)) && DistinctOrders(Fills(entries)) && NeverShort(Fills(entries))
  {
    hide SoundEntry, Position;
    var fills := Fills(entries);
    forall i, j | 0 <= i < j < |fills| ensures fills[i].day <= fills[j].day && fills[i].orderId != fills[j].orderId {
      TimesAscend(entries, i, j, asOf);
      DatesAscend(entries[i].at.value, entries[j].at.value);
      assert AcceptedEntry(entries, j, asOf);
    }
    forall n, k | 0 <= n <= |fills| ensures Position(fills[..n], k) >= 0 {
      CoveredSales(entries, n, k, asOf);
      assert fills[..n] == Fills(entries[..n]);
    }
  }
}
