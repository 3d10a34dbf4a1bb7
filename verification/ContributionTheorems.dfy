/** The contribution of an accepted paper account: realised and unrealised profit at average cost add up, instrument
    by instrument and over the account, to the change of its equity. */
module ContributionTheorems {
  import opened Prelude
  import opened AccountBenchmark
  import opened PaperAccount
  import opened AccountTheorems

  // ---------- one instrument ----------

  /** What a row adds to cost less realised profit: a purchase its notional, a sale minus its price times quantity. */
  function FlowOf(e: Entry): real {
    if e.side.Buy? then Known(e.notional, 0.0) else -Times(Known(e.price, 0.0), e.quantity as real)
  }

  function Flow(entries: seq<Entry>, k: Instrument): real {
    if entries == [] then 0.0
    else
      var n := |entries| - 1;
      Flow(entries[..n], k) + if entries[n].instrument == k then FlowOf(entries[n]) else 0.0
  }

  lemma BuyBalances(b: Book, e: Entry)
    requires e.side.Buy? && b.quantity >= 0 && e.quantity > 0
    ensures BookCost(Trade(b, e)) - Trade(b, e).realized == BookCost(b) - b.realized + FlowOf(e)
  {
    var q := (b.quantity + e.quantity) as real;
    Quotient(BookCost(b) + Known(e.notional, 0.0), q, Trade(b, e).average);
  }

  lemma Quotient(x: real, y: real, z: real)
    requires y != 0.0 && z == x / y
    ensures Times(y, z) == x
  {
  }

  lemma SellBalances(b: Book, e: Entry)
    requires e.side.Sell? && 0 < e.quantity <= b.quantity
    ensures BookCost(Trade(b, e)) - Trade(b, e).realized == BookCost(b) - b.realized + FlowOf(e)
  {
    var left := b.quantity - e.quantity;
    SaleSplits(b.quantity as real, e.quantity as real, left as real, b.average, Known(e.price, 0.0));
    if left == 0 {
      Nothing(Trade(b, e).average, b.average);
    }
  }

  lemma SaleSplits(held: real, sold: real, left: real, average: real, price: real)
    requires held == sold + left
    ensures Times(left, average) - Times(price - average, sold) == Times(held, average) - Times(price, sold)
  {
  }

  lemma Nothing(x: real, y: real)
    ensures Times(0.0, x) == 0.0 && Times(0.0, y) == 0.0
  {
  }

  /** The cost of what is held, less what sales have realised, is the flow of the instrument's rows. */
  lemma {:induction false} BookBalances(entries: seq<Entry>, n: nat, k: Instrument, asOf: int)
    requires n <= |entries| && AcceptedEntries(entries, |entries|, asOf)
    ensures var b := BookOf(entries[..n], k);
      b.quantity >= 0 && BookCost(b) - b.realized == Flow(entries[..n], k)
    decreases n
  {
    CoveredSales(entries, n, k, asOf);
    BookQuantity(entries[..n], k);
    hide Trade, Position, Same, Times, FlowOf;
    if n > 0 {
      var e := entries[n - 1];
      BookBalances(entries, n - 1, k, asOf);
      assert entries[..n][..n - 1] == entries[..n - 1];
      assert AcceptedEntry(entries, n - 1, asOf);
      BookQuantity(entries[..n - 1], k);
      if e.instrument == k {
        var b := BookOf(entries[..n - 1], k);
        if e.side.Buy? { BuyBalances(b, e); } else { SellBalances(b, e); }
      }
    } else {
      Nothing(0.0, 0.0);
    }
  }

  /** A purchase spreads its notional over all that is then held and realises nothing; a sale realises the price less
      the average on what is sold and leaves the average of the rest. */
  lemma TradeExact(b: Book, e: Entry)
    requires !e.side.Unreadable? && b.quantity >= 0 && e.quantity > 0
    ensures var after := Trade(b, e);
      && (e.side.Buy? ==>
            && after.quantity == b.quantity + e.quantity && after.realized == b.realized
            && BookCost(after) == BookCost(b) + Known(e.notional, 0.0))
      && (e.side.Sell? ==>
            && after.quantity == b.quantity - e.quantity
            && after.realized == b.realized + Times(Known(e.price, 0.0) - b.average, e.quantity as real)
            && (after.quantity != 0 ==> after.average == b.average))
  {
    if e.side.Buy? {
      Quotient(BookCost(b) + Known(e.notional, 0.0), (b.quantity + e.quantity) as real, Trade(b, e).average);
    }
    hide Times;
  }

  // ---------- over all instruments ----------

  function AllFlow(entries: seq<Entry>): real {
    if entries == [] then 0.0 else AllFlow(entries[..|entries| - 1]) + FlowOf(entries[|entries| - 1])
  }

  function TotalFlow(keys: seq<Instrument>, entries: seq<Entry>): real {
    if keys == [] then 0.0 else Flow(entries, keys[0]) + TotalFlow(keys[1..], entries)
  }

  lemma FlowStep(entries: seq<Entry>, e: Entry, k: Instrument)
    ensures Flow(entries + [e], k) == Flow(entries, k) + if e.instrument == k then FlowOf(e) else 0.0
  {
    assert (entries + [e])[..|entries|] == entries;
  }

  lemma {:induction false} TotalFlowStep(keys: seq<Instrument>, entries: seq<Entry>, e: Entry)
    requires Distinct(keys)
    ensures TotalFlow(keys, entries + [e])
         == TotalFlow(keys, entries) + if e.instrument in keys then FlowOf(e) else 0.0
    decreases |keys|
  {
    hide FlowOf, Flow;
    if keys != [] {
      TotalFlowStep(keys[1..], entries, e);
      FlowStep(entries, e, keys[0]);
      assert keys == [keys[0]] + keys[1..];
    }
  }

  lemma {:induction false} FlowByInstrument(keys: seq<Instrument>, entries: seq<Entry>)
    requires Distinct(keys) && forall e | e in entries :: e.instrument in keys
    ensures TotalFlow(keys, entries) == AllFlow(entries)
    decreases |entries|
  {
    hide FlowOf;
    if entries == [] {
      NoFlow(keys);
    } else {
      var n := |entries| - 1;
      assert entries == entries[..n] + [entries[n]];
      assert forall e | e in entries[..n] :: e in entries;
      FlowByInstrument(keys, entries[..n]);
      TotalFlowStep(keys, entries[..n], entries[n]);
    }
  }

  lemma {:induction false} NoFlow(keys: seq<Instrument>)
    ensures TotalFlow(keys, []) == 0.0
    decreases |keys|
  {
    if keys != [] {
      NoFlow(keys[1..]);
    }
  }

  // ---------- profit and value ----------

  /** The three figures of a row, at a mark price: sales against average cost, holdings against average cost, and
      holdings at the mark. */
  datatype Measure = Realised | Unrealised | Valued

  function Figure(m: Measure, b: Book, mark: real): real {
    match m
    case Realised => b.realized
    case Unrealised => Times(b.quantity as real, mark - b.average)
    case Valued => Times(b.quantity as real, mark)
  }

  function Total(m: Measure, keys: seq<Instrument>, entries: seq<Entry>, marks: Prices): real {
    if keys == [] then 0.0
    else Figure(m, BookOf(entries, keys[0]), marks(keys[0])) + Total(m, keys[1..], entries, marks)
  }

  lemma FiguresOf(b: Book, mark: real)
    ensures Figure(Valued, b, mark) - Figure(Unrealised, b, mark) == BookCost(b)
  {
  }

  lemma {:induction false} TotalsBalance(keys: seq<Instrument>, entries: seq<Entry>, marks: Prices, asOf: int)
    requires AcceptedEntries(entries, |entries|, asOf)
    ensures Total(Valued, keys, entries, marks) - Total(Unrealised, keys, entries, marks)
              - Total(Realised, keys, entries, marks) == TotalFlow(keys, entries)
    decreases |keys|
  {
    hide AcceptedEntries, BookOf, Flow, BookCost;
    if keys != [] {
      TotalsBalance(keys[1..], entries, marks, asOf);
      FiguresOf(BookOf(entries, keys[0]), marks(keys[0]));
      assert entries[..|entries|] == entries;
      BookBalances(entries, |entries|, keys[0], asOf);
      RealisedIs(BookOf(entries, keys[0]), marks(keys[0]));
      hide Figure;
    }
  }

  lemma RealisedIs(b: Book, mark: real)
    ensures Figure(Realised, b, mark) == b.realized
  {
  }

  /** What the recorded notionals of sales differ from price times quantity. */
  function Rounding(entries: seq<Entry>): real {
    if entries == [] then 0.0
    else
      var last := entries[|entries| - 1];
      Rounding(entries[..|entries| - 1])
      + if last.side.Buy? then 0.0 else Known(last.notional, 0.0) - Times(Known(last.price, 0.0), last.quantity as real)
  }

  lemma {:induction false} FlowIsNotional(entries: seq<Entry>)
    ensures AllFlow(entries) == SignedNotional(Fills(entries)) + Rounding(entries)
    decreases |entries|
  {
    hide Times;
    if entries != [] {
      var n := |entries| - 1;
      FlowIsNotional(entries[..n]);
      assert entries[..n + 1] == entries;
      FillsStep(entries, n);
    }
  }

  /** The cash a ledger leads to. */
  function ExpectedCash(start: real, entries: seq<Entry>, charges: seq<Charge>): real {
    start - SignedNotional(Fills(entries)) - CashCharges(Costs(charges))
  }

  function NetProfit(entries: seq<Entry>, charges: seq<Charge>, marks: Prices): real {
    var keys := Listed(Instruments(Fills(entries)));
    Total(Realised, keys, entries, marks) - CashCharges(Costs(charges)) + Total(Unrealised, keys, entries, marks)
  }

  function MarketValueAt(entries: seq<Entry>, marks: Prices): real {
    Total(Valued, Listed(Instruments(Fills(entries))), entries, marks)
  }

  lemma InstrumentsListed(entries: seq<Entry>)
    ensures Distinct(Listed(Instruments(Fills(entries))))
    ensures forall e | e in entries :: e.instrument in Listed(Instruments(Fills(entries)))
  {
    hide Listed;
    var fills := Fills(entries);
    ListedExact(Instruments(fills));
    forall e | e in entries ensures e.instrument in Instruments(fills) {
      var i :| 0 <= i < |entries| && entries[i] == e;
      assert fills[i] in fills;
    }
  }

  /** For accepted fills at any marks, realised profit less charges plus unrealised profit is exactly the ledger's
      cash plus the market value, less the starting capital and the rounding of sale notionals. */
  lemma ProfitIsEquityChange(start: real, entries: seq<Entry>, charges: seq<Charge>, marks: Prices, asOf: int)
    requires AcceptedEntries(entries, |entries|, asOf)
    ensures NetProfit(entries, charges, marks)
         == ExpectedCash(start, entries, charges) + MarketValueAt(entries, marks) - start - Rounding(entries)
  {
    hide AcceptedEntries, SignedNotional, CashCharges, Rounding, Total, Listed, AllFlow, TotalFlow;
    var keys := Listed(Instruments(Fills(entries)));
    InstrumentsListed(entries);
    TotalsBalance(keys, entries, marks, asOf);
    FlowByInstrument(keys, entries);
    FlowIsNotional(entries);
  }

  // ---------- the recorded valuation ----------

  function Recorded(keys: seq<Instrument>, figures: Prices): real {
    if keys == [] then 0.0 else figures(keys[0]) + Recorded(keys[1..], figures)
  }

  /** The valuation records for every instrument its figure at the mark, within the reconciliation's tolerance. */
  ghost predicate Records(figures: Prices, m: Measure, keys: seq<Instrument>, entries: seq<Entry>, marks: Prices) {
    forall k | k in keys :: Same(figures(k), Figure(m, BookOf(entries, k), marks(k)))
  }

  function Slack(figures: Prices, m: Measure, keys: seq<Instrument>, entries: seq<Entry>, marks: Prices): real {
    if keys == [] then 0.0
    else Tolerance(figures(keys[0]), Figure(m, BookOf(entries, keys[0]), marks(keys[0])))
         + Slack(figures, m, keys[1..], entries, marks)
  }

  lemma {:induction false} RecordedWithin(figures: Prices, m: Measure, keys: seq<Instrument>, entries: seq<Entry>,
                                          marks: Prices)
    requires Records(figures, m, keys, entries, marks)
    ensures Abs(Recorded(keys, figures) - Total(m, keys, entries, marks)) <= Slack(figures, m, keys, entries, marks)
    decreases |keys|
  {
    hide Figure, BookOf, Tolerance;
    if keys != [] {
      assert keys[0] in keys && forall k | k in keys[1..] :: k in keys;
      RecordedWithin(figures, m, keys[1..], entries, marks);
    }
  }

  /** An accepted account with the valuation's own marks, gains and values of its instruments, whose cash and equity
      have been reconciled. */
  ghost predicate Valuation(entries: seq<Entry>, charges: seq<Charge>, start: real, cash: real, asOf: int,
                            marks: Prices, gains: Prices, values: Prices, equity: real)
  {
    var keys := Listed(Instruments(Fills(entries)));
    && AcceptedLedger(entries, charges, start, cash, asOf)
    && Records(gains, Unrealised, keys, entries, marks) && Records(values, Valued, keys, entries, marks)
    && Same(equity, cash + Recorded(keys, values))
  }

  /** Net profit as reported: realised less charges, plus the recorded gains. */
  function ReportedProfit(entries: seq<Entry>, charges: seq<Charge>, gains: Prices, marks: Prices): real {
    var keys := Listed(Instruments(Fills(entries)));
    Total(Realised, keys, entries, marks) - CashCharges(Costs(charges)) + Recorded(keys, gains)
  }

  /** So the last reconciliation, of reported profit with the change of equity, follows from the earlier ones: it can
      be off by no more than their tolerances and the rounding of sale notionals. */
  lemma LastReconciliationFollows(entries: seq<Entry>, charges: seq<Charge>, start: real, cash: real, asOf: int,
                                  marks: Prices, gains: Prices, values: Prices, equity: real)
    requires Valuation(entries, charges, start, cash, asOf, marks, gains, values, equity)
    ensures var keys := Listed(Instruments(Fills(entries)));
      Abs(ReportedProfit(entries, charges, gains, marks) - (equity - start))
        <= Tolerance(cash, ExpectedCash(start, entries, charges)) + Tolerance(equity, cash + Recorded(keys, values))
           + Slack(gains, Unrealised, keys, entries, marks) + Slack(values, Valued, keys, entries, marks)
           + RoundingBound(entries)
  {
    hide AcceptedEntries, AcceptedCharges, SignedNotional, CashCharges, Total, Recorded, Slack, Records, Tolerance;
    hide Rounding, RoundingBound, Listed, Instruments;
    var keys := Listed(Instruments(Fills(entries)));
    ProfitIsEquityChange(start, entries, charges, marks, asOf);
    RecordedWithin(gains, Unrealised, keys, entries, marks);
    RecordedWithin(values, Valued, keys, entries, marks);
    RoundingBounded(entries, |entries|, asOf);
    assert entries[..|entries|] == entries;
  }

  /** The most the sales' notionals may be off, row by row. */
  function RoundingBound(entries: seq<Entry>): real {
    if entries == [] then 0.0
    else
      var last := entries[|entries| - 1];
      RoundingBound(entries[..|entries| - 1])
      + if last.side.Buy? then 0.0
        else Tolerance(Known(last.notional, 0.0), Times(Known(last.price, 0.0), last.quantity as real))
  }

  lemma SoundRounding(e: Entry, asOf: int)
    requires SoundEntry(e, asOf)
    ensures var product := Times(Known(e.price, 0.0), e.quantity as real);
      Abs(Known(e.notional, 0.0) - product) <= Tolerance(Known(e.notional, 0.0), product)
  {
    hide Tolerance;
  }

  lemma {:induction false} RoundingBounded(entries: seq<Entry>, n: nat, asOf: int)
    requires n <= |entries| && AcceptedEntries(entries, |entries|, asOf)
    ensures Abs(Rounding(entries[..n])) <= RoundingBound(entries[..n])
    decreases n
  {
    if n > 0 {
      hide Tolerance, Position, SoundEntry, Times;
      RoundingBounded(entries, n - 1, asOf);
      assert entries[..n][..n - 1] == entries[..n - 1];
      assert AcceptedEntry(entries, n - 1, asOf);
      SoundRounding(entries[n - 1], asOf);
    }
  }
}
