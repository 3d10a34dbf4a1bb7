/** What the replayed days mean: each is the account defined from scratch on all the fills up to its
    date, and equity moves from day to day only by prices, trades and fees. */
module AccountTheorems {
  import opened Prelude
  import opened AccountBenchmark
  import opened PaperAccount

  // ---------- the cursor against all fills up to a date ----------

  lemma {:induction false} UpToConcat(a: seq<Fill>, b: seq<Fill>, date: int)
    ensures UpTo(a + b, date) == UpTo(a, date) + UpTo(b, date)
    decreases |b|
  {
    if b == [] {
      assert a + b == a;
    } else {
      var n := |b| - 1;
      assert (a + b)[..|a| + n] == a + b[..n];
      UpToConcat(a, b[..n], date);
    }
  }

  lemma {:induction false} UpToAll(fills: seq<Fill>, date: int)
    requires forall i | 0 <= i < |fills| :: fills[i].day <= date
    ensures UpTo(fills, date) == fills
    decreases |fills|
  {
    UpToLast(fills, date);
    hide UpTo;
    if fills != [] {
      var n := |fills| - 1;
      UpToAll(fills[..n], date);
      assert fills == fills[..n] + [fills[n]];
    }
  }

  lemma UpToLast(fills: seq<Fill>, date: int)
    ensures fills == [] ==> UpTo(fills, date) == []
    ensures fills != [] && fills[|fills| - 1].day <= date ==>
              UpTo(fills, date) == UpTo(fills[..|fills| - 1], date) + [fills[|fills| - 1]]
  {
  }

  lemma {:induction false} NoneUpTo(fills: seq<Fill>, date: int)
    ensures UpTo(fills, date) == [] <==> forall i | 0 <= i < |fills| :: fills[i].day > date
    decreases |fills|
  {
    if fills != [] {
      NoneUpTo(fills[..|fills| - 1], date);
    }
  }

  lemma PassedIsUpTo(fills: seq<Fill>, date: int)
    requires forall i | Passed(fills, date) <= i < |fills| :: fills[i].day > date
    ensures fills[..Passed(fills, date)] == UpTo(fills, date)
  {
    var n := Passed(fills, date);
    hide UpTo, Passed;
    var done, rest := fills[..n], fills[n..];
    assert fills == done + rest;
    UpToConcat(done, rest, date);
    UpToAll(done, date);
    NoneUpTo(rest, date);
  }

  /** If the cursor has passed all the fills up to a date, it has passed every fill of that date. */
  lemma PassedAll(fills: seq<Fill>, date: int, j: nat)
    requires j < |fills| && fills[j].day == date && fills[..Passed(fills, date)] == UpTo(fills, date)
    ensures j < Passed(fills, date)
  {
    var n := Passed(fills, date);
    hide UpTo, Passed;
    var done, rest := fills[..n], fills[n..];
    assert fills == done + rest;
    UpToConcat(done, rest, date);
    UpToAll(done, date);
    NoneUpTo(rest, date);
    assert |UpTo(rest, date)| == 0;
    forall k | n <= k < |fills| ensures fills[k].day > date {
      assert fills[k] == rest[k - n];
    }
  }

  ghost predicate CursorRight(fills: seq<Fill>) {
    forall date :: fills[..Passed(fills, date)] == UpTo(fills, date)
  }

  lemma OrderedIsRight(fills: seq<Fill>)
    requires DateOrdered(fills)
    ensures CursorRight(fills)
  {
    hide UpTo, Passed;
    forall date ensures fills[..Passed(fills, date)] == UpTo(fills, date) {
      PassedIsUpTo(fills, date);
    }
  }

  lemma RightIsOrdered(fills: seq<Fill>)
    requires CursorRight(fills)
    ensures DateOrdered(fills)
  {
    hide UpTo, Passed;
    forall i, j | 0 <= i < j < |fills| ensures fills[i].day <= fills[j].day {
      var date := fills[j].day;
      assert fills[..Passed(fills, date)] == UpTo(fills, date);
      PassedAll(fills, date, j);
    }
  }

  /** At every date the cursor has passed exactly the fills up to it, if and only if the fills are in date order. */
  lemma CursorExact(fills: seq<Fill>)
    ensures CursorRight(fills) <==> DateOrdered(fills)
  {
    hide CursorRight, DateOrdered;
    if DateOrdered(fills) { OrderedIsRight(fills); }
    if CursorRight(fills) { RightIsOrdered(fills); }
  }

  /** Each open position of these fills, no other, with its close of the date if there is one. */
  ghost predicate HoldingsOf(holdings: seq<Holding>, fills: seq<Fill>, closes: Closes, date: int) {
    && (forall h | h in holdings ::
          && h.quantity == Position(fills, h.instrument) > 0
          && h.close == if (h.instrument, date) in closes then Some(closes[(h.instrument, date)]) else None)
    && (forall k :: Position(fills, k) > 0 <==> exists h :: h in holdings && h.instrument == k)
  }

  /** The day is the account defined from scratch: the cash, the fees, the count and the positions over all these
      fills up to its date. */
  ghost predicate FromScratch(d: Day, start: real, fills: seq<Fill>, costs: seq<Cost>, closes: Closes) {
    var upTo := UpTo(fills, d.date);
    && d.cash == Cash(start, upTo, costs)
    && d.cashFees == FeesOn(upTo, costs, d.date) && d.fillCount == CountOn(upTo, d.date)
    && HoldingsOf(d.holdings, upTo, closes, d.date)
    && (d.equity.Some? <==> forall h | h in d.holdings :: h.close.Some?)
    && (d.equity.Some? ==> d.equity.value == d.cash + MarketValue(d.holdings))
  }

  lemma HoldingsFromScratch(done: seq<Fill>, closes: Closes, date: int)
    ensures HoldingsOf(Holdings(Listed(OpenInstruments(done)), done, closes, date), done, closes, date)
  {
    hide Position, Listed, Instruments;
    var open := OpenInstruments(done);
    ListedExact(open);
    var holdings := Holdings(Listed(open), done, closes, date);
    forall h | h in holdings
      ensures h.quantity == Position(done, h.instrument) > 0 && h.close == CloseOf(closes, h.instrument, date)
    {
      var i :| 0 <= i < |holdings| && holdings[i] == h;
      assert Listed(open)[i] in Listed(open);
    }
    forall k ensures Position(done, k) > 0 <==> exists h :: h in holdings && h.instrument == k {
      AbsentIsFlat(done, k);
      if Position(done, k) > 0 {
        assert k in Listed(open);
        var i :| 0 <= i < |Listed(open)| && Listed(open)[i] == k;
        assert holdings[i] in holdings;
      }
    }
  }

  lemma CompleteMeans(holdings: seq<Holding>)
    ensures Complete(holdings) <==> forall h | h in holdings :: h.close.Some?
  {
  }

  /** With the fills in date order, each replayed day is the account defined from scratch. */
  lemma DayFromScratch(start: real, fills: seq<Fill>, costs: seq<Cost>, closes: Closes, date: int)
    requires DateOrdered(fills)
    ensures var d := DayOf(start, fills, costs, closes, date);
      d.date == date && FromScratch(d, start, fills, costs, closes)
  {
    hide Position, Cash, FeesOn, CountOn, UpTo, Passed, MarketValue, Complete, Holdings, Listed, DateOrdered;
    hide HoldingsOf;
    CompleteMeans(DayOf(start, fills, costs, closes, date).holdings);
    OrderedIsRight(fills);
    HoldingsFromScratch(fills[..Passed(fills, date)], closes, date);
  }

  // ---------- the fills shown are those of the whole ledger ----------

  lemma {:induction false} UpToTwice(fills: seq<Fill>, date: int, through: int)
    requires date <= through
    ensures UpTo(UpTo(fills, through), date) == UpTo(fills, date)
    decreases |fills|
  {
    if fills != [] {
      var n := |fills| - 1;
      UpToTwice(fills[..n], date, through);
      var earlier := UpTo(fills[..n], through);
      assert (earlier + [fills[n]])[..|earlier|] == earlier;
      assert earlier + [] == earlier;
    }
  }

  lemma {:induction false} UpToOrdered(fills: seq<Fill>, through: int)
    requires DateOrdered(fills)
    ensures DateOrdered(UpTo(fills, through))
    decreases |fills|
  {
    if fills != [] {
      var n := |fills| - 1;
      UpToOrdered(fills[..n], through);
      UpToExact(fills[..n], through);
      var earlier := UpTo(fills[..n], through);
      forall i | 0 <= i < |earlier| ensures earlier[i].day <= fills[n].day {
        assert earlier[i] in earlier;
      }
    }
  }

  /** For an accepted account, every day of the report is the account defined from scratch on the whole ledger. */
  lemma AcceptedDayFromScratch(entries: seq<Entry>, asOf: int, start: real, costs: seq<Cost>, closes: Closes, date: int,
                               through: int)
    requires AcceptedEntries(entries, |entries|, asOf) && date <= through
    ensures var d := DayOf(start, UpTo(Fills(entries), through), costs, closes, date);
      d.date == date && FromScratch(d, start, Fills(entries), costs, closes)
  {
    hide AcceptedEntries, DayOf, UpTo, Cash, FeesOn, CountOn, MarketValue, Position;
    AcceptedFills(entries, asOf);
    UpToOrdered(Fills(entries), through);
    DayFromScratch(start, UpTo(Fills(entries), through), costs, closes, date);
    UpToTwice(Fills(entries), date, through);
  }

  // ---------- the window ----------

  /** The windowed replay is a suffix of the replay over all sessions: whenever the longer one is
      sound, the shorter one is, and shows the same last days. */
  lemma WindowIsSuffix(start: real, fills: seq<Fill>, costs: seq<Cost>, closes: Closes, sessions: seq<int>,
                       all: seq<Day>, shown: seq<Day>)
    requires SoundReplay(start, fills, costs, closes, sessions)
    requires |all| == |sessions| && |shown| == |LastWindow(sessions)|
    requires forall i | 0 <= i < |all| :: all[i] == DayOf(start, fills, costs, closes, sessions[i])
    requires forall i | 0 <= i < |shown| :: shown[i] == DayOf(start, fills, costs, closes, LastWindow(sessions)[i])
    ensures SoundReplay(start, fills, costs, closes, LastWindow(sessions))
    ensures |shown| <= WINDOW && shown == all[|all| - |shown|..]
  {
    hide DayOf, SoundDay, SoundPositions;
    var skip := |sessions| - |LastWindow(sessions)|;
    assert forall i | 0 <= i < |shown| :: LastWindow(sessions)[i] == sessions[skip + i];
  }

  // ---------- equity from day to day ----------

  type Prices = Instrument -> real

  function Marked(fills: seq<Fill>, price: Prices): real {
    if fills == [] then 0.0
    else
      var last := fills[|fills| - 1];
      Marked(fills[..|fills| - 1], price) + Signed(last) as real * price(last.instrument)
  }

  function TotalFees(fills: seq<Fill>, costs: seq<Cost>): real {
    if fills == [] then 0.0
    else TotalFees(fills[..|fills| - 1], costs) + FeeOf(costs, fills[|fills| - 1].orderId)
  }

  /** The value of positions at these prices, instrument by instrument. */
  function Valued(keys: seq<Instrument>, fills: seq<Fill>, price: Prices): real {
    if keys == [] then 0.0
    else Position(fills, keys[0]) as real * price(keys[0]) + Valued(keys[1..], fills, price)
  }

  ghost predicate Distinct(keys: seq<Instrument>) {
    forall i, j | 0 <= i < j < |keys| :: keys[i] != keys[j]
  }

  lemma {:induction false} ValuedStep(keys: seq<Instrument>, fills: seq<Fill>, f: Fill, price: Prices)
    requires Distinct(keys)
    ensures Valued(keys, fills + [f], price) == Valued(keys, fills, price)
      + if f.instrument in keys then Signed(f) as real * price(f.instrument) else 0.0
    decreases |keys|
  {
    hide Position, Signed;
    if keys != [] {
      ValuedStep(keys[1..], fills, f, price);
      PositionStep(fills, f, keys[0]);
      assert keys == [keys[0]] + keys[1..];
      if keys[0] == f.instrument {
        assert f.instrument !in keys[1..];
        Distribute(Position(fills, keys[0]), Signed(f), price(f.instrument));
      }
    }
  }

  lemma Distribute(a: int, b: int, p: real)
    ensures (a + b) as real * p == a as real * p + b as real * p
  {
  }

  lemma PositionStep(fills: seq<Fill>, f: Fill, k: Instrument)
    ensures Position(fills + [f], k) == Position(fills, k) + if f.instrument == k then Signed(f) else 0
  {
    assert (fills + [f])[..|fills|] == fills;
  }

  lemma {:induction false} NothingValued(keys: seq<Instrument>, price: Prices)
    ensures Valued(keys, [], price) == 0.0
    decreases |keys|
  {
    if keys != [] {
      NothingValued(keys[1..], price);
    }
  }

  lemma {:induction false} MarkedByInstrument(keys: seq<Instrument>, fills: seq<Fill>, price: Prices)
    requires Distinct(keys) && forall f | f in fills :: f.instrument in keys
    ensures Valued(keys, fills, price) == Marked(fills, price)
    decreases |fills|
  {
    if fills == [] {
      NothingValued(keys, price);
    } else {
      var n := |fills| - 1;
      assert fills == fills[..n] + [fills[n]];
      assert forall f | f in fills[..n] :: f in fills;
      MarkedByInstrument(keys, fills[..n], price);
      ValuedStep(keys, fills[..n], fills[n], price);
    }
  }

  lemma {:induction false} ValuedWithout(s: set<Instrument>, k: Instrument, fills: seq<Fill>, price: Prices)
    requires k in s
    ensures Valued(Listed(s), fills, price)
         == Valued(Listed(s - {k}), fills, price) + Position(fills, k) as real * price(k)
    decreases |s|
  {
    hide Position;
    var m := Least(s);
    assert Listed(s)[1..] == Listed(s - {m});
    if k != m {
      ValuedWithout(s - {m}, k, fills, price);
      assert IsLeast(s - {k}, m);
      assert Least(s - {k}) == m;
      assert s - {m} - {k} == s - {k} - {m};
      assert Listed(s - {k})[1..] == Listed(s - {k} - {m});
    }
  }

  /** Instruments without a position add nothing. */
  lemma {:induction false} FlatAddsNothing(s: set<Instrument>, open: set<Instrument>, fills: seq<Fill>, price: Prices)
    requires open <= s && forall k | k in s - open :: Position(fills, k) == 0
    ensures Valued(Listed(s), fills, price) == Valued(Listed(open), fills, price)
    decreases |s|
  {
    hide Position, Valued, Listed;
    if s - open == {} {
      assert s == open;
    } else {
      Inhabited(s - open);
      var k :| k in s - open;
      ValuedWithout(s, k, fills, price);
      FlatAddsNothing(s - {k}, open, fills, price);
    }
  }

  lemma {:induction false} SoundIsLong(fills: seq<Fill>, k: Instrument)
    requires SoundPositions(fills)
    ensures Position(fills, k) >= 0
    decreases |fills|
  {
    if fills != [] {
      var n := |fills| - 1;
      forall i | 0 <= i < n ensures SoundAt(fills[..n], i) {
        assert SoundAt(fills, i);
        assert fills[..n][..i + 1] == fills[..i + 1];
      }
      SoundIsLong(fills[..n], k);
      assert SoundAt(fills, n);
      assert fills[..n + 1] == fills;
    }
  }

  /** The open positions at any prices are worth what all the fills are worth at those prices. */
  lemma OpenIsMarked(fills: seq<Fill>, price: Prices)
    requires SoundPositions(fills)
    ensures Valued(Listed(OpenInstruments(fills)), fills, price) == Marked(fills, price)
  {
    hide Position, Valued, Listed, Marked, SoundPositions;
    var s := Instruments(fills);
    forall k | k in s - OpenInstruments(fills) ensures Position(fills, k) == 0 {
      SoundIsLong(fills, k);
    }
    FlatAddsNothing(s, OpenInstruments(fills), fills, price);
    ListedExact(s);
    MarkedByInstrument(Listed(s), fills, price);
  }

  lemma {:induction false} HoldingsValued(keys: seq<Instrument>, fills: seq<Fill>, closes: Closes, date: int,
                                          price: Prices)
    requires forall i | 0 <= i < |keys| :: CloseOf(closes, keys[i], date) == Some(price(keys[i]))
    ensures MarketValue(Holdings(keys, fills, closes, date)) == Valued(keys, fills, price)
    decreases |keys|
  {
    hide Position;
    if keys != [] {
      HoldingsValued(keys[1..], fills, closes, date, price);
      assert Holdings(keys, fills, closes, date)[1..] == Holdings(keys[1..], fills, closes, date);
    }
  }

  /** These prices are the closes of everything held on the day. */
  ghost predicate PricedAt(d: Day, price: Prices) {
    forall h | h in d.holdings :: h.close == Some(price(h.instrument))
  }

  lemma SoundPrefix(fills: seq<Fill>, n: nat)
    requires n <= |fills| && SoundPositions(fills)
    ensures SoundPositions(fills[..n])
  {
    hide Position;
    var done := fills[..n];
    forall i: nat | i < |done| ensures SoundAt(done, i) {
      assert SoundAt(fills, i);
      assert done[..i + 1] == fills[..i + 1];
    }
  }

  /** The equity of a day is its cash plus all the fills so far, marked at the day's prices. */
  lemma EquityIsMarked(start: real, fills: seq<Fill>, costs: seq<Cost>, closes: Closes, date: int, price: Prices)
    requires SoundPositions(fills)
    requires PricedAt(DayOf(start, fills, costs, closes, date), price)
    ensures var done := fills[..Passed(fills, date)];
      DayOf(start, fills, costs, closes, date).equity == Some(Cash(start, done, costs) + Marked(done, price))
  {
    hide Position, Cash, Marked, SoundPositions, Listed, MarketValue, Valued, Passed;
    var done := fills[..Passed(fills, date)];
    var keys := Listed(OpenInstruments(done));
    var holdings := Holdings(keys, done, closes, date);
    forall i | 0 <= i < |keys| ensures CloseOf(closes, keys[i], date) == Some(price(keys[i])) {
      assert holdings[i] in holdings;
    }
    SoundPrefix(fills, Passed(fills, date));
    HoldingsValued(keys, done, closes, date, price);
    OpenIsMarked(done, price);
  }

  /** Quantity times price change, over the holdings of a day. */
  function PriceMove(holdings: seq<Holding>, before: Prices, after: Prices): real {
    if holdings == [] then 0.0
    else
      var h := holdings[0];
      h.quantity as real * (after(h.instrument) - before(h.instrument)) + PriceMove(holdings[1..], before, after)
  }

  lemma {:induction false} PriceMoveValued(keys: seq<Instrument>, fills: seq<Fill>, closes: Closes, date: int,
                                           before: Prices, after: Prices)
    ensures PriceMove(Holdings(keys, fills, closes, date), before, after)
         == Valued(keys, fills, after) - Valued(keys, fills, before)
    decreases |keys|
  {
    hide Position;
    if keys != [] {
      PriceMoveValued(keys[1..], fills, closes, date, before, after);
      assert Holdings(keys, fills, closes, date)[1..] == Holdings(keys[1..], fills, closes, date);
      var q := Position(fills, keys[0]) as real;
      assert q * (after(keys[0]) - before(keys[0])) == q * after(keys[0]) - q * before(keys[0]);
    }
  }

  lemma {:induction false} MarkedConcat(a: seq<Fill>, b: seq<Fill>, price: Prices)
    ensures Marked(a + b, price) == Marked(a, price) + Marked(b, price)
    decreases |b|
  {
    if b == [] {
      assert a + b == a;
    } else {
      var n := |b| - 1;
      assert (a + b)[..|a| + n] == a + b[..n];
      MarkedConcat(a, b[..n], price);
    }
  }

  lemma {:induction false} CashConcat(start: real, a: seq<Fill>, b: seq<Fill>, costs: seq<Cost>)
    ensures Cash(start, a + b, costs) == Cash(start, a, costs) - SignedNotional(b) - TotalFees(b, costs)
    decreases |b|
  {
    hide FeeOf;
    if b == [] {
      assert a + b == a;
    } else {
      var n := |b| - 1;
      assert (a + b)[..|a| + n] == a + b[..n];
      CashConcat(start, a, b[..n], costs);
    }
  }

  /** From one session to a later one, equity moves by the opening quantities times the price change,
      plus the marked value of the new fills less what they cost, less their fees. The prices need to
      be the closes only of what is held on each day. */
  lemma EquityRollsForward(start: real, fills: seq<Fill>, costs: seq<Cost>, closes: Closes, d1: int, d2: int,
                           before: Prices, after: Prices)
    requires SoundPositions(fills) && d1 <= d2
    requires PricedAt(DayOf(start, fills, costs, closes, d1), before)
    requires PricedAt(DayOf(start, fills, costs, closes, d2), after)
    ensures Passed(fills, d1) <= Passed(fills, d2)
    ensures var day1, day2 := DayOf(start, fills, costs, closes, d1), DayOf(start, fills, costs, closes, d2);
      var added := fills[Passed(fills, d1)..Passed(fills, d2)];
      && day1.equity.Some? && day2.equity.Some?
      && day2.equity.value == day1.equity.value + PriceMove(day1.holdings, before, after)
           + (Marked(added, after) - SignedNotional(added)) - TotalFees(added, costs)
  {
    hide Position, Cash, Marked, SoundPositions, Listed, MarketValue, Valued, Passed, SignedNotional, TotalFees;
    PassedGrows(fills, d1, d2);
    var n, m := Passed(fills, d1), Passed(fills, d2);
    var held, added := fills[..n], fills[n..m];
    assert fills[..m] == held + added;
    EquityIsMarked(start, fills, costs, closes, d1, before);
    EquityIsMarked(start, fills, costs, closes, d2, after);
    MarkedConcat(held, added, after);
    CashConcat(start, held, added, costs);
    SoundPrefix(fills, n);
    OpenIsMarked(held, before);
    OpenIsMarked(held, after);
    PriceMoveValued(Listed(OpenInstruments(held)), held, closes, d1, before, after);
  }

  // ---------- fees ----------

  function Orders(fills: seq<Fill>): set<string> {
    set f | f in fills :: f.orderId
  }

  /** The cash-debit costs recorded against these orders. */
  function Charged(costs: seq<Cost>, orders: set<string>): real {
    if costs == [] then 0.0
    else
      var last := costs[|costs| - 1];
      Charged(costs[..|costs| - 1], orders) + if last.cashDebit && last.orderId in orders then last.amount else 0.0
  }

  lemma {:induction false} ChargedStep(costs: seq<Cost>, orders: set<string>, order: string)
    requires order !in orders
    ensures Charged(costs, orders + {order}) == Charged(costs, orders) + FeeOf(costs, order)
    decreases |costs|
  {
    if costs != [] {
      ChargedStep(costs[..|costs| - 1], orders, order);
    }
  }

  lemma {:induction false} NothingCharged(costs: seq<Cost>)
    ensures Charged(costs, {}) == 0.0
    decreases |costs|
  {
    if costs != [] {
      NothingCharged(costs[..|costs| - 1]);
    }
  }

  /** With one ledger row per order, every recorded cash fee of the replayed orders is expensed exactly
      once. */
  lemma {:induction false} FeesExpensedOnce(fills: seq<Fill>, costs: seq<Cost>)
    requires DistinctOrders(fills)
    ensures TotalFees(fills, costs) == Charged(costs, Orders(fills))
    decreases |fills|
  {
    hide FeeOf, Charged;
    if fills == [] {
      assert Orders(fills) == {};
      NothingCharged(costs);
    } else {
      var n := |fills| - 1;
      FeesExpensedOnce(fills[..n], costs);
      assert fills == fills[..n] + [fills[n]];
      assert Orders(fills) == Orders(fills[..n]) + {fills[n].orderId};
      assert fills[n].orderId !in Orders(fills[..n]);
      ChargedStep(costs, Orders(fills[..n]), fills[n].orderId);
    }
  }

  lemma {:induction false} EveryChargeCounted(entries: seq<Entry>, charges: seq<Charge>, n: nat)
    requires n <= |charges| && AcceptedCharges(entries, charges, |charges|)
    ensures Charged(Costs(charges[..n]), Orders(Fills(entries))) == CashCharges(Costs(charges[..n]))
    decreases n
  {
    if n == 0 {
      NoCharges();
    } else {
      EveryChargeCounted(entries, charges, n - 1);
      var costs := Costs(charges[..n]);
      assert costs[..n - 1] == Costs(charges[..n - 1]);
      assert AcceptedCharge(entries, charges, n - 1);
      hide Charged, CashCharges, SoundCharge, OrderAt;
      ChargeNamesOrder(entries, charges, n - 1);
      ChargedLast(costs, Orders(Fills(entries)));
    }
  }

  lemma ChargeNamesOrder(entries: seq<Entry>, charges: seq<Charge>, j: nat)
    requires j < |charges| && AcceptedCharge(entries, charges, j)
    ensures charges[j].orderId in Orders(Fills(entries))
  {
    var e :| e in entries && e.orderId == charges[j].orderId && e.at == charges[j].at;
    var i :| 0 <= i < |entries| && entries[i] == e;
    assert Fills(entries)[i] in Fills(entries);
  }

  lemma ChargedLast(costs: seq<Cost>, orders: set<string>)
    requires costs != [] && costs[|costs| - 1].orderId in orders
    ensures var n := |costs| - 1;
      var amount := if costs[n].cashDebit then costs[n].amount else 0.0;
      && Charged(costs, orders) == Charged(costs[..n], orders) + amount
      && CashCharges(costs) == CashCharges(costs[..n]) + amount
  {
  }

  /** In an accepted account every recorded cash charge is expensed exactly once by the replay of its fills. */
  lemma AcceptedFeesExpensedOnce(entries: seq<Entry>, charges: seq<Charge>, start: real, cash: real, asOf: int)
    requires AcceptedLedger(entries, charges, start, cash, asOf)
    ensures TotalFees(Fills(entries), Costs(charges)) == CashCharges(Costs(charges))
  {
    hide AcceptedEntries, TotalFees, CashCharges, Charged, Same, SignedNotional;
    AcceptedFills(entries, asOf);
    FeesExpensedOnce(Fills(entries), Costs(charges));
    EveryChargeCounted(entries, charges, |charges|);
    assert charges[..|charges|] == charges;
  }

  lemma CashOfAll(start: real, fills: seq<Fill>, costs: seq<Cost>)
    ensures Cash(start, fills, costs) == start - SignedNotional(fills) - TotalFees(fills, costs)
  {
    hide TotalFees, SignedNotional;
    CashConcat(start, [], fills, costs);
    assert [] + fills == fills;
  }

  lemma LastDayCash(start: real, fills: seq<Fill>, costs: seq<Cost>, closes: Closes, date: int)
    requires forall f | f in fills :: f.day <= date
    ensures DayOf(start, fills, costs, closes, date).cash == Cash(start, fills, costs)
  {
    hide Cash, Holdings, Listed, FeesOn, CountOn;
    PassedUnique(fills, date, |fills|);
    assert fills[..|fills|] == fills;
  }

  /** Once every fill of an accepted account has been replayed, the replayed cash is the account's own recorded cash
      balance, to within the reconciliation tolerance. */
  lemma ReplayReconciles(entries: seq<Entry>, charges: seq<Charge>, start: real, cash: real, asOf: int,
                         closes: Closes, date: int)
    requires AcceptedLedger(entries, charges, start, cash, asOf)
    requires forall f | f in Fills(entries) :: f.day <= date
    ensures Same(cash, DayOf(start, Fills(entries), Costs(charges), closes, date).cash)
  {
    hide AcceptedEntries, AcceptedCharges, TotalFees, CashCharges, SignedNotional, Cash, Same, DayOf;
    AcceptedFeesExpensedOnce(entries, charges, start, cash, asOf);
    LastDayCash(start, Fills(entries), Costs(charges), closes, date);
    CashOfAll(start, Fills(entries), Costs(charges));
  }
}
