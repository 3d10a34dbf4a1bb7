/** `readAccountBenchmark`: the replay of recorded fills across sessions, and the definition of each
    day that it must agree with. Money is exact; instruments are numbered in the order of their keys. */
module AccountBenchmark {
  import opened Prelude

  type Instrument = int

  /** A ledger row: the day is its local date, and inSession says its time is within trading hours. */
  datatype Fill = Fill(orderId: string, instrument: Instrument, day: int, inSession: bool, buy: bool,
                       quantity: int, notional: real)

  datatype Cost = Cost(orderId: string, cashDebit: bool, amount: real)

  /** Closing prices by instrument and session. */
  type Closes = map<(Instrument, int), real>

  const WINDOW := 253
  const MAX_HOLDINGS := 40

  // ---------- fees ----------

  function FeeOf(costs: seq<Cost>, order: string): real {
    if costs == [] then 0.0
    else
      var last := costs[|costs| - 1];
      FeeOf(costs[..|costs| - 1], order) + if last.cashDebit && last.orderId == order then last.amount else 0.0
  }

  function FeeIn(fees: map<string, real>, order: string): real {
    if order in fees then fees[order] else 0.0
  }

  method GroupFees(costs: seq<Cost>) returns (fees: map<string, real>)
    ensures forall order :: FeeIn(fees, order) == FeeOf(costs, order)
  {
    fees := map[];
    for i := 0 to |costs|
      invariant forall order :: FeeIn(fees, order) == FeeOf(costs[..i], order)
    {
      assert costs[..i + 1][..i] == costs[..i];
      if costs[i].cashDebit {
        fees := fees[costs[i].orderId := FeeIn(fees, costs[i].orderId) + costs[i].amount];
      }
    }
    assert costs[..|costs|] == costs;
  }

  // ---------- the account after a list of fills ----------

  function Signed(f: Fill): int {
    if f.buy then f.quantity else -f.quantity
  }

  function Position(fills: seq<Fill>, k: Instrument): int {
    if fills == [] then 0
    else
      var last := fills[|fills| - 1];
      Position(fills[..|fills| - 1], k) + if last.instrument == k then Signed(last) else 0
  }

  function CashEffect(f: Fill, costs: seq<Cost>): real {
    (if f.buy then -f.notional else f.notional) - FeeOf(costs, f.orderId)
  }

  function Cash(start: real, fills: seq<Fill>, costs: seq<Cost>): real {
    if fills == [] then start
    else Cash(start, fills[..|fills| - 1], costs) + CashEffect(fills[|fills| - 1], costs)
  }

  function FeesOn(fills: seq<Fill>, costs: seq<Cost>, date: int): real {
    if fills == [] then 0.0
    else
      var last := fills[|fills| - 1];
      FeesOn(fills[..|fills| - 1], costs, date) + if last.day == date then FeeOf(costs, last.orderId) else 0.0
  }

  function CountOn(fills: seq<Fill>, date: int): nat {
    if fills == [] then 0
    else CountOn(fills[..|fills| - 1], date) + if fills[|fills| - 1].day == date then 1 else 0
  }

  function Instruments(fills: seq<Fill>): set<Instrument> {
    set f | f in fills :: f.instrument
  }

  function OpenInstruments(fills: seq<Fill>): set<Instrument> {
    set k | k in Instruments(fills) && Position(fills, k) > 0
  }

  // ---------- listing a set in order ----------

  predicate IsLeast(s: set<int>, m: int) {
    m in s && forall k | k in s :: m <= k
  }

  lemma Inhabited(s: set<int>)
    ensures (forall x :: x !in s) ==> s == {}
  {
    if forall x :: x !in s {
      assert s == {};
    }
  }

  lemma {:induction false} LeastExists(s: set<int>)
    requires s != {}
    ensures exists m :: IsLeast(s, m)
    decreases |s|
  {
    Inhabited(s);
    var x :| x in s;
    var rest := s - {x};
    assert s == {x} + rest;
    if rest == {} {
      assert IsLeast(s, x);
    } else {
      LeastExists(rest);
      var m :| IsLeast(rest, m);
      assert IsLeast(s, if x < m then x else m);
    }
  }

  function Least(s: set<int>): (m: int)
    requires s != {}
    ensures IsLeast(s, m)
  {
    LeastExists(s);
    var m :| IsLeast(s, m);
    m
  }

  function Listed(s: set<int>): seq<int>
    decreases |s|
  {
    if s == {} then [] else [Least(s)] + Listed(s - {Least(s)})
  }

  lemma {:induction false} ListedExact(s: set<int>)
    ensures |Listed(s)| == |s|
    ensures forall k :: k in Listed(s) <==> k in s
    ensures forall i, j | 0 <= i < j < |Listed(s)| :: Listed(s)[i] < Listed(s)[j]
    decreases |s|
  {
    if s != {} {
      var m := Least(s);
      var rest := Listed(s - {m});
      ListedExact(s - {m});
      assert s == {m} + (s - {m});
      forall j | 0 <= j < |rest| ensures m < rest[j] {
        assert rest[j] in rest;
      }
    }
  }

  // ---------- one day, from scratch ----------

  datatype Holding = Holding(instrument: Instrument, quantity: int, close: Option<real>)

  datatype Day = Day(date: int, cash: real, equity: Option<real>, cashFees: real, fillCount: nat,
                     holdings: seq<Holding>)

  function CloseOf(closes: Closes, k: Instrument, date: int): Option<real> {
    if (k, date) in closes then Some(closes[(k, date)]) else None
  }

  function Holdings(keys: seq<Instrument>, fills: seq<Fill>, closes: Closes, date: int): seq<Holding> {
    seq(|keys|, i requires 0 <= i < |keys| =>
      Holding(keys[i], Position(fills, keys[i]), CloseOf(closes, keys[i], date)))
  }

  predicate Complete(holdings: seq<Holding>) {
    forall h | h in holdings :: h.close.Some?
  }

  function MarketValue(holdings: seq<Holding>): real {
    if holdings == [] then 0.0
    else
      var first := holdings[0];
      (if first.close.Some? then first.close.value * first.quantity as real else 0.0) + MarketValue(holdings[1..])
  }

  /** How many fills the cursor has passed once a session is done: all up to the first later one. */
  function Passed(fills: seq<Fill>, date: int): (n: nat)
    ensures n <= |fills|
    ensures forall i | 0 <= i < n :: fills[i].day <= date
    ensures n < |fills| ==> fills[n].day > date
  {
    if fills == [] || fills[0].day > date then 0 else 1 + Passed(fills[1..], date)
  }

  /** The day as the fills passed by the cursor determine it, whatever sessions came before. */
  function DayOf(start: real, fills: seq<Fill>, costs: seq<Cost>, closes: Closes, date: int): Day {
    var done := fills[..Passed(fills, date)];
    var holdings := Holdings(Listed(OpenInstruments(done)), done, closes, date);
    var cash := Cash(start, done, costs);
    Day(date, cash, if Complete(holdings) then Some(cash + MarketValue(holdings)) else None,
        FeesOn(done, costs, date), CountOn(done, date), holdings)
  }

  // ---------- acceptance ----------

  /** No position ever goes short or past the safe integers. */
  ghost predicate SoundAt(fills: seq<Fill>, i: nat)
    requires i < |fills|
  {
    0 <= Position(fills[..i + 1], fills[i].instrument) <= MAX_SAFE_INTEGER
  }

  ghost predicate SoundPositions(fills: seq<Fill>) {
    forall i | 0 <= i < |fills| :: SoundAt(fills, i)
  }

  predicate SoundDay(d: Day) {
    |d.holdings| <= MAX_HOLDINGS && (d.equity.Some? ==> d.equity.value > 0.0)
  }

  ghost predicate Ascending(sessions: seq<int>) {
    forall i, j | 0 <= i < j < |sessions| :: sessions[i] < sessions[j]
  }

  /** The fill before this date, as one number per session. */
  function CursorBefore(fills: seq<Fill>, sessions: seq<int>, i: nat): nat
    requires i <= |sessions|
  {
    if i == 0 then 0 else Passed(fills, sessions[i - 1])
  }

  ghost predicate Mirrors(quantities: map<Instrument, int>, fills: seq<Fill>) {
    quantities.Keys == Instruments(fills) && forall k | k in quantities :: quantities[k] == Position(fills, k)
  }

  lemma {:induction false} PassedUnique(fills: seq<Fill>, date: int, n: nat)
    requires n <= |fills| && (forall i | 0 <= i < n :: fills[i].day <= date) && (n < |fills| ==> fills[n].day > date)
    ensures Passed(fills, date) == n
    decreases |fills|
  {
  }

  lemma {:induction false} PassedGrows(fills: seq<Fill>, a: int, b: int)
    requires a <= b
    ensures Passed(fills, a) <= Passed(fills, b)
    decreases |fills|
  {
    if fills != [] && fills[0].day <= a {
      PassedGrows(fills[1..], a, b);
    }
  }

  lemma InstrumentsStep(fills: seq<Fill>, f: Fill)
    ensures Instruments(fills + [f]) == Instruments(fills) + {f.instrument}
  {
  }

  /** Nothing among the fills before a session is dated on it. */
  lemma {:induction false} NothingOn(fills: seq<Fill>, costs: seq<Cost>, date: int)
    requires forall i | 0 <= i < |fills| :: fills[i].day != date
    ensures FeesOn(fills, costs, date) == 0.0 && CountOn(fills, date) == 0
    decreases |fills|
  {
    if fills != [] {
      NothingOn(fills[..|fills| - 1], costs, date);
    }
  }

  // ---------- the replay ----------

  class Account {
    var cash: real
    var cursor: nat
    var quantities: map<Instrument, int>

    constructor (start: real)
      ensures cash == start && cursor == 0 && quantities == map[]
    {
      cash, cursor, quantities := start, 0, map[];
    }

    ghost predicate After(start: real, fills: seq<Fill>, costs: seq<Cost>)
      reads this
    {
      && cursor <= |fills| && cash == Cash(start, fills[..cursor], costs)
      && Mirrors(quantities, fills[..cursor]) && SoundPositions(fills[..cursor])
    }

    /** Applies one fill; fails when the position would be unsound. */
    method Apply(ghost start: real, fills: seq<Fill>, ghost costs: seq<Cost>, fees: map<string, real>)
        returns (ok: bool)
      requires After(start, fills, costs) && cursor < |fills|
      requires forall order :: FeeIn(fees, order) == FeeOf(costs, order)
      modifies this
      ensures ok ==> After(start, fills, costs) && cursor == old(cursor) + 1
      ensures !ok ==> !SoundPositions(fills)
    {
      hide FeeOf, FeeIn, Instruments, SoundPositions;
      var f := fills[cursor];
      assert fills[..cursor + 1][..cursor] == fills[..cursor] && fills[..cursor + 1] == fills[..cursor] + [f];
      MirrorsStep(quantities, fills[..cursor], f);
      SoundStep(fills, cursor);
      var held := if f.instrument in quantities then quantities[f.instrument] else 0;
      var q := held + (if f.buy then 1 else -1) * f.quantity;
      cursor := cursor + 1;
      cash := cash + (if f.buy then -f.notional else f.notional) - FeeIn(fees, f.orderId);
      ok := 0 <= q <= MAX_SAFE_INTEGER;
      if ok {
        quantities := quantities[f.instrument := q];
      }
    }
  }

  lemma MirrorsStep(quantities: map<Instrument, int>, fills: seq<Fill>, f: Fill)
    requires Mirrors(quantities, fills)
    ensures var q := (if f.instrument in quantities then quantities[f.instrument] else 0) + Signed(f);
            q == Position(fills + [f], f.instrument) && Mirrors(quantities[f.instrument := q], fills + [f])
  {
    hide Signed;
    InstrumentsStep(fills, f);
    AbsentIsFlat(fills, f.instrument);
    assert (fills + [f])[..|fills|] == fills;
  }

  lemma {:induction false} AbsentIsFlat(fills: seq<Fill>, k: Instrument)
    ensures k !in Instruments(fills) ==> Position(fills, k) == 0
    decreases |fills|
  {
    if fills != [] {
      var n := |fills| - 1;
      AbsentIsFlat(fills[..n], k);
      assert fills == fills[..n] + [fills[n]];
      InstrumentsStep(fills[..n], fills[n]);
    }
  }

  lemma SoundStep(fills: seq<Fill>, i: nat)
    requires i < |fills| && SoundPositions(fills[..i])
    ensures SoundAt(fills, i) ==> SoundPositions(fills[..i + 1])
    ensures !SoundAt(fills, i) ==> !SoundPositions(fills)
  {
    hide Position;
    if SoundAt(fills, i) {
      var longer := fills[..i + 1];
      forall j: nat | j < |longer| ensures SoundAt(longer, j) {
        assert longer[..j + 1] == fills[..j + 1];
        if j < i {
          assert SoundAt(fills[..i], j);
          assert fills[..i][..j + 1] == fills[..j + 1];
        }
      }
    }
  }

  /** The day from the account's running state. */
  method MarkDay(account: Account, ghost start: real, fills: seq<Fill>, ghost costs: seq<Cost>, closes: Closes,
                 date: int, cashFees: real, fillCount: nat) returns (d: Day)
    requires account.After(start, fills, costs) && account.cursor == Passed(fills, date)
    requires cashFees == FeesOn(fills[..account.cursor], costs, date)
    requires fillCount == CountOn(fills[..account.cursor], date)
    ensures d == DayOf(start, fills, costs, closes, date)
  {
    hide Position, Instruments, SoundPositions, Cash, FeesOn, CountOn;
    ghost var done := fills[..account.cursor];
    var quantities := account.quantities;
    var open := set k | k in quantities && quantities[k] > 0;
    assert open == OpenInstruments(done);
    var keys := Listed(open);
    ListedExact(open);
    assert forall i | 0 <= i < |keys| :: keys[i] in keys;
    var holdings := HoldingsIn(keys, quantities, closes, date);
    HoldingsMirror(keys, quantities, done, closes, date);
    var equity := if Complete(holdings) then Some(account.cash + MarketValue(holdings)) else None;
    d := Day(date, account.cash, equity, cashFees, fillCount, holdings);
  }

  function HoldingsIn(keys: seq<Instrument>, quantities: map<Instrument, int>, closes: Closes, date: int): seq<Holding>
    requires forall i | 0 <= i < |keys| :: keys[i] in quantities
  {
    seq(|keys|, i requires 0 <= i < |keys| => Holding(keys[i], quantities[keys[i]], CloseOf(closes, keys[i], date)))
  }

  lemma HoldingsMirror(keys: seq<Instrument>, quantities: map<Instrument, int>, fills: seq<Fill>, closes: Closes,
                       date: int)
    requires Mirrors(quantities, fills) && forall i | 0 <= i < |keys| :: keys[i] in quantities
    ensures HoldingsIn(keys, quantities, closes, date) == Holdings(keys, fills, closes, date)
  {
    hide Position, Instruments;
  }

  /** Drives the cursor through one session; fails when a position becomes unsound. */
  method PassSession(account: Account, ghost start: real, fills: seq<Fill>, ghost costs: seq<Cost>,
                     fees: map<string, real>, date: int) returns (ok: bool, cashFees: real, fillCount: nat)
    requires account.After(start, fills, costs)
    requires forall order :: FeeIn(fees, order) == FeeOf(costs, order)
    requires forall i | 0 <= i < account.cursor :: fills[i].day < date
    modifies account
    ensures !ok ==> !SoundPositions(fills)
    ensures ok ==>
      && account.After(start, fills, costs) && account.cursor == Passed(fills, date)
      && cashFees == FeesOn(fills[..account.cursor], costs, date)
      && fillCount == CountOn(fills[..account.cursor], date)
  {
    hide SoundPositions, Mirrors, Cash, FeeOf, FeeIn;
    NothingOn(fills[..account.cursor], costs, date);
    cashFees, fillCount := 0.0, 0;
    while account.cursor < |fills| && fills[account.cursor].day <= date
      invariant account.After(start, fills, costs)
      invariant forall i | 0 <= i < account.cursor :: fills[i].day <= date
      invariant cashFees == FeesOn(fills[..account.cursor], costs, date)
      invariant fillCount == CountOn(fills[..account.cursor], date)
      decreases |fills| - account.cursor
    {
      var f := fills[account.cursor];
      assert fills[..account.cursor + 1][..account.cursor] == fills[..account.cursor];
      ok := account.Apply(start, fills, costs, fees);
      if !ok {
        return;
      }
      if f.day == date {
        cashFees, fillCount := cashFees + FeeIn(fees, f.orderId), fillCount + 1;
      }
    }
    PassedUnique(fills, date, account.cursor);
    ok := true;
  }

  ghost predicate SoundReplay(start: real, fills: seq<Fill>, costs: seq<Cost>, closes: Closes, sessions: seq<int>) {
    && SoundPositions(fills)
    && forall i | 0 <= i < |sessions| :: SoundDay(DayOf(start, fills, costs, closes, sessions[i]))
  }

  /** Every day of the replay is the day defined from scratch, and the replay fails exactly when some
      position or some day is unsound. */
  method Replay(start: real, fills: seq<Fill>, costs: seq<Cost>, closes: Closes, sessions: seq<int>)
      returns (days: Option<seq<Day>>)
    requires sessions != [] && Ascending(sessions)
    requires forall f | f in fills :: f.day <= sessions[|sessions| - 1]
    ensures days.Some? <==> SoundReplay(start, fills, costs, closes, sessions)
    ensures days.Some? ==>
      |days.value| == |sessions|
      && forall i | 0 <= i < |sessions| :: days.value[i] == DayOf(start, fills, costs, closes, sessions[i])
  {
    hide SoundPositions, FeeOf, FeeIn, DayOf, SoundDay, Passed, Account.After;
    var fees := GroupFees(costs);
    var account := new Account(start);
    NothingDone(account, start, fills, costs);
    var done: seq<Day> := [];
    for i := 0 to |sessions|
      invariant fresh(account) && account.After(start, fills, costs)
      invariant account.cursor == CursorBefore(fills, sessions, i)
      invariant |done| == i
      invariant forall k | 0 <= k < i :: done[k] == DayOf(start, fills, costs, closes, sessions[k]) && SoundDay(done[k])
    {
      var date := sessions[i];
      CursorBeforeSession(fills, sessions, i);
      var ok, cashFees, fillCount := PassSession(account, start, fills, costs, fees, date);
      if !ok {
        return None;
      }
      var day := MarkDay(account, start, fills, costs, closes, date, cashFees, fillCount);
      if !SoundDay(day) {
        return None;
      }
      done := done + [day];
    }
    AllPassed(account, start, fills, costs, sessions[|sessions| - 1]);
    return Some(done);
  }

  lemma NothingDone(account: Account, start: real, fills: seq<Fill>, costs: seq<Cost>)
    requires account.cursor == 0 && account.cash == start && account.quantities == map[]
    ensures account.After(start, fills, costs)
  {
  }

  lemma CursorBeforeSession(fills: seq<Fill>, sessions: seq<int>, i: nat)
    requires i < |sessions| && Ascending(sessions)
    ensures CursorBefore(fills, sessions, i) <= |fills|
    ensures forall k | 0 <= k < CursorBefore(fills, sessions, i) :: fills[k].day < sessions[i]
  {
  }

  lemma AllPassed(account: Account, start: real, fills: seq<Fill>, costs: seq<Cost>, date: int)
    requires forall f | f in fills :: f.day <= date
    requires account.After(start, fills, costs) && account.cursor == Passed(fills, date)
    ensures SoundPositions(fills)
  {
    PassedUnique(fills, date, |fills|);
    assert fills[..|fills|] == fills;
  }

  // ---------- the fills and sessions that are shown ----------

  function UpTo(entries: seq<Fill>, date: int): seq<Fill> {
    if entries == [] then []
    else
      UpTo(entries[..|entries| - 1], date)
      + if entries[|entries| - 1].day <= date then [entries[|entries| - 1]] else []
  }

  lemma {:induction false} UpToExact(entries: seq<Fill>, date: int)
    ensures forall f :: f in UpTo(entries, date) <==> f in entries && f.day <= date
    decreases |entries|
  {
    if entries != [] {
      var n := |entries| - 1;
      UpToExact(entries[..n], date);
      assert entries == entries[..n] + [entries[n]];
    }
  }

  lemma {:induction false} UpToShorter(entries: seq<Fill>, date: int)
    ensures |UpTo(entries, date)| <= |entries|
    decreases |entries|
  {
    if entries != [] {
      UpToShorter(entries[..|entries| - 1], date);
    }
  }

  function LastWindow(sessions: seq<int>): seq<int> {
    if |sessions| <= WINDOW then sessions else sessions[|sessions| - WINDOW..]
  }
}
