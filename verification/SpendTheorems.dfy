/** What every interleaving of reservations and settlements keeps. */
module SpendTheorems {
  import opened Prelude
  import opened SpendLedger
  import opened SpendStore

  datatype Event =
    | ReserveEvent(p: Payload, raw: string, day: Option<int>, id: string)
    | SettleEvent(settled: string, usage: Usage)

  function Step(l: Ledger, e: Event): Ledger {
    match e
    case ReserveEvent(p, raw, day, id) => ReserveChat(l, p, raw, day, id).0
    case SettleEvent(id, u) => SettleChat(l, id, u)
  }

  function Run(events: seq<Event>): Ledger {
    if events == [] then EMPTY_LEDGER else Step(Run(events[..|events| - 1]), events[|events| - 1])
  }

  // ---------- the accounting invariant ----------

  function OpenAmount(r: Request, day: int): int {
    if r.day == day && Open(r) then r.reserved else 0
  }

  function SettledAmount(r: Request, day: int): int {
    if r.day == day && !Open(r) then r.spent.value else 0
  }

  function OpenSum(rows: seq<Request>, day: int): int {
    if rows == [] then 0 else OpenSum(rows[..|rows| - 1], day) + OpenAmount(rows[|rows| - 1], day)
  }

  function SettledSum(rows: seq<Request>, day: int): int {
    if rows == [] then 0 else SettledSum(rows[..|rows| - 1], day) + SettledAmount(rows[|rows| - 1], day)
  }

  ghost predicate DistinctIds(rows: seq<Request>) {
    forall i, j | 0 <= i < j < |rows| :: rows[i].id != rows[j].id
  }

  /** The counters of one day against the request rows. */
  ghost predicate Balanced(l: Ledger, day: int) {
    day in l.days ==>
      l.days[day].reserved == OpenSum(l.requests, day) && l.days[day].spent == SettledSum(l.requests, day)
  }

  /** The activation hold: days up to activation carry at least their limit, later days nothing. */
  ghost predicate Held(l: Ledger, day: int) {
    day in l.days ==>
      && l.activation.Some? && 0 < l.days[day].limit <= 1_000_000_000
      && (if day <= l.activation.value then l.days[day].limit <= l.days[day].carried else l.days[day].carried == 0)
  }

  ghost predicate GoodRequest(l: Ledger, r: Request) {
    && r.day in l.days && l.activation.Some? && l.activation.value < r.day
    && r.model == MODEL && r.reserved > 0
  }

  ghost predicate Inv(l: Ledger) {
    && (forall day :: Balanced(l, day) && Held(l, day))
    && (forall i | 0 <= i < |l.requests| :: GoodRequest(l, l.requests[i]))
    && DistinctIds(l.requests)
  }

  lemma {:induction false} SumUpdate(rows: seq<Request>, i: nat, r: Request, day: int)
    requires i < |rows|
    ensures OpenSum(rows[i := r], day) == OpenSum(rows, day) - OpenAmount(rows[i], day) + OpenAmount(r, day)
    ensures SettledSum(rows[i := r], day) == SettledSum(rows, day) - SettledAmount(rows[i], day) + SettledAmount(r, day)
    decreases |rows|
  {
    var n := |rows| - 1;
    if i < n {
      SumUpdate(rows[..n], i, r, day);
      assert rows[i := r][..n] == rows[..n][i := r];
    } else {
      assert rows[i := r][..n] == rows[..n];
    }
  }

  lemma SumAppend(rows: seq<Request>, r: Request, day: int)
    ensures OpenSum(rows + [r], day) == OpenSum(rows, day) + OpenAmount(r, day)
    ensures SettledSum(rows + [r], day) == SettledSum(rows, day) + SettledAmount(r, day)
  {
    assert (rows + [r])[..|rows|] == rows;
  }

  lemma {:induction false} NoRequestsNoSum(rows: seq<Request>, day: int)
    requires forall i | 0 <= i < |rows| :: rows[i].day != day
    ensures OpenSum(rows, day) == 0 && SettledSum(rows, day) == 0
    decreases |rows|
  {
    if rows != [] {
      NoRequestsNoSum(rows[..|rows| - 1], day);
    }
  }

  lemma EstimatePositive(p: Payload, day: int)
    ensures EstimateChat(p, day).Some? ==> EstimateChat(p, day).value > 0
  {
  }

  lemma CapBounds(raw: string)
    ensures ReserveCap(raw).Some? ==> 0 < ReserveCap(raw).value <= 1_000_000_000
  {
  }

  lemma OpenedKeeps(l: Ledger, day: int, cap: nat)
    requires Inv(l) && 0 < cap <= 1_000_000_000
    ensures Inv(Opened(l, day, cap))
  {
    hide OpenSum, SettledSum;
    var l' := Opened(l, day, cap);
    if day !in l.days {
      assert forall i | 0 <= i < |l.requests| :: GoodRequest(l, l.requests[i]);
      NoRequestsNoSum(l.requests, day);
    }
    forall d ensures Balanced(l', d) && Held(l', d) {
      assert Balanced(l, d) && Held(l, d);
    }
    forall i | 0 <= i < |l'.requests| ensures GoodRequest(l', l'.requests[i]) {
      assert GoodRequest(l, l.requests[i]);
    }
  }

  lemma AdmittedKeeps(l: Ledger, amount: nat, cap: nat, day: int, id: string)
    requires Inv(l) && 0 < cap <= 1_000_000_000 && amount > 0
    requires Reserved(l, amount, cap, day, id).1.Ticket?
    ensures Inv(Reserved(l, amount, cap, day, id).0)
  {
    hide OpenSum, SettledSum;
    OpenedKeeps(l, day, cap);
    var o := Opened(l, day, cap);
    var l' := Reserved(l, amount, cap, day, id).0;
    var r := Request(id, day, MODEL, amount, None);
    forall d ensures Balanced(l', d) && Held(l', d) {
      assert Balanced(o, d) && Held(o, d);
      SumAppend(l.requests, r, d);
    }
    assert Held(o, day);
    OpenNonNegative(l.requests, day);
    assert Balanced(o, day);
    forall i | 0 <= i < |l'.requests| ensures GoodRequest(l', l'.requests[i]) {
      if i < |l.requests| {
        assert GoodRequest(o, o.requests[i]);
      }
    }
  }

  lemma {:induction false} OpenNonNegative(rows: seq<Request>, day: int)
    ensures OpenSum(rows, day) >= 0 && SettledSum(rows, day) >= 0
    decreases |rows|
  {
    if rows != [] {
      OpenNonNegative(rows[..|rows| - 1], day);
    }
  }

  lemma SettledKeeps(l: Ledger, id: string, u: Usage)
    requires Inv(l)
    ensures Inv(SettleChat(l, id, u))
  {
    hide OpenSum, SettledSum, Spent, ValidUsage;
    var l' := SettleChat(l, id, u);
    var at := Find(l.requests, id);
    if l' != l {
      var i := at.value;
      var r := l.requests[i];
      assert GoodRequest(l, r);
      forall d ensures Balanced(l', d) && Held(l', d) {
        assert Balanced(l, d) && Held(l, d);
        SumUpdate(l.requests, i, r.(spent := Some(Spent(u))), d);
      }
      forall k | 0 <= k < |l'.requests| ensures GoodRequest(l', l'.requests[k]) {
        assert GoodRequest(l, l.requests[k]);
      }
    }
  }

  lemma StepKeeps(l: Ledger, e: Event)
    requires Inv(l)
    ensures Inv(Step(l, e))
  {
    hide Inv, EstimateChat, ReserveCap;
    match e {
      case SettleEvent(id, u) => SettledKeeps(l, id, u);
      case ReserveEvent(p, raw, day, id) =>
        if day.Some? && EstimateChat(p, day.value).Some? && ReserveCap(raw).Some? {
          EstimatePositive(p, day.value);
          CapBounds(raw);
          var amount, cap := EstimateChat(p, day.value).value, ReserveCap(raw).value;
          OpenedKeeps(l, day.value, cap);
          if Reserved(l, amount, cap, day.value, id).1.Ticket? {
            AdmittedKeeps(l, amount, cap, day.value, id);
          }
        }
    }
  }

  /** Over every interleaving: each day's reserved counter is the sum of its open reservations, its
      spent counter the sum of its settled costs, ids are distinct, and no request belongs to a day
      at or before the activation day. */
  lemma {:induction false} RunKeeps(events: seq<Event>)
    ensures Inv(Run(events))
    decreases |events|
  {
    hide Step, Inv;
    if events == [] {
      EmptyInv();
    } else {
      RunKeeps(events[..|events| - 1]);
      StepKeeps(Run(events[..|events| - 1]), events[|events| - 1]);
    }
  }

  lemma EmptyInv()
    ensures Inv(EMPTY_LEDGER)
  {
  }

  /** The counters of a reachable ledger, spelled out. */
  lemma CountersAreSums(events: seq<Event>, day: int)
    requires day in Run(events).days
    ensures var l := Run(events);
      && l.days[day].reserved == OpenSum(l.requests, day)
      && l.days[day].spent == SettledSum(l.requests, day)
      && l.activation.Some?
      && (forall i | 0 <= i < |l.requests| :: l.activation.value < l.requests[i].day)
      && DistinctIds(l.requests)
  {
    hide Step, OpenSum, SettledSum;
    RunKeeps(events);
    var l := Run(events);
    assert Balanced(l, day) && Held(l, day);
    forall i | 0 <= i < |l.requests| ensures l.activation.value < l.requests[i].day {
      assert GoodRequest(l, l.requests[i]);
    }
  }

  // ---------- admission against the status page ----------

  /** In every reachable ledger, with its database or before there is one, a priced request with a
      fresh id is admitted exactly when it fits in what the status page says remains. */
  lemma AdmittedExactlyWithinRemaining(created: bool, l: Ledger, p: Payload, raw: string, day: int, id: string)
    requires Inv(l) && (!created ==> l == EMPTY_LEDGER)
    requires EstimateChat(p, day).Some? && !SpendLedger.Known(l.requests, id)
    ensures ReserveChat(l, p, raw, Some(day), id).1.Ticket?
       <==> EstimateChat(p, day).value <= Remaining(StatusOf(created, l, Some(raw), Some(day)))
  {
    CapReadingsAgree(raw);
    EstimatePositive(p, day);
    assert Held(l, day);
    hide ReserveCap, StatusCap, OpenSum, SettledSum;
  }

  /** The configured text is a cap, and the day one that has a price. */
  predicate Readable(l: Ledger, raw: string, day: Option<int>) {
    && ReserveCap(raw).Some? && l.activation.Some? && day.Some? && day.value <= EXPIRES
    && (day.value in l.days ==> Safe(l.days[day.value]))
  }

  /** The status page of a reachable ledger: off without a cap, unavailable when the cap or the day cannot be read, a
      hold before the database exists and up to the day of activation. After that it has budget exactly when some
      amount would still be admitted, and is exhausted when none would. */
  lemma StatusExact(created: bool, l: Ledger, raw: Option<string>, day: Option<int>, id: string)
    requires Inv(l) && (!created ==> l == EMPTY_LEDGER) && !SpendLedger.Known(l.requests, id)
    ensures var s := StatusOf(created, l, raw, day);
      && (s.StatusOff? <==> raw.None?)
      && (s.StatusUnavailable? <==>
            raw.Some? && (ReserveCap(raw.value).None? || (created && !Readable(l, raw.value, day))))
      && (s.Shown? && !created ==> s.budget == ActivationHold)
      && (s.Shown? && created ==>
            && (s.budget == ActivationHold <==> day.value <= l.activation.value)
            && (s.budget == HasBudget <==>
                  exists n: nat :: n > 0 && Reserved(l, n, ReserveCap(raw.value).value, day.value, id).1.Ticket?)
            && (day.value in l.days ==>
                  s.reserved == OpenSum(l.requests, day.value) && s.spent == SettledSum(l.requests, day.value)))
  {
    if raw.Some? {
      CapReadingsAgree(raw.value);
    }
    hide OpenSum, SettledSum, StatusCap, ReserveCap;
    if raw.Some? && ReserveCap(raw.value).Some? && created && Readable(l, raw.value, day) {
      CapInRange(raw.value);
      BudgetExact(l, ReserveCap(raw.value).value, day.value, id);
      assert Held(l, day.value) && Balanced(l, day.value);
    }
  }

  lemma CapInRange(raw: string)
    requires ReserveCap(raw).Some?
    ensures 0 < ReserveCap(raw).value <= 1_000_000_000
  {
    hide CapShape;
  }

  /** Past activation some amount is admitted exactly when the row's total is below its limit; up to it none is. */
  lemma BudgetExact(l: Ledger, cap: nat, day: int, id: string)
    requires Inv(l) && 0 < cap <= 1_000_000_000 && !SpendLedger.Known(l.requests, id) && l.activation.Some?
    requires day in l.days ==> Safe(l.days[day])
    ensures var row := OpenedRow(l, day, cap);
      && (day <= l.activation.value <==> row.carried > 0)
      && (day <= l.activation.value ==> row.limit <= row.carried)
      && ((exists n: nat :: n > 0 && Reserved(l, n, cap, day, id).1.Ticket?) <==> Total(row) < row.limit)
  {
    assert Held(l, day);
    hide OpenSum, SettledSum, SpendLedger.Known;
    var row := OpenedRow(l, day, cap);
    if Total(row) < row.limit {
      assert Reserved(l, 1, cap, day, id).1.Ticket?;
    }
  }

  // ---------- settlements ----------

  /** A settled row is never touched again, and rows are only ever appended. */
  lemma SettledStays(l: Ledger, e: Event, i: nat)
    requires i < |l.requests|
    ensures i < |Step(l, e).requests| && Step(l, e).requests[i].(spent := None) == l.requests[i].(spent := None)
    ensures !Open(l.requests[i]) ==> Step(l, e).requests[i] == l.requests[i]
  {
    hide Spent, EstimateChat, ReserveCap;
  }

  /** No request settles twice: its cost, once recorded, is its cost after every later event. */
  lemma {:induction false} NoSecondSettlement(events: seq<Event>, n: nat, i: nat)
    requires n <= |events| && i < |Run(events[..n]).requests|
    ensures i < |Run(events).requests|
    ensures !Open(Run(events[..n]).requests[i]) ==> Run(events).requests[i] == Run(events[..n]).requests[i]
    decreases |events|
  {
    hide Step;
    if n == |events| {
      assert events[..n] == events;
    } else {
      var m := |events| - 1;
      assert events[..m][..n] == events[..n];
      NoSecondSettlement(events[..m], n, i);
      SettledStays(Run(events[..m]), events[m], i);
    }
  }

  // ---------- the limit ----------

  /** The event is a reservation for this day whose transaction commits, under this cap. */
  ghost predicate Commits(l: Ledger, e: Event, day: int, cap: nat) {
    && e.ReserveEvent? && e.day == Some(day) && ReserveCap(e.raw) == Some(cap) && EstimateChat(e.p, day).Some?
    && !RollsBack(l, EstimateChat(e.p, day).value, cap, day, e.id)
  }

  ghost predicate Presents(events: seq<Event>, n: nat, day: int, cap: nat) {
    n < |events| && Commits(Run(events[..n]), events[n], day, cap)
  }

  lemma LimitStep(l: Ledger, e: Event, day: int)
    ensures forall cap: nat | Commits(l, e, day, cap) ::
      day in Step(l, e).days && Step(l, e).days[day].limit == if day in l.days then Min(l.days[day].limit, cap) else cap
    ensures (forall cap: nat :: !Commits(l, e, day, cap)) ==>
      (day in Step(l, e).days <==> day in l.days)
      && (day in l.days ==> Step(l, e).days[day].limit == l.days[day].limit)
  {
    hide ReserveCap, EstimateChat, Spent, RollsBack;
    if e.ReserveEvent? && e.day == Some(day) && ReserveCap(e.raw).Some? {
      assert Commits(l, e, day, ReserveCap(e.raw).value) || Step(l, e) == l;
    }
  }

  lemma CommitsOnce(l: Ledger, e: Event, day: int, c: nat, c': nat)
    requires Commits(l, e, day, c) && Commits(l, e, day, c')
    ensures c == c'
  {
  }

  lemma PresentsStep(events: seq<Event>, n: nat, day: int, cap: nat)
    requires events != []
    ensures Presents(events, n, day, cap) <==>
      if n == |events| - 1 then Commits(Run(events[..n]), events[n], day, cap)
      else Presents(events[..|events| - 1], n, day, cap)
  {
    hide Run, RollsBack, ReserveCap, EstimateChat;
    if n < |events| - 1 {
      assert events[..|events| - 1][..n] == events[..n];
    }
  }

  /** The stored limit of a day is the smallest cap presented for it. */
  lemma {:induction false} LimitIsSmallestCap(events: seq<Event>, day: int)
    ensures day in Run(events).days <==> exists n: nat, cap: nat :: Presents(events, n, day, cap)
    ensures day in Run(events).days ==>
      && (forall n: nat, cap: nat | Presents(events, n, day, cap) :: Run(events).days[day].limit <= cap)
      && (exists n: nat, cap: nat :: Presents(events, n, day, cap) && Run(events).days[day].limit == cap)
    decreases |events|
  {
    hide Presents, Commits, Step;
    if events == [] {
      NothingPresented(day);
    } else {
      var m := |events| - 1;
      var before, l := events[..m], Run(events[..m]);
      LimitIsSmallestCap(before, day);
      LimitStep(l, events[m], day);
      forall n: nat, cap: nat
        ensures Presents(events, n, day, cap) <==>
          if n == m then Commits(l, events[m], day, cap) else Presents(before, n, day, cap)
      {
        PresentsStep(events, n, day, cap);
      }
      forall n: nat, cap: nat | Presents(before, n, day, cap) ensures n < m {
        PresentedBefore(before, n, day, cap);
      }
      if cap: nat :| Commits(l, events[m], day, cap) {
        assert Presents(events, m, day, cap);
        forall c: nat | Commits(l, events[m], day, c) ensures c == cap {
          CommitsOnce(l, events[m], day, c, cap);
        }
      }
    }
  }

  lemma NothingPresented(day: int)
    ensures forall n: nat, cap: nat :: !Presents([], n, day, cap)
  {
  }

  lemma PresentedBefore(events: seq<Event>, n: nat, day: int, cap: nat)
    requires Presents(events, n, day, cap)
    ensures n < |events|
  {
  }

  /** Every admission leaves carried plus spent plus reserved within every cap presented that day so
      far, its own included. */
  lemma AdmissionWithinEveryCap(events: seq<Event>, e: Event, day: int, n: nat, cap: nat)
    requires e.ReserveEvent? && e.day == Some(day)
    requires ReserveChat(Run(events), e.p, e.raw, e.day, e.id).1.Ticket?
    requires Presents(events + [e], n, day, cap)
    ensures day in Run(events + [e]).days && Total(Run(events + [e]).days[day]) <= cap
  {
    hide Presents, EstimateChat, ReserveCap;
    assert (events + [e])[..|events|] == events;
    LimitIsSmallestCap(events + [e], day);
    assert Total(Run(events + [e]).days[day]) <= Run(events + [e]).days[day].limit;
  }

  // ---------- when the total stays within the limit ----------

  ghost predicate WithinLimit(l: Ledger, day: int) {
    day in l.days ==> Total(l.days[day]) <= l.days[day].limit
  }

  /** The guard a step must pass: a committed refusal must not lower the limit below the total, and a
      settlement must not cost more than its reservation plus what is left. */
  ghost predicate KeepsWithin(l: Ledger, e: Event, day: int) {
    match e
    case ReserveEvent(p, raw, d, id) =>
      d == Some(day) && day in l.days && ReserveCap(raw).Some? && EstimateChat(p, day).Some?
      && !RollsBack(l, EstimateChat(p, day).value, ReserveCap(raw).value, day, id)
      ==> Total(l.days[day]) <= ReserveCap(raw).value
    case SettleEvent(id, u) =>
      var at := Find(l.requests, id);
      ValidUsage(u) && at.Some? && Open(l.requests[at.value]) && l.requests[at.value].day == day && day in l.days
      ==> Spent(u) - l.requests[at.value].reserved <= l.days[day].limit - Total(l.days[day])
  }

  /** From a reachable ledger whose day is within its limit, a step leaves it within its limit exactly
      when it passes the guard. */
  lemma WithinLimitExact(l: Ledger, e: Event, day: int)
    requires Inv(l) && WithinLimit(l, day)
    ensures WithinLimit(Step(l, e), day) <==> KeepsWithin(l, e, day)
  {
    hide OpenSum, SettledSum, Spent, EstimateChat, ReserveCap, ValidUsage;
    match e {
      case ReserveEvent(p, raw, d, id) =>
        assert Held(l, day);
      case SettleEvent(id, u) =>
        var at := Find(l.requests, id);
        if at.Some? {
          assert GoodRequest(l, l.requests[at.value]);
        }
    }
  }

  ghost predicate GuardedAt(events: seq<Event>, n: nat, day: int)
    requires n < |events|
  {
    KeepsWithin(Run(events[..n]), events[n], day)
  }

  ghost predicate WithinAt(events: seq<Event>, n: nat, day: int)
    requires n <= |events|
  {
    WithinLimit(Run(events[..n]), day)
  }

  lemma GuardDecides(events: seq<Event>, n: nat, day: int)
    requires n < |events| && WithinAt(events, n, day)
    ensures WithinAt(events, n + 1, day) <==> GuardedAt(events, n, day)
  {
    hide KeepsWithin, Step, Inv, WithinLimit;
    RunKeeps(events[..n]);
    WithinLimitExact(Run(events[..n]), events[n], day);
    assert events[..n + 1][..n] == events[..n];
  }

  lemma {:induction false} GuardedIsWithin(events: seq<Event>, n: nat, day: int)
    requires n <= |events| && forall m: nat | m < |events| :: GuardedAt(events, m, day)
    ensures WithinAt(events, n, day)
    decreases n
  {
    hide GuardedAt;
    if n == 0 {
      assert events[..0] == [];
    } else {
      GuardedIsWithin(events, n - 1, day);
      GuardDecides(events, n - 1, day);
    }
  }

  /** A run stays within the day's limit throughout exactly when each of its steps passes the guard in the
      ledger it finds. */
  lemma RunWithinLimit(events: seq<Event>, day: int)
    ensures (forall n: nat | n <= |events| :: WithinAt(events, n, day))
       <==> (forall n: nat | n < |events| :: GuardedAt(events, n, day))
  {
    hide GuardedAt, WithinAt;
    if forall n: nat | n < |events| :: GuardedAt(events, n, day) {
      forall n: nat | n <= |events| ensures WithinAt(events, n, day) {
        GuardedIsWithin(events, n, day);
      }
    }
    if forall n: nat | n <= |events| :: WithinAt(events, n, day) {
      forall n: nat | n < |events| ensures GuardedAt(events, n, day) {
        assert WithinAt(events, n, day) && WithinAt(events, n + 1, day);
        GuardDecides(events, n, day);
      }
    }
  }

  /** A settlement whose usage stays within the estimate its reservation was priced by never raises
      the day's total. */
  lemma SettlementNeverRaises(l: Ledger, id: string, u: Usage, p: Payload, day: int)
    requires Inv(l) && Find(l.requests, id).Some?
    requires var r := l.requests[Find(l.requests, id).value];
      r.day == day && EstimateChat(p, day) == Some(r.reserved)
    requires ValidUsage(u) && u.output.value <= p.maxTokens
    requires u.input.value + OrZero(u.cacheCreation) + OrZero(u.cacheRead) <= InputTokens(p)
    ensures day in l.days && Total(SettleChat(l, id, u).days[day]) <= Total(l.days[day])
  {
    PriceCoversUsage(p, day, u);
    hide OpenSum, SettledSum, Spent, EstimateChat;
    var r := l.requests[Find(l.requests, id).value];
    assert GoodRequest(l, r);
  }

  // ---------- what callers can do to stay within the limit ----------

  /** Every readable cap presented for the day is this one. */
  ghost predicate OneCap(events: seq<Event>, day: int, cap: nat) {
    forall e | e in events && e.ReserveEvent? && e.day == Some(day) && ReserveCap(e.raw).Some? ::
      ReserveCap(e.raw).value == cap
  }

  predicate WithinPayload(u: Usage, p: Payload) {
    ValidUsage(u) ==>
      u.output.value <= p.maxTokens && u.input.value + OrZero(u.cacheCreation) + OrZero(u.cacheRead) <= InputTokens(p)
  }

  /** Every usage settled under an id is within the payloads that id was to be reserved for that day. */
  ghost predicate SettledWithinPayload(events: seq<Event>, day: int) {
    forall s, e | s in events && e in events
                  && s.SettleEvent? && e.ReserveEvent? && e.day == Some(day) && e.id == s.settled ::
      WithinPayload(s.usage, e.p)
  }

  ghost predicate ReservedBy(e: Event, r: Request) {
    e.ReserveEvent? && e.day == Some(r.day) && e.id == r.id && EstimateChat(e.p, r.day) == Some(r.reserved)
  }

  ghost predicate HasOrigin(events: seq<Event>, r: Request) {
    exists e :: e in events && ReservedBy(e, r)
  }

  lemma StepOrigin(l: Ledger, e: Event, i: nat)
    requires i < |Step(l, e).requests|
    ensures ReservedBy(e, Step(l, e).requests[i])
         || (i < |l.requests| && Step(l, e).requests[i].(spent := None) == l.requests[i].(spent := None))
  {
    hide EstimateChat, ReserveCap, Spent, ValidUsage;
  }

  /** Every request row comes from a reservation priced for its amount. */
  lemma {:induction false} RequestsHaveOrigins(events: seq<Event>, i: nat)
    requires i < |Run(events).requests|
    ensures HasOrigin(events, Run(events).requests[i])
    decreases |events|
  {
    hide Step, ReservedBy;
    if events != [] {
      var n := |events| - 1;
      assert events == events[..n] + [events[n]];
      StepOrigin(Run(events[..n]), events[n], i);
      if !ReservedBy(events[n], Run(events).requests[i]) {
        RequestsHaveOrigins(events[..n], i);
        var e :| e in events[..n] && ReservedBy(e, Run(events[..n]).requests[i]);
        SameOrigin(e, Run(events[..n]).requests[i], Run(events).requests[i]);
      }
    }
  }

  lemma SameOrigin(e: Event, r: Request, r': Request)
    requires ReservedBy(e, r) && r.(spent := None) == r'.(spent := None)
    ensures ReservedBy(e, r')
  {
  }

  lemma OneCapIsLimit(events: seq<Event>, day: int, cap: nat)
    requires OneCap(events, day, cap) && day in Run(events).days
    ensures Run(events).days[day].limit == cap
  {
    hide Run, ReserveCap;
    LimitIsSmallestCap(events, day);
    var n: nat, presented: nat :| Presents(events, n, day, presented) && Run(events).days[day].limit == presented;
    assert events[n] in events;
  }

  lemma PayloadCoversSettlement(l: Ledger, e: Event, origin: Event, i: nat)
    requires e.SettleEvent? && i < |l.requests| && ReservedBy(origin, l.requests[i])
    requires ValidUsage(e.usage) && WithinPayload(e.usage, origin.p)
    ensures Spent(e.usage) <= l.requests[i].reserved
  {
    PriceCoversUsage(origin.p, l.requests[i].day, e.usage);
  }

  lemma GuardFromInputs(events: seq<Event>, e: Event, day: int, cap: nat)
    requires OneCap(events + [e], day, cap) && SettledWithinPayload(events + [e], day)
    requires WithinLimit(Run(events), day)
    ensures KeepsWithin(Run(events), e, day)
  {
    hide Run, Spent, EstimateChat, ReserveCap, ValidUsage, WithinPayload, InputTokens, RollsBack;
    var l := Run(events);
    assert e in events + [e];
    if day in l.days {
      assert OneCap(events, day, cap) by { assert forall x | x in events :: x in events + [e]; }
      OneCapIsLimit(events, day, cap);
    }
    if e.SettleEvent? && Find(l.requests, e.settled).Some? && ValidUsage(e.usage) {
      var i := Find(l.requests, e.settled).value;
      RequestsHaveOrigins(events, i);
      var origin :| origin in events && ReservedBy(origin, l.requests[i]);
      if l.requests[i].day == day {
        assert origin in events + [e];
        PayloadCoversSettlement(l, e, origin, i);
      }
    }
  }

  /** If one cap is presented all day and every settled usage is within the payload its id was reserved for,
      no run takes the day past its limit, which is that cap. */
  lemma {:induction false} OneCapKeepsLimit(events: seq<Event>, day: int, cap: nat)
    requires OneCap(events, day, cap) && SettledWithinPayload(events, day)
    ensures WithinLimit(Run(events), day)
    ensures day in Run(events).days ==> Run(events).days[day].limit == cap
    decreases |events|
  {
    hide Step, Inv, KeepsWithin, WithinPayload, ReserveCap;
    if events != [] {
      var n := |events| - 1;
      assert events == events[..n] + [events[n]];
      OneCapKeepsLimit(events[..n], day, cap);
      RunKeeps(events[..n]);
      GuardFromInputs(events[..n], events[n], day, cap);
      WithinLimitExact(Run(events[..n]), events[n], day);
    }
    if day in Run(events).days {
      OneCapIsLimit(events, day, cap);
    }
  }

  // ---------- the two ways past the limit ----------

  const SMALL_CALL := Payload(MODEL, 1, ["user"], false, 100)

  /** The first call of a deployment activates the ledger and is held; the next day's is admitted. */
  const TWO_DAYS: seq<Event> :=
    [ReserveEvent(SMALL_CALL, "1", Some(1), "x"), ReserveEvent(SMALL_CALL, "1", Some(2), "a")]

  lemma OneDollar()
    ensures ReserveCap("1") == Some(1_000_000)
  {
    assert "1"[..1] == "1" && LeadingDigits("1"[1..]) == 0 && LeadingDigits("1") == 1;
    assert Numeral("1") == 1;
    assert "00"[..1] == "0" && Numeral("0") == 0 && Numeral("00") == 0;
  }

  lemma OneCent()
    ensures ReserveCap("0.01") == Some(10_000)
  {
    assert "0.01"[..1] == "0" && "0.01"[2..] == "01";
    assert LeadingDigits("0.01"[1..]) == 0 && LeadingDigits("0.01") == 1;
    assert "01"[..1] == "0" && Numeral("0") == 0 && Numeral("01") == 1;
  }

  lemma SmallEstimate(day: int)
    requires day <= EXPIRES
    ensures EstimateChat(SMALL_CALL, day) == Some(17_194)
  {
  }

  lemma SmallAmounts()
    ensures ReserveCap("1") == Some(1_000_000) && ReserveCap("0.01") == Some(10_000)
    ensures forall day | day <= EXPIRES :: EstimateChat(SMALL_CALL, day) == Some(17_194)
  {
    hide ReserveCap, EstimateChat;
    OneDollar();
    OneCent();
    forall day | day <= EXPIRES ensures EstimateChat(SMALL_CALL, day) == Some(17_194) {
      SmallEstimate(day);
    }
  }

  const DAY_ONE := Ledger(Some(1), map[1 := DayRow(1_000_000, 0, 0, 1_000_000)], [])

  const DAY_TWO := Ledger(Some(1), map[1 := DayRow(1_000_000, 0, 0, 1_000_000), 2 := DayRow(1_000_000, 0, 17_194, 0)],
                          [Request("a", 2, MODEL, 17_194, None)])

  lemma HoldFirstDay()
    ensures Reserved(EMPTY_LEDGER, 17_194, 1_000_000, 1, "x").0 == DAY_ONE
  {
    var row := OpenedRow(EMPTY_LEDGER, 1, 1_000_000);
    assert row == DayRow(1_000_000, 0, 0, 1_000_000);
    assert !RollsBack(EMPTY_LEDGER, 17_194, 1_000_000, 1, "x") && Total(row) + 17_194 > row.limit;
    assert EMPTY_LEDGER.days[1 := row] == DAY_ONE.days;
  }

  lemma DayOne()
    ensures Step(EMPTY_LEDGER, ReserveEvent(SMALL_CALL, "1", Some(1), "x")) == DAY_ONE
  {
    SmallAmounts();
    HoldFirstDay();
    hide EstimateChat, ReserveCap, Reserved;
  }

  lemma SecondRow()
    ensures OpenedRow(DAY_ONE, 2, 1_000_000) == DayRow(1_000_000, 0, 0, 0)
  {
  }

  lemma NobodyKnown(id: string)
    ensures !SpendLedger.Known(DAY_ONE.requests, id)
  {
  }

  /** A reservation under a fresh id that fits its row is that row with the amount added. */
  lemma AdmitsAs(l: Ledger, amount: nat, cap: nat, day: int, id: string, row: DayRow)
    requires OpenedRow(l, day, cap) == row && Safe(row) && Total(row) + amount <= row.limit
    requires !SpendLedger.Known(l.requests, id)
    ensures Reserved(l, amount, cap, day, id).0
         == Ledger(Some(Activation(l, day)), l.days[day := row.(reserved := row.reserved + amount)],
                   l.requests + [Request(id, day, MODEL, amount, None)])
  {
    hide OpenedRow, SpendLedger.Known, Activation, Safe, Total;
  }

  lemma SecondDays()
    ensures DAY_ONE.days[2 := DayRow(1_000_000, 0, 17_194, 0)] == DAY_TWO.days
  {
  }

  lemma AdmitSecondDay()
    ensures Reserved(DAY_ONE, 17_194, 1_000_000, 2, "a").0 == DAY_TWO
  {
    hide Reserved, SpendLedger.Known, OpenedRow;
    SecondRow();
    NobodyKnown("a");
    AdmitsAs(DAY_ONE, 17_194, 1_000_000, 2, "a", DayRow(1_000_000, 0, 0, 0));
    SecondDays();
  }

  lemma DayTwo()
    ensures Step(DAY_ONE, ReserveEvent(SMALL_CALL, "1", Some(2), "a")) == DAY_TWO
  {
    SmallAmounts();
    AdmitSecondDay();
    hide EstimateChat, ReserveCap, Reserved;
  }

  lemma AfterTwoDays()
    ensures Run(TWO_DAYS) == DAY_TWO
  {
    hide Step;
    DayOne();
    DayTwo();
    assert TWO_DAYS[..1] == [TWO_DAYS[0]] && [TWO_DAYS[0]][..0] == [];
    assert Run([TWO_DAYS[0]]) == Step(EMPTY_LEDGER, TWO_DAYS[0]);
  }

  lemma RunThird(e: Event)
    ensures Run(TWO_DAYS + [e]) == Step(Run(TWO_DAYS), e)
  {
    hide Step;
    assert (TWO_DAYS + [e])[..2] == TWO_DAYS;
  }

  lemma RefuseAndLower()
    ensures !WithinLimit(Reserved(DAY_TWO, 17_194, 10_000, 2, "b").0, 2)
  {
    var row := OpenedRow(DAY_TWO, 2, 10_000);
    assert row == DayRow(10_000, 0, 17_194, 0);
    assert !RollsBack(DAY_TWO, 17_194, 10_000, 2, "b") && Total(row) + 17_194 > row.limit;
    assert Opened(DAY_TWO, 2, 10_000).days[2] == row;
  }

  /** Without the guard a run passes the limit: the reservation made under one dollar is followed by a
      call under a cap of one cent, which is refused but lowers the limit below what is reserved. */
  lemma LoweredCapPassesLimit()
    ensures WithinLimit(Run(TWO_DAYS), 2)
    ensures !WithinLimit(Run(TWO_DAYS + [ReserveEvent(SMALL_CALL, "0.01", Some(2), "b")]), 2)
  {
    var e := ReserveEvent(SMALL_CALL, "0.01", Some(2), "b");
    AfterTwoDays();
    SmallAmounts();
    RefuseAndLower();
    hide EstimateChat, ReserveCap, Reserved;
    RunThird(e);
  }

  /** And so does a settlement that costs more than was reserved. */
  lemma OverrunPassesLimit()
    ensures !WithinLimit(Run(TWO_DAYS + [SettleEvent("a", Usage(Some(0), Some(200_000), None, None))]), 2)
  {
    var e := SettleEvent("a", Usage(Some(0), Some(200_000), None, None));
    AfterTwoDays();
    RunThird(e);
  }
}
