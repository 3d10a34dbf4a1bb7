/** The ledger's tables, updated statement by statement and committed transaction by transaction. */
module SpendStore {
  import opened Prelude
  import opened SpendLedger

  datatype Budget = ActivationHold | HasBudget | Exhausted

  datatype SpendStatus =
    | StatusOff | StatusUnavailable | Shown(budget: Budget, limit: int, spent: int, reserved: int, remaining: int)

  class SpendStore {
    /** False until the database file exists. */
    var created: bool
    var activation: Option<int>
    var days: map<int, DayRow>
    var requests: seq<Request>

    function Tables(): Ledger
      reads this
    {
      Ledger(activation, days, requests)
    }

    constructor ()
      ensures Tables() == EMPTY_LEDGER && !created
    {
      created, activation, days, requests := false, None, map[], [];
    }

    /** `reserveChat`. A refusal for lack of budget still commits the day row and the lowered limit;
        an error commits nothing. */
    method Reserve(p: Payload, raw: Option<string>, day: Option<int>, id: string) returns (o: Outcome)
      modifies this
      ensures raw.None? ==> o == LedgerOff && Tables() == old(Tables()) && created == old(created)
      ensures raw.Some? ==> (Tables(), o) == ReserveChat(old(Tables()), p, raw.value, day, id)
      ensures old(created) ==> created
      ensures o.Ticket? ==> created
    {
      hide CapShape, Reserved;
      if raw.None? {
        return LedgerOff;
      }
      if day.None? || ReserveCap(raw.value).None? || EstimateChat(p, day.value).None? {
        return Refused;
      }
      created := true;
      o := Transact(p.model, EstimateChat(p, day.value).value, ReserveCap(raw.value).value, day.value, id);
    }

    /** The transaction: its statements work on local rows, and COMMIT writes them back. */
    method Transact(model: string, amount: nat, cap: nat, d: int, id: string) returns (o: Outcome)
      requires model == MODEL
      modifies `activation, `days, `requests
      ensures (Tables(), o) == Reserved(old(Tables()), amount, cap, d, id)
    {
      hide Safe, Total;
      ghost var before := Tables();
      var activated := if activation.None? then d else activation.value;
      var row := if d in days then days[d] else DayRow(cap, 0, 0, if d <= activated then cap else 0);
      row := row.(limit := if row.limit < cap then row.limit else cap);
      assert row == OpenedRow(before, d, cap);
      if !Safe(row) {
        return Refused;
      }
      if Total(row) + amount > row.limit {
        activation, days := Some(activated), days[d := row];
        return Refused;
      }
      var taken := Find(requests, id);
      if taken.Some? {
        assert Known(requests, id);
        return Refused;
      }
      activation, days := Some(activated), days[d := row.(reserved := row.reserved + amount)];
      requests := requests + [Request(id, d, model, amount, None)];
      return Ticket(id);
    }

    /** `settleChat`. Unreadable usage, an unknown id and a settled id change nothing. */
    method Settle(ticket: Outcome, u: Option<Usage>)
      modifies this
      ensures Tables()
           == if ticket.Ticket? && u.Some? then SettleChat(old(Tables()), ticket.id, u.value) else old(Tables())
      ensures created == old(created)
    {
      if !ticket.Ticket? || u.None? || !ValidUsage(u.value) {
        return;
      }
      var spent := Spent(u.value);
      var at := Find(requests, ticket.id);
      if at.None? || !Open(requests[at.value]) || requests[at.value].model != MODEL {
        return;
      }
      var r := requests[at.value];
      requests := requests[at.value := r.(spent := Some(spent))];
      if r.day in days {
        var row := days[r.day];
        days := days[r.day := row.(spent := row.spent + spent, reserved := row.reserved - r.reserved)];
      }
    }

    /** `spendStatus`: reads one day and changes nothing. */
    method Status(raw: Option<string>, day: Option<int>) returns (s: SpendStatus)
      ensures s == StatusOf(created, Tables(), raw, day)
    {
      if raw.None? {
        return StatusOff;
      }
      var cap := StatusCap(raw.value);
      if cap.None? {
        return StatusUnavailable;
      }
      if !created {
        return Shown(ActivationHold, cap.value, 0, 0, 0);
      }
      if activation.None? || day.None? || day.value > EXPIRES {
        return StatusUnavailable;
      }
      var d := day.value;
      if d in days && !Safe(days[d]) {
        return StatusUnavailable;
      }
      var limit := if d in days && days[d].limit < cap.value then days[d].limit else cap.value;
      var spent := if d in days then days[d].spent else 0;
      var reserved := if d in days then days[d].reserved else 0;
      var held := if d in days then days[d].carried else if d <= activation.value then cap.value else 0;
      var left := limit - spent - reserved - held;
      var remaining := if left < 0 then 0 else left;
      var budget := if held > 0 then ActivationHold else if remaining > 0 then HasBudget else Exhausted;
      return Shown(budget, limit, spent, reserved, remaining);
    }
  }

  function StatusOf(created: bool, l: Ledger, raw: Option<string>, day: Option<int>): SpendStatus {
    if raw.None? then StatusOff
    else if StatusCap(raw.value).None? then StatusUnavailable
    else if !created then Shown(ActivationHold, StatusCap(raw.value).value, 0, 0, 0)
    else if l.activation.None? || day.None? || day.value > EXPIRES then StatusUnavailable
    else
      var row := OpenedRow(l, day.value, StatusCap(raw.value).value);
      if day.value in l.days && !Safe(l.days[day.value]) then StatusUnavailable
      else
        var remaining := if row.limit - Total(row) < 0 then 0 else row.limit - Total(row);
        var budget := if row.carried > 0 then ActivationHold else if remaining > 0 then HasBudget else Exhausted;
        Shown(budget, row.limit, row.spent, row.reserved, remaining)
  }

  /** `remainingUsd`, in millionths. */
  function Remaining(s: SpendStatus): int {
    if s.Shown? then s.remaining else 0
  }
}
