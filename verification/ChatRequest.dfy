/** `requestClaude`: at most two paid calls, each reserved before it is sent and settled from its
    answer, while other processes use the same ledger. The transport, the clock, the identifiers and
    the other processes are parameters. */
module ChatRequest {
  import opened Prelude
  import opened SpendLedger
  import opened SpendStore
  import opened SpendTheorems

  /** What came back from one call. The delay of an error is None when it is not a number. */
  datatype Response =
    | NoResponse
    | HttpError(status: int, delayMs: Option<real>)
    | Unreadable
    | Body(usage: Option<Usage>, stopReason: string, hasText: bool)

  /** Everything outside the program during one attempt: the date, the fresh id, what other processes
      commit before the reservation and while the call is in flight, the answer, whether the retry
      allowance grants a second attempt, and whether the deadline passes before it. */
  datatype Attempt = Attempt(day: Option<int>, id: string, before: seq<Event>, during: seq<Event>,
                             response: Response, retryGranted: bool, aborted: bool)

  datatype Action =
    | Reserve(payload: Payload, reservation: Outcome)
    | Dispatch(sent: Payload)
    | Settle(settled: Outcome, usage: Option<Usage>)
    | Grant

  predicate RetryableStatus(status: int) {
    status == 429 || status == 500 || status == 502 || status == 503 || status == 504 || status == 529
  }

  /** The answer allows one more attempt, apart from the allowance. */
  predicate WorthRetrying(r: Response) {
    match r
    case HttpError(status, delay) => RetryableStatus(status) && delay.Some? && 0.0 <= delay.value <= 2000.0
    case Body(_, stop, text) => !text && (stop == "end_turn" || stop == "max_tokens")
    case _ => false
  }

  /** The payload of the second attempt; its serialised length is `bytes`. */
  function RetryPayload(p: Payload, r: Response, bytes: nat): Payload {
    if r.Body? then
      p.(maxTokens := if r.stopReason == "max_tokens" then p.maxTokens * 2 else p.maxTokens,
         roles := p.roles + ["user"], bytes := bytes)
    else p
  }

  function After(l: Ledger, events: seq<Event>): Ledger {
    if events == [] then l else Step(After(l, events[..|events| - 1]), events[|events| - 1])
  }

  ghost predicate Foreign(events: seq<Event>, id: string) {
    forall e | e in events :: e.SettleEvent? ==> e.settled != id
  }

  /** Other processes do not settle requests they did not make. */
  ghost predicate Private(attempts: seq<Attempt>) {
    forall a, b | a in attempts && b in attempts :: Foreign(a.before, b.id) && Foreign(a.during, b.id)
  }

  lemma {:induction false} AfterKeeps(l: Ledger, events: seq<Event>)
    requires Inv(l)
    ensures Inv(After(l, events))
    decreases |events|
  {
    hide Inv, Step;
    if events != [] {
      AfterKeeps(l, events[..|events| - 1]);
      StepKeeps(After(l, events[..|events| - 1]), events[|events| - 1]);
    }
  }

  lemma ForeignStep(l: Ledger, e: Event, i: nat)
    requires i < |l.requests| && (e.SettleEvent? ==> e.settled != l.requests[i].id)
    ensures i < |Step(l, e).requests| && Step(l, e).requests[i] == l.requests[i]
  {
    hide EstimateChat, ReserveCap, Spent;
  }

  /** A request row is untouched by other processes. */
  lemma {:induction false} ForeignKeepsRow(l: Ledger, events: seq<Event>, i: nat)
    requires i < |l.requests| && Foreign(events, l.requests[i].id)
    ensures i < |After(l, events).requests| && After(l, events).requests[i] == l.requests[i]
    decreases |events|
  {
    hide Step;
    if events != [] {
      var n := |events| - 1;
      assert Foreign(events[..n], l.requests[i].id);
      assert events[n] in events;
      ForeignKeepsRow(l, events[..n], i);
      ForeignStep(After(l, events[..n]), events[n], i);
    }
  }

  method OthersRun(store: SpendStore, events: seq<Event>)
    modifies store
    ensures store.Tables() == After(old(store.Tables()), events)
  {
    hide Step;
    for i := 0 to |events|
      invariant store.Tables() == After(old(store.Tables()), events[..i])
    {
      assert events[..i + 1][..i] == events[..i];
      var l := Step(store.Tables(), events[i]);
      store.activation, store.days, store.requests := l.activation, l.days, l.requests;
    }
    assert events[..|events|] == events;
  }

  /** One row of the ledger for one dispatched call: priced for exactly its payload and day, and either
      settled with the usage its answer carried or still reserved. */
  ghost predicate Covered(l: Ledger, i: nat, a: Attempt, p: Payload, usage: Option<Usage>) {
    && i < |l.requests| && a.day.Some? && EstimateChat(p, a.day.value).Some?
    && l.requests[i] == Request(a.id, a.day.value, MODEL, EstimateChat(p, a.day.value).value,
                                if usage.Some? && ValidUsage(usage.value) then Some(Spent(usage.value)) else None)
  }

  lemma ReservedIsCovered(l: Ledger, p: Payload, raw: string, a: Attempt)
    requires Inv(l) && ReserveChat(l, p, raw, a.day, a.id).1.Ticket?
    ensures var l' := ReserveChat(l, p, raw, a.day, a.id).0;
      && Inv(l') && |l'.requests| == |l.requests| + 1 && Covered(l', |l.requests|, a, p, None)
      && (forall i | 0 <= i < |l.requests| :: l'.requests[i] == l.requests[i])
    ensures ReserveChat(l, p, raw, a.day, a.id).1 == Ticket(a.id)
  {
    StepKeeps(l, ReserveEvent(p, raw, a.day, a.id));
    hide EstimateChat, ReserveCap, Inv;
  }

  lemma DistinctFind(rows: seq<Request>, i: nat)
    requires DistinctIds(rows) && i < |rows|
    ensures Find(rows, rows[i].id) == Some(i)
  {
  }

  lemma SettledIsCovered(l: Ledger, i: nat, a: Attempt, p: Payload, u: Usage)
    requires Inv(l) && Covered(l, i, a, p, None)
    ensures var l' := SettleChat(l, a.id, u);
      && Inv(l') && |l'.requests| == |l.requests| && Covered(l', i, a, p, Some(u))
      && (forall k | 0 <= k < |l.requests| && k != i :: l'.requests[k] == l.requests[k])
  {
    StepKeeps(l, SettleEvent(a.id, u));
    DistinctFind(l.requests, i);
    hide EstimateChat, Spent, Inv;
  }

  function UsageOf(r: Response): Option<Usage> {
    if r.Body? then r.usage else None
  }

  /** Only the attempt's own row, and rows others settled around it, may have changed. */
  ghost predicate Kept(rows: seq<Request>, later: seq<Request>, a: Attempt) {
    forall i | 0 <= i < |rows|
               && rows[i].id != a.id && Foreign(a.before, rows[i].id) && Foreign(a.during, rows[i].id) ::
      i < |later| && later[i] == rows[i]
  }

  lemma KeptTwice(x: seq<Request>, y: seq<Request>, z: seq<Request>, a: Attempt)
    requires Kept(x, y, a) && Kept(y, z, a)
    ensures Kept(x, z, a)
  {
    hide Foreign;
  }

  lemma KeptBefore(l: Ledger, a: Attempt)
    ensures Kept(l.requests, After(l, a.before).requests, a)
  {
    hide Foreign, After;
    forall i | 0 <= i < |l.requests| && Foreign(a.before, l.requests[i].id)
      ensures i < |After(l, a.before).requests| && After(l, a.before).requests[i] == l.requests[i]
    {
      ForeignKeepsRow(l, a.before, i);
    }
  }

  lemma KeptDuring(l: Ledger, a: Attempt)
    ensures Kept(l.requests, After(l, a.during).requests, a)
  {
    hide Foreign, After;
    forall i | 0 <= i < |l.requests| && Foreign(a.during, l.requests[i].id)
      ensures i < |After(l, a.during).requests| && After(l, a.during).requests[i] == l.requests[i]
    {
      ForeignKeepsRow(l, a.during, i);
    }
  }

  lemma ReservationKeeps(l: Ledger, p: Payload, raw: string, a: Attempt)
    requires Inv(l)
    ensures var (l', o) := ReserveChat(l, p, raw, a.day, a.id);
      && Inv(l') && Kept(l.requests, l'.requests, a)
      && (o == Refused || (o == Ticket(a.id) && Covered(l', |l.requests|, a, p, None)))
  {
    hide Foreign, Inv, Covered, ReserveChat;
    if ReserveChat(l, p, raw, a.day, a.id).1.Ticket? {
      ReservedIsCovered(l, p, raw, a);
    } else {
      ReservationOutcome(l, p, raw, a);
      RefusedKeeps(l, p, raw, a);
    }
  }

  lemma ReservationOutcome(l: Ledger, p: Payload, raw: string, a: Attempt)
    ensures ReserveChat(l, p, raw, a.day, a.id).1 in {Refused, Ticket(a.id)}
  {
    hide EstimateChat, ReserveCap, RollsBack;
  }

  lemma SettlementKeeps(l: Ledger, i: nat, p: Payload, a: Attempt, u: Usage)
    requires Inv(l) && Covered(l, i, a, p, None)
    ensures var l' := SettleChat(l, a.id, u);
      Inv(l') && Kept(l.requests, l'.requests, a) && Covered(l', i, a, p, Some(u))
  {
    hide Foreign, Inv, Covered, SettleChat;
    SettledIsCovered(l, i, a, p, u);
    CoveredIs(l, i, a, p);
  }

  /** Others commit, then the call is reserved. `row` is where its reservation is in the ledger. */
  method ReserveCall(store: SpendStore, p: Payload, raw: Option<string>, a: Attempt)
      returns (ticket: Outcome, ghost row: nat)
    requires Inv(store.Tables())
    modifies store
    ensures Inv(store.Tables()) && Kept(old(store.requests), store.requests, a)
    ensures raw.None? ==> ticket == LedgerOff
    ensures raw.Some? ==> ticket == Refused || (ticket == Ticket(a.id) && Covered(store.Tables(), row, a, p, None))
  {
    hide Inv, Covered, Kept, After, ReserveChat;
    ghost var start := store.Tables();
    OthersRun(store, a.before);
    AfterKeeps(start, a.before);
    KeptBefore(start, a);
    ghost var ready := store.Tables();
    ticket := store.Reserve(p, raw, a.day, a.id);
    row := |ready.requests|;
    if raw.Some? {
      ReservationKeeps(ready, p, raw.value, a);
      KeptTwice(start.requests, ready.requests, store.requests, a);
    }
  }

  /** Others commit while the call is in flight, then its answer settles it. */
  method AwaitAnswer(store: SpendStore, p: Payload, ghost raw: Option<string>, ticket: Outcome, a: Attempt,
                     ghost row: nat)
    requires Inv(store.Tables()) && Foreign(a.during, a.id)
    requires raw.None? ==> ticket == LedgerOff
    requires raw.Some? ==> ticket == Ticket(a.id) && Covered(store.Tables(), row, a, p, None)
    modifies store
    ensures Inv(store.Tables()) && Kept(old(store.requests), store.requests, a)
    ensures raw.Some? ==> Covered(store.Tables(), row, a, p, UsageOf(a.response))
  {
    hide Inv, Covered, Kept, After, SettleChat, Foreign;
    ghost var reserved := store.Tables();
    OthersRun(store, a.during);
    AfterKeeps(reserved, a.during);
    KeptDuring(reserved, a);
    ghost var answered := store.Tables();
    if raw.Some? {
      CoveredStays(reserved, a.during, row, a, p);
    }
    if a.response.Body? {
      store.Settle(ticket, a.response.usage);
      if raw.Some? && a.response.usage.Some? {
        SettlementKeeps(answered, row, p, a, a.response.usage.value);
        KeptTwice(reserved.requests, answered.requests, store.requests, a);
      }
    }
  }

  /** What one call that goes out does: its reservation, its dispatch, and its settlement if it was answered. */
  function CallActions(p: Payload, ticket: Outcome, r: Response): seq<Action> {
    [Reserve(p, ticket), Dispatch(p)] + if r.Body? then [Settle(ticket, r.usage)] else []
  }

  function TicketOf(raw: Option<string>, a: Attempt): Outcome {
    if raw.None? then LedgerOff else Ticket(a.id)
  }

  /** Reserve, send, and settle one attempt. */
  method Call(store: SpendStore, p: Payload, raw: Option<string>, a: Attempt)
      returns (dispatched: bool, ghost row: nat, trace: seq<Action>)
    requires Inv(store.Tables()) && Foreign(a.during, a.id)
    modifies store
    ensures Inv(store.Tables()) && Kept(old(store.requests), store.requests, a)
    ensures raw.None? ==> dispatched
    ensures dispatched && raw.Some? ==> Covered(store.Tables(), row, a, p, UsageOf(a.response))
    ensures trace == if dispatched then CallActions(p, TicketOf(raw, a), a.response) else [Reserve(p, Refused)]
  {
    hide Inv, Covered, Kept, Foreign;
    ghost var start := store.requests;
    var ticket;
    ticket, row := ReserveCall(store, p, raw, a);
    trace := [Reserve(p, ticket)];
    if ticket == Refused {
      return false, row, trace;
    }
    ghost var reserved := store.requests;
    trace := trace + [Dispatch(p)];
    AwaitAnswer(store, p, raw, ticket, a, row);
    KeptTwice(start, reserved, store.requests, a);
    if a.response.Body? {
      trace := trace + [Settle(ticket, a.response.usage)];
    }
    dispatched := true;
  }

  lemma CoveredIs(l: Ledger, i: nat, a: Attempt, p: Payload)
    requires Covered(l, i, a, p, None)
    ensures i < |l.requests| && l.requests[i].id == a.id
  {
  }

  lemma CoveredStays(l: Ledger, events: seq<Event>, i: nat, a: Attempt, p: Payload)
    requires Covered(l, i, a, p, None) && Foreign(events, a.id)
    ensures Covered(After(l, events), i, a, p, None)
  {
    ForeignKeepsRow(l, events, i);
  }

  lemma RefusedKeeps(l: Ledger, p: Payload, raw: string, a: Attempt)
    requires Inv(l) && ReserveChat(l, p, raw, a.day, a.id).1 == Refused
    ensures Inv(ReserveChat(l, p, raw, a.day, a.id).0)
    ensures ReserveChat(l, p, raw, a.day, a.id).0.requests == l.requests
  {
    StepKeeps(l, ReserveEvent(p, raw, a.day, a.id));
    hide EstimateChat, ReserveCap, Inv;
  }

  // ---------- the attempt loop ----------

  function Sent(trace: seq<Action>): seq<Payload> {
    if trace == [] then []
    else Sent(trace[..|trace| - 1]) + if trace[|trace| - 1].Dispatch? then [trace[|trace| - 1].sent] else []
  }

  /** Every dispatch comes right after the reservation for the same payload. */
  ghost predicate PaidFirst(trace: seq<Action>) {
    forall i | 0 <= i < |trace| && trace[i].Dispatch? ::
      i > 0 && trace[i - 1].Reserve? && trace[i - 1].payload == trace[i].sent && trace[i - 1].reservation != Refused
  }

  /** An action other than a dispatch sends nothing. */
  lemma UnsentStep(before: seq<Action>, x: Action)
    requires !x.Dispatch?
    ensures Sent(before + [x]) == Sent(before)
    ensures PaidFirst(before) ==> PaidFirst(before + [x])
  {
    assert (before + [x])[..|before|] == before;
  }

  lemma DispatchStep(before: seq<Action>, p: Payload, o: Outcome)
    requires PaidFirst(before) && o != Refused
    ensures PaidFirst(before + [Reserve(p, o)] + [Dispatch(p)])
    ensures Sent(before + [Reserve(p, o)] + [Dispatch(p)]) == Sent(before) + [p]
  {
    var reserved := before + [Reserve(p, o)];
    UnsentStep(before, Reserve(p, o));
    assert (reserved + [Dispatch(p)])[..|reserved|] == reserved;
  }

  lemma CallTrace(before: seq<Action>, p: Payload, o: Outcome, r: Response)
    requires PaidFirst(before) && o != Refused
    ensures PaidFirst(before + CallActions(p, o, r))
    ensures Sent(before + CallActions(p, o, r)) == Sent(before) + [p]
  {
    hide Sent, PaidFirst;
    var sent := before + [Reserve(p, o)] + [Dispatch(p)];
    DispatchStep(before, p, o);
    if r.Body? {
      UnsentStep(sent, Settle(o, r.usage));
      assert before + CallActions(p, o, r) == sent + [Settle(o, r.usage)];
    } else {
      assert before + CallActions(p, o, r) == sent;
    }
  }

  /** The grant is given after the first call has gone out and before any other. */
  ghost predicate GrantedAfterFirst(trace: seq<Action>, payload: Payload) {
    exists g: nat :: g < |trace| && trace[g] == Grant && Sent(trace[..g]) == [payload]
  }

  lemma GrantTrace(before: seq<Action>, p: Payload)
    requires PaidFirst(before)
    ensures PaidFirst(before + [Grant]) && Sent(before + [Grant]) == Sent(before)
    ensures Sent(before) == [p] ==> GrantedAfterFirst(before + [Grant], p)
  {
    var trace := before + [Grant];
    assert trace[..|before|] == before && trace[|before|] == Grant;
  }

  lemma GrantStands(trace: seq<Action>, more: seq<Action>, p: Payload)
    ensures GrantedAfterFirst(trace, p) ==> GrantedAfterFirst(trace + more, p)
  {
    if g: nat :| g < |trace| && trace[g] == Grant && Sent(trace[..g]) == [p] {
      assert (trace + more)[..g] == trace[..g] && (trace + more)[g] == Grant;
    }
  }

  predicate Answers(r: Response) {
    r.Body? && r.hasText && r.stopReason != "tool_use" && r.stopReason != "pause_turn"
  }

  /** Calls number 0, 1, … that went out each have their row, priced for exactly what was sent. */
  ghost predicate AllCovered(l: Ledger, rows: seq<nat>, attempts: seq<Attempt>, sent: seq<Payload>) {
    && |rows| == |sent| <= |attempts|
    && forall k | 0 <= k < |rows| :: Covered(l, rows[k], attempts[k], sent[k], UsageOf(attempts[k].response))
  }

  /** The answer of a call that went out was worth retrying, and the allowance was then granted. */
  ghost predicate MayRetry(trace: seq<Action>, payload: Payload, a: Attempt) {
    WorthRetrying(a.response) && a.retryGranted && GrantedAfterFirst(trace, payload)
  }

  ghost predicate SentAtMostTwice(trace: seq<Action>, payload: Payload, a: Attempt, retryBytes: nat) {
    || Sent(trace) == [] || Sent(trace) == [payload]
    || (Sent(trace) == [payload, RetryPayload(payload, a.response, retryBytes)] && MayRetry(trace, payload, a))
  }

  /** The last of the first n attempts has the answer. */
  predicate AnsweredBy(attempts: seq<Attempt>, n: nat) {
    0 < n <= |attempts| && Answers(attempts[n - 1].response)
  }

  lemma StillCovered(l: Ledger, l': Ledger, i: nat, a: Attempt, p: Payload, usage: Option<Usage>, b: Attempt)
    requires Covered(l, i, a, p, usage) && Foreign(b.before, a.id) && Foreign(b.during, a.id) && a.id != b.id
    requires Kept(l.requests, l'.requests, b)
    ensures Covered(l', i, a, p, usage)
  {
    hide Foreign;
  }

  /** The rows of the calls before attempt n stay covered while it runs. */
  lemma AllStillCovered(l: Ledger, l': Ledger, rows: seq<nat>, attempts: seq<Attempt>, sent: seq<Payload>, n: nat)
    requires AllCovered(l, rows, attempts, sent) && |rows| == n < |attempts| && Private(attempts)
    requires forall i | 0 <= i < n :: attempts[i].id != attempts[n].id
    requires Kept(l.requests, l'.requests, attempts[n])
    ensures AllCovered(l', rows, attempts, sent)
  {
    hide Foreign, Covered, Kept;
    forall k | 0 <= k < n
      ensures Covered(l', rows[k], attempts[k], sent[k], UsageOf(attempts[k].response))
    {
      assert attempts[k] in attempts && attempts[n] in attempts;
      StillCovered(l, l', rows[k], attempts[k], sent[k], UsageOf(attempts[k].response), attempts[n]);
    }
  }

  lemma OneMoreCovered(l: Ledger, rows: seq<nat>, attempts: seq<Attempt>, sent: seq<Payload>, row: nat, p: Payload)
    requires AllCovered(l, rows, attempts, sent) && |rows| < |attempts|
    requires Covered(l, row, attempts[|rows|], p, UsageOf(attempts[|rows|].response))
    ensures AllCovered(l, rows + [row], attempts, sent + [p])
  {
    hide Covered;
  }

  lemma NothingCovered(l: Ledger, attempts: seq<Attempt>)
    ensures AllCovered(l, [], attempts, [])
  {
  }

  lemma PrivateForeign(attempts: seq<Attempt>, a: Attempt)
    requires Private(attempts) && a in attempts
    ensures Foreign(a.during, a.id)
  {
  }

  lemma RetryStands(trace: seq<Action>, more: seq<Action>, payload: Payload, a: Attempt)
    ensures MayRetry(trace, payload, a) ==> MayRetry(trace + more, payload, a)
  {
    GrantStands(trace, more, payload);
  }

  /** At most two calls go out, the second only after the first answer was worth retrying and then the retry
      allowance was granted. With the ledger on, every call that went out has its own row, priced for
      exactly the payload sent, settled once with the usage of its answer or still reserved. */
  method RequestClaude(store: SpendStore, payload: Payload, raw: Option<string>, attempts: seq<Attempt>,
                       retryBytes: nat)
      returns (answered: bool, ghost rows: seq<nat>, trace: seq<Action>)
    requires Inv(store.Tables())
    requires |attempts| == 2 && attempts[0].id != attempts[1].id && Private(attempts)
    modifies store
    ensures Inv(store.Tables())
    ensures PaidFirst(trace) && SentAtMostTwice(trace, payload, attempts[0], retryBytes)
    ensures raw.None? ==> Sent(trace) != []
    ensures raw.Some? ==> AllCovered(store.Tables(), rows, attempts, Sent(trace))
    ensures answered <==> AnsweredBy(attempts, |Sent(trace)|)
  {
    hide Inv, Covered, Kept, Foreign, Private, Sent, PaidFirst, AllCovered, MayRetry, CallActions;
    hide RetryPayload, WorthRetrying, Answers, UsageOf;
    answered, rows, trace := false, [], [];
    EmptyTrace();
    NothingCovered(store.Tables(), attempts);
    var request, index := payload, 0;
    while index < 2
      invariant Inv(store.Tables()) && PaidFirst(trace) && 0 <= index <= 1 && !answered
      invariant Sent(trace) == if index == 0 then [] else [payload]
      invariant request == if index == 0 then payload else RetryPayload(payload, attempts[0].response, retryBytes)
      invariant index == 1 ==> MayRetry(trace, payload, attempts[0]) && !Answers(attempts[0].response)
      invariant raw.Some? ==> AllCovered(store.Tables(), rows, attempts, Sent(trace)) && |rows| == index
      decreases 2 - index
    {
      var a := attempts[index];
      PrivateForeign(attempts, a);
      ghost var earlier := store.Tables();
      ghost var sent := Sent(trace);
      var dispatched, row, call := Call(store, request, raw, a);
      if raw.Some? {
        AllStillCovered(earlier, store.Tables(), rows, attempts, sent, index);
      }
      RetryStands(trace, call, payload, attempts[0]);
      if !dispatched {
        UnsentStep(trace, Reserve(request, Refused));
        trace := trace + call;
        return;
      }
      CallTrace(trace, request, TicketOf(raw, a), a.response);
      trace := trace + call;
      if raw.Some? {
        OneMoreCovered(store.Tables(), rows, attempts, sent, row, request);
      }
      rows := rows + [row];
      if Answers(a.response) {
        answered := true;
        return;
      }
      if index == 1 || !WorthRetrying(a.response) || !a.retryGranted {
        return;
      }
      GrantTrace(trace, payload);
      trace := trace + [Grant];
      if a.response.HttpError? && a.aborted {
        return;
      }
      NextMayRetry(trace, payload, a);
      request := RetryPayload(payload, a.response, retryBytes);
      index := index + 1;
    }
  }

  lemma NextMayRetry(trace: seq<Action>, payload: Payload, a: Attempt)
    requires WorthRetrying(a.response) && a.retryGranted && GrantedAfterFirst(trace, payload)
    ensures MayRetry(trace, payload, a)
  {
  }

  lemma EmptyTrace()
    ensures Sent([]) == [] && PaidFirst([])
  {
  }

  // ---------- what the second call asks ----------

  lemma TenMore(n: nat, k: nat)
    ensures CeilDiv10(n + 10 * k) == CeilDiv10(n) + k
  {
  }

  /** After a failed request the same payload is priced again. After an empty answer one more user message is sent, with
      the old output budget or, when that ran out, twice as much: a budget over 8192 then has no price and the second
      call does not go out; otherwise its reservation is larger by the price of the added bytes and output tokens. */
  lemma SecondReservation(p: Payload, r: Response, bytes: nat, day: int)
    requires WorthRetrying(r) && EstimateChat(p, day).Some? && (r.Body? ==> p.bytes <= bytes)
    ensures var q := RetryPayload(p, r, bytes);
      && (r.HttpError? ==> q == p)
      && (r.Body? ==>
            var cut := r.stopReason == "max_tokens";
            && q.roles == p.roles + ["user"]
            && (EstimateChat(q, day).Some? <==> (cut ==> p.maxTokens <= 8192) && bytes <= 122_952)
            && (EstimateChat(q, day).Some? ==>
                  EstimateChat(q, day).value
                  == EstimateChat(p, day).value + 8 * (bytes - p.bytes) + if cut then 10 * p.maxTokens else 0))
  {
    if r.Body? {
      var more := if r.stopReason == "max_tokens" then 10 * p.maxTokens else 0;
      TenMore(InputTokens(p) * 40 + p.maxTokens * 100, 8 * (bytes - p.bytes) + more);
      hide CeilDiv10;
    }
  }
}
