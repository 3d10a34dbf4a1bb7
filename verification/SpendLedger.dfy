/** The shared AI dollar ledger: reservation before a paid call, settlement after it. Each
    transaction is one atomic step; amounts are millionths of a dollar. */
module SpendLedger {
  import opened Prelude

  // ---------- prices ----------

  /** 2026-10-21, the day after which the price policy no longer applies, as days since 1970. */
  const EXPIRES := 20747
  const MODEL := "claude-sonnet-5"

  /** A request body: its roles, whether it has fields the policy does not price, and the length of
      its JSON text in bytes. */
  datatype Payload = Payload(model: string, maxTokens: int, roles: seq<string>, unknownFields: bool, bytes: nat)

  function InputTokens(p: Payload): nat {
    p.bytes * 2 + 4096
  }

  predicate Priced(p: Payload, day: int) {
    && day <= EXPIRES && p.model == MODEL && 0 < p.maxTokens <= 16384
    && (forall r | r in p.roles :: r == "user" || r == "assistant")
    && !p.unknownFields && InputTokens(p) <= 250_000
  }

  function CeilDiv10(n: nat): nat {
    (n + 9) / 10
  }

  function EstimateChat(p: Payload, day: int): Option<nat> {
    if Priced(p, day) then Some(CeilDiv10(InputTokens(p) * 40 + p.maxTokens * 100)) else None
  }

  /** Token counts as the provider reports them; an absent count is None. */
  datatype Usage = Usage(input: Option<int>, output: Option<int>, cacheCreation: Option<int>, cacheRead: Option<int>)

  predicate Count(n: int) {
    0 <= n <= 10_000_000
  }

  predicate ValidUsage(u: Usage) {
    && u.input.Some? && Count(u.input.value) && u.output.Some? && Count(u.output.value)
    && (u.cacheCreation.Some? ==> Count(u.cacheCreation.value))
    && (u.cacheRead.Some? ==> Count(u.cacheRead.value))
  }

  function OrZero(n: Option<int>): int {
    if n.Some? then n.value else 0
  }

  function Spent(u: Usage): nat
    requires ValidUsage(u)
  {
    CeilDiv10(u.input.value * 20 + u.output.value * 100 + OrZero(u.cacheCreation) * 40 + OrZero(u.cacheRead) * 2)
  }

  /** What is billed never exceeds what was reserved while the call stays within the estimated input
      tokens, cached ones included, and the allowed output tokens. */
  lemma PriceCoversUsage(p: Payload, day: int, u: Usage)
    requires EstimateChat(p, day).Some? && ValidUsage(u)
    requires u.input.value + OrZero(u.cacheCreation) + OrZero(u.cacheRead) <= InputTokens(p)
    requires u.output.value <= p.maxTokens
    ensures Spent(u) <= EstimateChat(p, day).value
  {
  }

  // ---------- the configured cap ----------

  predicate IsNumeral(s: string) {
    |s| > 0 && forall i | 0 <= i < |s| :: '0' <= s[i] <= '9'
  }

  function Numeral(s: string): nat
    requires forall i | 0 <= i < |s| :: '0' <= s[i] <= '9'
  {
    if s == [] then 0 else Numeral(s[..|s| - 1]) * 10 + (s[|s| - 1] as int - '0' as int)
  }

  function LeadingDigits(s: string): (n: nat)
    ensures n <= |s| && forall i | 0 <= i < n :: '0' <= s[i] <= '9'
    ensures n < |s| ==> !('0' <= s[n] <= '9')
  {
    if s != [] && '0' <= s[0] <= '9' then 1 + LeadingDigits(s[1..]) else 0
  }

  /** One to six digits, then optionally a point and one or two digits. */
  predicate CapShape(raw: string) {
    var n := LeadingDigits(raw);
    1 <= n <= 6 && (n == |raw| || (raw[n] == '.' && |raw| - n - 1 <= 2 && IsNumeral(raw[n + 1..])))
  }

  function Whole(raw: string): nat
    requires CapShape(raw)
  {
    Numeral(raw[..LeadingDigits(raw)])
  }

  function Fraction(raw: string): (f: string)
    requires CapShape(raw)
    ensures |f| <= 2 && forall i | 0 <= i < |f| :: '0' <= f[i] <= '9'
  {
    if LeadingDigits(raw) == |raw| then "" else raw[LeadingDigits(raw) + 1..]
  }

  function Padded(f: string): string {
    if |f| == 0 then "00" else if |f| == 1 then f + "0" else f
  }

  predicate CapRange(cap: int) {
    0 < cap <= 1_000_000_000
  }

  /** The cap as `reserveChat` reads it: digit by digit. */
  function ReserveCap(raw: string): Option<nat> {
    if !CapShape(raw) then None
    else
      var cap := Whole(raw) * 1_000_000 + Numeral(Padded(Fraction(raw))) * 10_000;
      if CapRange(cap) then Some(cap) else None
  }

  /** The decimal number the text writes. */
  function Dollars(raw: string): real
    requires CapShape(raw)
  {
    var f := Fraction(raw);
    Whole(raw) as real
    + if |f| == 0 then 0.0 else if |f| == 1 then Numeral(f) as real / 10.0 else Numeral(f) as real / 100.0
  }

  /** The cap as `spendStatus` reads it: the number times a million, rounded. */
  function StatusCap(raw: string): Option<nat> {
    if !CapShape(raw) then None
    else
      var cap := (Dollars(raw) * 1_000_000.0 + 0.5).Floor;
      if CapRange(cap) then Some(cap) else None
  }

  lemma PaddedNumeral(f: string)
    requires |f| <= 2 && forall i | 0 <= i < |f| :: '0' <= f[i] <= '9'
    ensures Numeral(Padded(f)) == if |f| == 0 then 0 else if |f| == 1 then Numeral(f) * 10 else Numeral(f)
  {
    if |f| == 0 {
      assert "00"[..1] == "0";
    } else if |f| == 1 {
      assert (f + "0")[..1] == f;
    }
  }

  /** Both readings of the configured text agree. */
  lemma CapReadingsAgree(raw: string)
    ensures ReserveCap(raw) == StatusCap(raw)
  {
    hide CapShape, Whole, Fraction, Numeral, Dollars, CapRange;
    if CapShape(raw) {
      DollarsAreCents(raw);
      CentsRound(Whole(raw), Numeral(Padded(Fraction(raw))), Dollars(raw));
    }
  }

  lemma DollarsAreCents(raw: string)
    requires CapShape(raw)
    ensures Dollars(raw) == Whole(raw) as real + Numeral(Padded(Fraction(raw))) as real / 100.0
  {
    hide CapShape, Whole, Fraction, Numeral;
    PaddedNumeral(Fraction(raw));
  }

  /** A whole number of cents is a whole number of millionths, and rounds to itself. */
  lemma CentsRound(whole: nat, cents: nat, dollars: real)
    requires dollars == whole as real + cents as real / 100.0
    ensures (dollars * 1_000_000.0 + 0.5).Floor == whole * 1_000_000 + cents * 10_000
  {
    assert dollars * 1_000_000.0 == (whole * 1_000_000 + cents * 10_000) as real;
  }

  // ---------- the tables ----------

  datatype DayRow = DayRow(limit: int, spent: int, reserved: int, carried: int)

  datatype Request = Request(id: string, day: int, model: string, reserved: nat, spent: Option<nat>)

  /** `status='reserved'` is the absence of a settled cost. */
  predicate Open(r: Request) {
    r.spent.None?
  }

  datatype Ledger = Ledger(activation: Option<int>, days: map<int, DayRow>, requests: seq<Request>)

  datatype Outcome = LedgerOff | Refused | Ticket(id: string)

  function Total(row: DayRow): int {
    row.carried + row.spent + row.reserved
  }

  predicate Safe(row: DayRow) {
    && 0 <= row.limit <= MAX_SAFE_INTEGER && 0 <= row.spent <= MAX_SAFE_INTEGER
    && 0 <= row.reserved <= MAX_SAFE_INTEGER && 0 <= row.carried <= MAX_SAFE_INTEGER
  }

  function Activation(l: Ledger, day: int): int {
    if l.activation.Some? then l.activation.value else day
  }

  /** The day's row after INSERT OR IGNORE and the lowering of the limit. */
  function OpenedRow(l: Ledger, day: int, cap: nat): DayRow {
    if day in l.days then l.days[day].(limit := Min(l.days[day].limit, cap))
    else DayRow(cap, 0, 0, if day <= Activation(l, day) then cap else 0)
  }

  function Opened(l: Ledger, day: int, cap: nat): Ledger {
    l.(activation := Some(Activation(l, day)), days := l.days[day := OpenedRow(l, day, cap)])
  }

  predicate Known(rows: seq<Request>, id: string) {
    exists i | 0 <= i < |rows| :: rows[i].id == id
  }

  /** An error inside the transaction: an unusable counter, or an id already taken. Nothing is committed. */
  predicate RollsBack(l: Ledger, amount: nat, cap: nat, day: int, id: string) {
    var row := OpenedRow(l, day, cap);
    !Safe(row) || (Total(row) + amount <= row.limit && Known(l.requests, id))
  }

  function Reserved(l: Ledger, amount: nat, cap: nat, day: int, id: string): (Ledger, Outcome) {
    var row := OpenedRow(l, day, cap);
    if RollsBack(l, amount, cap, day, id) then (l, Refused)
    else if Total(row) + amount > row.limit then (Opened(l, day, cap), Refused)
    else (Ledger(Some(Activation(l, day)), l.days[day := row.(reserved := row.reserved + amount)],
                 l.requests + [Request(id, day, MODEL, amount, None)]),
          Ticket(id))
  }

  /** `reserveChat` with the ledger on: the text of the cap, and the day if it is a valid date. */
  function ReserveChat(l: Ledger, p: Payload, raw: string, day: Option<int>, id: string): (Ledger, Outcome) {
    if day.None? || ReserveCap(raw).None? || EstimateChat(p, day.value).None? then (l, Refused)
    else Reserved(l, EstimateChat(p, day.value).value, ReserveCap(raw).value, day.value, id)
  }

  function Find(rows: seq<Request>, id: string): (i: Option<nat>)
    ensures i.Some? ==> i.value < |rows| && rows[i.value].id == id
    ensures i.None? ==> !Known(rows, id)
  {
    if rows == [] then None
    else if rows[|rows| - 1].id == id then Some(|rows| - 1)
    else Find(rows[..|rows| - 1], id)
  }

  /** `settleChat`: the second call for an id, an unknown id or unreadable usage changes nothing. */
  function SettleChat(l: Ledger, id: string, u: Usage): Ledger {
    var at := Find(l.requests, id);
    if !ValidUsage(u) || at.None? || !Open(l.requests[at.value]) || l.requests[at.value].model != MODEL then l
    else
      var r := l.requests[at.value];
      l.(requests := l.requests[at.value := r.(spent := Some(Spent(u)))],
         days := if r.day !in l.days then l.days
                 else var row := l.days[r.day];
                      l.days[r.day := row.(spent := row.spent + Spent(u), reserved := row.reserved - r.reserved)])
  }

  const EMPTY_LEDGER := Ledger(None, map[], [])
}
