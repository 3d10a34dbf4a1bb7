/** What a settlement costs and a reservation holds, token by token. */
module PriceTheorems {
  import opened Prelude
  import opened SpendLedger

  /** The four kinds of token a call is billed for. */
  datatype Kind = FreshInput | Output | CacheWrite | CacheRead

  /** Tenths of a millionth of a dollar for one token. */
  function PriceOf(k: Kind): nat {
    match k
    case FreshInput => 20
    case Output => 100
    case CacheWrite => 40
    case CacheRead => 2
  }

  function TokensOf(u: Usage, k: Kind): int {
    var n := match k
      case FreshInput => u.input
      case Output => u.output
      case CacheWrite => u.cacheCreation
      case CacheRead => u.cacheRead;
    if n.Some? then n.value else 0
  }

  function BillOf(u: Usage, kinds: seq<Kind>): int {
    if kinds == [] then 0 else TokensOf(u, kinds[0]) * PriceOf(kinds[0]) + BillOf(u, kinds[1..])
  }

  const ALL_KINDS := [FreshInput, Output, CacheWrite, CacheRead]

  /** n is the fewest whole millionths that pay the bill. */
  ghost predicate Pays(n: int, u: Usage) {
    10 * n >= BillOf(u, ALL_KINDS) && forall m: nat :: 10 * m >= BillOf(u, ALL_KINDS) ==> n <= m
  }

  lemma BillIs(u: Usage)
    ensures BillOf(u, ALL_KINDS)
         == TokensOf(u, FreshInput) * 20 + TokensOf(u, Output) * 100 + TokensOf(u, CacheWrite) * 40
            + TokensOf(u, CacheRead) * 2
  {
    var a, b, c := ALL_KINDS[1..], ALL_KINDS[2..], ALL_KINDS[3..];
    assert a[1..] == b && b[1..] == c && c[1..] == [];
    assert BillOf(u, c) == TokensOf(u, CacheRead) * 2;
    assert BillOf(u, b) == TokensOf(u, CacheWrite) * 40 + BillOf(u, c);
    assert BillOf(u, a) == TokensOf(u, Output) * 100 + BillOf(u, b);
  }

  lemma SpentPays(u: Usage)
    requires ValidUsage(u)
    ensures Pays(Spent(u), u)
  {
    BillIs(u);
  }

  /** Settling an open request adds to its day's cost the fewest millionths that pay its tokens at their prices, takes
      its reservation back, and records that cost on the row. */
  lemma SettlementCosts(l: Ledger, id: string, u: Usage, i: nat)
    requires Find(l.requests, id) == Some(i) && Open(l.requests[i]) && l.requests[i].model == MODEL && ValidUsage(u)
    ensures var after, r := SettleChat(l, id, u), l.requests[i];
      && |after.requests| == |l.requests| && after.requests[i].spent.Some?
      && Pays(after.requests[i].spent.value, u)
      && (r.day in l.days ==>
            && r.day in after.days
            && after.days[r.day].spent == l.days[r.day].spent + after.requests[i].spent.value
            && after.days[r.day].reserved == l.days[r.day].reserved - r.reserved
            && after.days[r.day].limit == l.days[r.day].limit && after.days[r.day].carried == l.days[r.day].carried)
  {
    SpentPays(u);
    hide Spent, ValidUsage;
  }

  function MoreOf(u: Usage, k: Kind, n: nat): Usage {
    var more := Some(TokensOf(u, k) + n);
    match k
    case FreshInput => u.(input := more)
    case Output => u.(output := more)
    case CacheWrite => u.(cacheCreation := more)
    case CacheRead => u.(cacheRead := more)
  }

  /** Ten more tokens of a kind cost exactly that kind's price more. */
  lemma TenMoreTokens(u: Usage, k: Kind, n: int, m: int)
    requires Pays(n, u) && Pays(m, MoreOf(u, k, 10)) && BillOf(u, ALL_KINDS) >= 0
    ensures m == n + PriceOf(k)
  {
    BillIs(u);
    BillIs(MoreOf(u, k, 10));
    hide BillOf;
    assert BillOf(MoreOf(u, k, 10), ALL_KINDS) == BillOf(u, ALL_KINDS) + 10 * PriceOf(k);
    LeastPays(BillOf(u, ALL_KINDS), n);
    LeastPays(BillOf(u, ALL_KINDS) + 10 * PriceOf(k), m);
  }

  lemma LeastPays(bill: nat, n: int)
    requires 10 * n >= bill && forall m: nat :: 10 * m >= bill ==> n <= m
    ensures 10 * n < bill + 10
  {
    assert 10 * ((bill + 9) / 10) >= bill;
  }

  ghost predicate Within(u: Usage, p: Payload) {
    && ValidUsage(u) && TokensOf(u, Output) <= p.maxTokens
    && TokensOf(u, FreshInput) + TokensOf(u, CacheWrite) + TokensOf(u, CacheRead) <= InputTokens(p)
  }

  /** A reservation is the dearest any usage within the payload can turn out: none costs more, and one costs exactly
      that, all its input written to the cache and every output token used. */
  lemma EstimateIsDearest(p: Payload, day: int)
    requires EstimateChat(p, day).Some?
    ensures forall u, n: nat | Within(u, p) && Pays(n, u) :: n <= EstimateChat(p, day).value
    ensures exists u :: Within(u, p) && Pays(EstimateChat(p, day).value, u)
  {
    hide Pays;
    forall u, n: nat | Within(u, p) && Pays(n, u) ensures n <= EstimateChat(p, day).value {
      PriceCoversUsage(p, day, u);
      SpentPays(u);
      PaysOnce(u, n, Spent(u));
    }
    var dearest := Usage(Some(0), Some(p.maxTokens), Some(InputTokens(p)), None);
    SpentPays(dearest);
  }

  lemma PaysOnce(u: Usage, n: nat, m: nat)
    requires Pays(n, u) && Pays(m, u)
    ensures n == m
  {
  }
}
