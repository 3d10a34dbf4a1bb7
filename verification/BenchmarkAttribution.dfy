/** `parseBenchmarkAttribution`: the arithmetic a published Brinson-Fachler attribution must satisfy,
    and what acceptance then guarantees about it. */
module BenchmarkAttribution {
  import opened Prelude

  /** One sector of the input: weights and returns of portfolio and benchmark. */
  datatype Sector = Sector(name: Text, wp: real, wb: real, rp: real, rb: real)

  datatype Effects = Effects(allocation: real, selection: real, interaction: real, total: real)

  datatype SectorReport = SectorReport(name: Text, effects: Effects)

  /** Decimal strings are their exact values. */
  datatype Document = Document(inputSectors: seq<Sector>, inputPortfolioReturn: real, inputBenchmarkReturn: real,
                               portfolioReturn: real, benchmarkReturn: real, activeReturn: real,
                               reconciliationDifference: real, sectors: seq<SectorReport>, totals: Effects)

  const TOLERANCE: real := 0.000000000001
  const LARGEST: real := 1000000.0
  const MAX_SECTORS: nat := 500

  function AtLeastOne(x: real): (r: real)
    ensures r >= 1.0 && r >= Abs(x)
  {
    if Abs(x) > 1.0 then Abs(x) else 1.0
  }

  predicate Same(value: real, expected: real) {
    Abs(value) <= LARGEST && Abs(value - expected) <= TOLERANCE * AtLeastOne(expected)
  }

  // ---------- the definitions ----------

  datatype Measure = PortfolioWeight | BenchmarkWeight | PortfolioReturn | BenchmarkReturn
                   | Allocation | Selection | Interaction | Combined

  /** What one sector contributes to a measure, given the total benchmark return br. */
  function Value(m: Measure, s: Sector, br: real): real {
    match m
    case PortfolioWeight => s.wp
    case BenchmarkWeight => s.wb
    case PortfolioReturn => Times(s.wp, s.rp)
    case BenchmarkReturn => Times(s.wb, s.rb)
    case Allocation => Times(s.wp - s.wb, s.rb - br)
    case Selection => Times(s.wb, s.rp - s.rb)
    case Interaction => Times(s.wp - s.wb, s.rp - s.rb)
    case Combined => Times(s.wp - s.wb, s.rb - br) + Times(s.wb, s.rp - s.rb) + Times(s.wp - s.wb, s.rp - s.rb)
  }

  function Sum(m: Measure, rows: seq<Sector>, br: real): real {
    if rows == [] then 0.0 else Sum(m, rows[..|rows| - 1], br) + Value(m, rows[|rows| - 1], br)
  }

  function TotalBenchmarkReturn(rows: seq<Sector>): real {
    Sum(BenchmarkReturn, rows, 0.0)
  }

  function TotalPortfolioReturn(rows: seq<Sector>): real {
    Sum(PortfolioReturn, rows, 0.0)
  }

  function Weights(m: Measure, rows: seq<Sector>): real {
    Sum(m, rows, 0.0)
  }

  function EffectsOf(s: Sector, br: real): Effects {
    Effects(Value(Allocation, s, br), Value(Selection, s, br), Value(Interaction, s, br), Value(Combined, s, br))
  }

  function TotalEffects(rows: seq<Sector>, br: real): Effects {
    Effects(Sum(Allocation, rows, br), Sum(Selection, rows, br), Sum(Interaction, rows, br), Sum(Combined, rows, br))
  }

  predicate SameEffects(reported: Effects, expected: Effects) {
    && Same(reported.allocation, expected.allocation) && Same(reported.selection, expected.selection)
    && Same(reported.interaction, expected.interaction) && Same(reported.total, expected.total)
  }

  predicate SoundSector(s: Sector) {
    0.0 <= s.wp <= 1.0 && 0.0 <= s.wb <= 1.0 && -1.0 <= s.rp <= 1000.0 && -1.0 <= s.rb <= 1000.0
  }

  ghost predicate SoundInput(rows: seq<Sector>) {
    && (forall i | 0 <= i < |rows| :: SoundSector(rows[i]))
    && (forall i, j | 0 <= i < j < |rows| :: rows[i].name != rows[j].name)
  }

  ghost predicate SectorsMatch(reports: seq<SectorReport>, rows: seq<Sector>, br: real, n: nat)
    requires n <= |rows| == |reports|
  {
    forall i | 0 <= i < n :: reports[i].name == rows[i].name && SameEffects(reports[i].effects, EffectsOf(rows[i], br))
  }

  /** The numbers a document must agree with, in terms of the definitions above. */
  ghost predicate Consistent(d: Document) {
    var rows, br, pr := d.inputSectors, TotalBenchmarkReturn(d.inputSectors), TotalPortfolioReturn(d.inputSectors);
    && 0 < |rows| <= MAX_SECTORS && SoundInput(rows)
    && Same(Weights(PortfolioWeight, rows), 1.0) && Same(Weights(BenchmarkWeight, rows), 1.0)
    && Same(d.inputPortfolioReturn, pr) && Same(d.inputBenchmarkReturn, br)
    && Same(d.portfolioReturn, pr) && Same(d.benchmarkReturn, br)
    && |d.sectors| == |rows| && SectorsMatch(d.sectors, rows, br, |rows|)
    && SameEffects(d.totals, TotalEffects(rows, br))
    && Same(d.activeReturn, pr - br) && Same(d.reconciliationDifference, 0.0)
    && Same(Sum(Combined, rows, br), pr - br)
  }

  // ---------- the check ----------

  method CheckSectors(rows: seq<Sector>) returns (ok: bool)
    ensures ok <==> SoundInput(rows)
  {
    var names: set<Text> := {};
    for n := 0 to |rows|
      invariant names == set i | 0 <= i < n :: rows[i].name
      invariant forall i | 0 <= i < n :: SoundSector(rows[i])
      invariant forall i, j | 0 <= i < j < n :: rows[i].name != rows[j].name
    {
      var s := rows[n];
      if s.name in names || !SoundSector(s) {
        return false;
      }
      names := names + {s.name};
    }
    ok := true;
  }

  method SumRows(m: Measure, rows: seq<Sector>) returns (total: real)
    ensures total == Sum(m, rows, 0.0)
  {
    total := 0.0;
    for n := 0 to |rows|
      invariant total == Sum(m, rows[..n], 0.0)
    {
      SumStep(m, rows, n, 0.0);
      total := total + Value(m, rows[n], 0.0);
    }
    assert rows[..|rows|] == rows;
  }

  lemma SumStep(m: Measure, rows: seq<Sector>, n: nat, br: real)
    requires n < |rows|
    ensures Sum(m, rows[..n + 1], br) == Sum(m, rows[..n], br) + Value(m, rows[n], br)
  {
    assert rows[..n + 1][..n] == rows[..n];
  }

  lemma TotalsStep(rows: seq<Sector>, n: nat, br: real)
    requires n < |rows|
    ensures var t, u, e := TotalEffects(rows[..n], br), TotalEffects(rows[..n + 1], br), EffectsOf(rows[n], br);
      u == Effects(t.allocation + e.allocation, t.selection + e.selection, t.interaction + e.interaction,
                   t.total + e.total)
  {
    hide Sum, Value;
    SumStep(Allocation, rows, n, br);
    SumStep(Selection, rows, n, br);
    SumStep(Interaction, rows, n, br);
    SumStep(Combined, rows, n, br);
  }

  /** Every reported sector against its own effects, adding the effects up on the way. */
  method CheckEffects(reports: seq<SectorReport>, rows: seq<Sector>, br: real) returns (ok: bool, totals: Effects)
    requires |reports| == |rows|
    ensures ok <==> SectorsMatch(reports, rows, br, |rows|)
    ensures ok ==> totals == TotalEffects(rows, br)
  {
    hide SameEffects, EffectsOf, TotalEffects;
    totals := Effects(0.0, 0.0, 0.0, 0.0);
    assert totals == TotalEffects(rows[..0], br) by { NoEffects(br); }
    for n := 0 to |rows|
      invariant totals == TotalEffects(rows[..n], br)
      invariant SectorsMatch(reports, rows, br, n)
    {
      var e := EffectsOf(rows[n], br);
      if reports[n].name != rows[n].name || !SameEffects(reports[n].effects, e) {
        return false, totals;
      }
      TotalsStep(rows, n, br);
      totals := Effects(totals.allocation + e.allocation, totals.selection + e.selection,
                        totals.interaction + e.interaction, totals.total + e.total);
    }
    assert rows[..|rows|] == rows;
    ok := true;
  }

  lemma NoEffects(br: real)
    ensures TotalEffects([], br) == Effects(0.0, 0.0, 0.0, 0.0)
  {
  }

  /** A document is accepted exactly when it is consistent. */
  method ParseBenchmarkAttribution(d: Document) returns (ok: bool)
    ensures ok <==> Consistent(d)
  {
    hide Sum, Value, SoundInput, SectorsMatch, SameEffects, Same;
    var rows := d.inputSectors;
    if !(0 < |rows| <= MAX_SECTORS) {
      return false;
    }
    var sound := CheckSectors(rows);
    if !sound {
      return false;
    }
    var wp := SumRows(PortfolioWeight, rows);
    var wb := SumRows(BenchmarkWeight, rows);
    if !Same(wp, 1.0) || !Same(wb, 1.0) {
      return false;
    }
    var pr := SumRows(PortfolioReturn, rows);
    var br := SumRows(BenchmarkReturn, rows);
    if !Same(d.inputPortfolioReturn, pr) || !Same(d.inputBenchmarkReturn, br)
       || !Same(d.portfolioReturn, pr) || !Same(d.benchmarkReturn, br) || |d.sectors| != |rows| {
      return false;
    }
    var matching, totals := CheckEffects(d.sectors, rows, br);
    if !matching {
      return false;
    }
    ok := SameEffects(d.totals, totals) && Same(d.activeReturn, pr - br)
      && Same(d.reconciliationDifference, 0.0) && Same(totals.total, pr - br);
  }

  // ---------- the identity ----------

  lemma SectorIdentity(s: Sector, br: real)
    ensures Value(Combined, s, br)
         == Times(s.wp, s.rp) - Times(s.wb, s.rb) - Times(br, s.wp) + Times(br, s.wb)
  {
    assert (s.wp - s.wb) * (s.rb - br) == s.wp * s.rb - s.wp * br - s.wb * s.rb + s.wb * br;
    assert s.wb * (s.rp - s.rb) == s.wb * s.rp - s.wb * s.rb;
    assert (s.wp - s.wb) * (s.rp - s.rb) == s.wp * s.rp - s.wp * s.rb - s.wb * s.rp + s.wb * s.rb;
  }

  lemma Distributes(t: real, a: real, b: real, d: real)
    requires d == a + b
    ensures Times(t, d) == Times(t, a) + Times(t, b)
  {
  }

  /** Allocation, selection and interaction add up, over any number of sectors, to the active return less
      the benchmark return times the difference between the two weight sums. */
  lemma {:induction false} EffectsReconcile(rows: seq<Sector>, br: real)
    ensures Sum(Combined, rows, br) == TotalPortfolioReturn(rows) - TotalBenchmarkReturn(rows)
                                     - Times(br, Weights(PortfolioWeight, rows) - Weights(BenchmarkWeight, rows))
    decreases |rows|
  {
    if rows != [] {
      var n := |rows| - 1;
      var init, s := rows[..n], rows[n];
      EffectsReconcile(init, br);
      hide Times;
      SectorIdentity(s, br);
      var gap := Weights(PortfolioWeight, init) - Weights(BenchmarkWeight, init);
      Distributes(br, gap, s.wp - s.wb, gap + (s.wp - s.wb));
      Distributes(br, s.wp - s.wb, s.wb, s.wp);
    } else {
      assert Times(br, 0.0) == 0.0;
    }
  }

  /** The three effects of each sector, and so of any set of sectors, add up to its total. */
  lemma {:induction false} ThreeEffects(rows: seq<Sector>, br: real)
    ensures Sum(Combined, rows, br)
         == Sum(Allocation, rows, br) + Sum(Selection, rows, br) + Sum(Interaction, rows, br)
    decreases |rows|
  {
    if rows != [] {
      ThreeEffects(rows[..|rows| - 1], br);
    }
  }

  /** With weights that sum to one, the effects are exactly the active return. */
  lemma EffectsExact(rows: seq<Sector>)
    requires Weights(PortfolioWeight, rows) == 1.0 && Weights(BenchmarkWeight, rows) == 1.0
    ensures Sum(Combined, rows, TotalBenchmarkReturn(rows)) == TotalPortfolioReturn(rows) - TotalBenchmarkReturn(rows)
  {
    hide Sum;
    EffectsReconcile(rows, TotalBenchmarkReturn(rows));
    NoShare(TotalBenchmarkReturn(rows));
  }

  lemma NoShare(br: real)
    ensures Times(br, 0.0) == 0.0
  {
  }

  lemma SmallProduct(br: real, gap: real, bound: real)
    requires Abs(gap) <= bound
    ensures Abs(Times(br, gap)) <= bound * Abs(br)
  {
    var b := Abs(br);
    if gap >= 0.0 {
      Below(gap, bound, b);
    } else {
      Below(-gap, bound, b);
    }
  }

  lemma Below(a: real, b: real, c: real)
    requires a <= b && c >= 0.0
    ensures a * c <= b * c
  {
  }

  /** When both weight sums pass the tolerance, the effects reconcile with the active return to within
      twice that tolerance of the benchmark return. */
  lemma EffectsWithinTolerance(rows: seq<Sector>)
    requires Same(Weights(PortfolioWeight, rows), 1.0) && Same(Weights(BenchmarkWeight, rows), 1.0)
    ensures var br := TotalBenchmarkReturn(rows);
      Abs(Sum(Combined, rows, br) - (TotalPortfolioReturn(rows) - br)) <= 0.000000000002 * Abs(br)
  {
    hide Sum;
    var br := TotalBenchmarkReturn(rows);
    EffectsReconcile(rows, br);
    hide Times;
    SmallProduct(br, Weights(PortfolioWeight, rows) - Weights(BenchmarkWeight, rows), 2.0 * TOLERANCE);
  }

  // ---------- which effect is which ----------

  datatype Side = Portfolio | Benchmark

  function WeightOf(side: Side, s: Sector): real {
    if side.Portfolio? then s.wp else s.wb
  }

  function ReturnOf(side: Side, s: Sector): real {
    if side.Portfolio? then s.rp else s.rb
  }

  /** What one side's weights would have earned at one side's returns. */
  function Blend(weights: Side, earning: Side, rows: seq<Sector>): real {
    if rows == [] then 0.0
    else
      var n := |rows| - 1;
      Blend(weights, earning, rows[..n]) + Times(WeightOf(weights, rows[n]), ReturnOf(earning, rows[n]))
  }

  function Held(side: Side, rows: seq<Sector>): real {
    if rows == [] then 0.0 else Held(side, rows[..|rows| - 1]) + WeightOf(side, rows[|rows| - 1])
  }

  lemma ThreeProducts(s: Sector, br: real)
    ensures Value(Allocation, s, br)
         == Times(s.wp, s.rb) - Times(s.wb, s.rb) - (Times(br, s.wp) - Times(br, s.wb))
    ensures Value(Selection, s, br) == Times(s.wb, s.rp) - Times(s.wb, s.rb)
    ensures Value(Interaction, s, br)
         == Times(s.wp, s.rp) - Times(s.wp, s.rb) - Times(s.wb, s.rp) + Times(s.wb, s.rb)
  {
  }

  /** Summed over the sectors, allocation is what the portfolio's weights earn at the benchmark's returns over what
      the benchmark's own earn, less the benchmark's return on the weights' difference; selection is what the
      benchmark's weights earn at the portfolio's returns over their own; interaction is what is left. */
  lemma {:induction false} EffectsAre(rows: seq<Sector>, br: real)
    ensures Sum(Allocation, rows, br)
         == Blend(Portfolio, Benchmark, rows) - Blend(Benchmark, Benchmark, rows)
            - Times(br, Held(Portfolio, rows) - Held(Benchmark, rows))
    ensures Sum(Selection, rows, br) == Blend(Benchmark, Portfolio, rows) - Blend(Benchmark, Benchmark, rows)
    ensures Sum(Interaction, rows, br)
         == Blend(Portfolio, Portfolio, rows) - Blend(Portfolio, Benchmark, rows)
            - Blend(Benchmark, Portfolio, rows) + Blend(Benchmark, Benchmark, rows)
    decreases |rows|
  {
    if rows == [] {
      NoShare(br);
    } else {
      var n := |rows| - 1;
      EffectsAre(rows[..n], br);
      ThreeProducts(rows[n], br);
      hide Times, Value;
      var gap := Held(Portfolio, rows[..n]) - Held(Benchmark, rows[..n]);
      Distributes(br, gap, rows[n].wp - rows[n].wb, gap + (rows[n].wp - rows[n].wb));
      Distributes(br, rows[n].wp - rows[n].wb, rows[n].wb, rows[n].wp);
    }
  }

  /** The totals a document is checked against are the two sides' own. */
  lemma {:induction false} TotalsAre(rows: seq<Sector>)
    ensures TotalPortfolioReturn(rows) == Blend(Portfolio, Portfolio, rows)
    ensures TotalBenchmarkReturn(rows) == Blend(Benchmark, Benchmark, rows)
    ensures Weights(PortfolioWeight, rows) == Held(Portfolio, rows)
    ensures Weights(BenchmarkWeight, rows) == Held(Benchmark, rows)
    decreases |rows|
  {
    hide Times;
    if rows != [] {
      TotalsAre(rows[..|rows| - 1]);
    }
  }

  /** A sector has no allocation where the weights agree, no selection where the returns agree, and no interaction
      where either does. */
  lemma NoEffectWithoutDifference(s: Sector, br: real)
    ensures s.wp == s.wb ==> EffectsOf(s, br).allocation == 0.0 && EffectsOf(s, br).interaction == 0.0
    ensures s.rp == s.rb ==> EffectsOf(s, br).selection == 0.0 && EffectsOf(s, br).interaction == 0.0
    ensures s.rb == br ==> EffectsOf(s, br).allocation == 0.0
  {
  }

  /** An accepted document's three totals are, within the tolerances, those differences of notional portfolios. */
  lemma AcceptedEffectsAre(d: Document)
    requires Consistent(d)
    ensures var rows := d.inputSectors;
      var br := Blend(Benchmark, Benchmark, rows);
      && Same(d.totals.allocation, Blend(Portfolio, Benchmark, rows) - br
                                     - Times(br, Held(Portfolio, rows) - Held(Benchmark, rows)))
      && Same(d.totals.selection, Blend(Benchmark, Portfolio, rows) - br)
      && Same(d.totals.interaction, Blend(Portfolio, Portfolio, rows) - Blend(Portfolio, Benchmark, rows)
                                      - Blend(Benchmark, Portfolio, rows) + br)
  {
    hide Sum, SoundInput, SectorsMatch, Same, Blend, Held;
    TotalsAre(d.inputSectors);
    EffectsAre(d.inputSectors, TotalBenchmarkReturn(d.inputSectors));
  }

  // ---------- the recomputed total is always in range ----------

  lemma ShareBounded(w: real, r: real)
    requires w >= 0.0 && -1.0 <= r <= 1000.0
    ensures -w <= Times(w, r) <= 1000.0 * w
  {
    Ordered(-1.0, r, w);
    Ordered(r, 1000.0, w);
  }

  lemma Ordered(low: real, high: real, w: real)
    requires w >= 0.0 && low <= high
    ensures w * low <= w * high
  {
  }

  /** A weighted return lies between minus one and a thousand times its weights. */
  lemma {:induction false} ReturnsBounded(rows: seq<Sector>)
    requires forall i | 0 <= i < |rows| :: SoundSector(rows[i])
    ensures -Weights(PortfolioWeight, rows) <= TotalPortfolioReturn(rows) <= 1000.0 * Weights(PortfolioWeight, rows)
    ensures -Weights(BenchmarkWeight, rows) <= TotalBenchmarkReturn(rows) <= 1000.0 * Weights(BenchmarkWeight, rows)
    decreases |rows|
  {
    if rows != [] {
      var n := |rows| - 1;
      ReturnsBounded(rows[..n]);
      ShareBounded(rows[n].wp, rows[n].rp);
      ShareBounded(rows[n].wb, rows[n].rb);
      hide Times;
    }
  }

  lemma TotalInRange(rows: seq<Sector>)
    requires forall i | 0 <= i < |rows| :: SoundSector(rows[i])
    requires Same(Weights(PortfolioWeight, rows), 1.0) && Same(Weights(BenchmarkWeight, rows), 1.0)
    ensures Abs(Sum(Combined, rows, TotalBenchmarkReturn(rows))) <= LARGEST
  {
    ReturnsBounded(rows);
    EffectsWithinTolerance(rows);
    hide Sum, Weights, TotalBenchmarkReturn, TotalPortfolioReturn;
  }

  /** For sound sectors whose weights pass, the check of the recomputed total fails exactly when the weights'
      difference, scaled by the benchmark return, leaves the tolerance. */
  lemma ReconciliationExact(rows: seq<Sector>)
    requires forall i | 0 <= i < |rows| :: SoundSector(rows[i])
    requires Same(Weights(PortfolioWeight, rows), 1.0) && Same(Weights(BenchmarkWeight, rows), 1.0)
    ensures var br, pr := TotalBenchmarkReturn(rows), TotalPortfolioReturn(rows);
      var gap := Weights(PortfolioWeight, rows) - Weights(BenchmarkWeight, rows);
      Same(Sum(Combined, rows, br), pr - br) <==> Abs(Times(br, gap)) <= TOLERANCE * AtLeastOne(pr - br)
  {
    TotalInRange(rows);
    hide Sum, Times, Weights;
    EffectsReconcile(rows, TotalBenchmarkReturn(rows));
  }

  /** It cannot fail for them unless the benchmark moved by more than half. */
  lemma ReconciliationImplied(rows: seq<Sector>)
    requires forall i | 0 <= i < |rows| :: SoundSector(rows[i])
    requires Same(Weights(PortfolioWeight, rows), 1.0) && Same(Weights(BenchmarkWeight, rows), 1.0)
    requires Abs(TotalBenchmarkReturn(rows)) <= 0.5
    ensures Same(Sum(Combined, rows, TotalBenchmarkReturn(rows)),
                 TotalPortfolioReturn(rows) - TotalBenchmarkReturn(rows))
  {
    TotalInRange(rows);
    hide Sum;
    EffectsWithinTolerance(rows);
  }

  /** An accepted document's own published total and active return agree: their difference is bounded by
      the tolerance on each and on the weights. */
  lemma AcceptedTotalsAgree(d: Document)
    requires Consistent(d)
    ensures var br := TotalBenchmarkReturn(d.inputSectors);
      var active, total := TotalPortfolioReturn(d.inputSectors) - br, Sum(Combined, d.inputSectors, br);
      Abs(d.totals.total - d.activeReturn)
        <= TOLERANCE * (AtLeastOne(active) + AtLeastOne(total)) + 2.0 * TOLERANCE * Abs(br)
  {
    hide Sum, SoundInput, SectorsMatch, Weights, TotalBenchmarkReturn, TotalPortfolioReturn, AtLeastOne;
    EffectsWithinTolerance(d.inputSectors);
  }

  /** And so do its three published effects and its published total. */
  lemma AcceptedEffectsAgree(d: Document)
    requires Consistent(d)
    ensures var br := TotalBenchmarkReturn(d.inputSectors);
      var t := TotalEffects(d.inputSectors, br);
      Abs(d.totals.allocation + d.totals.selection + d.totals.interaction - d.totals.total)
        <= TOLERANCE * (AtLeastOne(t.allocation) + AtLeastOne(t.selection) + AtLeastOne(t.interaction)
                        + AtLeastOne(t.total))
  {
    hide Sum, SoundInput, SectorsMatch, Weights, TotalBenchmarkReturn, TotalPortfolioReturn, AtLeastOne;
    ThreeEffects(d.inputSectors, TotalBenchmarkReturn(d.inputSectors));
  }

  // ---------- what the effects do not depend on ----------

  function Shift(s: Sector, c: real): Sector {
    s.(rp := s.rp + c, rb := s.rb + c)
  }

  function ShiftAll(rows: seq<Sector>, c: real): (r: seq<Sector>)
    ensures |r| == |rows|
  {
    seq(|rows|, i requires 0 <= i < |rows| => Shift(rows[i], c))
  }

  predicate IsEffect(m: Measure) {
    m.Allocation? || m.Selection? || m.Interaction? || m.Combined?
  }

  lemma {:induction false} ShiftedEffects(m: Measure, rows: seq<Sector>, c: real, br: real)
    requires IsEffect(m)
    ensures Sum(m, ShiftAll(rows, c), br + c) == Sum(m, rows, br)
    decreases |rows|
  {
    hide Times;
    if rows != [] {
      var n := |rows| - 1;
      assert ShiftAll(rows, c)[..n] == ShiftAll(rows[..n], c);
      ShiftedEffects(m, rows[..n], c, br);
      var s := rows[n];
      assert Shift(s, c).rb - (br + c) == s.rb - br && Shift(s, c).rp - Shift(s, c).rb == s.rp - s.rb;
    }
  }

  lemma {:induction false} ShiftedBenchmark(rows: seq<Sector>, c: real)
    ensures TotalBenchmarkReturn(ShiftAll(rows, c))
         == TotalBenchmarkReturn(rows) + Times(c, Weights(BenchmarkWeight, rows))
    decreases |rows|
  {
    if rows != [] {
      var n := |rows| - 1;
      assert ShiftAll(rows, c)[..n] == ShiftAll(rows[..n], c);
      ShiftedBenchmark(rows[..n], c);
      var s := rows[n];
      ShiftedReturn(s.wb, s.rb, c);
      hide Times;
      Distributes(c, Weights(BenchmarkWeight, rows[..n]), s.wb, Weights(BenchmarkWeight, rows));
    } else {
      NoShare(c);
    }
  }

  lemma ShiftedReturn(w: real, r: real, c: real)
    ensures Times(w, r + c) == Times(w, r) + Times(c, w)
  {
  }

  /** With benchmark weights summing to one, moving every return by the same amount changes no effect: the
      attribution measures only relative performance. */
  lemma EffectsRelative(m: Measure, rows: seq<Sector>, c: real)
    requires IsEffect(m) && Weights(BenchmarkWeight, rows) == 1.0
    ensures Sum(m, ShiftAll(rows, c), TotalBenchmarkReturn(ShiftAll(rows, c)))
         == Sum(m, rows, TotalBenchmarkReturn(rows))
  {
    hide Sum, ShiftAll;
    ShiftedBenchmark(rows, c);
    ShiftedEffects(m, rows, c, TotalBenchmarkReturn(rows));
  }
}
