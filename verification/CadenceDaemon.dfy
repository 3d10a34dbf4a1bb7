/** The supervisor of the ghost daemon: aligned ticks, the fault policy that ends in a latched halt, the
    reconnect backoff, and the drain of a capped trace window into the proof log. Every write to the log may
    fail; one that fails while a tick is being closed ends the loop. */
module CadenceDaemon {
  import opened Prelude

  datatype Trace = Trace(decisionId: Text)

  // ---------- policies ----------

  datatype FaultPolicy = FaultPolicy(backoffSeconds: seq<real>, haltAfter: nat)

  predicate SoundPolicy(p: FaultPolicy) {
    p.backoffSeconds != [] && p.haltAfter >= 1 && forall i | 0 <= i < |p.backoffSeconds| :: p.backoffSeconds[i] >= 0.0
  }

  /** The delay after the n-th consecutive failure: the n-th of the series, the last one from then on. */
  function DelayFor(p: FaultPolicy, consecutiveFailures: int): (delay: real)
    requires SoundPolicy(p)
    ensures delay >= 0.0
    ensures 1 <= consecutiveFailures <= |p.backoffSeconds| ==> delay == p.backoffSeconds[consecutiveFailures - 1]
    ensures consecutiveFailures >= |p.backoffSeconds| ==> delay == p.backoffSeconds[|p.backoffSeconds| - 1]
  {
    p.backoffSeconds[Min(Max(consecutiveFailures, 1), |p.backoffSeconds|) - 1]
  }

  /** The next tick, in microseconds since the epoch; None for a cadence that is not positive. */
  function NextBoundary(now: int, cadence: int): Option<int> {
    if cadence <= 0 then None else Some((now / cadence + 1) * cadence)
  }

  lemma FloorBounds(now: int, cadence: int)
    requires cadence > 0
    ensures now / cadence * cadence <= now < (now / cadence + 1) * cadence
  {
    assert now == now / cadence * cadence + now % cadence;
    assert (now / cadence + 1) * cadence == now / cadence * cadence + cadence;
  }

  lemma MultipleOrder(a: int, b: int, c: int)
    requires c > 0 && a * c < b * c
    ensures a < b
  {
    if a >= b {
      Grows(b, a, c);
    }
  }

  /** The next boundary is the first multiple of the cadence strictly after now, and at most one cadence away. */
  lemma BoundaryIsNext(now: int, cadence: int, other: int)
    requires cadence > 0
    ensures var b := NextBoundary(now, cadence).value;
      && b % cadence == 0 && now < b <= now + cadence
      && (now < other && other % cadence == 0 ==> b <= other)
  {
    var q := now / cadence;
    FloorBounds(now, cadence);
    assert (q + 1) * cadence == q * cadence + cadence;
    MultipleRemainder(q + 1, cadence);
    if now < other && other % cadence == 0 {
      var k := other / cadence;
      assert other == k * cadence + other % cadence;
      MultipleOrder(q, k, cadence);
      Grows(q + 1, k, cadence);
    }
  }

  lemma MultipleRemainder(k: int, c: int)
    requires c > 0
    ensures (k * c) % c == 0
  {
    var n := k * c;
    FloorBounds(n, c);
    var q := n / c;
    assert n == q * c + n % c;
    if k != q {
      assert (k - q) * c == n % c;
      if k > q {
        Grows(1, k - q, c);
      } else {
        Grows(k - q, -1, c);
      }
    }
  }

  lemma Grows(a: int, b: int, c: int)
    requires c > 0 && a <= b
    ensures a * c <= b * c
  {
    assert (b - a) * c >= 0;
    assert b * c == a * c + (b - a) * c;
  }

  // ---------- the trace window and the log ----------

  /** What a capped deque retains of everything recorded. */
  function Tail(all: seq<Trace>, retained: nat): seq<Trace> {
    if |all| <= retained then all else all[|all| - retained..]
  }

  lemma TailCounts(all: seq<Trace>, retained: nat)
    ensures |Tail(all, retained)| == Min(|all|, retained)
    ensures forall i | 0 <= i < |Tail(all, retained)| ::
              Tail(all, retained)[i] == all[|all| - |Tail(all, retained)| + i]
  {
  }

  /** What happens to the proof log: a trace is recorded, a capture completes while `during` further traces
      are recorded after it read the window, or a capture's write fails after some lines. */
  datatype Happening = Recorded | Captured(during: nat) | CaptureFailed(lines: nat)

  /** Traces by their number: how many were recorded, up to where they were counted as written, and the
      numbers on the log's lines. */
  datatype Progress = Progress(recorded: nat, proofCount: nat, written: seq<nat>)

  function Range(lo: nat, hi: nat): (r: seq<nat>)
    requires lo <= hi
    ensures |r| == hi - lo && forall i | 0 <= i < |r| :: r[i] == lo + i
  {
    seq(hi - lo, i requires 0 <= i < hi - lo => lo + i)
  }

  lemma RangeStep(lo: nat, hi: nat)
    requires lo <= hi
    ensures Range(lo, hi + 1) == Range(lo, hi) + [hi]
  {
  }

  /** The first trace a capture writes: not counted yet and still in the window. */
  function FirstUnwritten(s: Progress, retained: nat): nat
    requires s.proofCount <= s.recorded
    ensures s.proofCount <= FirstUnwritten(s, retained) <= s.recorded
  {
    if s.recorded - s.proofCount <= retained then s.proofCount else s.recorded - retained
  }

  function Step(s: Progress, h: Happening, retained: nat): (r: Progress)
    requires s.proofCount <= s.recorded
    ensures r.proofCount <= r.recorded
  {
    var first := FirstUnwritten(s, retained);
    match h
    case Recorded => s.(recorded := s.recorded + 1)
    case Captured(during) =>
      Progress(s.recorded + during, s.recorded + during, s.written + Range(first, s.recorded))
    case CaptureFailed(lines) =>
      s.(written := s.written + Range(first, Min(first + lines, s.recorded)))
  }

  /** The daemon around its trace logger. `all` and `written` number what the window has forgotten. */
  class DaemonRunner {
    const retained: nat
    const policy: FaultPolicy
    var window: seq<Trace>
    var recordedCount: nat
    var proofCount: nat
    var log: seq<Trace>
    var consecutiveFailures: nat
    var halted: bool
    var slept: seq<real>
    var running: bool
    ghost var all: seq<Trace>
    ghost var written: seq<nat>

    ghost predicate Valid()
      reads this
    {
      && retained >= 1 && SoundPolicy(policy)
      && recordedCount == |all| && window == Tail(all, retained) && proofCount <= recordedCount
      && |log| == |written| && forall i | 0 <= i < |log| :: written[i] < |all| && log[i] == all[written[i]]
    }

    ghost function Counts(): Progress
      reads this
    {
      Progress(recordedCount, proofCount, written)
    }

    constructor (retained: nat, policy: FaultPolicy)
      requires retained >= 1 && SoundPolicy(policy)
      ensures Valid() && fresh(this) && this.retained == retained && this.policy == policy
      ensures Counts() == Progress(0, 0, []) && Failures() == FailureState(0, false, [], true)
    {
      this.retained, this.policy := retained, policy;
      window, recordedCount, proofCount, log := [], 0, 0, [];
      consecutiveFailures, halted, slept, running := 0, false, [], true;
      all, written := [], [];
    }

    method Record(trace: Trace)
      requires Valid()
      modifies this`window, this`recordedCount, this`all
      ensures Valid() && all == old(all) + [trace]
      ensures Counts() == Step(old(Counts()), Recorded, retained)
    {
      var longer := window + [trace];
      window := if |longer| > retained then longer[1..] else longer;
      recordedCount := recordedCount + 1;
      all := all + [trace];
    }

    /** Appends the last `unwritten` traces of the window, up to the line whose write fails. */
    method AppendProofs(unwritten: nat, failAfter: Option<nat>) returns (ok: bool)
      requires Valid() && unwritten <= |window|
      modifies this`log, this`written
      ensures Valid()
      ensures ok <==> failAfter.None? || failAfter.value >= unwritten
      ensures var first := recordedCount - unwritten;
        written == old(written) + Range(first, first + if ok then unwritten else failAfter.value)
    {
      hide Tail;
      ghost var first := recordedCount - unwritten;
      TailCounts(all, retained);
      for n := 0 to unwritten
        invariant Valid() && written == old(written) + Range(first, first + n)
        invariant failAfter.None? || n <= failAfter.value
      {
        if failAfter == Some(n) {
          return false;
        }
        var trace := window[|window| - unwritten + n];
        log := log + [trace];
        written := written + [first + n];
        RangeStep(first, first + n);
      }
      ok := true;
    }

    method RecordAll(traces: seq<Trace>)
      requires Valid()
      modifies this`window, this`recordedCount, this`all
      ensures Valid() && all == old(all) + traces && recordedCount == old(recordedCount) + |traces|
    {
      hide Tail;
      for n := 0 to |traces|
        invariant Valid() && all == old(all) + traces[..n] && recordedCount == old(recordedCount) + n
      {
        Record(traces[n]);
      }
      assert traces[..|traces|] == traces;
    }

    /** Appends what the window still holds of the traces not counted yet. `failAfter` is the number of
        lines the log takes before a write fails, None when every write succeeds; `during` are traces
        recorded after the window was read. */
    method CaptureProofs(failAfter: Option<nat>, during: seq<Trace>) returns (ok: bool)
      requires Valid()
      modifies this`window, this`recordedCount, this`proofCount, this`log, this`all, this`written
      ensures Valid()
      ensures var unwritten := old(recordedCount) - FirstUnwritten(old(Counts()), retained);
        ok <==> failAfter.None? || failAfter.value >= unwritten
      ensures Counts()
           == Step(old(Counts()), if ok then Captured(|during|) else CaptureFailed(failAfter.value), retained)
      ensures all == if ok then old(all) + during else old(all)
    {
      hide Tail;
      TailCounts(all, retained);
      var unwritten := Min(Max(recordedCount - proofCount, 0), |window|);
      ok := AppendProofs(unwritten, failAfter);
      if ok {
        RecordAll(during);
        proofCount := recordedCount;
      }
    }

    /** Absorbs a failed tick: record it, latch the halt once failures persist, back off. A record that cannot be
        made leaves the handler at that point, and with it the loop. */
    method HandleCadenceFailure(eventRecorded: bool, haltRecorded: bool)
      requires Valid() && running
      modifies this`consecutiveFailures, this`halted, this`slept, this`running
      ensures Valid()
      ensures consecutiveFailures == old(consecutiveFailures) + 1
      ensures halted == (old(halted) || (eventRecorded && consecutiveFailures >= policy.haltAfter))
      ensures running == (eventRecorded && (consecutiveFailures >= policy.haltAfter ==> haltRecorded))
      ensures slept == if running then old(slept) + [DelayFor(policy, consecutiveFailures)] else old(slept)
    {
      consecutiveFailures := consecutiveFailures + 1;
      if !eventRecorded {
        running := false;
        return;
      }
      if consecutiveFailures >= policy.haltAfter {
        halted := true;
        if !haltRecorded {
          running := false;
          return;
        }
      }
      slept := slept + [DelayFor(policy, consecutiveFailures)];
    }

    /** The body of a tick: the analysis records traces and may fail; only then are proofs captured, which may
        fail too. */
    method Attempt(t: TickInput) returns (ok: bool)
      requires Valid()
      modifies this`window, this`recordedCount, this`proofCount, this`log, this`all, this`written
      ensures Valid() && ok == TickOk(old(Counts()), t, retained)
      ensures Counts() == Run(old(Counts()), t.Happenings(ok), retained)
    {
      hide Tail, Step;
      Analyse(t.analysed);
      RunRecords(old(Counts()), |t.analysed|, retained);
      ok := false;
      if !t.analysisFails {
        ok := CaptureProofs(t.failAfter, t.during);
        RunAppend(old(Counts()), Repeat(|t.analysed|),
                  if ok then Captured(|t.during|) else CaptureFailed(t.failAfter.value),
                  retained);
      } else {
        assert Repeat(|t.analysed|) + [] == Repeat(|t.analysed|);
      }
    }

    /** The close of a tick. A recovery is logged before the failures are forgotten. */
    method Close(o: Outcome)
      requires Valid() && running
      modifies this`consecutiveFailures, this`halted, this`slept, this`running
      ensures Valid() && Failures() == AfterTick(old(Failures()), o, policy)
    {
      if !o.ok {
        HandleCadenceFailure(o.eventRecorded, o.haltRecorded);
      } else if consecutiveFailures > 0 && !o.eventRecorded {
        running := false;
      } else {
        consecutiveFailures := 0;
      }
    }

    /** The cadence loop over any ticks: it goes through them until one leaves it. */
    method RunAlignedCadence(ticks: seq<TickInput>) returns (oks: seq<bool>)
      requires Valid() && running
      modifies this
      ensures Valid() && |oks| <= |ticks| && (|oks| < |ticks| ==> !running)
      ensures Decided(old(Counts()), ticks, oks, retained)
      ensures Failures() == AfterTicks(old(Failures()), Outcomes(ticks, oks), policy)
      ensures Counts() == Run(old(Counts()), AllHappenings(ticks, oks), retained)
    {
      hide AfterTick, AfterTicks, Tail, Run, TickOk, Decided, AllHappenings, Outcomes;
      oks := [];
      NothingYet(old(Counts()), old(Failures()), ticks, retained, policy);
      while |oks| < |ticks| && running
        invariant Valid() && |oks| <= |ticks|
        invariant Decided(old(Counts()), ticks, oks, retained)
        invariant Failures() == AfterTicks(old(Failures()), Outcomes(ticks, oks), policy)
        invariant Counts() == Run(old(Counts()), AllHappenings(ticks, oks), retained)
        decreases |ticks| - |oks|
      {
        var t := ticks[|oks|];
        var ok := Attempt(t);
        Close(t.Outcome(ok));
        OneTick(old(Counts()), old(Failures()), ticks, oks, ok, retained, policy);
        oks := oks + [ok];
      }
    }

    method Analyse(traces: seq<Trace>)
      requires Valid()
      modifies this`window, this`recordedCount, this`all
      ensures Valid() && all == old(all) + traces
      ensures Counts() == old(Counts()).(recorded := old(recordedCount) + |traces|)
    {
      RecordAll(traces);
    }

    ghost function Failures(): FailureState
      reads this
    {
      FailureState(consecutiveFailures, halted, slept, running)
    }
  }

  datatype FailureState = FailureState(consecutive: nat, halted: bool, slept: seq<real>, running: bool)

  /** How a tick closed: whether it succeeded; whether its failure (the log line, the audit row and its
      notification) or its recovery (the log line) could be recorded; and whether a halt latched in memory could
      (its durable state and audit row, its notification and the log line). */
  datatype Outcome = Closed(ok: bool, eventRecorded: bool, haltRecorded: bool)

  /** What one tick meets: the traces its analysis records, whether it fails, how its capture goes, and which
      records could be made at its close. */
  datatype TickInput = TickInput(analysed: seq<Trace>, analysisFails: bool, failAfter: Option<nat>, during: seq<Trace>,
                                 eventRecorded: bool, haltRecorded: bool)
  {
    function Outcome(ok: bool): Outcome {
      Closed(ok, eventRecorded, haltRecorded)
    }

    function Happenings(ok: bool): seq<Happening> {
      Repeat(|analysed|)
      + if analysisFails then [] else if ok then [Captured(|during|)]
        else [CaptureFailed(if failAfter.Some? then failAfter.value else 0)]
    }
  }

  /** A tick succeeds when its analysis does and every line of its capture is written. */
  predicate TickOk(s: Progress, t: TickInput, retained: nat)
    requires s.proofCount <= s.recorded
  {
    var analysed := s.(recorded := s.recorded + |t.analysed|);
    && !t.analysisFails
    && (t.failAfter.None? || t.failAfter.value >= analysed.recorded - FirstUnwritten(analysed, retained))
  }

  function AfterTick(s: FailureState, o: Outcome, policy: FaultPolicy): FailureState
    requires SoundPolicy(policy)
  {
    if !s.running then s
    else if o.ok then
      if s.consecutive > 0 && !o.eventRecorded then s.(running := false) else s.(consecutive := 0)
    else
      var n := s.consecutive + 1;
      var halts := o.eventRecorded && n >= policy.haltAfter;
      var running := o.eventRecorded && (halts ==> o.haltRecorded);
      FailureState(n, s.halted || halts, if running then s.slept + [DelayFor(policy, n)] else s.slept, running)
  }

  function AfterTicks(s: FailureState, outcomes: seq<Outcome>, policy: FaultPolicy): FailureState
    requires SoundPolicy(policy)
  {
    if outcomes == [] then s
    else AfterTick(AfterTicks(s, outcomes[..|outcomes| - 1], policy), outcomes[|outcomes| - 1], policy)
  }

  function Outcomes(ticks: seq<TickInput>, oks: seq<bool>): (r: seq<Outcome>)
    requires |oks| <= |ticks|
    ensures |r| == |oks|
  {
    seq(|oks|, i requires 0 <= i < |oks| => ticks[i].Outcome(oks[i]))
  }

  /** Everything that happened to the log over these ticks. */
  function AllHappenings(ticks: seq<TickInput>, oks: seq<bool>): seq<Happening>
    requires |oks| <= |ticks|
  {
    if oks == [] then []
    else
      var n := |oks| - 1;
      AllHappenings(ticks, oks[..n]) + ticks[n].Happenings(oks[n])
  }

  /** Each tick went as the log it met decided. */
  ghost predicate Decided(s: Progress, ticks: seq<TickInput>, oks: seq<bool>, retained: nat)
    requires s.proofCount <= s.recorded && |oks| <= |ticks|
  {
    forall i | 0 <= i < |oks| :: oks[i] == TickOk(Run(s, AllHappenings(ticks, oks[..i]), retained), ticks[i], retained)
  }

  lemma NothingYet(s: Progress, f: FailureState, ticks: seq<TickInput>, retained: nat, policy: FaultPolicy)
    requires s.proofCount <= s.recorded && SoundPolicy(policy)
    ensures Decided(s, ticks, [], retained) && Run(s, AllHappenings(ticks, []), retained) == s
    ensures AfterTicks(f, Outcomes(ticks, []), policy) == f
  {
  }

  /** One more tick, in the terms of the whole run. */
  lemma OneTick(s: Progress, f: FailureState, ticks: seq<TickInput>, oks: seq<bool>, ok: bool, retained: nat,
                policy: FaultPolicy)
    requires s.proofCount <= s.recorded && SoundPolicy(policy) && |oks| < |ticks| && Decided(s, ticks, oks, retained)
    requires ok == TickOk(Run(s, AllHappenings(ticks, oks), retained), ticks[|oks|], retained)
    ensures Decided(s, ticks, oks + [ok], retained)
    ensures Run(s, AllHappenings(ticks, oks + [ok]), retained)
         == Run(Run(s, AllHappenings(ticks, oks), retained), ticks[|oks|].Happenings(ok), retained)
    ensures AfterTicks(f, Outcomes(ticks, oks + [ok]), policy)
         == AfterTick(AfterTicks(f, Outcomes(ticks, oks), policy), ticks[|oks|].Outcome(ok), policy)
  {
    hide Run, TickOk, AfterTick, TickInput.Happenings;
    var longer, n := oks + [ok], |oks|;
    assert longer[..n] == oks;
    RunConcat(s, AllHappenings(ticks, oks), ticks[n].Happenings(ok), retained);
    assert Outcomes(ticks, longer)[..n] == Outcomes(ticks, oks);
    forall i | 0 <= i < |longer|
      ensures longer[i] == TickOk(Run(s, AllHappenings(ticks, longer[..i]), retained), ticks[i], retained)
    {
      if i < n {
        assert longer[..i] == oks[..i];
      }
    }
  }

  lemma {:induction false} RunConcat(s: Progress, a: seq<Happening>, b: seq<Happening>, retained: nat)
    requires s.proofCount <= s.recorded
    ensures Run(s, a + b, retained) == Run(Run(s, a, retained), b, retained)
    decreases |b|
  {
    hide Step;
    if b == [] {
      assert a + b == a;
    } else {
      var n := |b| - 1;
      assert (a + b)[..|a| + n] == a + b[..n];
      RunConcat(s, a, b[..n], retained);
    }
  }

  function Repeat(n: nat): (r: seq<Happening>)
    ensures |r| == n && forall i | 0 <= i < n :: r[i] == Recorded
  {
    seq(n, i => Recorded)
  }

  function Run(s: Progress, hs: seq<Happening>, retained: nat): (r: Progress)
    requires s.proofCount <= s.recorded
    ensures r.proofCount <= r.recorded
  {
    if hs == [] then s else Step(Run(s, hs[..|hs| - 1], retained), hs[|hs| - 1], retained)
  }

  lemma {:induction false} RunRecords(s: Progress, n: nat, retained: nat)
    requires s.proofCount <= s.recorded
    ensures Run(s, Repeat(n), retained) == s.(recorded := s.recorded + n)
    decreases n
  {
    if n > 0 {
      RunRecords(s, n - 1, retained);
      assert Repeat(n)[..n - 1] == Repeat(n - 1);
    }
  }

  lemma RunAppend(s: Progress, hs: seq<Happening>, h: Happening, retained: nat)
    requires s.proofCount <= s.recorded
    ensures Run(s, hs + [h], retained) == Step(Run(s, hs, retained), h, retained)
  {
    assert (hs + [h])[..|hs|] == hs;
  }

  // ---------- reconnecting a stream ----------

  datatype ReconnectPolicy = ReconnectPolicy(initial: real, largest: real, multiplier: real)

  predicate SoundReconnect(p: ReconnectPolicy) {
    0.0 < p.initial <= p.largest && p.multiplier >= 1.0
  }

  function Smaller(a: real, b: real): real {
    if b < a then b else a
  }

  function Power(x: real, n: nat): real {
    if n == 0 then 1.0 else Power(x, n - 1) * x
  }

  /** The attempts made since the stream last connected, itself included; all of them if it never did. */
  function SinceConnected(connected: seq<bool>, i: nat): nat
    requires i < |connected|
  {
    if connected[i] || i == 0 then 0 else SinceConnected(connected, i - 1) + 1
  }

  /** It counts from the latest connection, or from the first attempt when there was none. */
  lemma {:induction false} SinceConnectedExact(connected: seq<bool>, i: nat)
    requires i < |connected|
    ensures var n := SinceConnected(connected, i);
      && n <= i && (connected[i - n] || n == i) && forall k | i - n < k <= i :: !connected[k]
    decreases i
  {
    if !connected[i] && i > 0 {
      SinceConnectedExact(connected, i - 1);
    }
  }

  function Backoff(p: ReconnectPolicy, n: nat): real {
    Smaller(p.largest, p.initial * Power(p.multiplier, n))
  }

  function NextDelay(p: ReconnectPolicy, delay: real): real {
    Smaller(p.largest, delay * p.multiplier)
  }

  /** The supervisor's delays: after each attempt it waits the initial delay times the multiplier once per
      attempt since the last connection, capped at the largest. */
  method SuperviseStream(p: ReconnectPolicy, connected: seq<bool>) returns (delays: seq<real>)
    requires SoundReconnect(p)
    ensures |delays| == |connected|
    ensures forall i | 0 <= i < |delays| :: delays[i] == Backoff(p, SinceConnected(connected, i))
  {
    hide Backoff, NextDelay;
    delays := [];
    var delay := p.initial;
    ghost var since: nat := 0;
    FirstBackoff(p);
    for i := 0 to |connected|
      invariant |delays| == i && delay == Backoff(p, since)
      invariant since == if i == 0 then 0 else SinceConnected(connected, i - 1) + 1
      invariant forall j | 0 <= j < i :: delays[j] == Backoff(p, SinceConnected(connected, j))
    {
      if connected[i] {
        delay, since := p.initial, 0;
      }
      assert since == SinceConnected(connected, i);
      delays := delays + [delay];
      BackoffStep(p, since);
      delay, since := NextDelay(p, delay), since + 1;
    }
  }

  lemma FirstBackoff(p: ReconnectPolicy)
    requires SoundReconnect(p)
    ensures Backoff(p, 0) == p.initial
  {
  }

  /** Capping at every step is capping once. */
  lemma BackoffStep(p: ReconnectPolicy, n: nat)
    requires SoundReconnect(p)
    ensures NextDelay(p, Backoff(p, n)) == Backoff(p, n + 1)
  {
    var raw := p.initial * Power(p.multiplier, n);
    assert p.initial * Power(p.multiplier, n + 1) == raw * p.multiplier;
    if raw >= p.largest {
      NotSmaller(raw, p.multiplier, p.largest);
      NotSmaller(p.largest, p.multiplier, p.largest);
    }
  }

  lemma NotSmaller(x: real, m: real, bound: real)
    requires x >= bound > 0.0 && m >= 1.0
    ensures x * m >= bound
  {
    assert x * (m - 1.0) >= 0.0;
    assert x * m == x * (m - 1.0) + x;
  }
}
