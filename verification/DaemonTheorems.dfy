/** What whole runs of the supervisor guarantee: what the proof log holds, and when the halt latches. */
module DaemonTheorems {
  import opened Prelude
  import opened CadenceDaemon

  const START := Progress(0, 0, [])

  // ---------- counting a run without running it ----------

  function Grown(h: Happening): nat {
    match h
    case Recorded => 1
    case Captured(during) => during
    case CaptureFailed(_) => 0
  }

  /** The traces recorded in a run. */
  function RecordedBy(hs: seq<Happening>): nat {
    if hs == [] then 0 else RecordedBy(hs[..|hs| - 1]) + Grown(hs[|hs| - 1])
  }

  /** How many had been recorded when the last capture completed. */
  function CapturedBy(hs: seq<Happening>): nat {
    if hs == [] then 0
    else if hs[|hs| - 1].Captured? then RecordedBy(hs)
    else CapturedBy(hs[..|hs| - 1])
  }

  lemma {:induction false} RunCounts(hs: seq<Happening>, retained: nat)
    ensures Run(START, hs, retained).recorded == RecordedBy(hs)
    ensures Run(START, hs, retained).proofCount == CapturedBy(hs) <= RecordedBy(hs)
    decreases |hs|
  {
    if hs != [] {
      RunCounts(hs[..|hs| - 1], retained);
    }
  }

  // ---------- the log of completed captures ----------

  ghost predicate Increasing(written: seq<nat>) {
    forall i, j | 0 <= i < j < |written| :: written[i] < written[j]
  }

  ghost predicate AllBelow(written: seq<nat>, n: nat) {
    forall i | 0 <= i < |written| :: written[i] < n
  }

  /** The capture at c came too late for trace k (the window had dropped it), or k was recorded while
      that capture was running. */
  predicate MissedAt(hs: seq<Happening>, c: nat, k: nat, retained: nat)
    requires c < |hs|
  {
    && hs[c].Captured?
    && (CapturedBy(hs[..c]) <= k < RecordedBy(hs[..c]) - retained
        || RecordedBy(hs[..c]) <= k < RecordedBy(hs[..c + 1]))
  }

  ghost predicate Missed(hs: seq<Happening>, k: nat, retained: nat) {
    exists c: nat :: c < |hs| && MissedAt(hs, c, k, retained)
  }

  lemma MissedStep(hs: seq<Happening>, k: nat, retained: nat)
    requires hs != []
    ensures var n := |hs| - 1;
      Missed(hs, k, retained) <==> Missed(hs[..n], k, retained) || MissedAt(hs, n, k, retained)
  {
    var n := |hs| - 1;
    var init := hs[..n];
    forall c: nat | c < n ensures MissedAt(hs, c, k, retained) <==> MissedAt(init, c, k, retained) {
      assert init[..c] == hs[..c] && init[..c + 1] == hs[..c + 1];
    }
    if Missed(hs, k, retained) {
      var c: nat :| c < |hs| && MissedAt(hs, c, k, retained);
      if c < n {
        assert MissedAt(init, c, k, retained);
      }
    }
    if Missed(init, k, retained) {
      var c: nat :| c < n && MissedAt(init, c, k, retained);
      assert MissedAt(hs, c, k, retained);
    }
  }

  lemma IncreasingAppend(a: seq<nat>, lo: nat, hi: nat)
    requires Increasing(a) && AllBelow(a, lo) && lo <= hi
    ensures Increasing(a + Range(lo, hi)) && AllBelow(a + Range(lo, hi), hi)
  {
  }

  lemma InAppended(a: seq<nat>, lo: nat, hi: nat, k: nat)
    requires lo <= hi
    ensures k in a + Range(lo, hi) <==> k in a || lo <= k < hi
  {
    if lo <= k < hi {
      assert Range(lo, hi)[k - lo] == k;
    }
  }

  ghost predicate NoFailures(hs: seq<Happening>) {
    forall i | 0 <= i < |hs| :: !hs[i].CaptureFailed?
  }

  /** Over any run of recordings and completed captures, the log holds each proof at most once and in
      recording order. */
  lemma {:induction false} LoggedOnce(hs: seq<Happening>, retained: nat)
    requires NoFailures(hs)
    ensures Increasing(Run(START, hs, retained).written) && AllBelow(Run(START, hs, retained).written, CapturedBy(hs))
    decreases |hs|
  {
    if hs != [] {
      var n := |hs| - 1;
      LoggedOnce(hs[..n], retained);
      RunCounts(hs[..n], retained);
      var s := Run(START, hs[..n], retained);
      if hs[n].Captured? {
        IncreasingAppend(s.written, FirstUnwritten(s, retained), s.recorded);
      }
    }
  }

  lemma LoggedStep(s: Progress, during: nat, retained: nat, k: nat)
    requires s.proofCount <= s.recorded
    ensures k in Step(s, Captured(during), retained).written
       <==> k in s.written || (s.proofCount <= k < s.recorded && !(k < s.recorded - retained))
  {
    InAppended(s.written, FirstUnwritten(s, retained), s.recorded, k);
  }

  lemma {:induction false} CountsGrow(hs: seq<Happening>, c: nat)
    requires c <= |hs|
    ensures RecordedBy(hs[..c]) <= RecordedBy(hs)
    decreases |hs|
  {
    if c < |hs| {
      assert hs[..|hs| - 1][..c] == hs[..c];
      CountsGrow(hs[..|hs| - 1], c);
    } else {
      assert hs[..c] == hs;
    }
  }

  lemma {:induction false} CapturedUpTo(hs: seq<Happening>, c: nat)
    requires c < |hs| && hs[c].Captured?
    ensures RecordedBy(hs[..c + 1]) <= CapturedBy(hs)
    decreases |hs|
  {
    var n := |hs| - 1;
    if hs[n].Captured? {
      CountsGrow(hs, c + 1);
    } else {
      assert hs[..n][..c + 1] == hs[..c + 1];
      CapturedUpTo(hs[..n], c);
    }
  }

  lemma MissedIsCounted(hs: seq<Happening>, k: nat, retained: nat)
    requires Missed(hs, k, retained)
    ensures k < CapturedBy(hs)
  {
    var c: nat :| c < |hs| && MissedAt(hs, c, k, retained);
    CapturedUpTo(hs, c);
    assert hs[..c + 1][..c] == hs[..c];
    CountsGrow(hs[..c + 1], c);
  }

  /** And of the proofs recorded before the last completed capture it misses exactly those the window
      had dropped before the next capture, and those recorded while a capture was running. */
  lemma {:induction false} LogExact(hs: seq<Happening>, retained: nat, k: nat)
    requires NoFailures(hs)
    ensures k in Run(START, hs, retained).written <==> k < CapturedBy(hs) && !Missed(hs, k, retained)
    decreases |hs|
  {
    if hs != [] {
      var n := |hs| - 1;
      LogExact(hs[..n], retained, k);
      RunCounts(hs[..n], retained);
      MissedStep(hs, k, retained);
      assert hs[..n + 1] == hs;
      if Missed(hs[..n], k, retained) {
        MissedIsCounted(hs[..n], k, retained);
      }
      hide Missed;
      if hs[n].Captured? {
        LoggedStep(Run(START, hs[..n], retained), hs[n].during, retained, k);
      }
    }
  }

  // ---------- captures that fail ----------

  /** The first trace the capture at c writes: not counted yet and still in the window. */
  function First(hs: seq<Happening>, c: nat, retained: nat): nat
    requires c < |hs|
  {
    Max(CapturedBy(hs[..c]), RecordedBy(hs[..c]) - retained)
  }

  /** How many lines the happening at c appends. */
  function LinesAt(hs: seq<Happening>, c: nat, retained: nat): int
    requires c < |hs|
  {
    match hs[c]
    case Recorded => 0
    case Captured(_) => RecordedBy(hs[..c]) - First(hs, c, retained)
    case CaptureFailed(lines) => Min(lines, RecordedBy(hs[..c]) - First(hs, c, retained))
  }

  /** Once a failed capture has written some lines, no later one that writes any starts before their end. */
  ghost predicate NoRewrite(hs: seq<Happening>, retained: nat) {
    forall c: nat, d: nat | c < d < |hs|
                            && hs[c].CaptureFailed? && LinesAt(hs, c, retained) > 0 && LinesAt(hs, d, retained) > 0 ::
      First(hs, c, retained) + LinesAt(hs, c, retained) <= First(hs, d, retained)
  }

  lemma PrefixLines(hs: seq<Happening>, n: nat, c: nat, retained: nat)
    requires c < n <= |hs|
    ensures First(hs[..n], c, retained) == First(hs, c, retained)
    ensures LinesAt(hs[..n], c, retained) == LinesAt(hs, c, retained)
  {
    assert hs[..n][..c] == hs[..c];
  }

  lemma {:induction false} CapturesGrow(hs: seq<Happening>, c: nat)
    requires c <= |hs|
    ensures CapturedBy(hs[..c]) <= CapturedBy(hs)
    decreases |hs|
  {
    if c < |hs| {
      var n := |hs| - 1;
      assert hs[..n][..c] == hs[..c];
      CapturesGrow(hs[..n], c);
      CapturedWithin(hs[..n]);
    } else {
      assert hs[..c] == hs;
    }
  }

  lemma {:induction false} CapturedWithin(hs: seq<Happening>)
    ensures CapturedBy(hs) <= RecordedBy(hs)
    decreases |hs|
  {
    if hs != [] {
      CapturedWithin(hs[..|hs| - 1]);
    }
  }

  lemma FirstGrows(hs: seq<Happening>, c: nat, d: nat, retained: nat)
    requires c <= d < |hs|
    ensures First(hs, c, retained) <= First(hs, d, retained)
  {
    assert hs[..d][..c] == hs[..c];
    CapturesGrow(hs[..d], c);
    CountsGrow(hs[..d], c);
  }

  /** A completed capture ends where every later one starts, or before. */
  lemma CompletedEnds(hs: seq<Happening>, c: nat, d: nat, retained: nat)
    requires c < d < |hs| && hs[c].Captured?
    ensures First(hs, c, retained) + LinesAt(hs, c, retained) <= First(hs, d, retained)
  {
    var before := hs[..d];
    assert before[..c] == hs[..c] && before[..c + 1][..c] == hs[..c];
    CapturedUpTo(before, c);
    CountsGrow(before[..c + 1], c);
  }

  lemma StepWrites(s: Progress, h: Happening, retained: nat)
    requires s.proofCount <= s.recorded
    ensures var first := FirstUnwritten(s, retained);
      var lines := match h case Recorded => 0 case Captured(_) => s.recorded - first
                           case CaptureFailed(n) => Min(n, s.recorded - first);
      0 <= lines && Step(s, h, retained).written == s.written + Range(first, first + lines)
  {
    var first := FirstUnwritten(s, retained);
    if h.Recorded? {
      assert s.written + Range(first, first) == s.written;
    }
  }

  lemma LastStep(hs: seq<Happening>, retained: nat)
    requires hs != []
    ensures var n := |hs| - 1;
      && LinesAt(hs, n, retained) >= 0
      && Run(START, hs, retained).written
         == Run(START, hs[..n], retained).written
            + Range(First(hs, n, retained), First(hs, n, retained) + LinesAt(hs, n, retained))
  {
    hide Range, Step;
    var n := |hs| - 1;
    RunCounts(hs[..n], retained);
    var s := Run(START, hs[..n], retained);
    assert First(hs, n, retained) == FirstUnwritten(s, retained);
    StepWrites(s, hs[n], retained);
  }

  lemma {:induction false} WrittenExact(hs: seq<Happening>, k: nat, retained: nat)
    ensures k in Run(START, hs, retained).written
       <==> exists c: nat :: c < |hs| && First(hs, c, retained) <= k < First(hs, c, retained) + LinesAt(hs, c, retained)
    decreases |hs|
  {
    hide First, LinesAt, Run;
    if hs == [] {
      NothingWritten(retained);
    } else {
      var n := |hs| - 1;
      LastStep(hs, retained);
      WrittenExact(hs[..n], k, retained);
      InAppended(Run(START, hs[..n], retained).written, First(hs, n, retained),
                 First(hs, n, retained) + LinesAt(hs, n, retained), k);
      forall c: nat | c < n
        ensures First(hs[..n], c, retained) == First(hs, c, retained)
        ensures LinesAt(hs[..n], c, retained) == LinesAt(hs, c, retained)
      {
        PrefixLines(hs, n, c, retained);
      }
    }
  }

  lemma NothingWritten(retained: nat)
    ensures Run(START, [], retained).written == []
  {
  }

  ghost predicate Distinct(written: seq<nat>) {
    forall i, j | 0 <= i < j < |written| :: written[i] != written[j]
  }

  lemma AppendDistinct(a: seq<nat>, lo: nat, hi: nat)
    requires lo <= hi
    ensures Distinct(a + Range(lo, hi)) <==> Distinct(a) && forall k: nat | lo <= k < hi :: k !in a
  {
    var s := a + Range(lo, hi);
    if Distinct(s) {
      forall i, j | 0 <= i < j < |a| ensures a[i] != a[j] {
        assert s[i] != s[j];
      }
      forall k: nat | lo <= k < hi ensures k !in a {
        forall i | 0 <= i < |a| ensures a[i] != k {
          assert s[i] != s[|a| + (k - lo)];
        }
      }
    }
    if Distinct(a) && forall k: nat | lo <= k < hi :: k !in a {
      forall i, j | 0 <= i < j < |s| ensures s[i] != s[j] {
        if i < |a| <= j {
          assert s[j] == lo + (j - |a|) && a[i] in a;
        }
      }
    }
  }

  lemma AppendIncreasing(a: seq<nat>, lo: nat, hi: nat)
    requires lo <= hi
    ensures Increasing(a + Range(lo, hi)) <==> Increasing(a) && (lo < hi ==> AllBelow(a, lo))
  {
    var s := a + Range(lo, hi);
    if Increasing(a) && AllBelow(a, lo) {
      IncreasingAppend(a, lo, hi);
    }
    if Increasing(s) {
      forall i, j | 0 <= i < j < |a| ensures a[i] < a[j] {
        assert s[i] < s[j];
      }
      if lo < hi {
        forall i | 0 <= i < |a| ensures a[i] < lo {
          assert s[i] < s[|a|];
        }
      }
    }
  }

  /** Every earlier happening that wrote lines ended where the one at d starts, or before. */
  ghost predicate StartsAfter(hs: seq<Happening>, d: nat, retained: nat)
    requires d < |hs|
  {
    LinesAt(hs, d, retained) > 0 ==>
      forall c: nat | c < d && LinesAt(hs, c, retained) > 0 ::
        First(hs, c, retained) + LinesAt(hs, c, retained) <= First(hs, d, retained)
  }

  lemma NoRewriteStep(hs: seq<Happening>, retained: nat)
    requires hs != []
    ensures var n := |hs| - 1;
      NoRewrite(hs, retained) <==> NoRewrite(hs[..n], retained) && StartsAfter(hs, n, retained)
  {
    hide First, LinesAt;
    var n := |hs| - 1;
    forall c: nat | c < n
      ensures First(hs[..n], c, retained) == First(hs, c, retained)
      ensures LinesAt(hs[..n], c, retained) == LinesAt(hs, c, retained)
    {
      PrefixLines(hs, n, c, retained);
    }
    forall c: nat | c < n && LinesAt(hs, c, retained) > 0 && !hs[c].CaptureFailed?
      ensures First(hs, c, retained) + LinesAt(hs, c, retained) <= First(hs, n, retained)
    {
      RecordedWritesNothing(hs, c, retained);
      if hs[c].Captured? {
        CompletedEnds(hs, c, n, retained);
      }
    }
  }

  lemma RecordedWritesNothing(hs: seq<Happening>, c: nat, retained: nat)
    requires c < |hs|
    ensures hs[c].Recorded? ==> LinesAt(hs, c, retained) == 0
  {
  }

  /** The last happening writes nothing that is on the log already exactly when it starts after all of it. */
  lemma LastIsNew(hs: seq<Happening>, retained: nat)
    requires hs != []
    ensures var n := |hs| - 1;
      var written, lo := Run(START, hs[..n], retained).written, First(hs, n, retained);
      && (StartsAfter(hs, n, retained) <==> forall k: nat | lo <= k < lo + LinesAt(hs, n, retained) :: k !in written)
      && (StartsAfter(hs, n, retained) <==> (LinesAt(hs, n, retained) > 0 ==> AllBelow(written, lo)))
  {
    hide First, LinesAt, Run;
    var n := |hs| - 1;
    var before, lo := hs[..n], First(hs, n, retained);
    var written := Run(START, before, retained).written;
    forall c: nat | c < n
      ensures First(before, c, retained) == First(hs, c, retained)
      ensures LinesAt(before, c, retained) == LinesAt(hs, c, retained)
      ensures First(hs, c, retained) <= lo
    {
      PrefixLines(hs, n, c, retained);
      FirstGrows(hs, c, n, retained);
    }
    forall k: nat
      ensures k in written
         <==> exists c: nat :: c < n && First(hs, c, retained) <= k < First(hs, c, retained) + LinesAt(hs, c, retained)
    {
      WrittenExact(before, k, retained);
    }
    if LinesAt(hs, n, retained) > 0 {
      if StartsAfter(hs, n, retained) {
        forall k | k in written ensures k < lo {
          var c: nat :| c < n && First(hs, c, retained) <= k < First(hs, c, retained) + LinesAt(hs, c, retained);
        }
        forall i | 0 <= i < |written| ensures written[i] < lo {
          assert written[i] in written;
        }
      } else {
        var c: nat :| c < n && LinesAt(hs, c, retained) > 0 && First(hs, c, retained) + LinesAt(hs, c, retained) > lo;
        assert lo in written;
        var i :| 0 <= i < |written| && written[i] == lo;
      }
    }
  }

  /** Over any run, the log repeats no proof exactly when no capture starts before the end of what a failed one
      had already written; and if it repeats none it is in recording order. */
  lemma {:induction false} NoRepeatsExact(hs: seq<Happening>, retained: nat)
    ensures Distinct(Run(START, hs, retained).written) <==> NoRewrite(hs, retained)
    ensures Increasing(Run(START, hs, retained).written) <==> NoRewrite(hs, retained)
    decreases |hs|
  {
    hide First, LinesAt, Run, NoRewrite, StartsAfter, Distinct, Increasing, AllBelow;
    if hs == [] {
      EmptyLog(retained);
    } else {
      var n := |hs| - 1;
      var lo := First(hs, n, retained);
      NoRepeatsExact(hs[..n], retained);
      NoRewriteStep(hs, retained);
      LastStep(hs, retained);
      LastIsNew(hs, retained);
      AppendDistinct(Run(START, hs[..n], retained).written, lo, lo + LinesAt(hs, n, retained));
      AppendIncreasing(Run(START, hs[..n], retained).written, lo, lo + LinesAt(hs, n, retained));
    }
  }

  lemma EmptyLog(retained: nat)
    ensures var w := Run(START, [], retained).written; Distinct(w) && Increasing(w) && NoRewrite([], retained)
  {
  }

  /** A failed capture whose lines stay in the window has them written again by the next one. */
  lemma FailedCaptureRepeats()
    ensures Run(START, [Recorded, Recorded, CaptureFailed(1), Captured(0)], 2).written == [0, 0, 1]
  {
    var s := Progress(2, 0, []);
    assert [Recorded, Recorded, CaptureFailed(1), Captured(0)][..3] == [Recorded, Recorded, CaptureFailed(1)];
    assert [Recorded, Recorded, CaptureFailed(1)][..2] == [Recorded, Recorded];
    assert [Recorded, Recorded][..1] == [Recorded];
    assert Run(START, [Recorded], 2) == Progress(1, 0, []);
    assert Run(START, [Recorded, Recorded], 2) == s;
    assert Range(0, 1) == [0] && Range(0, 2) == [0, 1];
    assert Run(START, [Recorded, Recorded, CaptureFailed(1)], 2) == Progress(2, 0, [0]);
  }

  /** Even with failing captures no counted proof disappears silently: it is on the log, or the window had
      dropped it, or it was recorded while a capture was running. */
  lemma {:induction false} NothingLostSilently(hs: seq<Happening>, retained: nat, k: nat)
    requires k < CapturedBy(hs)
    ensures k in Run(START, hs, retained).written || Missed(hs, k, retained)
    decreases |hs|
  {
    var n := |hs| - 1;
    RunCounts(hs[..n], retained);
    MissedStep(hs, k, retained);
    assert hs[..n + 1] == hs;
    var s := Run(START, hs[..n], retained);
    hide Missed;
    if k < CapturedBy(hs[..n]) {
      NothingLostSilently(hs[..n], retained, k);
    }
    if hs[n].Captured? {
      LoggedStep(s, hs[n].during, retained, k);
    }
  }

  // ---------- the latched halt ----------

  const NO_FAILURES := FailureState(0, false, [], true)

  /** The failed ticks since the last successful one. */
  function Trailing(os: seq<Outcome>): (n: nat)
    ensures n <= |os|
  {
    if os == [] || os[|os| - 1].ok then 0 else Trailing(os[..|os| - 1]) + 1
  }

  /** `length` consecutive failures ending before position `end`. */
  predicate FailedRun(os: seq<Outcome>, end: nat, length: nat) {
    length <= end <= |os| && forall i | end - length <= i < end :: !os[i].ok
  }

  lemma {:induction false} TrailingExact(os: seq<Outcome>, length: nat)
    ensures FailedRun(os, |os|, length) <==> length <= Trailing(os)
    decreases |os|
  {
    if os != [] && !os[|os| - 1].ok && length > 0 {
      var init := os[..|os| - 1];
      TrailingExact(init, length - 1);
      assert FailedRun(init, |init|, length - 1) <==> FailedRun(os, |os|, length);
    }
  }

  /** A record that could not be made took the loop down at the close of tick i: of its failure, of a recovery, or
      of a halt. */
  predicate Leaves(os: seq<Outcome>, i: nat, haltAfter: nat)
    requires i < |os|
  {
    if os[i].ok then !os[i].eventRecorded && Trailing(os[..i]) > 0
    else !os[i].eventRecorded || (Trailing(os[..i + 1]) >= haltAfter && !os[i].haltRecorded)
  }

  ghost predicate Reached(os: seq<Outcome>, n: nat, haltAfter: nat) {
    n <= |os| && forall i | 0 <= i < n :: !Leaves(os, i, haltAfter)
  }

  lemma PrefixLeaves(os: seq<Outcome>, n: nat, i: nat, haltAfter: nat)
    requires i < n <= |os|
    ensures Leaves(os[..n], i, haltAfter) == Leaves(os, i, haltAfter)
  {
    assert os[..n][..i] == os[..i] && os[..n][..i + 1] == os[..i + 1];
  }

  lemma ReachedStep(os: seq<Outcome>, haltAfter: nat)
    requires os != []
    ensures var n := |os| - 1;
      Reached(os, |os|, haltAfter) <==> Reached(os[..n], n, haltAfter) && !Leaves(os, n, haltAfter)
  {
    hide Leaves;
    var n := |os| - 1;
    forall i | 0 <= i < n ensures Leaves(os[..n], i, haltAfter) == Leaves(os, i, haltAfter) {
      PrefixLeaves(os, n, i, haltAfter);
    }
  }

  /** While the loop runs, its failure count is the number of trailing failures. */
  lemma {:induction false} RunningExact(os: seq<Outcome>, policy: FaultPolicy)
    requires SoundPolicy(policy)
    ensures var s := AfterTicks(NO_FAILURES, os, policy);
      && (s.running <==> Reached(os, |os|, policy.haltAfter))
      && (s.running ==> s.consecutive == Trailing(os))
    decreases |os|
  {
    hide DelayFor;
    if os != [] {
      var n := |os| - 1;
      RunningExact(os[..n], policy);
      ReachedStep(os, policy.haltAfter);
      assert os[..n + 1] == os;
    }
  }

  /** One delay for each failed tick: the series entry of its place in its run of failures, the last entry once the
      series is used up. */
  function Delays(os: seq<Outcome>, series: seq<real>): seq<real>
    requires series != []
  {
    if os == [] then []
    else
      var n := |os| - 1;
      Delays(os[..n], series)
      + if os[n].ok then [] else if Trailing(os) < |series| then [series[Trailing(os) - 1]] else [series[|series| - 1]]
  }

  lemma DelayIs(policy: FaultPolicy, n: nat)
    requires SoundPolicy(policy) && n > 0
    ensures var series := policy.backoffSeconds;
      DelayFor(policy, n) == if n < |series| then series[n - 1] else series[|series| - 1]
  {
  }

  /** While the loop runs it has waited out exactly these delays. */
  lemma {:induction false} SleptExact(os: seq<Outcome>, policy: FaultPolicy)
    requires SoundPolicy(policy) && AfterTicks(NO_FAILURES, os, policy).running
    ensures AfterTicks(NO_FAILURES, os, policy).slept == Delays(os, policy.backoffSeconds)
    decreases |os|
  {
    hide DelayFor;
    if os != [] {
      var n := |os| - 1;
      SleptExact(os[..n], policy);
      RunningExact(os[..n], policy);
      RunningExact(os, policy);
      if !os[n].ok {
        DelayIs(policy, Trailing(os));
      }
    }
  }

  /** At tick end - 1, which the loop reached, enough failures had come in a row and the last one could be
      recorded. */
  ghost predicate HaltsBefore(os: seq<Outcome>, end: nat, haltAfter: nat) {
    && 0 < end <= |os| && Reached(os, end - 1, haltAfter)
    && FailedRun(os, end, haltAfter) && os[end - 1].eventRecorded
  }

  ghost predicate Halts(os: seq<Outcome>, haltAfter: nat) {
    exists end: nat :: HaltsBefore(os, end, haltAfter)
  }

  lemma HaltsStep(os: seq<Outcome>, haltAfter: nat)
    requires os != []
    ensures Halts(os, haltAfter) <==> Halts(os[..|os| - 1], haltAfter) || HaltsBefore(os, |os|, haltAfter)
  {
    var n := |os| - 1;
    var init := os[..n];
    forall end: nat | 0 < end <= n ensures HaltsBefore(init, end, haltAfter) <==> HaltsBefore(os, end, haltAfter) {
      forall i | 0 <= i < end ensures Leaves(init, i, haltAfter) == Leaves(os, i, haltAfter) {
        PrefixLeaves(os, n, i, haltAfter);
      }
    }
    if Halts(os, haltAfter) {
      var end: nat :| HaltsBefore(os, end, haltAfter);
      assert end <= n ==> HaltsBefore(init, end, haltAfter);
    }
    if Halts(init, haltAfter) {
      var end: nat :| HaltsBefore(init, end, haltAfter);
      assert HaltsBefore(os, end, haltAfter);
    }
  }

  lemma HaltsAtLast(os: seq<Outcome>, haltAfter: nat)
    requires os != []
    ensures HaltsBefore(os, |os|, haltAfter) <==>
      && Reached(os[..|os| - 1], |os| - 1, haltAfter) && haltAfter <= Trailing(os) && os[|os| - 1].eventRecorded
  {
    hide Leaves;
    var n := |os| - 1;
    TrailingExact(os, haltAfter);
    forall i | 0 <= i < n ensures Leaves(os[..n], i, haltAfter) == Leaves(os, i, haltAfter) {
      PrefixLeaves(os, n, i, haltAfter);
    }
  }

  /** The kill switch is engaged exactly when, at a tick the loop reached, `haltAfter` ticks in a row had failed and
      the last failure could be recorded; no later tick releases it. */
  lemma {:induction false} HaltExact(os: seq<Outcome>, policy: FaultPolicy)
    requires SoundPolicy(policy)
    ensures AfterTicks(NO_FAILURES, os, policy).halted <==> Halts(os, policy.haltAfter)
    decreases |os|
  {
    hide DelayFor, Reached, HaltsBefore, FailedRun, Halts;
    if os == [] {
      NeverHalted(policy.haltAfter);
    } else {
      var n := |os| - 1;
      HaltExact(os[..n], policy);
      RunningExact(os[..n], policy);
      HaltsStep(os, policy.haltAfter);
      HaltsAtLast(os, policy.haltAfter);
    }
  }

  lemma NeverHalted(haltAfter: nat)
    ensures !Halts([], haltAfter)
  {
  }

  /** When every record can be made the loop never leaves, and the switch is engaged exactly when `haltAfter` ticks
      in a row have failed. */
  lemma RecordedHaltExact(os: seq<Outcome>, policy: FaultPolicy)
    requires SoundPolicy(policy) && forall o | o in os :: o.eventRecorded && o.haltRecorded
    ensures AfterTicks(NO_FAILURES, os, policy).running
    ensures AfterTicks(NO_FAILURES, os, policy).halted <==> exists end: nat :: FailedRun(os, end, policy.haltAfter)
  {
    hide AfterTicks;
    HaltExact(os, policy);
    RunningExact(os, policy);
    if end: nat :| FailedRun(os, end, policy.haltAfter) {
      assert HaltsBefore(os, end, policy.haltAfter);
    }
    if end: nat :| HaltsBefore(os, end, policy.haltAfter) {
      assert FailedRun(os, end, policy.haltAfter);
    }
  }

  /** With a failure that cannot be recorded the threshold can be reached and the switch stay off: the loop
      ends instead. */
  lemma UnrecordedFailureSkipsHalt(policy: FaultPolicy)
    requires SoundPolicy(policy) && policy.haltAfter == 1
    ensures var os := [Closed(false, false, true)];
      && FailedRun(os, 1, policy.haltAfter)
      && AfterTicks(NO_FAILURES, os, policy) == FailureState(1, false, [], false)
  {
    var os := [Closed(false, false, true)];
    assert os[..0] == [];
  }
}
