/** What a reader may take from a report: its status, its counts and what is kept of them, and its gap. */
module LifecycleReports {
  import opened Prelude
  import opened BrokerRecords
  import opened BrokerCapture
  import opened LifecycleHistory

  /** An earlier capture of the same day, no other day between, did not change while it was read. */
  ghost predicate SeenStable(run: seq<Observed>, day: int) {
    exists i :: 0 <= i < |run| && run[i].status != Changing && UnbrokenFrom(run, i, day)
  }

  ghost predicate UnbrokenFrom(run: seq<Observed>, i: nat, day: int) {
    forall k | i <= k < |run| :: DayOf(run[k]) == day
  }

  lemma {:induction false} StableExact(run: seq<Observed>, day: int)
    ensures DayStable(run, day) != [] <==> SeenStable(run, day)
    decreases |run|
  {
    hide DayOf;
    if run != [] {
      var n := |run| - 1;
      var rest, last := run[..n], run[n];
      StableExact(rest, day);
      if DayOf(last) == day {
        if last.status != Changing {
          assert UnbrokenFrom(run, n, day);
        }
        if i :| 0 <= i < |rest| && rest[i].status != Changing && UnbrokenFrom(rest, i, day) {
          assert UnbrokenFrom(run, i, day);
        }
        if i :| 0 <= i < |run| && run[i].status != Changing && UnbrokenFrom(run, i, day) {
          assert i < n ==> UnbrokenFrom(rest, i, day);
        }
      } else {
        NotUnbroken(run, day);
      }
    }
  }

  lemma NotUnbroken(run: seq<Observed>, day: int)
    requires run != [] && DayOf(run[|run| - 1]) != day
    ensures !SeenStable(run, day)
  {
    forall i | 0 <= i < |run| ensures !UnbrokenFrom(run, i, day) {
      assert DayOf(run[|run| - 1]) != day;
    }
  }

  /** Unverified: the capture was changing. Issues: it was not, and something was found. Otherwise compared or the
      day's baseline, by whether a stable capture of the day came before. */
  ghost predicate StatusMeans(r: TemporalReport, x: Observed, seen: bool) {
    && (r.status == Unverified <==> x.status == Changing)
    && (r.status == TemporalIssues <==> x.status != Changing && r.issueCount > 0)
    && (r.status == Compared <==> x.status != Changing && r.issueCount == 0 && seen)
    && (r.status == Baseline <==> x.status != Changing && r.issueCount == 0 && !seen)
  }

  lemma StatusExact(run: seq<Observed>, x: Observed)
    ensures StatusMeans(Report(run, x), x, SeenStable(run, DayOf(x)))
  {
    hide SeenStable, ReportFindings, ReportChanges, DayStable;
    StableExact(run, DayOf(x));
  }

  /** The first hundred findings and the first 250 changes are kept, and all are counted. */
  ghost predicate Keeps(r: TemporalReport, findings: seq<TemporalFinding>, changes: seq<Change>) {
    && r.issueCount == |findings| && r.issues <= findings && |r.issues| == Min(|findings|, 100)
    && r.changeCount == |changes| && r.changes <= changes && |r.changes| == Min(|changes|, 250)
  }

  lemma CapKeeps<T>(xs: seq<T>, limit: nat)
    ensures Cap(xs, limit) <= xs && |Cap(xs, limit)| == Min(|xs|, limit)
  {
  }

  lemma KeptExact(run: seq<Observed>, x: Observed)
    ensures Keeps(Report(run, x), ReportFindings(run, x), ReportChanges(run, x))
  {
    hide ReportFindings, ReportChanges, ReportStatus, Gap, Boundary, PriorUnresolved;
    CapKeeps(ReportFindings(run, x), 100);
    CapKeeps(ReportChanges(run, x), 250);
  }

  // ---------- gaps ----------

  function Lasted(x: Observed): real {
    (x.capture.finishedAt.ms - x.capture.startedAt.ms) as real / 1000.0
  }

  /** All gaps reported over a run, and all the time its captures took. */
  function Gaps(run: seq<Observed>): real {
    if run == [] then 0.0
    else
      var n := |run| - 1;
      var gap := Report(run[..n], run[n]).gapSeconds;
      Gaps(run[..n]) + if gap.Some? then gap.value else 0.0
  }

  function Durations(run: seq<Observed>): real {
    if run == [] then 0.0 else Durations(run[..|run| - 1]) + Lasted(run[|run| - 1])
  }

  /** Gaps and captures together fill the time from the first start to the last end; only the first report has no
      gap. */
  lemma {:induction false} GapsFillTheRun(run: seq<Observed>)
    requires run != []
    ensures Gaps(run) + Durations(run)
         == (run[|run| - 1].capture.finishedAt.ms - run[0].capture.startedAt.ms) as real / 1000.0
    ensures forall n | 0 <= n < |run| :: Report(run[..n], run[n]).gapSeconds.None? <==> n == 0
    decreases |run|
  {
    hide ReportFindings, ReportChanges, ReportStatus, Boundary, PriorUnresolved;
    var n := |run| - 1;
    if n > 0 {
      GapsFillTheRun(run[..n]);
      assert forall k | 0 <= k < n :: run[..n][..k] == run[..k];
    }
  }
}
