/** What an accepted journal guarantees: its head hash fixes every capture, and its days are
    contiguous, so that the lifecycle's day is the whole calendar day. */
module JournalTheorems {
  import opened Prelude
  import opened CanonicalJson
  import opened BrokerRecords
  import opened BrokerCapture
  import opened LifecycleHistory
  import opened LifecycleReports
  import opened BrokerJournal

  // ---------- the head hash fixes the captures ----------

  ghost predicate SameCaptures(xs: seq<Row>, ys: seq<Row>) {
    |xs| == |ys| && forall i | 0 <= i < |xs| :: xs[i].payload == ys[i].payload
  }

  ghost predicate Collision(sha: Hash, x: Text, y: Text) {
    x != y && sha(x) == sha(y)
  }

  lemma AcceptedPrefix(sha: Hash, j: Text, rows: seq<Row>, tenant: Text, ref: Text, now: int, n: nat)
    requires n <= |rows| && AcceptedRows(sha, j, rows, tenant, ref, now, |rows|)
    ensures AcceptedRows(sha, j, rows[..n], tenant, ref, now, n)
  {
    hide AcceptedCapture;
    forall i | 0 <= i < n ensures AcceptedRow(sha, j, rows[..n], tenant, ref, now, i) {
      assert AcceptedRow(sha, j, rows, tenant, ref, now, i);
      assert rows[..n][i] == rows[i];
      assert i > 0 ==> rows[..n][i - 1] == rows[i - 1];
    }
  }

  /** Two accepted captures with the same hash are equal, or their hashed texts collide. */
  lemma SameHashSameCapture(sha: Hash, a: Capture, b: Capture, tenant: Text, ref: Text, tenant': Text, ref': Text)
    requires AcceptedCapture(sha, a, tenant, ref) && AcceptedCapture(sha, b, tenant', ref')
    requires a.sha256 == b.sha256
    ensures a == b || Collision(sha, Canonical(Unsigned(a)), Canonical(Unsigned(b)))
  {
    hide Canonical, Unsigned, ValidRows;
    if Canonical(Unsigned(a)) == Canonical(Unsigned(b)) {
      UnsignedExact(a, b);
    }
  }

  /** What a journal was read as: its id, tenant and account, and the time of the reading. */
  datatype Reading = Reading(journalId: Text, tenant: Text, ref: Text, now: int)

  ghost predicate AcceptedAs(sha: Hash, rows: seq<Row>, r: Reading) {
    rows != [] && AcceptedRows(sha, r.journalId, rows, r.tenant, r.ref, r.now, |rows|)
  }

  /** Two accepted rows with the same entry hash belong to the same journal and sit at the same place, on
      the same previous hash, with the same capture, or a collision is exhibited. */
  lemma SameEntrySameRow(sha: Hash, xs: seq<Row>, r: Reading, ys: seq<Row>, q: Reading, m: nat, n: nat)
      returns (x: Text, y: Text)
    requires m < |xs| && AcceptedRow(sha, r.journalId, xs, r.tenant, r.ref, r.now, m)
    requires n < |ys| && AcceptedRow(sha, q.journalId, ys, q.tenant, q.ref, q.now, n)
    requires xs[m].entryHash == ys[n].entryHash
    ensures Collision(sha, x, y)
         || (m == n && PreviousHash(xs, m) == PreviousHash(ys, n) && xs[m].payload == ys[n].payload
             && r.journalId == q.journalId && r.tenant == q.tenant && r.ref == q.ref)
  {
    hide EntryText, Unsigned, Canonical, ValidRows, HexDigest;
    var a, b := xs[m], ys[n];
    x := EntryText(r.journalId, m + 1, PreviousHash(xs, m), a.captureSha);
    y := EntryText(q.journalId, n + 1, PreviousHash(ys, n), b.captureSha);
    if x == y {
      EntryExact(r.journalId, m + 1, PreviousHash(xs, m), a.captureSha,
                 q.journalId, n + 1, PreviousHash(ys, n), b.captureSha);
      SameHashSameCapture(sha, a.payload.value, b.payload.value, r.tenant, r.ref, q.tenant, q.ref);
      if a.payload.value != b.payload.value {
        x, y := Canonical(Unsigned(a.payload.value)), Canonical(Unsigned(b.payload.value));
      }
    }
  }

  /** Two accepted journals with the same head hash are the same journal of the same account, with the same
      captures in the same order; otherwise the proof hands over two texts with the same hash. */
  lemma {:induction false} HeadFixesCaptures(sha: Hash, xs: seq<Row>, r: Reading, ys: seq<Row>, q: Reading)
      returns (x: Text, y: Text)
    requires AcceptedAs(sha, xs, r) && AcceptedAs(sha, ys, q)
    requires xs[|xs| - 1].entryHash == ys[|ys| - 1].entryHash
    ensures Collision(sha, x, y)
         || (SameCaptures(xs, ys) && r.journalId == q.journalId && r.tenant == q.tenant && r.ref == q.ref)
    decreases |xs|
  {
    hide AcceptedRow, Collision;
    var m, n := |xs| - 1, |ys| - 1;
    x, y := SameEntrySameRow(sha, xs, r, ys, q, m, n);
    if !Collision(sha, x, y) && m > 0 {
      AcceptedPrefix(sha, r.journalId, xs, r.tenant, r.ref, r.now, m);
      AcceptedPrefix(sha, q.journalId, ys, q.tenant, q.ref, q.now, n);
      x, y := HeadFixesCaptures(sha, xs[..m], r, ys[..n], q);
      if SameCaptures(xs[..m], ys[..n]) {
        assert forall i | 0 <= i < m :: xs[i] == xs[..m][i] && ys[i] == ys[..n][i];
      }
    }
  }

  // ---------- days ----------

  /** The captures of a run are in order, do not overlap, and each lies in one broker day. */
  ghost predicate Ordered(run: seq<Observed>) {
    && (forall i | 0 <= i < |run| :: run[i].capture.startedAt.ms <= run[i].capture.finishedAt.ms
                                     && Day(run[i].capture.startedAt) == DayOf(run[i]))
    && (forall i | 0 < i < |run| :: run[i - 1].capture.finishedAt.ms <= run[i].capture.startedAt.ms)
  }

  lemma AcceptedIsOrdered(sha: Hash, j: Text, rows: seq<Row>, tenant: Text, ref: Text, now: int)
    requires AcceptedRows(sha, j, rows, tenant, ref, now, |rows|)
    ensures Readable(rows) && Ordered(Replayed(rows))
  {
    hide ValidRows, Unsigned, EntryText, Inspected, HexDigest;
    forall i | 0 <= i < |rows|
      ensures rows[i].payload.Some?
      ensures var c := rows[i].payload.value; c.startedAt.ms <= c.finishedAt.ms && Day(c.startedAt) == Day(c.finishedAt)
      ensures i > 0 && rows[i - 1].payload.Some? ==>
        rows[i - 1].payload.value.finishedAt.ms <= rows[i].payload.value.startedAt.ms
    {
      assert AcceptedRow(sha, j, rows, tenant, ref, now, i);
    }
    assert Readable(rows);
    assert forall i | 0 <= i < |rows| :: Replayed(rows)[i].capture == rows[i].payload.value;
  }

  lemma {:induction false} DaysAscend(run: seq<Observed>, i: nat, k: nat)
    requires Ordered(run) && i <= k < |run|
    ensures DayOf(run[i]) <= DayOf(run[k])
    decreases k
  {
    if i < k {
      DaysAscend(run, i, k - 1);
      assert run[k - 1].capture.finishedAt.ms <= run[k].capture.startedAt.ms;
    }
  }

  lemma PrefixOrdered(run: seq<Observed>, n: nat)
    requires Ordered(run) && n <= |run|
    ensures Ordered(run[..n])
  {
    assert forall i | 0 <= i < n :: run[..n][i] == run[i];
  }

  /** In an accepted journal the captures the lifecycle compares with are all the stable captures of
      the same broker day before: a day it has cleared never comes back. */
  lemma {:induction false} PastIsWholeDay(run: seq<Observed>, day: int, c: Capture)
    requires Ordered(run)
    requires forall x | x in run :: DayOf(x) <= day
    ensures c in DayStable(run, day)
       <==> exists x :: x in run && x.capture == c && DayOf(x) == day && x.status != Changing
    decreases |run|
  {
    hide Ordered, DayOf;
    if run != [] {
      var n := |run| - 1;
      var rest, last := run[..n], run[n];
      assert run == rest + [last];
      if DayOf(last) == day {
        PrefixOrdered(run, n);
        PastIsWholeDay(rest, day, c);
      } else {
        NoneOfDay(run, day);
      }
    }
  }

  lemma NoneOfDay(run: seq<Observed>, day: int)
    requires Ordered(run) && run != [] && DayOf(run[|run| - 1]) < day
    ensures forall x | x in run :: DayOf(x) < day
  {
    hide Ordered, DayOf;
    forall x | x in run ensures DayOf(x) < day {
      var i :| 0 <= i < |run| && run[i] == x;
      DaysAscend(run, i, |run| - 1);
    }
  }

  function Boundaries(run: seq<Observed>): nat {
    if run == [] then 0
    else
      var n := |run| - 1;
      Boundaries(run[..n]) + if Boundary(run[..n], run[n]) then 1 else 0
  }

  function Days(run: seq<Observed>): set<int> {
    set x | x in run :: DayOf(x)
  }

  /** The lifecycle starts a new day exactly when the capture's day was never seen before. */
  lemma BoundaryMeansNewDay(run: seq<Observed>)
    requires Ordered(run) && run != []
    ensures Boundary(run[..|run| - 1], run[|run| - 1]) <==> DayOf(run[|run| - 1]) !in Days(run[..|run| - 1])
  {
    hide Ordered, DayOf;
    var n := |run| - 1;
    var rest, last := run[..n], run[n];
    if n > 0 {
      assert rest[n - 1] in rest;
      if DayOf(last) in Days(rest) {
        var x :| x in rest && DayOf(x) == DayOf(last);
        var i :| 0 <= i < n && rest[i] == x;
        DaysAscend(run, i, n - 1);
        DaysAscend(run, n - 1, n);
      }
    }
  }

  lemma DaysStep(run: seq<Observed>)
    requires run != []
    ensures Days(run) == Days(run[..|run| - 1]) + {DayOf(run[|run| - 1])}
  {
    hide DayOf;
    assert run == run[..|run| - 1] + [run[|run| - 1]];
  }

  lemma AddOne(s: set<int>, x: int)
    ensures |s + {x}| == |s| + if x in s then 0 else 1
  {
    if x in s {
      assert s + {x} == s;
    }
  }

  /** The lifecycle resets once for each distinct day. */
  lemma {:induction false} ResetsCountDays(run: seq<Observed>)
    requires Ordered(run)
    ensures Boundaries(run) == |Days(run)|
    decreases |run|
  {
    hide Boundary, DayOf, Ordered;
    if run == [] {
      assert Days(run) == {};
    } else {
      hide Days;
      PrefixOrdered(run, |run| - 1);
      ResetsCountDays(run[..|run| - 1]);
      BoundaryMeansNewDay(run);
      DaysStep(run);
      AddOne(Days(run[..|run| - 1]), DayOf(run[|run| - 1]));
    }
  }

  /** Days form contiguous blocks. */
  lemma DaysContiguous(run: seq<Observed>, i: nat, k: nat, j: nat)
    requires Ordered(run) && i <= k <= j < |run| && DayOf(run[i]) == DayOf(run[j])
    ensures DayOf(run[k]) == DayOf(run[i])
  {
    DaysAscend(run, i, k);
    DaysAscend(run, k, j);
  }

  // ---------- the status of a report ----------

  /** An earlier capture of the same broker day did not change while it was read. */
  ghost predicate StableThatDay(run: seq<Observed>, x: Observed) {
    exists y :: y in run && y.status != Changing && DayOf(y) == DayOf(x)
  }

  /** In an ordered run a report is unverified exactly for a changing capture, has issues exactly when something was
      found, and otherwise is compared exactly when the run holds a stable capture of the same broker day. */
  lemma OrderedStatusExact(run: seq<Observed>, x: Observed)
    requires Ordered(run + [x])
    ensures StatusMeans(Report(run, x), x, StableThatDay(run, x))
  {
    hide DayOf, Ordered, StatusMeans;
    StatusExact(run, x);
    StableExact(run, DayOf(x));
    var all := run + [x];
    forall y | y in run ensures DayOf(y) <= DayOf(x) {
      var i :| 0 <= i < |run| && run[i] == y;
      DaysAscend(all, i, |run|);
    }
    PrefixOrdered(all, |run|);
    assert all[..|run|] == run;
    var stable := DayStable(run, DayOf(x));
    forall c
      ensures c in stable
         <==> exists y :: y in run && y.capture == c && DayOf(y) == DayOf(x) && y.status != Changing
    {
      PastIsWholeDay(run, DayOf(x), c);
    }
    if stable != [] {
      assert stable[0] in stable;
    }
    if y :| y in run && y.status != Changing && DayOf(y) == DayOf(x) {
      assert y.capture in stable;
    }
  }

  // ---------- the history shown ----------

  /** Entry n of a journal's history: the row's own capture and findings, and the count so far with them added. */
  ghost predicate Describes(e: HistoryEntry, rows: seq<Row>, n: nat, before: nat)
    requires n < |rows| && Readable(rows)
  {
    var c, run := rows[n].payload.value, Replayed(rows);
    var report := Report(run[..n], run[n]);
    && e.sequence == n + 1 && e.finishedAt == c.finishedAt && e.day == Day(c.finishedAt) && e.captureSha256 == c.sha256
    && e.inspectionStatus == Inspected(c).status && e.temporalStatus == report.status
    && e.issueCount == Inspected(c).issueCount + report.issueCount
    && e.cumulativeIssueCount == before + e.issueCount
  }

  lemma {:induction false} EntriesAt(rows: seq<Row>, lo: nat, i: nat)
    requires Readable(rows) && lo + i < |rows|
    ensures |Entries(rows, lo)| == |rows| - lo && Readable(rows[..lo + i + 1])
    ensures Entries(rows, lo)[i] == Entry(rows[..lo + i + 1])
    decreases |rows|
  {
    hide Entry;
    PrefixReadable(rows, |rows| - 1);
    EntriesFrom(rows, lo);
    if lo + i < |rows| - 1 {
      EntriesAt(rows[..|rows| - 1], lo, i);
      assert rows[..|rows| - 1][..lo + i + 1] == rows[..lo + i + 1];
    } else {
      assert rows[..|rows|] == rows;
    }
  }

  function CountedBefore(rows: seq<Row>, n: nat): nat
    requires n <= |rows| && Readable(rows)
  {
    TotalIssues(Replayed(rows)[..n])
  }

  lemma EntryDescribes(rows: seq<Row>, n: nat)
    requires Readable(rows) && n < |rows|
    ensures Readable(rows[..n + 1]) && Describes(Entry(rows[..n + 1]), rows, n, CountedBefore(rows, n))
    ensures Entry(rows[..n + 1]).cumulativeIssueCount == CountedBefore(rows, n + 1)
  {
    hide Inspected, Report, ReportFindings;
    var part, run := rows[..n + 1], Replayed(rows);
    assert Replayed(part) == run[..n + 1] && run[..n + 1][..n] == run[..n] && run[..n + 1][n] == run[n];
    CountIs(run[..n], run[n]);
    TotalStep(run, n);
  }

  lemma TotalStep(run: seq<Observed>, n: nat)
    requires n < |run|
    ensures TotalIssues(run[..n + 1]) == TotalIssues(run[..n]) + |ReportFindings(run[..n], run[n])| + run[n].issueCount
  {
    hide ReportFindings;
    assert run[..n + 1][..n] == run[..n];
  }

  lemma CountIs(run: seq<Observed>, x: Observed)
    ensures Report(run, x).issueCount == |ReportFindings(run, x)|
  {
    hide ReportFindings, ReportChanges, ReportStatus, Gap, Boundary, PriorUnresolved;
  }

  lemma NothingCounted(rows: seq<Row>)
    requires Readable(rows)
    ensures CountedBefore(rows, 0) == 0
  {
  }

  /** The history of a shown journal describes its last hundred rows in order, and counts from entry to entry. */
  lemma HistoryExact(state: JournalState, journalId: Text, rows: seq<Row>, now: int, selection: Option<Selection>,
                     i: nat)
    requires Shows(state, journalId, rows, now, selection) && i < |state.history|
    ensures |state.history| == Min(|rows|, 100) && state.historyOmitted + |state.history| == |rows|
    ensures state.historyOmitted == 0 ==> Describes(state.history[0], rows, 0, 0)
    ensures i > 0 ==>
      Describes(state.history[i], rows, state.historyOmitted + i, state.history[i - 1].cumulativeIssueCount)
    ensures i > 0 ==> state.history[i].sequence == state.history[i - 1].sequence + 1
  {
    hide Entry, Entries, Describes, View, CountedBefore;
    var lo := Oldest(|rows|);
    EntriesFrom(rows, lo);
    EntriesAt(rows, lo, i);
    EntryDescribes(rows, lo + i);
    if i > 0 {
      EntriesAt(rows, lo, i - 1);
      EntryDescribes(rows, lo + i - 1);
      SequenceIs(rows, lo + i);
      SequenceIs(rows, lo + i - 1);
    }
    EntriesAt(rows, lo, 0);
    EntryDescribes(rows, lo);
    NothingCounted(rows);
  }

  lemma SequenceIs(rows: seq<Row>, n: nat)
    requires Readable(rows) && n < |rows| && Readable(rows[..n + 1])
    ensures Entry(rows[..n + 1]).sequence == n + 1
  {
    hide Inspected, Report, TotalIssues;
  }

  /** The selected capture is shown with its own inspection and the report of the rows before it, and is called stale
      when it finished more than two minutes before the reading. */
  lemma SelectedExact(state: JournalState, journalId: Text, rows: seq<Row>, now: int, selection: Option<Selection>)
    requires Shows(state, journalId, rows, now, selection)
    ensures var n := if selection.Some? then selection.value.sequence - 1 else |rows| - 1;
      && 0 <= n < |rows| && Readable(rows)
      && var c, run, shown := rows[n].payload.value, Replayed(rows), state.selected;
      && shown.sequence == n + 1 && shown.report == c && shown.inspection == Inspected(c)
      && shown.temporal == Report(run[..n], run[n]) && shown.entryHash == rows[n].entryHash
      && shown.cumulativeIssueCount == CountedBefore(rows, n + 1)
      && (shown.stale <==> c.finishedAt.ms + 120_000 < now)
  {
    hide Inspected, Report, TotalIssues, Entries;
    var n := SelectedCount(rows, selection) - 1;
    var run, part := Replayed(rows), rows[..n + 1];
    assert Readable(part) && Replayed(part) == run[..n + 1] && run[..n + 1][..n] == run[..n];
  }

  // ---------- a changing capture anywhere ----------

  lemma {:induction false} ChangingNeverStable(run: seq<Observed>, x: Observed, later: seq<Observed>, day: int)
    requires x.status == Changing
    requires forall y | y in run :: DayOf(y) <= DayOf(x)
    requires forall y | y in later :: DayOf(x) <= DayOf(y) <= day
    requires DayOf(x) <= day
    ensures DayStable(run + [x] + later, day) == DayStable(run + later, day)
    decreases |later|
  {
    hide DayOf;
    if later == [] {
      assert run + [x] + [] == run + [x] && run + [] == run;
      assert (run + [x])[..|run|] == run;
      if run != [] {
        assert run[|run| - 1] in run;
      }
    } else {
      var n := |later| - 1;
      assert (run + [x] + later)[..|run| + 1 + n] == run + [x] + later[..n];
      assert (run + later)[..|run| + n] == run + later[..n];
      assert later[n] in later;
      ChangingNeverStable(run, x, later[..n], day);
    }
  }

  /** In a run in order, a capture that was changing while it was read, even one that opened its day, leaves every
      later capture compared with the same captures: its contradictions and its changes are what they would be
      had it not been taken. */
  lemma ChangingNeverMatters(run: seq<Observed>, x: Observed, later: seq<Observed>, y: Observed)
    requires Ordered(run + [x] + later + [y]) && x.status == Changing
    ensures Past(run + [x] + later, y) == Past(run + later, y)
    ensures var with, without := Report(run + [x] + later, y), Report(run + later, y);
      with.changes == without.changes && with.changeCount == without.changeCount
    ensures y.status != Changing ==>
              Contradictions(Past(run + [x] + later, y), y.capture) == Contradictions(Past(run + later, y), y.capture)
  {
    hide DayOf, Contradictions, Changes;
    var all := run + [x] + later + [y];
    forall i | 0 <= i < |run| ensures DayOf(run[i]) <= DayOf(x) {
      DaysAscend(all, i, |run|);
    }
    forall i | 0 <= i < |later| ensures DayOf(x) <= DayOf(later[i]) <= DayOf(y) {
      DaysAscend(all, |run|, |run| + 1 + i);
      DaysAscend(all, |run| + 1 + i, |all| - 1);
    }
    DaysAscend(all, |run|, |all| - 1);
    ChangingNeverStable(run, x, later, DayOf(y));
  }
}
