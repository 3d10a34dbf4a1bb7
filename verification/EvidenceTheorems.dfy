/** What a point-in-time read means: nothing after the cutoff can reach it, row order does not matter,
    and each event is the latest revision with the mapping then in force. */
module EvidenceTheorems {
  import opened Prelude
  import opened CanonicalJson
  import opened CompanyEvents

  // ---------- evidence after the cutoff is invisible ----------

  /** The evidence known at the cutoff, as a database of its own. */
  function Visible(d: Database, at: Instants, cutoff: int): Database {
    Database(KnownRevisions(d.revisions, at, cutoff), KnownMappings(d.mappings, at, cutoff),
             KnownCaptures(d.captures, at, cutoff))
  }

  lemma {:induction false} AllRevisionsKnown(rows: seq<Revision>, at: Instants, cutoff: int)
    requires forall r | r in rows :: KnownRevision(r, at, cutoff)
    ensures KnownRevisions(rows, at, cutoff) == rows
    decreases |rows|
  {
    if rows != [] {
      var n := |rows| - 1;
      assert rows == rows[..n] + [rows[n]];
      AllRevisionsKnown(rows[..n], at, cutoff);
    }
  }

  lemma {:induction false} AllMappingsKnown(rows: seq<Mapping>, at: Instants, cutoff: int)
    requires forall m | m in rows :: at(m.verifiedAt) <= cutoff
    ensures KnownMappings(rows, at, cutoff) == rows
    decreases |rows|
  {
    if rows != [] {
      var n := |rows| - 1;
      assert rows == rows[..n] + [rows[n]];
      AllMappingsKnown(rows[..n], at, cutoff);
    }
  }

  lemma {:induction false} AllCapturesKnown(rows: seq<Capture>, at: Instants, cutoff: int)
    requires forall c | c in rows :: at(c.observedAt) <= cutoff
    ensures KnownCaptures(rows, at, cutoff) == rows
    decreases |rows|
  {
    if rows != [] {
      var n := |rows| - 1;
      assert rows == rows[..n] + [rows[n]];
      AllCapturesKnown(rows[..n], at, cutoff);
    }
  }

  lemma {:induction false} ResolveKnown(rows: seq<Mapping>, title: Text, at: Instants, cutoff: int)
    ensures Resolve(KnownMappings(rows, at, cutoff), title, at, cutoff) == Resolve(rows, title, at, cutoff)
    decreases |rows|
  {
    hide Weigh, KnownMappings, Resolve;
    if rows == [] {
      NothingKnown(at, cutoff);
    } else {
      var n := |rows| - 1;
      ResolveKnown(rows[..n], title, at, cutoff);
      var known := KnownMappings(rows[..n], at, cutoff);
      KnownMappingsStep(rows, at, cutoff);
      assert rows == rows[..n] + [rows[n]];
      ResolveAppend(rows[..n], rows[n], title, at, cutoff);
      if at(rows[n].verifiedAt) <= cutoff {
        ResolveAppend(known, rows[n], title, at, cutoff);
      }
    }
  }

  lemma NothingKnown(at: Instants, cutoff: int)
    ensures KnownMappings([], at, cutoff) == []
  {
  }

  lemma KnownMappingsStep(rows: seq<Mapping>, at: Instants, cutoff: int)
    requires rows != []
    ensures var n := |rows| - 1;
            var known := KnownMappings(rows[..n], at, cutoff);
            KnownMappings(rows, at, cutoff) == if at(rows[n].verifiedAt) <= cutoff then known + [rows[n]] else known
  {
    var n := |rows| - 1;
    assert KnownMappings(rows[..n], at, cutoff) + [] == KnownMappings(rows[..n], at, cutoff);
  }

  lemma ResolveAppend(rows: seq<Mapping>, m: Mapping, title: Text, at: Instants, cutoff: int)
    ensures Resolve(rows + [m], title, at, cutoff)
         == var r := Resolve(rows, title, at, cutoff);
            if m.title == title && at(m.verifiedAt) <= cutoff then Weigh(r, m, at) else r
  {
    hide Weigh;
    assert (rows + [m])[..|rows|] == rows;
  }

  lemma EventsKnown(known: seq<Revision>, rows: seq<Mapping>, at: Instants, cutoff: int)
    ensures EventsOf(known, KnownMappings(rows, at, cutoff), at, cutoff) == EventsOf(known, rows, at, cutoff)
  {
    hide EventFrom, SortHistory, Resolve, Versions, KnownMappings, Guids;
    var a, b := EventsOf(known, KnownMappings(rows, at, cutoff), at, cutoff), EventsOf(known, rows, at, cutoff);
    forall g | g in b ensures a[g] == b[g] {
      VersionsExist(known, g);
      ResolveKnown(rows, SortHistory(Versions(known, g), at)[0].title, at, cutoff);
    }
  }

  /** Rows dated after the cutoff cannot change the view: it is the view of the known rows alone, which
      are sound whenever the whole database is. */
  lemma FutureInvisible(d: Database, at: Instants, cutoff: int)
    requires Sound(d, at)
    ensures Sound(Visible(d, at, cutoff), at)
    ensures ViewOf(Visible(d, at, cutoff), at, cutoff) == ViewOf(d, at, cutoff)
  {
    VisibleSound(d, at, cutoff);
    hide EventsOf, LatestCapture, Stale, Sound;
    AllRevisionsKnown(KnownRevisions(d.revisions, at, cutoff), at, cutoff);
    AllMappingsKnown(KnownMappings(d.mappings, at, cutoff), at, cutoff);
    AllCapturesKnown(KnownCaptures(d.captures, at, cutoff), at, cutoff);
    EventsKnown(KnownRevisions(d.revisions, at, cutoff), d.mappings, at, cutoff);
  }

  lemma VisibleSound(d: Database, at: Instants, cutoff: int)
    requires Sound(d, at)
    ensures Sound(Visible(d, at, cutoff), at)
  {
    hide KnownRevisions, KnownCaptures, KnownMappings;
    var v := Visible(d, at, cutoff);
    forall r | r in v.revisions ensures Witnessed(r, v.captures, at) {
      assert Witnessed(r, d.captures, at);
      var c :| c in d.captures && c.ok && c.observedAt == r.firstSeenAt && c.direct == r.direct;
      assert c in v.captures;
    }
  }

  /** Two sound databases that agree on what was known at the cutoff show the same view, whatever either
      learned later. */
  lemma SameKnownSameView(d: Database, e: Database, at: Instants, cutoff: int)
    requires Sound(d, at) && Sound(e, at) && Visible(d, at, cutoff) == Visible(e, at, cutoff)
    ensures ViewOf(d, at, cutoff) == ViewOf(e, at, cutoff)
  {
    hide ViewOf, Visible, Sound;
    FutureInvisible(d, at, cutoff);
    FutureInvisible(e, at, cutoff);
  }

  // ---------- the history of one announcement ----------

  ghost predicate DigestDistinct(rows: seq<Revision>) {
    forall i, j | 0 <= i < j < |rows| :: rows[i].id != rows[j].id
  }

  ghost predicate Sorted(rows: seq<Revision>, at: Instants) {
    forall i, j | 0 <= i < j < |rows| :: Precedes(at, rows[i], rows[j])
  }

  lemma PrecedesTransitive(at: Instants, a: Revision, b: Revision, c: Revision)
    requires Precedes(at, a, b) && Precedes(at, b, c)
    ensures Precedes(at, a, c)
  {
    if at(a.firstSeenAt) == at(c.firstSeenAt) {
      BeforeTransitive(a.id, b.id, c.id);
    }
  }

  lemma PrecedesTotal(at: Instants, a: Revision, b: Revision)
    ensures a.id != b.id ==> Precedes(at, a, b) || Precedes(at, b, a)
    ensures !(Precedes(at, a, b) && Precedes(at, b, a))
  {
    BeforeTotal(a.id, b.id);
  }

  lemma SortedCons(r: Revision, rows: seq<Revision>, at: Instants)
    requires Sorted(rows, at) && forall x | x in rows :: Precedes(at, r, x)
    ensures Sorted([r] + rows, at)
  {
    hide Precedes;
    var s := [r] + rows;
    forall i, j | 0 <= i < j < |s| ensures Precedes(at, s[i], s[j]) {
      assert s[j] == rows[j - 1] && rows[j - 1] in rows;
    }
  }

  lemma {:induction false} InsertSorted(r: Revision, rows: seq<Revision>, at: Instants)
    requires Sorted(rows, at) && forall x | x in rows :: x.id != r.id
    ensures Sorted(InsertRevision(r, rows, at), at)
    decreases |rows|
  {
    hide Precedes;
    if rows == [] {
    } else if Precedes(at, r, rows[0]) {
      forall x | x in rows ensures Precedes(at, r, x) {
        var i :| 0 <= i < |rows| && rows[i] == x;
        if i > 0 { PrecedesTransitive(at, r, rows[0], x); }
      }
      SortedCons(r, rows, at);
    } else {
      var rest := InsertRevision(r, rows[1..], at);
      InsertSorted(r, rows[1..], at);
      PrecedesTotal(at, r, rows[0]);
      forall x | x in rest ensures Precedes(at, rows[0], x) {
        assert x in multiset(rest);
      }
      SortedCons(rows[0], rest, at);
    }
  }

  lemma SortKeepsMembers(versions: seq<Revision>, at: Instants, x: Revision)
    ensures x in SortHistory(versions, at) <==> x in versions
  {
    hide SortHistory;
    assert x in multiset(SortHistory(versions, at)) <==> x in multiset(versions);
  }

  lemma NothingSorted(at: Instants)
    ensures Sorted(SortHistory([], at), at)
  {
  }

  lemma {:induction false} HistorySorted(versions: seq<Revision>, at: Instants)
    requires DigestDistinct(versions)
    ensures Sorted(SortHistory(versions, at), at)
    decreases |versions|
  {
    hide Precedes, Sorted, InsertRevision;
    if versions == [] {
      NothingSorted(at);
    } else {
      var n := |versions| - 1;
      HistorySorted(versions[..n], at);
      var sorted := SortHistory(versions[..n], at);
      forall x | x in sorted ensures x.id != versions[n].id {
        SortKeepsMembers(versions[..n], at, x);
      }
      InsertSorted(versions[n], sorted, at);
    }
  }

  lemma {:induction false} SortedUnique(a: seq<Revision>, b: seq<Revision>, at: Instants)
    requires Sorted(a, at) && Sorted(b, at) && multiset(a) == multiset(b)
    ensures a == b
    decreases |a|
  {
    hide Precedes;
    assert |multiset(a)| == |a| && |multiset(b)| == |b|;
    if a != [] {
      HeadsAgree(a, b, at);
      assert a == [a[0]] + a[1..] && b == [b[0]] + b[1..];
      assert multiset(a[1..]) == multiset(a) - multiset{a[0]} && multiset(b[1..]) == multiset(b) - multiset{b[0]};
      SortedUnique(a[1..], b[1..], at);
    }
  }

  lemma HeadsAgree(a: seq<Revision>, b: seq<Revision>, at: Instants)
    requires Sorted(a, at) && Sorted(b, at) && multiset(a) == multiset(b) && a != [] && b != []
    ensures a[0] == b[0]
  {
    hide Precedes;
    assert a[0] in multiset(b) && b[0] in multiset(a);
    var i :| 0 <= i < |b| && b[i] == a[0];
    var j :| 0 <= j < |a| && a[j] == b[0];
    if i > 0 && j > 0 {
      PrecedesTotal(at, a[0], b[0]);
    }
  }

  /** The order rows were read in changes no event: same revisions and mappings, same event. */
  lemma EventOrderIrrelevant(a: seq<Revision>, b: seq<Revision>, m: seq<Mapping>, n: seq<Mapping>, at: Instants,
                             cutoff: int)
    requires a != [] && multiset(a) == multiset(b) && DigestDistinct(a) && DigestDistinct(b)
    requires KeyDistinct(m) && KeyDistinct(n) && RowSet(m) == RowSet(n)
    ensures b != [] && EventOf(a, m, at, cutoff) == EventOf(b, n, at, cutoff)
  {
    hide EventFrom, Resolve, Precedes, SortHistory;
    assert a[0] in multiset(b);
    HistorySorted(a, at);
    HistorySorted(b, at);
    SortedUnique(SortHistory(a, at), SortHistory(b, at), at);
    ResolveOrderIrrelevant(m, n, SortHistory(a, at)[0].title, at, cutoff);
  }

  /** First seen later, or at the same instant and with the smaller digest. */
  ghost predicate Newer(at: Instants, a: Revision, b: Revision) {
    at(b.firstSeenAt) <= at(a.firstSeenAt) && (at(a.firstSeenAt) == at(b.firstSeenAt) ==> FirstDiffers(a.id, b.id))
  }

  lemma PrecedesIsNewer(at: Instants, a: Revision, b: Revision)
    ensures Precedes(at, a, b) <==> Newer(at, a, b)
  {
    BeforeExact(a.id, b.id);
  }

  /** The history lists every revision, the newer before the older. */
  lemma HistoryListed(versions: seq<Revision>, mappings: seq<Mapping>, at: Instants, cutoff: int)
    requires versions != [] && DigestDistinct(versions)
    ensures var e := EventOf(versions, mappings, at, cutoff);
      && multiset(e.history) == multiset(versions)
      && forall i, j | 0 <= i < j < |e.history| :: Newer(at, e.history[i], e.history[j])
  {
    hide Resolve, SortHistory, Precedes, Newer, DigestDistinct;
    HistorySorted(versions, at);
    var h := SortHistory(versions, at);
    forall i, j | 0 <= i < j < |h| ensures Newer(at, h[i], h[j]) {
      PrecedesIsNewer(at, h[i], h[j]);
    }
  }

  /** An event shows the newest of its revisions, and is ambiguous exactly when another one was first
      seen at the same instant. */
  lemma LatestExact(versions: seq<Revision>, mappings: seq<Mapping>, at: Instants, cutoff: int)
    requires versions != [] && DigestDistinct(versions)
    ensures var e := EventOf(versions, mappings, at, cutoff);
      && e.latest in versions && (forall r | r in versions :: r == e.latest || Newer(at, e.latest, r))
      && (e.ambiguous <==> exists r :: r in versions && r != e.latest && at(r.firstSeenAt) == at(e.latest.firstSeenAt))
  {
    hide Resolve, SortHistory;
    HistorySorted(versions, at);
    var h := SortHistory(versions, at);
    assert h[0] in multiset(h);
    forall r | r in versions ensures r == h[0] || Newer(at, h[0], r) {
      assert r in multiset(h);
      var i :| 0 <= i < |h| && h[i] == r;
      PrecedesIsNewer(at, h[0], r);
    }
    TieIsAdjacent(h, at);
    forall r ensures r in versions <==> r in h {
      assert r in multiset(versions) <==> r in multiset(h);
    }
  }

  lemma TieIsAdjacent(h: seq<Revision>, at: Instants)
    requires h != [] && Sorted(h, at)
    ensures (|h| > 1 && at(h[0].firstSeenAt) == at(h[1].firstSeenAt))
       <==> exists r :: r in h && r != h[0] && at(r.firstSeenAt) == at(h[0].firstSeenAt)
  {
    if |h| > 1 && at(h[0].firstSeenAt) == at(h[1].firstSeenAt) {
      PrecedesTotal(at, h[0], h[1]);
      assert h[1] in h && h[1] != h[0];
    }
    if r :| r in h && r != h[0] && at(r.firstSeenAt) == at(h[0].firstSeenAt) {
      var i :| 0 <= i < |h| && h[i] == r;
      if i > 1 {
        assert Precedes(at, h[0], h[1]) && Precedes(at, h[1], h[i]);
      }
    }
  }

  ghost predicate MappedTo(mappings: seq<Mapping>, title: Text, at: Instants, cutoff: int, m: Mapping) {
    !Conflicted(RowSet(mappings), title, at, cutoff) && Effective(RowSet(mappings), title, at, cutoff, m) && !Revoked(m)
  }

  /** The time is one of the two, not before either, and not after the cutoff. */
  predicate AvailableFrom(at: Instants, seen: Text, verified: Text, time: Text, cutoff: int) {
    (time == seen || time == verified) && at(seen) <= at(time) && at(verified) <= at(time) && at(time) <= cutoff
  }

  /** An event carries a mapping exactly when its title's latest known record is unconflicted and not a
      withdrawal; and it is dated available, never after the cutoff, exactly when it is also unambiguous:
      at the later of the mapping's and the revision's instants. */
  lemma AvailabilityExact(known: seq<Revision>, mappings: seq<Mapping>, at: Instants, cutoff: int)
    requires known != [] && KeyDistinct(mappings)
    requires forall r | r in known :: KnownRevision(r, at, cutoff)
    ensures var e := EventOf(known, mappings, at, cutoff);
      && (e.mapping.Some? ==> MappedTo(mappings, e.latest.title, at, cutoff, e.mapping.value))
      && (forall m | MappedTo(mappings, e.latest.title, at, cutoff, m) :: e.mapping == Some(m))
      && (e.availableAt.Some? <==> e.mapping.Some? && !e.ambiguous)
      && (e.availableAt.Some? ==>
            AvailableFrom(at, e.latest.firstSeenAt, e.mapping.value.verifiedAt, e.availableAt.value, cutoff))
  {
    hide Resolve, SortHistory, Conflicted, Later;
    var h := SortHistory(known, at);
    assert h[0] in multiset(h);
    assert h[0] in known;
    var title := h[0].title;
    ResolveExact(mappings, title, at, cutoff);
    var r := Resolve(mappings, title, at, cutoff);
    forall m | MappedTo(mappings, title, at, cutoff, m) ensures r.best == Some(m) {
      if r.best.Some? {
        EffectiveUnique(RowSet(mappings), title, at, cutoff, m, r.best.value);
      }
    }
  }

  /** An event names its title's latest known record, whether or not it is a withdrawal or in conflict, and says so
      when it is: none is named exactly when none is known. */
  lemma RecordShownExact(known: seq<Revision>, mappings: seq<Mapping>, at: Instants, cutoff: int, m: Mapping)
    requires known != [] && KeyDistinct(mappings)
    ensures var e := EventOf(known, mappings, at, cutoff);
      && (e.latestMapping == Some(m) <==> IsLatestRecord(mappings, e.latest.title, at, cutoff, m))
      && (e.latestMapping.None? <==>
            forall n | n in mappings && n.title == e.latest.title :: at(n.verifiedAt) > cutoff)
      && (e.mappingAmbiguous <==> Conflicted(RowSet(mappings), e.latest.title, at, cutoff))
  {
    hide Resolve, SortHistory, Conflicted, Later, Effective, IsLatestRecord;
    var title := SortHistory(known, at)[0].title;
    ResolveExact(mappings, title, at, cutoff);
    LatestRecordExact(mappings, title, at, cutoff, m);
    var r := Resolve(mappings, title, at, cutoff);
    if r.best.Some? && IsLatestRecord(mappings, title, at, cutoff, m) {
      EffectiveUnique(RowSet(mappings), title, at, cutoff, m, r.best.value);
    }
    if r.best.None? {
      forall n | n in mappings && n.title == title ensures at(n.verifiedAt) > cutoff {
        assert !Known(RowSet(mappings), title, at, cutoff, n);
      }
      NotKnown(mappings, title, at, cutoff, m);
    }
    if r.best.Some? {
      EffectiveKnown(mappings, title, at, cutoff, r.best.value);
    }
  }

  lemma NotKnown(rows: seq<Mapping>, title: Text, at: Instants, cutoff: int, m: Mapping)
    requires forall n :: !Known(RowSet(rows), title, at, cutoff, n)
    ensures !Effective(RowSet(rows), title, at, cutoff, m)
  {
  }

  lemma EffectiveKnown(rows: seq<Mapping>, title: Text, at: Instants, cutoff: int, m: Mapping)
    requires Effective(RowSet(rows), title, at, cutoff, m)
    ensures m in rows && m.title == title && at(m.verifiedAt) <= cutoff
  {
  }

  /** No known record of the title is later, and among those of the same instant none has the greater time text. */
  ghost predicate IsLatestRecord(rows: seq<Mapping>, title: Text, at: Instants, cutoff: int, m: Mapping) {
    && m in rows && m.title == title && at(m.verifiedAt) <= cutoff
    && forall n | n in rows && n.title == title && at(n.verifiedAt) <= cutoff && n != m ::
         at(n.verifiedAt) < at(m.verifiedAt)
         || (at(n.verifiedAt) == at(m.verifiedAt) && FirstDiffers(n.verifiedAt, m.verifiedAt))
  }

  lemma LatestRecordExact(rows: seq<Mapping>, title: Text, at: Instants, cutoff: int, m: Mapping)
    ensures Effective(RowSet(rows), title, at, cutoff, m) <==> IsLatestRecord(rows, title, at, cutoff, m)
  {
    hide Before, FirstDiffers;
    forall n: Mapping ensures Before(n.verifiedAt, m.verifiedAt) <==> FirstDiffers(n.verifiedAt, m.verifiedAt) {
      BeforeExact(n.verifiedAt, m.verifiedAt);
    }
    if IsLatestRecord(rows, title, at, cutoff, m) {
      forall n | Known(RowSet(rows), title, at, cutoff, n) ensures n == m || Later(at, m.verifiedAt, n.verifiedAt) {
      }
    }
    if Effective(RowSet(rows), title, at, cutoff, m) {
      forall n | n in rows && n.title == title && at(n.verifiedAt) <= cutoff && n != m
        ensures at(n.verifiedAt) < at(m.verifiedAt)
                || (at(n.verifiedAt) == at(m.verifiedAt) && FirstDiffers(n.verifiedAt, m.verifiedAt))
      {
        assert Known(RowSet(rows), title, at, cutoff, n);
      }
    }
  }

  // ---------- captures ----------

  predicate Counts(c: Capture, onlyOk: bool) {
    onlyOk ==> c.ok
  }

  /** Nothing that counts is later, and nothing listed before is as late. */
  ghost predicate LatestAt(rows: seq<Capture>, onlyOk: bool, at: Instants, i: nat) {
    && i < |rows| && Counts(rows[i], onlyOk)
    && forall j | 0 <= j < |rows| && Counts(rows[j], onlyOk) ::
         at(rows[j].observedAt) <= at(rows[i].observedAt) && (j < i ==> at(rows[j].observedAt) < at(rows[i].observedAt))
  }

  lemma LatestAppend(rows: seq<Capture>, c: Capture, onlyOk: bool, at: Instants, i: nat)
    requires LatestAt(rows, onlyOk, at, i)
    ensures !Counts(c, onlyOk) || at(c.observedAt) <= at(rows[i].observedAt) ==> LatestAt(rows + [c], onlyOk, at, i)
    ensures Counts(c, onlyOk) && at(c.observedAt) > at(rows[i].observedAt) ==> LatestAt(rows + [c], onlyOk, at, |rows|)
  {
    hide Counts;
  }

  lemma FirstCounted(rows: seq<Capture>, c: Capture, onlyOk: bool, at: Instants)
    requires Counts(c, onlyOk) && forall i | 0 <= i < |rows| :: !Counts(rows[i], onlyOk)
    ensures LatestAt(rows + [c], onlyOk, at, |rows|)
  {
  }

  /** Among captures of the latest instant the first listed is shown. */
  lemma {:induction false} LatestListed(rows: seq<Capture>, onlyOk: bool, at: Instants)
    ensures var best := LatestCapture(rows, onlyOk, at);
      && (best.None? ==> forall i | 0 <= i < |rows| :: !Counts(rows[i], onlyOk))
      && (best.Some? ==> exists i: nat :: LatestAt(rows, onlyOk, at, i) && rows[i] == best.value)
    decreases |rows|
  {
    if rows != [] {
      var n := |rows| - 1;
      LatestListed(rows[..n], onlyOk, at);
      assert rows == rows[..n] + [rows[n]];
      var earlier := LatestCapture(rows[..n], onlyOk, at);
      if earlier.Some? {
        var i: nat :| LatestAt(rows[..n], onlyOk, at, i) && rows[..n][i] == earlier.value;
        LatestAppend(rows[..n], rows[n], onlyOk, at, i);
        hide LatestAt;
        assert rows[i] == earlier.value;
      } else if Counts(rows[n], onlyOk) {
        FirstCounted(rows[..n], rows[n], onlyOk, at);
        hide LatestAt;
      }
    }
  }

  lemma {:induction false} LatestCaptureExact(rows: seq<Capture>, onlyOk: bool, at: Instants)
    ensures var best := LatestCapture(rows, onlyOk, at);
      && (best.Some? ==> best.value in rows && Counts(best.value, onlyOk))
      && (forall c | c in rows && Counts(c, onlyOk) :: best.Some? && at(c.observedAt) <= at(best.value.observedAt))
    decreases |rows|
  {
    if rows != [] {
      var n := |rows| - 1;
      LatestCaptureExact(rows[..n], onlyOk, at);
      assert rows == rows[..n] + [rows[n]];
    }
  }

  /** What is shown at a cutoff: under each announcement's key its known revisions, all of them and no other; the first
      listed of the latest known captures, and of the latest successful ones. */
  lemma ViewShows(d: Database, at: Instants, cutoff: int, g: Text, r: Revision)
    ensures var v := ViewOf(d, at, cutoff);
      && (g in v.events <==> exists r :: r in d.revisions && r.guid == g && KnownRevision(r, at, cutoff))
      && (g in v.events ==>
            (r in v.events[g].history <==> r in d.revisions && r.guid == g && KnownRevision(r, at, cutoff)))
      && (forall c :: c in v.captures <==> c in d.captures && at(c.observedAt) <= cutoff)
      && (forall m :: m in v.mappings <==> m in d.mappings && at(m.verifiedAt) <= cutoff)
      && (v.latestCapture.None? ==> v.captures == [])
      && (v.latestCapture.Some? ==>
            exists i: nat :: LatestAt(v.captures, false, at, i) && v.captures[i] == v.latestCapture.value)
      && (v.lastSuccess.None? ==> forall c | c in v.captures :: !c.ok)
      && (v.lastSuccess.Some? ==>
            && v.lastSuccess.value.ok
            && exists i: nat :: LatestAt(v.captures, true, at, i) && v.captures[i] == v.lastSuccess.value)
  {
    hide Resolve, SortHistory, LatestAt, LatestCapture, Stale, KnownCaptures, KnownMappings, KnownRevisions;
    var v, known := ViewOf(d, at, cutoff), KnownCaptures(d.captures, at, cutoff);
    LatestListed(known, false, at);
    LatestListed(known, true, at);
    LatestCaptureExact(known, true, at);
    var revisions := KnownRevisions(d.revisions, at, cutoff);
    EventShows(revisions, d.mappings, at, cutoff, g, r);
    forall c | c in known && v.lastSuccess.None? ensures !c.ok {
      var i :| 0 <= i < |known| && known[i] == c;
      assert !Counts(known[i], true);
    }
    assert known != [] ==> Counts(known[0], false);
  }

  lemma EventShows(known: seq<Revision>, mappings: seq<Mapping>, at: Instants, cutoff: int, g: Text, r: Revision)
    ensures var events := EventsOf(known, mappings, at, cutoff);
      && (g in events <==> exists r :: r in known && r.guid == g)
      && (g in events ==> (r in events[g].history <==> r in known && r.guid == g))
  {
    hide Resolve, SortHistory, Versions;
    if g in Guids(known) {
      VersionsExist(known, g);
      SortKeepsMembers(Versions(known, g), at, r);
    }
  }

  /** Evidence is called stale exactly when no successful capture known at the cutoff is at most a day old. */
  lemma StaleExact(d: Database, at: Instants, cutoff: int)
    ensures ViewOf(d, at, cutoff).captureStale
       <==> !exists c :: c in d.captures && c.ok && cutoff - 86_400_000_000 <= at(c.observedAt) <= cutoff
  {
    hide EventsOf, KnownRevisions, KnownMappings, LatestCapture;
    var known := KnownCaptures(d.captures, at, cutoff);
    LatestCaptureExact(known, true, at);
    var best := LatestCapture(known, true, at);
    if best.Some? {
      assert best.value in d.captures && Counts(best.value, true);
    }
    forall c | c in d.captures && c.ok && at(c.observedAt) <= cutoff
      ensures best.Some? && at(c.observedAt) <= at(best.value.observedAt)
    {
      assert c in known && Counts(c, true);
    }
  }
}
