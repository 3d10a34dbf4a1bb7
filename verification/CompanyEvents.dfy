/** Point-in-time company evidence: the `read` of append-only revisions, mappings and captures as they
    were known at a cutoff instant. */
module CompanyEvents {
  import opened Prelude
  import opened CanonicalJson

  /** The instant, in microseconds, that a recorded time text stands for. */
  type Instants = Text -> int

  /** A reviewed title-to-symbol mapping; the empty symbol withdraws it. */
  datatype Mapping = Mapping(title: Text, verifiedAt: Text, symbol: Text, provenance: Text)

  datatype Revision = Revision(id: Text, guid: Text, title: Text, content: Text, publishedAt: Text,
                               firstSeenAt: Text, direct: bool)

  datatype Capture = Capture(observedAt: Text, ok: bool, direct: bool, summary: Text)

  datatype Database = Database(revisions: seq<Revision>, mappings: seq<Mapping>, captures: seq<Capture>)

  datatype Event = Event(latest: Revision, ambiguous: bool, mapping: Option<Mapping>, latestMapping: Option<Mapping>,
                         mappingAmbiguous: bool, availableAt: Option<Text>, history: seq<Revision>)

  datatype View = View(events: map<Text, Event>, mappings: seq<Mapping>, captures: seq<Capture>,
                       latestCapture: Option<Capture>, lastSuccess: Option<Capture>, captureStale: bool,
                       revisionCount: nat)

  datatype Report = Report(view: View, excludedFutureRevisions: nat)

  const STALE_AFTER := 86_400_000_000

  predicate Revoked(m: Mapping) {
    m.symbol == []
  }

  /** Time texts are ordered by instant, then by text. */
  predicate Later(at: Instants, a: Text, b: Text) {
    at(a) > at(b) || (at(a) == at(b) && Before(b, a))
  }

  /** The primary key of the mapping table. */
  ghost predicate KeyDistinct(rows: seq<Mapping>) {
    forall i, j | 0 <= i < j < |rows| :: rows[i].title != rows[j].title || rows[i].verifiedAt != rows[j].verifiedAt
  }

  // ---------- which mapping is effective ----------

  ghost predicate Known(rows: set<Mapping>, title: Text, at: Instants, cutoff: int, m: Mapping) {
    m in rows && m.title == title && at(m.verifiedAt) <= cutoff
  }

  /** The effective mapping of a title: later than every other one known at the cutoff. */
  ghost predicate Effective(rows: set<Mapping>, title: Text, at: Instants, cutoff: int, m: Mapping) {
    && Known(rows, title, at, cutoff, m)
    && forall n | Known(rows, title, at, cutoff, n) :: n == m || Later(at, m.verifiedAt, n.verifiedAt)
  }

  ghost predicate AtLatest(rows: set<Mapping>, title: Text, at: Instants, cutoff: int, m: Mapping) {
    && Known(rows, title, at, cutoff, m)
    && forall n | Known(rows, title, at, cutoff, n) :: at(n.verifiedAt) <= at(m.verifiedAt)
  }

  /** Two different records share the latest known instant. */
  ghost predicate Conflicted(rows: set<Mapping>, title: Text, at: Instants, cutoff: int) {
    exists m, n :: m != n && AtLatest(rows, title, at, cutoff, m) && AtLatest(rows, title, at, cutoff, n)
  }

  datatype Resolution = Resolution(best: Option<Mapping>, conflict: bool)

  /** What the resolution loop does with one known row of the title. */
  function Weigh(r: Resolution, m: Mapping, at: Instants): Resolution {
    if r.best.None? || at(m.verifiedAt) > at(r.best.value.verifiedAt) then
      Resolution(Some(m), false)
    else if at(m.verifiedAt) == at(r.best.value.verifiedAt) then
      Resolution(if Before(r.best.value.verifiedAt, m.verifiedAt) then Some(m) else r.best, true)
    else
      r
  }

  function Resolve(rows: seq<Mapping>, title: Text, at: Instants, cutoff: int): Resolution {
    if rows == [] then
      Resolution(None, false)
    else
      var n := |rows| - 1;
      var r := Resolve(rows[..n], title, at, cutoff);
      if rows[n].title == title && at(rows[n].verifiedAt) <= cutoff then Weigh(r, rows[n], at) else r
  }

  /** The resolution loop: every title at once, in one pass over the rows. */
  method ResolveMappings(rows: seq<Mapping>, at: Instants, cutoff: int)
    returns (effective: map<Text, Mapping>, conflicts: set<Text>)
    ensures forall t :: t in effective <==> Resolve(rows, t, at, cutoff).best.Some?
    ensures forall t :: t in effective ==> Resolve(rows, t, at, cutoff).best == Some(effective[t])
    ensures forall t :: t in conflicts <==> Resolve(rows, t, at, cutoff).conflict
  {
    effective, conflicts := map[], {};
    for n := 0 to |rows|
      invariant forall t :: t in effective <==> Resolve(rows[..n], t, at, cutoff).best.Some?
      invariant forall t :: t in effective ==> Resolve(rows[..n], t, at, cutoff).best == Some(effective[t])
      invariant forall t :: t in conflicts <==> Resolve(rows[..n], t, at, cutoff).conflict
    {
      var m := rows[n];
      assert rows[..n + 1][..n] == rows[..n];
      if at(m.verifiedAt) <= cutoff {
        if m.title !in effective || at(m.verifiedAt) > at(effective[m.title].verifiedAt) {
          effective, conflicts := effective[m.title := m], conflicts - {m.title};
        } else if at(m.verifiedAt) == at(effective[m.title].verifiedAt) {
          conflicts := conflicts + {m.title};
          if Before(effective[m.title].verifiedAt, m.verifiedAt) {
            effective := effective[m.title := m];
          }
        }
      }
    }
    assert rows[..|rows|] == rows;
  }

  // ---------- the resolution does not depend on row order ----------

  ghost predicate Resolved(rows: set<Mapping>, title: Text, at: Instants, cutoff: int, r: Resolution) {
    && (r.best.None? <==> forall m :: !Known(rows, title, at, cutoff, m))
    && (r.best.Some? ==> Effective(rows, title, at, cutoff, r.best.value))
    && (r.conflict <==> Conflicted(rows, title, at, cutoff))
  }

  function RowSet(rows: seq<Mapping>): set<Mapping> {
    set m | m in rows
  }

  lemma LaterTransitive(at: Instants, a: Text, b: Text, c: Text)
    requires Later(at, a, b) && Later(at, b, c)
    ensures Later(at, a, c)
  {
    if at(a) == at(c) {
      BeforeTransitive(c, b, a);
    }
  }

  /** Rows that are not known rows of the title change nothing. */
  lemma WeighOther(rows: set<Mapping>, m: Mapping, title: Text, at: Instants, cutoff: int, r: Resolution)
    requires Resolved(rows, title, at, cutoff, r) && (m.title != title || at(m.verifiedAt) > cutoff)
    ensures Resolved(rows + {m}, title, at, cutoff, r)
  {
    forall n ensures Known(rows + {m}, title, at, cutoff, n) <==> Known(rows, title, at, cutoff, n) {
    }
    forall n ensures AtLatest(rows + {m}, title, at, cutoff, n) <==> AtLatest(rows, title, at, cutoff, n) {
    }
  }

  lemma WeighNewest(rows: set<Mapping>, m: Mapping, title: Text, at: Instants, cutoff: int, r: Resolution)
    requires Resolved(rows, title, at, cutoff, r) && m.title == title && at(m.verifiedAt) <= cutoff
    requires r.best.None? || at(m.verifiedAt) > at(r.best.value.verifiedAt)
    ensures Resolved(rows + {m}, title, at, cutoff, Resolution(Some(m), false))
  {
    hide Conflicted;
    forall n | Known(rows + {m}, title, at, cutoff, n) && n != m ensures at(n.verifiedAt) < at(m.verifiedAt) {
      assert Known(rows, title, at, cutoff, n);
    }
    assert Effective(rows + {m}, title, at, cutoff, m);
    OnlyLatest(rows + {m}, title, at, cutoff, m);
  }

  lemma OnlyLatest(rows: set<Mapping>, title: Text, at: Instants, cutoff: int, m: Mapping)
    requires Known(rows, title, at, cutoff, m)
    requires forall n | Known(rows, title, at, cutoff, n) && n != m :: at(n.verifiedAt) < at(m.verifiedAt)
    ensures !Conflicted(rows, title, at, cutoff)
  {
    forall n | AtLatest(rows, title, at, cutoff, n) ensures n == m {
    }
  }

  lemma WeighTie(rows: set<Mapping>, m: Mapping, title: Text, at: Instants, cutoff: int, r: Resolution)
    requires Resolved(rows, title, at, cutoff, r) && m.title == title && at(m.verifiedAt) <= cutoff && m !in rows
    requires r.best.Some? && at(m.verifiedAt) == at(r.best.value.verifiedAt)
    requires r.best.value.verifiedAt != m.verifiedAt
    ensures Resolved(rows + {m}, title, at, cutoff, Weigh(r, m, at))
  {
    var b, w := r.best.value, Weigh(r, m, at).best.value;
    BeforeTotal(b.verifiedAt, m.verifiedAt);
    forall n | Known(rows + {m}, title, at, cutoff, n) ensures n == w || Later(at, w.verifiedAt, n.verifiedAt) {
      if n != m && n != b {
        assert Known(rows, title, at, cutoff, n);
        if w == m {
          LaterTransitive(at, m.verifiedAt, b.verifiedAt, n.verifiedAt);
        }
      }
    }
    assert Effective(rows + {m}, title, at, cutoff, w);
    assert AtLatest(rows + {m}, title, at, cutoff, b) && AtLatest(rows + {m}, title, at, cutoff, m);
  }

  lemma WeighOlder(rows: set<Mapping>, m: Mapping, title: Text, at: Instants, cutoff: int, r: Resolution)
    requires Resolved(rows, title, at, cutoff, r) && m.title == title
    requires r.best.Some? && at(m.verifiedAt) < at(r.best.value.verifiedAt)
    ensures Resolved(rows + {m}, title, at, cutoff, r)
  {
    var b := r.best.value;
    forall n | Known(rows + {m}, title, at, cutoff, n) ensures n == m || Known(rows, title, at, cutoff, n) {
    }
    assert Effective(rows + {m}, title, at, cutoff, b);
    forall n ensures AtLatest(rows + {m}, title, at, cutoff, n) <==> AtLatest(rows, title, at, cutoff, n) {
      if AtLatest(rows + {m}, title, at, cutoff, n) {
        assert Known(rows + {m}, title, at, cutoff, b);
      }
    }
  }

  /** In any row order, the resolution picks the title's latest record known at the cutoff and flags a
      conflict exactly when two records share its instant. */
  lemma {:induction false} ResolveExact(rows: seq<Mapping>, title: Text, at: Instants, cutoff: int)
    requires KeyDistinct(rows)
    ensures Resolved(RowSet(rows), title, at, cutoff, Resolve(rows, title, at, cutoff))
    decreases |rows|
  {
    hide Resolved, Weigh, Later;
    if rows == [] {
      assert RowSet(rows) == {};
      NothingResolved(title, at, cutoff);
    } else {
      var n := |rows| - 1;
      var m, r := rows[n], Resolve(rows[..n], title, at, cutoff);
      ResolveExact(rows[..n], title, at, cutoff);
      assert RowSet(rows) == RowSet(rows[..n]) + {m} by {
        assert rows == rows[..n] + [m];
      }
      if m.title == title && at(m.verifiedAt) <= cutoff {
        WeighExact(RowSet(rows[..n]), m, title, at, cutoff, r);
      } else {
        WeighOther(RowSet(rows[..n]), m, title, at, cutoff, r);
      }
    }
  }

  lemma NothingResolved(title: Text, at: Instants, cutoff: int)
    ensures Resolved({}, title, at, cutoff, Resolution(None, false))
  {
  }

  lemma WeighExact(rows: set<Mapping>, m: Mapping, title: Text, at: Instants, cutoff: int, r: Resolution)
    requires Resolved(rows, title, at, cutoff, r) && m.title == title && at(m.verifiedAt) <= cutoff
    requires forall x | x in rows :: x.title != m.title || x.verifiedAt != m.verifiedAt
    ensures Resolved(rows + {m}, title, at, cutoff, Weigh(r, m, at))
  {
    hide Conflicted, AtLatest, Later;
    if r.best.None? || at(m.verifiedAt) > at(r.best.value.verifiedAt) {
      WeighNewest(rows, m, title, at, cutoff, r);
    } else if at(m.verifiedAt) == at(r.best.value.verifiedAt) {
      WeighTie(rows, m, title, at, cutoff, r);
    } else {
      WeighOlder(rows, m, title, at, cutoff, r);
    }
  }

  lemma EffectiveUnique(rows: set<Mapping>, title: Text, at: Instants, cutoff: int, m: Mapping, n: Mapping)
    requires Effective(rows, title, at, cutoff, m) && Effective(rows, title, at, cutoff, n)
    ensures m == n
  {
    BeforeTotal(m.verifiedAt, n.verifiedAt);
  }

  /** Two row orders of the same mappings resolve every title alike. */
  lemma ResolveOrderIrrelevant(a: seq<Mapping>, b: seq<Mapping>, title: Text, at: Instants, cutoff: int)
    requires KeyDistinct(a) && KeyDistinct(b) && RowSet(a) == RowSet(b)
    ensures Resolve(a, title, at, cutoff) == Resolve(b, title, at, cutoff)
  {
    hide Resolve, Conflicted, Effective;
    ResolveExact(a, title, at, cutoff);
    ResolveExact(b, title, at, cutoff);
    var x, y := Resolve(a, title, at, cutoff).best, Resolve(b, title, at, cutoff).best;
    if x.Some? && y.Some? {
      EffectiveUnique(RowSet(a), title, at, cutoff, x.value, y.value);
    }
  }

  // ---------- the read ----------

  predicate KnownRevision(r: Revision, at: Instants, cutoff: int) {
    at(r.firstSeenAt) <= cutoff && at(r.publishedAt) <= cutoff
  }

  function KnownRevisions(rows: seq<Revision>, at: Instants, cutoff: int): (known: seq<Revision>)
    ensures |known| <= |rows|
    ensures forall r :: r in known <==> r in rows && KnownRevision(r, at, cutoff)
  {
    if rows == [] then
      []
    else
      var n := |rows| - 1;
      KnownRevisions(rows[..n], at, cutoff) + if KnownRevision(rows[n], at, cutoff) then [rows[n]] else []
  }

  function KnownMappings(rows: seq<Mapping>, at: Instants, cutoff: int): (known: seq<Mapping>)
    ensures forall m :: m in known <==> m in rows && at(m.verifiedAt) <= cutoff
  {
    if rows == [] then
      []
    else
      var n := |rows| - 1;
      KnownMappings(rows[..n], at, cutoff) + if at(rows[n].verifiedAt) <= cutoff then [rows[n]] else []
  }

  function KnownCaptures(rows: seq<Capture>, at: Instants, cutoff: int): (known: seq<Capture>)
    ensures forall c :: c in known <==> c in rows && at(c.observedAt) <= cutoff
  {
    if rows == [] then
      []
    else
      var n := |rows| - 1;
      KnownCaptures(rows[..n], at, cutoff) + if at(rows[n].observedAt) <= cutoff then [rows[n]] else []
  }

  /** The revisions of one announcement, in row order. */
  function Versions(rows: seq<Revision>, guid: Text): (v: seq<Revision>)
    ensures forall r :: r in v <==> r in rows && r.guid == guid
  {
    if rows == [] then
      []
    else
      var n := |rows| - 1;
      Versions(rows[..n], guid) + if rows[n].guid == guid then [rows[n]] else []
  }

  /** History order: latest first seen first, then by digest. */
  predicate Precedes(at: Instants, a: Revision, b: Revision) {
    at(a.firstSeenAt) > at(b.firstSeenAt) || (at(a.firstSeenAt) == at(b.firstSeenAt) && Before(a.id, b.id))
  }

  function InsertRevision(r: Revision, sorted: seq<Revision>, at: Instants): (s: seq<Revision>)
    ensures multiset(s) == multiset(sorted) + multiset{r} && s != []
  {
    if sorted == [] || Precedes(at, r, sorted[0]) then
      [r] + sorted
    else
      assert sorted == [sorted[0]] + sorted[1..];
      [sorted[0]] + InsertRevision(r, sorted[1..], at)
  }

  function SortHistory(versions: seq<Revision>, at: Instants): (s: seq<Revision>)
    ensures multiset(s) == multiset(versions) && (s == [] <==> versions == [])
  {
    if versions == [] then
      []
    else
      var n := |versions| - 1;
      assert versions == versions[..n] + [versions[n]];
      InsertRevision(versions[n], SortHistory(versions[..n], at), at)
  }

  /** The event an announcement's history and the resolution of its latest title amount to. */
  function EventFrom(history: seq<Revision>, r: Resolution, at: Instants): Event
    requires history != []
  {
    var latest := history[0];
    var ambiguous := |history| > 1 && at(latest.firstSeenAt) == at(history[1].firstSeenAt);
    var mapping := if !r.conflict && r.best.Some? && !Revoked(r.best.value) then r.best else None;
    var availableAt :=
      if mapping.None? || ambiguous then None
      else if at(mapping.value.verifiedAt) > at(latest.firstSeenAt) then Some(mapping.value.verifiedAt)
      else Some(latest.firstSeenAt);
    Event(latest, ambiguous, mapping, r.best, r.conflict, availableAt, history)
  }

  function EventOf(versions: seq<Revision>, mappings: seq<Mapping>, at: Instants, cutoff: int): Event
    requires versions != []
  {
    var history := SortHistory(versions, at);
    EventFrom(history, Resolve(mappings, history[0].title, at, cutoff), at)
  }

  /** The first capture of the latest instant, among all or among the successful ones. */
  function LatestCapture(rows: seq<Capture>, onlyOk: bool, at: Instants): Option<Capture> {
    if rows == [] then
      None
    else
      var n := |rows| - 1;
      var best := LatestCapture(rows[..n], onlyOk, at);
      if onlyOk && !rows[n].ok then best
      else if best.None? || at(rows[n].observedAt) > at(best.value.observedAt) then Some(rows[n])
      else best
  }

  function Guids(rows: seq<Revision>): set<Text> {
    set r | r in rows :: r.guid
  }

  lemma VersionsExist(rows: seq<Revision>, g: Text)
    requires g in Guids(rows)
    ensures Versions(rows, g) != []
  {
    var r :| r in rows && r.guid == g;
    assert r in Versions(rows, g);
  }

  function EventsOf(known: seq<Revision>, mappings: seq<Mapping>, at: Instants, cutoff: int): map<Text, Event> {
    map g | g in Guids(known) :: VersionsExist(known, g); EventOf(Versions(known, g), mappings, at, cutoff)
  }

  function Stale(lastSuccess: Option<Capture>, at: Instants, cutoff: int): bool {
    lastSuccess.None? || cutoff - at(lastSuccess.value.observedAt) > STALE_AFTER
  }

  /** What is shown at a cutoff. */
  function ViewOf(d: Database, at: Instants, cutoff: int): View {
    var known := KnownRevisions(d.revisions, at, cutoff);
    var captures := KnownCaptures(d.captures, at, cutoff);
    View(EventsOf(known, d.mappings, at, cutoff), KnownMappings(d.mappings, at, cutoff), captures,
         LatestCapture(captures, false, at), LatestCapture(captures, true, at),
         Stale(LatestCapture(captures, true, at), at, cutoff), |known|)
  }

  /** A revision was published before it was first seen, and one successful capture of its kind saw it. */
  predicate Witnessed(r: Revision, captures: seq<Capture>, at: Instants) {
    && at(r.publishedAt) <= at(r.firstSeenAt)
    && exists c :: c in captures && c.ok && c.observedAt == r.firstSeenAt && c.direct == r.direct
  }

  predicate Sound(d: Database, at: Instants) {
    forall r | r in d.revisions :: Witnessed(r, d.captures, at)
  }

  ghost predicate Grouping(known: seq<Revision>, grouped: map<Text, seq<Revision>>) {
    grouped.Keys == Guids(known) && forall g | g in grouped :: grouped[g] == Versions(known, g)
  }

  lemma NothingGrouped()
    ensures Grouping([], map[])
  {
  }

  lemma VersionsStep(known: seq<Revision>, r: Revision, g: Text)
    ensures Versions(known + [r], g) == Versions(known, g) + if r.guid == g then [r] else []
  {
    assert (known + [r])[..|known|] == known;
  }

  lemma GroupingStep(known: seq<Revision>, grouped: map<Text, seq<Revision>>, r: Revision)
    requires Grouping(known, grouped)
    ensures Grouping(known + [r], grouped[r.guid := (if r.guid in grouped then grouped[r.guid] else []) + [r]])
  {
    var next := grouped[r.guid := (if r.guid in grouped then grouped[r.guid] else []) + [r]];
    assert next.Keys == Guids(known + [r]) by {
      assert Guids(known + [r]) == Guids(known) + {r.guid};
    }
    forall g | g in next ensures next[g] == Versions(known + [r], g) {
      VersionsStep(known, r, g);
      if g !in grouped {
        NoVersions(known, g);
      }
      hide Versions;
    }
  }

  lemma NoVersions(known: seq<Revision>, g: Text)
    requires g !in Guids(known)
    ensures Versions(known, g) == []
  {
    if Versions(known, g) != [] {
      assert Versions(known, g)[0] in Versions(known, g);
    }
  }

  lemma KnownStep(rows: seq<Revision>, n: nat, at: Instants, cutoff: int)
    requires n < |rows|
    ensures KnownRevisions(rows[..n + 1], at, cutoff)
         == KnownRevisions(rows[..n], at, cutoff) + if KnownRevision(rows[n], at, cutoff) then [rows[n]] else []
  {
    assert rows[..n + 1][..n] == rows[..n];
  }

  /** The revision loop: every row is checked, the known ones are grouped by announcement. */
  method GroupRevisions(d: Database, at: Instants, cutoff: int)
    returns (ok: bool, grouped: map<Text, seq<Revision>>, future: nat)
    ensures ok <==> Sound(d, at)
    ensures ok ==> Grouping(KnownRevisions(d.revisions, at, cutoff), grouped)
    ensures ok ==> future == |d.revisions| - |KnownRevisions(d.revisions, at, cutoff)|
  {
    hide Witnessed, Grouping, KnownRevisions, KnownRevision;
    var rows := d.revisions;
    ghost var known: seq<Revision> := [];
    grouped, future := map[], 0;
    NothingGrouped();
    assert KnownRevisions(rows[..0], at, cutoff) == [];
    for n := 0 to |rows|
      invariant forall i | 0 <= i < n :: Witnessed(rows[i], d.captures, at)
      invariant known == KnownRevisions(rows[..n], at, cutoff) && Grouping(known, grouped)
      invariant future == n - |known|
    {
      var r := rows[n];
      if !Witnessed(r, d.captures, at) {
        assert r in rows;
        return false, grouped, future;
      }
      KnownStep(rows, n, at, cutoff);
      if KnownRevision(r, at, cutoff) {
        GroupingStep(known, grouped, r);
        grouped := grouped[r.guid := (if r.guid in grouped then grouped[r.guid] else []) + [r]];
        known := known + [r];
      } else {
        assert known + [] == known;
        future := future + 1;
      }
    }
    assert rows[..|rows|] == rows;
    ok := true;
  }

  /** The events as built from the grouped revisions and the resolution loop's maps. */
  function BuildEvents(grouped: map<Text, seq<Revision>>, effective: map<Text, Mapping>, conflicts: set<Text>,
                       at: Instants): map<Text, Event>
    requires forall g | g in grouped :: grouped[g] != []
  {
    map g | g in grouped ::
      var history := SortHistory(grouped[g], at);
      var t := history[0].title;
      EventFrom(history, Resolution(if t in effective then Some(effective[t]) else None, t in conflicts), at)
  }

  lemma GroupsNonempty(known: seq<Revision>, grouped: map<Text, seq<Revision>>)
    requires Grouping(known, grouped)
    ensures forall g | g in grouped :: grouped[g] != []
  {
    forall g | g in grouped ensures grouped[g] != [] {
      VersionsExist(known, g);
    }
  }

  lemma EventsBuilt(known: seq<Revision>, grouped: map<Text, seq<Revision>>, effective: map<Text, Mapping>,
                    conflicts: set<Text>, mappings: seq<Mapping>, at: Instants, cutoff: int)
    requires Grouping(known, grouped) && forall g | g in grouped :: grouped[g] != []
    requires forall t :: t in effective <==> Resolve(mappings, t, at, cutoff).best.Some?
    requires forall t :: t in effective ==> Resolve(mappings, t, at, cutoff).best == Some(effective[t])
    requires forall t :: t in conflicts <==> Resolve(mappings, t, at, cutoff).conflict
    ensures BuildEvents(grouped, effective, conflicts, at) == EventsOf(known, mappings, at, cutoff)
  {
    hide EventFrom, SortHistory, Resolve, Versions, Guids;
    var events := BuildEvents(grouped, effective, conflicts, at);
    forall g | g in grouped ensures events[g] == EventOf(Versions(known, g), mappings, at, cutoff) {
      var t := SortHistory(grouped[g], at)[0].title;
      assert Resolution(if t in effective then Some(effective[t]) else None, t in conflicts)
          == Resolve(mappings, t, at, cutoff);
    }
  }

  /** A read of a sound database shows its view at the cutoff; an unsound one is refused. */
  method ReadEvents(d: Database, at: Instants, cutoff: int) returns (r: Option<Report>)
    ensures r == if !Sound(d, at) then None
                 else Some(Report(ViewOf(d, at, cutoff), |d.revisions| - |KnownRevisions(d.revisions, at, cutoff)|))
  {
    hide Sound, Resolve, Grouping, BuildEvents, EventsOf, LatestCapture, Stale;
    hide KnownRevisions, KnownCaptures, KnownMappings;
    var ok, grouped, future := GroupRevisions(d, at, cutoff);
    if !ok {
      return None;
    }
    var effective, conflicts := ResolveMappings(d.mappings, at, cutoff);
    ghost var known := KnownRevisions(d.revisions, at, cutoff);
    GroupsNonempty(known, grouped);
    EventsBuilt(known, grouped, effective, conflicts, d.mappings, at, cutoff);
    var captures := KnownCaptures(d.captures, at, cutoff);
    var lastSuccess := LatestCapture(captures, true, at);
    r := Some(Report(View(BuildEvents(grouped, effective, conflicts, at),
                          KnownMappings(d.mappings, at, cutoff), captures,
                          LatestCapture(captures, false, at), lastSuccess, Stale(lastSuccess, at, cutoff),
                          |d.revisions| - future), future));
  }
}
