/** `saveCompanyMapping`: reviewed mappings appended under optimistic concurrency. */
module CompanyMappings {
  import opened Prelude
  import opened CompanyEvents

  datatype Action = Map | Revoke

  /** A submitted review, and the symbols that may be mapped to. A revocation has the empty symbol. */
  datatype Review = Review(action: Action, title: Text, symbol: Text, permitted: seq<Text>, provenance: Text,
                           confirmed: bool, expectedVerifiedAt: Option<Text>)

  /** The code units JavaScript trims. */
  predicate Blank(c: CodeUnit) {
    9 <= c <= 13 || c == 32 || c == 160 || c == 0x1680 || 0x2000 <= c <= 0x200a || c == 0x2028 || c == 0x2029
    || c == 0x202f || c == 0x205f || c == 0x3000 || c == 0xfeff
  }

  function TrimLeft(t: Text): (r: Text)
    ensures |r| <= |t| && r == t[|t| - |r|..] && (r != [] ==> !Blank(r[0]))
    ensures forall i | 0 <= i < |t| - |r| :: Blank(t[i])
  {
    if t != [] && Blank(t[0]) then TrimLeft(t[1..]) else t
  }

  function TrimRight(t: Text): (r: Text)
    ensures r <= t && (r != [] ==> !Blank(r[|r| - 1]))
    ensures forall i | |r| <= i < |t| :: Blank(t[i])
  {
    if t != [] && Blank(t[|t| - 1]) then TrimRight(t[..|t| - 1]) else t
  }

  function Trim(t: Text): Text {
    TrimRight(TrimLeft(t))
  }

  predicate Worded(t: Text, max: nat) {
    Trim(t) != [] && |t| <= max
  }

  predicate SymbolStart(c: CodeUnit) {
    65 <= c <= 90 || 48 <= c <= 57
  }

  predicate SymbolUnit(c: CodeUnit) {
    SymbolStart(c) || c == 38 || c == 46 || c == 95 || c == 45
  }

  /** "NSE:", then a capital or digit, then at most 35 capitals, digits, ampersands, points, underscores or dashes. */
  predicate NseSymbol(t: Text) {
    && 5 <= |t| <= 40 && t[..4] == Ascii("NSE:") && SymbolStart(t[4])
    && forall i | 5 <= i < |t| :: SymbolUnit(t[i])
  }

  predicate WellFormed(b: Review) {
    && Worded(b.title, 1000) && Worded(b.provenance, 2000) && b.confirmed
    && if b.action.Revoke? then b.symbol == [] else NseSymbol(b.symbol) && b.symbol in b.permitted
  }

  function RowOf(b: Review, now: Text): Mapping {
    Mapping(b.title, now, b.symbol, Trim(b.provenance))
  }

  /** The title's latest record known at an instant, whether or not it is in conflict. */
  function LatestKnown(rows: seq<Mapping>, title: Text, at: Instants, cutoff: int): Option<Mapping> {
    Resolve(rows, title, at, cutoff).best
  }

  predicate MappedAt(rows: seq<Mapping>, title: Text, at: Instants, instant: int) {
    exists m :: m in rows && m.title == title && at(m.verifiedAt) == instant && !Revoked(m)
  }

  predicate EventKnown(d: Database, title: Text, at: Instants, cutoff: int) {
    var events := ViewOf(d, at, cutoff).events;
    exists g :: g in events && events[g].latest.title == title
  }

  predicate AllBefore(rows: seq<Mapping>, title: Text, at: Instants, instant: int) {
    forall m | m in rows && m.title == title :: at(m.verifiedAt) < instant
  }

  /** When a save made at time `now` is accepted. */
  predicate Accepts(d: Database, b: Review, at: Instants, now: Text) {
    var latest := LatestKnown(d.mappings, b.title, at, at(now));
    && WellFormed(b) && Sound(d, at)
    && (b.action.Map? ==> EventKnown(d, b.title, at, at(now)))
    && b.expectedVerifiedAt == (if latest.None? then None else Some(latest.value.verifiedAt))
    && (b.action.Revoke? ==> latest.Some? && MappedAt(d.mappings, b.title, at, at(latest.value.verifiedAt)))
    && AllBefore(d.mappings, b.title, at, at(now))
  }

  function After(d: Database, b: Review, at: Instants, now: Text): Database {
    if Accepts(d, b, at, now) then d.(mappings := d.mappings + [RowOf(b, now)]) else d
  }

  /** The shared journal; each save runs alone. */
  class MappingJournal {
    var database: Database

    constructor (d: Database)
      ensures database == d
    {
      database := d;
    }

    /** An accepted save appends its row and changes nothing else; a refused one changes nothing. */
    method Save(b: Review, at: Instants, now: Text) returns (saved: Option<Mapping>)
      modifies this
      ensures database == After(old(database), b, at, now)
      ensures saved == if Accepts(old(database), b, at, now) then Some(RowOf(b, now)) else None
    {
      hide Sound, EventKnown, MappedAt, AllBefore;
      saved := None;
      if !WellFormed(b) {
        return;
      }
      var current := ReadEvents(database, at, at(now));
      if current.None? {
        return;
      }
      var known := b.action.Revoke?;
      if !known {
        known := HasEvent(current.value.view.events, b.title);
        EventKnownIs(database, current.value.view.events, b.title, at, at(now), known);
      }
      if !known {
        return;
      }
      var latest := LatestKnown(database.mappings, b.title, at, at(now));
      if b.expectedVerifiedAt != (if latest.None? then None else Some(latest.value.verifiedAt)) {
        return;
      }
      if b.action.Revoke? && (latest.None? || !MappedAt(database.mappings, b.title, at, at(latest.value.verifiedAt))) {
        return;
      }
      if !AllBefore(database.mappings, b.title, at, at(now)) {
        return;
      }
      database := database.(mappings := database.mappings + [RowOf(b, now)]);
      saved := Some(RowOf(b, now));
    }
  }

  predicate HasEvent(events: map<Text, Event>, title: Text) {
    exists g :: g in events && events[g].latest.title == title
  }

  lemma EventKnownIs(d: Database, events: map<Text, Event>, title: Text, at: Instants, cutoff: int, known: bool)
    requires events == ViewOf(d, at, cutoff).events && known == HasEvent(events, title)
    ensures known <==> EventKnown(d, title, at, cutoff)
  {
    hide ViewOf;
  }

  // ---------- what an accepted save achieves ----------

  lemma AppendedSet(rows: seq<Mapping>, m: Mapping)
    ensures RowSet(rows + [m]) == RowSet(rows) + {m}
  {
  }

  lemma AppendKeepsKeys(rows: seq<Mapping>, m: Mapping)
    requires KeyDistinct(rows) && forall r | r in rows :: r.title != m.title || r.verifiedAt != m.verifiedAt
    ensures KeyDistinct(rows + [m])
  {
  }

  /** The primary key holds after every save, so the insert never fails on it. */
  lemma SaveKeepsKeys(d: Database, b: Review, at: Instants, now: Text)
    requires KeyDistinct(d.mappings)
    ensures KeyDistinct(After(d, b, at, now).mappings)
  {
    hide Sound, EventKnown, MappedAt, Resolve;
    if Accepts(d, b, at, now) {
      AppendKeepsKeys(d.mappings, RowOf(b, now));
    }
  }

  ghost predicate SoleEffective(rows: seq<Mapping>, title: Text, at: Instants, cutoff: int, m: Mapping) {
    Effective(RowSet(rows), title, at, cutoff, m) && !Conflicted(RowSet(rows), title, at, cutoff)
  }

  /** An accepted save becomes, at once and for every later cutoff, the sole unconflicted effective record
      of its title; its expectation names the record it superseded: the one effective just before it
      (none when the title had no record), at every cutoff from its own time on. */
  lemma AcceptedBecomesEffective(d: Database, b: Review, at: Instants, now: Text, cutoff: int)
    requires KeyDistinct(d.mappings) && Accepts(d, b, at, now) && at(now) <= cutoff
    ensures SoleEffective(After(d, b, at, now).mappings, b.title, at, cutoff, RowOf(b, now))
    ensures b.expectedVerifiedAt.None? ==> forall m | m in d.mappings :: m.title != b.title
    ensures b.expectedVerifiedAt.Some? ==>
              exists m ::
                Effective(RowSet(d.mappings), b.title, at, cutoff, m) && m.verifiedAt == b.expectedVerifiedAt.value
  {
    hide Sound, EventKnown, MappedAt, Resolve, Conflicted, WellFormed, Trim;
    var m, s := RowOf(b, now), RowSet(d.mappings);
    AppendedSet(d.mappings, m);
    OnlyLatest(s + {m}, b.title, at, cutoff, m);
    ResolveExact(d.mappings, b.title, at, at(now));
    forall n ensures Known(s, b.title, at, cutoff, n) <==> Known(s, b.title, at, at(now), n) {
    }
    var latest := LatestKnown(d.mappings, b.title, at, at(now));
    if latest.Some? {
      assert Effective(s, b.title, at, cutoff, latest.value);
    } else {
      forall n | n in d.mappings ensures n.title != b.title {
        assert !Known(s, b.title, at, at(now), n);
      }
    }
  }

  /** What is left of a text without the blanks at its ends. */
  ghost predicate IsTrimmed(t: Text, r: Text) {
    exists lo, hi ::
      && 0 <= lo <= hi <= |t| && r == t[lo..hi] && AllBlank(t[..lo]) && AllBlank(t[hi..])
      && (r != [] ==> !Blank(r[0]) && !Blank(r[|r| - 1]))
  }

  ghost predicate AllBlank(t: Text) {
    forall i | 0 <= i < |t| :: Blank(t[i])
  }

  lemma TrimExact(t: Text)
    ensures IsTrimmed(t, Trim(t))
  {
    var left := TrimLeft(t);
    var r := TrimRight(left);
    var lo := |t| - |left|;
    var hi := lo + |r|;
    hide TrimLeft, TrimRight;
    assert left == t[lo..] && r == t[lo..hi];
    forall i | 0 <= i < |t| - hi ensures Blank(t[hi..][i]) {
      assert t[hi..][i] == left[|r| + i];
    }
    if r != [] {
      assert r[0] == left[0];
    }
    assert AllBlank(t[..lo]) && AllBlank(t[hi..]);
  }

  /** The row an accepted save records: the review's title and symbol at the time of the save, and its provenance
      without the blanks around it. It maps to a symbol that may be mapped to, or, for a withdrawal, to none. */
  lemma SavedRowExact(d: Database, b: Review, at: Instants, now: Text)
    requires Accepts(d, b, at, now)
    ensures var rows := After(d, b, at, now).mappings;
      && |rows| == |d.mappings| + 1 && rows[..|d.mappings|] == d.mappings
      && var m := rows[|d.mappings|];
      && m.title == b.title && m.symbol == b.symbol && m.verifiedAt == now
      && IsTrimmed(b.provenance, m.provenance) && m.provenance != []
      && (Revoked(m) <==> b.action.Revoke?) && (b.action.Map? ==> m.symbol in b.permitted)
  {
    TrimExact(b.provenance);
    hide Sound, EventKnown, MappedAt, Resolve, IsTrimmed, Trim, AllBefore;
  }

  // ---------- runs of saves ----------

  datatype Attempt = Attempt(review: Review, now: Text)

  /** The journal after the attempts, in the order the store serialised them. Clock readings are arbitrary. */
  function Run(d: Database, attempts: seq<Attempt>, at: Instants): Database {
    if attempts == [] then
      d
    else
      var n := |attempts| - 1;
      After(Run(d, attempts[..n], at), attempts[n].review, at, attempts[n].now)
  }

  predicate AcceptedAt(d: Database, attempts: seq<Attempt>, at: Instants, n: nat)
    requires n < |attempts|
  {
    Accepts(Run(d, attempts[..n], at), attempts[n].review, at, attempts[n].now)
  }

  lemma {:induction false} RunKeepsKeys(d: Database, attempts: seq<Attempt>, at: Instants)
    requires KeyDistinct(d.mappings)
    ensures KeyDistinct(Run(d, attempts, at).mappings)
    decreases |attempts|
  {
    hide After, KeyDistinct;
    if attempts != [] {
      var n := |attempts| - 1;
      RunKeepsKeys(d, attempts[..n], at);
      SaveKeepsKeys(Run(d, attempts[..n], at), attempts[n].review, at, attempts[n].now);
    }
  }

  /** Nothing is ever removed: what was recorded after i attempts still is after j. */
  lemma {:induction false} RunGrows(d: Database, attempts: seq<Attempt>, at: Instants, i: nat, j: nat)
    requires i <= j <= |attempts|
    ensures Run(d, attempts[..i], at).mappings <= Run(d, attempts[..j], at).mappings
    decreases j
  {
    hide After, Run;
    if i < j {
      RunGrows(d, attempts, at, i, j - 1);
      RunStep(d, attempts, at, j - 1);
      AfterGrows(Run(d, attempts[..j - 1], at), attempts[j - 1].review, at, attempts[j - 1].now);
    }
  }

  lemma AfterGrows(d: Database, b: Review, at: Instants, now: Text)
    ensures d.mappings <= After(d, b, at, now).mappings
  {
    hide Accepts;
  }

  lemma RunStep(d: Database, attempts: seq<Attempt>, at: Instants, n: nat)
    requires n < |attempts|
    ensures Run(d, attempts[..n + 1], at)
         == After(Run(d, attempts[..n], at), attempts[n].review, at, attempts[n].now)
  {
    assert attempts[..n + 1][..n] == attempts[..n];
  }

  /** Once a save of a title is recorded at an instant, a later acceptance must expect a record at that
      instant or later. */
  lemma ExpectsNewest(d: Database, b: Review, at: Instants, now: Text, row: Mapping)
    requires KeyDistinct(d.mappings) && Accepts(d, b, at, now) && row in d.mappings && row.title == b.title
    ensures b.expectedVerifiedAt.Some? && at(b.expectedVerifiedAt.value) >= at(row.verifiedAt)
  {
    hide Sound, EventKnown, MappedAt, Resolve, Conflicted, WellFormed, Trim;
    ResolveExact(d.mappings, b.title, at, at(now));
    assert Known(RowSet(d.mappings), b.title, at, at(now), row);
  }

  /** Two reviewers who start from the same record cannot both succeed, in any serialisation and whatever
      the clock shows to each. */
  lemma NoTwoFromSameRecord(d: Database, attempts: seq<Attempt>, at: Instants, i: nat, j: nat)
    requires KeyDistinct(d.mappings) && i < j < |attempts|
    requires AcceptedAt(d, attempts, at, i) && AcceptedAt(d, attempts, at, j)
    requires attempts[i].review.title == attempts[j].review.title
    ensures attempts[i].review.expectedVerifiedAt != attempts[j].review.expectedVerifiedAt
  {
    var before, later := Run(d, attempts[..i], at), Run(d, attempts[..j], at);
    var b, row := attempts[i].review, RowOf(attempts[i].review, attempts[i].now);
    RunKeepsKeys(d, attempts[..i], at);
    RunKeepsKeys(d, attempts[..j], at);
    RunStep(d, attempts, at, i);
    RunGrows(d, attempts, at, i + 1, j);
    RowKept(before, b, at, attempts[i].now, later);
    ExpectsNewest(later, attempts[j].review, at, attempts[j].now, row);
    ExpectsEarlier(before, b, at, attempts[i].now);
  }

  lemma RowKept(d: Database, b: Review, at: Instants, now: Text, later: Database)
    requires Accepts(d, b, at, now) && After(d, b, at, now).mappings <= later.mappings
    ensures RowOf(b, now) in later.mappings
  {
    hide Accepts;
    assert later.mappings[|d.mappings|] == RowOf(b, now);
  }

  lemma ExpectsEarlier(d: Database, b: Review, at: Instants, now: Text)
    requires KeyDistinct(d.mappings) && Accepts(d, b, at, now)
    ensures b.expectedVerifiedAt.Some? ==> at(b.expectedVerifiedAt.value) < at(now)
  {
    hide Sound, EventKnown, MappedAt, Resolve, Conflicted, WellFormed, Trim;
    ResolveExact(d.mappings, b.title, at, at(now));
  }

  // ---------- titles do not interfere ----------

  function Titled(rows: seq<Mapping>, title: Text): (r: seq<Mapping>)
    ensures forall m :: m in r <==> m in rows && m.title == title
  {
    if rows == [] then []
    else
      var n := |rows| - 1;
      Titled(rows[..n], title) + if rows[n].title == title then [rows[n]] else []
  }

  function AttemptsOn(attempts: seq<Attempt>, title: Text): seq<Attempt> {
    if attempts == [] then []
    else
      var n := |attempts| - 1;
      AttemptsOn(attempts[..n], title) + if attempts[n].review.title == title then [attempts[n]] else []
  }

  lemma TitledAppend(rows: seq<Mapping>, m: Mapping, title: Text)
    ensures Titled(rows + [m], title) == Titled(rows, title) + if m.title == title then [m] else []
  {
    assert (rows + [m])[..|rows|] == rows;
  }

  lemma {:induction false} ResolveTitled(rows: seq<Mapping>, title: Text, at: Instants, cutoff: int)
    ensures Resolve(Titled(rows, title), title, at, cutoff) == Resolve(rows, title, at, cutoff)
    decreases |rows|
  {
    hide Weigh;
    if rows != [] {
      var n := |rows| - 1;
      ResolveTitled(rows[..n], title, at, cutoff);
      var earlier := Titled(rows[..n], title);
      assert (earlier + [rows[n]])[..|earlier|] == earlier;
      assert earlier + [] == earlier;
    }
  }

  /** Which events are known does not depend on the mappings. */
  lemma EventKnownAlike(d: Database, e: Database, title: Text, at: Instants, cutoff: int)
    requires d.revisions == e.revisions
    ensures EventKnown(d, title, at, cutoff) <==> EventKnown(e, title, at, cutoff)
  {
    hide Resolve, SortHistory, Versions, KnownRevisions, KnownMappings, KnownCaptures, LatestCapture, Guids;
    var x, y := ViewOf(d, at, cutoff).events, ViewOf(e, at, cutoff).events;
    forall g ensures g in x <==> g in y {
    }
    forall g | g in x ensures x[g].latest == y[g].latest {
    }
  }

  lemma RowsAlike(d: seq<Mapping>, e: seq<Mapping>, title: Text, at: Instants, instant: int)
    requires Titled(d, title) == Titled(e, title)
    ensures MappedAt(d, title, at, instant) <==> MappedAt(e, title, at, instant)
    ensures AllBefore(d, title, at, instant) <==> AllBefore(e, title, at, instant)
  {
    hide Titled, Revoked;
    forall m: Mapping | m.title == title ensures m in d <==> m in e {
      assert m in Titled(d, title) <==> m in Titled(e, title);
    }
  }

  lemma AcceptsAlike(d: Database, e: Database, b: Review, at: Instants, now: Text)
    requires d.revisions == e.revisions && d.captures == e.captures
    requires Titled(d.mappings, b.title) == Titled(e.mappings, b.title)
    ensures Accepts(d, b, at, now) <==> Accepts(e, b, at, now)
  {
    hide EventKnown, Resolve, WellFormed, Witnessed, MappedAt, AllBefore, Titled;
    EventKnownAlike(d, e, b.title, at, at(now));
    ResolveTitled(d.mappings, b.title, at, at(now));
    ResolveTitled(e.mappings, b.title, at, at(now));
    RowsAlike(d.mappings, e.mappings, b.title, at, at(now));
    var latest := LatestKnown(d.mappings, b.title, at, at(now));
    if latest.Some? {
      RowsAlike(d.mappings, e.mappings, b.title, at, at(latest.value.verifiedAt));
    }
  }

  lemma SaveTitled(d: Database, b: Review, at: Instants, now: Text, title: Text)
    ensures Titled(After(d, b, at, now).mappings, title)
         == Titled(d.mappings, title) + if b.title == title && Accepts(d, b, at, now) then [RowOf(b, now)] else []
    ensures After(d, b, at, now).revisions == d.revisions && After(d, b, at, now).captures == d.captures
  {
    hide Accepts;
    TitledAppend(d.mappings, RowOf(b, now), title);
    assert Titled(d.mappings, title) + [] == Titled(d.mappings, title);
  }

  lemma {:induction false} RunTitled(d: Database, attempts: seq<Attempt>, at: Instants, title: Text)
    ensures var all, own := Run(d, attempts, at), Run(d, AttemptsOn(attempts, title), at);
      && Titled(all.mappings, title) == Titled(own.mappings, title)
      && all.revisions == own.revisions && all.captures == own.captures
    decreases |attempts|
  {
    hide After, Titled;
    if attempts != [] {
      var n := |attempts| - 1;
      RunTitled(d, attempts[..n], at, title);
      var earlier, last := AttemptsOn(attempts[..n], title), attempts[n];
      var all, own := Run(d, attempts[..n], at), Run(d, earlier, at);
      SaveTitled(all, last.review, at, last.now, title);
      if last.review.title == title {
        SaveTitled(own, last.review, at, last.now, title);
        AcceptsAlike(all, own, last.review, at, last.now);
        hide Accepts;
        assert (earlier + [last])[..|earlier|] == earlier;
      } else {
        assert earlier + [] == earlier;
      }
    }
  }

  /** Reviews of different titles do not interfere: however they are interleaved, each title resolves as if
      only its own reviews had been made. */
  lemma TitlesIndependent(d: Database, attempts: seq<Attempt>, at: Instants, title: Text, cutoff: int)
    ensures Resolve(Run(d, attempts, at).mappings, title, at, cutoff)
         == Resolve(Run(d, AttemptsOn(attempts, title), at).mappings, title, at, cutoff)
  {
    hide Run, Resolve;
    RunTitled(d, attempts, at, title);
    ResolveTitled(Run(d, attempts, at).mappings, title, at, cutoff);
    ResolveTitled(Run(d, AttemptsOn(attempts, title), at).mappings, title, at, cutoff);
  }

  // ---------- a journal written only by saves ----------

  ghost predicate Increasing(rows: seq<Mapping>, at: Instants) {
    forall i, j | 0 <= i < j < |rows| && rows[i].title == rows[j].title ::
      at(rows[i].verifiedAt) < at(rows[j].verifiedAt)
  }

  lemma {:induction false} RunIncreasing(d: Database, attempts: seq<Attempt>, at: Instants)
    requires Increasing(d.mappings, at)
    ensures Increasing(Run(d, attempts, at).mappings, at)
    decreases |attempts|
  {
    if attempts != [] {
      var n := |attempts| - 1;
      RunIncreasing(d, attempts[..n], at);
      hide Run;
      SaveIncreasing(Run(d, attempts[..n], at), attempts[n].review, at, attempts[n].now);
    }
  }

  lemma SaveIncreasing(d: Database, b: Review, at: Instants, now: Text)
    requires Increasing(d.mappings, at)
    ensures Increasing(After(d, b, at, now).mappings, at)
  {
    hide Sound, EventKnown, MappedAt, Resolve;
  }

  /** In a journal written only by these saves no title is ever in conflict, at any cutoff. */
  lemma SavesNeverConflict(d: Database, attempts: seq<Attempt>, at: Instants, title: Text, cutoff: int)
    requires d.mappings == []
    ensures !Resolve(Run(d, attempts, at).mappings, title, at, cutoff).conflict
  {
    RunIncreasing(d, attempts, at);
    IncreasingNeverConflicts(Run(d, attempts, at).mappings, title, at, cutoff);
  }

  lemma IncreasingNeverConflicts(rows: seq<Mapping>, title: Text, at: Instants, cutoff: int)
    requires Increasing(rows, at)
    ensures !Resolve(rows, title, at, cutoff).conflict
  {
    hide Resolve;
    ResolveExact(rows, title, at, cutoff);
    forall m, n | AtLatest(RowSet(rows), title, at, cutoff, m) && AtLatest(RowSet(rows), title, at, cutoff, n)
      ensures m == n
    {
      var i :| 0 <= i < |rows| && rows[i] == m;
      var j :| 0 <= j < |rows| && rows[j] == n;
      assert Known(RowSet(rows), title, at, cutoff, m) && Known(RowSet(rows), title, at, cutoff, n);
    }
  }
}
