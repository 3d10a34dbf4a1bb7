/** `parseBrokerCapture` acceptance and `readBrokerJournal`: the replay of a hash chain of captures
    through one lifecycle. SHA-256 is a parameter; nothing is assumed about it. */
module BrokerJournal {
  import opened Prelude
  import opened CanonicalJson
  import JsonReader
  import opened BrokerRecords
  import opened BrokerCapture
  import opened LifecycleHistory
  import opened BrokerLifecycle

  type Hash = Text -> Text

  // ---------- accepting one capture ----------

  predicate HexDigest(t: Text) {
    |t| == 64 && forall i | 0 <= i < 64 :: IsDigit(t[i]) || 97 <= t[i] <= 102
  }

  ghost predicate AcceptedCapture(sha: Hash, c: Capture, tenant: Text, ref: Text) {
    && c.tenantId == tenant && HexDigest(c.accountRef) && c.accountRef == ref && HexDigest(c.sha256)
    && ValidRows(c)
    && 0 <= c.finishedAt.ms - c.startedAt.ms <= 30_000 && Day(c.startedAt) == Day(c.finishedAt)
    && sha(Canonical(Unsigned(c))) == c.sha256
  }

  method ParseCapture(sha: Hash, c: Capture, tenant: Text, ref: Text) returns (ok: bool)
    ensures ok <==> AcceptedCapture(sha, c, tenant, ref)
  {
    hide ValidStamp, ValidCollection, Unsigned;
    ok := c.tenantId == tenant && HexDigest(c.accountRef) && c.accountRef == ref && HexDigest(c.sha256);
    ok := ok && ValidStamp(c.startedAt) && ValidStamp(c.finishedAt);
    var duration := c.finishedAt.ms - c.startedAt.ms;
    ok := ok && 0 <= duration <= 30_000 && Day(c.startedAt) == Day(c.finishedAt);
    var before := CheckRows(c.ordersBefore, (o: Order) => o.orderId, ValidOrder, 5000);
    var orders := CheckRows(c.orders, (o: Order) => o.orderId, ValidOrder, 5000);
    var tradesBefore := CheckRows(c.tradesBefore, KeyOf, ValidTrade, 10000);
    var trades := CheckRows(c.trades, KeyOf, ValidTrade, 10000);
    ok := ok && before && orders && tradesBefore && trades;
    ok := ok && sha(Canonical(Unsigned(c))) == c.sha256;
  }

  // ---------- the chain ----------

  /** A stored row. The payload, of the given size, is absent when its text is not that of a capture record. */
  datatype Row = Row(sequence: int, previousHash: Option<Text>, entryHash: Text, captureSha: Text,
                     payload: Option<Capture>, bytes: nat)

  const MAX_ROW_BYTES := 8_000_000
  const MAX_JOURNAL_BYTES := 128_000_000

  const ENTRY_KEYS: seq<Text> :=
    [Ascii("sequence"), Ascii("journalId"), Ascii("previousHash"), Ascii("captureSha256")]

  function EntryValues(journalId: Text, sequence: nat, previousHash: Option<Text>, captureSha: Text): seq<Json> {
    [JNumber(sequence), JString(journalId), OptionalJson(previousHash), JString(captureSha)]
  }

  /** The text an entry hash covers. */
  function EntryText(journalId: Text, sequence: nat, previousHash: Option<Text>, captureSha: Text): Text {
    Canonical(Record(ENTRY_KEYS, EntryValues(journalId, sequence, previousHash, captureSha)))
  }

  lemma EntryFields(j: Text, s: nat, p: Option<Text>, c: Text, j': Text, s': nat, p': Option<Text>, c': Text)
    requires forall i | 0 <= i < 4 :: Same(EntryValues(j, s, p, c)[i], EntryValues(j', s', p', c')[i])
    ensures j == j' && s == s' && p == p' && c == c'
  {
    var x, y := EntryValues(j, s, p, c), EntryValues(j', s', p', c');
    assert x[0] == y[0] && x[1] == y[1] && x[2] == y[2] && x[3] == y[3];
  }

  lemma EntryKeysDistinct()
    ensures DistinctTexts(ENTRY_KEYS)
  {
    AscendingTagsDistinct(ENTRY_KEYS);
  }

  lemma EntryExact(j: Text, s: nat, p: Option<Text>, c: Text, j': Text, s': nat, p': Option<Text>, c': Text)
    requires EntryText(j, s, p, c) == EntryText(j', s', p', c')
    ensures j == j' && s == s' && p == p' && c == c'
  {
    hide Canonical, Same, DistinctTexts;
    var x, y := EntryValues(j, s, p, c), EntryValues(j', s', p', c');
    JsonReader.ValueReadable(Record(ENTRY_KEYS, x), Record(ENTRY_KEYS, y));
    EntryKeysDistinct();
    RecordExact(ENTRY_KEYS, x, y);
    EntryFields(j, s, p, c, j', s', p', c');
  }

  function PreviousHash(rows: seq<Row>, i: nat): Option<Text>
    requires i <= |rows|
  {
    if i == 0 then None else Some(rows[i - 1].entryHash)
  }

  function LastEnd(rows: seq<Row>, i: nat): Option<int>
    requires i <= |rows|
  {
    if i == 0 || rows[i - 1].payload.None? then None else Some(rows[i - 1].payload.value.finishedAt.ms)
  }

  /** Row i links to the row before it and carries an accepted capture that starts no earlier than
      the one before it finished. */
  ghost predicate AcceptedRow(sha: Hash, journalId: Text, rows: seq<Row>, tenant: Text, ref: Text, now: int, i: nat)
    requires i < |rows|
  {
    var row, lastEnd := rows[i], LastEnd(rows, i);
    && row.sequence == i + 1 && row.previousHash == PreviousHash(rows, i)
    && row.entryHash == sha(EntryText(journalId, i + 1, PreviousHash(rows, i), row.captureSha))
    && row.bytes <= MAX_ROW_BYTES && row.payload.Some? && AcceptedCapture(sha, row.payload.value, tenant, ref)
    && row.captureSha == row.payload.value.sha256
    && (lastEnd.Some? ==> row.payload.value.startedAt.ms >= lastEnd.value)
    && row.payload.value.finishedAt.ms <= now + 5000
  }

  ghost predicate AcceptedRows(sha: Hash, journalId: Text, rows: seq<Row>, tenant: Text, ref: Text, now: int, n: nat)
    requires n <= |rows|
  {
    forall i | 0 <= i < n :: AcceptedRow(sha, journalId, rows, tenant, ref, now, i)
  }

  lemma AcceptedRowsStep(sha: Hash, journalId: Text, rows: seq<Row>, tenant: Text, ref: Text, now: int, i: nat)
    requires i < |rows| && AcceptedRows(sha, journalId, rows, tenant, ref, now, i)
    requires Readable(rows[..i])
    ensures AcceptedRow(sha, journalId, rows, tenant, ref, now, i) ==>
      AcceptedRows(sha, journalId, rows, tenant, ref, now, i + 1) && Readable(rows[..i + 1])
    ensures AcceptedRows(sha, journalId, rows, tenant, ref, now, |rows|) ==>
      AcceptedRow(sha, journalId, rows, tenant, ref, now, i)
  {
    hide AcceptedCapture;
  }

  /** The checks on one row, from the hash and the end time carried from the row before it. */
  method CheckRow(sha: Hash, journalId: Text, rows: seq<Row>, i: nat, previousHash: Option<Text>, lastEnd: Option<int>,
                  tenant: Text, ref: Text, now: int) returns (ok: bool)
    requires i < |rows| && previousHash == PreviousHash(rows, i) && lastEnd == LastEnd(rows, i)
    ensures ok <==> AcceptedRow(sha, journalId, rows, tenant, ref, now, i)
  {
    hide AcceptedCapture;
    var row := rows[i];
    if row.sequence != i + 1 || row.previousHash != previousHash
       || row.entryHash != sha(EntryText(journalId, i + 1, previousHash, row.captureSha))
       || row.bytes > MAX_ROW_BYTES || row.payload.None? {
      return false;
    }
    var capture := row.payload.value;
    ok := ParseCapture(sha, capture, tenant, ref);
    ok := ok && row.captureSha == capture.sha256 && (lastEnd.None? || capture.startedAt.ms >= lastEnd.value);
    ok := ok && capture.finishedAt.ms <= now + 5000;
  }

  ghost predicate Readable(rows: seq<Row>) {
    forall i | 0 <= i < |rows| :: rows[i].payload.Some?
  }

  function ObservedRow(row: Row): Observed
    requires row.payload.Some?
  {
    var c := row.payload.value;
    Observed(c, Inspected(c).status, Inspected(c).issueCount)
  }

  function Replayed(rows: seq<Row>): (run: seq<Observed>)
    requires Readable(rows)
    ensures |run| == |rows|
    ensures forall i | 0 <= i < |rows| :: run[i] == ObservedRow(rows[i])
  {
    seq(|rows|, i requires 0 <= i < |rows| => ObservedRow(rows[i]))
  }

  // ---------- the state read ----------

  datatype HistoryEntry = HistoryEntry(
    sequence: nat, day: int, finishedAt: Stamp, captureSha256: Text, inspectionStatus: InspectionStatus,
    temporalStatus: TemporalStatus, issueCount: nat, cumulativeIssueCount: nat)

  /** What is shown about the selected capture. */
  datatype Selected = Selected(
    sequence: nat, report: Capture, inspection: Inspection, temporal: TemporalReport,
    cumulativeIssueCount: nat, entryHash: Text, stale: bool)

  datatype JournalState =
    | Unavailable
    | Invalid
    | Available(selected: Selected, journalId: Text, headHash: Text, captureCount: nat,
                history: seq<HistoryEntry>, historyOmitted: nat)

  datatype Selection = Selection(journalId: Text, sequence: int, captureSha256: Option<Text>)

  /** The view of the last of these rows. */
  function View(rows: seq<Row>, now: int): Selected
    requires rows != [] && Readable(rows)
  {
    var n := |rows| - 1;
    var run, c := Replayed(rows), rows[n].payload.value;
    Selected(n + 1, c, Inspected(c), Report(run[..n], run[n]), TotalIssues(run), rows[n].entryHash,
             now - c.finishedAt.ms > 120_000)
  }

  function Entry(rows: seq<Row>): HistoryEntry
    requires rows != [] && Readable(rows)
  {
    var v := View(rows, 0);
    HistoryEntry(v.sequence, Day(v.report.finishedAt), v.report.finishedAt, v.report.sha256, v.inspection.status,
                 v.temporal.status, v.inspection.issueCount + v.temporal.issueCount, v.cumulativeIssueCount)
  }

  lemma PrefixReadable(rows: seq<Row>, n: nat)
    requires n <= |rows| && Readable(rows)
    ensures Readable(rows[..n])
  {
  }

  /** The entries of the rows from lo on, each from the rows up to its own. */
  function Entries(rows: seq<Row>, lo: nat): seq<HistoryEntry>
    requires Readable(rows)
  {
    if |rows| <= lo then []
    else
      PrefixReadable(rows, |rows| - 1);
      Entries(rows[..|rows| - 1], lo) + [Entry(rows)]
  }

  lemma {:induction false} EntriesFrom(rows: seq<Row>, lo: nat)
    requires Readable(rows) && lo <= |rows|
    ensures |Entries(rows, lo)| == |rows| - lo
    ensures lo < |rows| ==> Entries(rows, lo)[1..] == Entries(rows, lo + 1)
    decreases |rows|
  {
    hide Entry;
    if lo < |rows| {
      PrefixReadable(rows, |rows| - 1);
      EntriesFrom(rows[..|rows| - 1], lo);
    }
  }

  ghost predicate SelectionMatches(rows: seq<Row>, journalId: Text, selection: Option<Selection>) {
    selection.Some? ==>
      var s := selection.value;
      && 0 < s.sequence <= |rows| && s.journalId == journalId
      && (s.captureSha256.Some? ==>
            HexDigest(s.captureSha256.value)
            && rows[s.sequence - 1].payload.Some?
            && s.captureSha256.value == rows[s.sequence - 1].payload.value.sha256)
  }

  function SelectedCount(rows: seq<Row>, selection: Option<Selection>): int {
    if selection.Some? then selection.value.sequence else |rows|
  }

  ghost predicate AcceptedJournal(sha: Hash, journalId: Text, rows: seq<Row>, tenant: Text, ref: Text, now: int,
                                  selection: Option<Selection>) {
    && 0 < |rows| <= 10000 && AcceptedRows(sha, journalId, rows, tenant, ref, now, |rows|)
    && SelectionMatches(rows, journalId, selection) && rows[|rows| - 1].entryHash != []
  }

  function Oldest(count: nat): nat {
    if count > 100 then count - 100 else 0
  }

  lemma ReplayedStep(rows: seq<Row>)
    requires rows != [] && Readable(rows)
    ensures Readable(rows[..|rows| - 1])
    ensures Replayed(rows) == Replayed(rows[..|rows| - 1]) + [ObservedRow(rows[|rows| - 1])]
    ensures Replayed(rows)[..|rows| - 1] == Replayed(rows[..|rows| - 1])
  {
    hide ObservedRow;
  }

  lemma HistoryStep(rows: seq<Row>)
    requires rows != [] && Readable(rows) && Readable(rows[..|rows| - 1])
    ensures var before := Entries(rows[..|rows| - 1], Oldest(|rows| - 1));
            Entries(rows, Oldest(|rows|))
            == (if |before| == 100 then before[1..] + [Entry(rows)] else before + [Entry(rows)])
  {
    hide Entry;
    var n := |rows| - 1;
    EntriesFrom(rows[..n], Oldest(n));
  }

  /** One row through the inspection and the lifecycle. */
  method ReplayRow(lifecycle: BrokerLifecycle, rows: seq<Row>, now: int) returns (view: Selected, entry: HistoryEntry)
    requires rows != [] && Readable(rows) && ValidRows(rows[|rows| - 1].payload.value)
    requires Readable(rows[..|rows| - 1])
    requires lifecycle.Valid() && lifecycle.run == Replayed(rows[..|rows| - 1])
    modifies lifecycle
    ensures lifecycle.Valid() && lifecycle.run == Replayed(rows)
    ensures view == View(rows, now) && entry == Entry(rows)
  {
    hide Inspected, Report, TotalIssues, ValidRows;
    ReplayedStep(rows);
    var row := rows[|rows| - 1];
    var c := row.payload.value;
    assert UniqueOrders(c.orders) && UniqueTrades(c.trades) by { RowsUnique(c); }
    var inspection := InspectCapture(c);
    var temporal := lifecycle.Inspect(c, inspection.status, inspection.issueCount);
    view := Selected(|rows|, c, inspection, temporal, lifecycle.cumulativeIssueCount, row.entryHash,
                     now - c.finishedAt.ms > 120_000);
    entry := HistoryEntry(|rows|, Day(c.finishedAt), c.finishedAt, c.sha256, inspection.status, temporal.status,
                          inspection.issueCount + temporal.issueCount, lifecycle.cumulativeIssueCount);
  }

  lemma RowsUnique(c: Capture)
    requires ValidRows(c)
    ensures UniqueOrders(c.orders) && UniqueTrades(c.trades)
  {
    ValidOrdersUnique(c.orders);
    ValidTradesUnique(c.trades);
  }

  lemma AcceptedIsValid(sha: Hash, journalId: Text, rows: seq<Row>, tenant: Text, ref: Text, now: int, i: nat)
    requires i < |rows| && AcceptedRow(sha, journalId, rows, tenant, ref, now, i)
    ensures rows[i].payload.Some? && ValidRows(rows[i].payload.value)
    ensures PreviousHash(rows, i + 1) == Some(rows[i].entryHash)
    ensures LastEnd(rows, i + 1) == Some(rows[i].payload.value.finishedAt.ms)
  {
  }

  /** The selected view is the view of the rows up to the selected one, although the replay runs to the
      end; the history is that of the last hundred rows. */
  ghost predicate Shows(state: JournalState, journalId: Text, rows: seq<Row>, now: int, selection: Option<Selection>) {
    && state.Available? && 0 < SelectedCount(rows, selection) <= |rows| && Readable(rows)
    && state.selected == View(rows[..SelectedCount(rows, selection)], now)
    && state.journalId == journalId && state.captureCount == |rows|
    && state.headHash == rows[|rows| - 1].entryHash
    && state.historyOmitted == Oldest(|rows|)
    && state.history == Entries(rows, Oldest(|rows|))
  }

  /** The replay accepts exactly the accepted journals. */
  method ReplayJournal(sha: Hash, journalId: Text, rows: seq<Row>, tenant: Text, ref: Text, now: int,
                       selection: Option<Selection>) returns (state: JournalState)
    ensures state.Available? <==> AcceptedJournal(sha, journalId, rows, tenant, ref, now, selection)
    ensures state.Unavailable? <==> rows == [] && selection.None?
    ensures state.Available? ==> Shows(state, journalId, rows, now, selection)
  {
    hide AcceptedRows, AcceptedRow, Entries, View, Readable, ValidRows, ObservedRow, HexDigest, Replayed,
         BrokerLifecycle.Valid, Shows;
    state := if rows == [] && selection.None? then Unavailable else Invalid;
    if selection.Some? {
      var s := selection.value;
      if !(s.sequence > 0 && s.journalId == journalId && (s.captureSha256.Some? ==> HexDigest(s.captureSha256.value))) {
        return;
      }
    }
    var selectedSequence := SelectedCount(rows, selection);
    if |rows| == 0 || |rows| > 10000 || selectedSequence > |rows| {
      return;
    }
    NothingReplayed(sha, journalId, rows, tenant, ref, now);
    var lifecycle := new BrokerLifecycle();
    var previousHash, lastEnd := None, None;
    var history: seq<HistoryEntry> := [];
    var selected: Option<Selected> := None;
    for i := 0 to |rows|
      invariant lifecycle.Valid() && fresh(lifecycle)
      invariant previousHash == PreviousHash(rows, i) && lastEnd == LastEnd(rows, i)
      invariant AcceptedRows(sha, journalId, rows, tenant, ref, now, i) && Readable(rows[..i])
      invariant lifecycle.run == Replayed(rows[..i])
      invariant history == Entries(rows[..i], Oldest(i))
      invariant selected.Some? <==> selectedSequence <= i
      invariant selected.Some? ==>
        Readable(rows[..selectedSequence]) && selected.value == View(rows[..selectedSequence], now)
      invariant selected.Some? ==> SelectionMatches(rows, journalId, selection)
    {
      var view;
      view, history := Advance(lifecycle, sha, journalId, rows, i, previousHash, lastEnd, history, tenant, ref, now);
      if view.None? {
        return;
      }
      var capture := rows[i].payload.value;
      if i + 1 == selectedSequence {
        if selection.Some? && selection.value.captureSha256.Some?
           && selection.value.captureSha256.value != capture.sha256 {
          return;
        }
        selected := view;
      }
      previousHash, lastEnd := Some(rows[i].entryHash), Some(capture.finishedAt.ms);
    }
    assert rows[..|rows|] == rows;
    if previousHash.value == [] {
      return;
    }
    state := Available(selected.value, journalId, previousHash.value, |rows|, history, Oldest(|rows|));
    ShowsAll(state, journalId, rows, now, selection);
  }

  lemma ShowsAll(state: JournalState, journalId: Text, rows: seq<Row>, now: int, selection: Option<Selection>)
    requires rows != [] && Readable(rows) && 0 < SelectedCount(rows, selection) <= |rows|
    requires Readable(rows[..SelectedCount(rows, selection)])
    requires state == Available(View(rows[..SelectedCount(rows, selection)], now), journalId,
                                rows[|rows| - 1].entryHash,
                                |rows|, Entries(rows, Oldest(|rows|)), Oldest(|rows|))
    ensures Shows(state, journalId, rows, now, selection)
  {
    hide View, Entries, Readable;
  }

  /** One turn of the loop: check the row, replay it, and extend the bounded history. */
  method Advance(lifecycle: BrokerLifecycle, sha: Hash, journalId: Text, rows: seq<Row>, i: nat,
                 previousHash: Option<Text>, lastEnd: Option<int>, history: seq<HistoryEntry>,
                 tenant: Text, ref: Text, now: int)
      returns (view: Option<Selected>, history': seq<HistoryEntry>)
    requires i < |rows| && previousHash == PreviousHash(rows, i) && lastEnd == LastEnd(rows, i)
    requires AcceptedRows(sha, journalId, rows, tenant, ref, now, i) && Readable(rows[..i])
    requires lifecycle.Valid() && lifecycle.run == Replayed(rows[..i])
    requires history == Entries(rows[..i], Oldest(i))
    modifies lifecycle
    ensures view.None? ==> !AcceptedRows(sha, journalId, rows, tenant, ref, now, |rows|)
    ensures view.Some? ==>
      && AcceptedRows(sha, journalId, rows, tenant, ref, now, i + 1) && Readable(rows[..i + 1])
      && rows[i].payload.Some? && LastEnd(rows, i + 1) == Some(rows[i].payload.value.finishedAt.ms)
      && lifecycle.Valid() && lifecycle.run == Replayed(rows[..i + 1])
      && history' == Entries(rows[..i + 1], Oldest(i + 1)) && view.value == View(rows[..i + 1], now)
  {
    hide AcceptedRows, AcceptedRow, Entries, View, Entry, Readable, ValidRows, ObservedRow;
    view, history' := None, history;
    var ok := CheckRow(sha, journalId, rows, i, previousHash, lastEnd, tenant, ref, now);
    AcceptedRowsStep(sha, journalId, rows, tenant, ref, now, i);
    if ok {
      AcceptedIsValid(sha, journalId, rows, tenant, ref, now, i);
      assert rows[..i + 1][..i] == rows[..i] && rows[..i + 1][i] == rows[i];
      var shown, entry := ReplayRow(lifecycle, rows[..i + 1], now);
      view := Some(shown);
      HistoryStep(rows[..i + 1]);
      history' := if |history| == 100 then history[1..] + [entry] else history + [entry];
    }
  }

  lemma NothingReplayed(sha: Hash, journalId: Text, rows: seq<Row>, tenant: Text, ref: Text, now: int)
    ensures AcceptedRows(sha, journalId, rows, tenant, ref, now, 0)
    ensures Readable(rows[..0]) && Entries(rows[..0], 0) == []
  {
  }

  // ---------- the stored journal ----------

  /** The row that says whose journal this is. */
  datatype Meta = Meta(id: int, version: int, journalId: Text, tenant: Text, accountRef: Text)

  predicate HexId(t: Text) {
    |t| == 32 && forall i | 0 <= i < 32 :: IsDigit(t[i]) || 97 <= t[i] <= 102
  }

  predicate OwnJournal(metas: seq<Meta>, tenant: Text, ref: Text) {
    && |metas| == 1 && metas[0].id == 1 && metas[0].version == 1
    && metas[0].tenant == tenant && metas[0].accountRef == ref && HexDigest(ref) && HexId(metas[0].journalId)
  }

  function TotalBytes(rows: seq<Row>): nat {
    if rows == [] then 0 else TotalBytes(rows[..|rows| - 1]) + rows[|rows| - 1].bytes
  }

  /** A stored journal is shown exactly when it is this account's own, within its bounds, and accepted. */
  method ReadJournal(sha: Hash, metas: seq<Meta>, rows: seq<Row>, tenant: Text, ref: Text, now: int,
                     selection: Option<Selection>) returns (state: JournalState)
    ensures state.Available? <==>
      && OwnJournal(metas, tenant, ref) && TotalBytes(rows) <= MAX_JOURNAL_BYTES
      && AcceptedJournal(sha, metas[0].journalId, rows, tenant, ref, now, selection)
    ensures state.Unavailable? <==> OwnJournal(metas, tenant, ref) && rows == [] && selection.None?
    ensures state.Available? ==> Shows(state, metas[0].journalId, rows, now, selection)
  {
    hide AcceptedJournal, Shows;
    if !OwnJournal(metas, tenant, ref) || TotalBytes(rows) > MAX_JOURNAL_BYTES {
      return Invalid;
    }
    state := ReplayJournal(sha, metas[0].journalId, rows, tenant, ref, now, selection);
  }
}
