/** The research database: markets, book snapshots and signal snapshots, and the point-in-time export. */
module History {
  import opened Wrappers
  import opened Domain
  import opened Text
  import opened Timestamps

  /** Primary key of both snapshot tables. */
  datatype Key = Key(ticker: string, observedAt: string)

  /** What of a snapshot is exported. */
  datatype Top = Top(
    yesBid: real, yesAsk: real, noBid: real, noAsk: real,
    yesAskSize: real, noAskSize: real,
    closeTime: Option<string>)

  datatype Book = Book(status: string, top: Top)

  datatype SignalRow = SignalRow(fairProbability: real, generatedAt: string, modelVersion: string)

  datatype MarketRecord = MarketRecord(
    ticker: string,
    eventTicker: string,
    seriesTicker: string,
    title: string,
    status: string,
    closeTime: Option<string>,
    result: Option<Outcome>,
    settledAt: Option<string>)

  datatype MarketRow = MarketRow(record: MarketRecord, firstSeenAt: string, lastSeenAt: string)

  datatype Tables = Tables(
    markets: map<string, MarketRow>,
    snapshots: map<Key, Book>,
    signals: map<Key, SignalRow>)

  datatype HistoryRow = HistoryRow(
    key: Key,
    top: Top,
    result: Option<Outcome>,
    fairProbability: Option<real>,
    modelVersion: Option<string>)

  // ----- Writing ----------------------------------------------------------------------------

  function Coalesce<T>(value: Option<T>, fallback: Option<T>): Option<T> {
    if value.Some? then value else fallback
  }

  /** A known close time, result or settlement survives an update that lacks it; titles never change. */
  function Merged(row: MarketRow, record: MarketRecord, seenAt: string): MarketRow {
    MarketRow(row.record.(
                status := record.status,
                closeTime := Coalesce(record.closeTime, row.record.closeTime),
                result := Coalesce(record.result, row.record.result),
                settledAt := Coalesce(record.settledAt, row.record.settledAt)),
              row.firstSeenAt, seenAt)
  }

  function MarketUpserted(t: Tables, record: MarketRecord, seenAt: string): Tables {
    var row :=
      if record.ticker in t.markets then Merged(t.markets[record.ticker], record, seenAt)
      else MarketRow(record, seenAt, seenAt);
    t.(markets := t.markets[record.ticker := row])
  }

  function SnapshotRecorded(t: Tables, key: Key, book: Book): Tables {
    t.(snapshots := t.snapshots[key := book])
  }

  function SignalRecorded(t: Tables, key: Key, signal: SignalRow): Tables {
    t.(signals := t.signals[key := signal])
  }

  // ----- Reading as of a time ----------------------------------------------------------------

  /** When the signals of `at.ticker` stamped at or before `at.observedAt` were observed. */
  function TimesUpTo(signals: map<Key, SignalRow>, at: Key): set<string> {
    set k | k in signals && k.ticker == at.ticker && !Less(at.observedAt, k.observedAt) :: k.observedAt
  }

  predicate IsLatest(times: set<string>, t: string) {
    t in times && forall u :: u in times ==> !Less(t, u)
  }

  lemma {:induction false} LatestExists(times: set<string>)
    requires times != {}
    ensures exists t :: IsLatest(times, t)
    decreases times
  {
    var t :| t in times;
    var rest := times - {t};
    assert times == rest + {t};
    Irreflexive(t);
    if rest == {} {
      assert IsLatest(times, t);
    } else {
      LatestExists(rest);
      var u :| IsLatest(rest, u);
      if Less(u, t) {
        LatestBelow(rest, u, t);
        assert IsLatest(times, t);
      } else {
        assert IsLatest(times, u);
      }
    }
  }

  lemma LatestBelow(times: set<string>, u: string, t: string)
    requires IsLatest(times, u) && Less(u, t)
    ensures forall v :: v in times ==> !Less(t, v)
  {
    forall v | v in times
      ensures !Less(t, v)
    {
      if Less(t, v) {
        Transitive(u, t, v);
      }
    }
  }

  lemma LatestIsUnique(times: set<string>, t: string, u: string)
    requires IsLatest(times, t) && IsLatest(times, u)
    ensures t == u
  {
    Trichotomy(t, u);
  }

  function Latest(times: set<string>): (t: string)
    requires times != {}
    ensures IsLatest(times, t)
  {
    LatestExists(times);
    assert forall t, u :: IsLatest(times, t) && IsLatest(times, u) ==> t == u by {
      forall t, u | IsLatest(times, t) && IsLatest(times, u)
        ensures t == u
      {
        LatestIsUnique(times, t, u);
      }
    }
    var t :| t in times && IsLatest(times, t);
    t
  }

  /** The subquery ORDER BY observed_at DESC LIMIT 1. */
  function LatestTime(signals: map<Key, SignalRow>, at: Key): (time: Option<string>)
    ensures time.Some? ==> Key(at.ticker, time.value) in signals
  {
    var times := TimesUpTo(signals, at);
    if times == {} then None else Some(Latest(times))
  }

  function LatestProbability(signals: map<Key, SignalRow>, at: Key): Option<real> {
    var time := LatestTime(signals, at);
    if time.None? then None else Some(signals[Key(at.ticker, time.value)].fairProbability)
  }

  /** An empty version reads back as none. */
  function Version(signal: SignalRow): Option<string> {
    if signal.modelVersion == "" then None else Some(signal.modelVersion)
  }

  function LatestVersion(signals: map<Key, SignalRow>, at: Key): Option<string> {
    var time := LatestTime(signals, at);
    if time.None? then None else Version(signals[Key(at.ticker, time.value)])
  }

  function Selected(t: Tables, resolvedOnly: bool): set<Key> {
    set k | k in t.snapshots && k.ticker in t.markets && (resolvedOnly ==> t.markets[k.ticker].record.result.Some?)
  }

  function RowAt(t: Tables, key: Key): HistoryRow
    requires key in t.snapshots && key.ticker in t.markets
  {
    HistoryRow(key, t.snapshots[key].top, t.markets[key.ticker].record.result,
               LatestProbability(t.signals, key), LatestVersion(t.signals, key))
  }

  // ----- Export order ------------------------------------------------------------------------------

  predicate KeyBefore(a: Key, b: Key) {
    Less(a.observedAt, b.observedAt) || (a.observedAt == b.observedAt && Less(a.ticker, b.ticker))
  }

  predicate IsFirst(keys: set<Key>, k: Key) {
    k in keys && forall other :: other in keys && other != k ==> KeyBefore(k, other)
  }

  lemma KeyBeforeTransitive(a: Key, b: Key, c: Key)
    requires KeyBefore(a, b) && KeyBefore(b, c)
    ensures KeyBefore(a, c)
  {
    if Less(a.observedAt, b.observedAt) && Less(b.observedAt, c.observedAt) {
      Transitive(a.observedAt, b.observedAt, c.observedAt);
    } else if a.observedAt == b.observedAt == c.observedAt {
      Transitive(a.ticker, b.ticker, c.ticker);
    }
  }

  lemma KeyBeforeAsymmetric(a: Key, b: Key)
    requires KeyBefore(a, b)
    ensures !KeyBefore(b, a)
  {
    if KeyBefore(b, a) {
      KeyBeforeTransitive(a, b, a);
      Irreflexive(a.observedAt);
      Irreflexive(a.ticker);
    }
  }

  lemma KeyBeforeTotal(a: Key, b: Key)
    requires a != b
    ensures KeyBefore(a, b) || KeyBefore(b, a)
  {
    Trichotomy(a.observedAt, b.observedAt);
    Trichotomy(a.ticker, b.ticker);
  }

  lemma {:induction false} FirstExists(keys: set<Key>)
    requires keys != {}
    ensures exists k :: IsFirst(keys, k)
    decreases keys
  {
    var k :| k in keys;
    var rest := keys - {k};
    assert keys == rest + {k};
    if rest == {} {
      assert IsFirst(keys, k);
    } else {
      FirstExists(rest);
      var first :| IsFirst(rest, first);
      KeyBeforeTotal(k, first);
      if KeyBefore(first, k) {
        assert IsFirst(keys, first);
      } else {
        FirstAbove(rest, first, k);
        assert IsFirst(keys, k);
      }
    }
  }

  lemma FirstAbove(keys: set<Key>, first: Key, k: Key)
    requires IsFirst(keys, first) && KeyBefore(k, first)
    ensures forall other :: other in keys ==> KeyBefore(k, other)
  {
    forall other | other in keys && other != first
      ensures KeyBefore(k, other)
    {
      KeyBeforeTransitive(k, first, other);
    }
  }

  lemma FirstIsUnique(keys: set<Key>, k: Key, l: Key)
    requires IsFirst(keys, k) && IsFirst(keys, l)
    ensures k == l
  {
    if k != l {
      KeyBeforeAsymmetric(k, l);
    }
  }

  function First(keys: set<Key>): (k: Key)
    requires keys != {}
    ensures IsFirst(keys, k)
  {
    FirstExists(keys);
    assert forall k, l :: IsFirst(keys, k) && IsFirst(keys, l) ==> k == l by {
      forall k, l | IsFirst(keys, k) && IsFirst(keys, l)
        ensures k == l
      {
        FirstIsUnique(keys, k, l);
      }
    }
    var k :| k in keys && IsFirst(keys, k);
    k
  }

  /** ORDER BY observed_at, ticker. */
  function Ordered(keys: set<Key>): seq<Key> {
    if keys == {} then [] else [First(keys)] + Ordered(keys - {First(keys)})
  }

  /** Every selected key once, earliest first. */
  lemma {:induction false} OrderedSorts(keys: set<Key>)
    ensures forall k :: k in Ordered(keys) <==> k in keys
    ensures forall i, j :: 0 <= i < j < |Ordered(keys)| ==> KeyBefore(Ordered(keys)[i], Ordered(keys)[j])
    decreases keys
  {
    if keys != {} {
      OrderedSorts(keys - {First(keys)});
    }
  }

  class HistoryStore {
    var markets: map<string, MarketRow>
    var snapshots: map<Key, Book>
    var signals: map<Key, SignalRow>

    function Contents(): Tables
      reads this
    {
      Tables(markets, snapshots, signals)
    }

    constructor ()
      ensures Contents() == Tables(map[], map[], map[])
    {
      markets, snapshots, signals := map[], map[], map[];
    }

    method UpsertMarket(record: MarketRecord, seenAt: string)
      modifies this
      ensures Contents() == MarketUpserted(old(Contents()), record, seenAt)
    {
      if record.ticker in markets {
        var row := markets[record.ticker];
        var kept := row.record;
        markets := markets[record.ticker := MarketRow(
          MarketRecord(kept.ticker, kept.eventTicker, kept.seriesTicker, kept.title, record.status,
                       Coalesce(record.closeTime, kept.closeTime), Coalesce(record.result, kept.result),
                       Coalesce(record.settledAt, kept.settledAt)),
          row.firstSeenAt, seenAt)];
      } else {
        markets := markets[record.ticker := MarketRow(record, seenAt, seenAt)];
      }
    }

    method RecordSnapshot(key: Key, book: Book)
      modifies this
      ensures Contents() == SnapshotRecorded(old(Contents()), key, book)
      ensures forall row :: row in old(snapshots) && row.ticker in markets && row != key ==>
        RowAt(Contents(), row) == RowAt(old(Contents()), row)
      ensures key.ticker in markets ==>
        RowAt(Contents(), key).top == book.top && forall only :: key in Selected(old(Contents()), only) ==> key in Selected(Contents(), only)
    {
      snapshots := snapshots[key := book];
    }

    method RecordSignal(key: Key, signal: SignalRow)
      modifies this
      ensures Contents() == SignalRecorded(old(Contents()), key, signal)
    {
      signals := signals[key := signal];
    }

    /** `history_rows`: one row for each selected snapshot, in order. */
    method HistoryRows(resolvedOnly: bool) returns (rows: seq<HistoryRow>)
      ensures forall row :: row in rows ==> row.key in Selected(Contents(), resolvedOnly) && row == RowAt(Contents(), row.key)
      ensures forall key :: key in Selected(Contents(), resolvedOnly) ==> RowAt(Contents(), key) in rows
      ensures forall i, j :: 0 <= i < j < |rows| ==> KeyBefore(rows[i].key, rows[j].key)
      ensures forall row :: row in rows ==>
        row.key in snapshots && row.top == snapshots[row.key].top
        && row.key.ticker in markets && row.result == markets[row.key.ticker].record.result
        && (resolvedOnly ==> row.result != None)
    {
      var keys := Ordered(Selected(Contents(), resolvedOnly));
      OrderedSorts(Selected(Contents(), resolvedOnly));
      assert forall i :: 0 <= i < |keys| ==> keys[i] in keys;
      rows := [];
      for k := 0 to |keys|
        invariant |rows| == k
        invariant forall i :: 0 <= i < k ==> rows[i] == RowAt(Contents(), keys[i])
      {
        rows := rows + [RowAt(Contents(), keys[k])];
      }
      forall key | key in Selected(Contents(), resolvedOnly)
        ensures RowAt(Contents(), key) in rows
      {
        var i :| 0 <= i < |keys| && keys[i] == key;
        assert rows[i] == RowAt(Contents(), key);
      }
    }
  }

  // ----- No look-ahead ------------------------------------------------------------------------------

  /** The signal a row may use: stamped at or before the row, with none between. */
  ghost predicate IsAsOf(signals: map<Key, SignalRow>, at: Key, time: string) {
    && Key(at.ticker, time) in signals
    && !Less(at.observedAt, time)
    && forall k :: k in signals && k.ticker == at.ticker && Less(time, k.observedAt) ==> Less(at.observedAt, k.observedAt)
  }

  lemma LatestTimeIsAsOf(signals: map<Key, SignalRow>, at: Key, time: string)
    ensures LatestTime(signals, at) == Some(time) <==> IsAsOf(signals, at, time)
  {
    var times := TimesUpTo(signals, at);
    if IsAsOf(signals, at, time) {
      assert Key(at.ticker, time).observedAt in times;
      assert IsLatest(times, time);
      LatestIsUnique(times, time, Latest(times));
    }
  }

  /** Probability and version of a row come from one and the same signal, the latest at or before it; and
      they are missing only when there is none. */
  lemma RowUsesOneSignal(t: Tables, key: Key)
    requires key in t.snapshots && key.ticker in t.markets
    ensures var row := RowAt(t, key);
      || (exists time :: IsAsOf(t.signals, key, time)
            && row.fairProbability == Some(t.signals[Key(key.ticker, time)].fairProbability)
            && row.modelVersion == Version(t.signals[Key(key.ticker, time)]))
      || (row.fairProbability == None && row.modelVersion == None
            && forall k :: k in t.signals && k.ticker == key.ticker ==> Less(key.observedAt, k.observedAt))
  {
    var time := LatestTime(t.signals, key);
    if time.Some? {
      LatestTimeIsAsOf(t.signals, key, time.value);
    } else {
      forall k | k in t.signals && k.ticker == key.ticker
        ensures Less(key.observedAt, k.observedAt)
      {
        assert k.observedAt !in TimesUpTo(t.signals, key);
      }
    }
  }

  /** A recorded signal takes over a row: same ticker, not after the row, and not before the signal the
      row used so far. */
  predicate TakesOver(signals: map<Key, SignalRow>, at: Key, recorded: Key) {
    && recorded.ticker == at.ticker
    && !Less(at.observedAt, recorded.observedAt)
    && (LatestTime(signals, at).Some? ==> !Less(recorded.observedAt, LatestTime(signals, at).value))
  }

  lemma LatestAfterRecording(signals: map<Key, SignalRow>, at: Key, recorded: Key, signal: SignalRow)
    ensures LatestTime(signals[recorded := signal], at)
         == if TakesOver(signals, at, recorded) then Some(recorded.observedAt) else LatestTime(signals, at)
  {
    var after := signals[recorded := signal];
    var before := LatestTime(signals, at);
    if TakesOver(signals, at, recorded) {
      TakenOver(signals, at, recorded, signal);
    } else if before.Some? {
      LatestTimeIsAsOf(signals, at, before.value);
      NotTakenOver(signals, at, recorded, signal, before.value);
    } else {
      assert TimesUpTo(signals, at) == {};
      assert TimesUpTo(after, at) == {};
    }
  }

  lemma TakenOver(signals: map<Key, SignalRow>, at: Key, recorded: Key, signal: SignalRow)
    requires TakesOver(signals, at, recorded)
    ensures LatestTime(signals[recorded := signal], at) == Some(recorded.observedAt)
  {
    var after := signals[recorded := signal];
    forall k | k in after && k.ticker == at.ticker && Less(recorded.observedAt, k.observedAt)
      ensures Less(at.observedAt, k.observedAt)
    {
      Irreflexive(recorded.observedAt);
      if !Less(at.observedAt, k.observedAt) {
        assert k.observedAt in TimesUpTo(signals, at);
        var latest := LatestTime(signals, at).value;
        Trichotomy(recorded.observedAt, latest);
        if Less(latest, recorded.observedAt) {
          Transitive(latest, recorded.observedAt, k.observedAt);
        }
      }
    }
    assert recorded == Key(at.ticker, recorded.observedAt);
    LatestTimeIsAsOf(after, at, recorded.observedAt);
  }

  lemma NotTakenOver(signals: map<Key, SignalRow>, at: Key, recorded: Key, signal: SignalRow, time: string)
    requires !TakesOver(signals, at, recorded) && LatestTime(signals, at) == Some(time) && IsAsOf(signals, at, time)
    ensures LatestTime(signals[recorded := signal], at) == Some(time)
  {
    var after := signals[recorded := signal];
    if recorded.ticker == at.ticker && Less(recorded.observedAt, time) {
      Asymmetric(recorded.observedAt, time);
    }
    assert IsAsOf(after, at, time);
    LatestTimeIsAsOf(after, at, time);
  }

  /** Recording a signal changes a row exactly if it takes over and says something else. */
  lemma RecordingChangesExactly(t: Tables, key: Key, recorded: Key, signal: SignalRow)
    requires key in t.snapshots && key.ticker in t.markets
    ensures RowAt(SignalRecorded(t, recorded, signal), key) != RowAt(t, key) <==>
      && TakesOver(t.signals, key, recorded)
      && !(RowAt(t, key).fairProbability == Some(signal.fairProbability) && RowAt(t, key).modelVersion == Version(signal))
  {
    LatestAfterRecording(t.signals, key, recorded, signal);
    if !TakesOver(t.signals, key, recorded) && LatestTime(t.signals, key).Some? {
      var time := LatestTime(t.signals, key).value;
      Irreflexive(time);
      LatestTimeIsAsOf(t.signals, key, time);
      assert Key(key.ticker, time) != recorded;
    }
  }

  function AllRecorded(t: Tables, batch: seq<(Key, SignalRow)>): Tables {
    if batch == [] then t
    else SignalRecorded(AllRecorded(t, batch[..|batch| - 1]), batch[|batch| - 1].0, batch[|batch| - 1].1)
  }

  /** No look-ahead: whatever is recorded with later stamps, a row stays as it was. */
  lemma {:induction false} LaterSignalsChangeNothing(t: Tables, key: Key, batch: seq<(Key, SignalRow)>)
    requires key in t.snapshots && key.ticker in t.markets
    requires forall b :: b in batch ==> Less(key.observedAt, b.0.observedAt)
    ensures AllRecorded(t, batch).snapshots == t.snapshots && AllRecorded(t, batch).markets == t.markets
    ensures RowAt(AllRecorded(t, batch), key) == RowAt(t, key)
  {
    if batch != [] {
      var front, last := batch[..|batch| - 1], batch[|batch| - 1];
      LaterSignalsChangeNothing(t, key, front);
      RecordingChangesExactly(AllRecorded(t, front), key, last.0, last.1);
    }
  }

  /** For rows and signals stamped in UTC, "later" in the text sense is later in time. */
  lemma SignalsFromTheFutureAreUnseen(t: Tables, ticker: string, observed: Stamp, signalTicker: string, stamped: Stamp, signal: SignalRow)
    requires observed.Valid() && stamped.Valid() && observed.Instant() < stamped.Instant()
    requires ticker in t.markets && Key(ticker, IsoFormat(observed)) in t.snapshots
    ensures RowAt(SignalRecorded(t, Key(signalTicker, IsoFormat(stamped)), signal), Key(ticker, IsoFormat(observed)))
         == RowAt(t, Key(ticker, IsoFormat(observed)))
  {
    TextOrderIsTimeOrder(observed, stamped);
    RecordingChangesExactly(t, Key(ticker, IsoFormat(observed)), Key(signalTicker, IsoFormat(stamped)), signal);
  }

  /** The signal a UTC row uses was stamped no later than the row, in time. */
  lemma AsOfIsNotLater(t: Tables, ticker: string, observed: Stamp, stamped: Stamp)
    requires observed.Valid() && stamped.Valid()
    requires LatestTime(t.signals, Key(ticker, IsoFormat(observed))) == Some(IsoFormat(stamped))
    ensures stamped.Instant() <= observed.Instant()
    ensures forall other: Stamp ::
      (other.Valid() && Key(ticker, IsoFormat(other)) in t.signals && other.Instant() <= observed.Instant())
      ==> other.Instant() <= stamped.Instant()
  {
    var at := Key(ticker, IsoFormat(observed));
    LatestTimeIsAsOf(t.signals, at, IsoFormat(stamped));
    TextOrderIsTimeOrder(observed, stamped);
    forall other: Stamp | other.Valid() && Key(ticker, IsoFormat(other)) in t.signals && other.Instant() <= observed.Instant()
      ensures other.Instant() <= stamped.Instant()
    {
      TextOrderIsTimeOrder(observed, other);
      TextOrderIsTimeOrder(stamped, other);
      assert Key(ticker, IsoFormat(other)).ticker == ticker;
    }
  }

  // ----- What a snapshot adds ----------------------------------------------------------------------------

  /** Recording a snapshot adds at most its own row to the export, and does so exactly when its market is
      known (and resolved, if only those are exported); it never removes one. */
  lemma SnapshotAddsItsRow(t: Tables, key: Key, book: Book, resolvedOnly: bool)
    ensures var before, after := Selected(t, resolvedOnly), Selected(SnapshotRecorded(t, key, book), resolvedOnly);
      && before <= after <= before + {key}
      && (key in after <==> key.ticker in t.markets && (resolvedOnly ==> t.markets[key.ticker].record.result.Some?))
  {
  }

  /** An exported row changes exactly if the snapshot is for its ticker and time and shows another top of
      book (its status is not exported); every other row, and what any row says of signal and result, stays. */
  lemma SnapshotChangesExactly(t: Tables, key: Key, book: Book, row: Key)
    requires row in t.snapshots && row.ticker in t.markets
    ensures RowAt(SnapshotRecorded(t, key, book), row) != RowAt(t, row) <==> row == key && book.top != t.snapshots[key].top
    ensures RowAt(SnapshotRecorded(t, key, book), row) == RowAt(t, row).(top := if row == key then book.top else t.snapshots[row].top)
  {
  }

  // ----- What the market table keeps -------------------------------------------------------------------

  /** The first record of a market is stored as it is. A later one replaces its status, replaces close time, result
      and settlement where it has them, and leaves names and first sighting; no other market changes. */
  lemma UpsertStores(t: Tables, record: MarketRecord, seenAt: string)
    ensures var after := MarketUpserted(t, record, seenAt);
      && after.snapshots == t.snapshots && after.signals == t.signals
      && after.markets.Keys == t.markets.Keys + {record.ticker}
      && (forall other :: other in t.markets && other != record.ticker ==> after.markets[other] == t.markets[other])
      && after.markets[record.ticker].lastSeenAt == seenAt
      && (record.ticker !in t.markets ==> after.markets[record.ticker] == MarketRow(record, seenAt, seenAt))
      && (record.ticker in t.markets ==>
            var row, was := after.markets[record.ticker], t.markets[record.ticker];
            && row.firstSeenAt == was.firstSeenAt
            && row.record.status == record.status
            && row.record.title == was.record.title && row.record.eventTicker == was.record.eventTicker
            && row.record.seriesTicker == was.record.seriesTicker
            && row.record.closeTime == (if record.closeTime == None then was.record.closeTime else record.closeTime)
            && row.record.result == (if record.result == None then was.record.result else record.result)
            && row.record.settledAt == (if record.settledAt == None then was.record.settledAt else record.settledAt))
  {
  }

  /** An update without a result never unresolves a market, so an exported row stays in the export. */
  lemma UpsertKeepsSelection(t: Tables, record: MarketRecord, seenAt: string, resolvedOnly: bool)
    ensures Selected(t, resolvedOnly) <= Selected(MarketUpserted(t, record, seenAt), resolvedOnly)
  {
  }

  /** An export changes its result column only when the exchange reports a different result. */
  lemma UpsertChangesExactly(t: Tables, record: MarketRecord, seenAt: string, key: Key)
    requires key in t.snapshots && key.ticker in t.markets
    ensures RowAt(MarketUpserted(t, record, seenAt), key) != RowAt(t, key) <==>
      record.ticker == key.ticker && record.result.Some? && record.result != t.markets[key.ticker].record.result
  {
  }
}
