/**
 Overlapping and repeated scans converge: the transfer table depends only on which blocks were
 served to them.
 */
module IndexConvergence {
  import opened Chain
  import opened ChainScan
  import opened TransferIndex
  import opened Wrappers

  // ---- Ledgers -------------------------------------------------------------------------

  ghost predicate Placed(ledger: Ledger) {
    forall b, i {:trigger ledger(b)[i]} :: 0 <= i < |ledger(b)| ==> ledger(b)[i].block == b
  }

  /** A transaction lies in one block, so logs with the same key share it. */
  ghost predicate OneBlockPerKey(ledger: Ledger) {
    forall b, i, c, j {:trigger ledger(b)[i], ledger(c)[j]} ::
      0 <= i < |ledger(b)| && 0 <= j < |ledger(c)| && KeyOf(ledger(b)[i]) == KeyOf(ledger(c)[j]) ==> b == c
  }

  /** Log i is the first of its block's logs with its key. */
  predicate IsFirst(logs: seq<Log>, i: int) {
    0 <= i < |logs| && forall j :: 0 <= j < i ==> KeyOf(logs[j]) != KeyOf(logs[i])
  }

  // ---- Keys ----------------------------------------------------------------------------

  function Keys(rows: seq<Transfer>): set<Key> {
    set i | 0 <= i < |rows| :: rows[i].key
  }

  function LogKeys(logs: seq<Log>): set<Key> {
    set i | 0 <= i < |logs| :: KeyOf(logs[i])
  }

  lemma HasIff(rows: seq<Transfer>, key: Key)
    ensures Has(rows, key) <==> key in Keys(rows)
  {
  }

  lemma LogKeysAppend(logs: seq<Log>, log: Log)
    ensures LogKeys(logs + [log]) == LogKeys(logs) + {KeyOf(log)}
  {
    var all := logs + [log];
    assert all[|logs|] == log;
    forall k | k in LogKeys(logs)
      ensures k in LogKeys(all)
    {
      var i :| 0 <= i < |logs| && KeyOf(logs[i]) == k;
      assert all[i] == logs[i];
    }
  }

  lemma KeysAppend(rows: seq<Transfer>, row: Transfer)
    ensures Keys(rows + [row]) == Keys(rows) + {row.key}
  {
    var all := rows + [row];
    assert all[|rows|] == row;
    forall k | k in Keys(rows)
      ensures k in Keys(all)
    {
      var i :| 0 <= i < |rows| && rows[i].key == k;
      assert all[i] == rows[i];
    }
  }

  /** A scan adds exactly the keys of its logs. */
  lemma {:induction false} StoreKeys(t: Table, logs: seq<Log>, wallets: WalletMap, clock: Clock)
    ensures Keys(Store(t, logs, wallets, clock).rows) == Keys(t.rows) + LogKeys(logs)
  {
    if logs != [] {
      var init, log := logs[..|logs| - 1], logs[|logs| - 1];
      StoreKeys(t, init, wallets, clock);
      assert logs == init + [log];
      LogKeysAppend(init, log);
      var before := Store(t, init, wallets, clock);
      HasIff(before.rows, KeyOf(log));
      KeysAppend(before.rows, RowOf(before.nextId, log, wallets, clock));
    }
  }

  // ---- Rows ----------------------------------------------------------------------------

  /** The row holds the first log of its key in its block. */
  ghost predicate FromLedger(ledger: Ledger, r: Transfer) {
    exists i :: IsFirst(ledger(r.block), i) && KeyOf(ledger(r.block)[i]) == r.key && ledger(r.block)[i].wei == r.wei
  }

  ghost predicate UniqueKeys(rows: seq<Transfer>) {
    forall i, j :: 0 <= i < j < |rows| ==> rows[i].key != rows[j].key
  }

  ghost predicate Faithful(ledger: Ledger, t: Table) {
    UniqueKeys(t.rows) && forall i :: 0 <= i < |t.rows| ==> FromLedger(ledger, t.rows[i])
  }

  lemma InsertKeeps(ledger: Ledger, t: Table, b: int, n: int, wallets: WalletMap, clock: Clock)
    requires Placed(ledger) && Faithful(ledger, t) && 0 <= n < |ledger(b)|
    requires LogKeys(ledger(b)[..n]) <= Keys(t.rows)
    ensures Faithful(ledger, Insert(t, ledger(b)[n], wallets, clock))
  {
    var log := ledger(b)[n];
    HasIff(t.rows, KeyOf(log));
    if !Has(t.rows, KeyOf(log)) {
      forall j | 0 <= j < n
        ensures KeyOf(ledger(b)[j]) != KeyOf(log)
      {
        assert ledger(b)[..n][j] == ledger(b)[j];
        assert KeyOf(ledger(b)[j]) in LogKeys(ledger(b)[..n]);
      }
      assert IsFirst(ledger(b), n);
      assert FromLedger(ledger, RowOf(t.nextId, log, wallets, clock));
    }
  }

  /** Storing a whole block, in order, keeps the table faithful. */
  lemma {:induction false} StoreBlockKeeps(ledger: Ledger, t: Table, b: int, n: int, wallets: WalletMap, clock: Clock)
    requires Placed(ledger) && Faithful(ledger, t) && 0 <= n <= |ledger(b)|
    ensures Faithful(ledger, Store(t, ledger(b)[..n], wallets, clock))
  {
    if n > 0 {
      StoreBlockKeeps(ledger, t, b, n - 1, wallets, clock);
      assert ledger(b)[..n][..n - 1] == ledger(b)[..n - 1];
      StoreKeys(t, ledger(b)[..n - 1], wallets, clock);
      InsertKeeps(ledger, Store(t, ledger(b)[..n - 1], wallets, clock), b, n - 1, wallets, clock);
    }
  }

  /** So does what a scan was served, request by request. */
  lemma {:induction false} StoreServedKeeps(
    ledger: Ledger, t: Table, served: Span -> bool, spans: seq<Span>, wallets: WalletMap, clock: Clock)
    requires Placed(ledger) && Faithful(ledger, t)
    ensures Faithful(ledger, Store(t, AskAll(Answering(ledger, served), spans), wallets, clock))
  {
    if spans != [] {
      var init, span := spans[..|spans| - 1], spans[|spans| - 1];
      var node := Answering(ledger, served);
      StoreServedKeeps(ledger, t, served, init, wallets, clock);
      var before := Store(t, AskAll(node, init), wallets, clock);
      StoreConcat(t, AskAll(node, init), Ask(node, span), wallets, clock);
      if served(span) {
        StoreRangeKeeps(ledger, before, span.first, span.last, wallets, clock);
      }
    }
  }

  lemma {:induction false} StoreRangeKeeps(
    ledger: Ledger, t: Table, first: int, last: int, wallets: WalletMap, clock: Clock)
    requires Placed(ledger) && Faithful(ledger, t)
    ensures Faithful(ledger, Store(t, LogsIn(ledger, first, last), wallets, clock))
    decreases last - first
  {
    if first <= last {
      assert ledger(first)[..|ledger(first)|] == ledger(first);
      StoreBlockKeeps(ledger, t, first, |ledger(first)|, wallets, clock);
      StoreConcat(t, ledger(first), LogsIn(ledger, first + 1, last), wallets, clock);
      StoreRangeKeeps(ledger, Store(t, ledger(first), wallets, clock), first + 1, last, wallets, clock);
    }
  }

  // ---- Sequences of scans --------------------------------------------------------------

  type Positive = n: int | n >= 1 witness 1

  /** One scan of a range in requests of at most `size` blocks; `served` says which of them some
      provider answers with a list. */
  datatype Scan = Scan(first: int, last: int, size: Positive, served: Span -> bool, wallets: WalletMap, clock: Clock)

  function Spans(s: Scan): seq<Span> {
    SpansOf(s.first, s.last, s.size)
  }

  /** A node that answers some requests, and those with the ledger's logs. */
  function Answering(ledger: Ledger, served: Span -> bool): Node {
    (first: int, last: int) => if served(Span(first, last)) then Some(LogsIn(ledger, first, last)) else None
  }

  /** What the forward scan returns: a request that fails counts as one without logs. */
  function ScanLogs(ledger: Ledger, s: Scan): seq<Log> {
    AskAll(Answering(ledger, s.served), Spans(s))
  }

  function AfterScans(ledger: Ledger, scans: seq<Scan>): Table {
    if scans == [] then Table([], 1)
    else
      var s := scans[|scans| - 1];
      Store(AfterScans(ledger, scans[..|scans| - 1]), ScanLogs(ledger, s), s.wallets, s.clock)
  }

  /** A served request covers the block. */
  ghost predicate Reaches(served: Span -> bool, spans: seq<Span>, block: int) {
    exists span :: span in spans && served(span) && Within(span, block)
  }

  ghost predicate Covers(scans: seq<Scan>, block: int) {
    exists i :: 0 <= i < |scans| && Reaches(scans[i].served, Spans(scans[i]), block)
  }

  lemma ReachesLast(served: Span -> bool, spans: seq<Span>, block: int)
    requires spans != []
    ensures Reaches(served, spans, block) <==>
            || Reaches(served, spans[..|spans| - 1], block)
            || (served(spans[|spans| - 1]) && Within(spans[|spans| - 1], block))
  {
    assert spans == spans[..|spans| - 1] + [spans[|spans| - 1]];
  }

  lemma ReachesInRange(s: Scan, block: int)
    requires Reaches(s.served, Spans(s), block)
    ensures s.first <= block <= s.last
  {
    SpansCover(s.first, s.last, s.size, block);
  }

  /** A scan all of whose requests are served covers its whole range. */
  lemma ServedCoversRange(s: Scan, block: int)
    requires forall span :: span in Spans(s) ==> s.served(span)
    ensures Reaches(s.served, Spans(s), block) <==> s.first <= block <= s.last
  {
    SpansCover(s.first, s.last, s.size, block);
  }

  /** Some log of the block carries the key. */
  ghost predicate Carries(ledger: Ledger, block: int, key: Key) {
    key in LogKeys(ledger(block))
  }

  lemma {:induction false} ScansFaithful(ledger: Ledger, scans: seq<Scan>)
    requires Placed(ledger)
    ensures Faithful(ledger, AfterScans(ledger, scans))
  {
    if scans != [] {
      ScansFaithful(ledger, scans[..|scans| - 1]);
      var s := scans[|scans| - 1];
      StoreServedKeeps(ledger, AfterScans(ledger, scans[..|scans| - 1]), s.served, Spans(s), s.wallets, s.clock);
    }
  }

  lemma {:induction false} RangeKeys(ledger: Ledger, first: int, last: int, key: Key)
    ensures key in LogKeys(LogsIn(ledger, first, last)) <==> exists b :: first <= b <= last && Carries(ledger, b, key)
  {
    var logs := LogsIn(ledger, first, last);
    if key in LogKeys(logs) {
      var i :| 0 <= i < |logs| && KeyOf(logs[i]) == key;
      LogsInMember(ledger, first, last, logs[i]);
      var b :| first <= b <= last && logs[i] in ledger(b);
      assert Carries(ledger, b, key);
    }
    if b :| first <= b <= last && Carries(ledger, b, key) {
      var i :| 0 <= i < |ledger(b)| && KeyOf(ledger(b)[i]) == key;
      LogsInMember(ledger, first, last, ledger(b)[i]);
      var j :| 0 <= j < |logs| && logs[j] == ledger(b)[i];
    }
  }

  lemma {:induction false} ServedKeys(ledger: Ledger, served: Span -> bool, spans: seq<Span>, key: Key)
    ensures key in LogKeys(AskAll(Answering(ledger, served), spans)) <==>
            exists b :: Reaches(served, spans, b) && Carries(ledger, b, key)
  {
    if spans != [] {
      var init, span := spans[..|spans| - 1], spans[|spans| - 1];
      var node := Answering(ledger, served);
      ServedKeys(ledger, served, init, key);
      LogKeysConcat(AskAll(node, init), Ask(node, span));
      RangeKeys(ledger, span.first, span.last, key);
      forall b
        ensures Reaches(served, spans, b) <==> Reaches(served, init, b) || (served(span) && Within(span, b))
      {
        ReachesLast(served, spans, b);
      }
    }
  }

  lemma LogKeysConcat(a: seq<Log>, b: seq<Log>)
    ensures LogKeys(a + b) == LogKeys(a) + LogKeys(b)
  {
    var all := a + b;
    assert forall i :: 0 <= i < |a| ==> all[i] == a[i];
    assert forall i :: 0 <= i < |b| ==> all[|a| + i] == b[i];
    assert forall i :: |a| <= i < |all| ==> all[i] == b[i - |a|];
  }

  lemma CoversLast(scans: seq<Scan>, block: int)
    requires scans != []
    ensures Covers(scans, block) <==>
            || Covers(scans[..|scans| - 1], block)
            || Reaches(scans[|scans| - 1].served, Spans(scans[|scans| - 1]), block)
  {
    var init := scans[..|scans| - 1];
    assert forall i :: 0 <= i < |init| ==> scans[i] == init[i];
  }

  /** Some block of a served request carries the key. */
  ghost predicate Scanned(ledger: Ledger, scans: seq<Scan>, key: Key) {
    exists b :: Covers(scans, b) && Carries(ledger, b, key)
  }

  lemma ScannedLast(ledger: Ledger, scans: seq<Scan>, key: Key)
    requires scans != []
    ensures Scanned(ledger, scans, key) <==>
            || Scanned(ledger, scans[..|scans| - 1], key)
            || key in LogKeys(ScanLogs(ledger, scans[|scans| - 1]))
  {
    var s := scans[|scans| - 1];
    ServedKeys(ledger, s.served, Spans(s), key);
    forall b
      ensures Covers(scans, b) <==> Covers(scans[..|scans| - 1], b) || Reaches(s.served, Spans(s), b)
    {
      CoversLast(scans, b);
    }
  }

  /** After any scans, overlapping or not, the table's keys are those of the logs in the union of
      the served requests: a failed request loses its blocks until another scan is served them. */
  lemma {:induction false} ScansKeys(ledger: Ledger, scans: seq<Scan>, key: Key)
    ensures key in Keys(AfterScans(ledger, scans).rows) <==> Scanned(ledger, scans, key)
  {
    if scans != [] {
      var init, s := scans[..|scans| - 1], scans[|scans| - 1];
      ScansKeys(ledger, init, key);
      ScannedLast(ledger, scans, key);
      StoreKeys(AfterScans(ledger, init), ScanLogs(ledger, s), s.wallets, s.clock);
    }
  }

  /** Rows with the same key agree on block and amount, whichever tables they come from. */
  lemma SameKeySameFacts(ledger: Ledger, a: Transfer, b: Transfer)
    requires OneBlockPerKey(ledger) && FromLedger(ledger, a) && FromLedger(ledger, b) && a.key == b.key
    ensures a.block == b.block && a.wei == b.wei
  {
    var i :| IsFirst(ledger(a.block), i) && KeyOf(ledger(a.block)[i]) == a.key && ledger(a.block)[i].wei == a.wei;
    var j :| IsFirst(ledger(b.block), j) && KeyOf(ledger(b.block)[j]) == b.key && ledger(b.block)[j].wei == b.wei;
    assert a.block == b.block;
    assert !(i < j) && !(j < i);
  }

  /** Two histories that were served the same blocks, in whatever order, chunks, repetitions and
      failures, leave tables with the same keys, each once, with the same block and amount. */
  lemma {:induction false} ScanOrderIrrelevant(ledger: Ledger, one: seq<Scan>, two: seq<Scan>)
    requires Placed(ledger) && OneBlockPerKey(ledger)
    requires forall b :: Covers(one, b) <==> Covers(two, b)
    ensures UniqueKeys(AfterScans(ledger, one).rows)
    ensures Keys(AfterScans(ledger, one).rows) == Keys(AfterScans(ledger, two).rows)
    ensures forall i, j :: 0 <= i < |AfterScans(ledger, one).rows| && 0 <= j < |AfterScans(ledger, two).rows| ==>
      var a, b := AfterScans(ledger, one).rows[i], AfterScans(ledger, two).rows[j];
      a.key == b.key ==> a.block == b.block && a.wei == b.wei
  {
    var t1, t2 := AfterScans(ledger, one), AfterScans(ledger, two);
    ScansFaithful(ledger, one);
    ScansFaithful(ledger, two);
    forall key
      ensures key in Keys(t1.rows) <==> key in Keys(t2.rows)
    {
      ScansKeys(ledger, one, key);
      ScansKeys(ledger, two, key);
    }
    forall i, j | 0 <= i < |t1.rows| && 0 <= j < |t2.rows| && t1.rows[i].key == t2.rows[j].key
      ensures t1.rows[i].block == t2.rows[j].block && t1.rows[i].wei == t2.rows[j].wei
    {
      SameKeySameFacts(ledger, t1.rows[i], t2.rows[j]);
    }
  }
}
