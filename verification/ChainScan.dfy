/**
 Chunked log scans: the forward scan of the indexer (onchain_indexer.py) and the backward scan of
 the hire statistics (client_bscscan.py).
 */
module ChainScan {
  import opened Chain
  import opened PyText
  import opened Wrappers

  /** An inclusive block range a node is asked for. */
  datatype Span = Span(first: int, last: int)

  predicate Within(span: Span, block: int) {
    span.first <= block <= span.last
  }

  function Min(a: int, b: int): int {
    if a <= b then a else b
  }

  /** The range `get_logs` really requests: trimmed to `maxRange` blocks. */
  function Trim(span: Span, maxRange: int): Span {
    if span.last - span.first > maxRange - 1 then Span(span.first, span.first + maxRange - 1) else span
  }

  /** The logs one request yields; a failed one yields none. */
  function Ask(node: Node, span: Span): seq<Log> {
    match node(span.first, span.last)
    case Some(logs) => logs
    case None => []
  }

  function AskAll(node: Node, spans: seq<Span>): seq<Log> {
    if spans == [] then [] else AskAll(node, spans[..|spans| - 1]) + Ask(node, spans[|spans| - 1])
  }

  lemma AskServed(node: Node, ledger: Ledger, span: Span)
    requires Serves(node, ledger) && span.first <= span.last
    ensures Ask(node, span) == LogsIn(ledger, span.first, span.last)
  {
    assert node(span.first, span.last) == Some(LogsIn(ledger, span.first, span.last));
  }

  lemma {:induction false} AskAllAppend(node: Node, spans: seq<Span>, span: Span)
    ensures AskAll(node, spans + [span]) == AskAll(node, spans) + Ask(node, span)
  {
    assert (spans + [span])[..|spans|] == spans;
  }

  // ---- Forward -------------------------------------------------------------------------

  /** Consecutive, non-empty ranges of at most `size` blocks from `first` up to before `next`. */
  ghost predicate Tiles(spans: seq<Span>, first: int, next: int, size: int) {
    && (spans == [] ==> first == next)
    && (spans != [] ==> spans[0].first == first && spans[|spans| - 1].last + 1 == next)
    && (forall i :: 0 <= i < |spans| ==> spans[i].first <= spans[i].last < spans[i].first + size)
    && (forall i, j :: 0 <= i < j < |spans| && j == i + 1 ==> spans[j].first == spans[i].last + 1)
  }

  /** The requests of a forward scan: from the front, `size` blocks each and the rest in the last. */
  function SpansOf(first: int, last: int, size: int): seq<Span>
    requires size >= 1
    decreases last - first
  {
    if first > last then []
    else [Span(first, Min(first + size - 1, last))] + SpansOf(first + size, last, size)
  }

  /** They cover the range and nothing else. */
  lemma {:induction false} SpansCover(first: int, last: int, size: int, block: int)
    requires size >= 1
    ensures (exists span :: span in SpansOf(first, last, size) && Within(span, block)) <==> first <= block <= last
    decreases last - first
  {
    if first <= last {
      var head, rest := Span(first, Min(first + size - 1, last)), SpansOf(first + size, last, size);
      SpansCover(first + size, last, size, block);
      assert SpansOf(first, last, size) == [head] + rest;
      assert head in SpansOf(first, last, size);
      assert forall span :: span in SpansOf(first, last, size) <==> span == head || span in rest;
    }
  }

  /** The block after a range; an empty range ends where it starts. */
  function Past(first: int, last: int): int {
    if first <= last then last + 1 else first
  }

  /** `scan_u_transfers` and `scan_agent_nft_events`: the requests tile the range, none of them
      trimmed, and the result is their answers in order: from a node that serves the ledger, the
      range's logs. */
  method ScanForward(node: Node, first: int, last: int, maxRange: int, ghost ledger: Ledger)
    returns (logs: seq<Log>, ghost spans: seq<Span>)
    requires maxRange >= 1
    ensures Tiles(spans, first, Past(first, last), maxRange)
    ensures spans == SpansOf(first, last, maxRange) && logs == AskAll(node, spans)
    ensures Serves(node, ledger) ==> logs == LogsIn(ledger, first, last)
  {
    logs, spans := [], [];
    var current := first;
    while current <= last
      invariant spans + SpansOf(current, last, maxRange) == SpansOf(first, last, maxRange)
      invariant logs == AskAll(node, spans)
      decreases last - current
    {
      var batch := Span(current, Min(current + maxRange - 1, last));
      var asked := Trim(batch, maxRange);
      AskAllAppend(node, spans, asked);
      logs := logs + Ask(node, asked);
      spans := SpansAppend(spans, first, last, maxRange, current);
      current := batch.last + 1;
    }
    assert SpansOf(current, last, maxRange) == [] && spans + [] == spans;
    SpansOneShot(node, ledger, first, last, maxRange);
  }

  lemma SpansAppend(spans: seq<Span>, first: int, last: int, size: int, current: int) returns (longer: seq<Span>)
    requires size >= 1 && current <= last && spans + SpansOf(current, last, size) == SpansOf(first, last, size)
    ensures var next := Span(current, Min(current + size - 1, last));
      longer == spans + [next] && longer + SpansOf(next.last + 1, last, size) == SpansOf(first, last, size)
  {
    var next := Span(current, Min(current + size - 1, last));
    longer := spans + [next];
    assert SpansOf(current, last, size) == [next] + SpansOf(next.last + 1, last, size);
    assert longer + SpansOf(next.last + 1, last, size) == spans + ([next] + SpansOf(next.last + 1, last, size));
  }

  lemma {:induction false} SpansTile(first: int, last: int, size: int)
    requires size >= 1
    ensures Tiles(SpansOf(first, last, size), first, Past(first, last), size)
    decreases last - first
  {
    if first <= last {
      var head, rest := Span(first, Min(first + size - 1, last)), SpansOf(first + size, last, size);
      SpansTile(first + size, last, size);
      assert SpansOf(first, last, size) == [head] + rest;
    }
  }

  lemma TilesLast(spans: seq<Span>, first: int, next: int, size: int) returns (init: seq<Span>, span: Span)
    requires Tiles(spans, first, next, size) && spans != []
    ensures spans == init + [span] && |init| < |spans|
    ensures Tiles(init, first, span.first, size) && span.first <= span.last == next - 1
  {
    init, span := spans[..|spans| - 1], spans[|spans| - 1];
    assert forall i :: 0 <= i < |init| ==> init[i] == spans[i];
    if init != [] {
      assert spans[|init|].first == spans[|init| - 1].last + 1;
    }
  }

  lemma {:induction false} TileStep(node: Node, ledger: Ledger, init: seq<Span>, span: Span, first: int)
    requires Serves(node, ledger) && first <= span.first <= span.last
    requires AskAll(node, init) == LogsIn(ledger, first, span.first - 1)
    ensures AskAll(node, init + [span]) == LogsIn(ledger, first, span.last)
  {
    AskAllAppend(node, init, span);
    AskServed(node, ledger, span);
    LogsInSplit(ledger, first, span.first - 1, span.last);
  }

  /** Chunking is invisible: against a node that serves the ledger, any tiling of a range yields
      the range's logs in order, whatever the chunk size. */
  lemma {:induction false} TilingIsOneShot(
    node: Node, ledger: Ledger, spans: seq<Span>, first: int, next: int, size: int)
    requires Serves(node, ledger) && Tiles(spans, first, next, size)
    ensures first <= next && AskAll(node, spans) == LogsIn(ledger, first, next - 1)
    decreases |spans|
  {
    if spans != [] {
      var init, span := TilesLast(spans, first, next, size);
      TilingIsOneShot(node, ledger, init, first, span.first, size);
      TileStep(node, ledger, init, span, first);
    }
  }

  lemma {:induction false} SpansOneShot(node: Node, ledger: Ledger, first: int, last: int, size: int)
    requires size >= 1
    ensures Tiles(SpansOf(first, last, size), first, Past(first, last), size)
    ensures Serves(node, ledger) ==> AskAll(node, SpansOf(first, last, size)) == LogsIn(ledger, first, last)
  {
    SpansTile(first, last, size);
    if Serves(node, ledger) {
      TilingIsOneShot(node, ledger, SpansOf(first, last, size), first, Past(first, last), size);
    }
  }

  // ---- Backward ------------------------------------------------------------------------

  const NODE_LIMIT := 10

  /** The k-th window of the backward scan, counted from the head. */
  function Window(head: int, size: int, k: nat): Span {
    Span(head - k * size - (size - 1), head - k * size)
  }

  /** The number of requests: `scanned` grows by `size` until it reaches `maxBlocks`. */
  function Rounds(maxBlocks: int, size: int): (k: nat)
    requires size >= 1
    ensures maxBlocks <= k * size
    ensures k > 0 ==> (k - 1) * size < maxBlocks
  {
    if maxBlocks <= 0 then 0 else (maxBlocks - 1) / size + 1
  }

  /** `scan_transfers`: one request per window, each trimmed to ten blocks. */
  method ScanBackward(node: Node, head: int, maxBlocks: int, size: int) returns (logs: seq<Log>, spans: seq<Span>)
    requires size >= 1
    ensures |spans| == Rounds(maxBlocks, size)
    ensures forall k :: 0 <= k < |spans| ==> spans[k] == Trim(Window(head, size, k), NODE_LIMIT)
    ensures logs == AskAll(node, spans)
  {
    logs, spans := [], [];
    var scanned := 0;
    while scanned < maxBlocks
      invariant scanned == |spans| * size
      invariant |spans| > 0 ==> scanned - size < maxBlocks
      invariant forall k :: 0 <= k < |spans| ==> spans[k] == Trim(Window(head, size, k), NODE_LIMIT)
      invariant logs == AskAll(node, spans)
      decreases maxBlocks - scanned
    {
      var window := Span(head - scanned - (size - 1), head - scanned);
      NextWindow(head, size, |spans|, scanned);
      var asked := Trim(window, NODE_LIMIT);
      AskAllAppend(node, spans, asked);
      logs := logs + Ask(node, asked);
      spans := spans + [asked];
      scanned := scanned + size;
    }
    RoundsUnique(maxBlocks, size, |spans|);
  }

  lemma NextWindow(head: int, size: int, k: nat, scanned: int)
    requires scanned == k * size
    ensures Window(head, size, k) == Span(head - scanned - (size - 1), head - scanned)
    ensures scanned + size == (k + 1) * size
  {
  }

  lemma RoundsUnique(maxBlocks: int, size: int, k: nat)
    requires size >= 1 && maxBlocks <= k * size && (k > 0 ==> (k - 1) * size < maxBlocks)
    ensures k == Rounds(maxBlocks, size)
  {
    var r := Rounds(maxBlocks, size);
    if k < r {
      MulMonotone(k, r - 1, size);
    } else if r < k {
      MulMonotone(r, k - 1, size);
    }
  }

  lemma MulMonotone(a: int, b: int, c: int)
    requires a <= b && c >= 0
    ensures a * c <= b * c
  {
  }

  /** Block `head - offset` lies in window `offset / size` and in no other; the request for that
      window reaches it exactly when it is among the window's lowest ten blocks. */
  lemma BackwardCoverage(head: int, size: int, offset: nat, k: nat)
    requires size >= 1
    ensures Within(Trim(Window(head, size, k), NODE_LIMIT), head - offset)
        <==> k == offset / size && size - offset % size <= NODE_LIMIT
  {
    assert offset == (offset / size) * size + offset % size;
    if k < offset / size {
      MulMonotone(k + 1, offset / size, size);
    } else if k > offset / size {
      MulMonotone(offset / size + 1, k, size);
    }
  }

  /** Some request of the backward scan asks for the block. */
  ghost predicate Requested(head: int, size: int, rounds: nat, block: int) {
    exists k: nat :: k < rounds && Within(Trim(Window(head, size, k), NODE_LIMIT), block)
  }

  /** Every scanned block is requested exactly when windows hold at most ten blocks; larger
      windows lose the head block already. */
  lemma BackwardCoversAllIff(head: int, maxBlocks: int, size: int)
    requires size >= 1 && maxBlocks >= 1
    ensures size <= NODE_LIMIT <==>
            (forall block :: head - Rounds(maxBlocks, size) * size < block <= head ==>
               Requested(head, size, Rounds(maxBlocks, size), block))
  {
    var n := Rounds(maxBlocks, size);
    if size <= NODE_LIMIT {
      forall block | head - n * size < block <= head
        ensures Requested(head, size, n, block)
      {
        var offset := head - block;
        BackwardCoverage(head, size, offset, offset / size);
        if offset / size >= n {
          MulMonotone(n, offset / size, size);
        }
        assert Within(Trim(Window(head, size, offset / size), NODE_LIMIT), block);
      }
    } else {
      MulMonotone(1, n, size);
      assert head - n * size < head <= head;
      forall k: nat | k < n
        ensures !Within(Trim(Window(head, size, k), NODE_LIMIT), head)
      {
        BackwardCoverage(head, size, 0, k);
      }
      assert !Requested(head, size, n, head);
    }
  }

  // ---- Hire statistics -----------------------------------------------------------------

  predicate Counted(log: Log, minWei: nat) {
    log.wei >= minWei
  }

  function Sender(log: Log): string {
    Lower(ExtractAddr(log.fromTopic))
  }

  /** Distinct senders of transfers that are not dust. */
  function Senders(logs: seq<Log>, minWei: nat): set<string> {
    set i | 0 <= i < |logs| && Counted(logs[i], minWei) :: Sender(logs[i])
  }

  /** Their total amount. */
  function Volume(logs: seq<Log>, minWei: nat): nat {
    if logs == [] then 0
    else Volume(logs[..|logs| - 1], minWei) + if Counted(logs[|logs| - 1], minWei) then logs[|logs| - 1].wei else 0
  }

  /** A sender is the payer of a transfer that is not dust, in lower case; a single transfer counts its
      amount unless it is dust, and volumes add up. */
  lemma {:induction false} StatsAre(logs: seq<Log>, log: Log, minWei: nat, sender: string)
    ensures sender in Senders(logs, minWei) <==>
            exists i :: 0 <= i < |logs| && logs[i].wei >= minWei && sender == Lower(ExtractAddr(logs[i].fromTopic))
    ensures Volume([log], minWei) == if log.wei >= minWei then log.wei else 0
    ensures Volume(logs + [log], minWei) == Volume(logs, minWei) + Volume([log], minWei)
  {
    assert [log][..0] == [];
    VolumeConcat(logs, [log], minWei);
  }

  lemma SendersConcat(a: seq<Log>, b: seq<Log>, minWei: nat)
    ensures Senders(a + b, minWei) == Senders(a, minWei) + Senders(b, minWei)
  {
    forall s | s in Senders(b, minWei)
      ensures s in Senders(a + b, minWei)
    {
      var i :| 0 <= i < |b| && Counted(b[i], minWei) && Sender(b[i]) == s;
      assert (a + b)[|a| + i] == b[i];
    }
    forall s | s in Senders(a, minWei)
      ensures s in Senders(a + b, minWei)
    {
      var i :| 0 <= i < |a| && Counted(a[i], minWei) && Sender(a[i]) == s;
      assert (a + b)[i] == a[i];
    }
  }

  lemma {:induction false} VolumeConcat(a: seq<Log>, b: seq<Log>, minWei: nat)
    ensures Volume(a + b, minWei) == Volume(a, minWei) + Volume(b, minWei)
  {
    if b == [] {
      assert a + b == a;
    } else {
      assert (a + b)[..|a + b| - 1] == a + b[..|b| - 1];
      VolumeConcat(a, b[..|b| - 1], minWei);
    }
  }

  /** `get_hire_stats` on the scanned logs. */
  method HireStats(logs: seq<Log>, minWei: nat) returns (hires: nat, volume: nat, senders: set<string>)
    ensures senders == Senders(logs, minWei) && hires == |senders|
    ensures volume == Volume(logs, minWei)
  {
    senders, volume := {}, 0;
    for i := 0 to |logs|
      invariant senders == Senders(logs[..i], minWei)
      invariant volume == Volume(logs[..i], minWei)
    {
      assert logs[..i + 1] == logs[..i] + [logs[i]];
      assert logs[..i + 1][..i] == logs[..i];
      SendersConcat(logs[..i], [logs[i]], minWei);
      if Counted(logs[i], minWei) {
        assert Senders([logs[i]], minWei) == {Sender(logs[i])} by {
          assert [logs[i]][0] == logs[i];
        }
        senders := senders + {Sender(logs[i])};
        volume := volume + logs[i].wei;
      }
    }
    assert logs[..|logs|] == logs;
    hires := |senders|;
  }

  /** All logs of the blocks the first k windows span. */
  function Spanned(ledger: Ledger, head: int, size: int, k: nat): seq<Log> {
    LogsIn(ledger, head - k * size + 1, head)
  }

  /** The window of round k joins the blocks spanned in earlier rounds. */
  lemma WindowJoins(node: Node, ledger: Ledger, head: int, size: int, k: nat)
    requires Serves(node, ledger) && 1 <= size <= NODE_LIMIT
    ensures Spanned(ledger, head, size, k + 1)
         == Ask(node, Trim(Window(head, size, k), NODE_LIMIT)) + Spanned(ledger, head, size, k)
  {
    var window := Window(head, size, k);
    AskServed(node, ledger, window);
    assert (k + 1) * size == k * size + size;
    MulMonotone(0, k, size);
    LogsInSplit(ledger, window.first, window.last, head);
  }

  /** Scanning backwards in windows of at most ten blocks gives the statistics of the whole range
      in one shot, although the logs come in another order. */
  lemma {:induction false} BackwardStatsAreOneShot(
    node: Node, ledger: Ledger, head: int, size: int, spans: seq<Span>, minWei: nat)
    requires Serves(node, ledger) && 1 <= size <= NODE_LIMIT
    requires forall k :: 0 <= k < |spans| ==> spans[k] == Trim(Window(head, size, k), NODE_LIMIT)
    ensures Senders(AskAll(node, spans), minWei) == Senders(Spanned(ledger, head, size, |spans|), minWei)
    ensures Volume(AskAll(node, spans), minWei) == Volume(Spanned(ledger, head, size, |spans|), minWei)
  {
    if spans != [] {
      var k := |spans| - 1;
      BackwardStatsAreOneShot(node, ledger, head, size, spans[..k], minWei);
      WindowJoins(node, ledger, head, size, k);
      assert AskAll(node, spans) == AskAll(node, spans[..k]) + Ask(node, spans[k]);
      StatsSwap(AskAll(node, spans[..k]), Spanned(ledger, head, size, k), Ask(node, spans[k]), minWei);
    }
  }

  /** Statistics do not see the order in which two parts of a scan arrive. */
  lemma {:induction false} StatsSwap(scanned: seq<Log>, whole: seq<Log>, next: seq<Log>, minWei: nat)
    requires Senders(scanned, minWei) == Senders(whole, minWei) && Volume(scanned, minWei) == Volume(whole, minWei)
    ensures Senders(scanned + next, minWei) == Senders(next + whole, minWei)
    ensures Volume(scanned + next, minWei) == Volume(next + whole, minWei)
  {
    SendersConcat(scanned, next, minWei);
    SendersConcat(next, whole, minWei);
    VolumeConcat(scanned, next, minWei);
    VolumeConcat(next, whole, minWei);
  }
}
