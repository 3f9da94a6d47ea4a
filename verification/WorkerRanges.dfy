/**
 Which blocks the two index workers scan (onchain_indexer.py): a random uncovered chunk of the
 90-day window, and the newest blocks.
 */
module WorkerRanges {
  import opened Chain
  import opened TransferIndex
  import opened Wrappers

  const BACKFILL_START_WINDOW_BLOCKS := 18_000_000
  const U_FIRST_TRANSFER_BLOCK := 72_122_100
  const BACKFILL_CHUNK_SIZE := 250
  const REALTIME_CHUNK_SIZE := 75
  const CHAINSTACK_MAX_BLOCK_RANGE := 100
  const SAMPLE_DRAWS := 50

  datatype Range = Range(first: int, last: int)

  // ---- Backfill ------------------------------------------------------------------------

  /** `_backfill_window` */
  function BackfillWindow(head: int): Option<Range> {
    var first := if head - BACKFILL_START_WINDOW_BLOCKS > U_FIRST_TRANSFER_BLOCK
                 then head - BACKFILL_START_WINDOW_BLOCKS else U_FIRST_TRANSFER_BLOCK;
    var last := head - REALTIME_CHUNK_SIZE;
    if last < first then None else Some(Range(first, last))
  }

  predicate Within(r: Range, block: int) {
    r.first <= block <= r.last
  }

  function Blocks(r: Range): set<int> {
    set b | r.first <= b <= r.last && Within(r, b)
  }

  lemma {:induction false} BlockCount(r: Range)
    requires r.first <= r.last + 1
    ensures |Blocks(r)| == r.last - r.first + 1
    decreases r.last - r.first
  {
    if r.first <= r.last {
      BlockCount(Range(r.first, r.last - 1));
      assert Blocks(r) == Blocks(Range(r.first, r.last - 1)) + {r.last};
    } else {
      assert Blocks(r) == {};
    }
  }

  lemma SameSizeSubset(a: set<int>, b: set<int>)
    requires a <= b
    ensures |a| <= |b|
    ensures |a| == |b| <==> a == b
  {
    assert b == a + (b - a);
    assert |b| == |a| + |b - a|;
  }

  /** The size test of `_pick_sample_start` fires exactly when every block of the window is covered. */
  lemma SizeTestIff(window: Range, covered: set<int>)
    requires window.first <= window.last && covered <= Blocks(window)
    ensures window.last - window.first + 1 <= |covered| <==> covered == Blocks(window)
  {
    BlockCount(window);
    SameSizeSubset(covered, Blocks(window));
  }

  predicate FirstUncovered(draw: nat -> int, covered: set<int>, k: nat) {
    k < SAMPLE_DRAWS && draw(k) !in covered && forall j: nat :: j < k ==> draw(j) in covered
  }

  /** `_pick_sample_start`: the first of fifty draws that is not covered. */
  method PickSampleStart(window: Range, covered: set<int>, draw: nat -> int) returns (start: Option<int>)
    requires window.first <= window.last && covered <= Blocks(window)
    requires forall k :: window.first <= draw(k) <= window.last
    ensures start.Some? ==> window.first <= start.value <= window.last && start.value !in covered
    ensures start.Some? <==> exists k: nat :: k < SAMPLE_DRAWS && draw(k) !in covered
    ensures forall k: nat :: FirstUncovered(draw, covered, k) ==> start == Some(draw(k))
    ensures covered == Blocks(window) ==> start.None?
  {
    SizeTestIff(window, covered);
    if window.last - window.first + 1 <= |covered| {
      return None;
    }
    for k := 0 to SAMPLE_DRAWS
      invariant forall j: nat :: j < k ==> draw(j) in covered
    {
      var block := draw(k);
      if block !in covered {
        return Some(block);
      }
    }
    return None;
  }

  /** The chunk scanned from a start. */
  function SampleChunk(window: Range, start: int): Range {
    Range(start, if start + BACKFILL_CHUNK_SIZE - 1 < window.last then start + BACKFILL_CHUNK_SIZE - 1 else window.last)
  }

  /** The window reaches back 18,000,000 blocks, but never before the first transfer, and stops 75 blocks
      short of the head; an uncovered start is followed by 249 more blocks or up to its end. */
  lemma SampleChunkIs(head: int, start: int)
    ensures BackfillWindow(head).None? <==> head < 72_122_175
    ensures BackfillWindow(head).Some? ==>
              var window := BackfillWindow(head).value;
              && window.first == (if head > 90_122_100 then head - 18_000_000 else 72_122_100)
              && window.last == head - 75
              && SampleChunk(window, start).first == start
              && SampleChunk(window, start).last == if start + 249 > head - 75 then head - 75 else start + 249
  {
  }

  /** Every backfill chunk has 1 to 250 blocks, lies in the window, stays clear of the newest 75
      blocks and of those before the first transfer, and begins with a block that was uncovered. */
  lemma SampleChunkFits(head: int, window: Range, covered: set<int>, start: int)
    requires BackfillWindow(head) == Some(window) && start in Blocks(window) - covered
    ensures var chunk := SampleChunk(window, start);
      && Blocks(chunk) <= Blocks(window) && 1 <= |Blocks(chunk)| <= BACKFILL_CHUNK_SIZE
      && chunk.first !in covered
      && U_FIRST_TRANSFER_BLOCK <= chunk.first && chunk.last <= head - REALTIME_CHUNK_SIZE
  {
    BlockCount(SampleChunk(window, start));
  }

  // ---- Realtime ------------------------------------------------------------------------

  /** The range of `_realtime_cycle`, from the newest block of a stored transfer (0 if none). */
  function RealtimeRange(head: int, newest: int): Option<Range> {
    var from := if newest == 0 then head - REALTIME_CHUNK_SIZE else newest + 1;
    var gap := head - from;
    if gap <= 0 then None
    else
      var first := if gap > CHAINSTACK_MAX_BLOCK_RANGE * 2 then head - REALTIME_CHUNK_SIZE else from;
      Some(Range(first, if head < first + REALTIME_CHUNK_SIZE - 1 then head else first + REALTIME_CHUNK_SIZE - 1))
  }

  /** A realtime range follows the newest stored block; with none stored, or more than 201 blocks behind, it
      starts 75 blocks below the head instead; it has 75 blocks or ends at the head. */
  lemma RealtimeRangeIs(head: int, newest: int)
    requires RealtimeRange(head, newest).Some?
    ensures var r := RealtimeRange(head, newest).value;
      && r.first == (if newest == 0 || head - newest > 201 then head - 75 else newest + 1)
      && r.last == if r.first + 74 > head then head else r.first + 74
  {
  }

  /** `MAX(block_number)`: the newest block of a non-empty table is some row's, and no row's is newer. */
  lemma {:induction false} NewestIs(rows: seq<Transfer>)
    ensures rows == [] ==> Newest(rows) == 0
    ensures rows != [] ==> exists i :: 0 <= i < |rows| && rows[i].block == Newest(rows)
    ensures forall i :: 0 <= i < |rows| ==> rows[i].block <= Newest(rows)
  {
    if rows != [] {
      var init := rows[..|rows| - 1];
      NewestIs(init);
      assert forall i :: 0 <= i < |init| ==> init[i] == rows[i];
      assert rows[|init|].block == Newest(rows) || (init != [] && Newest(init) == Newest(rows));
      if init != [] {
        var i :| 0 <= i < |init| && init[i].block == Newest(init);
        assert rows[i].block == Newest(init);
      }
    }
  }

  /** Every realtime range has 2 to 75 blocks, ends at or before the head and begins at or after
      head - 200; there is none exactly when at most one block is newer than the newest stored one. */
  lemma RealtimeRangeFits(head: int, newest: int)
    ensures RealtimeRange(head, newest).None? <==> newest != 0 && head <= newest + 1
    ensures RealtimeRange(head, newest).Some? ==>
              var r := RealtimeRange(head, newest).value;
              && 2 <= |Blocks(r)| <= REALTIME_CHUNK_SIZE
              && r.last <= head && r.first >= head - 2 * CHAINSTACK_MAX_BLOCK_RANGE
              && (newest != 0 ==> r.first > newest)
  {
    if RealtimeRange(head, newest).Some? {
      BlockCount(RealtimeRange(head, newest).value);
    }
  }

  /** The newest block of a stored transfer, as `COALESCE(MAX(block_number), 0)` reads it. */
  function Newest(rows: seq<Transfer>): int {
    if rows == [] then 0
    else
      var before, b := Newest(rows[..|rows| - 1]), rows[|rows| - 1].block;
      if |rows| == 1 || b > before then b else before
  }

  /** One realtime cycle against the chain as it is; its range fits one request, which some provider
      answers or not. */
  function Cycle(t: Table, ledger: Ledger, head: int, served: bool, wallets: WalletMap, clock: Clock): Table {
    match RealtimeRange(head, Newest(t.rows))
    case None => t
    case Some(r) => Store(t, if served then LogsIn(ledger, r.first, r.last) else [], wallets, clock)
  }

  /** The next cycle moves on only when a scanned range yielded a transfer: after one that holds none,
      or whose request failed, the start stays where it was until the head is more than 200 blocks
      ahead of it, and then the blocks up to head - 76 are skipped. */
  lemma EmptyRangeRepeats(
    t: Table, ledger: Ledger, head: int, served: bool, later: int, wallets: WalletMap, clock: Clock)
    requires RealtimeRange(head, Newest(t.rows)).Some? && Newest(t.rows) != 0 && head <= later
    requires var r := RealtimeRange(head, Newest(t.rows)).value; served ==> LogsIn(ledger, r.first, r.last) == []
    ensures Cycle(t, ledger, head, served, wallets, clock) == t
    ensures var start := Newest(t.rows) + 1;
      var next := RealtimeRange(later, Newest(Cycle(t, ledger, head, served, wallets, clock).rows));
      && next.Some?
      && next.value.first
         == if later - start <= 2 * CHAINSTACK_MAX_BLOCK_RANGE then start else later - REALTIME_CHUNK_SIZE
  {
  }
}
