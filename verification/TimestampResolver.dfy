/**
 The per-range timestamp resolver (onchain_indexer.py): at most two header lookups, whole-second
 interpolation in between. Quotients are exact rationals.
 */
module TimestampResolver {
  import opened Chain
  import opened Rounding
  import opened TransferIndex
  import opened Wrappers

  /** The edges after the fallbacks: one missing edge copies the other, two use the present. */
  function Edges(from: Option<int>, to: Option<int>, now: int): (int, int) {
    match (from, to)
    case (Some(a), Some(b)) => (a, b)
    case (None, Some(b)) => (b, b)
    case (Some(a), None) => (a, a)
    case (None, None) => (now, now)
  }

  function SpanWidth(first: int, last: int): real {
    if last - first > 1 then (last - first) as real else 1.0
  }

  /** How far above the first edge the line through both is at this block. */
  function Rise(first: int, last: int, edges: (int, int), block: int): real {
    (block - first) as real * ((edges.1 - edges.0) as real / SpanWidth(first, last))
  }

  function EdgesOf(lookup: int -> Option<int>, first: int, last: int, now: int): (int, int) {
    Edges(lookup(first), if last != first then lookup(last) else lookup(first), now)
  }

  /** `_make_ts_resolver`: lookups give None when the node rejects them; a one-block range asks once. */
  function Resolver(lookup: int -> Option<int>, first: int, last: int, now: int): Clock {
    var edges := EdgesOf(lookup, first, last, now);
    block => edges.0 + RoundHalfEven(Rise(first, last, edges, block))
  }

  lemma RiseMonotone(first: int, last: int, edges: (int, int), a: int, b: int)
    requires edges.0 <= edges.1 && a <= b
    ensures Rise(first, last, edges, a) <= Rise(first, last, edges, b)
  {
    var slope := (edges.1 - edges.0) as real / SpanWidth(first, last);
    DivOrder(0.0, (edges.1 - edges.0) as real, SpanWidth(first, last));
    ProductSign((b - a) as real, slope);
    assert (b - first) as real == (b - a) as real + (a - first) as real;
    assert (b - first) as real * slope == (b - a) as real * slope + (a - first) as real * slope;
  }

  lemma RiseAtEdges(first: int, last: int, edges: (int, int))
    ensures Rise(first, last, edges, first) == 0.0
    ensures first < last ==> Rise(first, last, edges, last) == (edges.1 - edges.0) as real
  {
    if first < last {
      var width, rise := (last - first) as real, (edges.1 - edges.0) as real;
      assert SpanWidth(first, last) == width;
      assert width * (rise / width) == rise;
    }
  }

  lemma FlatRise(first: int, last: int, edges: (int, int), block: int)
    requires edges.0 == edges.1
    ensures Rise(first, last, edges, block) == 0.0
  {
    assert (edges.1 - edges.0) as real / SpanWidth(first, last) == 0.0;
  }

  /** Both edges get exactly their own timestamps. */
  lemma EdgesExact(lookup: int -> Option<int>, first: int, last: int, now: int)
    requires first <= last
    ensures var edges, ts := EdgesOf(lookup, first, last, now), Resolver(lookup, first, last, now);
      && ts(first) == edges.0
      && (lookup(first).Some? ==> ts(first) == lookup(first).value)
      && (lookup(first).Some? && lookup(last).Some? ==> ts(last) == lookup(last).value)
  {
    var edges := EdgesOf(lookup, first, last, now);
    RiseAtEdges(first, last, edges);
    RoundWhole(0);
    RoundWhole(edges.1 - edges.0);
  }

  /** Edges in order make later blocks never earlier, and keep the range between the edges. */
  lemma ResolverMonotone(lookup: int -> Option<int>, first: int, last: int, now: int, a: int, b: int)
    requires EdgesOf(lookup, first, last, now).0 <= EdgesOf(lookup, first, last, now).1
    requires a <= b
    ensures Resolver(lookup, first, last, now)(a) <= Resolver(lookup, first, last, now)(b)
  {
    var edges := EdgesOf(lookup, first, last, now);
    RiseMonotone(first, last, edges, a, b);
    RoundMonotone(Rise(first, last, edges, a), Rise(first, last, edges, b));
  }

  lemma ResolverBetweenEdges(lookup: int -> Option<int>, first: int, last: int, now: int, block: int)
    requires EdgesOf(lookup, first, last, now).0 <= EdgesOf(lookup, first, last, now).1
    requires first <= block <= last
    ensures EdgesOf(lookup, first, last, now).0 <= Resolver(lookup, first, last, now)(block)
                                                <= EdgesOf(lookup, first, last, now).1
  {
    var edges := EdgesOf(lookup, first, last, now);
    EdgesExact(lookup, first, last, now);
    ResolverMonotone(lookup, first, last, now, first, block);
    ResolverMonotone(lookup, first, last, now, block, last);
    RiseAtEdges(first, last, edges);
    RoundWhole(edges.1 - edges.0);
  }

  /** With both edge times known, every block, inside the range or not, is stamped on the straight line
      through them: the offset from the first edge is the whole number of seconds nearest to
      (block - first) * (b - a) / (last - first), halves to the even one. Without both the line is
      flat. */
  lemma HalfSecondOfLine(lookup: int -> Option<int>, first: int, last: int, now: int, block: int)
    ensures var ts := Resolver(lookup, first, last, now)(block);
      && (first < last && lookup(first).Some? && lookup(last).Some? ==>
            var a, b := lookup(first).value, lookup(last).value;
            Nearest(ts - a, (block - first) * (b - a), last - first))
      && (lookup(first).None? || lookup(last).None? ==>
            ts == if lookup(first).Some? then lookup(first).value
                  else if lookup(last).Some? then lookup(last).value else now)
  {
    var edges := EdgesOf(lookup, first, last, now);
    var rise := Rise(first, last, edges, block);
    if first < last && lookup(first).Some? && lookup(last).Some? {
      SlopeTimesWidth(last - first, block - first, edges.1 - edges.0, rise);
      RoundIsNearest(rise, (block - first) * (edges.1 - edges.0), last - first);
    } else if edges.0 == edges.1 {
      FlatRise(first, last, edges, block);
      RoundWhole(0);
    }
  }

  lemma SlopeTimesWidth(width: int, steps: int, height: int, rise: real)
    requires width > 0 && rise == steps as real * (height as real / width as real)
    ensures rise * width as real == (steps * height) as real
  {
    var w := width as real;
    assert rise * w == steps as real * ((height as real / w) * w);
    assert (steps * height) as real == steps as real * height as real;
  }

  predicate InBlockOrder(rows: seq<Transfer>, from: nat)
  {
    forall i, j :: from <= i < |rows| && from <= j < |rows| && rows[i].block <= rows[j].block ==>
      rows[i].timestamp <= rows[j].timestamp
  }

  lemma {:induction false} StoredWithClock(t: Table, logs: seq<Log>, wallets: WalletMap, clock: Clock)
    ensures t.rows <= Store(t, logs, wallets, clock).rows
    ensures forall i :: |t.rows| <= i < |Store(t, logs, wallets, clock).rows| ==>
      Store(t, logs, wallets, clock).rows[i].timestamp == clock(Store(t, logs, wallets, clock).rows[i].block)
  {
    if logs != [] {
      StoredWithClock(t, logs[..|logs| - 1], wallets, clock);
    }
  }

  /** The rows one scan adds carry timestamps in block order. */
  lemma {:induction false} ScanStoresInOrder(t: Table, logs: seq<Log>, wallets: WalletMap, lookup: int -> Option<int>,
                          first: int, last: int, now: int)
    requires EdgesOf(lookup, first, last, now).0 <= EdgesOf(lookup, first, last, now).1
    ensures InBlockOrder(Store(t, logs, wallets, Resolver(lookup, first, last, now)).rows, |t.rows|)
  {
    var clock := Resolver(lookup, first, last, now);
    var rows := Store(t, logs, wallets, clock).rows;
    StoredWithClock(t, logs, wallets, clock);
    forall i, j | |t.rows| <= i < |rows| && |t.rows| <= j < |rows| && rows[i].block <= rows[j].block
      ensures rows[i].timestamp <= rows[j].timestamp
    {
      ResolverMonotone(lookup, first, last, now, rows[i].block, rows[j].block);
    }
  }
}
