/**
 The events of an agent's NFT and the counts a track record takes of them (onchain_indexer.py,
 agent_score.py): the table has no unique key, so scans append copies, and what the counts owe to
 the clocks of the scans.
 */
module EventCounts {
  import ChainScan
  import opened IndexConvergence
  import opened Payment
  import opened TimestampResolver
  import opened Wrappers

  // ---- Events and counts ---------------------------------------------------------------

  /** One stored NFT event; the table has no unique key, so rescans append copies. */
  datatype Event = Event(agent: string, tx: string, from: string, to: string, timestamp: int)

  predicate Recent(e: Event, agent: string, cutoff: int) {
    e.agent == agent && e.timestamp >= cutoff
  }

  /** The transactions `fetch_track_record` counts as event_count. */
  function Txs(events: seq<Event>, agent: string, cutoff: int): set<string> {
    set i | 0 <= i < |events| && Recent(events[i], agent, cutoff) :: events[i].tx
  }

  /** The recipients it counts as unique_buyers. */
  function Buyers(events: seq<Event>, agent: string, cutoff: int): set<string> {
    set i | 0 <= i < |events| && Recent(events[i], agent, cutoff) && events[i].from != ZERO_ADDRESS :: events[i].to
  }

  lemma EventsConcat(a: seq<Event>, b: seq<Event>, agent: string, cutoff: int)
    ensures Txs(a + b, agent, cutoff) == Txs(a, agent, cutoff) + Txs(b, agent, cutoff)
    ensures Buyers(a + b, agent, cutoff) == Buyers(a, agent, cutoff) + Buyers(b, agent, cutoff)
  {
    var all := a + b;
    assert forall i :: 0 <= i < |a| ==> all[i] == a[i];
    assert forall i :: 0 <= i < |b| ==> all[|a| + i] == b[i];
    assert forall i :: |a| <= i < |all| ==> all[i] == b[i - |a|];
  }

  lemma SubsetKeepsSize<T>(a: set<T>, b: set<T>)
    ensures |a + b| == |a| <==> b <= a
  {
    if b <= a {
      assert a + b == a;
    } else {
      var extra := b - a;
      assert a + b == a + extra;
      assert |a + extra| == |a| + |extra|;
      assert extra != {};
    }
  }

  /** Appending events, copies or not, leaves both counts of the window as they were exactly when
      every appended event inside the window repeats a transaction (and, unless minted, a buyer)
      already counted there. */
  lemma CountsUnchangedIff(events: seq<Event>, again: seq<Event>, agent: string, cutoff: int)
    ensures (|Txs(events + again, agent, cutoff)| == |Txs(events, agent, cutoff)|
             && |Buyers(events + again, agent, cutoff)| == |Buyers(events, agent, cutoff)|)
       <==> (Txs(again, agent, cutoff) <= Txs(events, agent, cutoff)
             && Buyers(again, agent, cutoff) <= Buyers(events, agent, cutoff))
  {
    EventsConcat(events, again, agent, cutoff);
    SubsetKeepsSize(Txs(events, agent, cutoff), Txs(again, agent, cutoff));
    SubsetKeepsSize(Buyers(events, agent, cutoff), Buyers(again, agent, cutoff));
  }

  /** A copy of a stored event, its timestamp aside. */
  predicate CopyOf(e: Event, stored: Event) {
    e.(timestamp := stored.timestamp) == stored
  }

  /** A rescan can change the counts: when both edge timestamps of the
      range are unavailable the copies are stamped with the present, and an event older than the
      window is counted again. */
  lemma FallbackClockRevivesEvent()
    ensures var stored := Event("a", "t", "0x1", "0x2", 0);
      var copy := stored.(timestamp := 100);
      && CopyOf(copy, stored)
      && |Txs([stored], "a", 50)| == 0 && |Txs([stored] + [copy], "a", 50)| == 1
  {
    var stored := Event("a", "t", "0x1", "0x2", 0);
    var copy := stored.(timestamp := 100);
    EventsConcat([stored], [copy], "a", 50);
    assert Txs([stored], "a", 50) == {};
    assert Txs([copy], "a", 50) == {"t"} by {
      assert [copy][0] == copy;
    }
  }

  // ---- Scans ---------------------------------------------------------------------------

  /** One NFT transfer on the chain, its agent resolved from the token id. */
  datatype NftLog = NftLog(agent: string, tx: string, from: string, to: string)

  type NftLedger = int -> seq<NftLog>

  function Stamped(log: NftLog, at: int): Event {
    Event(log.agent, log.tx, log.from, log.to, at)
  }

  function StampAll(logs: seq<NftLog>, at: int): seq<Event> {
    seq(|logs|, i requires 0 <= i < |logs| => Stamped(logs[i], at))
  }

  /** The log of an event, its timestamp left out. */
  function LogOf(e: Event): NftLog {
    NftLog(e.agent, e.tx, e.from, e.to)
  }

  /** The rows one request appends. */
  function EventsIn(ledger: NftLedger, clock: int -> int, first: int, last: int): seq<Event>
    decreases last - first
  {
    if first > last then []
    else StampAll(ledger(first), clock(first)) + EventsIn(ledger, clock, first + 1, last)
  }

  /** The rows one scan appends; here `served` is about its NFT requests. */
  function EventsServed(
    ledger: NftLedger, clock: int -> int, served: ChainScan.Span -> bool, spans: seq<ChainScan.Span>): seq<Event>
  {
    if spans == [] then []
    else
      var span := spans[|spans| - 1];
      EventsServed(ledger, clock, served, spans[..|spans| - 1])
      + if served(span) then EventsIn(ledger, clock, span.first, span.last) else []
  }

  function ScanEvents(ledger: NftLedger, s: Scan): seq<Event> {
    EventsServed(ledger, s.clock, s.served, Spans(s))
  }

  function AfterScans(ledger: NftLedger, scans: seq<Scan>): seq<Event> {
    if scans == [] then []
    else
      var s := scans[|scans| - 1];
      AfterScans(ledger, scans[..|scans| - 1]) + ScanEvents(ledger, s)
  }

  /** The block holds this log. */
  predicate Holds(ledger: NftLedger, block: int, log: NftLog) {
    log in ledger(block)
  }

  lemma {:induction false} EventsInMember(ledger: NftLedger, clock: int -> int, first: int, last: int, e: Event)
    ensures e in EventsIn(ledger, clock, first, last) <==>
            exists b :: first <= b <= last && e.timestamp == clock(b)
                        && Holds(ledger, b, LogOf(e))
    decreases last - first
  {
    if first <= last {
      EventsInMember(ledger, clock, first + 1, last, e);
      StampAllMember(ledger(first), clock(first), e);
      assert Holds(ledger, first, LogOf(e)) <==> LogOf(e) in ledger(first);
    }
  }

  lemma StampAllMember(logs: seq<NftLog>, at: int, e: Event)
    ensures e in StampAll(logs, at) <==> e.timestamp == at && LogOf(e) in logs
  {
    if e.timestamp == at && LogOf(e) in logs {
      var i :| 0 <= i < |logs| && logs[i] == LogOf(e);
      assert StampAll(logs, at)[i] == e;
    }
  }

  lemma {:induction false} EventsServedMember(
    ledger: NftLedger, clock: int -> int, served: ChainScan.Span -> bool, spans: seq<ChainScan.Span>, e: Event)
    ensures e in EventsServed(ledger, clock, served, spans) <==>
            exists b :: Reaches(served, spans, b) && e.timestamp == clock(b)
                        && Holds(ledger, b, LogOf(e))
  {
    if spans != [] {
      var init, span := spans[..|spans| - 1], spans[|spans| - 1];
      EventsServedMember(ledger, clock, served, init, e);
      EventsInMember(ledger, clock, span.first, span.last, e);
      forall b
        ensures Reaches(served, spans, b) <==> Reaches(served, init, b) || (served(span) && ChainScan.Within(span, b))
      {
        ReachesLast(served, spans, b);
      }
    }
  }

  /** Every scan's clock puts the blocks it stamps on their true side of the cutoff. */
  ghost predicate TrueSide(scans: seq<Scan>, truth: int -> int, cutoff: int) {
    forall i, b {:trigger scans[i].clock(b)} ::
      0 <= i < |scans| && Reaches(scans[i].served, Spans(scans[i]), b) ==>
        (scans[i].clock(b) >= cutoff <==> truth(b) >= cutoff)
  }

  /** Some served block, truly inside the window, holds the log. */
  ghost predicate Counted(ledger: NftLedger, scans: seq<Scan>, truth: int -> int, cutoff: int, log: NftLog) {
    exists b :: Covers(scans, b) && truth(b) >= cutoff && Holds(ledger, b, log)
  }

  /** Some stored copy of the log lies inside the window. */
  ghost predicate Stored(events: seq<Event>, cutoff: int, log: NftLog) {
    exists at: int :: at >= cutoff && Stamped(log, at) in events
  }

  /** Over any sequence of scans whose clocks keep to the true side, a copy of a log lies in the window
      exactly when some served block of the window holds it. */
  lemma {:induction false} StoredIffCounted(
    ledger: NftLedger, scans: seq<Scan>, truth: int -> int, cutoff: int, log: NftLog)
    requires TrueSide(scans, truth, cutoff)
    ensures Stored(AfterScans(ledger, scans), cutoff, log) <==> Counted(ledger, scans, truth, cutoff, log)
  {
    if scans != [] {
      var init, s := scans[..|scans| - 1], scans[|scans| - 1];
      assert forall i :: 0 <= i < |init| ==> init[i] == scans[i];
      StoredIffCounted(ledger, init, truth, cutoff, log);
      forall b
        ensures Covers(scans, b) <==> Covers(init, b) || Reaches(s.served, Spans(s), b)
      {
        CoversLast(scans, b);
      }
      LastScanStores(ledger, scans, truth, cutoff, log);
    }
  }

  lemma LastScanStores(ledger: NftLedger, scans: seq<Scan>, truth: int -> int, cutoff: int, log: NftLog)
    requires scans != [] && TrueSide(scans, truth, cutoff)
    ensures var s := scans[|scans| - 1];
      Stored(ScanEvents(ledger, s), cutoff, log) <==>
      exists b :: Reaches(s.served, Spans(s), b) && truth(b) >= cutoff && Holds(ledger, b, log)
  {
    var s := scans[|scans| - 1];
    if at: int :| at >= cutoff && Stamped(log, at) in ScanEvents(ledger, s) {
      EventsServedMember(ledger, s.clock, s.served, Spans(s), Stamped(log, at));
      var b :| Reaches(s.served, Spans(s), b) && at == s.clock(b) && Holds(ledger, b, log);
      assert scans[|scans| - 1].clock(b) >= cutoff;
    }
    if b :| Reaches(s.served, Spans(s), b) && truth(b) >= cutoff && Holds(ledger, b, log) {
      assert scans[|scans| - 1].clock(b) >= cutoff;
      EventsServedMember(ledger, s.clock, s.served, Spans(s), Stamped(log, s.clock(b)));
    }
  }

  lemma TxsIff(events: seq<Event>, agent: string, cutoff: int, tx: string)
    ensures tx in Txs(events, agent, cutoff) <==>
            exists log: NftLog :: log.agent == agent && log.tx == tx && Stored(events, cutoff, log)
  {
    if tx in Txs(events, agent, cutoff) {
      var i :| 0 <= i < |events| && Recent(events[i], agent, cutoff) && events[i].tx == tx;
      var e := events[i];
      assert Stamped(LogOf(e), e.timestamp) == e;
      assert Stored(events, cutoff, LogOf(e));
    }
    if log: NftLog :| log.agent == agent && log.tx == tx && Stored(events, cutoff, log) {
      var at: int :| at >= cutoff && Stamped(log, at) in events;
      assert Recent(Stamped(log, at), agent, cutoff);
    }
  }

  lemma BuyersIff(events: seq<Event>, agent: string, cutoff: int, buyer: string)
    ensures buyer in Buyers(events, agent, cutoff) <==>
            exists log: NftLog :: log.agent == agent && log.from != ZERO_ADDRESS && log.to == buyer
                                  && Stored(events, cutoff, log)
  {
    if buyer in Buyers(events, agent, cutoff) {
      var i :| && 0 <= i < |events| && Recent(events[i], agent, cutoff)
               && events[i].from != ZERO_ADDRESS && events[i].to == buyer;
      var e := events[i];
      assert Stamped(LogOf(e), e.timestamp) == e;
      assert Stored(events, cutoff, LogOf(e));
    }
    if log: NftLog :| log.agent == agent && log.from != ZERO_ADDRESS && log.to == buyer && Stored(events, cutoff, log) {
      var at: int :| at >= cutoff && Stamped(log, at) in events;
      assert Recent(Stamped(log, at), agent, cutoff);
    }
  }

  /** With clocks on the true side, the counted transactions and buyers are those of the logs in the
      union of the served blocks of the window, whatever the order, overlap, repetition and failures. */
  lemma {:induction false} ScansCount(
    ledger: NftLedger, scans: seq<Scan>, truth: int -> int, agent: string, cutoff: int, name: string)
    requires TrueSide(scans, truth, cutoff)
    ensures var events := AfterScans(ledger, scans);
      && (name in Txs(events, agent, cutoff) <==>
            exists log: NftLog :: log.agent == agent && log.tx == name && Counted(ledger, scans, truth, cutoff, log))
      && (name in Buyers(events, agent, cutoff) <==>
            exists log: NftLog :: log.agent == agent && log.from != ZERO_ADDRESS && log.to == name
                          && Counted(ledger, scans, truth, cutoff, log))
  {
    var events := AfterScans(ledger, scans);
    TxsIff(events, agent, cutoff, name);
    BuyersIff(events, agent, cutoff, name);
    forall log: NftLog
      ensures Stored(events, cutoff, log) <==> Counted(ledger, scans, truth, cutoff, log)
    {
      StoredIffCounted(ledger, scans, truth, cutoff, log);
    }
  }

  /** Two histories that were served the same blocks give every agent the same counts. */
  lemma {:induction false} CountsIgnoreScanOrder(
    ledger: NftLedger, one: seq<Scan>, two: seq<Scan>, truth: int -> int, agent: string, cutoff: int)
    requires TrueSide(one, truth, cutoff) && TrueSide(two, truth, cutoff)
    requires forall b :: Covers(one, b) <==> Covers(two, b)
    ensures Txs(AfterScans(ledger, one), agent, cutoff) == Txs(AfterScans(ledger, two), agent, cutoff)
    ensures Buyers(AfterScans(ledger, one), agent, cutoff) == Buyers(AfterScans(ledger, two), agent, cutoff)
  {
    forall log: NftLog
      ensures Counted(ledger, one, truth, cutoff, log) <==> Counted(ledger, two, truth, cutoff, log)
    {
    }
    forall name
      ensures name in Txs(AfterScans(ledger, one), agent, cutoff)
              <==> name in Txs(AfterScans(ledger, two), agent, cutoff)
      ensures name in Buyers(AfterScans(ledger, one), agent, cutoff)
              <==> name in Buyers(AfterScans(ledger, two), agent, cutoff)
    {
      ScansCount(ledger, one, truth, agent, cutoff, name);
      ScansCount(ledger, two, truth, agent, cutoff, name);
    }
  }

  /** In particular scanning covered blocks again, in any pieces, changes no count. */
  lemma {:induction false} RescanKeepsCounts(
    ledger: NftLedger, scans: seq<Scan>, again: seq<Scan>, truth: int -> int, agent: string, cutoff: int)
    requires TrueSide(scans + again, truth, cutoff)
    requires forall b :: Covers(again, b) ==> Covers(scans, b)
    ensures |Txs(AfterScans(ledger, scans + again), agent, cutoff)| == |Txs(AfterScans(ledger, scans), agent, cutoff)|
    ensures |Buyers(AfterScans(ledger, scans + again), agent, cutoff)|
         == |Buyers(AfterScans(ledger, scans), agent, cutoff)|
  {
    var both := scans + again;
    assert forall i :: 0 <= i < |scans| ==> both[i] == scans[i];
    assert forall i :: |scans| <= i < |both| ==> both[i] == again[i - |scans|];
    forall b
      ensures Covers(both, b) <==> Covers(scans, b)
    {
    }
    CountsIgnoreScanOrder(ledger, both, scans, truth, agent, cutoff);
  }

  // ---- Which clocks keep to the true side ----------------------------------------------

  /** Block times never go back. */
  ghost predicate Ordered(truth: int -> int) {
    forall a, b {:trigger truth(a), truth(b)} :: a <= b ==> truth(a) <= truth(b)
  }

  /** The interpolating clock of a scan whose two edge lookups succeed keeps every block on its true
      side of a cutoff that does not fall strictly inside the range. */
  lemma ResolverKeepsSide(s: Scan, lookup: int -> Option<int>, truth: int -> int, now: int, cutoff: int)
    requires Ordered(truth) && s.first <= s.last && s.clock == Resolver(lookup, s.first, s.last, now)
    requires lookup(s.first) == Some(truth(s.first)) && lookup(s.last) == Some(truth(s.last))
    requires truth(s.first) >= cutoff || truth(s.last) < cutoff
    ensures TrueSide([s], truth, cutoff)
  {
    forall b | Reaches(s.served, Spans(s), b)
      ensures s.clock(b) >= cutoff <==> truth(b) >= cutoff
    {
      ReachesInRange(s, b);
      ResolverBetweenEdges(lookup, s.first, s.last, now, b);
      assert truth(s.first) <= truth(b) <= truth(s.last);
    }
  }
}
