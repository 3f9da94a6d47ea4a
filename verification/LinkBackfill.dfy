/**
 Linking stored transfers to agents: the keyset backfill (scripts/backfill_link_agents.py) against
 a one-pass map over the table, and its confluence with linking at insert time.
 */
module LinkBackfill {
  import opened Chain
  import opened IndexConvergence
  import opened TransferIndex
  import opened Wrappers

  const MAX_CHUNK := 100_000

  // ---- The one-pass map ----------------------------------------------------------------

  /** The agent the backfill would write: a known wallet with a non-empty agent id. */
  function Target(wallets: WalletMap, to: string): Option<string> {
    match AgentFor(wallets, to)
    case Some(agent) => if agent != "" then Some(agent) else None
    case None => None
  }

  function LinkRow(r: Transfer, wallets: WalletMap): Transfer {
    if r.agent.None? then r.(agent := Target(wallets, r.key.to)) else r
  }

  /** Every unlinked row up to `bound` linked, the rest untouched. */
  function LinkUpTo(rows: seq<Transfer>, wallets: WalletMap, bound: int): seq<Transfer> {
    seq(|rows|, i requires 0 <= i < |rows| => if rows[i].id <= bound then LinkRow(rows[i], wallets) else rows[i])
  }

  /** The whole table linked in one pass. */
  function LinkAll(rows: seq<Transfer>, wallets: WalletMap): seq<Transfer> {
    seq(|rows|, i requires 0 <= i < |rows| => LinkRow(rows[i], wallets))
  }

  /** A table in primary-key order; ids start at 1. */
  predicate ById(rows: seq<Transfer>) {
    (forall i :: 0 <= i < |rows| ==> 0 < rows[i].id) &&
    (forall i, j :: 0 <= i < j < |rows| ==> rows[i].id < rows[j].id)
  }

  predicate NonEmptyIds(wallets: WalletMap) {
    forall w :: w in wallets ==> wallets[w] != ""
  }

  // ---- The statements of the script ----------------------------------------------------

  type Pair = (nat, string)

  /** The (id, to_address) of the unlinked rows past the cursor, in id order. */
  function Candidates(rows: seq<Transfer>, cursor: int): seq<Pair> {
    if rows == [] then []
    else
      (if rows[0].agent.None? && rows[0].id > cursor then [(rows[0].id, rows[0].key.to)] else [])
      + Candidates(rows[1..], cursor)
  }

  /** `_fetch_chunk`: the first n of them. */
  function FetchChunk(rows: seq<Transfer>, cursor: int, n: nat): seq<Pair> {
    var all := Candidates(rows, cursor);
    if |all| <= n then all else all[..n]
  }

  /** UPDATE ... SET linked_agent_id WHERE id = ... AND linked_agent_id IS NULL */
  function Update(rows: seq<Transfer>, id: nat, agent: string): seq<Transfer> {
    seq(|rows|, i requires 0 <= i < |rows| =>
      if rows[i].id == id && rows[i].agent.None? then rows[i].(agent := Some(agent)) else rows[i])
  }

  function Updates(rows: seq<Transfer>, matched: seq<Pair>): seq<Transfer> {
    if matched == [] then rows
    else Update(Updates(rows, matched[..|matched| - 1]), matched[|matched| - 1].0, matched[|matched| - 1].1)
  }

  /** The (id, agent) pairs a chunk gives rise to. */
  function Matched(chunk: seq<Pair>, wallets: WalletMap): seq<Pair> {
    if chunk == [] then []
    else
      var (id, to) := chunk[|chunk| - 1];
      Matched(chunk[..|chunk| - 1], wallets) +
      match Target(wallets, to) { case Some(agent) => [(id, agent)] case None => [] }
  }

  /** How many of the pairs have a known wallet, with an empty agent id or not. */
  function KnownCount(chunk: seq<Pair>, wallets: WalletMap): nat {
    if chunk == [] then 0
    else KnownCount(chunk[..|chunk| - 1], wallets) +
         if AgentFor(wallets, chunk[|chunk| - 1].1).Some? then 1 else 0
  }

  datatype Summary = Summary(unlinkedBefore: nat, linkedNow: nat, stillUnlinked: nat, walletsKnown: nat, exitCode: int)

  class LinkTable {
    var rows: seq<Transfer>

    constructor (rows: seq<Transfer>)
      ensures this.rows == rows
    {
      this.rows := rows;
    }

    /** `_apply_chunk_sqlite` */
    method ApplyChunk(chunk: seq<Pair>, wallets: WalletMap) returns (linked: nat)
      modifies this
      ensures rows == Updates(old(rows), Matched(chunk, wallets))
      ensures linked == |Matched(chunk, wallets)|
    {
      var matched: seq<Pair> := [];
      for n := 0 to |chunk|
        invariant matched == Matched(chunk[..n], wallets)
      {
        assert chunk[..n + 1][..n] == chunk[..n];
        var (id, to) := chunk[n];
        var agent := AgentFor(wallets, to);
        if agent.Some? && agent.value != "" {
          matched := matched + [(id, agent.value)];
        }
      }
      assert chunk[..|chunk|] == chunk;
      for n := 0 to |matched|
        invariant rows == Updates(old(rows), matched[..n])
      {
        assert matched[..n + 1][..n] == matched[..n];
        rows := Update(rows, matched[n].0, matched[n].1);
      }
      assert matched[..|matched|] == matched;
      return |matched|;
    }

    /** `run`. The table ends as the one-pass map over a prefix of the ids leaves it: over the whole
        table without a limit, and with one over its first `at.done` unlinked rows. */
    method Run(wallets: WalletMap, chunk: int, limit: int)
      returns (s: Summary, ghost at: Progress)
      requires ById(rows)
      modifies this
      ensures Reached(old(rows), rows, wallets, at) && s.linkedNow == at.linkedNow
      ensures limit <= 0 || at.done < limit ==> rows == LinkAll(old(rows), wallets)
      ensures limit > 0 ==> at.done < limit + ChunkSize(chunk)
      ensures s.unlinkedBefore == |Candidates(old(rows), 0)|
      ensures s.stillUnlinked == |Candidates(rows, 0)|
      ensures s.linkedNow == s.unlinkedBefore - s.stillUnlinked
      ensures s.walletsKnown == |wallets|
      ensures s.exitCode == if s.linkedNow == 0 && at.matchable > 0 then 2 else 0
      ensures NonEmptyIds(wallets) ==> s.linkedNow == at.matchable && s.exitCode == 0
    {
      ghost var before := rows;
      var size := ChunkSize(chunk);
      var unlinkedBefore := |Candidates(rows, 0)|;
      var cursor, linkedNow, matchableSeen := 0, 0, 0;
      var done: nat := 0;
      at := Progress(0, 0, 0, 0);
      NothingDone(before, wallets);
      while true
        invariant Reached(before, rows, wallets, at) && at == Progress(done, cursor, linkedNow, matchableSeen)
        invariant limit > 0 ==> done < limit
        decreases |Candidates(before, 0)| - done
      {
        var fetched := FetchChunk(rows, cursor, size);
        ChunkFits(before, rows, wallets, at, size);
        if fetched == [] {
          break;
        }
        ghost var was := rows;
        var known := CountMatchable(fetched, wallets);
        matchableSeen := matchableSeen + known;
        var linked := ApplyChunk(fetched, wallets);
        linkedNow := linkedNow + linked;
        cursor := fetched[|fetched| - 1].0;
        done := done + |fetched|;
        at := ChunkStep(before, was, wallets, at, fetched, rows);
        if limit > 0 && done >= limit {
          break;
        }
      }
      Finished(before, rows, wallets, at);
      s := Summary(unlinkedBefore, linkedNow, |Candidates(rows, 0)|, |wallets|,
                   if linkedNow == 0 && |wallets| > 0 && matchableSeen > 0 then 2 else 0);
    }
  }

  /** The count `run` takes of a chunk before applying it. */
  method CountMatchable(chunk: seq<Pair>, wallets: WalletMap) returns (known: nat)
    ensures known == KnownCount(chunk, wallets)
  {
    known := 0;
    for n := 0 to |chunk|
      invariant known == KnownCount(chunk[..n], wallets)
    {
      assert chunk[..n + 1][..n] == chunk[..n];
      if AgentFor(wallets, chunk[n].1).Some? {
        known := known + 1;
      }
    }
    assert chunk[..|chunk|] == chunk;
  }

  function ChunkSize(chunk: int): (n: nat)
    ensures 1 <= n <= MAX_CHUNK
  {
    var capped := if chunk < MAX_CHUNK then chunk else MAX_CHUNK;
    if capped > 1 then capped else 1
  }

  /** A chunk size below 1 counts as 1, one above 100,000 as 100,000, and any other as itself. */
  lemma ChunkSizeIs(chunk: int)
    ensures 1 <= chunk <= 100_000 ==> ChunkSize(chunk) == chunk
    ensures chunk < 1 ==> ChunkSize(chunk) == 1
    ensures chunk > 100_000 ==> ChunkSize(chunk) == 100_000
  {
  }

  // ---- Candidates ----------------------------------------------------------------------

  lemma {:induction false} CandidatesMember(rows: seq<Transfer>, cursor: int, p: Pair)
    ensures p in Candidates(rows, cursor) <==>
            exists i :: 0 <= i < |rows| && rows[i].agent.None? && rows[i].id > cursor
                        && p == (rows[i].id, rows[i].key.to)
  {
    if rows != [] {
      CandidatesMember(rows[1..], cursor, p);
      assert forall i :: 1 <= i < |rows| ==> rows[i] == rows[1..][i - 1];
    }
  }

  lemma {:induction false} CandidatesSorted(rows: seq<Transfer>, cursor: int)
    requires ById(rows)
    ensures forall i, j :: 0 <= i < j < |Candidates(rows, cursor)| ==>
              Candidates(rows, cursor)[i].0 < Candidates(rows, cursor)[j].0
  {
    if rows != [] {
      CandidatesSorted(rows[1..], cursor);
      forall p | p in Candidates(rows[1..], cursor)
        ensures p.0 > rows[0].id
      {
        CandidatesMember(rows[1..], cursor, p);
      }
    }
  }

  /** Only rows past the cursor matter to the query. */
  lemma {:induction false} CandidatesFrame(a: seq<Transfer>, b: seq<Transfer>, cursor: int)
    requires |a| == |b|
    requires forall i :: 0 <= i < |a| ==> a[i].id == b[i].id
    requires forall i :: 0 <= i < |a| && a[i].id > cursor ==> a[i] == b[i]
    ensures Candidates(a, cursor) == Candidates(b, cursor)
  {
    if a != [] {
      CandidatesFrame(a[1..], b[1..], cursor);
    }
  }

  /** The bound separates the first n candidates from the rest. */
  predicate Splits(all: seq<Pair>, n: nat, bound: int) {
    && n <= |all|
    && (forall j :: 0 <= j < n ==> all[j].0 <= bound)
    && (forall j :: n <= j < |all| ==> all[j].0 > bound)
  }

  lemma SplitsTail(head: Pair, rest: seq<Pair>, n: nat, bound: int)
    requires Splits([head] + rest, n, bound)
    ensures n > 0 <==> head.0 <= bound
    ensures Splits(rest, if n > 0 then n - 1 else 0, bound)
  {
    var all := [head] + rest;
    assert all[0] == head;
    assert forall j :: 0 <= j < |rest| ==> rest[j] == all[j + 1];
  }

  /** A cursor that separates the first n candidates drops them. */
  lemma {:induction false} CandidatesDrop(rows: seq<Transfer>, n: nat, bound: nat)
    requires Splits(Candidates(rows, 0), n, bound)
    ensures Candidates(rows, bound) == Candidates(rows, 0)[n..]
  {
    if rows != [] {
      var head, rest := (rows[0].id, rows[0].key.to), Candidates(rows[1..], 0);
      if rows[0].agent.None? && rows[0].id > 0 {
        SplitsTail(head, rest, n, bound);
        CandidatesDrop(rows[1..], if n > 0 then n - 1 else 0, bound);
        assert n > 0 ==> ([head] + rest)[n..] == rest[n - 1..];
      } else {
        assert Candidates(rows, 0) == rest;
        CandidatesDrop(rows[1..], n, bound);
      }
    }
  }

  lemma {:induction false} CursorSplits(rows: seq<Transfer>, done: nat)
    requires ById(rows) && done <= |Candidates(rows, 0)|
    ensures Splits(Candidates(rows, 0), done, CursorAt(Candidates(rows, 0), done))
    ensures CursorAt(Candidates(rows, 0), done) >= 0
  {
    var all := Candidates(rows, 0);
    CandidatesSorted(rows, 0);
    forall j | 0 <= j < |all|
      ensures all[j].0 > 0
    {
      CandidatesMember(rows, 0, all[j]);
    }
  }

  function CursorAt(all: seq<Pair>, done: nat): int
    requires done <= |all|
  {
    if done == 0 then 0 else all[done - 1].0
  }

  /** In the half-linked table the query past the cursor still sees the candidates not yet read. */
  lemma {:induction false} PastCursor(rows: seq<Transfer>, wallets: WalletMap, done: nat)
    requires ById(rows) && done <= |Candidates(rows, 0)|
    ensures var all := Candidates(rows, 0);
      Candidates(LinkUpTo(rows, wallets, CursorAt(all, done)), CursorAt(all, done)) == all[done..]
  {
    var cursor := CursorAt(Candidates(rows, 0), done);
    CandidatesFrame(LinkUpTo(rows, wallets, cursor), rows, cursor);
    CursorSplits(rows, done);
    CandidatesDrop(rows, done, cursor);
  }

  // ---- One chunk -----------------------------------------------------------------------

  /** The chunk is what follows the candidates read. */
  predicate NextOf(all: seq<Pair>, done: nat, chunk: seq<Pair>) {
    done + |chunk| <= |all| && chunk == all[done..done + |chunk|]
  }

  predicate Listed(chunk: seq<Pair>, id: nat) {
    exists j :: 0 <= j < |chunk| && chunk[j].0 == id
  }

  lemma {:induction false} UpdatesAppend(rows: seq<Transfer>, matched: seq<Pair>, last: Pair)
    ensures Updates(rows, matched + [last]) == Update(Updates(rows, matched), last.0, last.1)
  {
    assert (matched + [last])[..|matched|] == matched;
  }

  /** The updates of a chunk link a row exactly when it lists the row's id. */
  lemma {:induction false} UpdatesMatched(rows: seq<Transfer>, chunk: seq<Pair>, wallets: WalletMap, i: nat)
    requires i < |rows| && forall j :: 0 <= j < |chunk| && chunk[j].0 == rows[i].id ==> chunk[j].1 == rows[i].key.to
    ensures |Updates(rows, Matched(chunk, wallets))| == |rows|
    ensures Updates(rows, Matched(chunk, wallets))[i]
         == if Listed(chunk, rows[i].id) then LinkRow(rows[i], wallets) else rows[i]
  {
    if chunk != [] {
      var init, last := chunk[..|chunk| - 1], chunk[|chunk| - 1];
      assert forall j :: 0 <= j < |init| ==> init[j] == chunk[j];
      UpdatesMatched(rows, init, wallets, i);
      ListedLast(chunk, rows[i].id);
      UpdatesLast(rows, chunk, wallets);
      UpdateMore(Updates(rows, Matched(init, wallets)), i, rows[i], Listed(init, rows[i].id), last, wallets);
    }
  }

  /** One more update links a row if the pair is the row's, and finds a row linked before as it was. */
  lemma UpdateMore(before: seq<Transfer>, i: nat, row: Transfer, listed: bool, last: Pair, wallets: WalletMap)
    requires i < |before| && before[i] == if listed then LinkRow(row, wallets) else row
    requires last.0 == row.id ==> last.1 == row.key.to
    ensures var after := match Target(wallets, last.1) case None => before case Some(a) => Update(before, last.0, a);
      |after| == |before| && after[i] == if listed || last.0 == row.id then LinkRow(row, wallets) else row
  {
  }

  /** The last row of a chunk is updated last, if it has a target. */
  lemma {:induction false} UpdatesLast(rows: seq<Transfer>, chunk: seq<Pair>, wallets: WalletMap)
    requires chunk != []
    ensures var before, last := Updates(rows, Matched(chunk[..|chunk| - 1], wallets)), chunk[|chunk| - 1];
      Updates(rows, Matched(chunk, wallets))
      == match Target(wallets, last.1) case None => before case Some(agent) => Update(before, last.0, agent)
  {
    var init, last := chunk[..|chunk| - 1], chunk[|chunk| - 1];
    if Target(wallets, last.1).Some? {
      UpdatesAppend(rows, Matched(init, wallets), (last.0, Target(wallets, last.1).value));
    } else {
      assert Matched(chunk, wallets) == Matched(init, wallets);
    }
  }

  lemma ListedLast(chunk: seq<Pair>, id: nat)
    requires chunk != []
    ensures Listed(chunk, id) <==> Listed(chunk[..|chunk| - 1], id) || chunk[|chunk| - 1].0 == id
  {
    var init := chunk[..|chunk| - 1];
    assert forall j :: 0 <= j < |init| ==> chunk[j] == init[j];
  }

  /** A slice of the candidates lists the unlinked rows between its cursor and its last id, each
      with the address of its row. */
  lemma {:induction false} ListedIff(rows: seq<Transfer>, done: nat, chunk: seq<Pair>, i: nat)
    requires ById(rows) && chunk != [] && NextOf(Candidates(rows, 0), done, chunk) && i < |rows|
    ensures rows[i].agent.None? ==>
              (Listed(chunk, rows[i].id) <==>
               CursorAt(Candidates(rows, 0), done) < rows[i].id <= chunk[|chunk| - 1].0)
    ensures forall j :: 0 <= j < |chunk| && rows[i].id == chunk[j].0 ==> rows[i].key.to == chunk[j].1
  {
    var all, r := Candidates(rows, 0), rows[i];
    CandidatesSorted(rows, 0);
    CursorSplits(rows, done);
    forall j | 0 <= j < |chunk| && chunk[j].0 == r.id
      ensures r.key.to == chunk[j].1 && CursorAt(all, done) < r.id <= chunk[|chunk| - 1].0
    {
      assert chunk[j] == all[done + j];
      CandidatesMember(rows, 0, all[done + j]);
    }
    if r.agent.None? && CursorAt(all, done) < r.id <= chunk[|chunk| - 1].0 {
      CandidatesMember(rows, 0, (r.id, r.key.to));
      var j :| 0 <= j < |all| && all[j] == (r.id, r.key.to);
      assert done <= j < done + |chunk| && chunk[j - done] == all[j];
    }
  }

  /** The chunk lists, of the unlinked rows, those past the cursor up to `next`, each with its row's
      address. */
  ghost predicate Lists(rows: seq<Transfer>, chunk: seq<Pair>, cursor: int, next: int) {
    && (forall i :: 0 <= i < |rows| && rows[i].agent.None? ==>
          (Listed(chunk, rows[i].id) <==> cursor < rows[i].id <= next))
    && (forall i, j :: 0 <= i < |rows| && 0 <= j < |chunk| && rows[i].id == chunk[j].0 ==>
          rows[i].key.to == chunk[j].1)
  }

  /** Linking such a chunk extends the linked prefix from the cursor to `next`. */
  lemma {:induction false} LinkListed(before: seq<Transfer>, rows: seq<Transfer>, wallets: WalletMap, chunk: seq<Pair>,
                   cursor: int, next: int)
    requires cursor < next && rows == LinkUpTo(before, wallets, cursor) && Lists(before, chunk, cursor, next)
    ensures Updates(rows, Matched(chunk, wallets)) == LinkUpTo(before, wallets, next)
  {
    UpdatesLength(rows, Matched(chunk, wallets));
    forall i | 0 <= i < |rows|
      ensures Updates(rows, Matched(chunk, wallets))[i] == LinkUpTo(before, wallets, next)[i]
    {
      UpdatesMatched(rows, chunk, wallets, i);
    }
  }

  lemma {:induction false} UpdatesLength(rows: seq<Transfer>, matched: seq<Pair>)
    ensures |Updates(rows, matched)| == |rows|
  {
    if matched != [] {
      UpdatesLength(rows, matched[..|matched| - 1]);
    }
  }

  /** The next k candidates are such a chunk. */
  lemma {:induction false} CandidatesList(rows: seq<Transfer>, done: nat, chunk: seq<Pair>)
    requires ById(rows) && chunk != [] && NextOf(Candidates(rows, 0), done, chunk)
    ensures CursorAt(Candidates(rows, 0), done) < chunk[|chunk| - 1].0
    ensures Lists(rows, chunk, CursorAt(Candidates(rows, 0), done), chunk[|chunk| - 1].0)
  {
    CursorSplits(rows, done);
    forall i | 0 <= i < |rows|
      ensures rows[i].agent.None? ==>
                (Listed(chunk, rows[i].id) <==>
                 CursorAt(Candidates(rows, 0), done) < rows[i].id <= chunk[|chunk| - 1].0)
      ensures forall j :: 0 <= j < |chunk| && rows[i].id == chunk[j].0 ==> rows[i].key.to == chunk[j].1
    {
      ListedIff(rows, done, chunk, i);
    }
  }

  /** Reading and applying the next k candidates extends the linked prefix to the last of them. */
  lemma {:induction false} LinkChunk(
    rows: seq<Transfer>, half: seq<Transfer>, wallets: WalletMap, done: nat, chunk: seq<Pair>)
    requires ById(rows) && chunk != [] && NextOf(Candidates(rows, 0), done, chunk)
    requires half == LinkUpTo(rows, wallets, CursorAt(Candidates(rows, 0), done))
    ensures Updates(half, Matched(chunk, wallets)) == LinkUpTo(rows, wallets, chunk[|chunk| - 1].0)
  {
    CandidatesList(rows, done, chunk);
    LinkListed(rows, half, wallets, chunk, CursorAt(Candidates(rows, 0), done), chunk[|chunk| - 1].0);
  }

  lemma {:induction false} MatchedConcat(a: seq<Pair>, b: seq<Pair>, wallets: WalletMap)
    ensures Matched(a + b, wallets) == Matched(a, wallets) + Matched(b, wallets)
  {
    if b == [] {
      assert a + b == a;
    } else {
      assert (a + b)[..|a + b| - 1] == a + b[..|b| - 1];
      MatchedConcat(a, b[..|b| - 1], wallets);
    }
  }

  lemma {:induction false} KnownIsMatched(chunk: seq<Pair>, wallets: WalletMap)
    requires NonEmptyIds(wallets)
    ensures KnownCount(chunk, wallets) == |Matched(chunk, wallets)|
  {
    if chunk != [] {
      KnownIsMatched(chunk[..|chunk| - 1], wallets);
    }
  }

  lemma {:induction false} KnownNeedsWallet(chunk: seq<Pair>, wallets: WalletMap)
    ensures wallets == map[] ==> KnownCount(chunk, wallets) == 0
  {
    if chunk != [] {
      KnownNeedsWallet(chunk[..|chunk| - 1], wallets);
    }
  }

  // ---- The whole table -----------------------------------------------------------------

  /** Once every candidate is behind the cursor the linked prefix is the whole table. */
  lemma {:induction false} LinkedWhole(rows: seq<Transfer>, wallets: WalletMap)
    requires ById(rows)
    ensures var all := Candidates(rows, 0);
      LinkUpTo(rows, wallets, CursorAt(all, |all|)) == LinkAll(rows, wallets)
  {
    var all := Candidates(rows, 0);
    CandidatesSorted(rows, 0);
    forall i | 0 <= i < |rows| && rows[i].agent.None?
      ensures rows[i].id <= CursorAt(all, |all|)
    {
      CandidatesMember(rows, 0, (rows[i].id, rows[i].key.to));
    }
  }

  /** Linking removes from the unlinked rows exactly those it matches. */
  lemma {:induction false} LinkedCountUpTo(rows: seq<Transfer>, wallets: WalletMap, bound: int, n: nat)
    requires Splits(Candidates(rows, 0), n, bound)
    ensures |Candidates(LinkUpTo(rows, wallets, bound), 0)| + |Matched(Candidates(rows, 0)[..n], wallets)|
         == |Candidates(rows, 0)|
  {
    if rows != [] {
      var head, rest := (rows[0].id, rows[0].key.to), Candidates(rows[1..], 0);
      var after := LinkUpTo(rows, wallets, bound);
      assert after[1..] == LinkUpTo(rows[1..], wallets, bound);
      if rows[0].agent.None? && rows[0].id > 0 {
        SplitsTail(head, rest, n, bound);
        LinkedCountUpTo(rows[1..], wallets, bound, if n > 0 then n - 1 else 0);
        if n > 0 {
          assert ([head] + rest)[..n] == [head] + rest[..n - 1];
          MatchedConcat([head], rest[..n - 1], wallets);
          MatchedOne(head, wallets);
        }
      } else {
        assert Candidates(rows, 0) == rest;
        LinkedCountUpTo(rows[1..], wallets, bound, n);
      }
    }
  }

  lemma {:induction false} MatchedOne(p: Pair, wallets: WalletMap)
    ensures |Matched([p], wallets)| == if Target(wallets, p.1).Some? then 1 else 0
  {
    assert Matched([p][..0], wallets) == [];
  }

  lemma {:induction false} LinkedCount(rows: seq<Transfer>, wallets: WalletMap, done: nat)
    requires ById(rows) && done <= |Candidates(rows, 0)|
    ensures var all := Candidates(rows, 0);
      |Candidates(LinkUpTo(rows, wallets, CursorAt(all, done)), 0)| + |Matched(all[..done], wallets)| == |all|
  {
    CursorSplits(rows, done);
    LinkedCountUpTo(rows, wallets, CursorAt(Candidates(rows, 0), done), done);
  }

  // ---- The loop ------------------------------------------------------------------------

  /** How far a run has come: rows read, cursor and both counters. */
  datatype Progress = Progress(done: nat, cursor: int, linkedNow: nat, matchable: nat)

  ghost predicate Reached(before: seq<Transfer>, rows: seq<Transfer>, wallets: WalletMap, p: Progress) {
    && ById(before)
    && Counted(Candidates(before, 0), wallets, p)
    && rows == LinkUpTo(before, wallets, p.cursor)
  }

  ghost predicate Counted(all: seq<Pair>, wallets: WalletMap, p: Progress) {
    p.done <= |all| && p == CountsAt(all, wallets, p.done)
  }

  /** The counters of a run that has read n candidates. */
  function CountsAt(all: seq<Pair>, wallets: WalletMap, n: nat): Progress
    requires n <= |all|
  {
    Progress(n, CursorAt(all, n), |Matched(all[..n], wallets)|, KnownCount(all[..n], wallets))
  }

  lemma NothingDone(before: seq<Transfer>, wallets: WalletMap)
    requires ById(before)
    ensures Reached(before, before, wallets, Progress(0, 0, 0, 0))
  {
    assert LinkUpTo(before, wallets, 0) == before;
  }

  lemma {:induction false} ChunkFits(
    before: seq<Transfer>, rows: seq<Transfer>, wallets: WalletMap, p: Progress, size: nat)
    requires Reached(before, rows, wallets, p) && size > 0
    ensures var chunk := FetchChunk(rows, p.cursor, size);
      && |chunk| <= size && NextOf(Candidates(before, 0), p.done, chunk)
      && (chunk == [] <==> p.done == |Candidates(before, 0)|)
  {
    PastCursor(before, wallets, p.done);
  }

  lemma ChunkStep(before: seq<Transfer>, rows: seq<Transfer>, wallets: WalletMap, p: Progress, chunk: seq<Pair>,
                  after: seq<Transfer>)
    returns (next: Progress)
    requires Reached(before, rows, wallets, p)
    requires chunk != [] && NextOf(Candidates(before, 0), p.done, chunk)
    requires after == Updates(rows, Matched(chunk, wallets))
    ensures next == Progress(p.done + |chunk|, chunk[|chunk| - 1].0,
                             p.linkedNow + |Matched(chunk, wallets)|, p.matchable + KnownCount(chunk, wallets))
    ensures Reached(before, after, wallets, next)
  {
    LinkChunk(before, rows, wallets, p.done, chunk);
    next := CountChunk(Candidates(before, 0), wallets, p, chunk);
  }

  lemma CountChunk(all: seq<Pair>, wallets: WalletMap, p: Progress, chunk: seq<Pair>) returns (next: Progress)
    requires Counted(all, wallets, p)
    requires chunk != [] && p.done + |chunk| <= |all| && chunk == all[p.done..p.done + |chunk|]
    ensures next == Progress(p.done + |chunk|, chunk[|chunk| - 1].0,
                             p.linkedNow + |Matched(chunk, wallets)|, p.matchable + KnownCount(chunk, wallets))
    ensures Counted(all, wallets, next)
  {
    CountsConcat(all, wallets, p.done, chunk);
    next := CountsAt(all, wallets, p.done + |chunk|);
  }

  lemma {:induction false} CountsConcat(all: seq<Pair>, wallets: WalletMap, done: nat, chunk: seq<Pair>)
    requires chunk != [] && done + |chunk| <= |all| && chunk == all[done..done + |chunk|]
    ensures var p := CountsAt(all, wallets, done);
      CountsAt(all, wallets, done + |chunk|)
      == Progress(done + |chunk|, chunk[|chunk| - 1].0,
                  p.linkedNow + |Matched(chunk, wallets)|, p.matchable + KnownCount(chunk, wallets))
  {
    var before, after := all[..done], all[..done + |chunk|];
    assert after == before + chunk;
    MatchedConcat(before, chunk, wallets);
    KnownConcat(before, chunk, wallets);
  }

  lemma {:induction false} KnownConcat(a: seq<Pair>, b: seq<Pair>, wallets: WalletMap)
    ensures KnownCount(a + b, wallets) == KnownCount(a, wallets) + KnownCount(b, wallets)
  {
    if b == [] {
      assert a + b == a;
    } else {
      assert (a + b)[..|a + b| - 1] == a + b[..|b| - 1];
      KnownConcat(a, b[..|b| - 1], wallets);
    }
  }

  lemma {:induction false} Finished(before: seq<Transfer>, rows: seq<Transfer>, wallets: WalletMap, p: Progress)
    requires Reached(before, rows, wallets, p)
    ensures p.done == |Candidates(before, 0)| ==> rows == LinkAll(before, wallets)
    ensures p.linkedNow == |Candidates(before, 0)| - |Candidates(rows, 0)|
    ensures NonEmptyIds(wallets) ==> p.matchable == p.linkedNow
    ensures p.matchable > 0 ==> |wallets| > 0
  {
    var all := Candidates(before, 0);
    if p.done == |all| {
      LinkedWhole(before, wallets);
    }
    LinkedCount(before, wallets, p.done);
    if NonEmptyIds(wallets) {
      KnownIsMatched(all[..p.done], wallets);
    }
    KnownNeedsWallet(all[..p.done], wallets);
  }

  /** A linked row keeps its agent, and every other fact of a row survives linking. */
  lemma LinkKeeps(rows: seq<Transfer>, wallets: WalletMap, i: nat)
    requires i < |rows|
    ensures rows[i].agent.Some? ==> LinkAll(rows, wallets)[i] == rows[i]
    ensures LinkAll(rows, wallets)[i].(agent := rows[i].agent) == rows[i]
    ensures LinkAll(rows, wallets)[i].agent.None? <==> rows[i].agent.None? && Target(wallets, rows[i].key.to).None?
  {
  }

  /** After an unlimited run an unlinked row is linked to an agent exactly when that is the non-empty
      agent of the last wallet row that spells its recipient's digits, and otherwise stays unlinked. */
  lemma LinkedAgentIff(rows: seq<Transfer>, ws: seq<(string, string)>, i: nat, hex: string, agent: string)
    requires i < |rows| && rows[i].agent.None?
    ensures var row := LinkAll(rows, Wallets(ws))[i];
      && (Spells(rows[i].key.to, hex) ==> (row.agent == Some(agent) <==> agent != "" && LastNames(ws, hex, agent)))
      && ((forall digits :: !Spells(rows[i].key.to, digits)) ==> row == rows[i])
      && (row.agent.None? ==> row == rows[i])
  {
    AgentForIff(ws, rows[i].key.to, hex, agent);
  }

  /** Runs of any limits over the same wallets add up: two of them leave what the one that got
      further would have left alone, so an unlimited run completes whatever a limited one began. */
  lemma RunsAddUp(rows: seq<Transfer>, wallets: WalletMap, bound: int, later: int)
    ensures LinkUpTo(LinkUpTo(rows, wallets, bound), wallets, later)
         == LinkUpTo(rows, wallets, if later > bound then later else bound)
    ensures LinkAll(LinkUpTo(rows, wallets, bound), wallets) == LinkAll(rows, wallets)
  {
  }

  /** After an unlimited run over the same wallets, no run changes the table, whatever its chunk and
      limit, and with non-empty agent ids none sees a matchable row. */
  lemma {:induction false} RerunChangesNothing(rows: seq<Transfer>, wallets: WalletMap, bound: int)
    requires ById(rows)
    ensures LinkUpTo(LinkAll(rows, wallets), wallets, bound) == LinkAll(rows, wallets)
    ensures Matched(Candidates(LinkAll(rows, wallets), 0), wallets) == []
    ensures NonEmptyIds(wallets) ==> KnownCount(Candidates(LinkAll(rows, wallets), 0), wallets) == 0
  {
    var linked := LinkAll(rows, wallets);
    forall p | p in Candidates(linked, 0)
      ensures Target(wallets, p.1).None?
    {
      CandidatesMember(linked, 0, p);
    }
    MatchedIff(Candidates(linked, 0), wallets);
    if NonEmptyIds(wallets) {
      KnownIsMatched(Candidates(linked, 0), wallets);
    }
  }

  /** The stall exit of a run over these candidates is exactly the case of wallets whose agent ids
      are all empty: some candidate is known and every known candidate maps to "". */
  lemma {:induction false} StallIff(chunk: seq<Pair>, wallets: WalletMap)
    ensures Matched(chunk, wallets) == [] && KnownCount(chunk, wallets) > 0 <==>
            (exists p :: p in chunk && AgentFor(wallets, p.1).Some?) &&
            (forall p :: p in chunk && AgentFor(wallets, p.1).Some? ==> AgentFor(wallets, p.1) == Some(""))
  {
    KnownIff(chunk, wallets);
    MatchedIff(chunk, wallets);
  }

  lemma {:induction false} KnownIff(chunk: seq<Pair>, wallets: WalletMap)
    ensures KnownCount(chunk, wallets) > 0 <==> exists p :: p in chunk && AgentFor(wallets, p.1).Some?
  {
    if chunk != [] {
      var init, last := chunk[..|chunk| - 1], chunk[|chunk| - 1];
      KnownIff(init, wallets);
      assert last in chunk && forall p :: p in chunk <==> p in init || p == last;
    }
  }

  lemma {:induction false} MatchedIff(chunk: seq<Pair>, wallets: WalletMap)
    ensures Matched(chunk, wallets) == [] <==> forall p :: p in chunk ==> Target(wallets, p.1).None?
  {
    if chunk != [] {
      var init, last := chunk[..|chunk| - 1], chunk[|chunk| - 1];
      MatchedIff(init, wallets);
      assert last in chunk && forall p :: p in chunk <==> p in init || p == last;
    }
  }

  // ---- Confluence ----------------------------------------------------------------------

  function LinkTableRows(t: Table, wallets: WalletMap): Table {
    Table(LinkAll(t.rows, wallets), t.nextId)
  }

  lemma HasFrame(a: seq<Transfer>, b: seq<Transfer>, key: Key)
    requires |a| == |b| && forall i :: 0 <= i < |a| ==> a[i].key == b[i].key
    ensures Has(a, key) == Has(b, key)
  {
  }

  /** Indexing with no wallets and linking afterwards equals linking what was there and indexing
      with the wallets known. */
  lemma {:induction false} StoreThenLink(t: Table, logs: seq<Log>, wallets: WalletMap, clock: Clock)
    requires NonEmptyIds(wallets)
    ensures LinkTableRows(Store(t, logs, map[], clock), wallets)
         == Store(LinkTableRows(t, wallets), logs, wallets, clock)
  {
    if logs != [] {
      var init, log := logs[..|logs| - 1], logs[|logs| - 1];
      StoreThenLink(t, init, wallets, clock);
      var bare := Store(t, init, map[], clock);
      HasFrame(bare.rows, LinkAll(bare.rows, wallets), KeyOf(log));
      var row := RowOf(bare.nextId, log, map[], clock);
      assert row.agent.None?;
      assert LinkRow(row, wallets) == RowOf(bare.nextId, log, wallets, clock);
      assert LinkAll(bare.rows + [row], wallets) == LinkAll(bare.rows, wallets) + [LinkRow(row, wallets)];
    }
  }

  function WithWallets(scans: seq<Scan>, wallets: WalletMap): seq<Scan> {
    seq(|scans|, i requires 0 <= i < |scans| => scans[i].(wallets := wallets))
  }

  lemma {:induction false} LastScan(ledger: Ledger, scans: seq<Scan>, wallets: WalletMap)
    requires scans != []
    ensures var init, s := scans[..|scans| - 1], scans[|scans| - 1];
      AfterScans(ledger, WithWallets(scans, wallets))
      == Store(AfterScans(ledger, WithWallets(init, wallets)), ScanLogs(ledger, s), wallets, s.clock)
  {
    assert WithWallets(scans, wallets)[..|scans| - 1] == WithWallets(scans[..|scans| - 1], wallets);
  }

  /** Over any sequence of scans: index blindly and backfill, or index with the wallets known from
      the start; the tables are equal row by row. */
  lemma {:induction false} IndexThenBackfill(ledger: Ledger, scans: seq<Scan>, wallets: WalletMap)
    requires NonEmptyIds(wallets)
    ensures LinkTableRows(AfterScans(ledger, WithWallets(scans, map[])), wallets)
         == AfterScans(ledger, WithWallets(scans, wallets))
  {
    if scans != [] {
      var init, s := scans[..|scans| - 1], scans[|scans| - 1];
      IndexThenBackfill(ledger, init, wallets);
      LastScan(ledger, scans, map[]);
      LastScan(ledger, scans, wallets);
      StoreThenLink(AfterScans(ledger, WithWallets(init, map[])), ScanLogs(ledger, s), wallets, s.clock);
    }
  }

  predicate IdsBelow(t: Table) {
    0 < t.nextId && ById(t.rows) && forall i :: 0 <= i < |t.rows| ==> t.rows[i].id < t.nextId
  }

  lemma {:induction false} StoreById(t: Table, logs: seq<Log>, wallets: WalletMap, clock: Clock)
    requires IdsBelow(t)
    ensures IdsBelow(Store(t, logs, wallets, clock))
  {
    if logs != [] {
      StoreById(t, logs[..|logs| - 1], wallets, clock);
    }
  }

  /** The tables scans build meet what the backfill needs of its keyset. */
  lemma {:induction false} ScansById(ledger: Ledger, scans: seq<Scan>)
    ensures IdsBelow(AfterScans(ledger, scans))
  {
    if scans != [] {
      var s := scans[|scans| - 1];
      ScansById(ledger, scans[..|scans| - 1]);
      StoreById(AfterScans(ledger, scans[..|scans| - 1]), ScanLogs(ledger, s), s.wallets, s.clock);
    }
  }
}
