/**
 The sync's second phase (sync_worker.py): one detail request per token, an upsert and an
 enrichment for each agent found, and a capped list of failures.
 */
module SyncWorker {
  import opened AgentRows
  import opened Json
  import opened Wrappers

  const BSC_CHAIN_ID := 56
  const FAILED_TOKEN_IDS_CAP := 1000
  const PROGRESS_EVERY := 100

  /** An upstream answer for one token: an agent with its mapped columns and rich category, a gap, one
      of the three upstream exceptions, or any other exception, which nobody catches. */
  datatype Detail = Found(chain: Option<int>, id: string, snapshot: Row, rich: string)
                  | Gap | RateLimited | Unavailable | UpstreamError | Aborts

  /** The agent lives on another chain: skipped without a count. */
  predicate Foreign(d: Detail) {
    d.Found? && d.chain.Some? && d.chain.value != BSC_CHAIN_ID
  }

  predicate Accepted(d: Detail) {
    d.Found? && !Foreign(d)
  }

  /** `_record_failure`: newest last, oldest dropped past the cap. */
  function KeepNewest(tokens: seq<int>): (kept: seq<int>)
    ensures |kept| <= FAILED_TOKEN_IDS_CAP
  {
    if |tokens| > FAILED_TOKEN_IDS_CAP then tokens[|tokens| - FAILED_TOKEN_IDS_CAP..] else tokens
  }

  datatype Answer = Answer(token: int, detail: Detail, now: Json)

  /** The writes of a batch: an upsert and an enrichment for every accepted agent. */
  function Writes(answers: seq<Answer>): seq<Write> {
    if answers == [] then []
    else
      var a := answers[|answers| - 1];
      Writes(answers[..|answers| - 1])
      + if Accepted(a.detail)
        then [SyncUpsert(a.detail.id, a.detail.snapshot, a.now), Enrich(a.detail.id, a.detail.rich)] else []
  }

  /** The tokens of a batch that failed, in order. */
  function Failures(answers: seq<Answer>): seq<int> {
    if answers == [] then []
    else
      var a := answers[|answers| - 1];
      Failures(answers[..|answers| - 1]) + if a.detail.Found? then [] else [a.token]
  }

  function Tokens(answers: seq<Answer>): set<int> {
    set i | 0 <= i < |answers| && Accepted(answers[i].detail) :: answers[i].token
  }

  function ForeignCount(answers: seq<Answer>): nat {
    if answers == [] then 0
    else ForeignCount(answers[..|answers| - 1]) + if Foreign(answers[|answers| - 1].detail) then 1 else 0
  }

  datatype Counts = Counts(upserted: nat, failed: nat, lastTokenId: int, walked: nat)

  /** Every answer is counted once, and the last token is the highest one upserted, or -1. */
  predicate Tallied(answers: seq<Answer>, counts: Counts) {
    && counts.upserted + counts.failed + ForeignCount(answers) == counts.walked == |answers|
    && counts.upserted == Upserted(answers)
    && counts.failed == |Failures(answers)|
    && (forall t :: t in Tokens(answers) ==> t <= counts.lastTokenId)
    && (counts.lastTokenId in Tokens(answers) || counts.lastTokenId == -1)
  }

  function Upserted(answers: seq<Answer>): nat {
    if answers == [] then 0
    else Upserted(answers[..|answers| - 1]) + if Accepted(answers[|answers| - 1].detail) then 1 else 0
  }

  /** The upsert of the n-th answer is followed by a commit. */
  predicate CommitsAfter(answers: seq<Answer>, n: nat)
    requires n < |answers|
  {
    && Accepted(answers[n].detail)
    && (Upserted(answers[..n + 1]) % PROGRESS_EVERY == 0 || n + 1 == |answers|)
  }

  /** How many of the first n answers the last commit covers. */
  function Committed(answers: seq<Answer>, n: nat): (m: nat)
    requires n <= |answers|
    ensures m <= n
  {
    if n == 0 then 0 else if CommitsAfter(answers, n - 1) then n else Committed(answers, n - 1)
  }

  /** The answers before the first that aborts the batch. */
  function Handled(answers: seq<Answer>): (n: nat)
    ensures n <= |answers|
    ensures forall i :: 0 <= i < n ==> !answers[i].detail.Aborts?
    ensures n < |answers| ==> answers[n].detail.Aborts?
  {
    if answers == [] || answers[0].detail.Aborts? then 0
    else
      var rest := Handled(answers[1..]);
      assert forall i :: 1 <= i < |answers| ==> answers[i] == answers[1..][i - 1];
      1 + rest
  }

  class Session {
    var rows: Rows
    var failedTokenIds: seq<int>

    constructor (rows: Rows, failedTokenIds: seq<int>)
      ensures this.rows == rows && this.failedTokenIds == failedTokenIds
    {
      this.rows, this.failedTokenIds := rows, failedTokenIds;
    }

    method RecordFailure(token: int)
      modifies this`failedTokenIds
      ensures failedTokenIds == KeepNewest(old(failedTokenIds) + [token])
    {
      failedTokenIds := failedTokenIds + [token];
      if |failedTokenIds| > FAILED_TOKEN_IDS_CAP {
        failedTokenIds := failedTokenIds[|failedTokenIds| - FAILED_TOKEN_IDS_CAP..];
      }
    }

    /** `_enrich_and_upsert`: every token is upserted, failed or foreign, and the failure list holds the
        newest failures of all batches so far; an exception nobody catches leaves what the last commit
        covered. */
    method EnrichAndUpsert(answers: seq<Answer>) returns (counts: Result<Counts, ()>)
      requires |failedTokenIds| <= FAILED_TOKEN_IDS_CAP
      modifies this
      ensures counts.Ok? <==> Handled(answers) == |answers|
      ensures var kept := if counts.Ok? then |answers| else Committed(answers, Handled(answers));
        Holds(State(old(rows), old(failedTokenIds)), answers[..kept], State(rows, failedTokenIds))
      ensures counts.Ok? ==> Tallied(answers, counts.value)
    {
      var upserted: nat, failed: nat, lastTokenId := 0, 0, -1;
      var savedRows, savedFailures := rows, failedTokenIds;
      ghost var before := State(rows, failedTokenIds);
      for n := 0 to |answers|
        invariant forall i :: 0 <= i < n ==> !answers[i].detail.Aborts?
        invariant Walk(before, answers, n) == Batch(State(rows, failedTokenIds), State(savedRows, savedFailures),
                                                    Counts(upserted, failed, lastTokenId, n))
      {
        var Answer(token, detail, now) := answers[n];
        if detail.Aborts? {
          HandledIs(answers, n);
          WalkReaches(before, answers, n);
          rows, failedTokenIds := savedRows, savedFailures;
          return Err(());
        }
        if !detail.Found? {
          failed := failed + 1;
          RecordFailure(token);
          continue;
        }
        if Foreign(detail) {
          continue;
        }
        rows := After(rows, SyncUpsert(detail.id, detail.snapshot, now));
        rows := After(rows, Enrich(detail.id, detail.rich));
        upserted := upserted + 1;
        lastTokenId := if token > lastTokenId then token else lastTokenId;
        if upserted % PROGRESS_EVERY == 0 || n + 1 == |answers| {
          savedRows, savedFailures := rows, failedTokenIds;
        }
      }
      HandledIs(answers, |answers|);
      WalkReaches(before, answers, |answers|);
      assert answers[..|answers|] == answers;
      return Ok(Counts(upserted, failed, lastTokenId, |answers|));
    }
  }

  datatype State = State(rows: Rows, failures: seq<int>)

  /** The session's state after these answers. */
  ghost predicate Holds(before: State, answers: seq<Answer>, s: State) {
    && s.rows == Run(before.rows, Writes(answers))
    && s.failures == KeepNewest(before.failures + Failures(answers))
  }

  function Handle(s: State, a: Answer): State {
    if !a.detail.Found? then s.(failures := KeepNewest(s.failures + [a.token]))
    else if Foreign(a.detail) then s
    else s.(rows := After(After(s.rows, SyncUpsert(a.detail.id, a.detail.snapshot, a.now)),
                          Enrich(a.detail.id, a.detail.rich)))
  }

  /** The batch under way: the session's state, what the last commit covered, and the counters. */
  datatype Batch = Batch(now: State, saved: State, counts: Counts)

  function Advance(b: Batch, a: Answer, last: bool): Batch {
    var s, counts := Handle(b.now, a), Count(b.counts, a);
    Batch(s, if Accepted(a.detail) && (counts.upserted % PROGRESS_EVERY == 0 || last) then s else b.saved, counts)
  }

  /** The batch after its first n answers. */
  function Walk(before: State, answers: seq<Answer>, n: nat): Batch
    requires n <= |answers|
  {
    if n == 0 then Batch(before, before, Counts(0, 0, -1, 0))
    else Advance(Walk(before, answers, n - 1), answers[n - 1], n == |answers|)
  }

  ghost predicate Reached(before: State, answers: seq<Answer>, n: nat, b: Batch) {
    && n <= |answers|
    && Holds(before, answers[..n], b.now)
    && Holds(before, answers[..Committed(answers, n)], b.saved)
    && Tallied(answers[..n], b.counts)
  }

  lemma ReachedStep(before: State, answers: seq<Answer>, n: nat, b: Batch)
    requires n < |answers| && Reached(before, answers, n, b)
    ensures Reached(before, answers, n + 1, Advance(b, answers[n], n + 1 == |answers|))
  {
    HoldsStep(before, answers, n, b.now);
    TallyStep(answers, n, b.counts);
  }

  lemma HoldsStep(before: State, answers: seq<Answer>, n: nat, s: State)
    requires n < |answers| && Holds(before, answers[..n], s)
    ensures Holds(before, answers[..n + 1], Handle(s, answers[n]))
  {
    WritesStep(before.rows, answers, n);
    FailuresStep(before.failures, answers, n);
  }

  lemma {:induction false} WalkReaches(before: State, answers: seq<Answer>, n: nat)
    requires n <= |answers| && |before.failures| <= FAILED_TOKEN_IDS_CAP
    ensures Reached(before, answers, n, Walk(before, answers, n))
  {
    if n == 0 {
      NothingReached(before, answers);
    } else {
      var b := Walk(before, answers, n - 1);
      WalkReaches(before, answers, n - 1);
      ReachedStep(before, answers, n - 1, b);
      assert Walk(before, answers, n) == Advance(b, answers[n - 1], n == |answers|);
    }
  }

  lemma NothingReached(before: State, answers: seq<Answer>)
    requires |before.failures| <= FAILED_TOKEN_IDS_CAP
    ensures Reached(before, answers, 0, Batch(before, before, Counts(0, 0, -1, 0)))
  {
    assert answers[..0] == [] && before.failures + [] == before.failures;
  }

  lemma {:induction false} HandledIs(answers: seq<Answer>, n: nat)
    requires n <= |answers| && forall i :: 0 <= i < n ==> !answers[i].detail.Aborts?
    requires n == |answers| || answers[n].detail.Aborts?
    ensures Handled(answers) == n
  {
  }

  /** What one more answer writes. */
  lemma {:induction false} WritesStep(rows: Rows, answers: seq<Answer>, n: nat)
    requires n < |answers|
    ensures var Answer(_, detail, now) := answers[n];
      var before := Run(rows, Writes(answers[..n]));
      Run(rows, Writes(answers[..n + 1])) == if Accepted(detail)
        then After(After(before, SyncUpsert(detail.id, detail.snapshot, now)), Enrich(detail.id, detail.rich))
        else before
  {
    var Answer(_, detail, now) := answers[n];
    var ws := Writes(answers[..n]);
    assert answers[..n + 1][..n] == answers[..n];
    if Accepted(detail) {
      RunTwo(rows, ws, SyncUpsert(detail.id, detail.snapshot, now), Enrich(detail.id, detail.rich));
    } else {
      assert Writes(answers[..n + 1]) == ws;
    }
  }

  /** What one more answer leaves of the failure list. */
  lemma FailuresStep(failures: seq<int>, answers: seq<Answer>, n: nat)
    requires n < |answers|
    ensures var kept := KeepNewest(failures + Failures(answers[..n]));
      KeepNewest(failures + Failures(answers[..n + 1]))
      == if answers[n].detail.Found? then kept else KeepNewest(kept + [answers[n].token])
  {
    var init, prefix := answers[..n], answers[..n + 1];
    assert prefix[..n] == init;
    if answers[n].detail.Found? {
      assert Failures(prefix) == Failures(init);
    } else {
      NewestOfNewest(failures + Failures(init), answers[n].token);
      assert failures + Failures(init) + [answers[n].token] == failures + Failures(prefix);
    }
  }

  function Count(counts: Counts, a: Answer): Counts {
    var Counts(upserted, failed, lastTokenId, walked) := counts;
    if !a.detail.Found? then Counts(upserted, failed + 1, lastTokenId, walked + 1)
    else if Foreign(a.detail) then Counts(upserted, failed, lastTokenId, walked + 1)
    else Counts(upserted + 1, failed, if a.token > lastTokenId then a.token else lastTokenId, walked + 1)
  }

  lemma TallyStep(answers: seq<Answer>, n: nat, counts: Counts)
    requires n < |answers| && Tallied(answers[..n], counts)
    ensures Tallied(answers[..n + 1], Count(counts, answers[n]))
    ensures CommitsAfter(answers, n) <==>
            Accepted(answers[n].detail) && ((counts.upserted + 1) % PROGRESS_EVERY == 0 || n + 1 == |answers|)
  {
    assert answers[..n + 1][..n] == answers[..n];
    TokensAppend(answers, n);
  }

  /** An aborted batch loses the upserts past the last full hundred, and nothing before them. */
  lemma {:induction false} AbortLosesLastHundred(answers: seq<Answer>, n: nat)
    requires n < |answers|
    ensures var upserts := Upserted(answers[..n]);
      Upserted(answers[..Committed(answers, n)]) == upserts - upserts % PROGRESS_EVERY
  {
    if n > 0 {
      AbortLosesLastHundred(answers, n - 1);
      assert answers[..n][..n - 1] == answers[..n - 1];
    }
  }

  lemma {:induction false} RunTwo(rows: Rows, ws: seq<Write>, a: Write, b: Write)
    ensures Run(rows, ws + [a, b]) == After(After(Run(rows, ws), a), b)
  {
    var once := ws + [a];
    assert ws + [a, b] == once + [b];
    RunAppend(rows, once, b);
    RunAppend(rows, ws, a);
  }

  lemma NewestOfNewest(tokens: seq<int>, token: int)
    ensures KeepNewest(KeepNewest(tokens) + [token]) == KeepNewest(tokens + [token])
  {
  }

  lemma TokensAppend(answers: seq<Answer>, n: nat)
    requires n < |answers|
    ensures Tokens(answers[..n + 1])
         == Tokens(answers[..n]) + if Accepted(answers[n].detail) then {answers[n].token} else {}
  {
    var longer, shorter := answers[..n + 1], answers[..n];
    assert longer[n] == answers[n];
    assert forall i :: 0 <= i < n ==> longer[i] == shorter[i];
  }

  /** Whatever a batch holds, it keeps the locally owned columns of a row that was there before. */
  lemma {:induction false} BatchKeepsLocal(rows: Rows, answers: seq<Answer>, id: string, c: Column)
    requires id in rows && LocalOwned(c)
    ensures id in Run(rows, Writes(answers))
    ensures Field(Run(rows, Writes(answers))[id], c) == Field(rows[id], c)
  {
    if answers != [] {
      var init, a := answers[..|answers| - 1], answers[|answers| - 1];
      BatchKeepsLocal(rows, init, id, c);
      if Accepted(a.detail) {
        var upsert, enrich := SyncUpsert(a.detail.id, a.detail.snapshot, a.now), Enrich(a.detail.id, a.detail.rich);
        RunTwo(rows, Writes(init), upsert, enrich);
        var before := Run(rows, Writes(init));
        AfterAt(before, upsert, id);
        AfterAt(After(before, upsert), enrich, id);
        OwnedElsewhere(before[id], upsert, c);
        OwnedElsewhere(After(before, upsert)[id], enrich, c);
      } else {
        assert Writes(answers) == Writes(init);
      }
    }
  }

  lemma OwnedElsewhere(row: Row, w: Write, c: Column)
    requires LocalOwned(c) && (WriterOf(w) == Sync || WriterOf(w) == Classifier)
    ensures Field(row + Changes(row, w), c) == Field(row, c)
  {
    if c in Changes(row, w) {
      ChangesAreOwned(row, w, c);
    }
  }
}
