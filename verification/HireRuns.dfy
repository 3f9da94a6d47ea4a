/**
 What holds over every run of hire requests, taken one at a time: create (with its sweep), pay,
 escrow create and escrow submit, by any users, at any times, with any envelopes and broadcaster
 outcomes, on a site whose rails, offers and switches may change between requests.
 */
module HireRuns {
  import opened HireDesk
  import opened Json
  import opened Payment
  import opened PyText
  import opened Wrappers

  // ---- Runs --------------------------------------------------------------------------

  datatype Request =
    | CreateRequest(site: Site, user: string, agentId: string, nowMicros: nat)
    | PayRequest(site: Site, user: string, id: nat, header: Option<Json>, nowMicros: nat, outcome: Outcome)
    | EscrowRequest(site: Site, user: string, agentId: string, budgetWei: nat, nowMicros: nat)
    | SubmitRequest(site: Site, user: string, id: nat, jobId: nat, txHash: string, nowMicros: nat)

  function Step(d: Desk, q: Request): Desk {
    match q
    case CreateRequest(site, user, agentId, now) => Create(d, site, user, agentId, now).0
    case PayRequest(site, user, id, header, now, outcome) => Pay(d, site, user, id, header, now, outcome).0
    case EscrowRequest(site, user, agentId, budget, now) => CreateEscrow(d, site, user, agentId, budget, now).0
    case SubmitRequest(site, user, id, jobId, tx, now) => Submit(d, site, user, id, jobId, tx, now).0
  }

  function Run(d: Desk, qs: seq<Request>): Desk {
    if qs == [] then d else Step(Run(d, qs[..|qs| - 1]), qs[|qs| - 1])
  }

  lemma {:induction false} RunAppend(d: Desk, qs: seq<Request>, q: Request)
    ensures Run(d, qs + [q]) == Step(Run(d, qs), q)
  {
    assert (qs + [q])[..|qs|] == qs;
  }

  /** The table after the first m requests of a run. */
  function At(qs: seq<Request>, m: nat): Desk
    requires m <= |qs|
  {
    Run(EMPTY_DESK, qs[..m])
  }

  lemma AtStep(qs: seq<Request>, m: nat)
    requires 0 < m <= |qs|
    ensures At(qs, m) == Step(At(qs, m - 1), qs[m - 1])
  {
    assert qs[..m][..m - 1] == qs[..m - 1];
  }

  // ---- Broadcasts of one hire ----------------------------------------------------------

  /** The broadcasts of a hire whose end the row recorded: mined or refused. */
  function Ended(calls: seq<Broadcast>, id: nat): seq<Broadcast> {
    if calls == [] then []
    else
      var last := calls[|calls| - 1];
      Ended(calls[..|calls| - 1], id) + if last.hireId == id && Commits(last.outcome) then [last] else []
  }

  lemma {:induction false} EndedAppend(calls: seq<Broadcast>, b: Broadcast, id: nat)
    ensures Ended(calls + [b], id)
         == Ended(calls, id) + if b.hireId == id && Commits(b.outcome) then [b] else []
  {
    assert (calls + [b])[..|calls|] == calls;
  }

  // ---- The invariant -------------------------------------------------------------------

  /** Status, transaction, job and ended broadcasts of one row fit together. */
  ghost predicate RowConsistent(h: Hire, ended: seq<Broadcast>) {
    && (h.status == Paid <==> h.txHash.Some?)
    && match h.terms.rail
       case Erc8183 =>
         && (h.status == Pending || h.status == Paid)
         && (h.status == Paid <==> h.jobId.Some?)
         && h.terms.amount.None? && h.terms.expiryMicros.None?
         && ended == []
       case Eip3009 =>
         && h.jobId.None? && h.terms.amount.Some? && h.terms.expiryMicros.Some?
         && match h.status
            case Pending => ended == []
            case Cancelled => ended == []
            case Failed => |ended| == 1 && ended[0].outcome.Refused?
            case Paid => |ended| == 1 && ended[0].outcome.Settled? && h.txHash == Some(ended[0].outcome.txHash)
  }

  /** A broadcast pays its hire's quoted wei to its quoted recipient on its quoted chain. */
  ghost predicate PaysQuote(h: Hire, b: Broadcast) {
    && h.terms.rail == Eip3009
    && h.terms.amount == Some(b.authorization.value)
    && h.terms.payTo.Some? && Lower(b.authorization.to) == Lower(h.terms.payTo.value)
    && h.terms.network.Some? && ChainOf(h.terms.network.value) == Some(b.chainId)
  }

  ghost predicate RowsConsistent(d: Desk) {
    forall id :: id in d.rows ==> id < d.nextId && RowConsistent(d.rows[id], Ended(d.calls, id))
  }

  ghost predicate CallsPayQuotes(d: Desk) {
    forall i :: 0 <= i < |d.calls| ==>
      d.calls[i].hireId in d.rows && PaysQuote(d.rows[d.calls[i].hireId], d.calls[i])
  }

  /** No two rows of one owner record the same job. */
  ghost predicate JobsUnique(d: Desk) {
    forall a, b {:trigger d.rows[a], d.rows[b]} ::
      (a in d.rows && b in d.rows && a != b && d.rows[a].jobId.Some?
       && d.rows[a].terms.owner == d.rows[b].terms.owner) ==> d.rows[a].jobId != d.rows[b].jobId
  }

  ghost predicate Invariant(d: Desk) {
    RowsConsistent(d) && CallsPayQuotes(d) && JobsUnique(d)
  }

  lemma {:induction false} NoCallsYet(calls: seq<Broadcast>, id: nat)
    requires forall i :: 0 <= i < |calls| ==> calls[i].hireId != id
    ensures Ended(calls, id) == []
  {
    if calls != [] {
      NoCallsYet(calls[..|calls| - 1], id);
    }
  }

  /** The sweep keeps the invariant. */
  lemma SweepKeeps(d: Desk, user: string, now: nat)
    requires Invariant(d)
    ensures Invariant(d.(rows := Sweep(d.rows, user, now)))
  {
    var d' := d.(rows := Sweep(d.rows, user, now));
    forall id | id in d'.rows
      ensures id < d'.nextId && RowConsistent(d'.rows[id], Ended(d'.calls, id))
    {
      assert RowConsistent(d.rows[id], Ended(d.calls, id));
    }
    assert forall id :: id in d'.rows ==>
             d'.rows[id].jobId == d.rows[id].jobId && d'.rows[id].terms == d.rows[id].terms;
  }

  /** Inserting a fresh pending row keeps the invariant. */
  lemma InsertKeeps(d: Desk, row: Hire)
    requires Invariant(d)
    requires row.status == Pending && row.txHash.None? && row.jobId.None? && RowConsistent(row, [])
    ensures Invariant(Desk(d.rows[d.nextId := row], d.nextId + 1, d.calls))
  {
    InsertKeepsRows(d, row);
    assert CallsPayQuotes(Desk(d.rows[d.nextId := row], d.nextId + 1, d.calls));
  }

  lemma InsertKeepsRows(d: Desk, row: Hire)
    requires RowsConsistent(d) && CallsPayQuotes(d) && RowConsistent(row, [])
    ensures RowsConsistent(Desk(d.rows[d.nextId := row], d.nextId + 1, d.calls))
  {
    NoCallsYet(d.calls, d.nextId);
    forall id | id in d.rows
      ensures id < d.nextId && RowConsistent(d.rows[id], Ended(d.calls, id))
    {
    }
  }

  /** A successful create inserts a pending row whose quote is complete. */
  lemma CreateInserts(d: Desk, site: Site, user: string, agentId: string, now: nat)
    ensures var (d', r) := Create(d, site, user, agentId, now);
      && (r.Err? ==> d' == d)
      && (r.Ok? ==>
            && r.value.id == d.nextId
            && r.value.hire.status == Pending && RowConsistent(r.value.hire, [])
            && d' == Desk(Sweep(d.rows, user, now)[d.nextId := r.value.hire], d.nextId + 1, d.calls)
            && !Sweepable(r.value.hire, user, now))
  {
  }

  lemma CreateKeeps(d: Desk, site: Site, user: string, agentId: string, now: nat)
    requires Invariant(d)
    ensures Invariant(Create(d, site, user, agentId, now).0)
  {
    CreateInserts(d, site, user, agentId, now);
    var r := Create(d, site, user, agentId, now).1;
    if r.Ok? {
      SweepKeeps(d, user, now);
      InsertKeeps(d.(rows := Sweep(d.rows, user, now)), r.value.hire);
    }
  }

  /** A payment is admitted only for the caller's own pending row, and only when it pays the
      row's quote. */
  lemma AdmittedPaysQuote(d: Desk, site: Site, user: string, id: nat, header: Option<Json>, now: nat, outcome: Outcome)
    requires Admit(d, site, user, id, header, now).Ok?
    requires id in d.rows && (d.rows[id].terms.amount.Some? ==> d.rows[id].terms.rail == Eip3009)
    ensures d.rows[id].status == Pending && d.rows[id].terms.owner == user
    ensures var (e, p) := Admit(d, site, user, id, header, now).value;
      PaysQuote(d.rows[id], BroadcastOf(id, e, p, outcome))
  {
    GateFacts(d, site, user, id, now);
    VerifyAcceptsIff(site.scheme, Admit(d, site, user, id, header, now).value.1,
                     Admit(d, site, user, id, header, now).value.0, now);
  }

  /** The desk after an admitted broadcast is recorded. */
  function Recorded(d: Desk, id: nat, b: Broadcast, now: nat): Desk
    requires id in d.rows
  {
    Desk(d.rows[id := Conclude(d.rows[id], b.outcome, now)], d.nextId, d.calls + [b])
  }

  lemma RecordKeepsRows(d: Desk, id: nat, b: Broadcast, now: nat)
    requires RowsConsistent(d) && id in d.rows && d.rows[id].status == Pending
    requires b.hireId == id && d.rows[id].terms.rail == Eip3009
    ensures RowsConsistent(Recorded(d, id, b, now))
  {
    forall other | other in d.rows
      ensures RowConsistent(Recorded(d, id, b, now).rows[other], Ended(d.calls + [b], other))
    {
      EndedAppend(d.calls, b, other);
      assert RowConsistent(d.rows[other], Ended(d.calls, other));
    }
  }

  lemma RecordKeepsColumns(d: Desk, id: nat, b: Broadcast, now: nat)
    requires id in d.rows
    ensures var d' := Recorded(d, id, b, now);
      && d'.rows.Keys == d.rows.Keys && d'.calls == d.calls + [b]
      && forall x :: x in d.rows ==> d'.rows[x].jobId == d.rows[x].jobId && d'.rows[x].terms == d.rows[x].terms
  {
  }

  /** Recording how an admitted broadcast ended keeps the invariant. */
  lemma RecordKeeps(d: Desk, id: nat, b: Broadcast, now: nat)
    requires Invariant(d) && id in d.rows && d.rows[id].status == Pending
    requires b.hireId == id && PaysQuote(d.rows[id], b)
    ensures Invariant(Recorded(d, id, b, now))
  {
    RecordKeepsRows(d, id, b, now);
    var d' := Recorded(d, id, b, now);
    RecordKeepsColumns(d, id, b, now);
    SameColumnsKeepJobs(d, d');
    SameTermsKeepCalls(d, d', b);
  }

  lemma SameColumnsKeepJobs(d: Desk, d': Desk)
    requires JobsUnique(d) && d'.rows.Keys == d.rows.Keys
    requires forall x :: x in d.rows ==> d'.rows[x].jobId == d.rows[x].jobId && d'.rows[x].terms == d.rows[x].terms
    ensures JobsUnique(d')
  {
  }

  lemma SameTermsKeepCalls(d: Desk, d': Desk, b: Broadcast)
    requires CallsPayQuotes(d) && d'.rows.Keys == d.rows.Keys && d'.calls == d.calls + [b]
    requires forall x :: x in d.rows ==> d'.rows[x].terms == d.rows[x].terms
    requires b.hireId in d.rows && PaysQuote(d.rows[b.hireId], b)
    ensures CallsPayQuotes(d')
  {
    forall i | 0 <= i < |d'.calls|
      ensures d'.calls[i].hireId in d'.rows && PaysQuote(d'.rows[d'.calls[i].hireId], d'.calls[i])
    {
      if i < |d.calls| {
        assert d'.calls[i] == d.calls[i];
      }
    }
  }

  lemma PayKeeps(d: Desk, site: Site, user: string, id: nat, header: Option<Json>, now: nat, outcome: Outcome)
    requires Invariant(d)
    ensures Invariant(Pay(d, site, user, id, header, now, outcome).0)
  {
    var admitted := Admit(d, site, user, id, header, now);
    if admitted.Ok? {
      assert id in d.rows;
      assert RowConsistent(d.rows[id], Ended(d.calls, id));
      AdmittedPaysQuote(d, site, user, id, header, now, outcome);
      RecordKeeps(d, id, BroadcastOf(id, admitted.value.0, admitted.value.1, outcome), now);
    }
  }

  lemma EscrowKeeps(d: Desk, site: Site, user: string, agentId: string, budget: nat, now: nat)
    requires Invariant(d)
    ensures Invariant(CreateEscrow(d, site, user, agentId, budget, now).0)
  {
    var d' := CreateEscrow(d, site, user, agentId, budget, now).0;
    if d' != d {
      InsertKeeps(d, d'.rows[d.nextId]);
    }
  }

  lemma BoundKeeps(d: Desk, id: nat, jobId: nat, tx: string, now: nat)
    requires Invariant(d) && id in d.rows && d.rows[id].terms.rail == Erc8183
    requires !JobTaken(d, d.rows[id].terms.owner, jobId, id)
    ensures Invariant(d.(rows := d.rows[id := Bound(d.rows[id], jobId, tx, now)]))
  {
    BoundKeepsRows(d, id, jobId, tx, now);
    BoundKeepsCalls(d, id, jobId, tx, now);
    BoundKeepsJobs(d, id, jobId, tx, now);
  }

  lemma BoundKeepsRows(d: Desk, id: nat, jobId: nat, tx: string, now: nat)
    requires RowsConsistent(d) && id in d.rows && d.rows[id].terms.rail == Erc8183
    ensures RowsConsistent(d.(rows := d.rows[id := Bound(d.rows[id], jobId, tx, now)]))
  {
    var d' := d.(rows := d.rows[id := Bound(d.rows[id], jobId, tx, now)]);
    forall other | other in d'.rows
      ensures other < d'.nextId && RowConsistent(d'.rows[other], Ended(d'.calls, other))
    {
      assert RowConsistent(d.rows[other], Ended(d.calls, other));
    }
  }

  lemma BoundKeepsCalls(d: Desk, id: nat, jobId: nat, tx: string, now: nat)
    requires CallsPayQuotes(d) && id in d.rows
    ensures CallsPayQuotes(d.(rows := d.rows[id := Bound(d.rows[id], jobId, tx, now)]))
  {
  }

  lemma BoundKeepsJobs(d: Desk, id: nat, jobId: nat, tx: string, now: nat)
    requires JobsUnique(d) && id in d.rows && !JobTaken(d, d.rows[id].terms.owner, jobId, id)
    ensures JobsUnique(d.(rows := d.rows[id := Bound(d.rows[id], jobId, tx, now)]))
  {
  }

  lemma SubmitKeeps(d: Desk, site: Site, user: string, id: nat, jobId: nat, tx: string, now: nat)
    requires Invariant(d)
    ensures Invariant(Submit(d, site, user, id, jobId, tx, now).0)
  {
    SubmitFacts(d, site, user, id, jobId, tx, now);
    if Submit(d, site, user, id, jobId, tx, now).1.Ok? {
      BoundKeeps(d, id, jobId, tx, now);
    }
  }

  /** Every run from the empty table keeps statuses, transactions, jobs and broadcasts
      consistent, and every broadcast ever made paid its hire's quote. */
  lemma {:induction false} RunsKeepInvariant(qs: seq<Request>)
    ensures Invariant(Run(EMPTY_DESK, qs))
  {
    if qs != [] {
      RunsKeepInvariant(qs[..|qs| - 1]);
      var d := Run(EMPTY_DESK, qs[..|qs| - 1]);
      match qs[|qs| - 1] {
        case CreateRequest(site, user, agentId, now) => CreateKeeps(d, site, user, agentId, now);
        case PayRequest(site, user, id, header, now, outcome) => PayKeeps(d, site, user, id, header, now, outcome);
        case EscrowRequest(site, user, agentId, budget, now) => EscrowKeeps(d, site, user, agentId, budget, now);
        case SubmitRequest(site, user, id, jobId, tx, now) => SubmitKeeps(d, site, user, id, jobId, tx, now);
      }
    }
  }

  // ---- What a step may change ----------------------------------------------------------

  /** The only ways an existing row changes. */
  ghost predicate AllowedChange(h: Hire, h': Hire, id: nat, q: Request) {
    || h' == h
    || (h.status == Pending && h.terms.rail == Eip3009 && h'.status == Cancelled
        && h' == h.(status := Cancelled, updatedMicros := q.nowMicros)
        && q.CreateRequest? && q.user == h.terms.owner
        && h.terms.expiryMicros.Some? && h.terms.expiryMicros.value < q.nowMicros)
    || (h.status == Pending && h.terms.rail == Eip3009 && q.PayRequest? && q.id == id
        && q.user == h.terms.owner && h' == Conclude(h, q.outcome, q.nowMicros))
    || (h.terms.rail == Erc8183 && (h.status == Pending || h.status == Paid)
        && q.SubmitRequest? && q.id == id && Lower(q.user) == Lower(h.terms.owner)
        && h' == h.(status := Paid, txHash := Some(q.txHash), jobId := Some(q.jobId), updatedMicros := q.nowMicros)
        && (h.jobId.Some? ==> h.jobId == Some(q.jobId)))
  }

  lemma CreateChanges(d: Desk, site: Site, user: string, agentId: string, now: nat, id: nat)
    requires Invariant(d) && id in d.rows
    ensures var d' := Create(d, site, user, agentId, now).0;
      id in d'.rows && AllowedChange(d.rows[id], d'.rows[id], id, CreateRequest(site, user, agentId, now))
  {
    assert RowConsistent(d.rows[id], Ended(d.calls, id));
    CreateInserts(d, site, user, agentId, now);
  }

  lemma PayChanges(
    d: Desk, site: Site, user: string, paid: nat, header: Option<Json>, now: nat, outcome: Outcome, id: nat)
    requires Invariant(d) && id in d.rows
    ensures var d' := Pay(d, site, user, paid, header, now, outcome).0;
      id in d'.rows && AllowedChange(d.rows[id], d'.rows[id], id, PayRequest(site, user, paid, header, now, outcome))
  {
    var admitted := Admit(d, site, user, paid, header, now);
    if admitted.Ok? {
      assert RowConsistent(d.rows[id], Ended(d.calls, id));
      GateFacts(d, site, user, paid, now);
    }
  }

  lemma SubmitChanges(d: Desk, site: Site, user: string, submitted: nat, jobId: nat, tx: string, now: nat, id: nat)
    requires Invariant(d) && id in d.rows
    ensures var d' := Submit(d, site, user, submitted, jobId, tx, now).0;
      id in d'.rows && AllowedChange(d.rows[id], d'.rows[id], id, SubmitRequest(site, user, submitted, jobId, tx, now))
  {
    SubmitFacts(d, site, user, submitted, jobId, tx, now);
  }

  /** One request keeps every row, and changes one only by sweep, payment or submission. */
  lemma StepChanges(d: Desk, q: Request, id: nat)
    requires Invariant(d) && id in d.rows
    ensures id in Step(d, q).rows && AllowedChange(d.rows[id], Step(d, q).rows[id], id, q)
  {
    match q
    case CreateRequest(site, user, agentId, now) => CreateChanges(d, site, user, agentId, now, id);
    case PayRequest(site, user, paid, header, now, outcome) =>
      PayChanges(d, site, user, paid, header, now, outcome, id);
    case EscrowRequest(_, _, _, _, _) => assert RowsConsistent(d);
    case SubmitRequest(site, user, submitted, jobId, tx, now) =>
      SubmitChanges(d, site, user, submitted, jobId, tx, now, id);
  }

  /** How a row may look later: the terms never change, a status other than PENDING is final, a
      recorded job is never replaced, and a finished x402 row never changes at all. */
  ghost predicate Evolves(h: Hire, h': Hire) {
    && h'.terms == h.terms
    && (h.status != Pending ==> h'.status == h.status)
    && (h.jobId.Some? ==> h'.jobId == h.jobId)
    && (h.status != Pending && h.terms.rail == Eip3009 ==> h' == h)
  }

  lemma StepEvolves(d: Desk, q: Request, id: nat)
    requires Invariant(d) && id in d.rows
    ensures id in Step(d, q).rows && Evolves(d.rows[id], Step(d, q).rows[id])
  {
    StepChanges(d, q, id);
    assert RowConsistent(d.rows[id], Ended(d.calls, id));
  }

  /** Between any two moments of any run, every row evolves as `Evolves` says. */
  lemma {:induction false} RunEvolves(qs: seq<Request>, n: nat, m: nat, id: nat)
    requires n <= m <= |qs| && id in At(qs, n).rows
    ensures id in At(qs, m).rows && Evolves(At(qs, n).rows[id], At(qs, m).rows[id])
  {
    if n < m {
      RunEvolves(qs, n, m - 1, id);
      RunsKeepInvariant(qs[..m - 1]);
      AtStep(qs, m);
      StepEvolves(At(qs, m - 1), qs[m - 1], id);
      EvolvesTransitive(At(qs, n).rows[id], At(qs, m - 1).rows[id], At(qs, m).rows[id]);
    }
  }

  lemma EvolvesTransitive(a: Hire, b: Hire, c: Hire)
    requires Evolves(a, b) && Evolves(b, c)
    ensures Evolves(a, c)
  {
  }

  /** Of all broadcasts of a hire only the last one can have been recorded as mined or refused. */
  ghost predicate OnlyLastEnds(calls: seq<Broadcast>) {
    forall i, j :: 0 <= i < j < |calls| && calls[i].hireId == calls[j].hireId ==> !Commits(calls[i].outcome)
  }

  /** The log grew by at most one broadcast, made for a row that was pending. */
  ghost predicate LogGrew(d: Desk, calls: seq<Broadcast>) {
    || calls == d.calls
    || (|calls| == |d.calls| + 1 && calls[..|d.calls|] == d.calls
        && calls[|d.calls|].hireId in d.rows && d.rows[calls[|d.calls|].hireId].status == Pending)
  }

  lemma StepGrowsLog(d: Desk, q: Request)
    ensures LogGrew(d, Step(d, q).calls)
  {
  }

  lemma GrowthKeepsOnlyLastEnds(d: Desk, calls: seq<Broadcast>)
    requires Invariant(d) && OnlyLastEnds(d.calls) && LogGrew(d, calls)
    ensures OnlyLastEnds(calls)
  {
    forall i, j | 0 <= i < j < |calls| && calls[i].hireId == calls[j].hireId
      ensures !Commits(calls[i].outcome)
    {
      assert calls[i] == d.calls[i];
      if j == |d.calls| {
        LiveRowOnlyRaised(d, i);
      } else {
        assert calls[j] == d.calls[j];
      }
    }
  }

  lemma {:induction false} RunsBroadcastOnce(qs: seq<Request>)
    ensures OnlyLastEnds(Run(EMPTY_DESK, qs).calls)
  {
    if qs != [] {
      RunsBroadcastOnce(qs[..|qs| - 1]);
      RunsKeepInvariant(qs[..|qs| - 1]);
      StepGrowsLog(Run(EMPTY_DESK, qs[..|qs| - 1]), qs[|qs| - 1]);
      GrowthKeepsOnlyLastEnds(Run(EMPTY_DESK, qs[..|qs| - 1]), Run(EMPTY_DESK, qs).calls);
    }
  }

  /** While an x402 row is pending, no broadcast made for it was recorded. */
  lemma LiveRowOnlyRaised(d: Desk, i: nat)
    requires Invariant(d) && i < |d.calls|
    requires d.calls[i].hireId in d.rows && d.rows[d.calls[i].hireId].status == Pending
    ensures !Commits(d.calls[i].outcome)
  {
    assert RowConsistent(d.rows[d.calls[i].hireId], Ended(d.calls, d.calls[i].hireId));
    if Commits(d.calls[i].outcome) {
      EndedHolds(d.calls, i);
    }
  }

  lemma {:induction false} EndedHolds(calls: seq<Broadcast>, i: nat)
    requires i < |calls| && Commits(calls[i].outcome)
    ensures calls[i] in Ended(calls, calls[i].hireId)
  {
    if i < |calls| - 1 {
      EndedHolds(calls[..|calls| - 1], i);
    }
  }

  /** Every broadcast of the hire ended in a way its row records. */
  ghost predicate AllCommit(calls: seq<Broadcast>, id: nat) {
    forall i :: 0 <= i < |calls| && calls[i].hireId == id ==> Commits(calls[i].outcome)
  }

  /** At most one broadcast of a hire, in every run in which none of them ended unrecorded. */
  lemma {:induction false} AtMostOneBroadcast(qs: seq<Request>, id: nat, i: nat, j: nat)
    requires AllCommit(Run(EMPTY_DESK, qs).calls, id)
    requires i < |Run(EMPTY_DESK, qs).calls| && Run(EMPTY_DESK, qs).calls[i].hireId == id
    requires j < |Run(EMPTY_DESK, qs).calls| && Run(EMPTY_DESK, qs).calls[j].hireId == id
    ensures i == j
  {
    RunsBroadcastOnce(qs);
  }

  /** A second broadcast is exactly what an unrecorded one leaves possible: the envelope just
      broadcast is admitted again, and broadcast again, if and only if its first broadcast ended
      unrecorded. */
  lemma BroadcastAgainIff(
    d: Desk, site: Site, user: string, id: nat, header: Option<Json>, now: nat, first: Outcome, second: Outcome)
    requires Admit(d, site, user, id, header, now).Ok?
    ensures var once := Pay(d, site, user, id, header, now, first).0;
      var twice := Pay(once, site, user, id, header, now, second).0;
      && |once.calls| == |d.calls| + 1
      && (|twice.calls| == |d.calls| + 2 <==> !Commits(first))
      && (Commits(first) ==> twice == once)
  {
    var once := Pay(d, site, user, id, header, now, first).0;
    GateFacts(d, site, user, id, now);
    assert once.rows == d.rows[id := Conclude(d.rows[id], first, now)];
    if !Commits(first) {
      assert once.rows == d.rows;
      assert Gate(once, site, user, id, now) == Gate(d, site, user, id, now);
    } else {
      assert Gate(once, site, user, id, now) == Err(AlreadyPaid);
    }
  }

  /** Escrow rows are never broadcast and never swept, whatever is requested. */
  lemma {:induction false} EscrowNeverSettledHere(qs: seq<Request>, id: nat)
    requires id in Run(EMPTY_DESK, qs).rows && Run(EMPTY_DESK, qs).rows[id].terms.rail == Erc8183
    ensures forall i :: 0 <= i < |Run(EMPTY_DESK, qs).calls| ==> Run(EMPTY_DESK, qs).calls[i].hireId != id
    ensures forall owner, now :: !Sweepable(Run(EMPTY_DESK, qs).rows[id], owner, now)
  {
    RunsKeepInvariant(qs);
    assert RowConsistent(Run(EMPTY_DESK, qs).rows[id], Ended(Run(EMPTY_DESK, qs).calls, id));
  }

  /** A successful create leaves its user without any overdue pending x402 hire. */
  lemma CreateSweepsOverdue(d: Desk, site: Site, user: string, agentId: string, now: nat)
    requires Create(d, site, user, agentId, now).1.Ok?
    ensures var d' := Create(d, site, user, agentId, now).0;
      && d.rows.Keys <= d'.rows.Keys
      && (forall id :: id in d'.rows ==> !Sweepable(d'.rows[id], user, now))
      && (forall id :: id in d.rows && id != d.nextId && Sweepable(d.rows[id], user, now) ==>
            d'.rows[id].status == Cancelled)
  {
    CreateInserts(d, site, user, agentId, now);
  }

  // ---- Resubmission --------------------------------------------------------------------

  /** Submitting a recorded job again is documented as a no-op; it leaves the row's business
      columns alone exactly when it repeats the recorded transaction hash. */
  lemma {:induction false} ResubmitIsNoOpIff(
    qs: seq<Request>, site: Site, user: string, id: nat, jobId: nat, tx: string, now: nat)
    requires id in Run(EMPTY_DESK, qs).rows && Run(EMPTY_DESK, qs).rows[id].jobId == Some(jobId)
    requires Submit(Run(EMPTY_DESK, qs), site, user, id, jobId, tx, now).1.Ok?
    ensures var h := Run(EMPTY_DESK, qs).rows[id];
      var (after, _) := Submit(Run(EMPTY_DESK, qs), site, user, id, jobId, tx, now);
      && id in after.rows
      && (after.rows[id].(updatedMicros := h.updatedMicros) == h <==> h.txHash == Some(tx))
  {
    var d := Run(EMPTY_DESK, qs);
    RunsKeepInvariant(qs);
    assert RowConsistent(d.rows[id], Ended(d.calls, id));
    SubmitFacts(d, site, user, id, jobId, tx, now);
  }

  // ---- Escrow, end to end --------------------------------------------------------------

  /** A request that is no submission to this row. */
  predicate NotSubmittedTo(q: Request, id: nat) {
    !(q.SubmitRequest? && q.id == id)
  }

  lemma StepKeepsEscrow(d: Desk, q: Request, id: nat)
    requires Invariant(d) && id in d.rows && d.rows[id].terms.rail == Erc8183 && NotSubmittedTo(q, id)
    ensures id in Step(d, q).rows && Step(d, q).rows[id] == d.rows[id]
  {
    StepChanges(d, q, id);
  }

  /** An escrow row waits unchanged through any requests but its own submission, for as long as it
      takes. */
  lemma {:induction false} EscrowWaits(qs: seq<Request>, n: nat, m: nat, id: nat)
    requires n <= m <= |qs| && id in At(qs, n).rows && At(qs, n).rows[id].terms.rail == Erc8183
    requires forall i :: n <= i < m ==> NotSubmittedTo(qs[i], id)
    ensures id in At(qs, m).rows && At(qs, m).rows[id] == At(qs, n).rows[id]
  {
    if n < m {
      EscrowWaits(qs, n, m - 1, id);
      RunsKeepInvariant(qs[..m - 1]);
      AtStep(qs, m);
      StepKeepsEscrow(At(qs, m - 1), qs[m - 1], id);
    }
  }

  /** After any history, an escrow hire, once created, is bound by its owner's first submission after
      any other requests, exactly unless another row of the owner records the job or the job id does
      not fit; the row is then PAID with that job and transaction. */
  lemma {:induction false} EscrowSubmitsInAnyRun(
    before: seq<Request>, others: seq<Request>, site: Site, owner: string, agentId: string, budget: nat,
    createdMicros: nat, jobId: nat, tx: string, now: nat)
    requires CreateEscrow(Run(EMPTY_DESK, before), site, owner, agentId, budget, createdMicros).1.Ok?
    requires var id := CreateEscrow(Run(EMPTY_DESK, before), site, owner, agentId, budget, createdMicros).1.value;
      forall i :: 0 <= i < |others| ==> NotSubmittedTo(others[i], id)
    ensures agentId in site.agents
    ensures
      var id := CreateEscrow(Run(EMPTY_DESK, before), site, owner, agentId, budget, createdMicros).1.value;
      var d := Run(EMPTY_DESK, before + [EscrowRequest(site, owner, agentId, budget, createdMicros)] + others);
      var r := Submit(d, site, owner, id, jobId, tx, now).1;
      var d' := Run(EMPTY_DESK, before + [EscrowRequest(site, owner, agentId, budget, createdMicros)] + others
                                + [SubmitRequest(site, owner, id, jobId, tx, now)]);
      && (r.Ok? <==> jobId < JOB_ID_LIMIT && !JobTaken(d, owner, jobId, id))
      && (r.Err? ==> d' == d)
      && (r.Ok? ==>
            && id in d'.rows && d'.rows[id].status == Paid
            && d'.rows[id].jobId == Some(jobId) && d'.rows[id].txHash == Some(tx)
            && d'.rows[id].terms.agentId == agentId && d'.rows[id].terms.provider == Some(site.agents[agentId].wallet)
            && d'.rows[id].terms.escrowChain == Some(site.escrowChain)
            && d'.rows[id].terms.budgetWei == Some(budget) && d'.rows[id].terms.owner == owner)
  {
    var id := EscrowInserts(Run(EMPTY_DESK, before), site, owner, agentId, budget, createdMicros);
    var d := EscrowStays(before, others, site, owner, agentId, budget, createdMicros, id);
    SubmitOpen(d, site, owner, id, jobId, tx, now);
    RunAppend(EMPTY_DESK, before + [EscrowRequest(site, owner, agentId, budget, createdMicros)] + others,
              SubmitRequest(site, owner, id, jobId, tx, now));
  }

  lemma EscrowStays(
    before: seq<Request>, others: seq<Request>, site: Site, owner: string, agentId: string, budget: nat,
    createdMicros: nat, id: nat)
    returns (d: Desk)
    requires CreateEscrow(Run(EMPTY_DESK, before), site, owner, agentId, budget, createdMicros).1 == Ok(id)
    requires forall i :: 0 <= i < |others| ==> NotSubmittedTo(others[i], id)
    ensures d == Run(EMPTY_DESK, before + [EscrowRequest(site, owner, agentId, budget, createdMicros)] + others)
    ensures var made := CreateEscrow(Run(EMPTY_DESK, before), site, owner, agentId, budget, createdMicros).0;
      id in made.rows && id in d.rows && d.rows[id] == made.rows[id]
  {
    var _ := EscrowInserts(Run(EMPTY_DESK, before), site, owner, agentId, budget, createdMicros);
    var qs := before + [EscrowRequest(site, owner, agentId, budget, createdMicros)] + others;
    var n := |before| + 1;
    assert qs[..n - 1] == before && qs[..|qs|] == qs;
    AtStep(qs, n);
    EscrowWaits(qs, n, |qs|, id);
    d := At(qs, |qs|);
  }

  lemma EscrowInserts(d: Desk, site: Site, owner: string, agentId: string, budget: nat, now: nat) returns (id: nat)
    requires CreateEscrow(d, site, owner, agentId, budget, now).1.Ok?
    ensures CreateEscrow(d, site, owner, agentId, budget, now).1 == Ok(id)
    ensures site.escrowEnabled && agentId in site.agents
    ensures var rows := CreateEscrow(d, site, owner, agentId, budget, now).0.rows;
      && id in rows && rows[id].terms.agentId == agentId && rows[id].terms.provider == Some(site.agents[agentId].wallet)
      && rows[id].terms.escrowChain == Some(site.escrowChain) && rows[id].status == Pending && rows[id].jobId.None?
      && rows[id].terms.rail == Erc8183 && rows[id].terms.owner == owner && rows[id].terms.budgetWei == Some(budget)
  {
    id := d.nextId;
  }

  /** Submitting to one's own pending escrow row. */
  lemma SubmitOpen(d: Desk, site: Site, owner: string, id: nat, jobId: nat, tx: string, now: nat)
    requires site.escrowEnabled && id in d.rows && d.rows[id].terms.owner == owner
    requires d.rows[id].terms.rail == Erc8183 && d.rows[id].status == Pending && d.rows[id].jobId.None?
    ensures var (d', r) := Submit(d, site, owner, id, jobId, tx, now);
      && (r.Ok? <==> jobId < JOB_ID_LIMIT && !JobTaken(d, owner, jobId, id))
      && (r.Err? ==> d' == d)
      && (r.Ok? ==> d'.rows == d.rows[id := Bound(d.rows[id], jobId, tx, now)])
  {
  }
}
