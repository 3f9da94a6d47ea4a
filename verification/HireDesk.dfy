/**
 The hire table with both settlement rails: x402 create/pay (app/routers/hires.py) and ERC-8183
 escrow create/submit (app/routers/escrow_hires.py). Each request is one atomic step on the
 table; `HireDesk` is the table updated in place and the functions say what each step does.
 */
module HireDesk {
  import opened Json
  import opened Payment
  import opened PyText
  import opened Wrappers

  // ---- Rows --------------------------------------------------------------------------

  datatype Status = Pending | Paid | Failed | Cancelled

  datatype HireRail = Eip3009 | Erc8183

  /** The columns only the insert writes: who hired whom and on what terms. */
  datatype Terms = Terms(
    owner: string, agentId: string, rail: HireRail, amount: Option<nat>, token: Option<string>,
    payTo: Option<string>, expiryMicros: Option<nat>, asset: Option<string>,
    network: Option<string>, escrowChain: Option<nat>, provider: Option<string>,
    budgetWei: Option<nat>)

  datatype Hire = Hire(
    terms: Terms, status: Status, txHash: Option<string>, jobId: Option<nat>, updatedMicros: nat)

  /** How a broadcast ended: mined, refused with BroadcastFailed, or an unforeseen exception. */
  datatype Outcome = Settled(txHash: string) | Refused | Raised

  /** One call of the broadcaster: the transaction it sends and how that ended. */
  datatype Broadcast = Broadcast(
    hireId: nat, rpcUrl: string, chainId: nat, token: string, authorization: Authorization,
    signature: string, outcome: Outcome)

  datatype Desk = Desk(rows: map<nat, Hire>, nextId: nat, calls: seq<Broadcast>)

  const EMPTY_DESK := Desk(map[], 1, [])

  // ---- Surroundings ------------------------------------------------------------------

  datatype Agent = Agent(a2aEndpoint: string, agentUrl: string, wallet: string)

  /** The answers of agent endpoints; None stands for a blocked URL or a transport error. */
  datatype Web = Web(get: string -> Option<ProbeResponse>, post: string -> Option<ProbeResponse>)

  datatype Site = Site(
    baseUrl: string, rails: RailMap, scheme: Scheme, agents: map<string, Agent>, web: Web,
    paymentsConfigured: bool, escrowEnabled: bool, escrowChain: nat)

  /** `probe_agent_offer`: GET, then POST when GET answers 405. */
  function Probe(web: Web, url: string): Result<Option<Offer>, PayError> {
    match web.get(url)
    case None => Ok(None)
    case Some(first) =>
      if first.status != 405 then ParseOffer(first)
      else
        match web.post(url)
        case None => Ok(None)
        case Some(second) => ParseOffer(second)
  }

  /** The offer a hire is charged on and its chain: probed afresh, supported by a rail. */
  function QuotedOffer(site: Site, agent: Agent): Result<(Offer, nat), PayError> {
    var url := if agent.a2aEndpoint != "" then agent.a2aEndpoint else agent.agentUrl;
    if url == "" then Err(OfferUnavailable)
    else
      var found :- Probe(site.web, url);
      match found
      case None => Err(OfferUnavailable)
      case Some(offer) =>
        var chain :- SupportedChain(site.rails, offer);
        match chain
        case None => Err(OfferUnavailable)
        case Some(chainId) => Ok((offer, chainId))
  }

  // ---- x402: create ------------------------------------------------------------------

  /** `amount` is NUMERIC(38, 18): at most 20 integer digits. */
  const AMOUNT_LIMIT: nat := 100_000_000_000_000_000_000

  predicate Sweepable(h: Hire, owner: string, nowMicros: nat) {
    && h.terms.owner == owner && h.status == Pending
    && h.terms.expiryMicros.Some? && h.terms.expiryMicros.value < nowMicros
  }

  function SweepRow(h: Hire, owner: string, nowMicros: nat): Hire {
    if Sweepable(h, owner, nowMicros) then h.(status := Cancelled, updatedMicros := nowMicros) else h
  }

  /** `sweep_expired`: the owner's overdue pending rows become cancelled. */
  function Sweep(rows: map<nat, Hire>, owner: string, nowMicros: nat): map<nat, Hire> {
    map id | id in rows :: SweepRow(rows[id], owner, nowMicros)
  }

  function X402Terms(owner: string, agentId: string, offer: Offer, chainId: nat, rail: Rail, nowMicros: nat)
    : Terms
    requires offer.asset.Str? && offer.network.Str?
  {
    Terms(owner, agentId, Eip3009, Some(offer.amountWei), Some(rail.token), Some(offer.payTo),
          Some(nowMicros + DEFAULT_TIMEOUT_SECONDS * MICROS), Some(offer.asset.s),
          Some(offer.network.s), None, None, None)
  }

  datatype Created = Created(id: nat, hire: Hire, challenge: Challenge)

  /** The part of `create_hire` that can fail: the quote and the challenge for the next row. */
  function Challenged(site: Site, agentId: string, nextId: nat): (r: Result<(Offer, nat, Challenge), PayError>)
    ensures r.Ok? ==>
      r.value.1 in site.rails && r.value.0.asset.Str? && r.value.0.network.Str? && r.value.0.amountWei < AMOUNT_LIMIT
  {
    if agentId !in site.agents then Err(NotFound)
    else
      var (offer, chainId) :- QuotedOffer(site, site.agents[agentId]);
      if chainId !in site.rails || !offer.asset.Str? || !offer.network.Str? then Err(OfferUnavailable)
      else if offer.payTo == "" then Err(NoPayTo)
      else if offer.amountWei >= AMOUNT_LIMIT then Err(NumericOverflow)
      else
        var challenge :- BuildChallenge(site.rails, offer.payTo, site.baseUrl + "/api/hires/" + FormatNat(nextId),
                                        offer.amountWei, DEFAULT_TIMEOUT_SECONDS, chainId);
        Ok((offer, chainId, challenge))
  }

  function FreshHire(site: Site, owner: string, agentId: string, offer: Offer, chainId: nat, nowMicros: nat): Hire
    requires chainId in site.rails && offer.asset.Str? && offer.network.Str?
  {
    Hire(X402Terms(owner, agentId, offer, chainId, site.rails[chainId], nowMicros), Pending, None, None, nowMicros)
  }

  /** A quote that can be recorded: its chain has a rail and its fields are strings. */
  predicate Recordable(site: Site, quoted: Result<(Offer, nat, Challenge), PayError>) {
    quoted.Ok? ==> quoted.value.1 in site.rails && quoted.value.0.asset.Str? && quoted.value.0.network.Str?
  }

  /** The part that changes the table. An error leaves it as it was: nothing is committed. */
  function Opened(d: Desk, site: Site, owner: string, agentId: string, nowMicros: nat,
                  quoted: Result<(Offer, nat, Challenge), PayError>)
    : (Desk, Result<Created, PayError>)
    requires Recordable(site, quoted)
  {
    match quoted
    case Err(e) => (d, Err(e))
    case Ok((offer, chainId, challenge)) =>
      var row := FreshHire(site, owner, agentId, offer, chainId, nowMicros);
      (Desk(Sweep(d.rows, owner, nowMicros)[d.nextId := row], d.nextId + 1, d.calls),
       Ok(Created(d.nextId, row, challenge)))
  }

  /** `create_hire` */
  function Create(d: Desk, site: Site, owner: string, agentId: string, nowMicros: nat)
    : (r: (Desk, Result<Created, PayError>))
  {
    Opened(d, site, owner, agentId, nowMicros, Challenged(site, agentId, d.nextId))
  }

  // ---- x402: pay ---------------------------------------------------------------------

  /** What the row says a payment must be, or why it cannot be paid. */
  function ExpectedOf(rails: RailMap, h: Hire, payer: string): Result<Expected, PayError> {
    if h.terms.amount.None? || h.terms.payTo.None? || h.terms.payTo.value == "" then Err(ChallengeExpired)
    else if h.terms.network.None? then Err(OfferUnavailable)
    else
      match ChainOf(h.terms.network.value)
      case None => Err(OfferUnavailable)
      case Some(chainId) =>
        if NetworkRaises(h.terms.network.value) || chainId !in rails then Err(OfferUnavailable)
        else Ok(Expected(chainId, rails[chainId], h.terms.payTo.value, h.terms.amount.value, payer))
  }

  /** The checks `pay_hire` makes on the row before it looks at the envelope. */
  function Gate(d: Desk, site: Site, payer: string, id: nat, nowMicros: nat): Result<Expected, PayError> {
    if id !in d.rows then Err(NotFound)
    else
      var h := d.rows[id];
      if h.terms.owner != payer then Err(Forbidden)
      else if h.status != Pending then Err(AlreadyPaid)
      else if !site.paymentsConfigured then Err(Unconfigured)
      else if h.terms.expiryMicros.Some? && h.terms.expiryMicros.value < nowMicros then Err(ChallengeExpired)
      else ExpectedOf(site.rails, h, payer)
  }

  /** The verdict on a decoded envelope, given what the row expects. */
  function Judge(
    c: Scheme, gate: Result<Expected, PayError>, decoding: Result<DecodedPayment, PayError>, nowMicros: nat
  ): Result<(Expected, DecodedPayment), PayError>
  {
    var expected :- gate;
    var decoded :- decoding;
    var _ :- Verify(c, decoded, expected, nowMicros);
    Ok((expected, decoded))
  }

  /** Every check before the broadcast: the expected and the decoded payment. */
  function Admit(d: Desk, site: Site, payer: string, id: nat, header: Option<Json>, nowMicros: nat)
    : Result<(Expected, DecodedPayment), PayError>
  {
    Judge(site.scheme, Gate(d, site, payer, id, nowMicros), Decode(header), nowMicros)
  }

  function BroadcastOf(id: nat, e: Expected, p: DecodedPayment, outcome: Outcome): Broadcast {
    Broadcast(id, e.rail.rpcUrl, p.chainId, p.token, p.authorization, p.signature, outcome)
  }

  /** `tx_hash` is a column of 66 characters. */
  const TX_HASH_LENGTH: nat := 66

  /** The row can record how the broadcast ended: a longer hash fails the commit, and an unforeseen
      exception never reaches it. */
  predicate Commits(outcome: Outcome) {
    outcome.Refused? || (outcome.Settled? && |outcome.txHash| <= TX_HASH_LENGTH)
  }

  /** The row after its broadcast ended. */
  function Conclude(h: Hire, outcome: Outcome, nowMicros: nat): Hire {
    if !Commits(outcome) then h
    else
      match outcome
      case Settled(tx) => h.(status := Paid, txHash := Some(tx), updatedMicros := nowMicros)
      case _ => h.(status := Failed, updatedMicros := nowMicros)
  }

  /** `pay_hire`; `outcome` is how the broadcaster would answer. */
  function Pay(d: Desk, site: Site, payer: string, id: nat, header: Option<Json>, nowMicros: nat, outcome: Outcome)
    : (Desk, Result<string, PayError>)
  {
    match Admit(d, site, payer, id, header, nowMicros)
    case Err(e) => (d, Err(e))
    case Ok((expected, decoded)) =>
      (d.(rows := d.rows[id := Conclude(d.rows[id], outcome, nowMicros)],
          calls := d.calls + [BroadcastOf(id, expected, decoded, outcome)]),
       if !Commits(outcome) then Err(Crash)
       else match outcome { case Settled(tx) => Ok(tx) case _ => Err(BroadcastFailed) })
  }

  /** What the row must satisfy for the gate to open, and what is then expected of the payment. */
  lemma GateFacts(d: Desk, site: Site, payer: string, id: nat, now: nat)
    requires Gate(d, site, payer, id, now).Ok?
    ensures
      var e := Gate(d, site, payer, id, now).value;
      && id in d.rows && d.rows[id].terms.owner == payer && d.rows[id].status == Pending
      && d.rows[id].terms.amount == Some(e.amountWei) && d.rows[id].terms.payTo == Some(e.payTo)
      && d.rows[id].terms.network.Some? && ChainOf(d.rows[id].terms.network.value) == Some(e.chainId)
      && !NetworkRaises(d.rows[id].terms.network.value)
      && e.chainId in site.rails && e.rail == site.rails[e.chainId] && e.payer == payer
  {
  }

  // ---- ERC-8183 escrow -----------------------------------------------------------------

  function Unsigned(s: string): string {
    if s != "" && s[0] in "+-" then s[1..] else s
  }

  function Unprefixed(s: string): string {
    if |s| >= 2 && Lower(s[..2]) == "0x" then s[2..] else s
  }

  /** The digits `int(s, 16)` reads: outer whitespace, a sign and a `0x` prefix aside. */
  function HexBody(s: string): string {
    Unprefixed(Unsigned(Strip(s)))
  }

  /** `int(s, 16)` does not raise. */
  predicate HexNumber(s: string) {
    HexBody(s) != "" && AllHex(HexBody(s))
  }

  /** `int(s, 16) == 0`. */
  predicate ZeroHex(s: string) {
    HexBody(s) != "" && forall i :: 0 <= i < |HexBody(s)| ==> HexBody(s)[i] == '0'
  }

  /** `budget_wei` is NUMERIC(38, 0) and `job_id` a 64-bit integer. */
  const BUDGET_LIMIT: nat := 100_000_000_000_000_000_000_000_000_000_000_000_000
  const JOB_ID_LIMIT: nat := 0x8000_0000_0000_0000

  function EscrowTerms(owner: string, agentId: string, chain: nat, provider: string, budgetWei: nat): Terms {
    Terms(owner, agentId, Erc8183, None, None, None, None, None, None, Some(chain), Some(provider),
          Some(budgetWei))
  }

  /** `create_escrow_hire`. A wallet that is no hexadecimal number makes `int` raise, one that does
      not encode as an address makes the calldata builder raise; either way nothing is committed. */
  function CreateEscrow(d: Desk, site: Site, owner: string, agentId: string, budgetWei: nat, nowMicros: nat)
    : (Desk, Result<nat, PayError>)
  {
    if !site.escrowEnabled then (d, Err(EscrowDisabled))
    else if agentId !in site.agents then (d, Err(NotFound))
    else
      var wallet := site.agents[agentId].wallet;
      if wallet == "" then (d, Err(OfferUnavailable))
      else if !HexNumber(wallet) then (d, Err(Crash))
      else if ZeroHex(wallet) then (d, Err(OfferUnavailable))
      else if budgetWei >= BUDGET_LIMIT then (d, Err(NumericOverflow))
      else if !Encodes(site.scheme, wallet) then (d, Err(Crash))
      else
        var terms := EscrowTerms(owner, agentId, site.escrowChain, wallet, budgetWei);
        (d.(rows := d.rows[d.nextId := Hire(terms, Pending, None, None, nowMicros)], nextId := d.nextId + 1),
         Ok(d.nextId))
  }

  /** The unique index on (address, job_id). */
  predicate JobTaken(d: Desk, owner: string, jobId: nat, except: nat) {
    exists other :: other in d.rows && other != except
                    && d.rows[other].terms.owner == owner && d.rows[other].jobId == Some(jobId)
  }

  /** The row bound to its on-chain job. */
  function Bound(h: Hire, jobId: nat, txHash: string, nowMicros: nat): Hire {
    h.(jobId := Some(jobId), txHash := Some(txHash), status := Paid, updatedMicros := nowMicros)
  }

  /** `submit_escrow_hire`. */
  function Submit(d: Desk, site: Site, caller: string, id: nat, jobId: nat, txHash: string, nowMicros: nat)
    : (Desk, Result<Hire, PayError>)
  {
    if !site.escrowEnabled then (d, Err(EscrowDisabled))
    else if id !in d.rows then (d, Err(NotFound))
    else
      var h := d.rows[id];
      if Lower(h.terms.owner) != Lower(caller) then (d, Err(Forbidden))
      else if h.terms.rail != Erc8183 then (d, Err(Conflict))
      else if h.status != Pending && h.status != Paid then (d, Err(AlreadyPaid))
      else if h.jobId.Some? && h.jobId.value != jobId then (d, Err(Conflict))
      else if jobId >= JOB_ID_LIMIT then (d, Err(NumericOverflow))
      else if JobTaken(d, h.terms.owner, jobId, id) then (d, Err(DuplicateJob))
      else
        (d.(rows := d.rows[id := Bound(h, jobId, txHash, nowMicros)]), Ok(Bound(h, jobId, txHash, nowMicros)))
  }

  /** When a submission succeeds, and what it leaves. */
  lemma SubmitFacts(d: Desk, site: Site, caller: string, id: nat, jobId: nat, txHash: string, nowMicros: nat)
    ensures var (d', r) := Submit(d, site, caller, id, jobId, txHash, nowMicros);
      && (r.Err? ==> d' == d)
      && (r.Ok? ==>
            && id in d.rows && Lower(d.rows[id].terms.owner) == Lower(caller) && d.rows[id].terms.rail == Erc8183
            && (d.rows[id].status == Pending || d.rows[id].status == Paid)
            && (d.rows[id].jobId.Some? ==> d.rows[id].jobId == Some(jobId))
            && !JobTaken(d, d.rows[id].terms.owner, jobId, id)
            && d' == d.(rows := d.rows[id := Bound(d.rows[id], jobId, txHash, nowMicros)]))
  {
  }

  // ---- The table, updated in place -----------------------------------------------------

  class HireTable {
    var rows: map<nat, Hire>
    var nextId: nat
    var calls: seq<Broadcast>

    function State(): Desk
      reads this
    {
      Desk(rows, nextId, calls)
    }

    constructor ()
      ensures State() == EMPTY_DESK
    {
      rows, nextId, calls := map[], 1, [];
    }

    /** The bulk UPDATE of the lazy sweep; returns its row count. */
    method SweepExpired(owner: string, nowMicros: nat) returns (cancelled: nat)
      modifies this`rows
      ensures rows == Sweep(old(rows), owner, nowMicros)
      ensures cancelled == |set id | id in old(rows) && Sweepable(old(rows)[id], owner, nowMicros)|
    {
      var due := set id | id in rows && Sweepable(rows[id], owner, nowMicros);
      cancelled := |due|;
      while due != {}
        invariant due == set id | id in old(rows) && id in due && Sweepable(old(rows)[id], owner, nowMicros)
        invariant rows.Keys == old(rows).Keys
        invariant forall id :: id in rows ==>
          rows[id] == if id in due then old(rows)[id] else SweepRow(old(rows)[id], owner, nowMicros)
        decreases |due|
      {
        var id :| id in due;
        rows := rows[id := rows[id].(status := Cancelled, updatedMicros := nowMicros)];
        due := due - {id};
      }
    }

    method CreateHire(site: Site, owner: string, agentId: string, nowMicros: nat)
      returns (r: Result<Created, PayError>)
      modifies this`rows, this`nextId
      ensures (State(), r) == Create(old(State()), site, owner, agentId, nowMicros)
    {
      var quoted := Challenged(site, agentId, nextId);
      if quoted.Err? {
        return Err(quoted.error);
      }
      var (offer, chainId, challenge) := quoted.value;
      var _ := SweepExpired(owner, nowMicros);
      var row := FreshHire(site, owner, agentId, offer, chainId, nowMicros);
      rows := rows[nextId := row];
      nextId := nextId + 1;
      r := Ok(Created(nextId - 1, row, challenge));
    }

    method PayHire(site: Site, payer: string, id: nat, header: Option<Json>, nowMicros: nat, outcome: Outcome)
      returns (r: Result<string, PayError>)
      modifies this`rows, this`calls
      ensures (State(), r) == Pay(old(State()), site, payer, id, header, nowMicros, outcome)
    {
      var admitted := Admit(State(), site, payer, id, header, nowMicros);
      if admitted.Err? {
        return Err(admitted.error);
      }
      var (expected, decoded) := admitted.value;
      calls := calls + [BroadcastOf(id, expected, decoded, outcome)];
      match outcome
      case Raised =>
        assert rows == old(rows)[id := Conclude(old(rows)[id], outcome, nowMicros)];
        return Err(Crash);
      case Refused =>
        rows := rows[id := rows[id].(status := Failed, updatedMicros := nowMicros)];
        assert rows == old(rows)[id := Conclude(old(rows)[id], outcome, nowMicros)];
        return Err(BroadcastFailed);
      case Settled(tx) =>
        if |tx| > TX_HASH_LENGTH {
          assert rows == old(rows)[id := Conclude(old(rows)[id], outcome, nowMicros)];
          return Err(Crash);
        }
        rows := rows[id := rows[id].(status := Paid, txHash := Some(tx), updatedMicros := nowMicros)];
        assert rows == old(rows)[id := Conclude(old(rows)[id], outcome, nowMicros)];
        return Ok(tx);
    }

    method CreateEscrowHire(site: Site, owner: string, agentId: string, budgetWei: nat, nowMicros: nat)
      returns (r: Result<nat, PayError>)
      modifies this`rows, this`nextId
      ensures (State(), r) == CreateEscrow(old(State()), site, owner, agentId, budgetWei, nowMicros)
    {
      if !site.escrowEnabled {
        return Err(EscrowDisabled);
      }
      if agentId !in site.agents {
        return Err(NotFound);
      }
      var wallet := site.agents[agentId].wallet;
      if wallet == "" {
        return Err(OfferUnavailable);
      }
      if !HexNumber(wallet) {
        return Err(Crash);
      }
      if ZeroHex(wallet) {
        return Err(OfferUnavailable);
      }
      if budgetWei >= BUDGET_LIMIT {
        return Err(NumericOverflow);
      }
      if !Encodes(site.scheme, wallet) {
        return Err(Crash);
      }
      var terms := EscrowTerms(owner, agentId, site.escrowChain, wallet, budgetWei);
      rows := rows[nextId := Hire(terms, Pending, None, None, nowMicros)];
      nextId := nextId + 1;
      r := Ok(nextId - 1);
    }

    method SubmitEscrowHire(site: Site, caller: string, id: nat, jobId: nat, txHash: string, nowMicros: nat)
      returns (r: Result<Hire, PayError>)
      modifies this`rows
      ensures (State(), r) == Submit(old(State()), site, caller, id, jobId, txHash, nowMicros)
    {
      if !site.escrowEnabled {
        return Err(EscrowDisabled);
      }
      if id !in rows {
        return Err(NotFound);
      }
      var h := rows[id];
      if Lower(h.terms.owner) != Lower(caller) {
        return Err(Forbidden);
      }
      if h.terms.rail != Erc8183 {
        return Err(Conflict);
      }
      if h.status != Pending && h.status != Paid {
        return Err(AlreadyPaid);
      }
      if h.jobId.Some? && h.jobId.value != jobId {
        return Err(Conflict);
      }
      if jobId >= JOB_ID_LIMIT {
        return Err(NumericOverflow);
      }
      if JobTaken(State(), h.terms.owner, jobId, id) {
        return Err(DuplicateJob);
      }
      h := h.(jobId := Some(jobId), txHash := Some(txHash), status := Paid, updatedMicros := nowMicros);
      rows := rows[id := h];
      r := Ok(h);
    }
  }
}
