/**
 The hire protocol end to end: from the agent's quote through the challenge, the browser's
 envelope and the pay request to the settlement transaction.
 */
module HireEndToEnd {
  import opened BrowserWallet
  import opened HireDesk
  import opened HireRuns
  import opened Json
  import opened Payment
  import opened PyText
  import opened Wrappers

  // ---- Create --------------------------------------------------------------------------

  /** What the agent's endpoint answers when asked for its offer: the A2A endpoint before the agent
      URL, by GET, and by POST where GET is answered with 405. */
  predicate Answers(site: Site, agent: Agent, resp: ProbeResponse) {
    var url := if agent.a2aEndpoint != "" then agent.a2aEndpoint else agent.agentUrl;
    && url != "" && site.web.get(url).Some?
    && (if site.web.get(url).value.status == 405 then site.web.post(url) else site.web.get(url)) == Some(resp)
  }

  /** The endpoint quotes this offer, on a chain with a rail. */
  ghost predicate QuotesFor(site: Site, agent: Agent, offer: Offer, chainId: nat) {
    && (exists resp :: Answers(site, agent, resp) && Quotes(resp, offer))
    && Supports(site.rails, offer, chainId)
  }

  lemma QuotedIff(site: Site, agent: Agent, offer: Offer, chainId: nat)
    ensures QuotedOffer(site, agent) == Ok((offer, chainId)) <==> QuotesFor(site, agent, offer, chainId)
  {
    SupportedIff(site.rails, offer, chainId);
    forall resp
      ensures ParseOffer(resp) == Ok(Some(offer)) <==> Quotes(resp, offer)
    {
      ParseOfferIff(resp, offer);
    }
    var url := if agent.a2aEndpoint != "" then agent.a2aEndpoint else agent.agentUrl;
    if url != "" && site.web.get(url).Some? {
      var first := site.web.get(url).value;
      var asked := if first.status == 405 then site.web.post(url) else site.web.get(url);
      assert forall resp :: Answers(site, agent, resp) <==> asked == Some(resp);
      assert Probe(site.web, url) == if asked.None? then Ok(None) else ParseOffer(asked.value);
    }
  }

  /** An offer that gets as far as being quoted names a payee and a chain with a rail. */
  lemma QuotedOfferFacts(site: Site, agent: Agent)
    requires QuotedOffer(site, agent).Ok?
    ensures var (offer, chainId) := QuotedOffer(site, agent).value;
      && MatchesAddress(offer.payTo) && offer.payTo != ""
      && offer.asset.Str? && offer.network.Str?
      && chainId in site.rails && ChainOf(offer.network.s) == Some(chainId) && !NetworkRaises(offer.network.s)
  {
  }

  /** A hire is created exactly when the agent is known, its endpoint quotes a supported offer and the
      amount fits its column. */
  lemma CreateSucceedsIff(d: Desk, site: Site, owner: string, agentId: string, now: nat)
    ensures var (d', r) := Create(d, site, owner, agentId, now);
      && (r.Ok? <==> && agentId in site.agents
                     && exists offer, chainId ::
                          QuotesFor(site, site.agents[agentId], offer, chainId) && offer.amountWei < AMOUNT_LIMIT)
      && (r.Err? ==> d' == d)
  {
    if agentId in site.agents {
      var agent := site.agents[agentId];
      if QuotedOffer(site, agent).Ok? {
        QuotedOfferFacts(site, agent);
        QuotedIff(site, agent, QuotedOffer(site, agent).value.0, QuotedOffer(site, agent).value.1);
      }
      if offer, chainId :| QuotesFor(site, agent, offer, chainId) && offer.amountWei < AMOUNT_LIMIT {
        QuotedIff(site, agent, offer, chainId);
      }
    }
  }

  /** Row and challenge of a created hire repeat the quote: the agent's payee and wei on its chain, the
      rail's token, the quoted asset and network as evidence, and 300 s to pay. */
  lemma CreateRecordsQuote(
    d: Desk, site: Site, owner: string, agentId: string, now: nat, offer: Offer, chainId: nat)
    requires agentId in site.agents && QuotesFor(site, site.agents[agentId], offer, chainId)
    requires offer.amountWei < AMOUNT_LIMIT
    ensures var (d', r) := Create(d, site, owner, agentId, now);
      var row := Hire(
        Terms(owner, agentId, Eip3009, Some(offer.amountWei), Some(site.rails[chainId].token), Some(offer.payTo),
              Some(now + 300_000_000), Some(offer.asset.s), Some(offer.network.s), None, None, None),
        Pending, None, None, now);
      && d' == Desk(Sweep(d.rows, owner, now)[d.nextId := row], d.nextId + 1, d.calls)
      && r.Ok? && r.value.id == d.nextId && r.value.hire == row
      && r.value.challenge
         == Challenge(site.baseUrl + "/api/hires/" + FormatNat(d.nextId),
                      Accept(NetworkOf(chainId), site.rails[chainId].token, offer.payTo, FormatNat(offer.amountWei),
                             300, site.rails[chainId].name, site.rails[chainId].version))
  {
    QuotedIff(site, site.agents[agentId], offer, chainId);
    QuotedOfferFacts(site, site.agents[agentId]);
  }

  // ---- Sign ----------------------------------------------------------------------------

  /** The quote a challenge was built from. */
  datatype Quote = Quote(chainId: nat, rail: Rail, payTo: string, amountWei: nat)

  /** A challenge carrying that quote with the default window. */
  predicate Carries(ch: Challenge, q: Quote) {
    ch.accept == Accept(NetworkOf(q.chainId), q.rail.token, q.payTo, FormatNat(q.amountWei),
                        DEFAULT_TIMEOUT_SECONDS, q.rail.name, q.rail.version)
  }

  /** What the browser signs for a quote. */
  function QuotedAuthorization(c: Scheme, key: nat, q: Quote, signedAt: nat, nonce: string): Authorization
    requires signedAt >= BACKDATE_SECONDS
  {
    Authorization(c.address(key), q.payTo, q.amountWei, signedAt - BACKDATE_SECONDS,
                  signedAt + DEFAULT_TIMEOUT_SECONDS, nonce)
  }

  /** The typed data of an authorization against a quote. */
  function Typed(q: Quote, auth: Authorization): TypedTransfer {
    TypedTransfer(q.rail.name, q.rail.version, q.chainId, q.rail.token, auth)
  }

  /** The browser produces an envelope exactly when payee and token encode as addresses, the nonce is
      32 bytes and chain and times are safe JavaScript numbers. The offer check is laxer: it also lets
      through a payee followed by a newline, a token of another length, and either in a mix of letter
      cases that is not its EIP-55 spelling. */
  lemma EnvelopeExistsIff(c: Scheme, key: nat, ch: Challenge, q: Quote, signedAt: nat, nonce: string)
    requires Lawful(c) && Carries(ch, q) && q.amountWei < AMOUNT_LIMIT
    ensures SignedEnvelope(c, key, ch, signedAt, nonce).Some? <==>
            && Encodes(c, q.payTo) && Encodes(c, q.rail.token) && q.chainId <= MAX_SAFE_INTEGER
            && BACKDATE_SECONDS <= signedAt && signedAt + DEFAULT_TIMEOUT_SECONDS <= MAX_SAFE_INTEGER
            && IsHex(nonce) && |nonce| == 66
    ensures SignedEnvelope(c, key, ch, signedAt, nonce).Some? ==>
            var auth := QuotedAuthorization(c, key, q, signedAt, nonce);
            && Signable(c, Typed(q, auth))
            && SignedEnvelope(c, key, ch, signedAt, nonce).value == EnvelopeJson(ch, auth, c.sign(key, Typed(q, auth)))
  {
    NetworkRoundTrip(q.chainId);
    ParseFormat(q.amountWei);
    assert Encodes(c, c.address(key));
  }

  // ---- Pay -----------------------------------------------------------------------------

  /** The window in which an honest envelope verifies. */
  predicate InWindow(signedAt: nat, nowMicros: nat) {
    signedAt < nowMicros / MICROS + BACKDATE_SECONDS && nowMicros / MICROS < signedAt + DEFAULT_TIMEOUT_SECONDS
  }

  /** Verifying a payment its payer signed for the quote, in any spelling of the payee that encodes,
      comes down to the authorization's own time window. */
  lemma HonestPaymentVerifiesIff(c: Scheme, key: nat, q: Quote, payer: string, auth: Authorization, now: nat)
    requires Lawful(c) && Lower(c.address(key)) == Lower(payer)
    requires auth.value == q.amountWei && Lower(auth.to) == Lower(q.payTo) && Signable(c, Typed(q, auth))
    ensures
      var decoded := DecodedPayment(q.chainId, q.rail.token, auth, c.sign(key, Typed(q, auth)), None);
      var expected := Expected(q.chainId, q.rail, q.payTo, q.amountWei, payer);
      (Verify(c, decoded, expected, now).Ok? <==> auth.validAfter < now / MICROS < auth.validBefore)
  {
    assert c.recover(Typed(q, auth), c.sign(key, Typed(q, auth))) == Recovered(c.address(key));
  }

  /** The broadcast an honest payment leads to: what the browser signed, with its signature, on the
      quoted chain, with the rail's token as the contract called. */
  function SignedBroadcast(c: Scheme, key: nat, id: nat, q: Quote, signedAt: nat, nonce: string, outcome: Outcome)
    : Broadcast
    requires signedAt >= BACKDATE_SECONDS
  {
    var auth := Authorization(c.address(key), q.payTo, q.amountWei, signedAt - 120, signedAt + 300, nonce);
    Broadcast(id, q.rail.rpcUrl, q.chainId, q.rail.token, auth, c.sign(key, Typed(q, auth)), outcome)
  }

  /** A row that still waits for exactly this quote. */
  predicate Awaits(h: Hire, q: Quote, owner: string, createdMicros: nat) {
    && h.status == Pending && h.terms.owner == owner
    && h.terms.amount == Some(q.amountWei) && h.terms.payTo == Some(q.payTo) && q.payTo != ""
    && h.terms.network.Some? && ChainOf(h.terms.network.value) == Some(q.chainId)
    && !NetworkRaises(h.terms.network.value)
    && h.terms.expiryMicros == Some(createdMicros + DEFAULT_TIMEOUT_SECONDS * MICROS)
  }

  /** What the browser posts decodes to what it signed. */
  lemma SignedDecodes(c: Scheme, key: nat, ch: Challenge, q: Quote, signedAt: nat, nonce: string)
    returns (decoded: DecodedPayment)
    requires Lawful(c) && Carries(ch, q) && q.amountWei < AMOUNT_LIMIT
    requires SignedEnvelope(c, key, ch, signedAt, nonce).Some?
    ensures signedAt >= BACKDATE_SECONDS
    ensures var auth := QuotedAuthorization(c, key, q, signedAt, nonce);
      && Signable(c, Typed(q, auth))
      && decoded == DecodedPayment(q.chainId, q.rail.token, auth, c.sign(key, Typed(q, auth)), None)
      && Decode(SignedEnvelope(c, key, ch, signedAt, nonce)) == Ok(decoded)
  {
    EnvelopeExistsIff(c, key, ch, q, signedAt, nonce);
    var auth := QuotedAuthorization(c, key, q, signedAt, nonce);
    var signature := c.sign(key, Typed(q, auth));
    EnvelopeDecodes(ch, q.chainId, auth, signature);
    decoded := DecodedPayment(q.chainId, q.rail.token, auth, signature, None);
  }

  /** Pay admits the browser's envelope exactly while the challenge is open and the signed window
      contains the present second. */
  lemma PayAdmitsIff(
    d: Desk, site: Site, owner: string, id: nat, ch: Challenge, q: Quote, key: nat,
    createdMicros: nat, signedAt: nat, nonce: string, now: nat, outcome: Outcome)
    requires Lawful(site.scheme) && site.paymentsConfigured
    requires id in d.rows && Awaits(d.rows[id], q, owner, createdMicros)
    requires q.chainId in site.rails && site.rails[q.chainId] == q.rail
    requires Carries(ch, q) && q.amountWei < AMOUNT_LIMIT
    requires Lower(site.scheme.address(key)) == Lower(owner)
    requires SignedEnvelope(site.scheme, key, ch, signedAt, nonce).Some?
    ensures var header := SignedEnvelope(site.scheme, key, ch, signedAt, nonce);
      && (Admit(d, site, owner, id, header, now).Ok? <==>
          now <= createdMicros + DEFAULT_TIMEOUT_SECONDS * MICROS && InWindow(signedAt, now))
      && (Admit(d, site, owner, id, header, now).Ok? ==>
            var (e, p) := Admit(d, site, owner, id, header, now).value;
            && signedAt >= BACKDATE_SECONDS
            && BroadcastOf(id, e, p, outcome) == SignedBroadcast(site.scheme, key, id, q, signedAt, nonce, outcome))
  {
    var c := site.scheme;
    var header := SignedEnvelope(c, key, ch, signedAt, nonce);
    var decoded := SignedDecodes(c, key, ch, q, signedAt, nonce);
    HonestPaymentVerifiesIff(c, key, q, owner, QuotedAuthorization(c, key, q, signedAt, nonce), now);
    var expected := AwaitsExpected(site.rails, d.rows[id], q, owner, createdMicros);
    AdmitFromParts(d, site, owner, id, header, now, expected, decoded);
    BroadcastIsSigned(c, key, id, q, signedAt, nonce, outcome, owner, decoded);
  }

  lemma AwaitsExpected(rails: RailMap, h: Hire, q: Quote, owner: string, createdMicros: nat)
    returns (expected: Expected)
    requires Awaits(h, q, owner, createdMicros) && q.chainId in rails && rails[q.chainId] == q.rail
    ensures expected == Expected(q.chainId, q.rail, q.payTo, q.amountWei, owner)
    ensures ExpectedOf(rails, h, owner) == Ok(expected)
  {
    expected := Expected(q.chainId, q.rail, q.payTo, q.amountWei, owner);
  }

  lemma BroadcastIsSigned(
    c: Scheme, key: nat, id: nat, q: Quote, signedAt: nat, nonce: string, outcome: Outcome, owner: string,
    decoded: DecodedPayment)
    requires signedAt >= BACKDATE_SECONDS
    requires var auth := QuotedAuthorization(c, key, q, signedAt, nonce);
      decoded == DecodedPayment(q.chainId, q.rail.token, auth, c.sign(key, Typed(q, auth)), None)
    ensures BroadcastOf(id, Expected(q.chainId, q.rail, q.payTo, q.amountWei, owner), decoded, outcome)
         == SignedBroadcast(c, key, id, q, signedAt, nonce, outcome)
  {
  }

  lemma AdmitFromParts(
    d: Desk, site: Site, payer: string, id: nat, header: Option<Json>, now: nat,
    expected: Expected, decoded: DecodedPayment)
    requires id in d.rows && d.rows[id].terms.owner == payer && d.rows[id].status == Pending
    requires site.paymentsConfigured && d.rows[id].terms.expiryMicros.Some?
    requires ExpectedOf(site.rails, d.rows[id], payer) == Ok(expected) && Decode(header) == Ok(decoded)
    ensures Admit(d, site, payer, id, header, now).Ok? <==>
            now <= d.rows[id].terms.expiryMicros.value && Verify(site.scheme, decoded, expected, now).Ok?
    ensures Admit(d, site, payer, id, header, now).Ok? ==>
            Admit(d, site, payer, id, header, now).value == (expected, decoded)
  {
  }

  // ---- Whole runs ----------------------------------------------------------------------

  /** A request that cannot touch an open x402 row: no payment of it, no clock past its expiry. */
  predicate LeavesOpen(q: Request, id: nat, expiryMicros: nat) {
    !(q.PayRequest? && q.id == id) && q.nowMicros <= expiryMicros
  }

  lemma StepLeavesOpen(d: Desk, q: Request, id: nat)
    requires Invariant(d) && id in d.rows
    requires d.rows[id].status == Pending && d.rows[id].terms.rail == Eip3009
    requires d.rows[id].terms.expiryMicros.Some? && LeavesOpen(q, id, d.rows[id].terms.expiryMicros.value)
    ensures id in Step(d, q).rows && Step(d, q).rows[id] == d.rows[id]
  {
    StepChanges(d, q, id);
  }

  /** An open hire waits unchanged through any other requests made before it expires. */
  lemma {:induction false} OpenHireWaits(qs: seq<Request>, n: nat, m: nat, id: nat, h: Hire)
    requires n <= m <= |qs| && id in At(qs, n).rows && At(qs, n).rows[id] == h
    requires h.status == Pending && h.terms.rail == Eip3009 && h.terms.expiryMicros.Some?
    requires forall i :: n <= i < m ==> LeavesOpen(qs[i], id, h.terms.expiryMicros.value)
    ensures id in At(qs, m).rows && At(qs, m).rows[id] == h
  {
    if n < m {
      OpenHireWaits(qs, n, m - 1, id, h);
      RunsKeepInvariant(qs[..m - 1]);
      AtStep(qs, m);
      StepLeavesOpen(At(qs, m - 1), qs[m - 1], id);
    }
  }

  /** What a mined transaction leaves of a pay request. */
  lemma PaySettled(d: Desk, site: Site, payer: string, id: nat, header: Option<Json>, now: nat, tx: string)
    ensures var (d', r) := Pay(d, site, payer, id, header, now, Settled(tx));
      match Admit(d, site, payer, id, header, now)
      case Err(_) => d' == d && r.Err?
      case Ok((e, p)) =>
        && id in d.rows && d'.calls == d.calls + [BroadcastOf(id, e, p, Settled(tx))]
        && (if |tx| <= TX_HASH_LENGTH then
              && r == Ok(tx)
              && d'.rows == d.rows[id := d.rows[id].(status := Paid, txHash := Some(tx), updatedMicros := now)]
            else r.Err? && d'.rows == d.rows)
  {
    if Admit(d, site, payer, id, header, now).Ok? {
      GateFacts(d, site, payer, id, now);
    }
  }

  /** After any history, an owner hires an agent whose endpoint quotes an offer, signs the challenge and
      pays it after any other requests. The payment is admitted exactly inside the signed window and
      before expiry; what is broadcast is what the browser signed, for the quoted wei to the quoted
      payee, and a mined transaction whose hash fits makes the row PAID with it. */
  lemma {:induction false} HirePaysInAnyRun(
    before: seq<Request>, others: seq<Request>, site: Site, owner: string, agentId: string, offer: Offer, chainId: nat,
    key: nat, createdMicros: nat, signedAt: nat, nonce: string, now: nat, txHash: string)
    requires Lawful(site.scheme) && site.paymentsConfigured
    requires Lower(site.scheme.address(key)) == Lower(owner)
    requires agentId in site.agents && QuotesFor(site, site.agents[agentId], offer, chainId)
    requires Create(Run(EMPTY_DESK, before), site, owner, agentId, createdMicros).1.Ok?
    requires var made := Create(Run(EMPTY_DESK, before), site, owner, agentId, createdMicros).1.value;
      && SignedEnvelope(site.scheme, key, made.challenge, signedAt, nonce).Some?
      && forall i :: 0 <= i < |others| ==>
           LeavesOpen(others[i], made.id, createdMicros + DEFAULT_TIMEOUT_SECONDS * MICROS)
    ensures
      var made := Create(Run(EMPTY_DESK, before), site, owner, agentId, createdMicros).1.value;
      var header := SignedEnvelope(site.scheme, key, made.challenge, signedAt, nonce);
      var quote := Quote(chainId, site.rails[chainId], offer.payTo, offer.amountWei);
      var d := Run(EMPTY_DESK, before + [CreateRequest(site, owner, agentId, createdMicros)] + others);
      var d' := Run(EMPTY_DESK, before + [CreateRequest(site, owner, agentId, createdMicros)] + others
                                + [PayRequest(site, owner, made.id, header, now, Settled(txHash))]);
      var r := Pay(d, site, owner, made.id, header, now, Settled(txHash)).1;
      var open := now <= createdMicros + DEFAULT_TIMEOUT_SECONDS * MICROS && InWindow(signedAt, now);
      && signedAt >= BACKDATE_SECONDS
      && made.hire.terms.amount == Some(offer.amountWei)
      && (if open then
            d'.calls == d.calls + [SignedBroadcast(site.scheme, key, made.id, quote, signedAt, nonce, Settled(txHash))]
          else d' == d && r.Err?)
      && (r == Ok(txHash) <==> open && |txHash| <= TX_HASH_LENGTH)
      && (r.Ok? ==>
            d'.rows == d.rows[made.id := made.hire.(status := Paid, txHash := Some(txHash), updatedMicros := now)])
      && (r.Err? ==> d'.rows == d.rows)
  {
    var d0 := Run(EMPTY_DESK, before);
    var made := Create(d0, site, owner, agentId, createdMicros).1.value;
    var quote := Quote(chainId, site.rails[chainId], offer.payTo, offer.amountWei);
    CreatedAwaits(d0, site, owner, agentId, createdMicros, offer, chainId);
    var d := CreatedWaits(before, others, site, owner, agentId, createdMicros);
    var _ := SignedDecodes(site.scheme, key, made.challenge, quote, signedAt, nonce);
    PayAdmitsIff(d, site, owner, made.id, made.challenge, quote, key, createdMicros, signedAt, nonce, now,
                 Settled(txHash));
    var header := SignedEnvelope(site.scheme, key, made.challenge, signedAt, nonce);
    PaySettled(d, site, owner, made.id, header, now, txHash);
    RunAppend(EMPTY_DESK, before + [CreateRequest(site, owner, agentId, createdMicros)] + others,
              PayRequest(site, owner, made.id, header, now, Settled(txHash)));
  }

  /** A created hire awaits the quote, and its challenge carries it. */
  lemma CreatedAwaits(d: Desk, site: Site, owner: string, agentId: string, now: nat, offer: Offer, chainId: nat)
    requires agentId in site.agents && QuotesFor(site, site.agents[agentId], offer, chainId)
    requires Create(d, site, owner, agentId, now).1.Ok?
    ensures var made := Create(d, site, owner, agentId, now).1.value;
      var quote := Quote(chainId, site.rails[chainId], offer.payTo, offer.amountWei);
      && offer.amountWei < AMOUNT_LIMIT && made.hire.terms.rail == Eip3009
      && Awaits(made.hire, quote, owner, now) && Carries(made.challenge, quote)
  {
    QuotedIff(site, site.agents[agentId], offer, chainId);
    QuotedOfferFacts(site, site.agents[agentId]);
    CreateRecordsQuote(d, site, owner, agentId, now, offer, chainId);
  }

  /** The created row is still as created after the other requests. */
  lemma {:induction false} CreatedWaits(
    before: seq<Request>, others: seq<Request>, site: Site, owner: string, agentId: string, now: nat)
    returns (d: Desk)
    requires Create(Run(EMPTY_DESK, before), site, owner, agentId, now).1.Ok?
    requires var made := Create(Run(EMPTY_DESK, before), site, owner, agentId, now).1.value;
      forall i :: 0 <= i < |others| ==> LeavesOpen(others[i], made.id, now + DEFAULT_TIMEOUT_SECONDS * MICROS)
    ensures d == Run(EMPTY_DESK, before + [CreateRequest(site, owner, agentId, now)] + others)
    ensures var made := Create(Run(EMPTY_DESK, before), site, owner, agentId, now).1.value;
      made.id in d.rows && d.rows[made.id] == made.hire
  {
    var d0 := Run(EMPTY_DESK, before);
    var made := Create(d0, site, owner, agentId, now).1.value;
    CreateInserts(d0, site, owner, agentId, now);
    var qs := before + [CreateRequest(site, owner, agentId, now)] + others;
    var n := |before| + 1;
    assert qs[..n - 1] == before && qs[..|qs|] == qs;
    AtStep(qs, n);
    OpenHireWaits(qs, n, |qs|, made.id, made.hire);
    d := At(qs, |qs|);
  }

  /** In particular an envelope signed at or after the second of creation is accepted at every
      moment from signing until 300 s after the second of creation. */
  lemma HonestWindowIsOpen(createdMicros: nat, signedAt: nat, now: nat)
    requires createdMicros / MICROS <= signedAt <= now / MICROS
    requires now / MICROS < createdMicros / MICROS + DEFAULT_TIMEOUT_SECONDS
    ensures now <= createdMicros + DEFAULT_TIMEOUT_SECONDS * MICROS && InWindow(signedAt, now)
  {
  }

  /** The last, partial second can be lost: a challenge created half a second past the signing
      second is still open when its earliest envelope has already run out. */
  lemma LastPartialSecondRejected()
    ensures var created, signedAt, now := 500_000 + 1000 * MICROS, 1000, 1300 * MICROS;
      && CreatedInSecond(created, signedAt) && now <= created + DEFAULT_TIMEOUT_SECONDS * MICROS
      && !InWindow(signedAt, now)
  {
  }

  predicate CreatedInSecond(createdMicros: nat, second: nat) {
    createdMicros / MICROS == second
  }

  // ---- What acceptance implies ---------------------------------------------------------

  /** Any admitted payment, however its envelope came about, pays the stored quote inside its own
      window and recovers to the caller. */
  lemma AdmittedMatchesQuote(d: Desk, site: Site, payer: string, id: nat, header: Option<Json>, now: nat)
    requires Admit(d, site, payer, id, header, now).Ok?
    ensures id in d.rows && d.rows[id].terms.owner == payer && d.rows[id].status == Pending
    ensures
      var (e, p) := Admit(d, site, payer, id, header, now).value;
      var terms := d.rows[id].terms;
      var signer := site.scheme.recover(TypedDataFor(p, e), p.signature);
      && terms.amount == Some(p.authorization.value)
      && terms.payTo.Some? && Lower(p.authorization.to) == Lower(terms.payTo.value)
      && terms.network.Some? && ChainOf(terms.network.value) == Some(p.chainId)
      && p.chainId in site.rails && e.rail == site.rails[p.chainId]
      && p.authorization.validAfter < now / MICROS < p.authorization.validBefore
      && signer.Recovered? && Lower(signer.address) == Lower(payer)
  {
    var (e, p) := Admit(d, site, payer, id, header, now).value;
    GateFacts(d, site, payer, id, now);
    VerifyAcceptsIff(site.scheme, p, e, now);
  }

  /** Payment p is admitted exactly when the header decodes to it, the caller's own pending hire is open,
      and p pays its stored quote on its chain and token, inside p's own window and signed by the
      caller. */
  lemma AdmittedIff(
    d: Desk, site: Site, payer: string, id: nat, header: Option<Json>, now: nat, p: DecodedPayment)
    ensures (Admit(d, site, payer, id, header, now).Ok? && Admit(d, site, payer, id, header, now).value.1 == p) <==>
            && Decode(header) == Ok(p) && Open(d, site, payer, id, now)
            && PaysRow(d.rows[id].terms, site, payer, p, now)
  {
    if Gate(d, site, payer, id, now).Ok? {
      VerifyAcceptsIff(site.scheme, p, Gate(d, site, payer, id, now).value, now);
    }
  }

  /** The caller's own hire, pending, not expired, with payments configured. */
  predicate Open(d: Desk, site: Site, payer: string, id: nat, now: nat) {
    && id in d.rows && d.rows[id].terms.owner == payer && d.rows[id].status == Pending && site.paymentsConfigured
    && (d.rows[id].terms.expiryMicros.Some? ==> now <= d.rows[id].terms.expiryMicros.value)
  }

  predicate PaysRow(terms: Terms, site: Site, payer: string, p: DecodedPayment, now: nat) {
    var a := p.authorization;
    && terms.amount == Some(a.value)
    && terms.payTo.Some? && terms.payTo.value != "" && Lower(a.to) == Lower(terms.payTo.value)
    && terms.network.Some? && ChainOf(terms.network.value) == Some(p.chainId) && !NetworkRaises(terms.network.value)
    && p.chainId in site.rails
    && (p.token == ZERO_ADDRESS || Lower(p.token) == Lower(site.rails[p.chainId].token))
    && a.validAfter < now / MICROS < a.validBefore
    && SignedBy(site, payer, p.chainId, a, p.signature)
  }

  /** The signature over this authorization recovers to the caller, on the rail's domain. */
  predicate SignedBy(site: Site, payer: string, chainId: nat, a: Authorization, signature: string)
    requires chainId in site.rails
  {
    var rail := site.rails[chainId];
    var signer := site.scheme.recover(TypedTransfer(rail.name, rail.version, chainId, rail.token, a), signature);
    signer.Recovered? && Lower(signer.address) == Lower(payer)
  }

  /** What is broadcast is what the envelope says: after an admitted payment the log ends with one call
      that carries the authorization and the signature spelled in the header's payload, whole and
      unchanged, on the chain and token it names, through that chain's node; and the signature over
      that authorization is the caller's. */
  lemma BroadcastIsEnvelope(
    d: Desk, site: Site, payer: string, id: nat, header: Option<Json>, now: nat, outcome: Outcome)
    requires Admit(d, site, payer, id, header, now).Ok?
    ensures var d' := Pay(d, site, payer, id, header, now, outcome).0;
      && |d'.calls| == |d.calls| + 1 && d'.calls[..|d.calls|] == d.calls
      && var b := d'.calls[|d.calls|];
         && b.hireId == id && b.outcome == outcome
         && b.chainId in site.rails && b.rpcUrl == site.rails[b.chainId].rpcUrl
         && SignedBy(site, payer, b.chainId, b.authorization, b.signature)
         && header.Some? && header.value.Obj? && Get(header.value, "payload").Obj?
         && var payload := Get(header.value, "payload");
            && Spells(Get(payload, "authorization"), b.authorization)
            && Get(payload, "signature") == Str(b.signature)
            && ChainIdOf(header.value) == Ok(Some(b.chainId)) && EnvelopeToken(header.value) == Some(b.token)
  {
    var (e, p) := Admit(d, site, payer, id, header, now).value;
    AdmittedIff(d, site, payer, id, header, now, p);
    GateFacts(d, site, payer, id, now);
    DecodedSpells(header.value, p);
  }

  lemma DecodedSpells(envelope: Json, p: DecodedPayment)
    requires Decode(Some(envelope)) == Ok(p)
    ensures envelope.Obj? && Get(envelope, "payload").Obj?
    ensures var payload := Get(envelope, "payload");
      && Spells(Get(payload, "authorization"), p.authorization) && Get(payload, "signature") == Str(p.signature)
      && ChainIdOf(envelope) == Ok(Some(p.chainId)) && EnvelopeToken(envelope) == Some(p.token)
  {
    assert DecodePrincipal(envelope) == Ok(p.(fee := None));
    PrincipalIff(envelope, p.(fee := None));
  }

  /** The authorization in the envelope is not valid yet. */
  predicate NotYetValid(header: Option<Json>, nowMicros: nat) {
    Decode(header).Ok? && Decode(header).value.authorization.validAfter >= nowMicros / MICROS
  }

  /** Retrying a refused envelope never helps: whatever is requested in between, one that is refused
      for any reason but being early stays refused on the same site at every later time. */
  lemma RefusedStaysRefused(
    qs: seq<Request>, n: nat, m: nat, site: Site, payer: string, id: nat, header: Option<Json>, now: nat, later: nat)
    requires n <= m <= |qs| && now <= later && id in At(qs, n).rows
    requires Admit(At(qs, n), site, payer, id, header, now).Err? && !NotYetValid(header, now)
    ensures Admit(At(qs, m), site, payer, id, header, later).Err?
  {
    RunEvolves(qs, n, m, id);
    if Admit(At(qs, m), site, payer, id, header, later).Ok? {
      GateWasOpen(At(qs, n), At(qs, m), site, payer, id, now, later);
      var (e, p) := Admit(At(qs, m), site, payer, id, header, later).value;
      VerifyAcceptsIff(site.scheme, p, e, now);
      VerifyAcceptsIff(site.scheme, p, e, later);
    }
  }

  /** A gate that is open on a row was open on it before, with the same expectation. */
  lemma GateWasOpen(d: Desk, d': Desk, site: Site, payer: string, id: nat, now: nat, later: nat)
    requires Gate(d', site, payer, id, later).Ok? && now <= later
    requires id in d.rows && id in d'.rows && Evolves(d.rows[id], d'.rows[id])
    ensures Gate(d, site, payer, id, now) == Gate(d', site, payer, id, later)
  {
  }

  /** The settlement transaction calls the rail's token exactly when the envelope named a token
      other than the zero address; an envelope naming none is broadcast to the zero address. */
  lemma SettlesOnRailTokenIff(
    d: Desk, site: Site, payer: string, id: nat, header: Option<Json>, now: nat, outcome: Outcome)
    requires Admit(d, site, payer, id, header, now).Ok?
    requires Lower(Admit(d, site, payer, id, header, now).value.0.rail.token) != Lower(ZERO_ADDRESS)
    ensures
      var (e, p) := Admit(d, site, payer, id, header, now).value;
      (Lower(BroadcastOf(id, e, p, outcome).token) == Lower(e.rail.token)
       <==> EnvelopeToken(header.value) != Some(ZERO_ADDRESS))
  {
    var (e, p) := Admit(d, site, payer, id, header, now).value;
    VerifyAcceptsIff(site.scheme, p, e, now);
    DecodedToken(header);
  }

  lemma DecodedToken(header: Option<Json>)
    requires Decode(header).Ok?
    ensures header.Some? && header.value.Obj? && EnvelopeToken(header.value) == Some(Decode(header).value.token)
  {
  }

  /** A rail whose token does not encode as an address is never settled, by any envelope. */
  lemma MalformedTokenNeverPaid(c: Scheme, e: Expected, header: Option<Json>, now: nat)
    requires Lawful(c) && !Encodes(c, e.rail.token)
    ensures Judge(c, Ok(e), Decode(header), now).Err?
  {
    if Decode(header).Ok? {
      VerifyAcceptsIff(c, Decode(header).value, e, now);
    }
  }

  lemma DeadRailNeverPaid(d: Desk, site: Site, payer: string, id: nat, header: Option<Json>, now: nat, chainId: nat)
    requires Lawful(site.scheme) && chainId in site.rails && !Encodes(site.scheme, site.rails[chainId].token)
    requires id in d.rows && d.rows[id].terms.network.Some? && ChainOf(d.rows[id].terms.network.value) == Some(chainId)
    ensures Admit(d, site, payer, id, header, now).Err?
  {
    if Gate(d, site, payer, id, now).Ok? {
      GateFacts(d, site, payer, id, now);
      MalformedTokenNeverPaid(site.scheme, Gate(d, site, payer, id, now).value, header, now);
    }
  }

  /** Polygon's shipped token has 41 digits, so no hire on chain 137 is ever admitted. */
  lemma PolygonHireNeverPaid(d: Desk, site: Site, payer: string, id: nat, header: Option<Json>, now: nat)
    requires Lawful(site.scheme) && site.rails == RAILS
    requires id in d.rows && d.rows[id].terms.network.Some? && ChainOf(d.rows[id].terms.network.value) == Some(137)
    ensures Admit(d, site, payer, id, header, now).Err?
  {
    assert RAILS[137].token == POLYGON_USDC && |POLYGON_USDC| == 43;
    DeadRailNeverPaid(d, site, payer, id, header, now, 137);
  }

  /** Avalanche's shipped token has one letter in the wrong case, so with the checksum that EIP-55
      gives it no hire on chain 43114 is ever admitted, nor signed in the browser. */
  lemma AvalancheHireNeverPaid(d: Desk, site: Site, payer: string, id: nat, header: Option<Json>, now: nat)
    requires Lawful(site.scheme) && site.rails == RAILS
    requires site.scheme.checksum(Lower(AVALANCHE_USDC)) == AVALANCHE_EIP55
    requires id in d.rows && d.rows[id].terms.network.Some? && ChainOf(d.rows[id].terms.network.value) == Some(43114)
    ensures Admit(d, site, payer, id, header, now).Err?
    ensures !Encodes(site.scheme, RAILS[43114].token)
  {
    AvalancheMiscased(site.scheme);
    DeadRailNeverPaid(d, site, payer, id, header, now, 43114);
  }

  lemma AvalancheMiscased(c: Scheme)
    requires c.checksum(Lower(AVALANCHE_USDC)) == AVALANCHE_EIP55
    ensures !Encodes(c, AVALANCHE_USDC)
  {
    assert AVALANCHE_USDC[39] == 'A' && AVALANCHE_EIP55[39] == 'a';
    assert 'A' <= AVALANCHE_USDC[39] <= 'F' && AVALANCHE_USDC[36] == 'c';
  }

  // ---- The legacy fee ------------------------------------------------------------------

  /** The same envelope with a fee payment signed into its payload. */
  function WithFee(envelope: Json, fee: Json): Json
    requires envelope.Obj? && Get(envelope, "payload").Obj?
  {
    var payload := Get(envelope, "payload");
    Obj(envelope.fields["payload" := Obj(payload.fields["fee" := fee])])
  }

  /** A well-formed fee by the same payer changes nothing: the pay request has the same answer and
      leaves the same table and the same broadcast. */
  lemma FeeChangesNothing(
    d: Desk, site: Site, payer: string, id: nat, envelope: Json, fee: Json, now: nat, outcome: Outcome)
    requires envelope.Obj? && Get(envelope, "payload").Obj?
    requires Get(Get(envelope, "payload"), "fee") == Null
    requires Decode(Some(envelope)).Ok? ==> DecodeFee(fee, Decode(Some(envelope)).value).Ok?
    ensures Pay(d, site, payer, id, Some(WithFee(envelope, fee)), now, outcome)
         == Pay(d, site, payer, id, Some(envelope), now, outcome)
  {
    DecodeIgnoresFee(envelope, fee);
    JudgeIgnoresFee(site.scheme, Gate(d, site, payer, id, now), Decode(Some(envelope)),
                    Decode(Some(WithFee(envelope, fee))), now);
  }

  /** Decodings that differ at most in the fee are judged alike. */
  lemma JudgeIgnoresFee(
    c: Scheme, gate: Result<Expected, PayError>, plain: Result<DecodedPayment, PayError>,
    charged: Result<DecodedPayment, PayError>, now: nat)
    requires plain.Err? ==> charged == plain
    requires plain.Ok? ==> charged.Ok? && charged.value.(fee := None) == plain.value
    ensures var a, b := Judge(c, gate, plain, now), Judge(c, gate, charged, now);
      && (a.Err? ==> b == a)
      && (a.Ok? ==> b.Ok? && b.value.0 == a.value.0 && b.value.1.(fee := None) == a.value.1)
  {
  }

  /** The fee leaves the envelope's own fields alone. */
  lemma FeeKeepsHead(envelope: Json, fee: Json)
    requires envelope.Obj? && Get(envelope, "payload").Obj?
    ensures var charged := WithFee(envelope, fee);
      && (WellHeaded(charged) <==> WellHeaded(envelope))
      && ChainIdOf(charged) == ChainIdOf(envelope) && EnvelopeToken(charged) == EnvelopeToken(envelope)
      && Get(charged, "payload") == Obj(Get(envelope, "payload").fields["fee" := fee])
  {
    var charged := WithFee(envelope, fee);
    assert Get(charged, "x402Version") == Get(envelope, "x402Version");
    assert Get(charged, "network") == Get(envelope, "network");
    assert Get(charged, "accepted") == Get(envelope, "accepted");
  }

  /** The fee leaves the principal payment alone. */
  lemma FeeKeepsPrincipal(envelope: Json, fee: Json)
    requires envelope.Obj? && WellHeaded(envelope)
    ensures WellHeaded(WithFee(envelope, fee))
    ensures DecodePrincipal(WithFee(envelope, fee)) == DecodePrincipal(envelope)
  {
    FeeKeepsHead(envelope, fee);
    var payload, charged := Get(envelope, "payload"), Get(WithFee(envelope, fee), "payload");
    assert Get(charged, "authorization") == Get(payload, "authorization");
    assert Get(charged, "signature") == Get(payload, "signature");
    assert DecodeSigned(charged) == DecodeSigned(payload);
  }

  /** Decoding with the fee differs from decoding without it in the `fee` field alone. */
  lemma DecodeIgnoresFee(envelope: Json, fee: Json)
    requires envelope.Obj? && Get(envelope, "payload").Obj?
    requires Get(Get(envelope, "payload"), "fee") == Null
    requires Decode(Some(envelope)).Ok? ==> DecodeFee(fee, Decode(Some(envelope)).value).Ok?
    ensures var plain, charged := Decode(Some(envelope)), Decode(Some(WithFee(envelope, fee)));
      && (plain.Err? ==> charged == plain)
      && (plain.Ok? ==> charged.Ok? && charged.value.(fee := None) == plain.value)
  {
    FeeKeepsHead(envelope, fee);
    if WellHeaded(envelope) {
      FeeKeepsPrincipal(envelope, fee);
    }
  }
}
