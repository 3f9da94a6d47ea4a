/**
 What the hire requests answer when they refuse (app/routers/hires.py, escrow_hires.py): which error
 for which cause, over every table and input.
 */
module HireAnswers {
  import opened HireDesk
  import opened HireEndToEnd
  import opened Json
  import opened Payment
  import opened PyText
  import opened Wrappers

  // ---- Create --------------------------------------------------------------------------

  /** The answer cannot be read: the probe raises on it, or the support check on what it quotes. */
  ghost predicate Unreadable(site: Site, resp: ProbeResponse) {
    || ParseOffer(resp).Err?
    || exists offer :: Quotes(resp, offer) && UnreadableOffer(site.rails, offer)
  }

  /** The network is neither null-like nor a string, or has too many digits, or names a rail whose token
      is compared with an asset that is no string. */
  predicate UnreadableOffer(rails: RailMap, offer: Offer) {
    if offer.network.Str? then
      && ChainOf(offer.network.s).Some?
      && (NetworkRaises(offer.network.s) || (ChainOf(offer.network.s).value in rails && !offer.asset.Str?))
    else Truthy(offer.network)
  }

  lemma UnreadableOfferIff(rails: RailMap, offer: Offer)
    ensures SupportedChain(rails, offer).Err? <==> UnreadableOffer(rails, offer)
    ensures SupportedChain(rails, offer).Err? ==> SupportedChain(rails, offer) == Err(Crash)
  {
  }

  /** A create is refused with 404 for an unknown agent only, raises exactly when the endpoint's answer is
      unreadable or the quoted wei do not fit, and otherwise answers that the offer is unavailable. */
  lemma CreateRefusals(d: Desk, site: Site, owner: string, agentId: string, now: nat)
    ensures var r := Create(d, site, owner, agentId, now).1;
      && (r == Err(NotFound) <==> agentId !in site.agents)
      && (r == Err(NumericOverflow) <==>
            agentId in site.agents
            && exists offer, chainId ::
                 QuotesFor(site, site.agents[agentId], offer, chainId) && offer.amountWei >= AMOUNT_LIMIT)
      && (r == Err(Crash) <==>
            agentId in site.agents
            && exists resp :: Answers(site, site.agents[agentId], resp) && Unreadable(site, resp))
      && (r.Err? ==> r.error in {NotFound, NumericOverflow, Crash, OfferUnavailable})
  {
    if agentId in site.agents {
      QuoteRaisesIff(site, site.agents[agentId]);
      var quoted := QuotedOffer(site, site.agents[agentId]);
      if quoted.Ok? {
        QuotedOfferFacts(site, site.agents[agentId]);
        QuotedIff(site, site.agents[agentId], quoted.value.0, quoted.value.1);
      }
      forall offer, chainId: nat
        ensures quoted == Ok((offer, chainId)) <==> QuotesFor(site, site.agents[agentId], offer, chainId)
      {
        QuotedIff(site, site.agents[agentId], offer, chainId);
      }
    }
  }

  lemma QuoteRaisesIff(site: Site, agent: Agent)
    ensures QuotedOffer(site, agent) == Err(Crash) <==>
            exists resp :: Answers(site, agent, resp) && Unreadable(site, resp)
    ensures QuotedOffer(site, agent).Err? ==> QuotedOffer(site, agent).error in {Crash, OfferUnavailable}
  {
    var url := if agent.a2aEndpoint != "" then agent.a2aEndpoint else agent.agentUrl;
    if url != "" && site.web.get(url).Some? {
      var first := site.web.get(url).value;
      var asked := if first.status == 405 then site.web.post(url) else site.web.get(url);
      assert forall resp :: Answers(site, agent, resp) <==> asked == Some(resp);
      assert QuotedOffer(site, agent) == Read(site, if asked.None? then Ok(None) else ParseOffer(asked.value));
      if asked.Some? {
        RaisesOn(site, asked.value);
        assert Answers(site, agent, asked.value);
      }
    }
  }

  /** What a read answer leads to. */
  function Read(site: Site, found: Result<Option<Offer>, PayError>): Result<(Offer, nat), PayError> {
    match found
    case Err(e) => Err(e)
    case Ok(None) => Err(OfferUnavailable)
    case Ok(Some(offer)) =>
      match SupportedChain(site.rails, offer)
      case Err(e) => Err(e)
      case Ok(None) => Err(OfferUnavailable)
      case Ok(Some(chainId)) => Ok((offer, chainId))
  }

  lemma RaisesOn(site: Site, resp: ProbeResponse)
    ensures Read(site, ParseOffer(resp)) == Err(Crash) <==> Unreadable(site, resp)
    ensures Read(site, ParseOffer(resp)).Err? ==> Read(site, ParseOffer(resp)).error in {Crash, OfferUnavailable}
  {
    forall offer
      ensures ParseOffer(resp) == Ok(Some(offer)) <==> Quotes(resp, offer)
    {
      ParseOfferIff(resp, offer);
    }
    if ParseOffer(resp).Ok? && ParseOffer(resp).value.Some? {
      UnreadableOfferIff(site.rails, ParseOffer(resp).value.value);
    }
  }

  // ---- Pay -----------------------------------------------------------------------------

  /** The hire is the caller's own. */
  predicate Mine(d: Desk, payer: string, id: nat) {
    id in d.rows && d.rows[id].terms.owner == payer
  }

  predicate Overdue(terms: Terms, now: nat) {
    terms.expiryMicros.Some? && terms.expiryMicros.value < now
  }

  predicate HasPaymentData(terms: Terms) {
    terms.amount.Some? && terms.payTo.Some? && terms.payTo.value != ""
  }

  /** The stored network names a chain with a rail. */
  predicate HasRail(terms: Terms, rails: RailMap) {
    && terms.network.Some? && ChainOf(terms.network.value).Some? && !NetworkRaises(terms.network.value)
    && ChainOf(terms.network.value).value in rails
  }

  /** What the row alone decides, in this order: 404, 403, 409, 503, expired, no settlement rail; and
      otherwise what the envelope is held to. */
  lemma GateRefusals(d: Desk, site: Site, payer: string, id: nat, now: nat)
    ensures var g := Gate(d, site, payer, id, now);
      && (g == Err(NotFound) <==> id !in d.rows)
      && (g == Err(Forbidden) <==> id in d.rows && !Mine(d, payer, id))
      && (g == Err(AlreadyPaid) <==> Mine(d, payer, id) && d.rows[id].status != Pending)
      && (g == Err(Unconfigured) <==>
            Mine(d, payer, id) && d.rows[id].status == Pending && !site.paymentsConfigured)
      && (g == Err(ChallengeExpired) <==>
            && Mine(d, payer, id) && d.rows[id].status == Pending && site.paymentsConfigured
            && (Overdue(d.rows[id].terms, now) || !HasPaymentData(d.rows[id].terms)))
      && (g == Err(OfferUnavailable) <==>
            Open(d, site, payer, id, now) && HasPaymentData(d.rows[id].terms) && !HasRail(d.rows[id].terms, site.rails))
      && (g.Ok? <==>
            Open(d, site, payer, id, now) && HasPaymentData(d.rows[id].terms) && HasRail(d.rows[id].terms, site.rails))
      && (g.Ok? ==>
            var terms := d.rows[id].terms;
            var chainId := ChainOf(terms.network.value).value;
            g.value == Expected(chainId, site.rails[chainId], terms.payTo.value, terms.amount.value, payer))
  {
  }

  /** What a payment on the right chain and token, of the right amount to the right payee, is held to. */
  predicate OnRail(p: DecodedPayment, e: Expected) {
    p.chainId == e.chainId && (p.token == ZERO_ADDRESS || Lower(p.token) == Lower(e.rail.token))
  }

  predicate InOwnWindow(a: Authorization, now: nat) {
    a.validAfter < now / MICROS < a.validBefore
  }

  /** Which refusal a decoded payment earns: chain and token before amount, amount before payee, payee
      before window, and the signature last. */
  lemma VerifyRefusals(c: Scheme, p: DecodedPayment, e: Expected, now: nat)
    ensures var v, a := Verify(c, p, e, now), p.authorization;
      var amount, payee := a.value == e.amountWei, Lower(a.to) == Lower(e.payTo);
      var signer := c.recover(TypedTransfer(e.rail.name, e.rail.version, e.chainId, e.rail.token, a), p.signature);
      && (v == Err(WrongChain) <==> !OnRail(p, e))
      && (v == Err(AmountMismatch) <==> OnRail(p, e) && !amount)
      && (v == Err(PayToMismatch) <==> OnRail(p, e) && amount && !payee)
      && (v == Err(ChallengeExpired) <==> OnRail(p, e) && amount && payee && !InOwnWindow(a, now))
      && (v == Err(Crash) <==> OnRail(p, e) && amount && payee && InOwnWindow(a, now) && signer.Unencodable?)
      && (v == Err(SignatureMismatch) <==>
            && OnRail(p, e) && amount && payee && InOwnWindow(a, now) && !signer.Unencodable?
            && (signer.BadSignature? || Lower(signer.address) != Lower(e.payer)))
  {
  }

  /** A pay request that the row lets through and whose envelope decodes answers as the verification says,
      and one it does not let through never looks at the envelope. */
  lemma PayRefusals(
    d: Desk, site: Site, payer: string, id: nat, header: Option<Json>, now: nat, outcome: Outcome)
    ensures var (d', r) := Pay(d, site, payer, id, header, now, outcome);
      match Gate(d, site, payer, id, now)
      case Err(e) => r == Err(e) && d' == d
      case Ok(expected) =>
        match Decode(header)
        case Err(e) => r == Err(e) && d' == d
        case Ok(p) =>
          match Verify(site.scheme, p, expected, now)
          case Err(e) => r == Err(e) && d' == d
          case Ok(_) =>
            && (r == Err(BroadcastFailed) <==> outcome == Refused)
            && (r.Ok? <==> outcome.Settled? && |outcome.txHash| <= 66)
            && (r.Ok? ==> r.value == outcome.txHash)
            && (r.Err? ==> r.error in {BroadcastFailed, Crash})
  {
  }

  // ---- Escrow --------------------------------------------------------------------------

  /** How `int(s, 16)` reads a numeral: outer whitespace, a sign, a prefix, hexadecimal digits. */
  predicate HexSpelling(s: string, left: string, sign: string, prefix: string, digits: string, right: string) {
    && s == left + sign + prefix + digits + right
    && AllSpace(left) && AllSpace(right) && sign in ["", "+", "-"] && prefix in ["", "0x", "0X"]
    && digits != "" && AllHex(digits)
  }

  ghost predicate SpellsHex(s: string, zero: bool) {
    exists left, sign, prefix, digits, right ::
      HexSpelling(s, left, sign, prefix, digits, right) && (zero ==> forall i :: 0 <= i < |digits| ==> digits[i] == '0')
  }

  lemma UnsignedOf(sign: string, rest: string)
    requires sign in ["", "+", "-"] && rest != "" && rest[0] !in "+-"
    ensures Unsigned(sign + rest) == rest
  {
  }

  lemma UnprefixedOf(prefix: string, digits: string)
    requires prefix in ["", "0x", "0X"] && digits != "" && AllHex(digits)
    ensures Unprefixed(prefix + digits) == digits
  {
    var s := prefix + digits;
    if prefix == "" && |digits| >= 2 {
      assert Lower(s[..2])[1] == LowerChar(digits[1]);
    } else if prefix != "" {
      assert s[..2] == prefix;
    }
  }

  lemma SpellingBody(s: string, left: string, sign: string, prefix: string, digits: string, right: string)
    requires HexSpelling(s, left, sign, prefix, digits, right)
    ensures HexBody(s) == digits
  {
    var core := sign + (prefix + digits);
    assert s == left + core + right;
    assert core[|core| - 1] == digits[|digits| - 1];
    StripRemovesPadding(left, core, right);
    UnsignedOf(sign, prefix + digits);
    UnprefixedOf(prefix, digits);
  }

  lemma UnsignedSplits(s: string) returns (sign: string)
    ensures sign in ["", "+", "-"] && s == sign + Unsigned(s)
  {
    sign := if s == "" || s[0] !in "+-" then "" else if s[0] == '+' then "+" else "-";
  }

  lemma UnprefixedSplits(s: string) returns (prefix: string)
    ensures prefix in ["", "0x", "0X"] && s == prefix + Unprefixed(s)
  {
    prefix := "";
    if |s| >= 2 && Lower(s[..2]) == "0x" {
      assert Lower(s[..2])[0] == LowerChar(s[0]) && Lower(s[..2])[1] == LowerChar(s[1]);
      prefix := if s[1] == 'x' then "0x" else "0X";
    }
  }

  lemma BodySpelling(s: string)
    requires HexNumber(s)
    ensures SpellsHex(s, false) && (ZeroHex(s) ==> SpellsHex(s, true))
  {
    var left, right := StripSplits(s);
    var sign := UnsignedSplits(Strip(s));
    var prefix := UnprefixedSplits(Unsigned(Strip(s)));
    Joined(s, left, sign, prefix, HexBody(s), right, Strip(s), Unsigned(Strip(s)));
    assert HexSpelling(s, left, sign, prefix, HexBody(s), right);
  }

  lemma Joined(s: string, left: string, sign: string, prefix: string, digits: string, right: string, core: string,
               unsigned: string)
    requires s == left + core + right && core == sign + unsigned && unsigned == prefix + digits
    ensures s == left + sign + prefix + digits + right
  {
  }

  /** Which wallets read as a number, and which as 0. */
  lemma HexNumberIff(s: string)
    ensures HexNumber(s) <==> SpellsHex(s, false)
    ensures ZeroHex(s) <==> SpellsHex(s, true)
  {
    if HexNumber(s) {
      BodySpelling(s);
    }
    if left, sign, prefix, digits, right :| HexSpelling(s, left, sign, prefix, digits, right) {
      SpellingBody(s, left, sign, prefix, digits, right);
    }
    if ZeroHex(s) {
      ZeroIsNumber(s);
    }
    if SpellsHex(s, true) {
      var left, sign, prefix, digits, right :|
        HexSpelling(s, left, sign, prefix, digits, right) && forall i :: 0 <= i < |digits| ==> digits[i] == '0';
      SpellingBody(s, left, sign, prefix, digits, right);
    }
  }

  /** The agent has a wallet that reads as a hexadecimal number other than 0. */
  predicate UsableWallet(wallet: string) {
    wallet != "" && HexNumber(wallet) && !ZeroHex(wallet)
  }

  /** An escrow hire is created exactly when the rail is on, the agent is known and has a usable wallet
      that encodes as an address, and the budget fits; the row names that wallet as provider, the
      site's escrow chain and the budget, and nothing of the other rail. */
  lemma EscrowCreateIff(d: Desk, site: Site, owner: string, agentId: string, budgetWei: nat, now: nat)
    ensures var (d', r) := CreateEscrow(d, site, owner, agentId, budgetWei, now);
      && (r.Ok? <==>
            && site.escrowEnabled && agentId in site.agents
            && UsableWallet(site.agents[agentId].wallet) && Encodes(site.scheme, site.agents[agentId].wallet)
            && budgetWei < 100_000_000_000_000_000_000_000_000_000_000_000_000)
      && (r.Ok? ==>
            var terms := Terms(owner, agentId, Erc8183, None, None, None, None, None, None, Some(site.escrowChain),
                               Some(site.agents[agentId].wallet), Some(budgetWei));
            && r.value == d.nextId
            && d' == Desk(d.rows[d.nextId := Hire(terms, Pending, None, None, now)], d.nextId + 1, d.calls))
      && (r.Err? ==> d' == d)
      && (r == Err(EscrowDisabled) <==> !site.escrowEnabled)
      && (r == Err(NotFound) <==> site.escrowEnabled && agentId !in site.agents)
      && (r == Err(OfferUnavailable) <==>
            && site.escrowEnabled && agentId in site.agents
            && (site.agents[agentId].wallet == "" || ZeroHex(site.agents[agentId].wallet)))
      && (r == Err(NumericOverflow) <==>
            && site.escrowEnabled && agentId in site.agents && UsableWallet(site.agents[agentId].wallet)
            && budgetWei >= BUDGET_LIMIT)
      && (r.Err? ==> r.error in {EscrowDisabled, NotFound, OfferUnavailable, NumericOverflow, Crash})
  {
    if agentId in site.agents {
      if ZeroHex(site.agents[agentId].wallet) {
        ZeroIsNumber(site.agents[agentId].wallet);
      }
    }
  }

  lemma ZeroIsNumber(s: string)
    requires ZeroHex(s)
    ensures HexNumber(s)
  {
  }

  /** A submission of the caller's own escrow hire that is not finished otherwise. */
  predicate Submittable(d: Desk, site: Site, caller: string, id: nat) {
    && site.escrowEnabled && id in d.rows && Lower(d.rows[id].terms.owner) == Lower(caller)
    && d.rows[id].terms.rail == Erc8183 && (d.rows[id].status == Pending || d.rows[id].status == Paid)
  }

  /** A submission succeeds exactly for the caller's own unfinished escrow hire, with the recorded job or
      a first one, which fits and which no other of its owner's rows records; the row then is PAID with
      that job and transaction, and nothing else changes. */
  lemma SubmitIff(d: Desk, site: Site, caller: string, id: nat, jobId: nat, txHash: string, now: nat)
    ensures var (d', r) := Submit(d, site, caller, id, jobId, txHash, now);
      && (r.Ok? <==>
            && Submittable(d, site, caller, id)
            && (d.rows[id].jobId == None || d.rows[id].jobId == Some(jobId)) && jobId < 0x8000_0000_0000_0000
            && forall other :: other in d.rows && other != id ==>
                 d.rows[other].terms.owner != d.rows[id].terms.owner || d.rows[other].jobId != Some(jobId))
      && (r.Ok? ==>
            && r.value == Hire(d.rows[id].terms, Paid, Some(txHash), Some(jobId), now)
            && d' == Desk(d.rows[id := r.value], d.nextId, d.calls))
      && (r.Err? ==> d' == d)
      && (r == Err(EscrowDisabled) <==> !site.escrowEnabled)
      && (r == Err(NotFound) <==> site.escrowEnabled && id !in d.rows)
      && (r == Err(Forbidden) <==>
            site.escrowEnabled && id in d.rows && Lower(d.rows[id].terms.owner) != Lower(caller))
      && (r == Err(AlreadyPaid) <==>
            && site.escrowEnabled && id in d.rows && Lower(d.rows[id].terms.owner) == Lower(caller)
            && d.rows[id].terms.rail == Erc8183 && d.rows[id].status != Pending && d.rows[id].status != Paid)
      && (r == Err(Conflict) <==>
            && site.escrowEnabled && id in d.rows && Lower(d.rows[id].terms.owner) == Lower(caller)
            && (|| d.rows[id].terms.rail != Erc8183
                || (Submittable(d, site, caller, id) && d.rows[id].jobId.Some? && d.rows[id].jobId != Some(jobId))))
      && (r.Err? ==>
            r.error in {EscrowDisabled, NotFound, Forbidden, AlreadyPaid, Conflict, NumericOverflow, DuplicateJob})
  {
  }
}
