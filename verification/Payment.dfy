/**
 The merchant half of the x402 payment: settlement rails, probed offers, the challenge, the
 signed envelope and its ordered verification (app/services/payment.py, x402_client.py).
 */
module Payment {
  import opened Json
  import opened PyText
  import opened Wrappers

  const MAX_TIMEOUT_SECONDS: nat := 480
  const DEFAULT_TIMEOUT_SECONDS: nat := 300
  const ZERO_ADDRESS := "0x0000000000000000000000000000000000000000"
  const MICROS: nat := 1_000_000
  /** Python's `int` refuses strings of more digits. */
  const INT_DIGITS: nat := 4300
  const UINT256: nat := 0x1_0000000000000000_0000000000000000_0000000000000000_0000000000000000

  // ---- Errors ----------------------------------------------------------------------

  /** The domain exceptions of the hire routes. `Crash` is any exception no handler turns into
      a domain error. */
  datatype PayError =
    | NotFound | Forbidden | AlreadyPaid | Conflict | Unconfigured | ChallengeExpired
    | OfferUnavailable | NoPayTo | ValidationError | InvalidEnvelope | UnsupportedRail
    | WrongChain | AmountMismatch | PayToMismatch | SignatureMismatch | BroadcastFailed
    | UnknownRail | EscrowDisabled | NumericOverflow | DuplicateJob | Crash

  // ---- Rails -----------------------------------------------------------------------

  datatype Rail = Rail(rpcUrl: string, token: string, name: string, version: string)

  type RailMap = map<nat, Rail>

  const BASE_USDC := "0x833589fCD6eDb6E08f4c7C32D4f71b54bdA02913"
  const POLYGON_USDC := "0x3c499c542cEF5E3811e1792ce70d8cC03d50c3359"
  const AVALANCHE_USDC := "0xB97EF9Ef8734C71904D8002F8b6Bc66Dd9c48A6E"
  const BSC_U_TOKEN := "0xcE24439F2D9C6a2289F741120FE202248B666666"
  const TESTNET_U_TOKEN := "0xc70B8741B8B07A6d61E54fd4B20f22Fa648E5565"

  /** The EIP-55 spelling of Avalanche's token; the configured one differs in one letter. */
  const AVALANCHE_EIP55 := "0xB97EF9Ef8734C71904D8002F8b6Bc66Dd9c48a6E"

  const RAILS: RailMap := map[
    8453 := Rail("https://mainnet.base.org", BASE_USDC, "USD Coin", "2"),
    137 := Rail("https://polygon-rpc.com", POLYGON_USDC, "USD Coin", "2"),
    43114 := Rail("https://api.avax.network/ext/bc/C/rpc", AVALANCHE_USDC, "USD Coin", "2"),
    56 := Rail("https://bsc-dataseed.bnbchain.org", BSC_U_TOKEN, "United Stables", "1"),
    97 := Rail("https://bsc-testnet-rpc.publicnode.com", TESTNET_U_TOKEN, "United Stables", "1")]

  // ---- CAIP-2 networks ---------------------------------------------------------------

  const EIP155 := "eip155:"

  /** `eip155:<n>`, the CAIP-2 name of chain n. */
  function NetworkOf(chainId: nat): string {
    EIP155 + FormatNat(chainId)
  }

  /** The chain id of a string matching `^eip155:(\d+)$`. */
  function ChainOf(network: string): Option<nat> {
    var s := DropFinalNewline(network);
    if |s| > |EIP155| && s[..|EIP155|] == EIP155 && AllDigits(s[|EIP155|..])
    then Some(ParseNat(s[|EIP155|..]))
    else None
  }

  /** `int` raises on the digits of a network that matches. */
  predicate NetworkRaises(network: string) {
    ChainOf(network).Some? && |DropFinalNewline(network)| - |EIP155| > INT_DIGITS
  }

  /** `int` raises on a string that matches `^\d+$`. */
  predicate DigitsRaise(j: Json) {
    j.Str? && MatchesDigits(j.s) && |DropFinalNewline(j.s)| > INT_DIGITS
  }

  /** A network names a chain exactly when it is `eip155:` and the chain's id in digits, with at most one
      newline after it; `int` raises on it exactly beyond 4300 digits. */
  lemma ChainOfIff(network: string, chainId: nat)
    ensures ChainOf(network) == Some(chainId) <==>
            exists digits :: digits != "" && AllDigits(digits) && Anchored(network, "eip155:" + digits)
                             && ParseNat(digits) == chainId
    ensures NetworkRaises(network) <==>
            exists digits :: |digits| > 4300 && AllDigits(digits) && Anchored(network, "eip155:" + digits)
  {
    var core := DropFinalNewline(network);
    if ChainOf(network).Some? {
      var tail := core[|EIP155|..];
      assert core == "eip155:" + tail;
    }
    forall digits | digits != "" && AllDigits(digits) && Anchored(network, "eip155:" + digits)
      ensures core == "eip155:" + digits && core[|EIP155|..] == digits && core[..|EIP155|] == EIP155
    {
      AnchoredIs(network, "eip155:" + digits);
    }
  }

  /** A chain's CAIP-2 name reads back as that chain. */
  lemma NetworkRoundTrip(chainId: nat)
    ensures ChainOf(NetworkOf(chainId)) == Some(chainId)
  {
    var digits := FormatNat(chainId);
    var s := NetworkOf(chainId);
    assert s[|EIP155|..] == digits && s[..|EIP155|] == EIP155;
    assert s[|s| - 1] == digits[|digits| - 1];
    ParseFormat(chainId);
  }

  // ---- The agent's offer -------------------------------------------------------------

  /** What an agent endpoint answered: its status and its decoded `payment-required` header. */
  datatype ProbeResponse = ProbeResponse(status: int, challenge: Option<Json>)

  /** `accepts[0]` of the agent's own challenge; asset and network are stored unvalidated. */
  datatype Offer = Offer(payTo: string, amountWei: nat, asset: Json, network: Json)

  const OFFER_KEYS: set<string> := {"payTo", "amount", "asset", "network"}

  /** `accepts[0]` when the header carries it as an object with the four quoted fields. */
  function FirstAccept(challenge: Json): Option<Json> {
    if challenge.Obj? && Get(challenge, "accepts").Arr? && |Get(challenge, "accepts").items| > 0 then
      var accept := Get(challenge, "accepts").items[0];
      if accept.Obj? && OFFER_KEYS <= accept.fields.Keys then Some(accept) else None
    else None
  }

  /** `str(amount)` matched against `^\d+$`. */
  predicate QuotesAmount(accept: Json)
    requires accept.Obj? && "amount" in accept.fields
  {
    AsNumeric(accept.fields["amount"]).Some?
  }

  /** `_parse_offer_response`: no offer, an offer, or an exception: from matching a payTo that is not
      a string, or from reading an amount of too many digits. */
  function ParseOffer(resp: ProbeResponse): Result<Option<Offer>, PayError> {
    if resp.status != 402 || resp.challenge.None? then Ok(None)
    else
      match FirstAccept(resp.challenge.value)
      case None => Ok(None)
      case Some(accept) =>
        var payTo := accept.fields["payTo"];
        if !payTo.Str? then Err(Crash)
        else if !MatchesAddress(payTo.s) || !QuotesAmount(accept) then Ok(None)
        else if DigitsRaise(accept.fields["amount"]) then Err(Crash)
        else
          Ok(Some(Offer(payTo.s, AsNumeric(accept.fields["amount"]).value, accept.fields["asset"],
                        accept.fields["network"])))
  }

  /** The probe is documented never to raise; it raises exactly when a complete first accept quotes
      a payTo that is not a string, or a good payTo with a decimal amount of more than 4300 digits. */
  lemma ProbeRaisesIff(resp: ProbeResponse)
    ensures ParseOffer(resp).Err? <==>
            && resp.status == 402 && resp.challenge.Some?
            && FirstAccept(resp.challenge.value).Some?
            && var quoted := FirstAccept(resp.challenge.value).value.fields;
               || !quoted["payTo"].Str?
               || (&& MatchesAddress(quoted["payTo"].s)
                   && quoted["amount"].Str? && MatchesDigits(quoted["amount"].s)
                   && |DropFinalNewline(quoted["amount"].s)| > INT_DIGITS)
  {
  }

  /** A JSON number, or a string of digits that `int` takes, whose value is n. */
  predicate ReadsNat(j: Json, n: nat) {
    || j == Int(n)
    || (j.Str? && MatchesDigits(j.s) && |DropFinalNewline(j.s)| <= INT_DIGITS && ParseNat(DropFinalNewline(j.s)) == n)
  }

  /** A number reads as itself, in either spelling. */
  lemma {:induction false} ReadsItself(n: nat)
    requires |FormatNat(n)| <= INT_DIGITS
    ensures ReadsNat(Int(n), n) && ReadsNat(Str(FormatNat(n)), n)
  {
    NoFinalNewline(FormatNat(n));
    ParseFormat(n);
  }

  /** The answer is a 402 whose first accept has these four members. */
  predicate Accepts(resp: ProbeResponse, payTo: Json, amount: Json, asset: Json, network: Json) {
    && resp.status == 402 && resp.challenge.Some?
    && var c := resp.challenge.value;
       && c.Obj? && "accepts" in c.fields && c.fields["accepts"].Arr? && |c.fields["accepts"].items| > 0
       && var a := c.fields["accepts"].items[0];
          && a.Obj? && OFFER_KEYS <= a.fields.Keys
          && a.fields["payTo"] == payTo && a.fields["amount"] == amount
          && a.fields["asset"] == asset && a.fields["network"] == network
  }

  /** The answer quotes the offer: a payTo of the address pattern and an amount that reads as its wei. */
  ghost predicate Quotes(resp: ProbeResponse, offer: Offer) {
    && MatchesAddress(offer.payTo)
    && exists amount :: ReadsNat(amount, offer.amountWei)
                        && Accepts(resp, Str(offer.payTo), amount, offer.asset, offer.network)
  }

  /** An answer parses to an offer exactly when it quotes it: payee, amount, asset and network are
      those of its first accept. */
  lemma ParseOfferIff(resp: ProbeResponse, offer: Offer)
    ensures ParseOffer(resp) == Ok(Some(offer)) <==> Quotes(resp, offer)
  {
    if resp.challenge.Some? && FirstAccept(resp.challenge.value).Some? {
      var quoted := FirstAccept(resp.challenge.value).value.fields;
      assert resp.status == 402 ==>
               Accepts(resp, quoted["payTo"], quoted["amount"], quoted["asset"], quoted["network"]);
    }
  }

  /** A 402 that quotes a number of wei, as a JSON number or as a string, is parsed to exactly it. */
  lemma {:induction false} QuotedAmountParses(
    resp: ProbeResponse, payTo: string, amount: nat, asset: Json, network: Json)
    requires MatchesAddress(payTo) && |FormatNat(amount)| <= INT_DIGITS
    requires || Accepts(resp, Str(payTo), Int(amount), asset, network)
             || Accepts(resp, Str(payTo), Str(FormatNat(amount)), asset, network)
    ensures Quotes(resp, Offer(payTo, amount, asset, network))
    ensures ParseOffer(resp) == Ok(Some(Offer(payTo, amount, asset, network)))
  {
    ReadsItself(amount);
    ParseOfferIff(resp, Offer(payTo, amount, asset, network));
  }

  /** Python truthiness of a JSON value. */
  predicate Truthy(j: Json) {
    match j
    case Null => false
    case Bool(b) => b
    case Int(n) => n != 0
    case Float(r) => r != 0.0
    case Str(s) => s != ""
    case Arr(items) => items != []
    case Obj(fields) => fields != map[]
  }

  /** The falsy values are the empty ones. */
  lemma FalsyIff(j: Json)
    ensures !Truthy(j) <==> j in [Null, Bool(false), Int(0), Float(0.0), Str(""), Arr([]), Obj(map[])]
  {
  }

  /** `is_supported_offer`: the offer's chain has a rail and its asset is that rail's token,
      letter case aside. */
  function SupportedChain(rails: RailMap, offer: Offer): Result<Option<nat>, PayError> {
    if Truthy(offer.network) && !offer.network.Str? then Err(Crash)
    else
      match (if offer.network.Str? then ChainOf(offer.network.s) else None)
      case None => Ok(None)
      case Some(chainId) =>
        if NetworkRaises(offer.network.s) then Err(Crash)
        else if chainId !in rails then Ok(None)
        else if !offer.asset.Str? then Err(Crash)
        else if Lower(offer.asset.s) == Lower(rails[chainId].token) then Ok(Some(chainId))
        else Ok(None)
  }

  /** The offer's network names the chain, the chain has a rail, and the asset is its token. */
  predicate Supports(rails: RailMap, offer: Offer, chainId: nat) {
    && offer.network.Str? && ChainOf(offer.network.s) == Some(chainId) && !NetworkRaises(offer.network.s)
    && chainId in rails && offer.asset.Str? && Lower(offer.asset.s) == Lower(rails[chainId].token)
  }

  lemma SupportedIff(rails: RailMap, offer: Offer, chainId: nat)
    ensures SupportedChain(rails, offer) == Ok(Some(chainId)) <==> Supports(rails, offer, chainId)
  {
  }

  // ---- The challenge -----------------------------------------------------------------

  /** The single accept of the 402 body (`scheme`, x402Version and error are constants). */
  datatype Accept = Accept(
    network: string, asset: string, payTo: string, amount: string, maxTimeoutSeconds: nat,
    name: string, version: string)

  datatype Challenge = Challenge(resourceUrl: string, accept: Accept)

  function BuildChallenge(
    rails: RailMap, payTo: string, resourceUrl: string, amountWei: nat, timeout: nat, chainId: nat
  ): (r: Result<Challenge, PayError>)
  {
    if !MatchesAddress(payTo) then Err(ValidationError)
    else if !(1 <= timeout <= MAX_TIMEOUT_SECONDS) then Err(ValidationError)
    else if chainId !in rails then Err(UnknownRail)
    else
      var rail := rails[chainId];
      Ok(Challenge(resourceUrl, Accept(NetworkOf(chainId), rail.token, payTo, FormatNat(amountWei),
                                       timeout, rail.name, rail.version)))
  }

  /** A challenge is built exactly for a payee of the address pattern, 1 to 480 s to pay and a chain with a
      rail; it spells the wei in decimal and the chain in CAIP-2, and takes token, name and version from
      the rail. */
  lemma {:induction false} ChallengeBuiltIff(
    rails: RailMap, payTo: string, url: string, amountWei: nat, timeout: nat, chainId: nat, ch: Challenge)
    ensures BuildChallenge(rails, payTo, url, amountWei, timeout, chainId) == Ok(ch) <==>
            && MatchesAddress(payTo) && 1 <= timeout <= 480 && chainId in rails
            && ch.resourceUrl == url && ch.accept.network == "eip155:" + FormatNat(chainId)
            && ch.accept.payTo == payTo && ch.accept.amount == FormatNat(amountWei)
            && ch.accept.maxTimeoutSeconds == timeout && ch.accept.asset == rails[chainId].token
            && ch.accept.name == rails[chainId].name && ch.accept.version == rails[chainId].version
  {
  }

  // ---- The envelope ------------------------------------------------------------------

  /** An EIP-3009 TransferWithAuthorization. */
  datatype Authorization = Authorization(
    from: string, to: string, value: nat, validAfter: nat, validBefore: nat, nonce: string)

  datatype DecodedPayment = DecodedPayment(
    chainId: nat, token: string, authorization: Authorization, signature: string,
    fee: Option<DecodedPayment>)

  /** `x402Version in (1, 2)`: Python's equality also accepts 1.0, 2.0 and True. */
  predicate VersionAccepted(j: Json) {
    j == Int(1) || j == Int(2) || j == Float(1.0) || j == Float(2.0) || j == Bool(true)
  }

  function OrInvalid<T>(found: Option<T>): Result<T, PayError> {
    match found case None => Err(InvalidEnvelope) case Some(value) => Ok(value)
  }

  /** `_as_numeric` */
  function ReadNumeric(j: Json): Result<nat, PayError> {
    if DigitsRaise(j) then Err(Crash) else OrInvalid(AsNumeric(j))
  }

  function NetworkField(j: Json): Result<Option<nat>, PayError> {
    if !j.Str? then Ok(None)
    else if NetworkRaises(j.s) then Err(Crash)
    else Ok(ChainOf(j.s))
  }

  function BareField(j: Json): Result<Option<nat>, PayError> {
    if DigitsRaise(j) then Err(Crash) else Ok(AsNumeric(j))
  }

  /** `_chain_id_of`: accepted.network, then network, then the bare chainId fallbacks. */
  function ChainIdOf(envelope: Json): Result<Option<nat>, PayError>
    requires envelope.Obj?
  {
    var accepted := Get(envelope, "accepted");
    var inner :- if accepted.Obj? then NetworkField(Get(accepted, "network")) else Ok(None);
    if inner.Some? then Ok(inner)
    else
      var outer :- NetworkField(Get(envelope, "network"));
      if outer.Some? then Ok(outer)
      else
        var innerId :- if accepted.Obj? then BareField(Get(accepted, "chainId")) else Ok(None);
        if innerId.Some? then Ok(innerId) else BareField(Get(envelope, "chainId"))
  }

  function DecodeAuthorization(j: Json): Result<Authorization, PayError> {
    if !j.Obj? then Err(InvalidEnvelope)
    else
      var from :- OrInvalid(AsAddress(Get(j, "from")));
      var to :- OrInvalid(AsAddress(Get(j, "to")));
      var value :- ReadNumeric(Get(j, "value"));
      var after :- ReadNumeric(Get(j, "validAfter"));
      var before :- ReadNumeric(Get(j, "validBefore"));
      var nonce :- OrInvalid(AsHex(Get(j, "nonce")));
      Ok(Authorization(from, to, value, after, before, nonce))
  }

  /** A payment signed into `payload` (or into the legacy `payload.fee`). */
  function DecodeSigned(payload: Json): Result<(Authorization, string), PayError>
    requires payload.Obj?
  {
    var authorization :- DecodeAuthorization(Get(payload, "authorization"));
    var signature :- OrInvalid(AsHex(Get(payload, "signature")));
    Ok((authorization, signature))
  }

  /** The token an envelope names; an envelope naming none gets the zero address. */
  function EnvelopeToken(envelope: Json): Option<string>
    requires envelope.Obj?
  {
    var accepted := Get(envelope, "accepted");
    if !accepted.Obj? || Get(accepted, "asset").Null? then Some(ZERO_ADDRESS)
    else AsAddress(Get(accepted, "asset"))
  }

  /** The legacy fee: absent, or signed by the same payer. */
  function DecodeFee(fee: Json, principal: DecodedPayment): Result<Option<DecodedPayment>, PayError> {
    if fee.Null? then Ok(None)
    else if !fee.Obj? then Err(InvalidEnvelope)
    else
      var (authorization, signature) :- DecodeSigned(fee);
      if Lower(authorization.from) != Lower(principal.authorization.from) then Err(InvalidEnvelope)
      else Ok(Some(DecodedPayment(principal.chainId, principal.token, authorization, signature, None)))
  }

  /** The envelope's own fields, checked before its payload. */
  predicate WellHeaded(envelope: Json)
    requires envelope.Obj?
  {
    && VersionAccepted(Get(envelope, "x402Version"))
    && "resource" in envelope.fields
    && Get(envelope, "network").Str?
    && Get(envelope, "payload").Obj?
  }

  /** The principal payment of a well-headed envelope: authorization and signature, then chain, then
      token. */
  function DecodePrincipal(envelope: Json): Result<DecodedPayment, PayError>
    requires envelope.Obj? && WellHeaded(envelope)
  {
    Principal(DecodeSigned(Get(envelope, "payload")), ChainIdOf(envelope), EnvelopeToken(envelope))
  }

  function Principal(
    signed: Result<(Authorization, string), PayError>, chain: Result<Option<nat>, PayError>, token: Option<string>
  ): Result<DecodedPayment, PayError>
  {
    var (authorization, signature) :- signed;
    var found :- chain;
    var chainId :- OrInvalid(found);
    var address :- OrInvalid(token);
    Ok(DecodedPayment(chainId, address, authorization, signature, None))
  }

  /** `decode_envelope`, from the parsed header on (None: no header, or not base64 JSON). */
  function Decode(header: Option<Json>): Result<DecodedPayment, PayError> {
    if header.None? || !header.value.Obj? || !WellHeaded(header.value) then Err(InvalidEnvelope)
    else
      var payload := Get(header.value, "payload");
      if "permit2Authorization" in payload.fields || "permit" in payload.fields then Err(UnsupportedRail)
      else
        var principal :- DecodePrincipal(header.value);
        var fee :- DecodeFee(Get(payload, "fee"), principal);
        Ok(principal.(fee := fee))
  }

  /** The JSON object holds this authorization, its numbers in either spelling. */
  predicate Spells(j: Json, a: Authorization) {
    && j.Obj? && Get(j, "from") == Str(a.from) && Get(j, "to") == Str(a.to) && Get(j, "nonce") == Str(a.nonce)
    && ReadsNat(Get(j, "value"), a.value) && ReadsNat(Get(j, "validAfter"), a.validAfter)
    && ReadsNat(Get(j, "validBefore"), a.validBefore)
    && MatchesAddress(a.from) && MatchesAddress(a.to) && MatchesHex(a.nonce)
  }

  lemma DecodesNatIff(j: Json, n: nat)
    ensures ReadNumeric(j) == Ok(n) <==> ReadsNat(j, n)
  {
  }

  lemma DecodesAuthorizationIff(j: Json, a: Authorization)
    ensures DecodeAuthorization(j) == Ok(a) <==> Spells(j, a)
  {
    if j.Obj? {
      DecodesNatIff(Get(j, "value"), a.value);
      DecodesNatIff(Get(j, "validAfter"), a.validAfter);
      DecodesNatIff(Get(j, "validBefore"), a.validBefore);
    }
  }

  /** An envelope decodes to a payment without a fee exactly when it is version 1 or 2, names a resource
      and a network, is no permit, and its payload spells the payment's authorization and signature,
      its chain and its token. */
  lemma DecodesIff(envelope: Json, p: DecodedPayment)
    requires p.fee.None?
    ensures Decode(Some(envelope)) == Ok(p) <==>
            && envelope.Obj? && VersionAccepted(Get(envelope, "x402Version"))
            && "resource" in envelope.fields && Get(envelope, "network").Str?
            && var payload := Get(envelope, "payload");
               && payload.Obj? && Get(payload, "fee") == Null
               && "permit2Authorization" !in payload.fields && "permit" !in payload.fields
               && Spells(Get(payload, "authorization"), p.authorization)
               && Get(payload, "signature") == Str(p.signature) && MatchesHex(p.signature)
               && ChainIdOf(envelope) == Ok(Some(p.chainId)) && EnvelopeToken(envelope) == Some(p.token)
  {
    PrincipalAlone(envelope, p);
    if envelope.Obj? && WellHeaded(envelope) {
      PrincipalIff(envelope, p);
    }
  }

  lemma PrincipalAlone(envelope: Json, p: DecodedPayment)
    requires p.fee.None?
    ensures Decode(Some(envelope)) == Ok(p) <==>
            && envelope.Obj? && WellHeaded(envelope)
            && var payload := Get(envelope, "payload").fields;
               && "permit2Authorization" !in payload && "permit" !in payload
               && Get(Get(envelope, "payload"), "fee") == Null && DecodePrincipal(envelope) == Ok(p)
  {
    if envelope.Obj? && WellHeaded(envelope) && DecodePrincipal(envelope).Ok? {
      var principal := DecodePrincipal(envelope).value;
      var fee := DecodeFee(Get(Get(envelope, "payload"), "fee"), principal);
      assert fee.Ok? && fee.value.None? ==> principal.(fee := fee.value) == principal;
    }
  }

  /** A fee is read exactly when it is an object that spells its own authorization and signature, by the
      same payer up to letter case; it is on the payment's chain and token. */
  lemma FeeIff(fee: Json, p: DecodedPayment, f: DecodedPayment)
    requires f.fee.None?
    ensures DecodeFee(fee, p) == Ok(Some(f)) <==>
            && fee.Obj? && Spells(Get(fee, "authorization"), f.authorization)
            && Get(fee, "signature") == Str(f.signature) && MatchesHex(f.signature)
            && Lower(f.authorization.from) == Lower(p.authorization.from)
            && f.chainId == p.chainId && f.token == p.token
    ensures DecodeFee(fee, p) == Ok(None) <==> fee == Null
  {
    if fee.Obj? {
      SignedIff(fee, f.authorization, f.signature);
      if DecodeSigned(fee).Ok? {
        var (a, s) := DecodeSigned(fee).value;
        assert f == DecodedPayment(p.chainId, p.token, a, s, None) <==>
               f.chainId == p.chainId && f.token == p.token && f.authorization == a && f.signature == s;
      }
    }
  }

  /** The versions are 1 and 2, and what Python holds equal to them. */
  lemma VersionIff(j: Json)
    ensures VersionAccepted(j) <==> j in [Int(1), Int(2), Float(1.0), Float(2.0), Bool(true)]
  {
  }

  predicate NamesChain(j: Json, chainId: nat) {
    j.Str? && ChainOf(j.s) == Some(chainId) && !NetworkRaises(j.s)
  }

  /** Neither a string of the CAIP-2 form nor one that raises. */
  predicate NamesNone(j: Json) {
    !j.Str? || ChainOf(j.s).None?
  }

  /** The chain is that of the accepted network, else of the envelope's network, else the accepted
      chain id, else the envelope's. */
  lemma EnvelopeChainIff(envelope: Json, chainId: nat)
    requires envelope.Obj?
    ensures var accepted := Get(envelope, "accepted");
      var inner := if accepted.Obj? then Get(accepted, "network") else Null;
      var innerId := if accepted.Obj? then Get(accepted, "chainId") else Null;
      ChainIdOf(envelope) == Ok(Some(chainId)) <==>
      || NamesChain(inner, chainId)
      || (NamesNone(inner)
          && (|| NamesChain(Get(envelope, "network"), chainId)
              || (NamesNone(Get(envelope, "network"))
                  && (|| ReadsNat(innerId, chainId)
                      || (AsNumeric(innerId).None? && ReadsNat(Get(envelope, "chainId"), chainId))))))
  {
  }

  /** The token is the accepted asset, which must be an address; naming none means the zero address. */
  lemma EnvelopeTokenIff(envelope: Json, token: string)
    requires envelope.Obj?
    ensures var accepted := Get(envelope, "accepted");
      EnvelopeToken(envelope) == Some(token) <==>
      if accepted.Obj? && Get(accepted, "asset") != Null
      then Get(accepted, "asset") == Str(token) && MatchesAddress(token)
      else token == "0x0000000000000000000000000000000000000000"
  {
  }

  lemma PrincipalIff(envelope: Json, p: DecodedPayment)
    requires envelope.Obj? && WellHeaded(envelope) && p.fee.None?
    ensures var payload := Get(envelope, "payload");
      DecodePrincipal(envelope) == Ok(p) <==>
      && Spells(Get(payload, "authorization"), p.authorization)
      && Get(payload, "signature") == Str(p.signature) && MatchesHex(p.signature)
      && ChainIdOf(envelope) == Ok(Some(p.chainId)) && EnvelopeToken(envelope) == Some(p.token)
  {
    PrincipalParts(DecodeSigned(Get(envelope, "payload")), ChainIdOf(envelope), EnvelopeToken(envelope), p);
    SignedIff(Get(envelope, "payload"), p.authorization, p.signature);
  }

  lemma PrincipalParts(
    signed: Result<(Authorization, string), PayError>, chain: Result<Option<nat>, PayError>, token: Option<string>,
    p: DecodedPayment)
    requires p.fee.None?
    ensures Principal(signed, chain, token) == Ok(p) <==>
            signed == Ok((p.authorization, p.signature)) && chain == Ok(Some(p.chainId)) && token == Some(p.token)
  {
    if signed.Ok? && chain.Ok? && chain.value.Some? && token.Some? {
      var (a, s) := signed.value;
      assert Principal(signed, chain, token) == Ok(DecodedPayment(chain.value.value, token.value, a, s, None));
    }
  }

  lemma SignedIff(payload: Json, a: Authorization, signature: string)
    requires payload.Obj?
    ensures DecodeSigned(payload) == Ok((a, signature)) <==>
            && Spells(Get(payload, "authorization"), a)
            && Get(payload, "signature") == Str(signature) && MatchesHex(signature)
  {
    DecodesAuthorizationIff(Get(payload, "authorization"), a);
  }

  // ---- Signatures --------------------------------------------------------------------

  /** The EIP-712 typed data of one transfer authorization. */
  datatype TypedTransfer = TypedTransfer(
    name: string, version: string, chainId: nat, contract: string, authorization: Authorization)

  /** Recovering a signer returns an address, fails, or cannot encode the typed data at all. */
  datatype Recovery = Recovered(address: string) | BadSignature | Unencodable

  /** The signature scheme, as the functions the libraries provide. Keys are numbers; `checksum` is
      the EIP-55 spelling of an address in lower case. */
  datatype Scheme = Scheme(
    address: nat -> string,
    checksum: string -> string,
    sign: (nat, TypedTransfer) -> string,
    recover: (TypedTransfer, string) -> Recovery)

  predicate MixedCase(s: string) {
    (exists i :: 0 <= i < |s| && 'a' <= s[i] <= 'f') && (exists i :: 0 <= i < |s| && 'A' <= s[i] <= 'F')
  }

  /** What both libraries accept as an address: 40 digits, in one letter case or spelled as EIP-55
      says. */
  predicate Encodes(c: Scheme, s: string) {
    IsAddress(s) && (!MixedCase(s) || s == c.checksum(Lower(s)))
  }

  /** An address without capitals, or without small letters, encodes; any other only as EIP-55 spells it. */
  lemma EncodesIff(c: Scheme, s: string)
    ensures Encodes(c, s) <==>
            && IsAddress(s)
            && (|| (forall i :: 2 <= i < |s| ==> s[i] !in "ABCDEF")
                || (forall i :: 2 <= i < |s| ==> s[i] !in "abcdef")
                || s == c.checksum(Lower(s)))
  {
    assert IsAddress(s) ==> s[0] == '0' && s[1] == 'x';
    assert forall ch: char :: ch in "ABCDEF" <==> 'A' <= ch <= 'F';
    assert forall ch: char :: ch in "abcdef" <==> 'a' <= ch <= 'f';
  }

  /** Typed data a wallet can sign: encodable addresses, 256-bit integers, a 32-byte nonce. */
  predicate Signable(c: Scheme, t: TypedTransfer) {
    var a := t.authorization;
    && Encodes(c, t.contract) && Encodes(c, a.from) && Encodes(c, a.to)
    && t.chainId < UINT256 && a.value < UINT256 && a.validAfter < UINT256 && a.validBefore < UINT256
    && IsHex(a.nonce) && |a.nonce| == 66
  }

  /** Signing and recovering are inverse on what can be signed, the checksum changes letter case
      alone, and typed data with an address that does not encode cannot be recovered from at all. */
  ghost predicate Lawful(c: Scheme) {
    && (forall k: nat {:trigger c.address(k)} :: Encodes(c, c.address(k)))
    && (forall s: string {:trigger c.checksum(s)} :: IsAddress(s) && Lower(s) == s ==>
          IsAddress(c.checksum(s)) && Lower(c.checksum(s)) == s)
    && (forall k: nat, t: TypedTransfer {:trigger c.sign(k, t)} :: Signable(c, t) ==>
          IsHex(c.sign(k, t)) && c.recover(t, c.sign(k, t)) == Recovered(c.address(k)))
    && (forall t: TypedTransfer, s: string {:trigger c.recover(t, s)} ::
          !Encodes(c, t.contract) || !Encodes(c, t.authorization.from) || !Encodes(c, t.authorization.to) ==>
            c.recover(t, s) == Unencodable)
  }

  function Repeat(c: char, n: nat): (s: string)
    ensures |s| == n && forall i :: 0 <= i < n ==> s[i] == c
  {
    seq(n, _ => c)
  }

  /** A toy scheme, to show that the law can be met: a key's address repeats its last digit, its
      signature spells the key in unary, and no address has capital letters. */
  function UnaryScheme(): Scheme {
    Scheme((k: nat) => "0x" + Repeat('0' + (k % 10) as char, 40),
           (s: string) => s,
           (k: nat, t: TypedTransfer) => "0x" + Repeat('a', k + 1),
           (t: TypedTransfer, s: string) =>
             if !LowerOrPlain(t.contract) || !LowerOrPlain(t.authorization.from) || !LowerOrPlain(t.authorization.to)
             then Unencodable
             else if |s| < 3 then BadSignature
             else Recovered("0x" + Repeat('0' + ((|s| - 3) % 10) as char, 40)))
  }

  /** What encodes when the checksum of every address is its lower-case spelling. */
  predicate LowerOrPlain(s: string) {
    IsAddress(s) && (!MixedCase(s) || s == Lower(s))
  }

  lemma LawIsSatisfiable()
    ensures Lawful(UnaryScheme())
    ensures UnaryScheme().address(1) != UnaryScheme().address(2)
  {
    var c := UnaryScheme();
    assert forall s :: Encodes(c, s) <==> LowerOrPlain(s);
    forall k: nat
      ensures LowerOrPlain(c.address(k))
    {
      assert forall i :: 2 <= i < 42 ==> c.address(k)[i] == '0' + (k % 10) as char;
    }
    forall k: nat, t: TypedTransfer | Signable(c, t)
      ensures IsHex(c.sign(k, t)) && c.recover(t, c.sign(k, t)) == Recovered(c.address(k))
    {
      assert |c.sign(k, t)| == k + 3;
    }
    assert c.address(1)[2] != c.address(2)[2];
  }

  // ---- Verification ------------------------------------------------------------------

  /** What a hire recorded about the payment it expects. */
  datatype Expected = Expected(chainId: nat, rail: Rail, payTo: string, amountWei: nat, payer: string)

  function TypedDataFor(d: DecodedPayment, e: Expected): TypedTransfer {
    TypedTransfer(e.rail.name, e.rail.version, e.chainId, e.rail.token, d.authorization)
  }

  /** `verify_payment`: chain, token, amount, payTo, window, signature, in that order. */
  function Verify(c: Scheme, d: DecodedPayment, e: Expected, nowMicros: nat): Result<(), PayError> {
    var now := nowMicros / MICROS;
    if d.chainId != e.chainId then Err(WrongChain)
    else if d.token != ZERO_ADDRESS && Lower(d.token) != Lower(e.rail.token) then Err(WrongChain)
    else if d.authorization.value != e.amountWei then Err(AmountMismatch)
    else if Lower(d.authorization.to) != Lower(e.payTo) then Err(PayToMismatch)
    else if d.authorization.validBefore <= now then Err(ChallengeExpired)
    else if d.authorization.validAfter >= now then Err(ChallengeExpired)
    else
      match c.recover(TypedDataFor(d, e), d.signature)
      case Unencodable => Err(Crash)
      case BadSignature => Err(SignatureMismatch)
      case Recovered(signer) => if Lower(signer) != Lower(e.payer) then Err(SignatureMismatch) else Ok(())
  }

  /** Verification accepts exactly the payments that match the expected chain, token, amount,
      payee and payer inside their own time window. */
  lemma VerifyAcceptsIff(c: Scheme, p: DecodedPayment, e: Expected, now: nat)
    ensures Verify(c, p, e, now).Ok? <==>
            && p.chainId == e.chainId
            && (p.token == ZERO_ADDRESS || Lower(p.token) == Lower(e.rail.token))
            && p.authorization.value == e.amountWei
            && Lower(p.authorization.to) == Lower(e.payTo)
            && p.authorization.validAfter < now / MICROS < p.authorization.validBefore
            && c.recover(TypedDataFor(p, e), p.signature).Recovered?
            && Lower(c.recover(TypedDataFor(p, e), p.signature).address) == Lower(e.payer)
  {
  }
}
