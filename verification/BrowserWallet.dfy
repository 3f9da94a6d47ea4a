/** The client half of the protocol: what the hire button signs and posts (payment.js). */
module BrowserWallet {
  import opened Json
  import opened Payment
  import opened PyText
  import opened Wrappers

  /** Seconds by which `validAfter` is backdated. */
  const BACKDATE_SECONDS: nat := 120

  /** 2^53 - 1: the signing library refuses larger JavaScript numbers. */
  const MAX_SAFE_INTEGER: nat := 0x1F_FFFF_FFFF_FFFF

  function AcceptJson(a: Accept): Json {
    Obj(map[
      "scheme" := Str("exact"), "network" := Str(a.network), "asset" := Str(a.asset),
      "payTo" := Str(a.payTo), "amount" := Str(a.amount),
      "maxTimeoutSeconds" := Int(a.maxTimeoutSeconds),
      "extra" := Obj(map["name" := Str(a.name), "version" := Str(a.version),
                         "assetTransferMethod" := Str("eip3009")])])
  }

  function AuthorizationJson(a: Authorization): Json {
    Obj(map[
      "from" := Str(a.from), "to" := Str(a.to), "value" := Str(FormatNat(a.value)),
      "validAfter" := Str(FormatNat(a.validAfter)), "validBefore" := Str(FormatNat(a.validBefore)),
      "nonce" := Str(a.nonce)])
  }

  function PayloadJson(a: Authorization, signature: string): Json {
    Obj(map["signature" := Str(signature), "authorization" := AuthorizationJson(a)])
  }

  function EnvelopeJson(ch: Challenge, a: Authorization, signature: string): Json {
    Obj(map[
      "x402Version" := Int(2), "scheme" := Str("exact"), "network" := Str(ch.accept.network),
      "resource" := Obj(map["url" := Str(ch.resourceUrl)]),
      "accepted" := AcceptJson(ch.accept),
      "payload" := PayloadJson(a, signature)])
  }

  /** The authorization the page asks the wallet to sign for `accepts[0]`; a time before
      BACKDATE_SECONDS gives a negative uint256, which the wallet refuses. */
  function AuthorizationFor(c: Scheme, key: nat, a: Accept, signedAt: nat, nonce: string): Option<Authorization>
  {
    if signedAt < BACKDATE_SECONDS || !AllDigits(a.amount) then None
    else Some(Authorization(c.address(key), a.payTo, ParseNat(a.amount), signedAt - BACKDATE_SECONDS,
                            signedAt + a.maxTimeoutSeconds, nonce))
  }

  /** What the page passes as numbers, chain and times, is safe; `value` is a BigInt. */
  predicate SafeNumbers(chainId: nat, a: Authorization) {
    chainId <= MAX_SAFE_INTEGER && a.validAfter <= MAX_SAFE_INTEGER && a.validBefore <= MAX_SAFE_INTEGER
  }

  /** `signPayment` and the envelope around it; None when library or wallet refuse to sign. */
  function SignedEnvelope(c: Scheme, key: nat, ch: Challenge, signedAt: nat, nonce: string): Option<Json> {
    match (AuthorizationFor(c, key, ch.accept, signedAt, nonce), ChainOf(ch.accept.network))
    case (Some(auth), Some(chainId)) =>
      var typed := TypedTransfer(ch.accept.name, ch.accept.version, chainId, ch.accept.asset, auth);
      if SafeNumbers(chainId, auth) && Signable(c, typed) then Some(EnvelopeJson(ch, auth, c.sign(key, typed)))
      else None
    case _ => None
  }

  /** The envelope is of version 2 and repeats the challenge: its network, its resource and its accept. */
  lemma EnvelopeRepeatsChallenge(ch: Challenge, a: Authorization, signature: string)
    ensures var envelope := EnvelopeJson(ch, a, signature);
      && envelope.Obj? && Get(envelope, "x402Version") == Int(2) && Get(envelope, "scheme") == Str("exact")
      && Get(envelope, "network") == Str(ch.accept.network)
      && Get(envelope, "resource") == Obj(map["url" := Str(ch.resourceUrl)])
      && Get(envelope, "accepted") == AcceptJson(ch.accept)
  {
  }

  /** The accept as it stands in the challenge, the amount as a string of digits. */
  lemma AcceptRepeats(a: Accept)
    ensures var j := AcceptJson(a);
      && j.Obj? && Get(j, "scheme") == Str("exact") && Get(j, "network") == Str(a.network)
      && Get(j, "asset") == Str(a.asset) && Get(j, "payTo") == Str(a.payTo) && Get(j, "amount") == Str(a.amount)
      && Get(j, "maxTimeoutSeconds") == Int(a.maxTimeoutSeconds)
      && Get(j, "extra") == Obj(map["name" := Str(a.name), "version" := Str(a.version),
                                    "assetTransferMethod" := Str("eip3009")])
  {
  }

  /** The authorization's numbers are 256-bit and its strings are what the decoder's patterns ask for. */
  predicate Printable(a: Authorization) {
    && IsAddress(a.from) && IsAddress(a.to) && IsHex(a.nonce)
    && a.value < UINT256 && a.validAfter < UINT256 && a.validBefore < UINT256
  }

  /** Every envelope built around a signable authorization decodes to that authorization, on the
      accept's chain and token and without a fee. */
  lemma EnvelopeDecodes(ch: Challenge, chainId: nat, a: Authorization, signature: string)
    requires ch.accept.network == NetworkOf(chainId) && chainId < UINT256
    requires IsAddress(ch.accept.asset) && Printable(a) && IsHex(signature)
    ensures Decode(Some(EnvelopeJson(ch, a, signature)))
         == Ok(DecodedPayment(chainId, ch.accept.asset, a, signature, None))
  {
    EnvelopeNamesChainAndToken(ch, chainId, a, signature);
    EnvelopeWellHeaded(ch, a, signature);
    PayloadDecodes(a, signature);
    DecodesFromParts(EnvelopeJson(ch, a, signature), PayloadJson(a, signature), chainId, ch.accept.asset, a, signature);
  }

  lemma DecodesFromParts(
    envelope: Json, payload: Json, chainId: nat, token: string, a: Authorization, signature: string)
    requires envelope.Obj? && WellHeaded(envelope) && Get(envelope, "payload") == payload
    requires "permit2Authorization" !in payload.fields && "permit" !in payload.fields
    requires Get(payload, "fee") == Null && DecodeSigned(payload) == Ok((a, signature))
    requires ChainIdOf(envelope) == Ok(Some(chainId)) && EnvelopeToken(envelope) == Some(token)
    ensures Decode(Some(envelope)) == Ok(DecodedPayment(chainId, token, a, signature, None))
  {
    assert DecodePrincipal(envelope) == Ok(DecodedPayment(chainId, token, a, signature, None));
  }

  lemma EnvelopeWellHeaded(ch: Challenge, a: Authorization, signature: string)
    ensures WellHeaded(EnvelopeJson(ch, a, signature))
    ensures Get(EnvelopeJson(ch, a, signature), "payload") == PayloadJson(a, signature)
  {
  }

  lemma EnvelopeNamesChainAndToken(ch: Challenge, chainId: nat, a: Authorization, signature: string)
    requires ch.accept.network == NetworkOf(chainId) && chainId < UINT256 && IsAddress(ch.accept.asset)
    ensures ChainIdOf(EnvelopeJson(ch, a, signature)) == Ok(Some(chainId))
    ensures EnvelopeToken(EnvelopeJson(ch, a, signature)) == Some(ch.accept.asset)
  {
    var accepted := Get(EnvelopeJson(ch, a, signature), "accepted");
    assert accepted == AcceptJson(ch.accept);
    assert Get(accepted, "network") == Str(ch.accept.network);
    assert Get(accepted, "asset") == Str(ch.accept.asset);
    NetworkReads(chainId);
    NoFinalNewline(ch.accept.asset);
  }

  lemma PayloadDecodes(a: Authorization, signature: string)
    requires Printable(a) && IsHex(signature)
    ensures DecodeSigned(PayloadJson(a, signature)) == Ok((a, signature))
    ensures Get(PayloadJson(a, signature), "fee") == Null
    ensures "permit2Authorization" !in PayloadJson(a, signature).fields
    ensures "permit" !in PayloadJson(a, signature).fields
  {
    AuthorizationDecodes(a);
    NoFinalNewline(signature);
  }

  /** The printed authorization fields read back unchanged. */
  lemma AuthorizationDecodes(a: Authorization)
    requires Printable(a)
    ensures DecodeAuthorization(AuthorizationJson(a)) == Ok(a)
  {
    NoFinalNewline(a.from);
    NoFinalNewline(a.to);
    NoFinalNewline(a.nonce);
    NumberDecodes(a.value);
    NumberDecodes(a.validAfter);
    NumberDecodes(a.validBefore);
  }

  lemma {:induction false} NumberDecodes(n: nat)
    requires n < UINT256
    ensures ReadNumeric(Str(FormatNat(n))) == Ok(n)
  {
    NoFinalNewline(FormatNat(n));
    ParseFormat(n);
    WordLength(n);
  }

  /** A 256-bit number prints with far fewer digits than `int` reads. */
  lemma {:induction false} WordLength(n: nat)
    requires n < UINT256
    ensures |FormatNat(n)| <= 80
  {
    TenMore(0);
    TenMore(10);
    TenMore(20);
    TenMore(30);
    TenMore(40);
    TenMore(50);
    TenMore(60);
    TenMore(70);
    FormatLength(n, 80);
  }

  /** A CAIP-2 name of a 256-bit chain id is read without raising. */
  lemma NetworkReads(chainId: nat)
    requires chainId < UINT256
    ensures NetworkField(Str(NetworkOf(chainId))) == Ok(Some(chainId))
  {
    NetworkRoundTrip(chainId);
    WordLength(chainId);
  }
}
