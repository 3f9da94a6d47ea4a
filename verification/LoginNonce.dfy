/**
 Wallet login (auth.py): one nonce row per address, overwritten by every issue, consumed by one
 successful signature check.
 */
module LoginNonce {
  import opened PyText
  import opened Wrappers

  const NONCE_TTL_SECONDS := 600
  const SIGN_IN_MESSAGE_PREFIX := "Sign in to bnb_agent: "

  datatype NonceRow = NonceRow(nonce: string, used: bool, expiresAt: int)

  datatype Auth = Auth(nonces: map<string, NonceRow>, users: map<string, int>)

  const NOBODY := Auth(map[], map[])

  /** The signer of a message, or None when the signature is malformed. */
  type Recovery = (string, string) -> Option<string>

  datatype Step = Issue(address: string, nonce: string, now: int)
                | Verify(address: string, signature: string, nonce: string, now: int)

  datatype Outcome = Issued(nonce: string, message: string) | Verified(user: string) | Invalid | AuthRequired

  /** `_validate_address` */
  function ValidateAddress(address: string): Option<string> {
    if |address| == 42 && address[0] == '0' && address[1] == 'x' && AllHex(address[2..])
    then Some("0x" + Lower(address[2..])) else None
  }

  function Message(nonce: string): string {
    SIGN_IN_MESSAGE_PREFIX + nonce
  }

  /** `issue_nonce`, for the nonce drawn. */
  function IssueNonce(auth: Auth, address: string, nonce: string, now: int): (Auth, Outcome) {
    match ValidateAddress(address)
    case None => (auth, Invalid)
    case Some(addr) =>
      (auth.(nonces := auth.nonces[addr := NonceRow(nonce, false, now + NONCE_TTL_SECONDS)]),
       Issued(nonce, Message(nonce)))
  }

  /** `verify_signature` */
  function VerifySignature(auth: Auth, recover: Recovery, address: string, signature: string, nonce: string, now: int)
    : (Auth, Outcome)
  {
    match ValidateAddress(address)
    case None => (auth, Invalid)
    case Some(addr) =>
      if signature == "" || nonce == "" then (auth, Invalid)
      else
        var signer := recover(Message(nonce), signature);
        if signer.None? || Lower(signer.value) != addr then (auth, AuthRequired)
        else if addr !in auth.nonces || auth.nonces[addr].nonce != nonce then (auth, AuthRequired)
        else if auth.nonces[addr].used || auth.nonces[addr].expiresAt <= now then (auth, AuthRequired)
        else (Auth(auth.nonces[addr := auth.nonces[addr].(used := true)], auth.users[addr := now]), Verified(addr))
  }

  function After(auth: Auth, recover: Recovery, step: Step): (Auth, Outcome) {
    match step
    case Issue(address, nonce, now) => IssueNonce(auth, address, nonce, now)
    case Verify(address, signature, nonce, now) => VerifySignature(auth, recover, address, signature, nonce, now)
  }

  /** The addresses accepted: `0x` and 40 hexadecimal digits, read in lower case. */
  lemma ValidateAddressIff(address: string, addr: string)
    ensures ValidateAddress(address) == Some(addr) <==>
            exists digits :: AddressOf(address, digits) && addr == "0x" + Lower(digits)
  {
    if ValidateAddress(address).Some? {
      assert address == "0x" + address[2..];
      assert AddressOf(address, address[2..]);
    }
    if digits :| AddressOf(address, digits) && addr == "0x" + Lower(digits) {
      assert address[2..] == digits;
    }
  }

  predicate AddressOf(address: string, digits: string) {
    address == "0x" + digits && |digits| == 40 && AllHex(digits)
  }

  /** An issue answers with the message to sign and stores the nonce, open for ten minutes. */
  lemma IssueAnswers(auth: Auth, address: string, nonce: string, now: int)
    ensures var (after, outcome) := IssueNonce(auth, address, nonce, now);
      match ValidateAddress(address)
      case None => after == auth && outcome == Invalid
      case Some(addr) =>
        && outcome == Issued(nonce, "Sign in to bnb_agent: " + nonce)
        && after.users == auth.users && after.nonces == auth.nonces[addr := NonceRow(nonce, false, now + 600)]
  {
  }

  /** A login that is not even well-formed is invalid; one whose signature or nonce does not hold is
      unauthorised; either way nothing changes. Success consumes the nonce and stamps the user. */
  lemma VerifyAnswers(auth: Auth, recover: Recovery, address: string, signature: string, nonce: string, now: int)
    ensures var (after, outcome) := VerifySignature(auth, recover, address, signature, nonce, now);
      && (outcome == Invalid <==> ValidateAddress(address).None? || signature == "" || nonce == "")
      && outcome in {Invalid, AuthRequired, Verified(if outcome.Verified? then outcome.user else "")}
      && (!outcome.Verified? ==> after == auth)
      && (outcome.Verified? ==>
            && ValidateAddress(address) == Some(outcome.user) && Signed(recover, outcome.user, signature, nonce)
            && RowAccepts(auth, outcome.user, nonce, now)
            && after.nonces == auth.nonces[outcome.user := auth.nonces[outcome.user].(used := true)]
            && after.users == auth.users[outcome.user := now])
  {
  }

  class AuthTables {
    var nonces: map<string, NonceRow>
    var users: map<string, int>

    function State(): Auth
      reads this
    {
      Auth(nonces, users)
    }

    constructor ()
      ensures State() == NOBODY
    {
      nonces, users := map[], map[];
    }

    method IssueNonceTo(address: string, nonce: string, now: int) returns (outcome: Outcome)
      modifies this
      ensures (State(), outcome) == IssueNonce(old(State()), address, nonce, now)
    {
      var addr := ValidateAddress(address);
      if addr.None? {
        return Invalid;
      }
      nonces := nonces[addr.value := NonceRow(nonce, false, now + NONCE_TTL_SECONDS)];
      return Issued(nonce, Message(nonce));
    }

    method VerifyLogin(recover: Recovery, address: string, signature: string, nonce: string, now: int)
      returns (outcome: Outcome)
      modifies this
      ensures (State(), outcome) == VerifySignature(old(State()), recover, address, signature, nonce, now)
    {
      var addr := ValidateAddress(address);
      if addr.None? || signature == "" || nonce == "" {
        return Invalid;
      }
      var signer := recover(Message(nonce), signature);
      if signer.None? || Lower(signer.value) != addr.value {
        return AuthRequired;
      }
      if addr.value !in nonces || nonces[addr.value].nonce != nonce {
        return AuthRequired;
      }
      var row := nonces[addr.value];
      if row.used || row.expiresAt <= now {
        return AuthRequired;
      }
      nonces := nonces[addr.value := row.(used := true)];
      users := users[addr.value := now];
      return Verified(addr.value);
    }
  }

  // ---- Runs ----------------------------------------------------------------------------

  /** The state after the steps, and what each of them answered. */
  function Run(recover: Recovery, steps: seq<Step>): (r: (Auth, seq<Outcome>))
    ensures |r.1| == |steps|
  {
    if steps == [] then (NOBODY, [])
    else
      var (before, outcomes) := Run(recover, steps[..|steps| - 1]);
      var (after, outcome) := After(before, recover, steps[|steps| - 1]);
      (after, outcomes + [outcome])
  }

  function Outcomes(recover: Recovery, steps: seq<Step>): (r: seq<Outcome>)
    ensures |r| == |steps|
  {
    Run(recover, steps).1
  }

  /** The step issues a nonce to this address. */
  predicate IssuedTo(step: Step, addr: string) {
    step.Issue? && ValidateAddress(step.address) == Some(addr)
  }

  /** What the nonce row of an address says about the history: it is that of the latest issue, and
      used exactly when a login of the address has succeeded since. */
  lemma {:induction false} RowIsLatestIssue(recover: Recovery, steps: seq<Step>, addr: string) returns (latest: int)
    ensures var auth, outcomes := Run(recover, steps).0, Outcomes(recover, steps);
      && -1 <= latest < |steps|
      && (forall k :: latest < k < |steps| ==> !IssuedTo(steps[k], addr))
      && (addr in auth.nonces <==> latest >= 0)
      && (latest < 0 ==> forall k :: 0 <= k < |steps| ==> outcomes[k] != Verified(addr))
      && (latest >= 0 ==>
            && IssuedTo(steps[latest], addr)
            && auth.nonces[addr].nonce == steps[latest].nonce
            && auth.nonces[addr].expiresAt == steps[latest].now + NONCE_TTL_SECONDS
            && (auth.nonces[addr].used <==> exists k :: latest < k < |steps| && outcomes[k] == Verified(addr)))
  {
    latest := -1;
    if steps != [] {
      var init, step := steps[..|steps| - 1], steps[|steps| - 1];
      latest := RowIsLatestIssue(recover, init, addr);
      var before, auth, outcomes := Run(recover, init).0, Run(recover, steps).0, Outcomes(recover, steps);
      assert outcomes == Outcomes(recover, init) + [After(before, recover, step).1];
      assert forall k :: 0 <= k < |init| ==> steps[k] == init[k] && outcomes[k] == Outcomes(recover, init)[k];
      if IssuedTo(step, addr) {
        latest := |steps| - 1;
      } else if outcomes[|steps| - 1] == Verified(addr) {
        assert auth.nonces[addr] == before.nonces[addr].(used := true);
      } else {
        assert addr in auth.nonces <==> addr in before.nonces;
        assert addr in auth.nonces ==> auth.nonces[addr] == before.nonces[addr];
      }
    }
  }

  /** The latest issue to an address, with its nonce still open: no login since. */
  ghost predicate OpenNonce(recover: Recovery, steps: seq<Step>, addr: string, nonce: string, now: int) {
    exists j :: 0 <= j < |steps| && OpenSince(recover, steps, addr, nonce, now, j)
  }

  ghost predicate OpenSince(recover: Recovery, steps: seq<Step>, addr: string, nonce: string, now: int, j: nat)
    requires j < |steps|
  {
    && IssuedTo(steps[j], addr) && steps[j].nonce == nonce && now < steps[j].now + NONCE_TTL_SECONDS
    && (forall k :: j < k < |steps| ==> !IssuedTo(steps[k], addr))
    && (forall k :: j < k < |steps| ==> Outcomes(recover, steps)[k] != Verified(addr))
  }

  predicate RowAccepts(auth: Auth, addr: string, nonce: string, now: int) {
    && addr in auth.nonces && auth.nonces[addr].nonce == nonce
    && !auth.nonces[addr].used && now < auth.nonces[addr].expiresAt
  }

  lemma {:induction false} RowAcceptsIff(recover: Recovery, steps: seq<Step>, addr: string, nonce: string, now: int)
    ensures RowAccepts(Run(recover, steps).0, addr, nonce, now) <==> OpenNonce(recover, steps, addr, nonce, now)
  {
    var latest := RowIsLatestIssue(recover, steps, addr);
    if RowAccepts(Run(recover, steps).0, addr, nonce, now) {
      assert OpenSince(recover, steps, addr, nonce, now, latest);
    }
    if j :| 0 <= j < |steps| && OpenSince(recover, steps, addr, nonce, now, j) {
      assert j == latest;
    }
  }

  /** The signature over the message for this nonce recovers to the address. */
  predicate Signed(recover: Recovery, addr: string, signature: string, nonce: string) {
    var signer := recover("Sign in to bnb_agent: " + nonce, signature);
    signature != "" && nonce != "" && signer.Some? && Lower(signer.value) == addr
  }

  /** After any history a login succeeds exactly when the signature recovers to the address and the
      nonce is that of its latest issue, unused and unexpired. */
  lemma {:induction false} LoginSucceedsIff(
    recover: Recovery, steps: seq<Step>, address: string, signature: string, nonce: string, now: int, addr: string)
    ensures VerifySignature(Run(recover, steps).0, recover, address, signature, nonce, now).1 == Verified(addr) <==>
      && ValidateAddress(address) == Some(addr) && Signed(recover, addr, signature, nonce)
      && OpenNonce(recover, steps, addr, nonce, now)
  {
    RowAcceptsIff(recover, steps, addr, nonce, now);
  }

  /** After any history a user row holds the time of the address's latest login, and there is one exactly
      when the address has logged in. */
  lemma {:induction false} StampIsLatestLogin(recover: Recovery, steps: seq<Step>, addr: string) returns (latest: int)
    ensures var users, outcomes := Run(recover, steps).0.users, Outcomes(recover, steps);
      && -1 <= latest < |steps|
      && (forall k :: latest < k < |steps| ==> outcomes[k] != Verified(addr))
      && (addr in users <==> latest >= 0)
      && (latest >= 0 ==> outcomes[latest] == Verified(addr) && users[addr] == steps[latest].now)
  {
    latest := -1;
    if steps != [] {
      var init, step := steps[..|steps| - 1], steps[|steps| - 1];
      latest := StampIsLatestLogin(recover, init, addr);
      var outcomes := Outcomes(recover, steps);
      assert outcomes == Outcomes(recover, init) + [After(Run(recover, init).0, recover, step).1];
      if outcomes[|init|] == Verified(addr) {
        latest := |init|;
      }
    }
  }

  /** Within any run, request k logs an address in exactly when it is a login of that address, signed, with
      the open nonce of what was requested before it. */
  lemma {:induction false} OutcomeIs(recover: Recovery, steps: seq<Step>, k: nat, addr: string)
    requires k < |steps|
    ensures Outcomes(recover, steps)[k] == Verified(addr) <==>
      && steps[k].Verify? && ValidateAddress(steps[k].address) == Some(addr)
      && Signed(recover, addr, steps[k].signature, steps[k].nonce)
      && OpenNonce(recover, steps[..k], addr, steps[k].nonce, steps[k].now)
  {
    var init := steps[..|steps| - 1];
    if k < |init| {
      OutcomeIs(recover, init, k, addr);
      assert init[..k] == steps[..k];
    } else if steps[k].Verify? {
      LoginSucceedsIff(recover, init, steps[k].address, steps[k].signature, steps[k].nonce, steps[k].now, addr);
    }
  }

  // ---- Single use ----------------------------------------------------------------------

  predicate IssueOf(step: Step, addr: string, nonce: string) {
    IssuedTo(step, addr) && step.nonce == nonce
  }

  function Issues(steps: seq<Step>, addr: string, nonce: string): nat {
    if steps == [] then 0
    else Issues(steps[..|steps| - 1], addr, nonce) + if IssueOf(steps[|steps| - 1], addr, nonce) then 1 else 0
  }

  function Logins(recover: Recovery, steps: seq<Step>, addr: string, nonce: string): nat {
    if steps == [] then 0
    else
      Logins(recover, steps[..|steps| - 1], addr, nonce)
      + if && steps[|steps| - 1].Verify? && steps[|steps| - 1].nonce == nonce
           && Outcomes(recover, steps)[|steps| - 1] == Verified(addr)
        then 1 else 0
  }

  /** The requests of a run that issue the nonce to the address. */
  function IssuesAt(steps: seq<Step>, addr: string, nonce: string): set<nat> {
    set k: nat | k < |steps| && IssueOf(steps[k], addr, nonce)
  }

  predicate LoginOf(step: Step, outcome: Outcome, addr: string, nonce: string) {
    step.Verify? && step.nonce == nonce && outcome == Verified(addr)
  }

  /** Those that log the address in with it. */
  function LoginsAt(steps: seq<Step>, outcomes: seq<Outcome>, addr: string, nonce: string): set<nat>
    requires |outcomes| == |steps|
  {
    set k: nat | k < |steps| && LoginOf(steps[k], outcomes[k], addr, nonce)
  }

  lemma {:induction false} IssuesAre(steps: seq<Step>, addr: string, nonce: string)
    ensures Issues(steps, addr, nonce) == |IssuesAt(steps, addr, nonce)|
  {
    if steps != [] {
      var init, last := steps[..|steps| - 1], |steps| - 1;
      IssuesAre(init, addr, nonce);
      assert IssuesAt(steps, addr, nonce)
          == IssuesAt(init, addr, nonce) + if IssueOf(steps[last], addr, nonce) then {last} else {};
    }
  }

  lemma {:induction false} LoginsAre(recover: Recovery, steps: seq<Step>, addr: string, nonce: string)
    ensures Logins(recover, steps, addr, nonce) == |LoginsAt(steps, Outcomes(recover, steps), addr, nonce)|
  {
    if steps != [] {
      var init, outcomes := steps[..|steps| - 1], Outcomes(recover, steps);
      LoginsAre(recover, init, addr, nonce);
      LastLogin(steps, outcomes, addr, nonce);
      assert outcomes[..|init|] == Outcomes(recover, init);
    }
  }

  lemma LastLogin(steps: seq<Step>, outcomes: seq<Outcome>, addr: string, nonce: string)
    requires steps != [] && |outcomes| == |steps|
    ensures var last := |steps| - 1;
      |LoginsAt(steps, outcomes, addr, nonce)|
      == |LoginsAt(steps[..last], outcomes[..last], addr, nonce)|
         + if LoginOf(steps[last], outcomes[last], addr, nonce) then 1 else 0
  {
    var last := |steps| - 1;
    assert LoginsAt(steps, outcomes, addr, nonce)
        == LoginsAt(steps[..last], outcomes[..last], addr, nonce)
           + if LoginOf(steps[last], outcomes[last], addr, nonce) then {last} else {};
  }

  function Open(auth: Auth, addr: string, nonce: string): nat {
    if addr in auth.nonces && auth.nonces[addr].nonce == nonce && !auth.nonces[addr].used then 1 else 0
  }

  lemma {:induction false} LoginsAndOpen(recover: Recovery, steps: seq<Step>, addr: string, nonce: string)
    ensures Logins(recover, steps, addr, nonce) + Open(Run(recover, steps).0, addr, nonce) <= Issues(steps, addr, nonce)
  {
    if steps != [] {
      LoginsAndOpen(recover, steps[..|steps| - 1], addr, nonce);
    }
  }

  /** Over every run, by any callers, an address logs in with a nonce at most as often as the nonce
      was issued to it. */
  lemma {:induction false} LoginsNeverOutnumberIssues(recover: Recovery, steps: seq<Step>, addr: string, nonce: string)
    ensures Logins(recover, steps, addr, nonce) <= Issues(steps, addr, nonce)
  {
    LoginsAndOpen(recover, steps, addr, nonce);
  }

  /** A wallet that signs the message it was issued logs in within ten minutes, whatever other
      addresses do meanwhile. */
  lemma {:induction false} HonestLoginSucceeds(
    recover: Recovery, steps: seq<Step>, j: nat, address: string, signature: string, now: int)
    requires j < |steps| && steps[j].Issue? && steps[j].address == address && ValidateAddress(address).Some?
    requires forall k :: j < k < |steps| ==> ValidateAddress(steps[k].address) != ValidateAddress(address)
    requires now < steps[j].now + NONCE_TTL_SECONDS && steps[j].nonce != "" && signature != ""
    requires recover(Message(steps[j].nonce), signature) == ValidateAddress(address)
    ensures VerifySignature(Run(recover, steps).0, recover, address, signature, steps[j].nonce, now).1
         == Verified(ValidateAddress(address).value)
  {
    var addr := ValidateAddress(address).value;
    OpenAlone(recover, steps, j, addr, now);
    LowerAddress(address[2..]);
    LoginSucceedsIff(recover, steps, address, signature, steps[j].nonce, now, addr);
  }

  /** A nonce stays open while its address makes no request. */
  lemma OpenAlone(recover: Recovery, steps: seq<Step>, j: nat, addr: string, now: int)
    requires j < |steps| && IssuedTo(steps[j], addr) && now < steps[j].now + NONCE_TTL_SECONDS
    requires forall k :: j < k < |steps| ==> ValidateAddress(steps[k].address) != Some(addr)
    ensures OpenSince(recover, steps, addr, steps[j].nonce, now, j)
  {
    forall k | j < k < |steps|
      ensures Outcomes(recover, steps)[k] != Verified(addr)
    {
      if Outcomes(recover, steps)[k] == Verified(addr) {
        OutcomeAddress(recover, steps, k, addr);
      }
    }
  }

  lemma LowerAddress(body: string)
    ensures Lower("0x" + Lower(body)) == "0x" + Lower(body)
  {
  }

  lemma {:induction false} OutcomeAddress(recover: Recovery, steps: seq<Step>, k: nat, addr: string)
    requires k < |steps| && Outcomes(recover, steps)[k] == Verified(addr)
    ensures steps[k].Verify? && ValidateAddress(steps[k].address) == Some(addr)
  {
    if k < |steps| - 1 {
      OutcomeAddress(recover, steps[..|steps| - 1], k, addr);
    }
  }
}
