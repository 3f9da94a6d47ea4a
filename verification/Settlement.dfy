/**
 One on-chain settlement (payment.py): five JSON-RPC calls and the polling for a receipt, and what
 its outcome says about the transaction.
 */
module Settlement {
  import opened HireDesk
  import opened Json
  import opened Wrappers

  const POLL_ATTEMPTS := 30

  /** A receipt poll: an RPC failure, null, an object whose status reads as a number, one whose status
      does not, or what raises outside the caught kinds: a value that is no object, an infinite status. */
  datatype Poll = PollFails | NotYet | Mined(status: int) | BadStatus | Uncaught

  /** How the polling ends: mined with status 1, BroadcastFailed, or an exception nobody expected. */
  datatype Waited = Confirmed | NotConfirmed | Crashed

  function Verdict(p: Poll): Waited {
    match p
    case Mined(status) => if status == 1 then Confirmed else NotConfirmed
    case Uncaught => Crashed
    case _ => NotConfirmed
  }

  /** The first poll within the attempts that is not null, or None. */
  predicate FirstAnswer(polls: nat -> Poll, k: nat) {
    k < POLL_ATTEMPTS && !polls(k).NotYet? && forall j: nat :: j < k ==> polls(j).NotYet?
  }

  /** `_wait_for_receipt` */
  method WaitForReceipt(polls: nat -> Poll) returns (waited: Waited)
    ensures forall k: nat :: FirstAnswer(polls, k) ==> waited == Verdict(polls(k))
    ensures (forall k: nat :: k < POLL_ATTEMPTS ==> polls(k).NotYet?) ==> waited == NotConfirmed
  {
    for n := 0 to POLL_ATTEMPTS
      invariant forall j: nat :: j < n ==> polls(j).NotYet?
    {
      if !polls(n).NotYet? {
        assert FirstAnswer(polls, n);
        return Verdict(polls(n));
      }
    }
    return NotConfirmed;
  }

  /** Nonce, gas price and gas estimate answered and the transaction signed; a failure that is caught;
      or one that is not, as for an answer that is a JSON value but no object. */
  datatype Prepared = Ready | Fails | Breaks

  /** What sending is answered with: a string; a transport error, an error object or anything else that
      is refused; or a JSON value that is no object, which raises. */
  datatype Reply = Text(s: string) | Declined | Broken

  /** One settlement: whether the facilitator key is set, whether key and calldata encode, how far the
      preparation gets; whether the node takes the transaction it is then sent, and apart from that what
      it answers; and the polls. */
  datatype Node = Node(keySet: bool, encodes: bool, prepared: Prepared, accepted: bool, answer: Reply,
                       polls: nat -> Poll)

  predicate TxHash(s: string) {
    |s| >= 2 && s[0] == '0' && s[1] == 'x'
  }

  /** The settlement gets as far as sending. */
  predicate Attempted(node: Node) {
    node.keySet && node.encodes && node.prepared.Ready?
  }

  /** The transaction left for the chain, whatever was answered. */
  predicate Sent(node: Node) {
    Attempted(node) && node.accepted
  }

  predicate Acknowledged(node: Node) {
    node.answer.Text? && TxHash(node.answer.s)
  }

  /** What acknowledges a transaction is a string that begins with `0x`. */
  lemma AcknowledgedIff(node: Node)
    ensures Acknowledged(node) <==> exists rest :: node.answer == Text("0x" + rest)
  {
    if Acknowledged(node) {
      assert node.answer.s == "0x" + node.answer.s[2..];
    }
  }

  /** Without a key the settlement is refused; calldata that does not encode and preparations that break
      raise; preparations that fail are refused; and none of these sends anything. Past them it sends
      what the node takes or not. */
  lemma BeforeSending(node: Node)
    ensures !node.keySet ==> OutcomeOf(node) == Refused && !Sent(node)
    ensures node.keySet && !node.encodes ==> OutcomeOf(node) == Raised && !Sent(node)
    ensures node.keySet && node.encodes && node.prepared == Fails ==> OutcomeOf(node) == Refused && !Sent(node)
    ensures node.keySet && node.encodes && node.prepared == Breaks ==> OutcomeOf(node) == Raised && !Sent(node)
    ensures node.keySet && node.encodes && node.prepared == Ready ==> (Sent(node) <==> node.accepted)
  {
  }

  /** `OnchainBroadcaster.broadcast` */
  method Settle(node: Node) returns (outcome: Outcome)
    ensures outcome == OutcomeOf(node)
  {
    if !node.keySet {
      return Refused;
    }
    if !node.encodes {
      return Raised;
    }
    if !node.prepared.Ready? {
      return if node.prepared.Breaks? then Raised else Refused;
    }
    if node.answer.Broken? {
      return Raised;
    }
    if node.answer.Declined? || !TxHash(node.answer.s) {
      return Refused;
    }
    var waited := WaitForReceipt(node.polls);
    ReceiptIs(node.polls, waited);
    match waited
    case Confirmed => return Settled(node.answer.s);
    case NotConfirmed => return Refused;
    case Crashed => return Raised;
  }

  function Receipt(polls: nat -> Poll, from: nat): Waited
    decreases POLL_ATTEMPTS - from
  {
    if from >= POLL_ATTEMPTS then NotConfirmed
    else if polls(from).NotYet? then Receipt(polls, from + 1)
    else Verdict(polls(from))
  }

  function OutcomeOf(node: Node): Outcome {
    if node.keySet && (!node.encodes || node.prepared.Breaks?) then Raised
    else if !Attempted(node) then Refused
    else if node.answer.Broken? then Raised
    else if !Acknowledged(node) then Refused
    else
      match Receipt(node.polls, 0)
      case Confirmed => Settled(node.answer.s)
      case NotConfirmed => Refused
      case Crashed => Raised
  }

  lemma {:induction false} ReceiptFrom(polls: nat -> Poll, from: nat)
    requires from <= POLL_ATTEMPTS && forall j: nat :: j < from ==> polls(j).NotYet?
    ensures forall k: nat :: FirstAnswer(polls, k) ==> Receipt(polls, from) == Verdict(polls(k))
    ensures (forall k: nat :: k < POLL_ATTEMPTS ==> polls(k).NotYet?) ==> Receipt(polls, from) == NotConfirmed
    ensures (exists k: nat :: FirstAnswer(polls, k)) || forall k: nat :: k < POLL_ATTEMPTS ==> polls(k).NotYet?
    decreases POLL_ATTEMPTS - from
  {
    if from < POLL_ATTEMPTS {
      if polls(from).NotYet? {
        ReceiptFrom(polls, from + 1);
      } else {
        assert FirstAnswer(polls, from);
      }
    }
  }

  lemma ReceiptIs(polls: nat -> Poll, waited: Waited)
    requires forall k: nat :: FirstAnswer(polls, k) ==> waited == Verdict(polls(k))
    requires (forall k: nat :: k < POLL_ATTEMPTS ==> polls(k).NotYet?) ==> waited == NotConfirmed
    ensures waited == Receipt(polls, 0)
  {
    ReceiptFrom(polls, 0);
  }

  /** A settlement succeeds exactly when sending was answered with a hash and the first answer within
      thirty polls is a receipt with status 1; the hash reported is the one answered. */
  lemma SettledIff(node: Node, tx: string)
    ensures OutcomeOf(node) == Settled(tx) <==>
            && Attempted(node) && node.answer == Text(tx) && TxHash(tx)
            && exists k: nat :: FirstAnswer(node.polls, k) && node.polls(k) == Mined(1)
  {
    ReceiptFrom(node.polls, 0);
  }

  /** Reported as refused: the answer was no hash, no receipt came within thirty polls, or the first
      answer was a failed poll, a revert or an unreadable status. */
  ghost predicate SeemsRefused(node: Node) {
    && !node.answer.Broken?
    && (|| !Acknowledged(node)
        || (forall k: nat :: k < POLL_ATTEMPTS ==> node.polls(k).NotYet?)
        || (exists k: nat :: FirstAnswer(node.polls, k) && Verdict(node.polls(k)) == NotConfirmed))
  }

  /** Nothing is reported: the answer to sending, or the first to polling, raised outside the caught kinds. */
  ghost predicate SeemsBroken(node: Node) {
    || node.answer.Broken?
    || (Acknowledged(node) && exists k: nat :: FirstAnswer(node.polls, k) && node.polls(k).Uncaught?)
  }

  /** A refusal does not mean nothing was paid: of a transaction the node took, the settlement reports
      what its answers seem to say. Only the revert says that the transfer did not happen. */
  lemma SentOutcomeIff(node: Node)
    requires Sent(node)
    ensures OutcomeOf(node) == Refused <==> SeemsRefused(node)
    ensures OutcomeOf(node) == Raised <==> SeemsBroken(node)
  {
    ReceiptFrom(node.polls, 0);
  }

  /** So, after an admitted payment whose transaction the node took, the hire is FAILED exactly when
      the answers seem to refuse it, and PENDING still, to be broadcast again, exactly when they broke
      the settlement or the hash does not fit. */
  lemma SentHireStatusIff(d: Desk, site: Site, payer: string, id: nat, header: Option<Json>, now: nat, node: Node)
    requires Admit(d, site, payer, id, header, now).Ok? && Sent(node)
    ensures var d' := Pay(d, site, payer, id, header, now, OutcomeOf(node)).0;
      && id in d'.rows
      && (d'.rows[id].status == Failed <==> SeemsRefused(node))
      && (d'.rows[id].status == Pending <==>
            SeemsBroken(node) || (OutcomeOf(node).Settled? && |OutcomeOf(node).txHash| > TX_HASH_LENGTH))
  {
    GateFacts(d, site, payer, id, now);
    SentOutcomeIff(node);
  }
}
