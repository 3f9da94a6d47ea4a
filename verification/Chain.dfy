/** Event logs of a chain, block by block, and the node that serves them. */
module Chain {
  import opened Wrappers

  /** One ERC-20 Transfer log: padded address topics, amount, position. */
  datatype Log = Log(fromTopic: string, toTopic: string, wei: nat, block: int, tx: string)

  /** `_extract_addr`: the last 40 characters of a topic. */
  function ExtractAddr(topic: string): string {
    "0x" + if |topic| >= 40 then topic[|topic| - 40..] else topic
  }

  /** A padded topic yields its last 40 characters, a shorter one all of itself. */
  lemma ExtractAddrIs(padding: string, addr: string)
    ensures |addr| == 40 ==> ExtractAddr(padding + addr) == "0x" + addr
    ensures |addr| < 40 ==> ExtractAddr(addr) == "0x" + addr
  {
  }

  /** The logs of each block, in chain order. */
  type Ledger = int -> seq<Log>

  /** All logs of an inclusive block range, in chain order. */
  function LogsIn(ledger: Ledger, first: int, last: int): seq<Log>
    decreases last - first
  {
    if first > last then [] else ledger(first) + LogsIn(ledger, first + 1, last)
  }

  lemma {:induction false} LogsInSplit(ledger: Ledger, first: int, mid: int, last: int)
    requires first <= mid + 1 && mid <= last
    ensures LogsIn(ledger, first, last) == LogsIn(ledger, first, mid) + LogsIn(ledger, mid + 1, last)
    decreases mid - first
  {
    if first <= mid {
      LogsInSplit(ledger, first + 1, mid, last);
    }
  }

  lemma {:induction false} LogsInMember(ledger: Ledger, first: int, last: int, log: Log)
    ensures log in LogsIn(ledger, first, last) <==> exists b :: first <= b <= last && log in ledger(b)
    decreases last - first
  {
    if first <= last {
      LogsInMember(ledger, first + 1, last, log);
    }
  }

  /** How a node answers eth_getLogs for a range; None is an error or an answer without a list. */
  type Node = (int, int) -> Option<seq<Log>>

  /** A node that serves the ledger whenever it is asked for a range. */
  ghost predicate Serves(node: Node, ledger: Ledger) {
    forall a, b {:trigger node(a, b)} :: a <= b ==> node(a, b) == Some(LogsIn(ledger, a, b))
  }
}
