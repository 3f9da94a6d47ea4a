/**
 The table of indexed transfers: address canonicalisation, the wallet-to-agent map, and inserts
 with ON CONFLICT DO NOTHING on (tx_hash, from_address, to_address) (onchain_indexer.py).
 */
module TransferIndex {
  import opened Chain
  import opened PyText
  import opened Wrappers

  // ---- Canonical addresses -------------------------------------------------------------

  /** `_canon_addr`: `0x` and 40 lower-case digits, or None. */
  function CanonAddr(addr: string): Option<string> {
    var body := DropPrefix(Lower(Strip(addr)));
    if |body| == 40 && AllHex(body) then Some("0x" + body) else None
  }

  function DropPrefix(s: string): string {
    if |s| >= 2 && s[0] == '0' && s[1] == 'x' then s[2..] else s
  }

  /** One spelling of the address with digits `hex`: outer whitespace, an optional prefix and the
      40 digits in any letter case. */
  predicate Spelling(addr: string, left: string, prefix: string, digits: string, right: string, hex: string) {
    && addr == left + prefix + digits + right
    && AllSpace(left) && AllSpace(right)
    && (prefix == "" || prefix == "0x" || prefix == "0X")
    && |digits| == 40 && AllHex(digits) && Lower(digits) == hex
  }

  ghost predicate Spells(addr: string, hex: string) {
    exists left, prefix, digits, right :: Spelling(addr, left, prefix, digits, right, hex)
  }

  lemma LowerConcat(a: string, b: string)
    ensures Lower(a + b) == Lower(a) + Lower(b)
  {
  }

  lemma SpellingCanon(addr: string, left: string, prefix: string, digits: string, right: string, hex: string)
    requires Spelling(addr, left, prefix, digits, right, hex)
    ensures CanonAddr(addr) == Some("0x" + hex)
  {
    var core := prefix + digits;
    assert addr == left + core + right;
    assert Trimmed(core) by {
      assert core[|core| - 1] == digits[39];
    }
    StripRemovesPadding(left, core, right);
    LowerConcat(prefix, digits);
    assert DropPrefix(Lower(prefix) + hex) == hex by {
      assert hex[1] == LowerChar(digits[1]);
    }
  }

  lemma CanonSpelling(addr: string, hex: string)
    requires CanonAddr(addr) == Some("0x" + hex)
    ensures Spells(addr, hex)
  {
    var left, right := StripSplits(addr);
    var prefix, digits := CoreSplits(Strip(addr));
    DigitsOf(digits, DropPrefix(Lower(Strip(addr))), hex);
    Joined(addr, left, Strip(addr), right, prefix, digits);
    assert Spelling(addr, left, prefix, digits, right, hex);
  }

  lemma CoreSplits(core: string) returns (prefix: string, digits: string)
    ensures core == prefix + digits && prefix in ["", "0x", "0X"] && DropPrefix(Lower(core)) == Lower(digits)
  {
    prefix, digits := "", core;
    if |core| >= 2 && Lower(core)[0] == '0' && Lower(core)[1] == 'x' {
      prefix, digits := core[..2], core[2..];
      assert prefix == if core[1] == 'x' then "0x" else "0X";
    }
  }

  lemma Joined(addr: string, left: string, core: string, right: string, prefix: string, digits: string)
    requires addr == left + core + right && core == prefix + digits
    ensures addr == left + prefix + digits + right
  {
  }

  lemma DigitsOf(digits: string, lowered: string, hex: string)
    requires lowered == Lower(digits) && |lowered| == 40 && AllHex(lowered) && "0x" + lowered == "0x" + hex
    ensures AllHex(digits) && Lower(digits) == hex
  {
    assert ("0x" + lowered)[2..] == lowered && ("0x" + hex)[2..] == hex;
    forall i | 0 <= i < |digits|
      ensures IsHexDigit(digits[i])
    {
      assert lowered[i] == LowerChar(digits[i]);
    }
  }

  /** Two strings canonicalise alike exactly when they spell the same address up to letter case,
      one prefix and outer whitespace; everything else canonicalises to None. */
  lemma CanonAddrIff(addr: string, hex: string)
    ensures CanonAddr(addr) == Some("0x" + hex) <==> Spells(addr, hex)
  {
    if CanonAddr(addr) == Some("0x" + hex) {
      CanonSpelling(addr, hex);
    } else if Spells(addr, hex) {
      var left, prefix, digits, right :| Spelling(addr, left, prefix, digits, right, hex);
      SpellingCanon(addr, left, prefix, digits, right, hex);
    }
  }

  /** A canonical address is its own canonical form. */
  lemma CanonIdempotent(addr: string)
    requires CanonAddr(addr).Some?
    ensures CanonAddr(CanonAddr(addr).value) == CanonAddr(addr)
  {
    var canon := CanonAddr(addr).value;
    var hex := canon[2..];
    assert Lower(hex) == hex;
    assert canon == "" + "0x" + hex + "";
    SpellingCanon(canon, "", "0x", hex, "", hex);
  }

  // ---- Wallets -------------------------------------------------------------------------

  type WalletMap = map<string, string>

  /** The map after taking (wallet, agent_id) rows in order, for any way of canonicalising. */
  function LatestOf(rows: seq<(string, string)>, canon: string -> Option<string>): WalletMap {
    if rows == [] then map[]
    else
      var earlier := LatestOf(rows[..|rows| - 1], canon);
      var (wallet, agentId) := rows[|rows| - 1];
      match canon(wallet)
      case Some(key) => earlier[key := agentId]
      case None => earlier
  }

  function Wallets(rows: seq<(string, string)>): WalletMap {
    LatestOf(rows, CanonAddr)
  }

  /** `resolve_wallet_to_agent`. */
  method ResolveWallets(rows: seq<(string, string)>) returns (wallets: WalletMap)
    ensures wallets == Wallets(rows)
  {
    wallets := map[];
    for n := 0 to |rows|
      invariant wallets == Wallets(rows[..n])
    {
      assert rows[..n + 1][..n] == rows[..n];
      var canon := CanonAddr(rows[n].0);
      if canon.Some? {
        wallets := wallets[canon.value := rows[n].1];
      }
    }
    assert rows[..|rows|] == rows;
  }

  predicate Names(row: (string, string), canon: string -> Option<string>, key: string) {
    canon(row.0) == Some(key)
  }

  lemma {:induction false} LatestOfIs(rows: seq<(string, string)>, canon: string -> Option<string>, key: string)
    returns (last: int)
    ensures key in LatestOf(rows, canon) ==>
              && 0 <= last < |rows| && Names(rows[last], canon, key) && LatestOf(rows, canon)[key] == rows[last].1
              && forall j :: last < j < |rows| ==> !Names(rows[j], canon, key)
    ensures key !in LatestOf(rows, canon) ==> forall j :: 0 <= j < |rows| ==> !Names(rows[j], canon, key)
  {
    last := -1;
    if rows != [] {
      var init := rows[..|rows| - 1];
      last := LatestOfIs(init, canon, key);
      assert forall j :: 0 <= j < |init| ==> init[j] == rows[j];
      if Names(rows[|rows| - 1], canon, key) {
        last := |rows| - 1;
      }
    }
  }

  /** The map knows exactly the canonical forms of the rows, and the last row with one wins. */
  lemma LastWalletWins(rows: seq<(string, string)>, canon: string) returns (last: int)
    ensures canon in Wallets(rows) <==> exists j :: 0 <= j < |rows| && Names(rows[j], CanonAddr, canon)
    ensures canon in Wallets(rows) ==>
              && 0 <= last < |rows| && Names(rows[last], CanonAddr, canon) && Wallets(rows)[canon] == rows[last].1
              && forall j :: last < j < |rows| ==> !Names(rows[j], CanonAddr, canon)
  {
    last := LatestOfIs(rows, CanonAddr, canon);
  }

  /** `wallet_to_agent.get(_canon_addr(address))`. */
  function AgentFor(wallets: WalletMap, addr: string): Option<string> {
    match CanonAddr(addr)
    case Some(canon) => if canon in wallets then Some(wallets[canon]) else None
    case None => None
  }

  /** Of the resolver's rows, the last that spells these digits has this agent. */
  ghost predicate LastNames(ws: seq<(string, string)>, hex: string, agent: string) {
    exists k :: 0 <= k < |ws| && NamesLast(ws, hex, k) && ws[k].1 == agent
  }

  ghost predicate NamesLast(ws: seq<(string, string)>, hex: string, k: nat)
    requires k < |ws|
  {
    Spells(ws[k].0, hex) && forall j :: k < j < |ws| ==> !Spells(ws[j].0, hex)
  }

  /** The agent of an address is that of the last wallet row spelling the same digits; an address that
      spells none has no agent. */
  lemma AgentForIff(ws: seq<(string, string)>, addr: string, hex: string, agent: string)
    ensures Spells(addr, hex) ==> (AgentFor(Wallets(ws), addr) == Some(agent) <==> LastNames(ws, hex, agent))
    ensures (forall digits :: !Spells(addr, digits)) ==> AgentFor(Wallets(ws), addr) == None
  {
    CanonAddrIff(addr, hex);
    if Spells(addr, hex) {
      var last := LastWalletWins(ws, "0x" + hex);
      forall k | 0 <= k < |ws|
        ensures Names(ws[k], CanonAddr, "0x" + hex) <==> Spells(ws[k].0, hex)
      {
        CanonAddrIff(ws[k].0, hex);
      }
      if "0x" + hex in Wallets(ws) {
        assert NamesLast(ws, hex, last);
        OneLast(ws, hex, last);
      }
    } else if CanonAddr(addr).Some? {
      CanonAddrIff(addr, CanonAddr(addr).value[2..]);
    }
  }

  lemma OneLast(ws: seq<(string, string)>, hex: string, last: nat)
    requires last < |ws| && NamesLast(ws, hex, last)
    ensures forall k :: 0 <= k < |ws| && NamesLast(ws, hex, k) ==> k == last
  {
  }

  // ---- The table -----------------------------------------------------------------------

  datatype Key = Key(tx: string, from: string, to: string)

  datatype Transfer = Transfer(
    id: nat, key: Key, wei: nat, block: int, timestamp: int, agent: Option<string>)

  datatype Table = Table(rows: seq<Transfer>, nextId: nat)

  /** How block numbers become timestamps in one scan. */
  type Clock = int -> int

  function KeyOf(log: Log): Key {
    Key(log.tx, ExtractAddr(log.fromTopic), ExtractAddr(log.toTopic))
  }

  predicate Has(rows: seq<Transfer>, key: Key) {
    exists i :: 0 <= i < |rows| && rows[i].key == key
  }

  function RowOf(id: nat, log: Log, wallets: WalletMap, clock: Clock): Transfer {
    Transfer(id, KeyOf(log), log.wei, log.block, clock(log.block), AgentFor(wallets, KeyOf(log).to))
  }

  /** One INSERT ... ON CONFLICT DO NOTHING; the id sequence advances either way. */
  function Insert(t: Table, log: Log, wallets: WalletMap, clock: Clock): Table {
    Table(if Has(t.rows, KeyOf(log)) then t.rows else t.rows + [RowOf(t.nextId, log, wallets, clock)], t.nextId + 1)
  }

  /** The inserts of one scan, in log order. */
  function Store(t: Table, logs: seq<Log>, wallets: WalletMap, clock: Clock): Table {
    if logs == [] then t
    else Insert(Store(t, logs[..|logs| - 1], wallets, clock), logs[|logs| - 1], wallets, clock)
  }

  class TransferTable {
    var rows: seq<Transfer>
    var nextId: nat

    function State(): Table
      reads this
    {
      Table(rows, nextId)
    }

    constructor ()
      ensures State() == Table([], 1)
    {
      rows, nextId := [], 1;
    }

    /** The insert loop of `_scan_and_store`; it counts every log it executes, stored or not. */
    method StoreLogs(logs: seq<Log>, wallets: WalletMap, clock: Clock) returns (executed: nat)
      modifies this
      ensures State() == Store(old(State()), logs, wallets, clock)
      ensures executed == |logs|
    {
      executed := 0;
      while executed < |logs|
        invariant executed <= |logs|
        invariant State() == Store(old(State()), logs[..executed], wallets, clock)
      {
        var log := logs[executed];
        assert logs[..executed + 1][..executed] == logs[..executed];
        if !Has(rows, KeyOf(log)) {
          rows := rows + [RowOf(nextId, log, wallets, clock)];
        }
        nextId := nextId + 1;
        executed := executed + 1;
      }
      assert logs[..|logs|] == logs;
    }
  }

  /** Every row a scan adds is written from the first log of its key, with the next id in log order, the
      clock's time for its block, and the agent of its recipient. */
  lemma {:induction false} StoredRow(t: Table, logs: seq<Log>, wallets: WalletMap, clock: Clock, i: nat)
    returns (n: nat)
    requires |t.rows| <= i < |Store(t, logs, wallets, clock).rows|
    ensures n < |logs| && forall j :: 0 <= j < n ==> KeyOf(logs[j]) != KeyOf(logs[n])
    ensures var log, row := logs[n], Store(t, logs, wallets, clock).rows[i];
      && row.id == t.nextId + n && row.key.tx == log.tx
      && row.key.from == ExtractAddr(log.fromTopic) && row.key.to == ExtractAddr(log.toTopic)
      && row.wei == log.wei && row.block == log.block && row.timestamp == clock(log.block)
      && row.agent == AgentFor(wallets, row.key.to)
  {
    StoredIds(t, logs, wallets, clock);
    var init := logs[..|logs| - 1];
    if i < |Store(t, init, wallets, clock).rows| {
      n := StoredRow(t, init, wallets, clock, i);
      assert forall j :: 0 <= j < |init| ==> init[j] == logs[j];
    } else {
      n := |init|;
      StoredIds(t, init, wallets, clock);
      forall j | 0 <= j < n
        ensures KeyOf(logs[j]) != KeyOf(logs[n])
      {
        StoreHas(t, init, wallets, clock, j);
      }
    }
  }

  lemma {:induction false} StoredIds(t: Table, logs: seq<Log>, wallets: WalletMap, clock: Clock)
    ensures Store(t, logs, wallets, clock).nextId == t.nextId + |logs|
    ensures t.rows <= Store(t, logs, wallets, clock).rows
    ensures logs == [] ==> Store(t, logs, wallets, clock).rows == t.rows
  {
    if logs != [] {
      StoredIds(t, logs[..|logs| - 1], wallets, clock);
    }
  }

  lemma {:induction false} StoreHas(t: Table, logs: seq<Log>, wallets: WalletMap, clock: Clock, j: nat)
    requires j < |logs|
    ensures Has(Store(t, logs, wallets, clock).rows, KeyOf(logs[j]))
  {
    var init, last := logs[..|logs| - 1], logs[|logs| - 1];
    InsertHas(Store(t, init, wallets, clock), last, wallets, clock, KeyOf(logs[j]));
    if j < |init| {
      StoreHas(t, init, wallets, clock, j);
    }
  }

  lemma InsertHas(t: Table, log: Log, wallets: WalletMap, clock: Clock, key: Key)
    ensures Has(Insert(t, log, wallets, clock).rows, key) <==> Has(t.rows, key) || key == KeyOf(log)
  {
    var row := RowOf(t.nextId, log, wallets, clock);
    assert (t.rows + [row])[|t.rows|] == row;
    if k :| 0 <= k < |t.rows| && t.rows[k].key == key {
      assert (t.rows + [row])[k] == t.rows[k];
    }
  }

  /** A stored transfer is linked to an agent exactly when that is the agent of the last wallet row that
      spells its recipient's digits. */
  lemma {:induction false} StoredAgentIff(
    t: Table, logs: seq<Log>, ws: seq<(string, string)>, clock: Clock, i: nat, hex: string, agent: string)
    requires |t.rows| <= i < |Store(t, logs, Wallets(ws), clock).rows|
    ensures var row := Store(t, logs, Wallets(ws), clock).rows[i];
      && (Spells(row.key.to, hex) ==> (row.agent == Some(agent) <==> LastNames(ws, hex, agent)))
      && ((forall digits :: !Spells(row.key.to, digits)) ==> row.agent == None)
  {
    var n := StoredRow(t, logs, Wallets(ws), clock, i);
    AgentForIff(ws, Store(t, logs, Wallets(ws), clock).rows[i].key.to, hex, agent);
  }

  lemma {:induction false} StoreConcat(t: Table, a: seq<Log>, b: seq<Log>, wallets: WalletMap, clock: Clock)
    ensures Store(t, a + b, wallets, clock) == Store(Store(t, a, wallets, clock), b, wallets, clock)
  {
    if b == [] {
      assert a + b == a;
    } else {
      assert (a + b)[..|a + b| - 1] == a + b[..|b| - 1];
      StoreConcat(t, a, b[..|b| - 1], wallets, clock);
    }
  }
}
