/**
 Compliance flags and the penalty on an agent's displayed score (compliance_refresh.py), and the
 three places that display it. Scores are in cents of a point.
 */
module Compliance {
  import opened FlaggedMirror
  import opened PyText
  import opened Wrappers

  const PENALTY_PER_FLAG := 3000
  const PENALTY_CAP := 5000

  /** `compute_penalty` */
  function ComputePenalty(creatorFlagged: bool, ownerFlagged: bool): int {
    var raw := (if creatorFlagged then PENALTY_PER_FLAG else 0) + (if ownerFlagged then PENALTY_PER_FLAG else 0);
    if raw < PENALTY_CAP then raw else PENALTY_CAP
  }

  datatype Agent = Agent(
    id: string, creator: Option<string>, owner: Option<string>, activity: Option<int>, penalty: int)

  datatype FlagRow = FlagRow(
    creatorFlagged: bool, creatorSources: seq<string>, ownerFlagged: bool, ownerSources: seq<string>,
    creatorIsOwner: bool, stale: bool, refreshedAt: int)

  datatype Db = Db(agents: seq<Agent>, flags: map<string, FlagRow>)

  // ---- The refresh ---------------------------------------------------------------------

  function Wallet(address: Option<string>): string {
    if address.Some? then Normal(address.value) else ""
  }

  /** The sources that list an address, in mirror order. */
  function SourcesOf(mirror: seq<MirrorRow>, addr: string): seq<string> {
    if mirror == [] then []
    else
      var row := mirror[|mirror| - 1];
      SourcesOf(mirror[..|mirror| - 1], addr) + if Lower(row.address) == addr then [row.source] else []
  }

  predicate Flagged(mirror: seq<MirrorRow>, wallet: string) {
    wallet != "" && SourcesOf(mirror, wallet) != []
  }

  /** The flag row a refresh computes for an agent. */
  function Verdict(mirror: seq<MirrorRow>, a: Agent, stale: bool, now: int): FlagRow {
    var creator, owner := Wallet(a.creator), Wallet(a.owner);
    FlagRow(Flagged(mirror, creator), SourcesOf(mirror, creator), Flagged(mirror, owner), SourcesOf(mirror, owner),
            creator != "" && creator == owner, stale, now)
  }

  /** The penalty a refresh gives an agent. */
  function Price(mirror: seq<MirrorRow>, a: Agent): int {
    ComputePenalty(Flagged(mirror, Wallet(a.creator)), Flagged(mirror, Wallet(a.owner)))
  }

  function PenaltyOf(row: FlagRow): int {
    ComputePenalty(row.creatorFlagged, row.ownerFlagged)
  }

  /** Every agent with the penalty of its verdict. */
  function Repriced(agents: seq<Agent>, mirror: seq<MirrorRow>): seq<Agent> {
    seq(|agents|, i requires 0 <= i < |agents| => agents[i].(penalty := Price(mirror, agents[i])))
  }

  function Upserted(flags: map<string, FlagRow>, upserts: seq<(string, FlagRow)>): map<string, FlagRow> {
    if upserts == [] then flags
    else Upserted(flags, upserts[..|upserts| - 1])[upserts[|upserts| - 1].0 := upserts[|upserts| - 1].1]
  }

  function Verdicts(agents: seq<Agent>, mirror: seq<MirrorRow>, stale: bool, now: int): seq<(string, FlagRow)> {
    seq(|agents|, i requires 0 <= i < |agents| => (agents[i].id, Verdict(mirror, agents[i], stale, now)))
  }

  /** `refresh_agent_compliance_flags` */
  function AfterRefresh(db: Db, mirror: seq<MirrorRow>, stale: bool, now: int): Db {
    Db(Repriced(db.agents, mirror), Upserted(db.flags, Verdicts(db.agents, mirror, stale, now)))
  }

  /** UPDATE agent_cache SET compliance_penalty = ... WHERE agent_id = ... */
  function SetPenalty(agents: seq<Agent>, id: string, penalty: int): seq<Agent> {
    seq(|agents|, i requires 0 <= i < |agents| =>
      if agents[i].id == id then agents[i].(penalty := penalty) else agents[i])
  }

  /** `penalty_distribution`: how many agents pay nothing, one flag, and the cap. */
  datatype Distribution = Distribution(none: nat, one: nat, capped: nat)

  function Counted(d: Distribution, penalty: int): Distribution {
    if penalty == 0 then d.(none := d.none + 1)
    else if penalty == PENALTY_PER_FLAG then d.(one := d.one + 1)
    else d.(capped := d.capped + 1)
  }

  function PriceIn(mirror: seq<MirrorRow>): Agent -> int {
    a => Price(mirror, a)
  }

  function CountWith(agents: seq<Agent>, price: Agent -> int, penalty: int): nat {
    if agents == [] then 0
    else CountWith(agents[..|agents| - 1], price, penalty) + if price(agents[|agents| - 1]) == penalty then 1 else 0
  }

  function DistributionOf(agents: seq<Agent>, price: Agent -> int): Distribution {
    Distribution(CountWith(agents, price, 0), CountWith(agents, price, PENALTY_PER_FLAG),
                 CountWith(agents, price, PENALTY_CAP))
  }

  /** The dictionary of a mirror. */
  ghost predicate Indexes(sources: map<string, seq<string>>, mirror: seq<MirrorRow>) {
    forall a :: (a in sources <==> SourcesOf(mirror, a) != []) && (a in sources ==> sources[a] == SourcesOf(mirror, a))
  }

  /** The row the loop builds from the dictionary. */
  function RowFrom(sources: map<string, seq<string>>, a: Agent, stale: bool, now: int): FlagRow {
    var creator, owner := Wallet(a.creator), Wallet(a.owner);
    FlagRow(creator != "" && creator in sources, if creator in sources then sources[creator] else [],
            owner != "" && owner in sources, if owner in sources then sources[owner] else [],
            creator != "" && creator == owner, stale, now)
  }

  lemma RowFromIs(sources: map<string, seq<string>>, mirror: seq<MirrorRow>, a: Agent, stale: bool, now: int)
    requires Indexes(sources, mirror)
    ensures RowFrom(sources, a, stale, now) == Verdict(mirror, a, stale, now)
    ensures PenaltyOf(RowFrom(sources, a, stale, now)) == Price(mirror, a)
  {
  }

  predicate UniqueIds(agents: seq<Agent>) {
    forall i, j :: 0 <= i < j < |agents| ==> agents[i].id != agents[j].id
  }

  class Store {
    var agents: seq<Agent>
    var flags: map<string, FlagRow>

    function State(): Db
      reads this
    {
      Db(agents, flags)
    }

    constructor (db: Db)
      ensures State() == db
    {
      agents, flags := db.agents, db.flags;
    }

    /** `address_sources` */
    static method AddressSources(mirror: seq<MirrorRow>) returns (sources: map<string, seq<string>>)
      ensures Indexes(sources, mirror)
    {
      sources := map[];
      for n := 0 to |mirror|
        invariant Indexes(sources, mirror[..n])
      {
        assert mirror[..n + 1][..n] == mirror[..n];
        var addr := Lower(mirror[n].address);
        sources := sources[addr := (if addr in sources then sources[addr] else []) + [mirror[n].source]];
      }
      assert mirror[..|mirror|] == mirror;
    }

    /** The loop over the agents: the rows to upsert and the distribution, for any verdict. */
    static method Judge(agents: seq<Agent>, verdict: Agent -> FlagRow, ghost price: Agent -> int)
      returns (upserts: seq<(string, FlagRow)>, distribution: Distribution)
      requires forall a :: price(a) == PenaltyOf(verdict(a))
      ensures |upserts| == |agents|
      ensures forall i :: 0 <= i < |agents| ==> upserts[i] == (agents[i].id, verdict(agents[i]))
      ensures distribution == DistributionOf(agents, price)
    {
      upserts, distribution := [], Distribution(0, 0, 0);
      for n := 0 to |agents|
        invariant |upserts| == n
        invariant forall i :: 0 <= i < n ==> upserts[i] == (agents[i].id, verdict(agents[i]))
        invariant distribution == DistributionOf(agents[..n], price)
      {
        var a := agents[n];
        var row := verdict(a);
        assert price(a) == PenaltyOf(row);
        JudgeStep(agents, price, n);
        distribution := Counted(distribution, ComputePenalty(row.creatorFlagged, row.ownerFlagged));
        upserts := upserts + [(a.id, row)];
      }
      assert agents[..|agents|] == agents;
    }

    /** The flag rows, one by one. */
    method SaveFlags(upserts: seq<(string, FlagRow)>)
      modifies this`flags
      ensures flags == Upserted(old(flags), upserts)
    {
      for n := 0 to |upserts|
        invariant flags == Upserted(old(flags), upserts[..n])
      {
        assert upserts[..n + 1][..n] == upserts[..n];
        flags := flags[upserts[n].0 := upserts[n].1];
      }
      assert upserts[..|upserts|] == upserts;
    }

    /** The penalties, one UPDATE per agent. */
    method SavePenalties(upserts: seq<(string, FlagRow)>)
      requires UniqueIds(agents) && |upserts| == |agents|
      requires forall i :: 0 <= i < |agents| ==> upserts[i].0 == agents[i].id
      modifies this`agents
      ensures |agents| == |old(agents)|
      ensures forall i :: 0 <= i < |agents| ==> agents[i] == old(agents)[i].(penalty := PenaltyOf(upserts[i].1))
    {
      for n := 0 to |upserts|
        invariant |agents| == |old(agents)|
        invariant forall i :: 0 <= i < n ==> agents[i] == old(agents)[i].(penalty := PenaltyOf(upserts[i].1))
        invariant forall i :: n <= i < |agents| ==> agents[i] == old(agents)[i]
      {
        agents := SetPenalty(agents, upserts[n].0, PenaltyOf(upserts[n].1));
      }
    }

    /** `refresh_agent_compliance_flags` */
    method RefreshFlags(mirror: seq<MirrorRow>, stale: bool, now: int)
      returns (matched: nat, distribution: Distribution)
      requires UniqueIds(agents)
      modifies this
      ensures State() == AfterRefresh(old(State()), mirror, stale, now)
      ensures matched == |agents|
      ensures distribution == ListedDistribution(old(agents), mirror)
    {
      var sources := AddressSources(mirror);
      forall a
        ensures PriceIn(mirror)(a) == PenaltyOf(RowFrom(sources, a, stale, now))
        ensures RowFrom(sources, a, stale, now) == Verdict(mirror, a, stale, now)
      {
        RowFromIs(sources, mirror, a, stale, now);
      }
      var upserts;
      upserts, distribution := Judge(agents, a => RowFrom(sources, a, stale, now), PriceIn(mirror));
      assert upserts == Verdicts(agents, mirror, stale, now);
      SaveFlags(upserts);
      SavePenalties(upserts);
      assert agents == Repriced(old(agents), mirror);
      DistributionIs(old(agents), mirror);
      return |upserts|, distribution;
    }
  }

  lemma JudgeStep(agents: seq<Agent>, price: Agent -> int, n: nat)
    requires n < |agents| && price(agents[n]) in [0, PENALTY_PER_FLAG, PENALTY_CAP]
    ensures DistributionOf(agents[..n + 1], price) == Counted(DistributionOf(agents[..n], price), price(agents[n]))
  {
    var prefix := agents[..n + 1];
    assert prefix[..n] == agents[..n];
    assert forall p :: CountWith(prefix, price, p)
                    == CountWith(agents[..n], price, p) + if price(agents[n]) == p then 1 else 0;
  }

  // ---- What a refresh leaves -----------------------------------------------------------

  /** The mirror lists the wallet. */
  ghost predicate Mirrors(mirror: seq<MirrorRow>, wallet: string) {
    exists k :: 0 <= k < |mirror| && Lower(mirror[k].address) == wallet
  }

  lemma {:induction false} SourcesIff(mirror: seq<MirrorRow>, addr: string)
    ensures SourcesOf(mirror, addr) != [] <==> Mirrors(mirror, addr)
  {
    if mirror != [] {
      var init := mirror[..|mirror| - 1];
      SourcesIff(init, addr);
      assert forall k :: 0 <= k < |init| ==> init[k] == mirror[k];
    }
  }

  lemma {:induction false} UpsertedAt(flags: map<string, FlagRow>, upserts: seq<(string, FlagRow)>, id: string)
    returns (last: int)
    ensures -1 <= last < |upserts|
    ensures forall j :: last < j < |upserts| ==> upserts[j].0 != id
    ensures id in Upserted(flags, upserts) <==> last >= 0 || id in flags
    ensures last >= 0 ==> upserts[last].0 == id && Upserted(flags, upserts)[id] == upserts[last].1
    ensures last < 0 && id in flags ==> Upserted(flags, upserts)[id] == flags[id]
  {
    last := -1;
    if upserts != [] {
      last := UpsertedAt(flags, upserts[..|upserts| - 1], id);
      if upserts[|upserts| - 1].0 == id {
        last := |upserts| - 1;
      }
    }
  }

  lemma VerdictStored(db: Db, mirror: seq<MirrorRow>, stale: bool, now: int, i: nat)
    requires UniqueIds(db.agents) && i < |db.agents|
    ensures var id := db.agents[i].id;
      id in AfterRefresh(db, mirror, stale, now).flags
      && AfterRefresh(db, mirror, stale, now).flags[id] == Verdict(mirror, db.agents[i], stale, now)
  {
    var upserts := Verdicts(db.agents, mirror, stale, now);
    var last := UpsertedAt(db.flags, upserts, db.agents[i].id);
    assert upserts[i].0 == db.agents[i].id;
    assert last == i;
  }

  /** The mirror lists the address, letter case and outer whitespace aside; a missing or blank one it
      never lists. */
  ghost predicate ListsWallet(mirror: seq<MirrorRow>, address: Option<string>) {
    address.Some? && Normal(address.value) != "" && Mirrors(mirror, Normal(address.value))
  }

  /** What 0, 1 and 2 flags cost: nothing, 30.00 and, capped, 50.00. */
  function CostOf(flags: nat): int {
    if flags == 0 then 0 else if flags == 1 then 3000 else 5000
  }

  /** How many of the agent's two wallets the mirror lists. */
  ghost function ListedWallets(mirror: seq<MirrorRow>, a: Agent): nat {
    (if ListsWallet(mirror, a.creator) then 1 else 0) + (if ListsWallet(mirror, a.owner) then 1 else 0)
  }

  lemma PriceIsCost(mirror: seq<MirrorRow>, a: Agent)
    ensures Price(mirror, a) == CostOf(ListedWallets(mirror, a))
  {
    SourcesIff(mirror, Wallet(a.creator));
    SourcesIff(mirror, Wallet(a.owner));
  }

  /** After a refresh an agent's stored flags say whether the mirror lists its wallets, the row names
      their sources and whether they are the same, and the penalty is 0, 30.00 or 50.00 exactly as
      none, one or both wallets are listed. */
  lemma {:induction false} RefreshIsMembership(db: Db, mirror: seq<MirrorRow>, stale: bool, now: int, i: nat)
    requires UniqueIds(db.agents) && i < |db.agents|
    ensures var after := AfterRefresh(db, mirror, stale, now);
      var a := db.agents[i];
      && a.id in after.flags
      && after.flags[a.id]
         == FlagRow(ListsWallet(mirror, a.creator), SourcesOf(mirror, Wallet(a.creator)),
                    ListsWallet(mirror, a.owner), SourcesOf(mirror, Wallet(a.owner)),
                    Wallet(a.creator) != "" && Wallet(a.creator) == Wallet(a.owner), stale, now)
      && |after.agents| == |db.agents|
      && after.agents[i] == a.(penalty := CostOf(ListedWallets(mirror, a)))
  {
    VerdictStored(db, mirror, stale, now, i);
    SourcesIff(mirror, Wallet(db.agents[i].creator));
    SourcesIff(mirror, Wallet(db.agents[i].owner));
    PriceIsCost(mirror, db.agents[i]);
  }

  /** The sources named for an address are those of the mirror rows that list it, in mirror order. */
  lemma {:induction false} SourcesConcat(a: seq<MirrorRow>, b: seq<MirrorRow>, row: MirrorRow, addr: string)
    ensures SourcesOf(a + b, addr) == SourcesOf(a, addr) + SourcesOf(b, addr)
    ensures SourcesOf([row], addr) == if Lower(row.address) == addr then [row.source] else []
  {
    assert [row][..0] == [];
    if b == [] {
      assert a + b == a;
    } else {
      assert (a + b)[..|a + b| - 1] == a + b[..|b| - 1];
      SourcesConcat(a, b[..|b| - 1], row, addr);
    }
  }

  /** The agents of which the mirror lists this many wallets. */
  ghost function WithListed(agents: seq<Agent>, mirror: seq<MirrorRow>, flags: nat): set<int> {
    set i | 0 <= i < |agents| && ListedWallets(mirror, agents[i]) == flags
  }

  /** How many agents have none, one and both of their wallets listed. */
  ghost function ListedDistribution(agents: seq<Agent>, mirror: seq<MirrorRow>): Distribution {
    Distribution(|WithListed(agents, mirror, 0)|, |WithListed(agents, mirror, 1)|, |WithListed(agents, mirror, 2)|)
  }

  /** The distribution reports those numbers. */
  lemma DistributionIs(agents: seq<Agent>, mirror: seq<MirrorRow>)
    ensures DistributionOf(agents, PriceIn(mirror)) == ListedDistribution(agents, mirror)
  {
    CountIs(agents, mirror, 0);
    CountIs(agents, mirror, 1);
    CountIs(agents, mirror, 2);
  }

  lemma {:induction false} CountIs(agents: seq<Agent>, mirror: seq<MirrorRow>, flags: nat)
    requires flags <= 2
    ensures CountWith(agents, PriceIn(mirror), CostOf(flags)) == |WithListed(agents, mirror, flags)|
  {
    CountIsSize(agents, PriceIn(mirror), CostOf(flags));
    forall i | 0 <= i < |agents|
      ensures PriceIn(mirror)(agents[i]) == CostOf(flags) <==> ListedWallets(mirror, agents[i]) == flags
    {
      PriceIsCost(mirror, agents[i]);
    }
    assert AtPrice(agents, PriceIn(mirror), CostOf(flags)) == WithListed(agents, mirror, flags);
  }

  function AtPrice(agents: seq<Agent>, price: Agent -> int, penalty: int): set<int> {
    set i | 0 <= i < |agents| && price(agents[i]) == penalty
  }

  lemma {:induction false} CountIsSize(agents: seq<Agent>, price: Agent -> int, penalty: int)
    ensures CountWith(agents, price, penalty) == |AtPrice(agents, price, penalty)|
  {
    if agents != [] {
      var init, n := agents[..|agents| - 1], |agents| - 1;
      CountIsSize(init, price, penalty);
      var before := AtPrice(init, price, penalty);
      assert n !in before;
      assert AtPrice(agents, price, penalty) == if price(agents[n]) == penalty then before + {n} else before;
    }
  }

  /** The distribution counts every agent once. */
  lemma {:induction false} DistributionSums(agents: seq<Agent>, mirror: seq<MirrorRow>)
    ensures var d := DistributionOf(agents, PriceIn(mirror)); d.none + d.one + d.capped == |agents|
  {
    if agents != [] {
      DistributionSums(agents[..|agents| - 1], mirror);
    }
  }

  predicate SameFlags(a: FlagRow, b: FlagRow) {
    a.(stale := b.stale, refreshedAt := b.refreshedAt) == b
  }

  /** A second refresh over the same mirror changes no penalty, adds no row and changes at most the
      stamp and the staleness of a flag row. Both refreshes read the mirror's rows in the same order. */
  lemma SecondRefreshIsStable(db: Db, mirror: seq<MirrorRow>, stale: bool, now: int, stale': bool, now': int)
    requires UniqueIds(db.agents)
    ensures var once := AfterRefresh(db, mirror, stale, now);
      var twice := AfterRefresh(once, mirror, stale', now');
      && twice.agents == once.agents
      && twice.flags.Keys == once.flags.Keys
      && forall id :: id in once.flags ==> SameFlags(twice.flags[id], once.flags[id])
  {
    var once := AfterRefresh(db, mirror, stale, now);
    var twice := AfterRefresh(once, mirror, stale', now');
    assert twice.agents == once.agents;
    forall id
      ensures id in once.flags <==> id in twice.flags
      ensures id in once.flags ==> SameFlags(twice.flags[id], once.flags[id])
    {
      var first := UpsertedAt(db.flags, Verdicts(db.agents, mirror, stale, now), id);
      var last := UpsertedAt(once.flags, Verdicts(once.agents, mirror, stale', now'), id);
      if last >= 0 {
        VerdictStored(db, mirror, stale, now, last);
      }
    }
  }

  // ---- Runs ----------------------------------------------------------------------------

  /** The stored penalty is always 0, 30.00 or 50.00 as none, one or both stored flags are set, and 0
      without a flag row. */
  ghost predicate Priced(db: Db) {
    && UniqueIds(db.agents)
    && (forall i :: 0 <= i < |db.agents| ==> PricedAgent(db, i))
    && (forall id :: id in db.flags ==> HasAgent(db.agents, id))
  }

  predicate PricedAgent(db: Db, i: nat)
    requires i < |db.agents|
  {
    db.agents[i].penalty
    == if db.agents[i].id in db.flags then CostOf(FlagsSet(db.flags[db.agents[i].id])) else 0
  }

  function FlagsSet(row: FlagRow): nat {
    (if row.creatorFlagged then 1 else 0) + (if row.ownerFlagged then 1 else 0)
  }

  predicate HasAgent(agents: seq<Agent>, id: string) {
    exists i :: 0 <= i < |agents| && agents[i].id == id
  }

  /** What happens to the two tables: a refresh over the mirror of the moment, a sync upsert, which
      inserts with the default penalty and never updates activity or penalty, a score write. */
  datatype Step =
    | Refresh(mirror: seq<MirrorRow>, stale: bool, now: int)
    | Upsert(id: string, creator: Option<string>, owner: Option<string>, activity: Option<int>)
    | Score(id: string, value: int)

  function After(db: Db, step: Step): Db {
    match step
    case Refresh(mirror, stale, now) => AfterRefresh(db, mirror, stale, now)
    case Upsert(id, creator, owner, activity) =>
      if HasAgent(db.agents, id) then
        db.(agents := seq(|db.agents|, i requires 0 <= i < |db.agents| =>
          if db.agents[i].id == id then db.agents[i].(creator := creator, owner := owner) else db.agents[i]))
      else db.(agents := db.agents + [Agent(id, creator, owner, activity, 0)])
    case Score(id, value) =>
      db.(agents := seq(|db.agents|, i requires 0 <= i < |db.agents| =>
        if db.agents[i].id == id then db.agents[i].(activity := Some(value)) else db.agents[i]))
  }

  function Run(db: Db, steps: seq<Step>): Db {
    if steps == [] then db else After(Run(db, steps[..|steps| - 1]), steps[|steps| - 1])
  }

  /** A sync upsert sets the wallets and a score write the score of the agent named, or inserts it with
      penalty 0; neither touches a flag row, a penalty or another agent. */
  lemma StepTouches(db: Db, step: Step, i: nat)
    requires !step.Refresh? && i < |db.agents|
    ensures var after := After(db, step);
      var a := db.agents[i];
      && after.flags == db.flags && |db.agents| <= |after.agents| <= |db.agents| + 1
      && after.agents[i] == (if a.id != step.id then a
                             else if step.Upsert? then Agent(a.id, step.creator, step.owner, a.activity, a.penalty)
                             else Agent(a.id, a.creator, a.owner, Some(step.value), a.penalty))
      && (|after.agents| > |db.agents| <==> step.Upsert? && !HasAgent(db.agents, step.id))
      && (|after.agents| > |db.agents| ==>
            after.agents[|db.agents|] == Agent(step.id, step.creator, step.owner, step.activity, 0))
  {
  }

  lemma RefreshPrices(db: Db, mirror: seq<MirrorRow>, stale: bool, now: int)
    requires Priced(db)
    ensures Priced(AfterRefresh(db, mirror, stale, now))
  {
    var after := AfterRefresh(db, mirror, stale, now);
    forall i | 0 <= i < |after.agents|
      ensures PricedAgent(after, i)
    {
      RefreshIsMembership(db, mirror, stale, now, i);
    }
    forall id | id in after.flags
      ensures HasAgent(after.agents, id)
    {
      var last := UpsertedAt(db.flags, Verdicts(db.agents, mirror, stale, now), id);
      if last >= 0 {
        assert after.agents[last].id == id;
      } else {
        var i :| 0 <= i < |db.agents| && db.agents[i].id == id;
        assert after.agents[i].id == id;
      }
    }
  }

  lemma RewrittenPrices(db: Db, agents: seq<Agent>)
    requires Priced(db) && |agents| >= |db.agents|
    requires forall i :: 0 <= i < |db.agents| ==>
               agents[i].id == db.agents[i].id && agents[i].penalty == db.agents[i].penalty
    requires forall i :: |db.agents| <= i < |agents| ==> !HasAgent(db.agents, agents[i].id) && agents[i].penalty == 0
    requires |agents| <= |db.agents| + 1
    ensures Priced(Db(agents, db.flags))
  {
    forall i | 0 <= i < |agents|
      ensures PricedAgent(Db(agents, db.flags), i)
    {
      if i < |db.agents| {
        assert PricedAgent(db, i);
      }
    }
    forall id | id in db.flags
      ensures HasAgent(agents, id)
    {
      var i :| 0 <= i < |db.agents| && db.agents[i].id == id;
      assert agents[i].id == id;
    }
  }

  /** Over any run of refreshes, syncs and score writes the penalties stay true to the flags. */
  lemma {:induction false} RunKeepsPriced(db: Db, steps: seq<Step>)
    requires Priced(db)
    ensures Priced(Run(db, steps))
  {
    if steps != [] {
      var before, step := Run(db, steps[..|steps| - 1]), steps[|steps| - 1];
      RunKeepsPriced(db, steps[..|steps| - 1]);
      match step
      case Refresh(mirror, stale, now) => RefreshPrices(before, mirror, stale, now);
      case Upsert(_, _, _, _) => RewrittenPrices(before, After(before, step).agents);
      case Score(_, _) => RewrittenPrices(before, After(before, step).agents);
    }
  }

  // ---- Display -------------------------------------------------------------------------

  function AtLeastZero(n: int): int {
    if n > 0 then n else 0
  }

  /** The ranking query: null activity stays null. */
  function RankingShows(a: Agent): Option<int> {
    match a.activity { case None => None case Some(score) => Some(AtLeastZero(score - a.penalty)) }
  }

  /** The score endpoint, which materialises `computed` when there is no score yet. */
  function EndpointShows(a: Agent, computed: int): int {
    AtLeastZero((if a.activity.Some? then a.activity.value else computed) - a.penalty)
  }

  /** The agent page, which recomputes the penalty from the flag row. */
  function PageShows(db: Db, a: Agent): int {
    var penalty := if a.id in db.flags then PenaltyOf(db.flags[a.id]) else ComputePenalty(false, false);
    AtLeastZero((if a.activity.Some? then a.activity.value else 0) - penalty)
  }

  /** In every reachable state the ranking, the endpoint and the page show the same value for an
      agent with a score, and it lies between 0 and that score. */
  lemma {:induction false} DisplaysAgree(db: Db, steps: seq<Step>, i: nat, computed: int)
    requires Priced(db) && i < |Run(db, steps).agents|
    requires Run(db, steps).agents[i].activity.Some? && Run(db, steps).agents[i].activity.value >= 0
    ensures var a := Run(db, steps).agents[i];
      && RankingShows(a) == Some(EndpointShows(a, computed))
      && EndpointShows(a, computed) == PageShows(Run(db, steps), a)
      && 0 <= PageShows(Run(db, steps), a) <= a.activity.value
  {
    RunKeepsPriced(db, steps);
    ShownAlike(Run(db, steps), i, computed);
  }

  lemma {:induction false} ShownAlike(db: Db, i: nat, computed: int)
    requires i < |db.agents| && PricedAgent(db, i)
    requires db.agents[i].activity.Some? && db.agents[i].activity.value >= 0
    ensures var a := db.agents[i];
      && RankingShows(a) == Some(EndpointShows(a, computed)) && EndpointShows(a, computed) == PageShows(db, a)
      && 0 <= PageShows(db, a) <= a.activity.value
  {
  }

  /** After a refresh all three displays of a scored agent show its score less 0, 30.00 or 50.00, as
      none, one or both wallets are listed, and never less than 0; without a score the ranking shows
      none, the page 0, and the endpoint the computed score less the same. */
  lemma RefreshedDisplays(db: Db, mirror: seq<MirrorRow>, stale: bool, now: int, i: nat, computed: int)
    requires UniqueIds(db.agents) && i < |db.agents|
    ensures var after := AfterRefresh(db, mirror, stale, now);
      var cost := CostOf(ListedWallets(mirror, db.agents[i]));
      && |after.agents| == |db.agents|
      && var a := after.agents[i];
         match db.agents[i].activity
         case Some(score) =>
           var shown := if score > cost then score - cost else 0;
           RankingShows(a) == Some(shown) && EndpointShows(a, computed) == shown && PageShows(after, a) == shown
         case None =>
           && RankingShows(a) == None && PageShows(after, a) == 0
           && EndpointShows(a, computed) == if computed > cost then computed - cost else 0
  {
    RefreshIsMembership(db, mirror, stale, now, i);
    var after := AfterRefresh(db, mirror, stale, now);
    ShownLess(after, after.agents[i], CostOf(ListedWallets(mirror, db.agents[i])), computed);
  }

  lemma ShownLess(db: Db, a: Agent, cost: int, computed: int)
    requires a.penalty == cost >= 0 && a.id in db.flags && PenaltyOf(db.flags[a.id]) == cost
    ensures match a.activity
      case Some(score) =>
        var shown := if score > cost then score - cost else 0;
        RankingShows(a) == Some(shown) && EndpointShows(a, computed) == shown && PageShows(db, a) == shown
      case None =>
        && RankingShows(a) == None && PageShows(db, a) == 0
        && EndpointShows(a, computed) == if computed > cost then computed - cost else 0
  {
  }

  /** Every source of the previous mirror is fetched again, each source once, all successfully. */
  ghost predicate FullRefresh(previous: seq<MirrorRow>, fetches: seq<Fetch>) {
    && (forall k :: 0 <= k < |fetches| ==> Listed(fetches[k]).Ok?)
    && (forall k, l :: 0 <= k < l < |fetches| ==> fetches[k].source != fetches[l].source)
    && (forall r :: r in previous ==> exists k :: 0 <= k < |fetches| && fetches[k].source == r.source)
  }

  lemma {:induction false} MirroredIsListed(previous: seq<MirrorRow>, fetches: seq<Fetch>, row: MirrorRow)
    requires FullRefresh(previous, fetches) && row in Refreshed(previous, fetches) && Lower(row.address) != ""
    ensures SomeListSpells(fetches, Lower(row.address))
  {
    var last := LastFetch(fetches, row.source);
    MirrorConverges(previous, fetches, row);
    assert last >= 0;
    NormalizedIs(fetches[last].answer.value.items, row.address);
    assert ListSpells(fetches[last], row.address);
  }

  lemma {:induction false} ListedIsMirrored(previous: seq<MirrorRow>, fetches: seq<Fetch>, k: nat, wallet: string)
    requires FullRefresh(previous, fetches) && k < |fetches| && ListSpells(fetches[k], wallet)
    ensures wallet != "" && Mirrors(Refreshed(previous, fetches), wallet)
  {
    var mirror, row := Refreshed(previous, fetches), MirrorRow(wallet, fetches[k].source);
    NormalizedIs(fetches[k].answer.value.items, wallet);
    MirrorConverges(previous, fetches, row);
    assert LastFetch(fetches, row.source) == k;
    var j :| 0 <= j < |mirror| && mirror[j] == row;
    assert Lower(mirror[j].address) == wallet;
  }

  /** The refreshed mirror lists a wallet exactly when some fetched list spells it. */
  lemma {:induction false} MirrorsIffListed(previous: seq<MirrorRow>, fetches: seq<Fetch>, wallet: string)
    requires FullRefresh(previous, fetches)
    ensures wallet != "" && Mirrors(Refreshed(previous, fetches), wallet) <==> SomeListSpells(fetches, wallet)
  {
    var mirror := Refreshed(previous, fetches);
    if wallet != "" && Mirrors(mirror, wallet) {
      var k :| 0 <= k < |mirror| && Lower(mirror[k].address) == wallet;
      MirroredIsListed(previous, fetches, mirror[k]);
    }
    if k :| 0 <= k < |fetches| && ListSpells(fetches[k], wallet) {
      ListedIsMirrored(previous, fetches, k, wallet);
    }
  }

  /** End to end: a mirror refresh and a flag refresh over it flag exactly the agents whose creator
      or owner wallet some fetched list spells. */
  lemma {:induction false} FlaggedIffListed(
    db: Db, previous: seq<MirrorRow>, fetches: seq<Fetch>, stale: bool, now: int, i: nat)
    requires UniqueIds(db.agents) && i < |db.agents| && FullRefresh(previous, fetches)
    ensures var a := db.agents[i];
      var after := AfterRefresh(db, Refreshed(previous, fetches), stale, now);
      && a.id in after.flags
      && (after.flags[a.id].creatorFlagged <==> SomeListSpells(fetches, Wallet(a.creator)))
      && (after.flags[a.id].ownerFlagged <==> SomeListSpells(fetches, Wallet(a.owner)))
  {
    RefreshIsMembership(db, Refreshed(previous, fetches), stale, now, i);
    MirrorsIffListed(previous, fetches, Wallet(db.agents[i].creator));
    MirrorsIffListed(previous, fetches, Wallet(db.agents[i].owner));
  }

  /** Some item of the fetched list spells the address. */
  ghost predicate ListSpells(f: Fetch, addr: string)
    requires Listed(f).Ok?
  {
    exists i :: 0 <= i < |f.answer.value.items| && Spells(f.answer.value.items[i], addr)
  }

  ghost predicate SomeListSpells(fetches: seq<Fetch>, addr: string)
    requires forall k :: 0 <= k < |fetches| ==> Listed(fetches[k]).Ok?
  {
    exists k :: 0 <= k < |fetches| && ListSpells(fetches[k], addr)
  }
}
