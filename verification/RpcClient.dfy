/**
 The BSC RPC client with a primary, a fallback and a cooldown (rpc_client.py): one call as a loop
 over providers, and what whole runs of calls keep on a clock that never goes back.
 */
module RpcClient {
  import opened Wrappers

  const PROVIDER_COOLDOWN := 60.0
  const FAILURES_BEFORE_COOLDOWN := 3

  datatype Provider = Chainstack | Alchemy

  /** A dictionary over the two providers. */
  datatype PerProvider<T> = PerProvider(chainstack: T, alchemy: T) {
    function At(p: Provider): T {
      if p == Chainstack then chainstack else alchemy
    }

    function With(p: Provider, value: T): PerProvider<T> {
      if p == Chainstack then this.(chainstack := value) else this.(alchemy := value)
    }
  }

  /** What a provider answers to one POST. A non-dict `error` member makes reading its message raise;
      Broken stands for every HTTP status, transport or decoding exception. */
  datatype Reply = Answer(data: string) | ErrorObject | ErrorOther | Neither | Broken

  /** When a provider's turn comes, what it would answer, and when that answer is in. */
  datatype Turn = Turn(at: real, reply: Reply, done: real)

  datatype Call = Call(rpc: string, first: Turn, second: Turn)

  datatype Event = Skipped(provider: Provider, at: real)
                 | Sent(provider: Provider, at: real, rpc: string, reply: Reply, done: real)

  datatype Client = Client(available: PerProvider<bool>, failures: PerProvider<nat>,
                           cooldownUntil: PerProvider<real>, usage: PerProvider<nat>)

  // ---- One call ------------------------------------------------------------------------

  function Opened(chainstackKey: string, alchemyKey: string): Client {
    Client(PerProvider(chainstackKey != "", alchemyKey != ""),
           PerProvider(0, 0), PerProvider(0.0, 0.0),
           PerProvider(0, 0))
  }

  function Primary(available: PerProvider<bool>): Provider {
    if available.chainstack then Chainstack else Alchemy
  }

  function Other(p: Provider): Provider {
    if p == Chainstack then Alchemy else Chainstack
  }

  /** Alchemy's compute units per method, and for any other. */
  const ALCHEMY_UNITS: map<string, nat> := map[
    "eth_blockNumber" := 10, "eth_getBlockByNumber" := 16, "eth_getLogs" := 75, "eth_call" := 26,
    "eth_getBalance" := 16]
  const OTHER_UNITS: nat := 10

  function AlchemyUnits(rpc: string): nat {
    if rpc in ALCHEMY_UNITS then ALCHEMY_UNITS[rpc] else OTHER_UNITS
  }

  /** A request costs 1 at Chainstack, and at Alchemy what its table says. */
  lemma CostIs(rpc: string)
    ensures Cost(Chainstack, rpc) == 1
    ensures rpc in ALCHEMY_UNITS ==> Cost(Alchemy, rpc) == ALCHEMY_UNITS[rpc]
    ensures rpc !in ALCHEMY_UNITS ==> Cost(Alchemy, rpc) == OTHER_UNITS
  {
  }

  function Cost(p: Provider, rpc: string): nat {
    if p == Chainstack then 1 else AlchemyUnits(rpc)
  }

  predicate Healthy(c: Client, p: Provider, now: real) {
    c.available.At(p) && now >= c.cooldownUntil.At(p)
  }

  function RecordFailure(c: Client, p: Provider, now: real): Client {
    var failed := c.(failures := c.failures.With(p, c.failures.At(p) + 1));
    if failed.failures.At(p) >= FAILURES_BEFORE_COOLDOWN
    then failed.(cooldownUntil := c.cooldownUntil.With(p, now + PROVIDER_COOLDOWN))
    else failed
  }

  function RecordSuccess(c: Client, p: Provider, rpc: string): Client {
    c.(failures := c.failures.With(p, 0), usage := c.usage.With(p, c.usage.At(p) + Cost(p, rpc)))
  }

  predicate Failed(reply: Reply) {
    reply.ErrorOther? || reply.Broken?
  }

  /** The reply ends the call: with its data, or with None. */
  predicate Settles(reply: Reply) {
    reply.Answer? || reply.ErrorObject?
  }

  /** One iteration of the provider loop. */
  function Try(c: Client, p: Provider, rpc: string, turn: Turn): (Client, Event) {
    if !Healthy(c, p, turn.at) then (c, Skipped(p, turn.at))
    else
      (if turn.reply.Answer? then RecordSuccess(c, p, rpc)
       else if Failed(turn.reply) then RecordFailure(c, p, turn.done)
       else c,
       Sent(p, turn.at, rpc, turn.reply, turn.done))
  }

  predicate Ends(e: Event) {
    e.Sent? && Settles(e.reply)
  }

  /** `rpc_call`: the client after it and the providers tried. */
  function AfterCall(c: Client, call: Call): (Client, seq<Event>) {
    var p := Primary(c.available);
    var (c1, e1) := Try(c, p, call.rpc, call.first);
    if Ends(e1) then (c1, [e1])
    else
      var (c2, e2) := Try(c1, Other(p), call.rpc, call.second);
      (c2, [e1, e2])
  }

  function DataOf(events: seq<Event>): Option<string> {
    if events != [] && events[|events| - 1].Sent? && events[|events| - 1].reply.Answer?
    then Some(events[|events| - 1].reply.data) else None
  }

  class MultiRpcClient {
    var available: PerProvider<bool>
    var failures: PerProvider<nat>
    var cooldownUntil: PerProvider<real>
    var usage: PerProvider<nat>

    function State(): Client
      reads this
    {
      Client(available, failures, cooldownUntil, usage)
    }

    constructor (chainstackKey: string, alchemyKey: string)
      ensures State() == Opened(chainstackKey, alchemyKey)
    {
      available := PerProvider(chainstackKey != "", alchemyKey != "");
      failures := PerProvider(0, 0);
      cooldownUntil := PerProvider(0.0, 0.0);
      usage := PerProvider(0, 0);
    }

    method RecordFailureAt(p: Provider, now: real)
      modifies this
      ensures State() == RecordFailure(old(State()), p, now)
    {
      failures := failures.With(p, failures.At(p) + 1);
      if failures.At(p) >= FAILURES_BEFORE_COOLDOWN {
        cooldownUntil := cooldownUntil.With(p, now + PROVIDER_COOLDOWN);
      }
    }

    method RpcCall(call: Call) returns (data: Option<string>, ghost events: seq<Event>)
      modifies this
      ensures (State(), events) == AfterCall(old(State()), call)
      ensures data == DataOf(events)
    {
      var order := [Primary(available), Other(Primary(available))];
      var turns := [call.first, call.second];
      events := [];
      var k := 0;
      while k < 2
        invariant 0 <= k <= 2 && |events| == k && available == old(available)
        invariant k == 0 ==> State() == old(State())
        invariant k == 1 ==> (State(), events[0]) == Try(old(State()), order[0], call.rpc, turns[0]) && !Ends(events[0])
        invariant k == 2 ==> (State(), events) == AfterCall(old(State()), call) && !Ends(events[1])
      {
        var p, turn := order[k], turns[k];
        if !Healthy(State(), p, turn.at) {
          events := events + [Skipped(p, turn.at)];
          assert events == if k == 0 then [events[0]] else [events[0], events[1]];
          k := k + 1;
          continue;
        }
        events := events + [Sent(p, turn.at, call.rpc, turn.reply, turn.done)];
        assert events == if k == 0 then [events[0]] else [events[0], events[1]];
        match turn.reply {
          case Answer(answer) =>
            failures := failures.With(p, 0);
            usage := usage.With(p, usage.At(p) + (if p == Chainstack then 1 else AlchemyUnits(call.rpc)));
            return Some(answer), events;
          case ErrorObject =>
            return None, events;
          case ErrorOther =>
            RecordFailureAt(p, turn.done);
          case Broken =>
            RecordFailureAt(p, turn.done);
          case Neither =>
        }
        k := k + 1;
      }
      return None, events;
    }
  }

  /** The turn of a provider: skipped, or asked for the call's method, with the reply of that turn. */
  predicate TurnOf(e: Event, call: Call, turn: Turn) {
    e.at == turn.at && (e.Sent? ==> e.rpc == call.rpc && e.reply == turn.reply && e.done == turn.done)
  }

  /** A call asks Chainstack first if it is configured, and otherwise Alchemy; it turns to the other one
      exactly when the first was skipped, failed, or answered with neither a result nor an error
      object; and it asks no provider twice. */
  lemma FallbackIff(c: Client, call: Call)
    ensures var events := AfterCall(c, call).1;
      && 1 <= |events| <= 2 && (events[0].provider == Chainstack <==> c.available.chainstack)
      && TurnOf(events[0], call, call.first)
      && (|events| == 2 <==>
            || events[0].Skipped? || Failed(events[0].reply) || events[0].reply.Neither?)
      && (|events| == 2 ==> events[1].provider != events[0].provider && TurnOf(events[1], call, call.second))
  {
  }

  /** A call yields data exactly when one of the providers it asked answered, and then it is the
      last one asked. */
  lemma DataIff(c: Client, call: Call)
    ensures var events := AfterCall(c, call).1;
      DataOf(events).Some? <==> exists i :: 0 <= i < |events| && events[i].Sent? && events[i].reply.Answer?
  {
    var events := AfterCall(c, call).1;
    if DataOf(events).Some? {
      assert events[|events| - 1].reply.Answer?;
    }
  }

  // ---- What a trace says about a provider ----------------------------------------------

  /** The failures of a provider since its last success: how many, the first and the last. */
  datatype Streak = Streak(n: nat, first: real, last: real)

  function StreakOf(trace: seq<Event>, p: Provider): Streak {
    if trace == [] then Streak(0, 0.0, 0.0)
    else
      var before, e := StreakOf(trace[..|trace| - 1], p), trace[|trace| - 1];
      if e.provider != p || e.Skipped? then before
      else if e.reply.Answer? then Streak(0, 0.0, 0.0)
      else if Failed(e.reply) then Streak(before.n + 1, if before.n == 0 then e.done else before.first, e.done)
      else before
  }

  function SpentOn(trace: seq<Event>, p: Provider): nat {
    if trace == [] then 0
    else
      var e := trace[|trace| - 1];
      SpentOn(trace[..|trace| - 1], p)
      + if e.provider == p && e.Sent? && e.reply.Answer? then Cost(p, e.rpc) else 0
  }

  /** The provider sits out the minute after the latest of three or more failures in a row. */
  predicate Cooling(s: Streak, now: real) {
    s.n >= FAILURES_BEFORE_COOLDOWN && now < s.last + PROVIDER_COOLDOWN
  }

  predicate AskedRightly(available: PerProvider<bool>, trace: seq<Event>, i: nat)
    requires i < |trace|
  {
    var e := trace[i];
    e.Sent? <==> available.At(e.provider) && !Cooling(StreakOf(trace[..i], e.provider), e.at)
  }

  predicate Spread(s: Streak) {
    s.n > 0 ==> s.last - s.first >= PROVIDER_COOLDOWN * (s.n as real - 3.0) && s.last >= s.first
  }

  // ---- Runs ----------------------------------------------------------------------------

  function Run(c: Client, calls: seq<Call>): (Client, seq<Event>) {
    if calls == [] then (c, [])
    else
      var (c1, before) := Run(c, calls[..|calls| - 1]);
      var (c2, events) := AfterCall(c1, calls[|calls| - 1]);
      (c2, before + events)
  }

  function EndOf(calls: seq<Call>): real {
    if calls == [] then 0.0 else calls[|calls| - 1].second.done
  }

  /** The clock never goes back. */
  predicate Timely(calls: seq<Call>) {
    forall i :: 0 <= i < |calls| ==>
      EndOf(calls[..i]) <= calls[i].first.at <= calls[i].first.done <= calls[i].second.at <= calls[i].second.done
  }

  /** The provider's fields match what the trace says of it. */
  predicate ProviderTracked(c: Client, trace: seq<Event>, p: Provider, now: real) {
    var s := StreakOf(trace, p);
    && c.failures.At(p) == s.n
    && c.usage.At(p) == SpentOn(trace, p)
    && (if s.n >= FAILURES_BEFORE_COOLDOWN then c.cooldownUntil.At(p) == s.last + PROVIDER_COOLDOWN
        else c.cooldownUntil.At(p) <= now)
    && (s.n > 0 ==> s.last <= now)
    && Spread(s)
  }

  predicate Tracked(c: Client, available: PerProvider<bool>, trace: seq<Event>, now: real) {
    && c.available == available
    && ProviderTracked(c, trace, Chainstack, now) && ProviderTracked(c, trace, Alchemy, now)
    && forall i :: 0 <= i < |trace| ==> AskedRightly(available, trace, i)
  }

  lemma {:induction false} TryKeepsProvider(c: Client, available: PerProvider<bool>, trace: seq<Event>, now: real,
                         asked: Provider, rpc: string, turn: Turn, p: Provider)
    requires c.available == available && now <= turn.at <= turn.done
    requires ProviderTracked(c, trace, p, now)
    ensures var (after, e) := Try(c, asked, rpc, turn);
      && ProviderTracked(after, trace + [e], p, turn.done)
      && (p == asked ==> (e.Sent? <==> available.At(p) && !Cooling(StreakOf(trace, p), e.at)))
  {
    var (after, e) := Try(c, asked, rpc, turn);
    assert (trace + [e])[..|trace|] == trace;
  }

  lemma TryKeeps(c: Client, available: PerProvider<bool>, trace: seq<Event>, now: real,
                 asked: Provider, rpc: string, turn: Turn)
    requires Tracked(c, available, trace, now) && now <= turn.at <= turn.done
    ensures var (after, e) := Try(c, asked, rpc, turn);
      Tracked(after, available, trace + [e], turn.done)
  {
    var (after, e) := Try(c, asked, rpc, turn);
    var longer := trace + [e];
    TryKeepsProvider(c, available, trace, now, asked, rpc, turn, Chainstack);
    TryKeepsProvider(c, available, trace, now, asked, rpc, turn, Alchemy);
    forall i | 0 <= i < |longer|
      ensures AskedRightly(available, longer, i)
    {
      assert longer[..i] == trace[..i];
      if i < |trace| {
        assert AskedRightly(available, trace, i);
      } else {
        assert trace[..i] == trace;
      }
    }
  }

  lemma TrackedLater(c: Client, available: PerProvider<bool>, trace: seq<Event>, now: real, later: real)
    requires Tracked(c, available, trace, now) && now <= later
    ensures Tracked(c, available, trace, later)
  {
  }

  lemma CallKeeps(c: Client, available: PerProvider<bool>, trace: seq<Event>, now: real, call: Call)
    requires Tracked(c, available, trace, now)
    requires now <= call.first.at <= call.first.done <= call.second.at <= call.second.done
    ensures var (after, events) := AfterCall(c, call);
      Tracked(after, available, trace + events, call.second.done)
  {
    var p := Primary(available);
    var (c1, e1) := Try(c, p, call.rpc, call.first);
    TryKeeps(c, available, trace, now, p, call.rpc, call.first);
    if Ends(e1) {
      TrackedLater(c1, available, trace + [e1], call.first.done, call.second.done);
    } else {
      var (c2, e2) := Try(c1, Other(p), call.rpc, call.second);
      TryKeeps(c1, available, trace + [e1], call.first.done, Other(p), call.rpc, call.second);
      assert trace + [e1, e2] == (trace + [e1]) + [e2];
    }
  }

  /** Over every run: each provider in turn is asked exactly when it is configured and not cooling,
      n failures in a row span at least 60 * (n - 3) seconds, and usage is the summed cost of the
      answered requests. */
  lemma {:induction false} RunTracked(chainstackKey: string, alchemyKey: string, calls: seq<Call>)
    requires Timely(calls)
    ensures var c := Opened(chainstackKey, alchemyKey);
      var (after, trace) := Run(c, calls);
      Tracked(after, c.available, trace, EndOf(calls))
  {
    var c := Opened(chainstackKey, alchemyKey);
    if calls != [] {
      var init := calls[..|calls| - 1];
      assert forall i :: 0 <= i < |init| ==> init[i] == calls[i] && init[..i] == calls[..i];
      RunTracked(chainstackKey, alchemyKey, init);
      var (c1, before) := Run(c, init);
      CallKeeps(c1, c.available, before, EndOf(init), calls[|calls| - 1]);
    }
  }

  /** The failures of a streak, with the clock, in the terms of an operator: after n failures of a
      provider since its last success at least a minute has passed for each one past the third. */
  lemma FailuresTakeTime(chainstackKey: string, alchemyKey: string, calls: seq<Call>, p: Provider)
    requires Timely(calls)
    ensures var (after, trace) := Run(Opened(chainstackKey, alchemyKey), calls);
      var s := StreakOf(trace, p);
      && after.failures.At(p) == s.n && after.usage.At(p) == SpentOn(trace, p)
      && (s.n > 0 ==> s.last - s.first >= 60.0 * (s.n as real - 3.0))
  {
    RunTracked(chainstackKey, alchemyKey, calls);
  }

  /** No request of any run goes to an unconfigured provider or to one that is cooling. */
  lemma {:induction false} NoRequestWhileCooling(chainstackKey: string, alchemyKey: string, calls: seq<Call>, i: nat)
    requires Timely(calls)
    requires i < |Run(Opened(chainstackKey, alchemyKey), calls).1|
    requires Run(Opened(chainstackKey, alchemyKey), calls).1[i].Sent?
    ensures var trace := Run(Opened(chainstackKey, alchemyKey), calls).1;
      var e := trace[i];
      && (if e.provider == Chainstack then chainstackKey != "" else alchemyKey != "")
      && !Cooling(StreakOf(trace[..i], e.provider), e.at)
  {
    RunTracked(chainstackKey, alchemyKey, calls);
    var c := Opened(chainstackKey, alchemyKey);
    assert AskedRightly(c.available, Run(c, calls).1, i);
  }
}
