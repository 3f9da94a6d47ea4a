/**
 The probe worker's cycle (probe_worker.py): probe the chosen agents, append a telemetry row for
 each, write health columns and the composite score, and commit once at the end.
 */
module ProbeWorker {
  import opened AgentRows
  import opened AgentScore
  import opened EventCounts
  import opened Json
  import opened Wrappers

  /** What the card endpoint answered for one agent. */
  datatype CardProbe = CardProbe(httpStatus: Option<int>, probe: Probe)

  datatype Telemetry = Telemetry(id: string, at: int, card: CardProbe)

  datatype State = State(rows: Rows, log: seq<Telemetry>)

  function OrNull(n: Option<int>): Json {
    match n { case None => Null case Some(k) => Int(k) }
  }

  function CreatedAt(row: Row): Option<int> {
    var created := Field(row, Mirrored("upstream_created_at"));
    if created.Int? then Some(created.n) else None
  }

  function AsResult(card: CardProbe): ProbeResult {
    ProbeResult(card.probe.responded, OrNull(card.httpStatus), OrNull(card.probe.latencyMs))
  }

  function HealthWrite(id: string, card: CardProbe, at: int): Write {
    ProbeWrite(id, AsResult(card), Int(ProbePillar(card.probe)), Int(at))
  }

  function Track(s: State, events: seq<Event>, id: string, now: int): Result<int, ScoreError>
    requires id in s.rows
  {
    TrackPillar(FetchTrackRecord(events, id, CreatedAt(s.rows[id]), now))
  }

  /** `_probe_agent`: an agent that vanished is skipped. */
  function ProbeAgent(s: State, events: seq<Event>, id: string, card: CardProbe, now: int): Result<State, ScoreError> {
    if id !in s.rows then Ok(s)
    else
      var track :- Track(s, events, id, now);
      var score := Composite(Some(ProbePillar(card.probe)), Some(track));
      Ok(State(After(After(s.rows, HealthWrite(id, card, now)), ScoreWrite(id, Int(score))),
               s.log + [Telemetry(id, now, card)]))
  }

  /** A cycle over agents and their answers; an exception ends it. */
  function Cycle(s: State, events: seq<Event>, chosen: seq<(string, CardProbe)>, now: int): Result<State, ScoreError> {
    if chosen == [] then Ok(s)
    else
      var before :- Cycle(s, events, chosen[..|chosen| - 1], now);
      ProbeAgent(before, events, chosen[|chosen| - 1].0, chosen[|chosen| - 1].1, now)
  }

  /** The track pillar is that of the agent's stored events, with its age from the upstream creation
      time if that is a number. */
  lemma TrackIs(s: State, events: seq<Event>, id: string, now: int)
    requires id in s.rows
    ensures var created := Field(s.rows[id], Mirrored("upstream_created_at"));
      Track(s, events, id, now)
      == TrackPillar(FetchTrackRecord(events, id, if created.Int? then Some(created.n) else None, now))
  {
  }

  /** An agent that vanished is skipped without a trace. */
  lemma VanishedIsSkipped(s: State, events: seq<Event>, id: string, card: CardProbe, now: int)
    requires id !in s.rows
    ensures ProbeAgent(s, events, id, card, now) == Ok(s)
  {
  }

  class Worker {
    var rows: Rows
    var log: seq<Telemetry>

    function Current(): State
      reads this
    {
      State(rows, log)
    }

    constructor (rows: Rows)
      ensures this.rows == rows && log == []
    {
      this.rows, log := rows, [];
    }

    /** `_probe_cycle`: all of the chosen agents, or, after an exception, nothing. */
    method ProbeCycle(events: seq<Event>, chosen: seq<(string, CardProbe)>, now: int)
      returns (probed: Result<nat, ScoreError>)
      modifies this
      ensures probed.Ok? <==> Cycle(old(Current()), events, chosen, now).Ok?
      ensures probed.Ok? ==> probed.value == |chosen| && Cycle(old(Current()), events, chosen, now) == Ok(Current())
      ensures probed.Err? ==> Current() == old(Current())
    {
      var saved := Current();
      for n := 0 to |chosen|
        invariant Cycle(saved, events, chosen[..n], now) == Ok(Current())
      {
        assert chosen[..n + 1][..n] == chosen[..n];
        var (id, card) := chosen[n];
        var after := ProbeAgent(Current(), events, id, card, now);
        if after.Err? {
          CycleStops(saved, events, chosen, now, n + 1);
          rows, log := saved.rows, saved.log;
          return Err(after.error);
        }
        rows, log := after.value.rows, after.value.log;
      }
      assert chosen[..|chosen|] == chosen;
      return Ok(|chosen|);
    }
  }

  lemma {:induction false} CycleStops(s: State, events: seq<Event>, chosen: seq<(string, CardProbe)>, now: int, n: nat)
    requires n <= |chosen| && Cycle(s, events, chosen[..n], now).Err?
    ensures Cycle(s, events, chosen, now).Err?
  {
    if n < |chosen| {
      assert chosen[..|chosen| - 1][..n] == chosen[..n];
      CycleStops(s, events, chosen[..|chosen| - 1], now, n);
    } else {
      assert chosen[..n] == chosen;
    }
  }

  /** Some chosen agent still in the table has an event less than a day old. */
  ghost predicate SomeFresh(rows: Rows, events: seq<Event>, chosen: seq<(string, CardProbe)>, now: int) {
    exists k :: 0 <= k < |chosen| && Fresh(rows, events, chosen[k].0, now)
  }

  ghost predicate Fresh(rows: Rows, events: seq<Event>, id: string, now: int) {
    id in rows && ActiveToday(events, id, now)
  }

  /** A cycle commits exactly when none of the chosen agents was active within the last day: one
      fresh agent undoes the probes of the whole batch. */
  lemma {:induction false} CycleCommitsIff(s: State, events: seq<Event>, chosen: seq<(string, CardProbe)>, now: int)
    ensures Cycle(s, events, chosen, now).Ok? <==> !SomeFresh(s.rows, events, chosen, now)
    ensures Cycle(s, events, chosen, now).Ok? ==> Cycle(s, events, chosen, now).value.rows.Keys == s.rows.Keys
  {
    if chosen != [] {
      var init, id := chosen[..|chosen| - 1], chosen[|chosen| - 1].0;
      CycleCommitsIff(s, events, init, now);
      assert SomeFresh(s.rows, events, chosen, now) <==>
             SomeFresh(s.rows, events, init, now) || Fresh(s.rows, events, id, now) by {
        assert forall k :: 0 <= k < |init| ==> chosen[k] == init[k];
      }
      var before := Cycle(s, events, init, now);
      if before.Ok? && id in before.value.rows {
        ScoringFailsIff(events, id, CreatedAt(before.value.rows[id]), now);
      }
    }
  }

  function Scored(row: Row, health: Write, score: Write): Row {
    var probed := row + Changes(row, health);
    probed + Changes(probed, score)
  }

  lemma ScoredFields(row: Row, health: Write, score: Write, c: Column)
    requires health.ProbeWrite? && score.ScoreWrite?
    ensures var after := Scored(row, health, score);
      && (OwnerOf(c) != Prober && OwnerOf(c) != Scorer ==> Field(after, c) == Field(row, c))
      && Field(after, HealthStatus) == MergeHealth(Field(row, HealthStatus), health.probe, health.at)
      && Field(after, HealthScore) == health.pillar && Field(after, HealthCheckedAt) == health.at
      && Field(after, EndpointLastCheckedAt) == health.at && Field(after, ActivityScore) == score.score
  {
  }

  lemma HealthThenScore(rows: Rows, health: Write, score: Write, id: string)
    requires id in rows && health.ProbeWrite? && score.ScoreWrite? && health.id == id && score.id == id
    ensures After(After(rows, health), score) == rows[id := Scored(rows[id], health, score)]
  {
    AfterAt(rows, health, id);
  }

  /** A committed probe leaves the agent's health and score columns describing that probe, appends
      its telemetry, and touches no other row and no other column. */
  lemma ProbeWrites(s: State, events: seq<Event>, id: string, card: CardProbe, now: int, c: Column)
    requires id in s.rows && !ActiveToday(events, id, now)
    ensures Track(s, events, id, now).Ok? && ProbeAgent(s, events, id, card, now).Ok?
    ensures var after := ProbeAgent(s, events, id, card, now).value;
      var pillar := ProbePillar(card.probe);
      && after.log == s.log + [Telemetry(id, now, card)]
      && id in after.rows && after.rows == s.rows[id := after.rows[id]]
      && (OwnerOf(c) != Prober && OwnerOf(c) != Scorer ==> Field(after.rows[id], c) == Field(s.rows[id], c))
      && Field(after.rows[id], HealthStatus) == MergeHealth(Field(s.rows[id], HealthStatus), AsResult(card), Int(now))
      && Field(after.rows[id], HealthScore) == Int(pillar)
      && Field(after.rows[id], HealthCheckedAt) == Field(after.rows[id], EndpointLastCheckedAt) == Int(now)
      && Field(after.rows[id], ActivityScore) == Int(Composite(Some(pillar), Some(Track(s, events, id, now).value)))
  {
    ScoringFailsIff(events, id, CreatedAt(s.rows[id]), now);
    var score := Composite(Some(ProbePillar(card.probe)), Some(Track(s, events, id, now).value));
    HealthThenScore(s.rows, HealthWrite(id, card, now), ScoreWrite(id, Int(score)), id);
    ScoredFields(s.rows[id], HealthWrite(id, card, now), ScoreWrite(id, Int(score)), c);
  }
}
