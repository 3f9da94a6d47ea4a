/**
 The composite activity score (agent_score.py): a probe pillar, a track-record pillar and their
 weighted sum. Quotients are exact rationals; `round` is half-even.
 */
module AgentScore {
  import opened EventCounts
  import opened Rounding
  import opened Wrappers

  const DAY := 86_400
  const TRACK_WINDOW_DAYS := 90
  const MONTH_SECONDS := 2_630_016

  datatype ScoreError = ZeroDivision

  // ---- Probe pillar --------------------------------------------------------------------

  function LatencyPoints(latencyMs: Option<int>): int {
    match latencyMs
    case None => 0
    case Some(ms) =>
      if ms <= 300 then 100 else if ms <= 1000 then 75 else if ms <= 3000 then 50 else if ms <= 10000 then 25 else 0
  }

  datatype Probe = Probe(responded: bool, latencyMs: Option<int>, online: bool, skills: nat)

  function ProbeMix(p: Probe): real {
    var skills := if p.skills < 10 then p.skills else 10;
    0.5 * (if p.responded then 100.0 else 0.0) + 0.3 * LatencyPoints(p.latencyMs) as real
    + 0.1 * (if p.online then 100.0 else 50.0) + 0.1 * (skills * 10) as real
  }

  /** `compute_probe_pillar` of an agent that was probed. */
  function ProbePillar(p: Probe): int {
    RoundHalfEven(ProbeMix(p))
  }

  // ---- Track pillar --------------------------------------------------------------------

  datatype TrackRecord = TrackRecord(
    ageMonths: Option<real>, eventCount: nat, uniqueBuyers: nat, recencyDays: Option<nat>)

  datatype TrackParts = TrackParts(age: int, events: int, buyers: int, recency: int)

  function Percent(part: real): int {
    RoundHalfEven(Min(part, 1.0) * 100.0)
  }

  /** `_track_parts`: an agent without events is neutral; otherwise a recency of 0 days divides by
      zero. */
  function PartsOf(t: TrackRecord): Result<TrackParts, ScoreError> {
    if t.eventCount == 0 then Ok(TrackParts(50, 50, 50, 50))
    else if t.recencyDays == Some(0) then Err(ZeroDivision)
    else Ok(TrackParts(
      if t.ageMonths.None? then 50 else Percent(t.ageMonths.value / 12.0),
      Percent(t.eventCount as real / 10.0),
      Percent(t.uniqueBuyers as real / 10.0),
      if t.recencyDays.None? then 50 else Percent(30.0 / t.recencyDays.value as real)))
  }

  /** `compute_track_record_pillar` */
  function TrackPillar(t: TrackRecord): Result<int, ScoreError> {
    match PartsOf(t)
    case Err(e) => Err(e)
    case Ok(parts) => Ok(RoundHalfEven((parts.age + parts.events + parts.buyers + parts.recency) as real / 4.0))
  }

  /** `composite_score` */
  function Composite(probe: Option<int>, track: Option<int>): int {
    match (probe, track)
    case (Some(p), Some(t)) => RoundHalfEven(0.60 * p as real + 0.40 * t as real)
    case (Some(p), None) => p
    case (None, Some(t)) => t
    case (None, None) => 50
  }

  // ---- What the pillars are ------------------------------------------------------------

  /** Up to 300 ms earn 100 points, up to a second 75, up to three 50, up to ten 25, and slower or
      unmeasured probes none. */
  lemma LatencyPointsAre(latencyMs: Option<int>)
    ensures LatencyPoints(latencyMs) in {0, 25, 50, 75, 100}
    ensures LatencyPoints(latencyMs) == 100 <==> latencyMs.Some? && latencyMs.value <= 300
    ensures LatencyPoints(latencyMs) >= 75 <==> latencyMs.Some? && latencyMs.value <= 1_000
    ensures LatencyPoints(latencyMs) >= 50 <==> latencyMs.Some? && latencyMs.value <= 3_000
    ensures LatencyPoints(latencyMs) >= 25 <==> latencyMs.Some? && latencyMs.value <= 10_000
  {
  }

  /** The probe pillar gives 50 points for an answer, 0.3 for each latency point, 10 for being online and
      5 otherwise, and one for each of the first ten skills. */
  lemma ProbePillarIs(p: Probe)
    ensures var answered, online := if p.responded then 500 else 0, if p.online then 100 else 50;
      var skills := if p.skills > 10 then 10 else p.skills;
      Nearest(ProbePillar(p), answered + 3 * LatencyPoints(p.latencyMs) + online + 10 * skills, 10)
  {
    var answered, online := if p.responded then 500 else 0, if p.online then 100 else 50;
    var skills := if p.skills > 10 then 10 else p.skills;
    RoundIsNearest(ProbeMix(p), answered + 3 * LatencyPoints(p.latencyMs) + online + 10 * skills, 10);
  }

  /** The parts of a track record with events: age by twelfths up to a year, ten points for each of the
      first ten events and buyers, full recency up to 30 days and then 3000 / days; unknown age or
      recency count 50. */
  lemma TrackPartsAre(t: TrackRecord, months: nat)
    requires t.eventCount > 0 && t.recencyDays != Some(0)
    requires t.ageMonths.Some? ==> t.ageMonths.value == months as real
    ensures PartsOf(t).Ok?
    ensures var parts := PartsOf(t).value;
      && (if t.ageMonths.None? then parts.age == 50
          else if months >= 12 then parts.age == 100 else Nearest(parts.age, 100 * months, 12))
      && parts.events == (if t.eventCount > 10 then 100 else 10 * t.eventCount)
      && parts.buyers == (if t.uniqueBuyers > 10 then 100 else 10 * t.uniqueBuyers)
      && (if t.recencyDays.None? then parts.recency == 50
          else if t.recencyDays.value <= 30 then parts.recency == 100
          else Nearest(parts.recency, 3000, t.recencyDays.value))
  {
    TenthsPercent(t.eventCount);
    TenthsPercent(t.uniqueBuyers);
    RoundWhole(100);
    if t.ageMonths.Some? && months < 12 {
      RoundIsNearest(months as real / 12.0 * 100.0, 100 * months, 12);
    }
    if t.recencyDays.Some? {
      RecencyPercent(t.recencyDays.value);
    }
  }

  lemma TenthsPercent(n: nat)
    ensures Percent(n as real / 10.0) == if n > 10 then 100 else 10 * n
  {
    RoundWhole(100);
    RoundWhole(10 * n);
  }

  lemma RecencyPercent(days: nat)
    requires days > 0
    ensures var part := Percent(30.0 / days as real); if days <= 30 then part == 100 else Nearest(part, 3000, days)
  {
    var d := days as real;
    assert (30.0 / d) * d == 30.0;
    RoundWhole(100);
    if days <= 30 {
      DivOrder(d, 30.0, d);
      assert d / d == 1.0;
    } else {
      DivOrder(30.0, d, d);
      assert d / d == 1.0;
      assert (30.0 / d * 100.0) * d == 3000.0;
      RoundIsNearest(30.0 / d * 100.0, 3000, days);
    }
  }

  /** Age counts in proportion to the year, whether or not the months are whole. */
  lemma AgePartIs(t: TrackRecord)
    requires t.eventCount > 0 && t.recencyDays != Some(0) && t.ageMonths.Some? && t.ageMonths.value >= 0.0
    ensures var months, age := t.ageMonths.value, PartsOf(t).value.age;
      if months >= 12.0 then age == 100 else -6.0 <= 12.0 * age as real - 100.0 * months <= 6.0
  {
    RoundWhole(100);
  }

  /** The track pillar is the mean of the four parts; without events they are 50 each. */
  lemma TrackPillarIs(t: TrackRecord)
    ensures t.eventCount == 0 ==> PartsOf(t) == Ok(TrackParts(50, 50, 50, 50)) && TrackPillar(t) == Ok(50)
    ensures TrackPillar(t).Ok? <==> PartsOf(t).Ok?
    ensures TrackPillar(t).Ok? ==>
              var parts := PartsOf(t).value;
              Nearest(TrackPillar(t).value, parts.age + parts.events + parts.buyers + parts.recency, 4)
  {
    if PartsOf(t).Ok? {
      var parts := PartsOf(t).value;
      var sum := parts.age + parts.events + parts.buyers + parts.recency;
      RoundIsNearest(sum as real / 4.0, sum, 4);
      RoundWhole(50);
    }
  }

  /** The composite takes six parts of the probe and four of the track pillar; a missing pillar leaves
      the other, and two missing ones 50. */
  lemma CompositeIs(p: int, t: int)
    ensures Nearest(Composite(Some(p), Some(t)), 6 * p + 4 * t, 10)
    ensures Composite(Some(p), None) == p && Composite(None, Some(t)) == t && Composite(None, None) == 50
  {
    RoundIsNearest(0.60 * p as real + 0.40 * t as real, 6 * p + 4 * t, 10);
  }

  // ---- Ranges and order ----------------------------------------------------------------

  lemma PercentRange(part: real)
    requires part >= 0.0
    ensures 0 <= Percent(part) <= 100
  {
    RoundBetween(0, Min(part, 1.0) * 100.0, 100);
  }

  lemma ProbePillarRange(p: Probe)
    ensures 0 <= ProbePillar(p) <= 100
  {
    RoundBetween(0, ProbeMix(p), 100);
  }

  predicate FasterOrKnown(a: Option<int>, b: Option<int>) {
    b.None? || (a.Some? && a.value <= b.value)
  }

  /** A better probe never lowers the pillar. */
  lemma ProbePillarMonotone(a: Probe, b: Probe)
    requires (b.responded ==> a.responded) && (b.online ==> a.online) && a.skills >= b.skills
    requires FasterOrKnown(a.latencyMs, b.latencyMs)
    ensures ProbePillar(a) >= ProbePillar(b)
  {
    assert LatencyPoints(a.latencyMs) >= LatencyPoints(b.latencyMs);
    RoundMonotone(ProbeMix(b), ProbeMix(a));
  }

  lemma TrackPillarRange(t: TrackRecord)
    requires t.ageMonths.Some? ==> t.ageMonths.value >= 0.0
    ensures TrackPillar(t).Ok? ==> 0 <= TrackPillar(t).value <= 100
    ensures t.eventCount == 0 ==> TrackPillar(t) == Ok(50)
  {
    if t.eventCount > 0 && t.recencyDays != Some(0) {
      if t.ageMonths.Some? {
        DivOrder(0.0, t.ageMonths.value, 12.0);
        PercentRange(t.ageMonths.value / 12.0);
      }
      PercentRange(t.eventCount as real / 10.0);
      PercentRange(t.uniqueBuyers as real / 10.0);
      if t.recencyDays.Some? {
        DivOrder(0.0, 30.0, t.recencyDays.value as real);
        PercentRange(30.0 / t.recencyDays.value as real);
      }
      var parts := PartsOf(t).value;
      RoundBetween(0, (parts.age + parts.events + parts.buyers + parts.recency) as real / 4.0, 100);
    } else if t.eventCount == 0 {
      RoundWhole(50);
    }
  }

  /** The composite lies between its two pillars and grows with each. */
  lemma CompositeBetween(p: int, t: int)
    ensures (if p <= t then p else t) <= Composite(Some(p), Some(t)) <= (if p <= t then t else p)
  {
    var low, high := if p <= t then p else t, if p <= t then t else p;
    RoundBetween(low, 0.60 * p as real + 0.40 * t as real, high);
  }

  lemma CompositeMonotone(p: int, t: int, p': int, t': int)
    requires p <= p' && t <= t'
    ensures Composite(Some(p), Some(t)) <= Composite(Some(p'), Some(t'))
  {
    RoundMonotone(0.60 * p as real + 0.40 * t as real, 0.60 * p' as real + 0.40 * t' as real);
  }

  // ---- From stored events to the score -------------------------------------------------

  /** The newest timestamp among an agent's events in the window. */
  function Latest(events: seq<Event>, agent: string, cutoff: int): Option<int> {
    if events == [] then None
    else
      var before, e := Latest(events[..|events| - 1], agent, cutoff), events[|events| - 1];
      if !Recent(e, agent, cutoff) then before
      else if before.None? || e.timestamp > before.value then Some(e.timestamp) else before
  }

  /** `fetch_track_record` at the second `now`; `days` of a difference is its floor. */
  function FetchTrackRecord(events: seq<Event>, agent: string, createdAt: Option<int>, now: int): TrackRecord {
    var cutoff := now - TRACK_WINDOW_DAYS * DAY;
    TrackRecord(
      match createdAt {
        case None => None
        case Some(at) => Some(if now > at then (now - at) as real / MONTH_SECONDS as real else 0.0)
      },
      |Txs(events, agent, cutoff)|,
      |Buyers(events, agent, cutoff)|,
      match Latest(events, agent, cutoff) {
        case None => None
        case Some(t) => Some(if now > t then (now - t) / DAY else 0)
      })
  }

  lemma {:induction false} LatestIs(events: seq<Event>, agent: string, cutoff: int)
    ensures forall i :: 0 <= i < |events| && Recent(events[i], agent, cutoff) ==>
              Latest(events, agent, cutoff).Some? && events[i].timestamp <= Latest(events, agent, cutoff).value
    ensures Latest(events, agent, cutoff).Some? ==>
              exists i :: 0 <= i < |events| && Recent(events[i], agent, cutoff)
                          && events[i].timestamp == Latest(events, agent, cutoff).value
  {
    if events != [] {
      var init := events[..|events| - 1];
      LatestIs(init, agent, cutoff);
      assert forall i :: 0 <= i < |init| ==> init[i] == events[i];
      assert events[|events| - 1] in events;
    }
  }

  /** The record counts the agent's transactions and buyers of the last 90 days, its age in months of
      30.44 days, never negative, and the whole days since its newest event. */
  lemma {:induction false} FetchTrackRecordIs(events: seq<Event>, agent: string, createdAt: Option<int>, now: int)
    ensures var record := FetchTrackRecord(events, agent, createdAt, now);
      var cutoff := now - 7_776_000;
      && record.eventCount == |Txs(events, agent, cutoff)|
      && record.uniqueBuyers == |Buyers(events, agent, cutoff)|
      && (record.ageMonths.Some? <==> createdAt.Some?)
      && (createdAt.Some? ==>
            record.ageMonths.value * 2_630_016.0
            == (if now > createdAt.value then now - createdAt.value else 0) as real)
      && (record.recencyDays.Some? <==> Latest(events, agent, cutoff).Some?)
      && (record.recencyDays.Some? ==>
            var age := now - Latest(events, agent, cutoff).value;
            if age <= 0 then record.recencyDays == Some(0)
            else 86_400 * record.recencyDays.value <= age < 86_400 * (record.recencyDays.value + 1))
  {
  }

  /** The agent has an event less than a day old. */
  ghost predicate ActiveToday(events: seq<Event>, agent: string, now: int) {
    exists i :: 0 <= i < |events| && events[i].agent == agent && events[i].timestamp > now - DAY
  }

  /** Scoring an agent raises exactly when it has an event less than a day old. */
  lemma ScoringFailsIff(events: seq<Event>, agent: string, createdAt: Option<int>, now: int)
    ensures TrackPillar(FetchTrackRecord(events, agent, createdAt, now)).Err? <==> ActiveToday(events, agent, now)
  {
    var cutoff := now - TRACK_WINDOW_DAYS * DAY;
    var record := FetchTrackRecord(events, agent, createdAt, now);
    LatestIs(events, agent, cutoff);
    if Latest(events, agent, cutoff).Some? {
      var i :| 0 <= i < |events| && Recent(events[i], agent, cutoff)
               && events[i].timestamp == Latest(events, agent, cutoff).value;
      assert events[i].tx in Txs(events, agent, cutoff);
      assert record.recencyDays == Some(0) <==> events[i].timestamp > now - DAY;
    } else {
      assert Txs(events, agent, cutoff) == {};
    }
    if ActiveToday(events, agent, now) {
      var i :| 0 <= i < |events| && events[i].agent == agent && events[i].timestamp > now - DAY;
      assert Recent(events[i], agent, cutoff);
    }
  }
}
