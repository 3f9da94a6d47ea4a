/**
 One `agent_cache` row, many writers: the listing sync, the probe worker, score materialisation,
 classification and the compliance refresh each keep to their own columns.
 */
module AgentRows {
  import opened Json

  /** The columns of the table: the 58 that the sync mirrors for good, by name; the ten it only
      inserts; and the five it does not map. */
  datatype Column =
    | Mirrored(name: string)
    | HealthStatus | HealthScore | HealthCheckedAt | EndpointLastCheckedAt
    | EndpointVerificationError | EndpointVerifiedDomain | IsEndpointVerified | EndpointVerifiedAt
    | ActivityScore | Scores
    | AgentId | Category | CompliancePenalty | CreatedAt | UpdatedAt

  /** `_LOCAL_OWNED`: mirrored on insert only. */
  predicate LocalOwned(c: Column) {
    || c.HealthStatus? || c.HealthScore? || c.HealthCheckedAt? || c.EndpointLastCheckedAt?
    || c.EndpointVerificationError? || c.EndpointVerifiedDomain? || c.IsEndpointVerified? || c.EndpointVerifiedAt?
    || c.ActivityScore? || c.Scores?
  }

  /** The names in `_SET_EXPRS`. */
  predicate InSetExprs(c: Column) {
    !(c.AgentId? || c.Category? || c.CompliancePenalty? || c.CreatedAt? || c.UpdatedAt?)
  }

  type Row = map<Column, Json>

  type Rows = map<string, Row>

  // ---- Writers -------------------------------------------------------------------------

  datatype ProbeResult = ProbeResult(responded: bool, httpStatus: Json, latencyMs: Json)

  datatype Write =
    | SyncUpsert(id: string, snapshot: Row, now: Json)
    | Enrich(id: string, rich: string)
    | Reclassify(id: string, rich: string)
    | ProbeWrite(id: string, probe: ProbeResult, pillar: Json, at: Json)
    | ScoreWrite(id: string, score: Json)
    | PenaltyWrite(id: string, penalty: Json)

  /** `_build_set_exprs`: every mirrored column that is not locally owned, and the update stamp. */
  function SetExprs(snapshot: Row, now: Json): Row {
    (map c | c in snapshot && InSetExprs(c) && !LocalOwned(c) :: snapshot[c])[UpdatedAt := now]
  }

  /** The row an INSERT creates: the snapshot over the server defaults. */
  function Inserted(id: string, snapshot: Row, now: Json): Row {
    (map c | c in snapshot && InSetExprs(c) :: snapshot[c])
      [AgentId := Str(id)][Category := Str("other")][CompliancePenalty := Int(0)][CreatedAt := now][UpdatedAt := now]
  }

  /** `_merge_health_status` */
  function MergeHealth(current: Json, probe: ProbeResult, at: Json): Json {
    var kept := if current.Obj? then current.fields else map[];
    Obj(kept["overall_status" := Str(if probe.responded then "healthy" else "unhealthy")]
            ["probe" := Obj(map["responded" := Bool(probe.responded), "http_status" := probe.httpStatus,
                                "latency_ms" := probe.latencyMs, "probed_at" := at])])
  }

  function Field(row: Row, c: Column): Json {
    if c in row then row[c] else Null
  }

  /** What a write sets in an existing row. */
  function Changes(row: Row, w: Write): Row {
    match w
    case SyncUpsert(_, snapshot, now) => SetExprs(snapshot, now)
    case Enrich(_, rich) => if rich == "rebalancing" || rich == "other" then map[] else map[Category := Str(rich)]
    case Reclassify(_, rich) => map[Category := Str(rich)]
    case ProbeWrite(_, probe, pillar, at) =>
      map[HealthStatus := MergeHealth(Field(row, HealthStatus), probe, at), HealthScore := pillar,
          HealthCheckedAt := at, EndpointLastCheckedAt := at]
    case ScoreWrite(_, score) => map[ActivityScore := score]
    case PenaltyWrite(_, penalty) => map[CompliancePenalty := penalty]
  }

  /** One write against the table; only the upsert creates rows. */
  function After(rows: Rows, w: Write): Rows {
    if w.id in rows then rows[w.id := rows[w.id] + Changes(rows[w.id], w)]
    else if w.SyncUpsert? then rows[w.id := Inserted(w.id, w.snapshot, w.now)]
    else rows
  }

  function Run(rows: Rows, ws: seq<Write>): Rows {
    if ws == [] then rows else After(Run(rows, ws[..|ws| - 1]), ws[|ws| - 1])
  }

  lemma {:induction false} RunAppend(rows: Rows, ws: seq<Write>, w: Write)
    ensures Run(rows, ws + [w]) == After(Run(rows, ws), w)
  {
    assert (ws + [w])[..|ws|] == ws;
  }

  /** A first sync writes the snapshot's columns, the ten locally owned ones included, and the defaults of
      the five the sync does not map. */
  lemma InsertedIs(id: string, snapshot: Row, now: Json, c: Column)
    ensures Field(Inserted(id, snapshot, now), c)
         == match c
            case AgentId => Str(id)
            case Category => Str("other")
            case CompliancePenalty => Int(0)
            case CreatedAt => now
            case UpdatedAt => now
            case _ => Field(snapshot, c)
  {
  }

  // ---- Ownership -----------------------------------------------------------------------

  datatype Owner = Sync | Prober | Scorer | Classifier | Compliance | NoOne

  function OwnerOf(c: Column): Owner {
    if c.Mirrored? || c.UpdatedAt? then Sync
    else if c.HealthStatus? || c.HealthScore? || c.HealthCheckedAt? || c.EndpointLastCheckedAt? then Prober
    else if c.ActivityScore? then Scorer
    else if c.Category? then Classifier
    else if c.CompliancePenalty? then Compliance
    else NoOne
  }

  function WriterOf(w: Write): Owner {
    match w
    case SyncUpsert(_, _, _) => Sync
    case Enrich(_, _) => Classifier
    case Reclassify(_, _) => Classifier
    case ProbeWrite(_, _, _, _) => Prober
    case ScoreWrite(_, _) => Scorer
    case PenaltyWrite(_, _) => Compliance
  }

  /** A write changes only columns of its own writer. */
  lemma ChangesAreOwned(row: Row, w: Write, c: Column)
    requires c in Changes(row, w)
    ensures OwnerOf(c) == WriterOf(w)
  {
  }

  /** A write reads, of the row, at most columns of its own writer. */
  lemma ChangesReadOwn(row: Row, other: Row, w: Write)
    requires forall c :: OwnerOf(c) == WriterOf(w) ==> Field(row, c) == Field(other, c)
    ensures Changes(row, w) == Changes(other, w)
  {
    assert OwnerOf(HealthStatus) == Prober;
  }

  predicate Touches(w: Write, id: string, owner: Owner) {
    w.id == id && WriterOf(w) == owner
  }

  /** The writes to one row by one writer, in order. */
  function Own(ws: seq<Write>, id: string, owner: Owner): seq<Write> {
    if ws == [] then []
    else
      Own(ws[..|ws| - 1], id, owner) + if Touches(ws[|ws| - 1], id, owner) then [ws[|ws| - 1]] else []
  }

  lemma {:induction false} RowsStay(rows: Rows, ws: seq<Write>, id: string)
    requires id in rows
    ensures id in Run(rows, ws)
  {
    if ws != [] {
      RowsStay(rows, ws[..|ws| - 1], id);
    }
  }

  lemma AfterAt(rows: Rows, w: Write, id: string)
    requires id in rows
    ensures id in After(rows, w)
    ensures After(rows, w)[id] == if w.id == id then rows[id] + Changes(rows[id], w) else rows[id]
  {
  }

  /** An existing row's columns agree with the row its owner's writes alone would leave. */
  ghost predicate AgreesOn(row: Row, other: Row, owner: Owner) {
    forall c :: OwnerOf(c) == owner ==> (c in row <==> c in other) && Field(row, c) == Field(other, c)
  }

  lemma WriteKeepsAgreement(row: Row, other: Row, w: Write)
    requires AgreesOn(row, other, WriterOf(w))
    ensures AgreesOn(row + Changes(row, w), other + Changes(other, w), WriterOf(w))
  {
    ChangesReadOwn(row, other, w);
  }

  lemma ForeignWriteKeepsAgreement(row: Row, other: Row, w: Write, owner: Owner)
    requires AgreesOn(row, other, owner) && WriterOf(w) != owner
    ensures AgreesOn(row + Changes(row, w), other, owner)
  {
    forall c | OwnerOf(c) == owner
      ensures c !in Changes(row, w)
    {
      if c in Changes(row, w) {
        ChangesAreOwned(row, w, c);
      }
    }
  }

  /** Under any interleaving, a writer's columns hold what its own writes alone would leave there:
      the other writers, and other rows' writes, might as well not have run. */
  lemma {:induction false} OwnColumnsOnly(rows: Rows, ws: seq<Write>, id: string, owner: Owner)
    requires id in rows
    ensures id in Run(rows, ws) && id in Run(rows, Own(ws, id, owner))
    ensures AgreesOn(Run(rows, ws)[id], Run(rows, Own(ws, id, owner))[id], owner)
  {
    RowsStay(rows, ws, id);
    RowsStay(rows, Own(ws, id, owner), id);
    if ws != [] {
      var init, w := ws[..|ws| - 1], ws[|ws| - 1];
      OwnColumnsOnly(rows, init, id, owner);
      RowsStay(rows, init, id);
      RowsStay(rows, Own(init, id, owner), id);
      var row, other := Run(rows, init)[id], Run(rows, Own(init, id, owner))[id];
      AfterAt(Run(rows, init), w, id);
      if Touches(w, id, owner) {
        var own := Own(init, id, owner);
        assert Own(ws, id, owner) == own + [w] && (own + [w])[..|own|] == own;
        AfterAt(Run(rows, own), w, id);
        WriteKeepsAgreement(row, other, w);
      } else {
        assert Own(ws, id, owner) == Own(init, id, owner);
        if w.id == id {
          ForeignWriteKeepsAgreement(row, other, w, owner);
        }
      }
    }
  }

  /** Two schedules that keep each writer's own order leave the same row. */
  lemma {:induction false} InterleavingIrrelevant(rows: Rows, one: seq<Write>, two: seq<Write>, id: string)
    requires id in rows
    requires forall owner :: Own(one, id, owner) == Own(two, id, owner)
    ensures id in Run(rows, one) && id in Run(rows, two)
    ensures forall c :: Field(Run(rows, one)[id], c) == Field(Run(rows, two)[id], c)
  {
    RowsStay(rows, one, id);
    RowsStay(rows, two, id);
    forall c
      ensures Field(Run(rows, one)[id], c) == Field(Run(rows, two)[id], c)
    {
      OwnColumnsOnly(rows, one, id, OwnerOf(c));
      OwnColumnsOnly(rows, two, id, OwnerOf(c));
    }
  }

  // ---- Last values ---------------------------------------------------------------------

  /** The writes that set this column of this row. */
  predicate Sets(w: Write, id: string, c: Column) {
    && w.id == id && OwnerOf(c) == WriterOf(w)
    && match w
       case SyncUpsert(_, snapshot, _) => c.UpdatedAt? || c in snapshot
       case Enrich(_, rich) => rich != "rebalancing" && rich != "other"
       case _ => true
  }

  /** The value such a write leaves: the one it carries, or for a health status the merge. */
  function ValueSet(w: Write, c: Column, before: Json): Json
    requires Sets(w, w.id, c)
  {
    match w
    case SyncUpsert(_, snapshot, now) => if c.UpdatedAt? then now else snapshot[c]
    case Enrich(_, rich) => Str(rich)
    case Reclassify(_, rich) => Str(rich)
    case ProbeWrite(_, probe, pillar, at) =>
      if c.HealthStatus? then MergeHealth(before, probe, at) else if c.HealthScore? then pillar else at
    case ScoreWrite(_, score) => score
    case PenaltyWrite(_, penalty) => penalty
  }

  lemma ChangesIff(row: Row, w: Write, c: Column)
    ensures c in Changes(row, w) <==> Sets(w, w.id, c)
    ensures c in Changes(row, w) ==> Changes(row, w)[c] == ValueSet(w, c, Field(row, c))
  {
  }

  /** What one write leaves of a column. */
  lemma FieldAfter(rows: Rows, w: Write, id: string, c: Column)
    requires id in rows
    ensures id in After(rows, w)
    ensures Field(After(rows, w)[id], c)
         == if Sets(w, id, c) then ValueSet(w, c, Field(rows[id], c)) else Field(rows[id], c)
  {
    ChangesIff(rows[id], w, c);
  }

  /** After any run, each column of an existing row holds the value of the last write that set it,
      or the value it had before the run. */
  lemma {:induction false} LastWriteWins(rows: Rows, ws: seq<Write>, id: string, c: Column) returns (last: int)
    requires id in rows
    ensures id in Run(rows, ws)
    ensures -1 <= last < |ws|
    ensures forall j :: last < j < |ws| ==> !Sets(ws[j], id, c)
    ensures last < 0 ==> Field(Run(rows, ws)[id], c) == Field(rows[id], c)
    ensures last >= 0 ==>
              && Sets(ws[last], id, c) && id in Run(rows, ws[..last])
              && Field(Run(rows, ws)[id], c) == ValueSet(ws[last], c, Field(Run(rows, ws[..last])[id], c))
  {
    last := -1;
    RowsStay(rows, ws, id);
    if ws != [] {
      var init, w := ws[..|ws| - 1], ws[|ws| - 1];
      last := LastWriteWins(rows, init, id, c);
      FieldAfter(Run(rows, init), w, id, c);
      if Sets(w, id, c) {
        last := |init|;
      } else if last >= 0 {
        assert init[..last] == ws[..last];
      }
    }
  }

  predicate Inserts(w: Write, id: string) {
    w.SyncUpsert? && w.id == id
  }

  /** The first upsert of a row, or past the end. */
  function FirstInsert(ws: seq<Write>, id: string): (first: nat)
    ensures first <= |ws|
    ensures forall j :: 0 <= j < first ==> !Inserts(ws[j], id)
    ensures first < |ws| ==> Inserts(ws[first], id)
  {
    if ws == [] then 0
    else
      var first := FirstInsert(ws[..|ws| - 1], id);
      if first < |ws| - 1 || Inserts(ws[|ws| - 1], id) then first else |ws|
  }

  lemma {:induction false} StaysAbsent(rows: Rows, ws: seq<Write>, id: string)
    requires id !in rows && forall j :: 0 <= j < |ws| ==> !Inserts(ws[j], id)
    ensures id !in Run(rows, ws)
  {
    if ws != [] {
      StaysAbsent(rows, ws[..|ws| - 1], id);
    }
  }

  lemma {:induction false} RunConcat(rows: Rows, a: seq<Write>, b: seq<Write>)
    ensures Run(rows, a + b) == Run(Run(rows, a), b)
  {
    if b == [] {
      assert a + b == a;
    } else {
      RunConcat(rows, a, b[..|b| - 1]);
      assert (a + b)[..|a + b| - 1] == a + b[..|b| - 1];
    }
  }

  /** The column of a row holds the value of write `last`, or of the insertion at `first`. */
  ghost predicate HoldsFrom(rows: Rows, ws: seq<Write>, id: string, c: Column, first: nat, last: int) {
    && first <= last < |ws| && Inserts(ws[first], id) && id in Run(rows, ws)
    && (forall j :: last < j < |ws| ==> !Sets(ws[j], id, c))
    && if last == first
       then Field(Run(rows, ws)[id], c) == Field(Inserted(id, ws[first].snapshot, ws[first].now), c)
       else && Sets(ws[last], id, c) && id in Run(rows, ws[..last])
            && Field(Run(rows, ws)[id], c) == ValueSet(ws[last], c, Field(Run(rows, ws[..last])[id], c))
  }

  lemma InsertedAtFirst(rows: Rows, ws: seq<Write>, id: string)
    requires id !in rows && FirstInsert(ws, id) < |ws|
    ensures var first := FirstInsert(ws, id);
      var start := Run(rows, ws[..first + 1]);
      id in start && start[id] == Inserted(id, ws[first].snapshot, ws[first].now)
  {
    var first := FirstInsert(ws, id);
    StaysAbsent(rows, ws[..first], id);
    assert ws[..first + 1][..first] == ws[..first];
  }

  /** What holds after the writes past a prefix holds after the whole. */
  lemma LastPastPrefix(rows: Rows, start: seq<Write>, rest: seq<Write>, id: string, c: Column) returns (last: int)
    requires id in Run(rows, start)
    ensures var ws := start + rest;
      && |start| - 1 <= last < |ws| && id in Run(rows, ws)
      && (forall j :: last < j < |ws| ==> !Sets(ws[j], id, c))
      && (last < |start| ==> Field(Run(rows, ws)[id], c) == Field(Run(rows, start)[id], c))
      && (last >= |start| ==>
            && Sets(ws[last], id, c) && id in Run(rows, ws[..last])
            && Field(Run(rows, ws)[id], c) == ValueSet(ws[last], c, Field(Run(rows, ws[..last])[id], c)))
  {
    var k := LastWriteWins(Run(rows, start), rest, id, c);
    RunConcat(rows, start, rest);
    last := |start| + k;
    if k >= 0 {
      assert (start + rest)[..last] == start + rest[..k];
      RunConcat(rows, start, rest[..k]);
    }
  }

  /** A row that was not there appears with its first upsert, whatever was written to it before, and
      from then on each column holds the value of the last write that set it, or its inserted one. */
  lemma LastWriteOrInsert(rows: Rows, ws: seq<Write>, id: string, c: Column) returns (last: int)
    requires id !in rows
    ensures id in Run(rows, ws) <==> FirstInsert(ws, id) < |ws|
    ensures id in Run(rows, ws) ==> HoldsFrom(rows, ws, id, c, FirstInsert(ws, id), last)
  {
    var first := FirstInsert(ws, id);
    last := first;
    if first == |ws| {
      StaysAbsent(rows, ws, id);
    } else {
      InsertedAtFirst(rows, ws, id);
      assert ws[..first + 1] + ws[first + 1..] == ws;
      last := LastPastPrefix(rows, ws[..first + 1], ws[first + 1..], id, c);
    }
  }

  // ---- The sync ------------------------------------------------------------------------

  /** Repeating a snapshot changes nothing but the update stamp, whether the first one inserted the
      row or found it. */
  lemma SyncIdempotent(rows: Rows, id: string, snapshot: Row, now: Json, later: Json)
    ensures var once := After(rows, SyncUpsert(id, snapshot, now));
      After(once, SyncUpsert(id, snapshot, later)) == once[id := once[id][UpdatedAt := later]]
  {
    var once := After(rows, SyncUpsert(id, snapshot, now));
    assert once[id] + SetExprs(snapshot, later) == once[id][UpdatedAt := later];
  }

  /** A sync of an existing row keeps all ten locally owned columns. */
  lemma SyncKeepsLocal(rows: Rows, id: string, snapshot: Row, now: Json, c: Column)
    requires id in rows && LocalOwned(c)
    ensures Field(After(rows, SyncUpsert(id, snapshot, now))[id], c) == Field(rows[id], c)
  {
  }

  /** A probe keeps every other key of the health status, and says whether the agent answered. */
  lemma ProbeKeepsOtherKeys(current: Json, probe: ProbeResult, at: Json, key: string)
    ensures var merged := MergeHealth(current, probe, at);
      && merged.Obj?
      && (key != "overall_status" && key != "probe" && current.Obj? ==>
            (key in merged.fields <==> key in current.fields) && Get(merged, key) == Get(current, key))
      && Get(merged, "overall_status") == Str(if probe.responded then "healthy" else "unhealthy")
      && var record := Get(merged, "probe");
         && record.Obj? && Get(record, "responded") == Bool(probe.responded) && Get(record, "probed_at") == at
         && Get(record, "http_status") == probe.httpStatus && Get(record, "latency_ms") == probe.latencyMs
  {
    assert "healthy" != "unhealthy" by {
      assert "healthy"[0] != "unhealthy"[0];
    }
    assert "overall_status" != "probe" by {
      assert "overall_status"[0] != "probe"[0];
    }
  }

  /** The enrichment leaves the row with its current classification exactly when that is not one of
      the two defaults or the row holds it already: a row reclassified to a default stays stale. */
  lemma EnrichLeavesRichIff(rows: Rows, id: string, rich: string)
    requires id in rows
    ensures Field(After(rows, Enrich(id, rich))[id], Category) == Str(rich) <==>
            (rich != "rebalancing" && rich != "other") || Field(rows[id], Category) == Str(rich)
  {
  }
}
