/**
 Re-classifying the cached rows (reclassify.py): one pass of counting, batched updates, and what
 the sync's enrichment does to the result.
 */
module Reclassify {
  import opened Categories
  import opened Json
  import opened Payment
  import opened Wrappers

  const BATCH := 500

  /** The columns of a cached agent that classification reads, and its stored category. */
  datatype Agent = Agent(id: string, rawMetadata: Json, tags: seq<Json>, protocols: seq<Json>, description: string,
                         category: string)

  // ---- Signals -------------------------------------------------------------------------

  /** `x if isinstance(x, dict) else {}` on a member, absent members read as null. */
  function Member(d: map<string, Json>, key: string): map<string, Json> {
    if key in d && d[key].Obj? then d[key].fields else map[]
  }

  function SignalsFrom(off: map<string, Json>, a: Agent): Signals {
    var profile := Member(Member(off, "termix"), "profile");
    Signals(if "category" in profile && profile["category"].Str? then Some(profile["category"].s) else None,
            if "tags" in off && off["tags"].Arr? then off["tags"].items else a.tags,
            a.protocols, a.description)
  }

  /** `_classification_signals`: raw metadata that is no object counts as empty. */
  function RowSignals(a: Agent): Signals {
    SignalsFrom(if a.rawMetadata.Obj? then Member(a.rawMetadata.fields, "offchain_content") else map[], a)
  }

  /** The extraction in `_maybe_enrich_category`: raw metadata that is truthy and no object raises. */
  function SyncSignals(a: Agent): Result<Signals, ()> {
    if a.rawMetadata.Obj? then Ok(SignalsFrom(Member(a.rawMetadata.fields, "offchain_content"), a))
    else if !Truthy(a.rawMetadata) then Ok(SignalsFrom(map[], a))
    else Err(())
  }

  function Rich(t: Tables, a: Agent): string {
    ComputeCategory(t, RowSignals(a))
  }

  // ---- The pass ------------------------------------------------------------------------

  predicate UniqueIds(rows: seq<Agent>) {
    forall i, j :: 0 <= i < j < |rows| ==> rows[i].id != rows[j].id
  }

  /** Every row with the category of its own signals. */
  function Classified(t: Tables, rows: seq<Agent>): seq<Agent> {
    seq(|rows|, i requires 0 <= i < |rows| => rows[i].(category := Rich(t, rows[i])))
  }

  /** UPDATE agent_cache SET category = ... WHERE agent_id = ... */
  function SetCategory(rows: seq<Agent>, id: string, category: string): seq<Agent> {
    seq(|rows|, i requires 0 <= i < |rows| => if rows[i].id == id then rows[i].(category := category) else rows[i])
  }

  function Updates(rows: seq<Agent>, updates: seq<(string, string)>): seq<Agent> {
    if updates == [] then rows
    else SetCategory(Updates(rows, updates[..|updates| - 1]), updates[|updates| - 1].1, updates[|updates| - 1].0)
  }

  /** The rows whose stored category differs, as (category, id). */
  function Changed(t: Tables, rows: seq<Agent>): seq<(string, string)> {
    if rows == [] then []
    else
      var a := rows[|rows| - 1];
      Changed(t, rows[..|rows| - 1]) + if Rich(t, a) != a.category then [(Rich(t, a), a.id)] else []
  }

  function CountOf(t: Tables, rows: seq<Agent>, category: string): nat {
    if rows == [] then 0
    else CountOf(t, rows[..|rows| - 1], category) + if Rich(t, rows[|rows| - 1]) == category then 1 else 0
  }

  /** The dictionary holds exactly the categories that occur, with their counts. */
  ghost predicate Tallied(t: Tables, rows: seq<Agent>, counts: map<string, nat>) {
    forall c :: (c in counts <==> CountOf(t, rows, c) > 0) && (c in counts ==> counts[c] == CountOf(t, rows, c))
  }

  datatype Report = Report(total: nat, updated: nat, byCategory: map<string, nat>)

  class Catalog {
    var rows: seq<Agent>

    constructor (rows: seq<Agent>)
      ensures this.rows == rows
    {
      this.rows := rows;
    }

    /** The first loop: the counts and the rows to update. */
    method Assess(t: Tables) returns (counts: map<string, nat>, updates: seq<(string, string)>)
      ensures updates == Changed(t, rows)
      ensures Tallied(t, rows, counts)
    {
      counts, updates := map[], [];
      for n := 0 to |rows|
        invariant updates == Changed(t, rows[..n])
        invariant Tallied(t, rows[..n], counts)
      {
        assert rows[..n + 1][..n] == rows[..n];
        var rich := Rich(t, rows[n]);
        counts := counts[rich := (if rich in counts then counts[rich] else 0) + 1];
        if rich != rows[n].category {
          updates := updates + [(rich, rows[n].id)];
        }
      }
      assert rows[..|rows|] == rows;
    }

    /** The batched updates. */
    method Apply(updates: seq<(string, string)>, batch: nat)
      requires batch > 0
      modifies this
      ensures rows == Updates(old(rows), updates)
    {
      var i := 0;
      while i < |updates|
        invariant rows == Updates(old(rows), updates[..if i < |updates| then i else |updates|])
      {
        var end := if i + batch < |updates| then i + batch else |updates|;
        for k := i to end
          invariant rows == Updates(old(rows), updates[..k])
        {
          assert updates[..k + 1][..k] == updates[..k];
          rows := SetCategory(rows, updates[k].1, updates[k].0);
        }
        i := i + batch;
      }
      assert updates[..|updates|] == updates;
    }

    /** `reclassify_cached_agents` with batches of `batch` updates; the source uses BATCH. */
    method ReclassifyAll(t: Tables, batch: nat) returns (report: Report)
      requires UniqueIds(rows) && batch > 0
      modifies this
      ensures rows == Classified(t, old(rows))
      ensures report.total == |rows| && report.updated == |Changed(t, old(rows))|
      ensures Tallied(t, old(rows), report.byCategory)
    {
      var counts, updates := Assess(t);
      UpdatesClassify(t, rows);
      Apply(updates, batch);
      return Report(|rows|, |updates|, counts);
    }
  }

  // ---- Laws ----------------------------------------------------------------------------

  lemma {:induction false} ChangedIds(t: Tables, rows: seq<Agent>, u: (string, string))
    ensures u in Changed(t, rows) <==>
            exists i :: 0 <= i < |rows| && rows[i].id == u.1 && Rich(t, rows[i]) == u.0
                        && Rich(t, rows[i]) != rows[i].category
  {
    if rows != [] {
      ChangedIds(t, rows[..|rows| - 1], u);
      assert forall i :: 0 <= i < |rows| - 1 ==> rows[..|rows| - 1][i] == rows[i];
    }
  }

  lemma {:induction false} UpdatesAt(rows: seq<Agent>, updates: seq<(string, string)>, i: nat, category: string)
    requires i < |rows|
    requires forall u :: u in updates && u.1 == rows[i].id ==> u.0 == category
    ensures |Updates(rows, updates)| == |rows|
    ensures Updates(rows, updates)[i]
         == if (category, rows[i].id) in updates then rows[i].(category := category) else rows[i]
  {
    if updates != [] {
      var init, last := updates[..|updates| - 1], updates[|updates| - 1];
      assert forall u :: u in updates <==> u in init || u == last;
      UpdatesAt(rows, init, i, category);
    }
  }

  lemma {:induction false} UpdatesLength(rows: seq<Agent>, updates: seq<(string, string)>)
    ensures |Updates(rows, updates)| == |rows|
  {
    if updates != [] {
      UpdatesLength(rows, updates[..|updates| - 1]);
    }
  }

  /** The updates of a pass leave every row with the category of its own signals. */
  lemma {:induction false} UpdatesClassify(t: Tables, rows: seq<Agent>)
    requires UniqueIds(rows)
    ensures Updates(rows, Changed(t, rows)) == Classified(t, rows)
  {
    UpdatesLength(rows, Changed(t, rows));
    forall i | 0 <= i < |rows|
      ensures Updates(rows, Changed(t, rows))[i] == Classified(t, rows)[i]
    {
      UpdatesRow(t, rows, i);
    }
  }

  lemma {:induction false} UpdatesRow(t: Tables, rows: seq<Agent>, i: nat)
    requires UniqueIds(rows) && i < |rows|
    ensures |Updates(rows, Changed(t, rows))| == |rows|
    ensures Updates(rows, Changed(t, rows))[i] == rows[i].(category := Rich(t, rows[i]))
  {
    var rich := Rich(t, rows[i]);
    forall u | u in Changed(t, rows) && u.1 == rows[i].id
      ensures u.0 == rich
    {
      ChangedIds(t, rows, u);
    }
    UpdatesAt(rows, Changed(t, rows), i, rich);
    ChangedIds(t, rows, (rich, rows[i].id));
  }

  /** A second pass finds nothing to change. */
  lemma {:induction false} SecondPassUpdatesNone(t: Tables, rows: seq<Agent>)
    ensures Changed(t, Classified(t, rows)) == []
    ensures Classified(t, Classified(t, rows)) == Classified(t, rows)
  {
    var after := Classified(t, rows);
    assert forall i :: 0 <= i < |after| ==> Rich(t, after[i]) == after[i].category;
    NoneChanged(t, after);
  }

  lemma {:induction false} NoneChanged(t: Tables, rows: seq<Agent>)
    requires forall i :: 0 <= i < |rows| ==> Rich(t, rows[i]) == rows[i].category
    ensures Changed(t, rows) == []
  {
    if rows != [] {
      NoneChanged(t, rows[..|rows| - 1]);
    }
  }

  predicate Distinct(cats: seq<string>) {
    forall i, j :: 0 <= i < j < |cats| ==> cats[i] != cats[j]
  }

  function SumOver(t: Tables, rows: seq<Agent>, cats: seq<string>): nat {
    if cats == [] then 0
    else SumOver(t, rows, cats[..|cats| - 1]) + CountOf(t, rows, cats[|cats| - 1])
  }

  lemma {:induction false} SumStep(t: Tables, rows: seq<Agent>, cats: seq<string>)
    requires rows != [] && Distinct(cats)
    ensures SumOver(t, rows, cats)
         == SumOver(t, rows[..|rows| - 1], cats) + if Rich(t, rows[|rows| - 1]) in cats then 1 else 0
  {
    if cats != [] {
      var init := cats[..|cats| - 1];
      assert forall c :: c in cats <==> c in init || c == cats[|cats| - 1];
      SumStep(t, rows, init);
    }
  }

  lemma {:induction false} SumOfNone(t: Tables, cats: seq<string>)
    ensures SumOver(t, [], cats) == 0
  {
    if cats != [] {
      SumOfNone(t, cats[..|cats| - 1]);
    }
  }

  /** Over any list of the categories that occur, each once, the counts add up to the rows. */
  lemma {:induction false} CountsSumToTotal(t: Tables, rows: seq<Agent>, cats: seq<string>)
    requires Distinct(cats) && forall i :: 0 <= i < |rows| ==> Rich(t, rows[i]) in cats
    ensures SumOver(t, rows, cats) == |rows|
  {
    if rows == [] {
      SumOfNone(t, cats);
    } else {
      SumStep(t, rows, cats);
      CountsSumToTotal(t, rows[..|rows| - 1], cats);
    }
  }

  /** The sync's enrichment of a row: defaults are never written. */
  function Enriched(t: Tables, a: Agent): Result<Agent, ()> {
    match SyncSignals(a)
    case Err(e) => Err(e)
    case Ok(signals) =>
      var rich := ComputeCategory(t, signals);
      Ok(if rich == "rebalancing" || rich == "other" then a else a.(category := rich))
  }

  /** The two extractions agree wherever the sync's does not raise, which is on every raw metadata
      that is an object or empty. */
  lemma ExtractionsAgreeIff(a: Agent)
    ensures SyncSignals(a).Ok? <==> a.rawMetadata.Obj? || !Truthy(a.rawMetadata)
    ensures SyncSignals(a).Ok? ==> SyncSignals(a).value == RowSignals(a)
  {
  }

  /** The member reached through nested objects, or null where one is missing or no object. */
  function Path(j: Json, keys: seq<string>): Json
    decreases |keys|
  {
    if keys == [] then j else if !j.Obj? then Null else Path(Get(j, keys[0]), keys[1..])
  }

  /** The signals of a row: the source category if it is a string, the offchain tags if they are a list
      and otherwise the listing's, and the row's own protocols and description. */
  lemma RowSignalsAre(a: Agent)
    ensures var s := RowSignals(a);
      var category := Path(a.rawMetadata, ["offchain_content", "termix", "profile", "category"]);
      var tags := Path(a.rawMetadata, ["offchain_content", "tags"]);
      && s.termix == (if category.Str? then Some(category.s) else None)
      && s.tags == (if tags.Arr? then tags.items else a.tags)
      && s.protocols == a.protocols && s.description == a.description
  {
    PathStep(a.rawMetadata, "offchain_content", ["termix", "profile", "category"]);
    PathStep(a.rawMetadata, "offchain_content", ["tags"]);
    var off := if a.rawMetadata.Obj? then Get(a.rawMetadata, "offchain_content") else Null;
    PathStep(off, "termix", ["profile", "category"]);
    PathStep(off, "tags", []);
    var termix := if off.Obj? then Get(off, "termix") else Null;
    PathStep(termix, "profile", ["category"]);
    var profile := if termix.Obj? then Get(termix, "profile") else Null;
    PathStep(profile, "category", []);
  }

  lemma {:induction false} PathStep(j: Json, key: string, rest: seq<string>)
    ensures Path(j, [key] + rest) == Path(if j.Obj? then Get(j, key) else Null, rest)
  {
    assert ([key] + rest)[1..] == rest;
  }

  /** What the enrichment leaves: the category of the row's own signals unless that is a default. */
  lemma EnrichedIs(t: Tables, a: Agent)
    requires SyncSignals(a).Ok?
    ensures var rich := ComputeCategory(t, RowSignals(a));
      Enriched(t, a) == Ok(a.(category := if rich in {"rebalancing", "other"} then a.category else rich))
  {
    ExtractionsAgreeIff(a);
  }

  /** After a pass the enrichment of the same data changes nothing. */
  lemma EnrichAfterPassIsNoOp(t: Tables, rows: seq<Agent>, i: nat)
    requires i < |rows| && SyncSignals(rows[i]).Ok?
    ensures Enriched(t, Classified(t, rows)[i]) == Ok(Classified(t, rows)[i])
  {
    var a := rows[i];
    var after := a.(category := Rich(t, a));
    assert SyncSignals(after) == SyncSignals(a) && RowSignals(after) == RowSignals(a);
    ExtractionsAgreeIff(a);
  }
}
