/**
 The mirror of sanctioned addresses (flagged_sync.py): normalising a downloaded list and replacing
 the rows of its source.
 */
module FlaggedMirror {
  import opened Json
  import opened PyText
  import opened Wrappers

  datatype MirrorRow = MirrorRow(address: string, source: string)

  datatype FetchError = Http | NotAList

  function Normal(s: string): string {
    Lower(Strip(s))
  }

  /** The first occurrences of the non-empty normalised strings of the list, in order. */
  function Normalized(items: seq<Json>): seq<string> {
    if items == [] then []
    else
      var before, item := Normalized(items[..|items| - 1]), items[|items| - 1];
      if item.Str? && Normal(item.s) != "" && Normal(item.s) !in before then before + [Normal(item.s)] else before
  }

  /** `_normalize_addresses` */
  method NormalizeAddresses(raw: Json) returns (out: Result<seq<string>, FetchError>)
    ensures out == if raw.Arr? then Ok(Normalized(raw.items)) else Err(NotAList)
  {
    if !raw.Arr? {
      return Err(NotAList);
    }
    var seen: set<string> := {};
    var kept: seq<string> := [];
    for n := 0 to |raw.items|
      invariant kept == Normalized(raw.items[..n])
      invariant forall a :: a in seen <==> a in kept
    {
      assert raw.items[..n + 1][..n] == raw.items[..n];
      var item := raw.items[n];
      if !item.Str? {
        continue;
      }
      var addr := Normal(item.s);
      if addr != "" && addr !in seen {
        seen := seen + {addr};
        kept := kept + [addr];
      }
    }
    assert raw.items[..|raw.items|] == raw.items;
    return Ok(kept);
  }

  /** Normalising drops exactly the outer whitespace and the letter case. */
  lemma NormalIs(left: string, core: string, right: string)
    requires AllSpace(left) && AllSpace(right) && Trimmed(core)
    ensures Normal(left + core + right) == Lower(core)
  {
    StripRemovesPadding(left, core, right);
  }

  predicate Distinct(list: seq<string>) {
    forall i, j :: 0 <= i < j < |list| ==> list[i] != list[j]
  }

  /** An item contributes exactly its own normal form. */
  predicate Spells(item: Json, addr: string) {
    item.Str? && Normal(item.s) == addr && addr != ""
  }

  lemma LowerTwice(s: string)
    ensures Lower(Lower(s)) == Lower(s)
  {
  }

  /** The list keeps each address spelled by some item once, and nothing else. */
  lemma {:induction false} NormalizedIs(items: seq<Json>, addr: string)
    ensures Distinct(Normalized(items))
    ensures addr in Normalized(items) <==> exists i :: 0 <= i < |items| && Spells(items[i], addr)
    ensures addr in Normalized(items) ==> Lower(addr) == addr
  {
    if items != [] {
      var init, item := items[..|items| - 1], items[|items| - 1];
      NormalizedIs(init, addr);
      assert forall i :: 0 <= i < |init| ==> items[i] == init[i];
      if item.Str? {
        LowerTwice(Strip(item.s));
      }
      if addr in Normalized(items) && addr !in Normalized(init) {
        assert Spells(items[|items| - 1], addr);
      }
    }
  }

  // ---- Replacing a source --------------------------------------------------------------

  /** DELETE ... WHERE source = ... */
  function Without(mirror: seq<MirrorRow>, source: string): seq<MirrorRow> {
    if mirror == [] then []
    else Without(mirror[..|mirror| - 1], source) +
         if mirror[|mirror| - 1].source == source then [] else [mirror[|mirror| - 1]]
  }

  function Tagged(addresses: seq<string>, source: string): seq<MirrorRow> {
    seq(|addresses|, i requires 0 <= i < |addresses| => MirrorRow(addresses[i], source))
  }

  /** `_replace_source` */
  function Replaced(mirror: seq<MirrorRow>, source: string, addresses: seq<string>): seq<MirrorRow> {
    Without(mirror, source) + Tagged(addresses, source)
  }

  datatype Fetch = Fetch(source: string, answer: Result<Json, FetchError>)

  /** What a fetch would insert, or why it raises. */
  function Listed(f: Fetch): Result<seq<string>, FetchError> {
    match f.answer
    case Err(e) => Err(e)
    case Ok(raw) => if raw.Arr? then Ok(Normalized(raw.items)) else Err(NotAList)
  }

  /** How many of the fetches in order succeed before the first that raises. */
  function Succeeding(fetches: seq<Fetch>): (n: nat)
    ensures n <= |fetches|
    ensures forall k :: 0 <= k < n ==> Listed(fetches[k]).Ok?
    ensures n < |fetches| ==> Listed(fetches[n]).Err?
  {
    if fetches == [] || Listed(fetches[0]).Err? then 0
    else
      var rest := Succeeding(fetches[1..]);
      assert forall k :: 1 <= k < |fetches| ==> fetches[k] == fetches[1..][k - 1];
      1 + rest
  }

  /** The mirror after the given fetches, each replacing its source. */
  function Refreshed(mirror: seq<MirrorRow>, fetches: seq<Fetch>): seq<MirrorRow>
    requires forall k :: 0 <= k < |fetches| ==> Listed(fetches[k]).Ok?
  {
    if fetches == [] then mirror
    else
      var f := fetches[|fetches| - 1];
      Replaced(Refreshed(mirror, fetches[..|fetches| - 1]), f.source, Listed(f).value)
  }

  /** The inserted rows the report adds up. */
  function InsertedBy(fetches: seq<Fetch>): nat
    requires forall k :: 0 <= k < |fetches| ==> Listed(fetches[k]).Ok?
  {
    if fetches == [] then 0
    else InsertedBy(fetches[..|fetches| - 1]) + |Listed(fetches[|fetches| - 1]).value|
  }

  class Mirror {
    var rows: seq<MirrorRow>

    constructor (rows: seq<MirrorRow>)
      ensures this.rows == rows
    {
      this.rows := rows;
    }

    /** `refresh_flagged_addresses`: sources committed one at a time; a failure keeps the earlier
        ones and is raised. */
    method Refresh(fetches: seq<Fetch>) returns (inserted: Result<nat, FetchError>)
      modifies this
      ensures rows == Refreshed(old(rows), fetches[..Succeeding(fetches)])
      ensures inserted.Ok? <==> Succeeding(fetches) == |fetches|
      ensures inserted.Ok? ==> inserted.value == InsertedBy(fetches)
    {
      var total: nat := 0;
      for n := 0 to |fetches|
        invariant n <= Succeeding(fetches)
        invariant rows == Refreshed(old(rows), fetches[..n])
        invariant total == InsertedBy(fetches[..n])
      {
        var f := fetches[n];
        assert n < Succeeding(fetches) <==> Listed(f).Ok?;
        match f.answer {
          case Err(e) =>
            return Err(e);
          case Ok(raw) =>
            var addresses := NormalizeAddresses(raw);
            if addresses.Err? {
              return Err(addresses.error);
            }
            assert fetches[..n + 1][..n] == fetches[..n];
            rows := Replaced(rows, f.source, addresses.value);
            total := total + |addresses.value|;
        }
      }
      assert fetches[..|fetches|] == fetches;
      return Ok(total);
    }
  }

  lemma {:induction false} WithoutIs(mirror: seq<MirrorRow>, source: string, row: MirrorRow)
    ensures row in Without(mirror, source) <==> row in mirror && row.source != source
  {
    if mirror != [] {
      WithoutIs(mirror[..|mirror| - 1], source, row);
      assert row in mirror <==> row in mirror[..|mirror| - 1] || row == mirror[|mirror| - 1];
    }
  }

  lemma ReplacedIs(mirror: seq<MirrorRow>, source: string, addresses: seq<string>, row: MirrorRow)
    ensures row in Replaced(mirror, source, addresses) <==>
            if row.source == source then row.address in addresses else row in mirror
  {
    WithoutIs(mirror, source, row);
    var tagged := Tagged(addresses, source);
    assert row in tagged <==> row.source == source && row.address in addresses by {
      if row.source == source && row.address in addresses {
        var i :| 0 <= i < |addresses| && addresses[i] == row.address;
        assert tagged[i] == row;
      }
    }
  }

  /** The last fetch of a source, or -1. */
  function LastFetch(fetches: seq<Fetch>, source: string): (last: int)
    ensures -1 <= last < |fetches|
    ensures forall k :: last < k < |fetches| ==> fetches[k].source != source
    ensures last >= 0 ==> fetches[last].source == source
  {
    if fetches == [] then -1
    else if fetches[|fetches| - 1].source == source then |fetches| - 1
    else
      var last := LastFetch(fetches[..|fetches| - 1], source);
      assert forall k :: 0 <= k < |fetches| - 1 ==> fetches[..|fetches| - 1][k] == fetches[k];
      last
  }

  /** After the fetches a source holds exactly the list of its last fetch, and a source that was not
      fetched what it held before: removals upstream disappear and re-runs change nothing. */
  lemma {:induction false} MirrorConverges(mirror: seq<MirrorRow>, fetches: seq<Fetch>, row: MirrorRow)
    requires forall k :: 0 <= k < |fetches| ==> Listed(fetches[k]).Ok?
    ensures var last := LastFetch(fetches, row.source);
      row in Refreshed(mirror, fetches) <==>
      if last >= 0 then row.address in Listed(fetches[last]).value else row in mirror
  {
    if fetches != [] {
      var init, f := fetches[..|fetches| - 1], fetches[|fetches| - 1];
      MirrorConverges(mirror, init, row);
      ReplacedIs(Refreshed(mirror, init), f.source, Listed(f).value, row);
    }
  }

  predicate KeysUnique(mirror: seq<MirrorRow>) {
    forall i, j :: 0 <= i < j < |mirror| ==> mirror[i] != mirror[j]
  }

  lemma {:induction false} WithoutUnique(mirror: seq<MirrorRow>, source: string)
    requires KeysUnique(mirror)
    ensures KeysUnique(Without(mirror, source))
  {
    if mirror != [] {
      var last := mirror[|mirror| - 1];
      WithoutUnique(mirror[..|mirror| - 1], source);
      WithoutIs(mirror[..|mirror| - 1], source, last);
    }
  }

  /** Replacing never violates the (address, source) primary key. */
  lemma {:induction false} RefreshKeepsKeys(mirror: seq<MirrorRow>, fetches: seq<Fetch>)
    requires KeysUnique(mirror) && forall k :: 0 <= k < |fetches| ==> Listed(fetches[k]).Ok?
    ensures KeysUnique(Refreshed(mirror, fetches))
  {
    if fetches != [] {
      var init, f := fetches[..|fetches| - 1], fetches[|fetches| - 1];
      RefreshKeepsKeys(mirror, init);
      var before, addresses := Refreshed(mirror, init), Listed(f).value;
      WithoutUnique(before, f.source);
      NormalizedIs(f.answer.value.items, "");
      var kept, tagged := Without(before, f.source), Tagged(addresses, f.source);
      forall i, j | 0 <= i < |kept| && 0 <= j < |tagged|
        ensures kept[i] != tagged[j]
      {
        WithoutIs(before, f.source, kept[i]);
      }
    }
  }
}
