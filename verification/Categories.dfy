/**
 The category classifier (categories.py): a chain of scans over hint tables, first match wins. The
 tables are parameters.
 */
module Categories {
  import opened Json
  import opened PyText
  import opened Wrappers

  type Hints = seq<string>

  /** `CATEGORIES`, then the hint tables; the last two are scanned in their own order. */
  datatype Tables = Tables(
    categories: seq<string>, termix: map<string, string>,
    tagHints: map<string, Hints>, descriptionHints: map<string, Hints>,
    skillHints: seq<(string, Hints)>, protocolHints: seq<(string, Hints)>)

  datatype Signals = Signals(termix: Option<string>, tags: seq<Json>, protocols: seq<Json>, description: string)

  predicate OccursAt(text: string, hint: string, i: nat) {
    i + |hint| <= |text| && text[i..i + |hint|] == hint
  }

  /** `hint in text` */
  predicate Contains(text: string, hint: string) {
    exists i :: 0 <= i <= |text| && OccursAt(text, hint, i)
  }

  predicate AnyHint(text: string, hints: Hints) {
    exists h :: 0 <= h < |hints| && Contains(text, hints[h])
  }

  predicate Hit(texts: seq<string>, hints: Hints) {
    exists k :: 0 <= k < |texts| && AnyHint(texts[k], hints)
  }

  /** The strings of a list, in lower case. */
  function Lowered(items: seq<Json>): seq<string> {
    if items == [] then []
    else (if items[0].Str? then [Lower(items[0].s)] else []) + Lowered(items[1..])
  }

  /** The first category, in the order given, one of whose hints occurs in some text. */
  function FirstHit(order: seq<(string, Hints)>, texts: seq<string>): Option<string> {
    if order == [] then None
    else if Hit(texts, order[0].1) then Some(order[0].0)
    else FirstHit(order[1..], texts)
  }

  /** The table of a stage in CATEGORIES order, categories without hints left out. */
  function InOrder(categories: seq<string>, hints: map<string, Hints>): seq<(string, Hints)> {
    if categories == [] then []
    else
      (if categories[0] in hints then [(categories[0], hints[categories[0]])] else [])
      + InOrder(categories[1..], hints)
  }

  function Or(a: Option<string>, b: Option<string>): Option<string> {
    if a.Some? then a else b
  }

  function ByTermix(t: Tables, s: Signals): Option<string> {
    if s.termix.Some? && s.termix.value != "" && s.termix.value in t.termix
    then Some(t.termix[s.termix.value]) else None
  }

  function ByTags(t: Tables, s: Signals): Option<string> {
    FirstHit(InOrder(t.categories, t.tagHints), Lowered(s.tags))
  }

  function ByDescription(t: Tables, s: Signals): Option<string> {
    if s.description == "" then None
    else FirstHit(InOrder(t.categories, t.descriptionHints), [Lower(s.description)])
  }

  /** `compute_category` */
  function ComputeCategory(t: Tables, s: Signals): string {
    var protocols := Lowered(s.protocols);
    match Or(ByTermix(t, s), Or(ByTags(t, s), Or(ByDescription(t, s),
          Or(FirstHit(t.skillHints, protocols), FirstHit(t.protocolHints, protocols)))))
    case Some(category) => category
    case None => if "oasf" in protocols then "rebalancing" else "other"
  }

  /** A scan returns the category of the first table row that hits, and None exactly when no row
      does. */
  lemma {:induction false} FirstHitIs(order: seq<(string, Hints)>, texts: seq<string>) returns (at: int)
    ensures FirstHit(order, texts).None? <==> forall j :: 0 <= j < |order| ==> !Hit(texts, order[j].1)
    ensures FirstHit(order, texts).Some? ==>
              && 0 <= at < |order| && Hit(texts, order[at].1) && FirstHit(order, texts) == Some(order[at].0)
              && forall j :: 0 <= j < at ==> !Hit(texts, order[j].1)
  {
    at := 0;
    if order != [] && !Hit(texts, order[0].1) {
      at := FirstHitIs(order[1..], texts);
      at := at + 1;
      assert forall j :: 1 <= j < |order| ==> order[j] == order[1..][j - 1];
    }
  }

  lemma {:induction false} InOrderListed(categories: seq<string>, hints: map<string, Hints>, row: (string, Hints))
    requires row in InOrder(categories, hints)
    ensures row.0 in categories && row.0 in hints && hints[row.0] == row.1
  {
    if row in InOrder(categories[1..], hints) {
      InOrderListed(categories[1..], hints, row);
    }
  }

  /** Every category the tables can name, and the two defaults. */
  ghost predicate Listed(t: Tables, category: string) {
    || category in t.categories
    || (exists k :: k in t.termix && t.termix[k] == category)
    || (exists k :: 0 <= k < |t.skillHints| && t.skillHints[k].0 == category)
    || (exists k :: 0 <= k < |t.protocolHints| && t.protocolHints[k].0 == category)
    || category == "rebalancing" || category == "other"
  }

  lemma ContainsIff(text: string, hint: string)
    ensures Contains(text, hint) <==> exists before, after :: text == before + hint + after
  {
    if i :| 0 <= i <= |text| && OccursAt(text, hint, i) {
      assert text == text[..i] + hint + text[i + |hint|..];
    }
    if before, after :| text == before + hint + after {
      assert OccursAt(text, hint, |before|);
    }
  }

  /** Some string of the list contains some hint, in lower case. */
  ghost predicate Mentions(items: seq<Json>, hints: Hints) {
    exists i, h :: 0 <= i < |items| && items[i].Str? && 0 <= h < |hints| && Contains(Lower(items[i].s), hints[h])
  }

  lemma {:induction false} MentionsIff(items: seq<Json>, hints: Hints)
    ensures Hit(Lowered(items), hints) <==> Mentions(items, hints)
  {
    if items != [] {
      MentionsIff(items[1..], hints);
      var head, rest := if items[0].Str? then [Lower(items[0].s)] else [], Lowered(items[1..]);
      assert Lowered(items) == head + rest;
      HitConcat(head, rest, hints);
      assert forall i :: 1 <= i < |items| ==> items[i] == items[1..][i - 1];
      if i, h :| 0 <= i < |items| && items[i].Str? && 0 <= h < |hints| && Contains(Lower(items[i].s), hints[h]) {
        if i > 0 {
          assert items[1..][i - 1] == items[i];
        } else {
          assert AnyHint(head[0], hints);
        }
      }
    }
  }

  lemma HitConcat(a: seq<string>, b: seq<string>, hints: Hints)
    ensures Hit(a + b, hints) <==> Hit(a, hints) || Hit(b, hints)
  {
    if k :| 0 <= k < |a| && AnyHint(a[k], hints) {
      assert (a + b)[k] == a[k];
    }
    if k :| 0 <= k < |b| && AnyHint(b[k], hints) {
      assert (a + b)[|a| + k] == b[k];
    }
  }

  predicate HitBy(hints: map<string, Hints>, category: string, texts: seq<string>) {
    category in hints && Hit(texts, hints[category])
  }

  /** The category is the first of the list whose hints hit. */
  ghost predicate FirstOf(categories: seq<string>, hints: map<string, Hints>, texts: seq<string>, category: string) {
    exists k :: 0 <= k < |categories| && categories[k] == category && HitsFirst(categories, hints, texts, k)
  }

  predicate HitsFirst(categories: seq<string>, hints: map<string, Hints>, texts: seq<string>, k: nat)
    requires k < |categories|
  {
    HitBy(hints, categories[k], texts) && forall j :: 0 <= j < k ==> !HitBy(hints, categories[j], texts)
  }

  lemma {:induction false} InOrderFirst(
    categories: seq<string>, hints: map<string, Hints>, texts: seq<string>, category: string)
    ensures FirstHit(InOrder(categories, hints), texts) == Some(category) <==>
            FirstOf(categories, hints, texts, category)
  {
    if categories != [] {
      var rest := categories[1..];
      InOrderFirst(rest, hints, texts, category);
      InOrderHead(categories, hints, texts);
      assert forall j :: 1 <= j < |categories| ==> categories[j] == rest[j - 1];
      if HitBy(hints, categories[0], texts) {
        assert HitsFirst(categories, hints, texts, 0);
        assert forall k :: 0 < k < |categories| ==> !HitsFirst(categories, hints, texts, k);
      } else {
        if k :| 0 <= k < |rest| && rest[k] == category && HitsFirst(rest, hints, texts, k) {
          assert HitsFirst(categories, hints, texts, k + 1);
        }
        if k :| 0 <= k < |categories| && categories[k] == category && HitsFirst(categories, hints, texts, k) {
          assert HitsFirst(rest, hints, texts, k - 1);
        }
      }
    }
  }

  lemma {:induction false} InOrderHead(categories: seq<string>, hints: map<string, Hints>, texts: seq<string>)
    requires categories != []
    ensures FirstHit(InOrder(categories, hints), texts)
         == if HitBy(hints, categories[0], texts) then Some(categories[0])
            else FirstHit(InOrder(categories[1..], hints), texts)
  {
    var rest := InOrder(categories[1..], hints);
    if categories[0] in hints {
      assert InOrder(categories, hints)[1..] == rest;
    } else {
      assert InOrder(categories, hints) == rest;
    }
  }

  /** What each stage decides on: the source category by its table; the first category, in their fixed
      order, whose tag hints occur in the lowered tags; the same of the lowered description. */
  lemma StagesAre(t: Tables, s: Signals, category: string)
    ensures ByTermix(t, s) == Some(category) <==>
            s.termix.Some? && s.termix.value != "" && s.termix.value in t.termix && t.termix[s.termix.value] == category
    ensures ByTags(t, s) == Some(category) <==> FirstOf(t.categories, t.tagHints, Lowered(s.tags), category)
    ensures ByDescription(t, s) == Some(category) <==>
            s.description != "" && FirstOf(t.categories, t.descriptionHints, [Lower(s.description)], category)
  {
    InOrderFirst(t.categories, t.tagHints, Lowered(s.tags), category);
    InOrderFirst(t.categories, t.descriptionHints, [Lower(s.description)], category);
  }

  /** No stage before the protocols decides. */
  predicate Undecided(t: Tables, s: Signals) {
    ByTermix(t, s).None? && ByTags(t, s).None? && ByDescription(t, s).None?
  }

  /** Last come the protocols: the first skill row mentioned, else the first protocol row mentioned, and
      without any, `rebalancing` for an agent with the bare protocol `oasf` and `other` for the rest. */
  lemma ProtocolsDecide(t: Tables, s: Signals)
    requires Undecided(t, s)
    ensures var category, protocols := ComputeCategory(t, s), Lowered(s.protocols);
      && (FirstHit(t.skillHints, protocols).Some? ==> FirstHit(t.skillHints, protocols) == Some(category))
      && (FirstHit(t.skillHints, protocols).None? && FirstHit(t.protocolHints, protocols).Some? ==>
            FirstHit(t.protocolHints, protocols) == Some(category))
      && (FirstHit(t.skillHints, protocols).None? && FirstHit(t.protocolHints, protocols).None? ==>
            category == if exists i :: 0 <= i < |s.protocols| && IsOasf(s.protocols[i]) then "rebalancing" else "other")
  {
    LoweredHas(s.protocols, "oasf");
  }

  predicate IsOasf(j: Json) {
    j.Str? && Lower(j.s) == "oasf"
  }

  lemma {:induction false} LoweredHas(items: seq<Json>, text: string)
    ensures text in Lowered(items) <==> exists i :: 0 <= i < |items| && items[i].Str? && Lower(items[i].s) == text
  {
    if items != [] {
      LoweredHas(items[1..], text);
      assert forall i :: 1 <= i < |items| ==> items[i] == items[1..][i - 1];
      if i :| 0 <= i < |items[1..]| && items[1..][i].Str? && Lower(items[1..][i].s) == text {
        assert items[i + 1] == items[1..][i];
      }
    }
  }

  /** The classifier answers every input with a listed category, and an earlier stage that matches
      decides alone: a mapped source category, then tags, then the description, then protocols. */
  lemma StagesInOrder(t: Tables, s: Signals)
    ensures Listed(t, ComputeCategory(t, s))
    ensures ByTermix(t, s).Some? ==> Some(ComputeCategory(t, s)) == ByTermix(t, s)
    ensures ByTermix(t, s).None? && ByTags(t, s).Some? ==> Some(ComputeCategory(t, s)) == ByTags(t, s)
    ensures ByTermix(t, s).None? && ByTags(t, s).None? && ByDescription(t, s).Some? ==>
              Some(ComputeCategory(t, s)) == ByDescription(t, s)
  {
    var at := FirstHitIs(InOrder(t.categories, t.tagHints), Lowered(s.tags));
    if ByTags(t, s).Some? {
      InOrderListed(t.categories, t.tagHints, InOrder(t.categories, t.tagHints)[at]);
    }
    at := FirstHitIs(InOrder(t.categories, t.descriptionHints), [Lower(s.description)]);
    if ByDescription(t, s).Some? {
      InOrderListed(t.categories, t.descriptionHints, InOrder(t.categories, t.descriptionHints)[at]);
    }
    at := FirstHitIs(t.skillHints, Lowered(s.protocols));
    at := FirstHitIs(t.protocolHints, Lowered(s.protocols));
  }
}
