/**
 Mirroring the reviews of one agent (feedback_sync.py): pages of 100, at most 20 of them, each
 request tried up to three times, every review upserted under its feedback id.
 */
module FeedbackWalk {
  import opened Wrappers

  const PAGE_LIMIT := 100
  const MAX_PAGES := 20
  const MAX_RETRIES := 2

  /** A list element: an object with a feedback id and its mapped columns, or anything else. */
  datatype Item = Review(id: string, body: string) | Junk

  /** The three answer shapes: items with the total, items without one, and a bare list, whose total
      is taken to be its own length. */
  datatype Shape = Documented | NoTotal | Bare

  /** An upstream that does not change during the walk; `fails(page, attempt)` marks the transient
      failures. */
  datatype Upstream = Upstream(list: seq<Item>, shape: Shape, fails: (nat, nat) -> bool)

  datatype Row = Row(agent: string, body: string, updatedAt: int)

  type Rows = map<string, Row>

  function Least(a: nat, b: nat): nat {
    if a < b then a else b
  }

  function PageOf(list: seq<Item>, page: nat): seq<Item> {
    list[Least(page * PAGE_LIMIT, |list|)..Least((page + 1) * PAGE_LIMIT, |list|)]
  }

  function TotalOf(u: Upstream, page: nat): nat {
    match u.shape
    case Documented => |u.list|
    case NoTotal => 0
    case Bare => |PageOf(u.list, page)|
  }

  predicate Unreachable(u: Upstream, page: nat) {
    u.fails(page, 0) && u.fails(page, 1) && u.fails(page, 2)
  }

  function Upserted(rows: Rows, agent: string, items: seq<Item>, now: int): Rows {
    if items == [] then rows
    else
      var before, item := Upserted(rows, agent, items[..|items| - 1], now), items[|items| - 1];
      if item.Review? then before[item.id := Row(agent, item.body, now)] else before
  }

  // ---- What a walk reaches -------------------------------------------------------------

  /** The page that ends a walk: an empty one, or one that reaches the total. */
  predicate LastPage(u: Upstream, page: nat) {
    PageOf(u.list, page) == [] || (TotalOf(u, page) > 0 && (page + 1) * PAGE_LIMIT >= TotalOf(u, page))
  }

  /** The pages a walk asks for: up to and including the one that ends it. */
  function PagesAsked(u: Upstream, maxPages: nat): (n: nat)
    ensures n <= maxPages
    ensures forall p: nat :: p < n - 1 ==> !LastPage(u, p)
    ensures 0 < n < maxPages ==> LastPage(u, n - 1)
    ensures maxPages > 0 ==> n > 0
  {
    var full := (|u.list| + PAGE_LIMIT - 1) / PAGE_LIMIT;
    var needed := match u.shape
      case Documented => if full == 0 then 1 else full
      case NoTotal => full + 1
      case Bare => 1;
    Least(needed, maxPages)
  }

  /** The list up to the end of a page. */
  function Through(u: Upstream, pages: nat): seq<Item> {
    u.list[..Least(pages * PAGE_LIMIT, |u.list|)]
  }

  /** The reviews a complete walk covers: the first 100 a page, and of a bare list the first page. */
  function Reach(u: Upstream, maxPages: nat): nat {
    Least(|u.list|, PAGE_LIMIT * (if u.shape == Bare then Least(1, maxPages) else maxPages))
  }

  lemma ThroughStep(u: Upstream, page: nat)
    ensures Through(u, page) + PageOf(u.list, page) == Through(u, page + 1)
  {
  }

  /** The walk ends with a last page, or at its cap. */
  lemma AskedStep(u: Upstream, maxPages: nat, page: nat)
    requires page < PagesAsked(u, maxPages)
    ensures page + 1 == PagesAsked(u, maxPages) <==> LastPage(u, page) || page + 1 == maxPages
  {
  }

  /** The pages asked for are the reviews reached. */
  lemma AskedIsReach(u: Upstream, maxPages: nat)
    ensures Through(u, PagesAsked(u, maxPages)) == u.list[..Reach(u, maxPages)]
    ensures |Through(u, PagesAsked(u, maxPages))| == Reach(u, maxPages)
  {
  }

  class Feedbacks {
    var rows: Rows

    constructor (rows: Rows)
      ensures this.rows == rows
    {
      this.rows := rows;
    }

    /** `_fetch_page` */
    static method FetchPage(u: Upstream, page: nat) returns (answer: Result<(seq<Item>, nat), ()>, requests: nat)
      ensures answer == if Unreachable(u, page) then Err(()) else Ok((PageOf(u.list, page), TotalOf(u, page)))
      ensures requests <= MAX_RETRIES + 1
    {
      requests := 0;
      for attempt := 0 to MAX_RETRIES + 1
        invariant requests == attempt
        invariant forall a: nat {:trigger u.fails(page, a)} :: a < attempt ==> u.fails(page, a)
      {
        requests := requests + 1;
        if !u.fails(page, attempt) {
          return Ok((PageOf(u.list, page), TotalOf(u, page))), requests;
        }
      }
      assert u.fails(page, 0) && u.fails(page, 1) && u.fails(page, 2);
      return Err(()), requests;
    }

    /** The upserts of one page. */
    method UpsertItems(agent: string, items: seq<Item>, now: int)
      modifies this
      ensures rows == Upserted(old(rows), agent, items, now)
    {
      for n := 0 to |items|
        invariant rows == Upserted(old(rows), agent, items[..n], now)
      {
        assert items[..n + 1][..n] == items[..n];
        if items[n].Review? {
          rows := rows[items[n].id := Row(agent, items[n].body, now)];
        }
      }
      assert items[..|items|] == items;
    }

    /** `sync_agent_feedbacks`: all that the walk can reach, or, when a page stays unreachable, the
        pages before it. */
    method SyncAgentFeedbacks(u: Upstream, agent: string, maxPages: nat, now: int)
      returns (upserted: Result<nat, ()>, requests: nat, pages: nat)
      modifies this
      ensures rows == Upserted(old(rows), agent, Through(u, pages), now)
      ensures forall p: nat :: p < pages ==> !Unreachable(u, p)
      ensures upserted.Ok? ==> pages == PagesAsked(u, maxPages) && upserted.value == Reach(u, maxPages)
      ensures upserted.Err? ==> pages < PagesAsked(u, maxPages) && Unreachable(u, pages)
      ensures requests <= (MAX_RETRIES + 1) * maxPages
    {
      var count, offset: nat := 0, 0;
      requests, pages := 0, 0;
      while pages < maxPages
        invariant pages <= PagesAsked(u, maxPages) && offset == pages * PAGE_LIMIT
        invariant pages < maxPages ==> pages < PagesAsked(u, maxPages)
        invariant forall p: nat :: p < pages ==> !Unreachable(u, p)
        invariant count == |Through(u, pages)|
        invariant rows == Upserted(old(rows), agent, Through(u, pages), now)
        invariant requests <= (MAX_RETRIES + 1) * pages
        decreases maxPages - pages
      {
        var answer, tried := FetchPage(u, pages);
        requests := requests + tried;
        if answer.Err? {
          return Err(()), requests, pages;
        }
        var (items, total) := answer.value;
        PageStep(old(rows), u, agent, pages, now);
        AskedStep(u, maxPages, pages);
        if items == [] {
          pages := pages + 1;
          break;
        }
        UpsertItems(agent, items, now);
        count := count + |items|;
        offset := offset + PAGE_LIMIT;
        pages := pages + 1;
        if total > 0 && offset >= total {
          break;
        }
      }
      AskedIsReach(u, maxPages);
      return Ok(count), requests, pages;
    }
  }

  lemma {:induction false} PageStep(rows: Rows, u: Upstream, agent: string, page: nat, now: int)
    ensures Upserted(rows, agent, Through(u, page + 1), now)
         == Upserted(Upserted(rows, agent, Through(u, page), now), agent, PageOf(u.list, page), now)
    ensures |Through(u, page + 1)| == |Through(u, page)| + |PageOf(u.list, page)|
  {
    ThroughStep(u, page);
    UpsertedConcat(rows, agent, Through(u, page), PageOf(u.list, page), now);
  }

  lemma {:induction false} UpsertedConcat(rows: Rows, agent: string, a: seq<Item>, b: seq<Item>, now: int)
    ensures Upserted(rows, agent, a + b, now) == Upserted(Upserted(rows, agent, a, now), agent, b, now)
  {
    if b == [] {
      assert a + b == a;
    } else {
      assert (a + b)[..|a + b| - 1] == a + b[..|b| - 1];
      UpsertedConcat(rows, agent, a, b[..|b| - 1], now);
    }
  }

  // ---- What the rows are afterwards ----------------------------------------------------

  function Ids(items: seq<Item>): set<string> {
    set i | 0 <= i < |items| && items[i].Review? :: items[i].id
  }

  predicate DistinctReviews(items: seq<Item>) {
    forall i, j :: 0 <= i < j < |items| && items[i].Review? && items[j].Review? ==> items[i].id != items[j].id
  }

  function JunkCount(items: seq<Item>): nat {
    if items == [] then 0
    else JunkCount(items[..|items| - 1]) + if items[|items| - 1].Junk? then 1 else 0
  }

  lemma IdsAppend(items: seq<Item>)
    requires items != []
    ensures var init, last := items[..|items| - 1], items[|items| - 1];
      Ids(items) == Ids(init) + if last.Review? then {last.id} else {}
  {
    var init := items[..|items| - 1];
    assert forall i :: 0 <= i < |init| ==> items[i] == init[i];
  }

  /** A walk over distinct reviews stores each of them as listed, stamped with the time of the walk,
      and leaves every other row alone. */
  lemma {:induction false} UpsertedIs(rows: Rows, agent: string, items: seq<Item>, now: int)
    requires DistinctReviews(items)
    ensures Upserted(rows, agent, items, now).Keys == rows.Keys + Ids(items)
    ensures forall i :: 0 <= i < |items| && items[i].Review? ==>
              && items[i].id in Upserted(rows, agent, items, now)
              && Upserted(rows, agent, items, now)[items[i].id] == Row(agent, items[i].body, now)
    ensures forall id :: id in rows && id !in Ids(items) ==> Upserted(rows, agent, items, now)[id] == rows[id]
  {
    if items != [] {
      var init := items[..|items| - 1];
      UpsertedIs(rows, agent, init, now);
      IdsAppend(items);
      assert forall i :: 0 <= i < |init| ==> items[i] == init[i];
    }
  }

  /** Walking again leaves the same rows but for their stamps. */
  lemma {:induction false} RerunKeepsRows(rows: Rows, agent: string, items: seq<Item>, now: int, later: int)
    requires DistinctReviews(items)
    ensures var once := Upserted(rows, agent, items, now);
      var twice := Upserted(once, agent, items, later);
      twice.Keys == once.Keys && forall id :: id in once ==> twice[id].(updatedAt := once[id].updatedAt) == once[id]
  {
    var once := Upserted(rows, agent, items, now);
    UpsertedIs(rows, agent, items, now);
    UpsertedIs(once, agent, items, later);
  }

  /** The number returned counts list elements: it is the number of reviews stored exactly when no
      element is junk. */
  lemma {:induction false} CountIsStoredIff(items: seq<Item>)
    requires DistinctReviews(items)
    ensures |Ids(items)| + JunkCount(items) == |items|
    ensures |Ids(items)| == |items| <==> forall i :: 0 <= i < |items| ==> items[i].Review?
  {
    if items != [] {
      var init := items[..|items| - 1];
      CountIsStoredIff(init);
      IdsAppend(items);
      assert forall i :: 0 <= i < |init| ==> items[i] == init[i];
      assert items[|items| - 1].Review? ==> items[|items| - 1].id !in Ids(init);
      assert forall i :: 0 <= i < |items| ==> i == |items| - 1 || items[i] == init[i];
    }
  }

  /** With the default cap: the first 2,000 reviews of an upstream that pages its items, and only the
      first 100 of one that answers with bare lists. */
  lemma DefaultReach(u: Upstream)
    ensures Reach(u, MAX_PAGES) == Least(|u.list|, if u.shape == Bare then 100 else 2000)
  {
  }
}
