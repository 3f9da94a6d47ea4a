/**
 The agent listing walk (client_8004scan.py): page after page, waiting out rate limits, until the
 upstream has no more, the safety stop, or too many 429s in a row.
 */
module ListingWalk {
  const MAX_PAGE_RATE_LIMIT_RETRIES := 5
  const LAST_PAGE := 10_000

  /** The `chain_id` member of a listed object: absent, a whole number, or something `int` rejects. */
  datatype ChainField = Absent | Number(n: int) | Junk

  /** A listed element; `valid` says whether its known fields pass the response model. */
  datatype Payload = NotAnObject | Object(chain: ChainField, body: string, valid: bool)

  /** An answered page: its items, or a shape that ends the walk, or an exception other than 429. */
  datatype Page = Items(items: seq<Payload>) | NoItems | Raises

  datatype Ending = Complete | GaveUp | Raised

  predicate Wanted(p: Payload, chainId: int) {
    p.Object? && (p.chain.Absent? || p.chain == Number(chainId))
  }

  /** Wanted are the objects without a chain or with this one; those whose chain is no number, and
      elements that are no objects, are passed over. */
  lemma WantedAre(body: string, valid: bool, n: int, chainId: int)
    ensures Wanted(Object(Absent, body, valid), chainId)
    ensures Wanted(Object(Number(n), body, valid), chainId) <==> n == chainId
    ensures !Wanted(Object(Junk, body, valid), chainId) && !Wanted(NotAnObject, chainId)
  {
  }

  /** Validating the element raises. */
  predicate Breaks(p: Payload, chainId: int) {
    Wanted(p, chainId) && !p.valid
  }

  /** The agents one page yields, in order: the wanted elements before the first that raises. */
  function Kept(items: seq<Payload>, chainId: int): seq<Payload> {
    if items == [] || Breaks(items[0], chainId) then []
    else (if Wanted(items[0], chainId) then [items[0]] else []) + Kept(items[1..], chainId)
  }

  predicate AnyBreaks(items: seq<Payload>, chainId: int) {
    exists i :: 0 <= i < |items| && Breaks(items[i], chainId)
  }

  // ---- The walk without rate limits ----------------------------------------------------

  /** What reading a page comes to: its agents, and whether and how the walk ends with it. */
  datatype View = More(kept: seq<Payload>) | Final(kept: seq<Payload>, raised: bool)

  function ViewOf(page: Page, chainId: int): View {
    match page
    case NoItems => Final([], false)
    case Raises => Final([], true)
    case Items(items) =>
      if items == [] then Final([], false)
      else if AnyBreaks(items, chainId) then Final(Kept(items, chainId), true)
      else More(Kept(items, chainId))
  }

  function Views(upstream: nat -> Page, chainId: int): nat -> View {
    (page: nat) => ViewOf(upstream(page), chainId)
  }

  /** The agents of the pages before `page`. */
  function UpTo(views: nat -> View, page: nat): seq<Payload>
    requires page >= 1
  {
    if page == 1 then [] else UpTo(views, page - 1) + views(page - 1).kept
  }

  /** The page the walk ends with, or the one past the safety stop. */
  function LastOf(views: nat -> View, page: nat): (last: nat)
    ensures last >= page
    ensures last <= LAST_PAGE ==> views(last).Final?
    decreases LAST_PAGE + 1 - page
  {
    if page > LAST_PAGE || views(page).Final? then page else LastOf(views, page + 1)
  }

  function YieldedBy(views: nat -> View, last: nat): seq<Payload>
    requires last >= 1
  {
    UpTo(views, last) + if last <= LAST_PAGE then views(last).kept else []
  }

  function EndingAt(views: nat -> View, last: nat): Ending
    requires last <= LAST_PAGE ==> views(last).Final?
  {
    if last <= LAST_PAGE && views(last).raised then Raised else Complete
  }

  /** What the walk would yield, and how it would end, if no request were limited. */
  function Unlimited(upstream: nat -> Page, chainId: int): (seq<Payload>, Ending) {
    var views := Views(upstream, chainId);
    (YieldedBy(views, LastOf(views, 1)), EndingAt(views, LastOf(views, 1)))
  }

  // ---- The walk ------------------------------------------------------------------------

  /** Six rate-limited requests in a row, the last of them request `k`. */
  predicate SixLimited(limited: nat -> bool, k: nat) {
    k >= MAX_PAGE_RATE_LIMIT_RETRIES &&
    forall j: nat {:trigger limited(j)} :: k - MAX_PAGE_RATE_LIMIT_RETRIES <= j <= k ==> limited(j)
  }

  predicate NoSixBefore(limited: nat -> bool, requests: nat) {
    forall k: nat :: k < requests ==> !SixLimited(limited, k)
  }

  /** The last `strikes` of the requests made were limited, the one before was not, and there were
      never six in a row. */
  predicate Counted(limited: nat -> bool, requests: nat, strikes: nat) {
    && strikes <= requests && strikes <= MAX_PAGE_RATE_LIMIT_RETRIES
    && (forall j: nat {:trigger limited(j)} :: requests - strikes <= j < requests ==> limited(j))
    && (requests > strikes ==> !limited(requests - strikes - 1))
    && NoSixBefore(limited, requests)
  }

  lemma StrikeStep(limited: nat -> bool, requests: nat, strikes: nat)
    requires Counted(limited, requests, strikes)
    ensures !limited(requests) ==> Counted(limited, requests + 1, 0)
    ensures limited(requests) && strikes < MAX_PAGE_RATE_LIMIT_RETRIES ==> Counted(limited, requests + 1, strikes + 1)
    ensures limited(requests) && strikes == MAX_PAGE_RATE_LIMIT_RETRIES ==> SixLimited(limited, requests)
  {
  }

  /** How far a walk has come: what it yielded, the page it asks for, the strikes against it and the
      requests made. */
  datatype Walk = Walk(yielded: seq<Payload>, page: nat, strikes: nat, requests: nat)

  /** How a walk ends: early only at the first six limited requests in a row, with the agents of the
      pages before `w.page`, and otherwise as if no request had been limited. */
  predicate Walked(views: nat -> View, limited: nat -> bool, w: Walk, ending: Ending) {
    && w.requests <= (MAX_PAGE_RATE_LIMIT_RETRIES + 1) * LAST_PAGE
    && (if ending == GaveUp then
          && AtPage(views, w.page, w.yielded)
          && w.requests > 0 && SixLimited(limited, w.requests - 1) && NoSixBefore(limited, w.requests - 1)
        else
          && w.page == LastOf(views, 1) && NoSixBefore(limited, w.requests)
          && w.yielded == YieldedBy(views, w.page) && ending == EndingAt(views, w.page))
  }

  /** `iter_agents`, with what it yields collected. Request k is rate limited when `limited(k)`. */
  method IterAgents(upstream: nat -> Page, limited: nat -> bool, chainId: int)
    returns (yielded: seq<Payload>, ending: Ending, ghost w: Walk)
    ensures Walked(Views(upstream, chainId), limited, w, ending) && yielded == w.yielded
  {
    ghost var views := Views(upstream, chainId);
    yielded := [];
    var requests, strikes, page: nat := 0, 0, 1;
    w := AtStart(views, limited);
    while true
      invariant Underway(views, limited, w) && w == Walk(yielded, page, strikes, requests)
      decreases LAST_PAGE - page, MAX_PAGE_RATE_LIMIT_RETRIES - strikes
    {
      if limited(requests) {
        w := Strike(views, limited, w);
        strikes := strikes + 1;
        requests := requests + 1;
        if strikes > MAX_PAGE_RATE_LIMIT_RETRIES {
          return yielded, GaveUp, w;
        }
        continue;
      }
      var view := ReadPage(upstream(page), chainId);
      w := PageRead(views, limited, w, view);
      strikes := 0;
      requests := requests + 1;
      yielded := yielded + view.kept;
      if view.Final? {
        return yielded, if view.raised then Raised else Complete, w;
      }
      page := page + 1;
      if page > LAST_PAGE {
        return yielded, Complete, w;
      }
    }
  }

  /** What the walk does with one answer. */
  method ReadPage(page: Page, chainId: int) returns (view: View)
    ensures view == ViewOf(page, chainId)
  {
    match page
    case NoItems => return Final([], false);
    case Raises => return Final([], true);
    case Items(items) =>
      if items == [] {
        return Final([], false);
      }
      var kept, broke := PageAgents(items, chainId);
      return if broke then Final(kept, true) else More(kept);
  }

  /** The agents one page yields, and whether an element of it raises. */
  method PageAgents(items: seq<Payload>, chainId: int) returns (kept: seq<Payload>, broke: bool)
    ensures kept == Kept(items, chainId) && broke == AnyBreaks(items, chainId)
  {
    kept := [];
    for n := 0 to |items|
      invariant kept + Kept(items[n..], chainId) == Kept(items, chainId)
      invariant forall i :: 0 <= i < n ==> !Breaks(items[i], chainId)
    {
      assert items[n..][1..] == items[n + 1..];
      if Breaks(items[n], chainId) {
        return kept, true;
      }
      if Wanted(items[n], chainId) {
        kept := kept + [items[n]];
      }
    }
    return kept, false;
  }

  /** The state at the head of the loop. */
  predicate Underway(views: nat -> View, limited: nat -> bool, w: Walk) {
    && w.page <= LAST_PAGE && AtPage(views, w.page, w.yielded)
    && Counted(limited, w.requests, w.strikes)
    && w.requests <= (MAX_PAGE_RATE_LIMIT_RETRIES + 1) * (w.page - 1) + w.strikes
  }

  lemma AtStart(views: nat -> View, limited: nat -> bool) returns (w: Walk)
    ensures Underway(views, limited, w) && w == Walk([], 1, 0, 0)
  {
    w := Walk([], 1, 0, 0);
  }

  lemma Strike(views: nat -> View, limited: nat -> bool, w: Walk) returns (next: Walk)
    requires Underway(views, limited, w) && limited(w.requests)
    ensures next == w.(strikes := w.strikes + 1, requests := w.requests + 1)
    ensures if w.strikes < MAX_PAGE_RATE_LIMIT_RETRIES then Underway(views, limited, next)
            else Walked(views, limited, next, GaveUp)
  {
    next := w.(strikes := w.strikes + 1, requests := w.requests + 1);
    StrikeStep(limited, w.requests, w.strikes);
  }

  lemma PageRead(views: nat -> View, limited: nat -> bool, w: Walk, view: View) returns (next: Walk)
    requires Underway(views, limited, w) && !limited(w.requests) && view == views(w.page)
    ensures next == Walk(w.yielded + view.kept, if view.Final? then w.page else w.page + 1, 0, w.requests + 1)
    ensures view.Final? ==> Walked(views, limited, next, if view.raised then Raised else Complete)
    ensures view.More? && w.page == LAST_PAGE ==> Walked(views, limited, next, Complete)
    ensures view.More? && w.page < LAST_PAGE ==> Underway(views, limited, next)
  {
    next := Walk(w.yielded + view.kept, if view.Final? then w.page else w.page + 1, 0, w.requests + 1);
    if view.Final? {
      PageEnds(views, limited, w, next);
    } else {
      PageGoesOn(views, limited, w, next);
    }
  }

  lemma PageEnds(views: nat -> View, limited: nat -> bool, w: Walk, next: Walk)
    requires Underway(views, limited, w) && !limited(w.requests) && views(w.page).Final?
    requires next == Walk(w.yielded + views(w.page).kept, w.page, 0, w.requests + 1)
    ensures Walked(views, limited, next, if views(w.page).raised then Raised else Complete)
  {
    StrikeStep(limited, w.requests, w.strikes);
    PageStep(views, w.page, w.yielded);
  }

  lemma PageGoesOn(views: nat -> View, limited: nat -> bool, w: Walk, next: Walk)
    requires Underway(views, limited, w) && !limited(w.requests) && views(w.page).More?
    requires next == Walk(w.yielded + views(w.page).kept, w.page + 1, 0, w.requests + 1)
    ensures if w.page == LAST_PAGE then Walked(views, limited, next, Complete) else Underway(views, limited, next)
  {
    StrikeStep(limited, w.requests, w.strikes);
    PageStep(views, w.page, w.yielded);
  }

  lemma PageStep(views: nat -> View, page: nat, yielded: seq<Payload>)
    requires AtPage(views, page, yielded) && page <= LAST_PAGE
    ensures var more := yielded + views(page).kept;
      if views(page).Final? then
        && page == LastOf(views, 1) && more == YieldedBy(views, page)
        && EndingAt(views, page) == if views(page).raised then Raised else Complete
      else
        && AtPage(views, page + 1, more)
        && (page == LAST_PAGE ==>
              && page + 1 == LastOf(views, 1) && EndingAt(views, page + 1) == Complete
              && more == YieldedBy(views, page + 1))
  {
  }

  /** The walk has read every page before this one, and the unlimited walk reaches it too. */
  predicate AtPage(views: nat -> View, page: nat, yielded: seq<Payload>) {
    && 1 <= page <= LastOf(views, 1) && LastOf(views, page) == LastOf(views, 1)
    && yielded == UpTo(views, page)
  }

  /** Every prefix of pages is a prefix of what the unlimited walk yields. */
  lemma {:induction false} UpToGrows(views: nat -> View, a: nat, b: nat)
    requires 1 <= a <= b
    ensures UpTo(views, a) <= UpTo(views, b)
  {
    if a < b {
      UpToGrows(views, a, b - 1);
    }
  }

  /** A schedule without six limited requests in a row gives the same agents, in the same order and
      with the same ending, as none at all; any other schedule gives a page-wise prefix of them; and
      no walk makes more than 60,000 requests. */
  lemma RateLimitsAreTransparent(upstream: nat -> Page, limited: nat -> bool, chainId: int, w: Walk, ending: Ending)
    requires Walked(Views(upstream, chainId), limited, w, ending)
    ensures (forall k: nat :: !SixLimited(limited, k)) ==> (w.yielded, ending) == Unlimited(upstream, chainId)
    ensures ending != GaveUp ==> (w.yielded, ending) == Unlimited(upstream, chainId)
    ensures ending == GaveUp ==> w.page >= 1 && w.yielded == UpTo(Views(upstream, chainId), w.page)
    ensures w.yielded <= Unlimited(upstream, chainId).0
    ensures w.requests <= 60_000
  {
    var views := Views(upstream, chainId);
    if ending == GaveUp {
      UpToGrows(views, w.page, LastOf(views, 1));
    }
  }

  /** What a page contributes: the wanted elements in order, all of them unless validating one raises,
      and then those before it. */
  lemma {:induction false} KeptIs(items: seq<Payload>, chainId: int, p: Payload) returns (stop: nat)
    ensures stop <= |items| && (stop < |items| <==> AnyBreaks(items, chainId))
    ensures stop < |items| ==> Breaks(items[stop], chainId)
    ensures forall i :: 0 <= i < stop ==> !Breaks(items[i], chainId)
    ensures p in Kept(items, chainId) <==> p in items[..stop] && Wanted(p, chainId)
  {
    stop := 0;
    if items != [] && !Breaks(items[0], chainId) {
      stop := KeptIs(items[1..], chainId, p);
      stop := stop + 1;
      assert items[..stop] == [items[0]] + items[1..][..stop - 1];
      assert forall i :: 1 <= i < |items| ==> items[i] == items[1..][i - 1];
    }
  }
}
