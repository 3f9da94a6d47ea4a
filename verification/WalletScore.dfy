/**
 The wallet-activity score of an agent (wallet_activity.py): two wallet pillars and the track
 record, shrunk towards 50 while there are fewer than three events. Amounts are exact; scores are
 in cents of a point, so 5000 is 50.00.
 */
module WalletScore {
  import opened Rounding
  import opened Wrappers

  const PRIOR_CENTS := 5000
  const FULL_CENTS := 10_000
  const SHRINK_BELOW := 3

  datatype Wallet = Wallet(events: nat, counterparties: nat, recency: Option<int>, neutral: bool)

  // ---- One wallet ----------------------------------------------------------------------

  function Capped(count: nat, cap: nat): real
    requires cap > 0
  {
    Min(count as real / cap as real, 1.0)
  }

  /** A missing or non-positive recency contributes nothing. */
  function RecencyTerm(recency: Option<int>): real {
    match recency
    case None => 0.0
    case Some(days) => if days <= 0 then 0.0 else Min(30.0 / days as real, 1.0)
  }

  /** `_compute_pillar` */
  function Pillar(w: Wallet): real {
    (0.5 * Capped(w.events, 30) + 0.3 * Capped(w.counterparties, 10) + 0.2 * RecencyTerm(w.recency)) * 100.0
  }

  /** `_wallet_pillar_score` */
  function PillarCents(w: Wallet): int {
    RoundHalfEven(100.0 * if w.neutral then 50.0 else Pillar(w))
  }

  // ---- The score -----------------------------------------------------------------------

  /** The weighted sum, in cents. */
  function Raw(creator: int, owner: int, track: real): real {
    0.50 * creator as real + 0.30 * owner as real + 0.20 * (100.0 * track)
  }

  function Shrunk(n: nat, raw: real): real {
    if n < SHRINK_BELOW then
      (n as real / (n as real + 3.0)) * raw + (3.0 / (n as real + 3.0)) * PRIOR_CENTS as real
    else raw
  }

  /** `compute_wallet_activity_score` */
  function ScoreCents(creator: Wallet, owner: Wallet, track: real): int {
    RoundHalfEven(Shrunk(creator.events + owner.events, Raw(PillarCents(creator), PillarCents(owner), track)))
  }

  // ---- Terms ---------------------------------------------------------------------------

  lemma CappedRange(count: nat, cap: nat)
    requires cap > 0
    ensures 0.0 <= Capped(count, cap) <= 1.0
  {
    DivOrder(0.0, count as real, cap as real);
  }

  lemma CappedMonotone(a: nat, b: nat, cap: nat)
    requires cap > 0 && a <= b
    ensures Capped(a, cap) <= Capped(b, cap)
  {
    DivOrder(a as real, b as real, cap as real);
  }

  lemma RecencyRange(recency: Option<int>)
    ensures 0.0 <= RecencyTerm(recency) <= 1.0
  {
    if recency.Some? && recency.value > 0 {
      DivOrder(0.0, 30.0, recency.value as real);
    }
  }

  /** `a` is at least as recent as `b`, in the days the term tells apart: a day count of 0 is no
      more recent than none. */
  predicate Fresher(a: Option<int>, b: Option<int>) {
    || b.None? || b.value <= 0
    || (a.Some? && 1 <= a.value <= b.value)
  }

  lemma FresherIff(a: int, b: int)
    ensures Fresher(Some(a), Some(b)) <==> b <= 0 || 1 <= a <= b
    ensures Fresher(Some(a), None) && Fresher(None, None) && (Fresher(None, Some(b)) <==> b <= 0)
  {
  }

  /** The term is monotone in recency exactly along Fresher, on the days it uses. */
  lemma RecencyMonotone(a: Option<int>, b: Option<int>)
    requires Fresher(a, b)
    ensures RecencyTerm(a) >= RecencyTerm(b)
  {
    RecencyRange(a);
    if b.Some? && b.value > 0 {
      Reciprocal(a.value, b.value);
    }
  }

  lemma Reciprocal(a: int, b: int)
    requires 1 <= a <= b
    ensures 30.0 / a as real >= 30.0 / b as real
  {
    var x, y := a as real, b as real;
    assert 30.0 / x - 30.0 / y == 30.0 * (y - x) / (x * y);
    ProductSign(30.0, y - x);
    ProductSign(x, y);
    assert x * y > 0.0;
    DivOrder(0.0, 30.0 * (y - x), x * y);
  }

  // ---- Pillars -------------------------------------------------------------------------

  lemma PillarRange(w: Wallet)
    ensures 0.0 <= Pillar(w) <= 100.0
    ensures 0 <= PillarCents(w) <= FULL_CENTS
    ensures w.neutral ==> PillarCents(w) == PRIOR_CENTS
  {
    CappedRange(w.events, 30);
    CappedRange(w.counterparties, 10);
    RecencyRange(w.recency);
    RoundBetween(0, 100.0 * if w.neutral then 50.0 else Pillar(w), FULL_CENTS);
    RoundWhole(PRIOR_CENTS);
  }

  /** Nothing about `v` is worse than about `w`. */
  predicate AtLeast(v: Wallet, w: Wallet) {
    && v.neutral == w.neutral
    && v.events >= w.events && v.counterparties >= w.counterparties && Fresher(v.recency, w.recency)
  }

  lemma PillarMonotone(v: Wallet, w: Wallet)
    requires AtLeast(v, w)
    ensures PillarCents(v) >= PillarCents(w)
  {
    CappedMonotone(w.events, v.events, 30);
    CappedMonotone(w.counterparties, v.counterparties, 10);
    RecencyMonotone(v.recency, w.recency);
    RoundMonotone(100.0 * if w.neutral then 50.0 else Pillar(w), 100.0 * if v.neutral then 50.0 else Pillar(v));
  }

  // ---- What the score is ---------------------------------------------------------------

  function AtMost(count: nat, cap: nat): nat {
    if count > cap then cap else count
  }

  /** The days that count: activity up to 30 days old counts in full. */
  function DaysOf(recency: Option<int>): nat {
    if recency.Some? && recency.value > 30 then recency.value else 30
  }

  /** Three times the cents of a wallet, times the days that count. */
  function PillarShares(w: Wallet): nat {
    500 * AtMost(w.events, 30) * DaysOf(w.recency) + 900 * AtMost(w.counterparties, 10) * DaysOf(w.recency)
    + if w.recency.Some? && w.recency.value > 0 then 180_000 else 0
  }

  /** A wallet's pillar in cents: 5000 for thirty events, 3000 for ten counterparties, in proportion below,
      and 2000 for activity up to 30 days old, in inverse proportion to its age beyond; to the cent. */
  lemma PillarCentsAre(w: Wallet)
    requires !w.neutral
    ensures Nearest(PillarCents(w), PillarShares(w), 3 * DaysOf(w.recency))
  {
    var cents, shares, width := PillarParts(w);
    CentsNearest(w, cents, shares, width);
  }

  lemma PillarParts(w: Wallet) returns (cents: real, shares: int, width: int)
    ensures cents == 100.0 * Pillar(w) && shares == PillarShares(w) && width == 3 * DaysOf(w.recency)
    ensures width > 0 && cents * width as real == shares as real
  {
    cents, shares, width := 100.0 * Pillar(w), PillarShares(w), 3 * DaysOf(w.recency);
    PillarScaled(w);
  }

  lemma CentsNearest(w: Wallet, cents: real, shares: int, width: int)
    requires !w.neutral && cents == 100.0 * Pillar(w) && width > 0 && cents * width as real == shares as real
    ensures Nearest(PillarCents(w), shares, width)
  {
    RoundIsNearest(cents, shares, width);
  }

  lemma PillarScaled(w: Wallet)
    ensures (100.0 * Pillar(w)) * (3 * DaysOf(w.recency)) as real == PillarShares(w) as real
  {
    CappedIs(w.events, 30);
    CappedIs(w.counterparties, 10);
    RecencyTimesDays(w.recency);
    var recent := if w.recency.Some? && w.recency.value > 0 then 180_000 else 0;
    PillarTimesDays(AtMost(w.events, 30), AtMost(w.counterparties, 10), RecencyTerm(w.recency), DaysOf(w.recency),
                    recent);
  }

  lemma CappedIs(count: nat, cap: nat)
    requires cap > 0
    ensures Capped(count, cap) == AtMost(count, cap) as real / cap as real
  {
    if count <= cap {
      DivOrder(count as real, cap as real, cap as real);
    } else {
      DivOrder(cap as real, count as real, cap as real);
    }
  }

  lemma RecencyTimesDays(recency: Option<int>)
    ensures RecencyTerm(recency) * DaysOf(recency) as real == if recency.Some? && recency.value > 0 then 30.0 else 0.0
  {
    if recency.Some? && recency.value > 0 {
      var d := recency.value as real;
      assert (30.0 / d) * d == 30.0;
      if recency.value > 30 {
        DivOrder(30.0, d, d);
      } else {
        DivOrder(d, 30.0, d);
      }
    }
  }

  lemma PillarTimesDays(events: nat, others: nat, term: real, days: nat, recent: int)
    requires term * days as real == recent as real / 6000.0
    ensures var pillar := (0.5 * (events as real / 30.0) + 0.3 * (others as real / 10.0) + 0.2 * term) * 100.0;
      (100.0 * pillar) * (3 * days) as real == (500 * events * days + 900 * others * days + recent) as real
  {
    var e, o, d := events as real, others as real, days as real;
    assert (500 * events * days) as real == 500.0 * (e * d) && (900 * others * days) as real == 900.0 * (o * d);
  }

  /** Without a known activity, a wallet counts 50 points. */
  lemma NeutralCents(w: Wallet)
    requires w.neutral
    ensures PillarCents(w) == 5_000
  {
    RoundWhole(PRIOR_CENTS);
  }

  /** The raw score takes five parts of the creator's, three of the owner's pillar and two of the track
      score; fewer than three events are mixed with three events' worth of 50 points; to the cent. */
  lemma ScoreCentsAre(creator: Wallet, owner: Wallet, track: nat)
    ensures var n := creator.events + owner.events;
      var raw := 5 * PillarCents(creator) + 3 * PillarCents(owner) + 200 * track;
      var score := ScoreCents(creator, owner, track as real);
      if n >= 3 then Nearest(score, raw, 10) else Nearest(score, n * raw + 150_000, 10 * (n + 3))
  {
    var n := creator.events + owner.events;
    var raw := 5 * PillarCents(creator) + 3 * PillarCents(owner) + 200 * track;
    RawTenths(PillarCents(creator), PillarCents(owner), track);
    ShrunkScore(n, Raw(PillarCents(creator), PillarCents(owner), track as real), raw);
  }

  lemma RawTenths(creator: int, owner: int, track: nat)
    ensures 10.0 * Raw(creator, owner, track as real) == (5 * creator + 3 * owner + 200 * track) as real
  {
  }

  lemma ShrunkScore(n: nat, x: real, raw: int)
    requires 10.0 * x == raw as real
    ensures var score := RoundHalfEven(Shrunk(n, x));
      if n >= 3 then Nearest(score, raw, 10) else Nearest(score, n * raw + 150_000, 10 * (n + 3))
  {
    if n >= 3 {
      RoundIsNearest(x, raw, 10);
    } else {
      ShrunkIsMix(n, x);
      assert n == 0 || n == 1 || n == 2;
      if n == 0 {
        RoundIsNearest(Shrunk(0, x), 150_000, 30);
      } else if n == 1 {
        RoundIsNearest(Shrunk(1, x), raw + 150_000, 40);
      } else {
        RoundIsNearest(Shrunk(2, x), 2 * raw + 150_000, 50);
      }
    }
  }

  // ---- The score's laws ----------------------------------------------------------------

  function Weight(n: nat): real {
    n as real / (n as real + 3.0)
  }

  lemma ShrunkIsMix(n: nat, raw: real)
    requires n < SHRINK_BELOW
    ensures 0.0 <= Weight(n) <= 1.0
    ensures Shrunk(n, raw) == Weight(n) * raw + (1.0 - Weight(n)) * PRIOR_CENTS as real
  {
    assert n == 0 || n == 1 || n == 2;
  }

  lemma RawRange(creator: int, owner: int, track: real)
    requires 0 <= creator <= FULL_CENTS && 0 <= owner <= FULL_CENTS && 0.0 <= track <= 100.0
    ensures 0.0 <= Raw(creator, owner, track) <= 10000.0
  {
  }

  lemma ShrunkBetween(n: nat, raw: real)
    ensures Min(raw, 5000.0) <= Shrunk(n, raw)
    ensures raw <= 5000.0 ==> Shrunk(n, raw) <= 5000.0
    ensures raw >= 5000.0 ==> Shrunk(n, raw) <= raw
  {
    if n < SHRINK_BELOW {
      ShrunkIsMix(n, raw);
      if raw <= 5000.0 {
        MixBetween(Weight(n), raw, 5000.0);
      } else {
        MixBetween(Weight(n), 5000.0, raw);
      }
    }
  }

  /** Every score lies in [0, 100], to the cent. */
  lemma ScoreInRange(creator: Wallet, owner: Wallet, track: real)
    requires 0.0 <= track <= 100.0
    ensures 0 <= ScoreCents(creator, owner, track) <= FULL_CENTS
  {
    PillarRange(creator);
    PillarRange(owner);
    var raw := Raw(PillarCents(creator), PillarCents(owner), track);
    RawRange(PillarCents(creator), PillarCents(owner), track);
    ShrunkBetween(creator.events + owner.events, raw);
    RoundBetween(0, Shrunk(creator.events + owner.events, raw), FULL_CENTS);
  }

  /** Without events the score is exactly the prior, whatever the other signals say. */
  lemma NoEventsIsPrior(creator: Wallet, owner: Wallet, track: real)
    requires creator.events == 0 && owner.events == 0
    ensures ScoreCents(creator, owner, track) == PRIOR_CENTS
  {
    var raw := Raw(PillarCents(creator), PillarCents(owner), track);
    ShrunkIsMix(0, raw);
    assert Weight(0) == 0.0;
    RoundWhole(PRIOR_CENTS);
  }

  /** Shrinking never crosses the prior and never moves away from it by more than the half cent of
      the last rounding. */
  lemma ShrinksTowardsPrior(creator: Wallet, owner: Wallet, track: real)
    ensures var raw := Raw(PillarCents(creator), PillarCents(owner), track);
      var score := ScoreCents(creator, owner, track);
      && (raw >= 5000.0 ==> PRIOR_CENTS <= score && score as real <= raw + 0.5)
      && (raw <= 5000.0 ==> score <= PRIOR_CENTS && score as real >= raw - 0.5)
  {
    var raw := Raw(PillarCents(creator), PillarCents(owner), track);
    var shrunk := Shrunk(creator.events + owner.events, raw);
    ShrunkBetween(creator.events + owner.events, raw);
    RoundWhole(PRIOR_CENTS);
    if raw >= 5000.0 {
      RoundMonotone(5000.0, shrunk);
    }
    if raw <= 5000.0 {
      RoundMonotone(shrunk, 5000.0);
    }
  }

  lemma ShrunkMonotone(n: nat, low: real, high: real)
    requires low <= high
    ensures Shrunk(n, low) <= Shrunk(n, high)
  {
    if n < SHRINK_BELOW {
      ShrunkIsMix(n, low);
      ShrunkIsMix(n, high);
      ProductSign(Weight(n), high - low);
      assert Weight(n) * (high - low) == Weight(n) * high - Weight(n) * low;
    }
  }

  /** Better signals never lower the score, through both roundings: with the same number of events,
      or with more of them once there are three. */
  lemma ScoreMonotone(creator: Wallet, owner: Wallet, track: real, creator': Wallet, owner': Wallet, track': real)
    requires AtLeast(creator', creator) && AtLeast(owner', owner) && track' >= track
    requires || creator'.events + owner'.events == creator.events + owner.events
             || creator.events + owner.events >= SHRINK_BELOW
    ensures ScoreCents(creator', owner', track') >= ScoreCents(creator, owner, track)
  {
    PillarMonotone(creator', creator);
    PillarMonotone(owner', owner);
    var low := Raw(PillarCents(creator), PillarCents(owner), track);
    var high := Raw(PillarCents(creator'), PillarCents(owner'), track');
    assert low <= high;
    ShrunkMonotone(creator.events + owner.events, low, high);
    RoundMonotone(Shrunk(creator.events + owner.events, low), Shrunk(creator.events + owner.events, high));
  }

  // ---- When events lower the score -----------------------------------------------------

  /** How much of the raw score's distance from the prior n events let through: 0, 1/4, 2/5, then all. */
  function Pull(n: nat): real {
    if n < SHRINK_BELOW then Weight(n) else 1.0
  }

  function RawOf(creator: Wallet, owner: Wallet, track: real): real {
    Raw(PillarCents(creator), PillarCents(owner), track)
  }

  /** The distance from the prior that n events let through. */
  function Through(n: nat, raw: real): real {
    Pull(n) * (raw - 5000.0)
  }

  lemma ShrunkIsThrough(n: nat, raw: real)
    ensures Shrunk(n, raw) == 5000.0 + Through(n, raw)
  {
    if n < SHRINK_BELOW {
      ShrunkIsMix(n, raw);
      assert Weight(n) * (raw - 5000.0) == Weight(n) * raw - Weight(n) * 5000.0;
    }
  }

  lemma PullMonotone(n: nat, more: nat)
    requires n <= more
    ensures 0.0 <= Pull(n) <= Pull(more) <= 1.0
  {
    assert Weight(0) == 0.0 && Weight(1) == 0.25 && Weight(2) == 0.4;
    assert n < SHRINK_BELOW ==> n == 0 || n == 1 || n == 2;
    assert more < SHRINK_BELOW ==> more == 0 || more == 1 || more == 2;
  }

  lemma RoundShiftBelowIff(x: real, through: real, s: int)
    requires x == 5000.0 + through
    ensures RoundHalfEven(x) < s <==>
            through < s as real - 5000.5 || (through == s as real - 5000.5 && s % 2 == 1)
  {
    RoundBelowIff(x, s);
  }

  /** The score is below s cents exactly when the distance let through is, half cents going to the
      even side. */
  lemma ScoreBelowIff(creator: Wallet, owner: Wallet, track: real, s: int)
    ensures var through := Through(creator.events + owner.events, RawOf(creator, owner, track));
      ScoreCents(creator, owner, track) < s <==>
      through < s as real - 5000.5 || (through == s as real - 5000.5 && s % 2 == 1)
  {
    var n, raw := creator.events + owner.events, RawOf(creator, owner, track);
    ShrunkIsThrough(n, raw);
    RoundShiftBelowIff(Shrunk(n, raw), Through(n, raw), s);
  }

  /** An agent scores below 50.00, which it had without events, exactly when more than half a cent of
      its raw score's shortfall is let through. */
  lemma BelowPriorIff(creator: Wallet, owner: Wallet, track: real)
    ensures ScoreCents(creator, owner, track) < PRIOR_CENTS <==>
            Through(creator.events + owner.events, RawOf(creator, owner, track)) < -0.5
  {
    ScoreBelowIff(creator, owner, track, PRIOR_CENTS);
  }

  /** From a raw score at or above the prior, better signals and more events never lower the score. */
  lemma AbovePriorNeverLowered(
    creator: Wallet, owner: Wallet, track: real, creator': Wallet, owner': Wallet, track': real)
    requires AtLeast(creator', creator) && AtLeast(owner', owner) && track' >= track
    requires RawOf(creator, owner, track) >= 5000.0
    ensures ScoreCents(creator', owner', track') >= ScoreCents(creator, owner, track)
  {
    PillarMonotone(creator', creator);
    PillarMonotone(owner', owner);
    var n, more := creator.events + owner.events, creator'.events + owner'.events;
    var low, high := RawOf(creator, owner, track), RawOf(creator', owner', track');
    assert low <= high;
    ShrunkGrows(n, more, low, high);
    RoundMonotone(Shrunk(n, low), Shrunk(more, high));
  }

  lemma ShrunkGrows(n: nat, more: nat, low: real, high: real)
    requires n <= more && 5000.0 <= low <= high
    ensures Shrunk(n, low) <= Shrunk(more, high)
  {
    PullMonotone(n, more);
    MoreThrough(Pull(n), Pull(more), low - 5000.0, high - 5000.0);
    ShrunkIsThrough(n, low);
    ShrunkIsThrough(more, high);
  }

  lemma MoreThrough(a: real, b: real, x: real, y: real)
    requires 0.0 <= a <= b && 0.0 <= x <= y
    ensures a * x <= b * y
  {
    ProductSign(b - a, y);
    ProductSign(a, y - x);
    assert (b - a) * y == b * y - a * y && a * (y - x) == a * y - a * x;
  }

  /** Better signals with more events lower the score exactly when what the new number of events lets
      through of the new raw score falls short of the old score; it takes fewer than three events
      before and a raw score below the prior. */
  lemma EventsLowerIff(creator: Wallet, owner: Wallet, track: real, creator': Wallet, owner': Wallet, track': real)
    requires AtLeast(creator', creator) && AtLeast(owner', owner) && track' >= track
    ensures var before := ScoreCents(creator, owner, track);
      var through := Through(creator'.events + owner'.events, RawOf(creator', owner', track'));
      && (ScoreCents(creator', owner', track') < before <==>
            through < before as real - 5000.5 || (through == before as real - 5000.5 && before % 2 == 1))
      && (ScoreCents(creator', owner', track') < before ==>
            && creator.events + owner.events < SHRINK_BELOW
            && creator.events + owner.events < creator'.events + owner'.events
            && RawOf(creator, owner, track) < 5000.0)
  {
    ScoreBelowIff(creator', owner', track', ScoreCents(creator, owner, track));
    if RawOf(creator, owner, track) >= 5000.0 {
      AbovePriorNeverLowered(creator, owner, track, creator', owner', track');
    }
    if || creator'.events + owner'.events == creator.events + owner.events
       || creator.events + owner.events >= SHRINK_BELOW {
      ScoreMonotone(creator, owner, track, creator', owner', track');
    }
  }

  /** For instance the first event of an otherwise idle agent without a track record takes it from
      50.00 to 37.71. */
  lemma FirstEventCanLower()
    ensures var idle := Wallet(0, 0, None, false);
      var active := Wallet(1, 0, None, false);
      && AtLeast(active, idle)
      && ScoreCents(idle, idle, 0.0) == 5000 && ScoreCents(active, idle, 0.0) == 3771
  {
    var idle, active := Wallet(0, 0, None, false), Wallet(1, 0, None, false);
    NoEventsIsPrior(idle, idle, 0.0);
    assert Capped(1, 30) == 1.0 / 30.0 && Capped(0, 30) == 0.0 && Capped(0, 10) == 0.0;
    assert Pillar(active) == 50.0 / 30.0 && Pillar(idle) == 0.0;
    assert PillarCents(active) == 167 && PillarCents(idle) == 0;
    assert Raw(167, 0, 0.0) == 83.5;
    ShrunkIsMix(1, 83.5);
    assert Weight(1) == 0.25;
  }

  /** A wallet last active today (recency 0) scores as one never active: 20 points below the same
      wallet a day later. */
  lemma TodayScoresAsNever(w: Wallet)
    requires !w.neutral
    ensures Pillar(w.(recency := Some(0))) == Pillar(w.(recency := None))
    ensures Pillar(w.(recency := Some(1))) == Pillar(w.(recency := Some(0))) + 20.0
    ensures PillarCents(w.(recency := Some(1))) == PillarCents(w.(recency := Some(0))) + 2000
  {
    assert RecencyTerm(Some(1)) == 1.0;
    var base := 100.0 * Pillar(w.(recency := Some(0)));
    ShiftRound(base, 2000);
  }

  lemma ShiftRound(x: real, even: int)
    requires even % 2 == 0
    ensures RoundHalfEven(x + even as real) == RoundHalfEven(x) + even
  {
    var y, f := x + even as real, x.Floor;
    assert y.Floor == f + even && y - y.Floor as real == x - f as real;
    SameParity(f, even);
  }

  lemma SameParity(n: int, even: int)
    requires even % 2 == 0
    ensures (n + even) % 2 == n % 2
  {
  }
}
