/**
 * The WARM/DEAD cache-write policy of one lane: what one request decides and
 * how it advances the lane.
 */
module WritePolicy {
  import opened Wrappers
  import opened Arith

  const U64_MAX: int := 0xFFFF_FFFF_FFFF_FFFF
  type u64 = x: int | 0 <= x <= U64_MAX

  const FIVE_MIN_S: u64 := 300
  const ONE_HOUR_S: u64 := 3600
  const GAP_RING_CAP: nat := 8
  const FORECAST_WINDOW: nat := 5

  datatype TtlTier = Ephemeral5m | Ephemeral1h {
    function Wire(): string {
      if Ephemeral5m? then "5m" else "1h"
    }

    function Secs(): u64 {
      if Ephemeral5m? then FIVE_MIN_S else ONE_HOUR_S
    }
  }

  datatype LaneClass = Warm | Dead

  /** A finite floating-point factor is an exact fraction. */
  datatype Factor = Factor(num: int, den: nat)

  type Fraction = f: Factor | f.den > 0 witness Factor(0, 1)

  datatype Params = Params(compact: Fraction, minPrefix: u64, coldCap: u64)

  datatype Lane = Lane(s: u64, c: u64, pObs: u64, ttl: u64, lastTs: Option<u64>, gaps: seq<u64>)

  const DEFAULT_LANE := Lane(0, 0, 0, 0, None, [])

  datatype Decision = Decision(
    class_: LaneClass, tier: TtlTier, compactTarget: Option<u64>,
    expectedRead: u64, expectedWrite: u64, gap: Option<u64>)

  // ----- arithmetic ---------------------------------------------------------

  /** `s` times the factor, truncated; a negative product casts to 0. */
  function Scaled(s: nat, f: Fraction): nat {
    if f.num < 0 then 0 else Quotient(Times(s, f.num), f.den)
  }

  /** The prefix in proportion to a prompt that shrank from `pObs` to `p`. */
  function Shrunk(s: nat, p: nat, pObs: nat): nat {
    Quotient(Times(s, p), Max(pObs, 1))
  }

  lemma ShrunkIsProportional(s: nat, p: nat, pObs: nat)
    ensures Shrunk(s, p, pObs) == s * p / Max(pObs, 1)
  {
    TimesIsProduct(s, p);
    QuotientIsFloor(Times(s, p), Max(pObs, 1));
  }

  lemma ScaledIsFloor(s: nat, f: Fraction)
    ensures f.num >= 0 ==> Scaled(s, f) == s * f.num / f.den
  {
    if f.num >= 0 {
      TimesIsProduct(s, f.num);
      QuotientIsFloor(Times(s, f.num), f.den);
    }
  }

  /** The last `n` elements. */
  function Last<T>(n: nat, s: seq<T>): (r: seq<T>)
    ensures |r| == Min(n, |s|)
    ensures forall i :: 0 <= i < |r| ==> r[i] == s[|s| - |r| + i]
  {
    if |s| <= n then s else s[|s| - n..]
  }

  // ----- the TTL forecast ---------------------------------------------------

  function InsertSorted(x: nat, s: seq<nat>): seq<nat> {
    if s == [] || x <= s[0] then [x] + s else [s[0]] + InsertSorted(x, s[1..])
  }

  function Sorted(s: seq<nat>): (r: seq<nat>)
  {
    if s == [] then [] else InsertSorted(s[0], Sorted(s[1..]))
  }

  predicate Ascending(s: seq<nat>) {
    forall i, j :: 0 <= i < j < |s| ==> s[i] <= s[j]
  }

  lemma {:induction false} InsertSortedFacts(x: nat, s: seq<nat>)
    requires Ascending(s)
    ensures Ascending(InsertSorted(x, s)) && |InsertSorted(x, s)| == |s| + 1
    ensures forall y :: y in InsertSorted(x, s) <==> y == x || y in s
    ensures forall t :: Below(InsertSorted(x, s), t) == Below(s, t) + if x < t then 1 else 0
  {
    if s != [] {
      assert s == [s[0]] + s[1..];
      if x > s[0] {
        InsertSortedFacts(x, s[1..]);
        var rest := InsertSorted(x, s[1..]);
        forall j | 0 <= j < |rest| ensures s[0] <= rest[j] {
          assert rest[j] in rest;
        }
        assert ([s[0]] + rest)[1..] == rest;
      } else {
        assert ([x] + s)[1..] == s;
      }
    } else {
      assert [x][1..] == [];
    }
  }

  lemma {:induction false} SortedFacts(s: seq<nat>)
    ensures Ascending(Sorted(s)) && |Sorted(s)| == |s|
    ensures forall t :: Below(Sorted(s), t) == Below(s, t)
  {
    if s != [] {
      SortedFacts(s[1..]);
      InsertSortedFacts(s[0], Sorted(s[1..]));
    }
  }

  /** How many observations are under `t`. */
  function Below(s: seq<nat>, t: int): (n: nat)
    ensures n <= |s|
  {
    if s == [] then 0 else (if s[0] < t then 1 else 0) + Below(s[1..], t)
  }

  /** In an ascending list the elements under `t` are the first ones. */
  lemma {:induction false} BelowRank(s: seq<nat>, t: int, k: nat)
    requires Ascending(s) && k < |s|
    ensures s[k] < t <==> k < Below(s, t)
  {
    if s[0] >= t {
      NoneBelow(s, t);
      assert s[k] >= s[0];
    } else if k > 0 {
      BelowRank(s[1..], t, k - 1);
    }
  }

  lemma {:induction false} NoneBelow(s: seq<nat>, t: int)
    requires forall i :: 0 <= i < |s| ==> s[i] >= t
    ensures Below(s, t) == 0
  {
    if s != [] {
      NoneBelow(s[1..], t);
    }
  }

  function Median(s: seq<nat>): nat
    requires s != []
  {
    SortedFacts(s);
    Sorted(s)[|s| / 2]
  }

  /** The tier for a median of the trailing gaps, `five` and `hour` being the two lifetimes in the unit of the gaps. */
  function Forecast(gaps: seq<nat>, five: nat, hour: nat): TtlTier {
    if gaps == [] then Ephemeral5m
    else
      var med := Median(Last(FORECAST_WINDOW, gaps));
      if med < five then Ephemeral5m
      else if med <= hour then Ephemeral1h
      else Ephemeral5m
  }

  function ForecastTier(gaps: seq<u64>): TtlTier {
    Forecast(gaps, FIVE_MIN_S, ONE_HOUR_S)
  }

  /** How many of the last five gaps are under `t`. */
  function RecentBelow(gaps: seq<nat>, t: int): nat {
    Below(if |gaps| > 5 then gaps[|gaps| - 5..] else gaps, t)
  }

  /**
   * The hour is chosen exactly when at most half of the last five gaps, rounded
   * down, are under five minutes and more than half are within an hour.
   */
  lemma ForecastByCounting(gaps: seq<nat>, five: nat, hour: nat)
    ensures Forecast(gaps, five, hour) == Ephemeral1h <==>
              gaps != [] && RecentBelow(gaps, five) <= Min(|gaps|, 5) / 2 < RecentBelow(gaps, hour + 1)
  {
    if gaps != [] {
      var tail := Last(FORECAST_WINDOW, gaps);
      SortedFacts(tail);
      BelowRank(Sorted(tail), five, |tail| / 2);
      BelowRank(Sorted(tail), hour + 1, |tail| / 2);
    }
  }

  // ----- one request --------------------------------------------------------

  /** The lane after the prompt delta is taken in: shrunk in proportion, or grown. */
  function Grown(l: Lane, p: u64): Lane {
    if l.lastTs.None? then l.(pObs := p, s := Min(l.s + p, U64_MAX))
    else if p >= l.pObs then l.(pObs := p, s := Min(l.s + (p - l.pObs), U64_MAX))
    else
      var s := Min(l.s, Shrunk(l.s, p, l.pObs));
      l.(pObs := p, s := s, c := Min(l.c, s))
  }

  function GapOf(l: Lane, now: u64): Option<u64> {
    if l.lastTs.None? then None else Some(Max(now - l.lastTs.value, 0))
  }

  function RecordGap(gaps: seq<u64>, gap: Option<u64>): seq<u64> {
    if gap.None? then gaps
    else (if |gaps| >= GAP_RING_CAP then gaps[1..] else gaps) + [gap.value]
  }

  function TtlInEffect(l: Lane): u64 {
    if l.ttl == 0 then FIVE_MIN_S else l.ttl
  }

  predicate IsWarm(l: Lane, now: u64, p: u64) {
    Grown(l, p).c > 0 && GapOf(l, now).Some? && GapOf(l, now).value < TtlInEffect(l)
  }

  /** The size of a cold projection of a prefix of `s` tokens. */
  function ColdTarget(s: u64, params: Params): u64 {
    if s > 0 then Min(Max(Min(Scaled(s, params.compact), U64_MAX), params.minPrefix), params.coldCap) else 0
  }

  /** What the source's arithmetic needs of a lane: the committed prefix is part of the prefix. */
  predicate Sound(l: Lane) {
    l.c <= l.s
  }

  /** WARM reads the committed prefix and writes the rest; DEAD compacts and writes it all. */
  function Classified(s: u64, c: u64, warm: bool, params: Params): (r: (u64, u64, Option<u64>))
    requires c <= s
  {
    if warm then (c, s - c, None) else (0, ColdTarget(s, params), Some(ColdTarget(s, params)))
  }

  function Decided(l: Lane, now: u64, p: u64, params: Params): (Lane, Decision)
    requires Sound(l)
  {
    var g, warm := Grown(l, p), IsWarm(l, now, p);
    var (read, write, target) := Classified(g.s, g.c, warm, params);
    var gap := GapOf(l, now);
    var gaps := RecordGap(l.gaps, gap);
    var tier := ForecastTier(gaps);
    var s := if warm then g.s else write;
    (Lane(s, s, p, tier.Secs(), Some(now), gaps),
     Decision(if warm then Warm else Dead, tier, target, read, write, gap))
  }

  class LaneState {
    var s: u64
    var c: u64
    var pObs: u64
    var ttl: u64
    var lastTs: Option<u64>
    var gaps: seq<u64>

    constructor (l: Lane)
      ensures Value() == l
    {
      s, c, pObs, ttl, lastTs, gaps := l.s, l.c, l.pObs, l.ttl, l.lastTs, l.gaps;
    }

    function Value(): Lane
      reads this
    {
      Lane(s, c, pObs, ttl, lastTs, gaps)
    }

    /** Classifies one request and advances the lane. */
    method Decide(now: u64, p: u64, params: Params) returns (d: Decision)
      requires Sound(Value())
      modifies this
      ensures Value() == Decided(old(Value()), now, p, params).0
      ensures d == Decided(old(Value()), now, p, params).1
    {
      var gap, warm := Observe(now, p);
      var read, write, target := ReadAndWrite(warm, params);
      var tier := ForecastTier(gaps);
      ttl := tier.Secs();
      c := s;
      lastTs := Some(now);
      d := Decision(if warm then Warm else Dead, tier, target, read, write, gap);
    }

    /** Takes in the prompt and the clock, and tells whether the committed prefix is still alive. */
    method Observe(now: u64, p: u64) returns (gap: Option<u64>, warm: bool)
      requires Sound(Value())
      modifies this
      ensures Sound(Value()) && gap == GapOf(old(Value()), now) && warm == IsWarm(old(Value()), now, p)
      ensures (s, c, pObs) == (Grown(old(Value()), p).s, Grown(old(Value()), p).c, p)
      ensures gaps == RecordGap(old(gaps), gap)
    {
      if ttl == 0 {
        ttl := FIVE_MIN_S;
      }
      ObservePrompt(p);
      gap := ObserveGap(now);
      warm := c > 0 && gap.Some? && gap.value < ttl;
    }

    /** Compacts a dead prefix; says what is read and written. */
    method ReadAndWrite(warm: bool, params: Params) returns (read: u64, write: u64, target: Option<u64>)
      requires Sound(Value())
      modifies this`s
      ensures (read, write, target) == Classified(old(s), c, warm, params)
      ensures s == if warm then old(s) else write
    {
      if warm {
        return c, s - c, None;
      }
      s := ColdTarget(s, params);
      return 0, s, Some(s);
    }

    /** Derives growth, or a proportional shrink, from the prompt delta. */
    method ObservePrompt(p: u64)
      requires Sound(Value())
      modifies this`s, this`c, this`pObs
      ensures Value() == Grown(old(Value()), p)
    {
      var growth: int;
      if lastTs.None? {
        growth := p;
      } else if p >= pObs {
        growth := p - pObs;
      } else {
        var scaled := Shrunk(s, p, pObs);
        s := Min(s, scaled);
        c := Min(c, s);
        growth := 0;
      }
      pObs := p;
      s := Min(s + growth, U64_MAX);
    }

    /** Records the time since the last request in the ring. */
    method ObserveGap(now: u64) returns (gap: Option<u64>)
      modifies this`gaps
      ensures gap == GapOf(old(Value()), now)
      ensures gaps == RecordGap(old(gaps), gap)
    {
      gap := if lastTs.None? then None else Some(Max(now - lastTs.value, 0));
      if gap.Some? {
        if |gaps| >= GAP_RING_CAP {
          gaps := gaps[1..];
        }
        gaps := gaps + [gap.value];
      }
    }
  }

  // ----- one request in numbers ---------------------------------------------

  /** What is left of `x` when a prompt of `was` tokens shrinks to `p`; growth leaves it. */
  function InProportion(x: nat, p: nat, was: nat): nat {
    if p >= was then x else Min(x, x * p / Max(was, 1))
  }

  /** The prefix a request finds: grown by the growth of the prompt, or shrunk with it. */
  function PrefixNow(l: Lane, p: u64): nat {
    if l.lastTs.None? then Min(l.s + p, 0xFFFF_FFFF_FFFF_FFFF)
    else if p >= l.pObs then Min(l.s + (p - l.pObs), 0xFFFF_FFFF_FFFF_FFFF)
    else InProportion(l.s, p, l.pObs)
  }

  /** What of it is committed. */
  function CommittedNow(l: Lane, p: u64): nat {
    if l.lastTs.Some? && p < l.pObs then Min(l.c, InProportion(l.s, p, l.pObs)) else l.c
  }

  lemma GrownInNumbers(l: Lane, p: u64)
    ensures Grown(l, p).s == PrefixNow(l, p) && Grown(l, p).c == CommittedNow(l, p)
  {
    ShrunkIsProportional(l.s, p, l.pObs);
  }

  /** What a cold request writes of a prefix of `s` tokens. */
  function ColdWrite(s: nat, params: Params): nat {
    var scaled := if params.compact.num < 0 then 0 else s * params.compact.num / params.compact.den;
    if s == 0 then 0 else Min(Max(Min(scaled, 0xFFFF_FFFF_FFFF_FFFF), params.minPrefix), params.coldCap)
  }

  /** Seconds since the lane was last used; none for the first request or when the clock went back. */
  function SecondsSince(l: Lane, now: u64): nat {
    if l.lastTs.Some? && now >= l.lastTs.value then now - l.lastTs.value else 0
  }

  /** The gaps after a request: the last seven of before and the new one. */
  predicate GapsGrow(before: seq<u64>, gap: u64, after: seq<u64>) {
    after == (if |before| >= 8 then before[1..] else before) + [gap]
  }

  /**
   * One request on a lane between requests. It is WARM exactly when something is
   * committed and the lane was used within its lifetime, 300 seconds at first;
   * then it reads what is committed and writes the rest, else it writes the
   * compacted prefix. The lifetime of what it wrote is the forecast of the gaps.
   */
  lemma DecidedInNumbers(l: Lane, now: u64, p: u64, params: Params)
    requires Resting(l)
    ensures var (next, d) := Decided(l, now, p, params);
            var s, c := PrefixNow(l, p), CommittedNow(l, p);
            var life := if l.ttl == 0 then 300 else l.ttl;
            && (d.class_ == Warm <==> c > 0 && l.lastTs.Some? && SecondsSince(l, now) < life)
            && (d.class_ == Warm ==> d.expectedRead == c && d.expectedWrite == s - c && d.compactTarget == None)
            && (d.class_ == Dead ==>
                  && d.expectedRead == 0 && d.expectedWrite == ColdWrite(s, params)
                  && d.compactTarget == Some(ColdWrite(s, params)))
            && next.s == next.c == d.expectedRead + d.expectedWrite && next.pObs == p && next.lastTs == Some(now)
    ensures var (next, d) := Decided(l, now, p, params);
            && (l.lastTs.None? ==> d.gap == None && next.gaps == [])
            && (l.lastTs.Some? ==>
                  d.gap == Some(SecondsSince(l, now)) && GapsGrow(l.gaps, SecondsSince(l, now), next.gaps))
            && next.ttl == (if d.tier == Ephemeral1h then 3600 else 300)
            && (d.tier == Ephemeral1h <==>
                  next.gaps != []
                  && RecentBelow(next.gaps, 300) <= Min(|next.gaps|, 5) / 2 < RecentBelow(next.gaps, 3601))
  {
    GrownInNumbers(l, p);
    ScaledIsFloor(Grown(l, p).s, params.compact);
    ForecastByCounting(Decided(l, now, p, params).0.gaps, 300, 3600);
  }

  // ----- what every step keeps ----------------------------------------------

  predicate Settled(l: Lane) {
    && l.c == l.s && (l.ttl == FIVE_MIN_S || l.ttl == ONE_HOUR_S)
    && |l.gaps| <= GAP_RING_CAP && l.lastTs.Some?
  }

  /** A lane between requests: fresh, or left by a request. */
  predicate Resting(l: Lane) {
    l == DEFAULT_LANE || Settled(l)
  }

  lemma DecidedFacts(l: Lane, now: u64, p: u64, params: Params)
    requires Sound(l) && |l.gaps| <= GAP_RING_CAP
    ensures var (next, d) := Decided(l, now, p, params);
            && Settled(next) && next.lastTs == Some(now) && next.pObs == p
            && d.expectedRead + d.expectedWrite == next.s
            && (d.class_ == Dead ==>
                  d.expectedRead == 0 && d.compactTarget == Some(d.expectedWrite) && d.expectedWrite <= params.coldCap)
            && (d.class_ == Warm ==> d.compactTarget.None? && d.expectedRead > 0)
            && next.ttl == d.tier.Secs()
  {
  }

  /** The prefix never outgrows the observed prompt by more than the floor of a cold projection. */
  predicate Bounded(l: Lane, params: Params) {
    l.s <= l.pObs + params.minPrefix
  }

  lemma ShrunkBound(s: nat, p: nat, pObs: nat, slack: nat)
    requires p < pObs && s <= pObs + slack
    ensures Shrunk(s, p, pObs) <= p + slack
  {
    TimesMonotone(s, pObs + slack, p);
    TimesSplits(pObs, slack, p);
    TimesCommutes(slack, p);
    TimesMonotone(p, pObs, slack);
    TimesCommutes(pObs, p);
    TimesSplits(p, slack, pObs);
    TimesCommutes(slack, pObs);
    TimesCommutes(p + slack, pObs);
    QuotientBound(Times(s, p), pObs, p + slack);
  }

  predicate AtMostOne(f: Fraction) {
    f.num <= f.den
  }

  lemma ScaledBound(s: nat, f: Fraction)
    requires AtMostOne(f)
    ensures Scaled(s, f) <= s
  {
    if f.num >= 0 {
      TimesCommutes(s, f.num);
      TimesMonotone(f.num, f.den, s);
      QuotientBound(Times(s, f.num), f.den, s);
    }
  }

  lemma GrownBound(l: Lane, p: u64, params: Params)
    requires Bounded(l, params) && (l.lastTs.None? ==> l.s == 0)
    ensures Grown(l, p).s <= p + params.minPrefix
  {
    if l.lastTs.Some? && p < l.pObs {
      ShrunkBound(l.s, p, l.pObs, params.minPrefix);
    }
  }

  lemma ColdBound(s: u64, params: Params)
    requires AtMostOne(params.compact)
    ensures ColdTarget(s, params) <= Max(s, params.minPrefix)
  {
    ScaledBound(s, params.compact);
  }

  /** Growth, proportional shrink and compaction by at most 1 all keep the bound. */
  lemma BoundInductive(l: Lane, now: u64, p: u64, params: Params)
    requires Sound(l) && Bounded(l, params) && AtMostOne(params.compact) && (l.lastTs.None? ==> l.s == 0)
    ensures Bounded(Decided(l, now, p, params).0, params)
  {
    var g := Grown(l, p).s;
    GrownBound(l, p, params);
    ColdBound(g, params);
    var next := Decided(l, now, p, params).0;
    assert next.pObs == p && (next.s == g || next.s == ColdTarget(g, params));
  }

  // ----- runs ---------------------------------------------------------------

  datatype Observation = Observation(now: u64, prompt: u64)

  function RunLane(l: Lane, obs: seq<Observation>, params: Params): Lane
    requires Resting(l)
    decreases obs
  {
    if obs == [] then l
    else
      DecidedFacts(l, obs[0].now, obs[0].prompt, params);
      RunLane(Decided(l, obs[0].now, obs[0].prompt, params).0, obs[1..], params)
  }

  function RunDecisions(l: Lane, obs: seq<Observation>, params: Params): (r: seq<Decision>)
    requires Resting(l)
    ensures |r| == |obs|
    decreases obs
  {
    if obs == [] then []
    else
      DecidedFacts(l, obs[0].now, obs[0].prompt, params);
      var (next, d) := Decided(l, obs[0].now, obs[0].prompt, params);
      [d] + RunDecisions(next, obs[1..], params)
  }

  /** Every lane any run reaches is resting, and within the bound when compaction never expands. */
  lemma {:induction false} RunInvariant(l: Lane, obs: seq<Observation>, params: Params)
    requires Resting(l) && Bounded(l, params)
    ensures Resting(RunLane(l, obs, params))
    ensures AtMostOne(params.compact) ==> Bounded(RunLane(l, obs, params), params)
    ensures forall d :: d in RunDecisions(l, obs, params) && d.class_ == Dead ==> d.expectedWrite <= params.coldCap
    decreases obs
  {
    if obs != [] {
      var next := Decided(l, obs[0].now, obs[0].prompt, params).0;
      DecidedFacts(l, obs[0].now, obs[0].prompt, params);
      if AtMostOne(params.compact) {
        BoundInductive(l, obs[0].now, obs[0].prompt, params);
        RunInvariant(next, obs[1..], params);
      } else {
        RunDeadWrites(next, obs[1..], params);
      }
    }
  }

  lemma {:induction false} RunDeadWrites(l: Lane, obs: seq<Observation>, params: Params)
    requires Resting(l)
    ensures Resting(RunLane(l, obs, params))
    ensures forall d :: d in RunDecisions(l, obs, params) && d.class_ == Dead ==> d.expectedWrite <= params.coldCap
    decreases obs
  {
    if obs != [] {
      DecidedFacts(l, obs[0].now, obs[0].prompt, params);
      RunDeadWrites(Decided(l, obs[0].now, obs[0].prompt, params).0, obs[1..], params);
    }
  }

  // ----- warm stretches -----------------------------------------------------

  predicate AllWarm(ds: seq<Decision>) {
    forall d :: d in ds ==> d.class_ == Warm
  }

  function Writes(ds: seq<Decision>): nat {
    if ds == [] then 0 else ds[0].expectedWrite + Writes(ds[1..])
  }

  function Reads(ds: seq<Decision>): nat {
    if ds == [] then 0 else ds[0].expectedRead + Reads(ds[1..])
  }

  /** Sum of the prompt's increases from `p` on. */
  function PositiveGrowth(p: u64, obs: seq<Observation>): nat
    decreases obs
  {
    if obs == [] then 0 else Max(obs[0].prompt - p, 0) + PositiveGrowth(obs[0].prompt, obs[1..])
  }

  predicate NeverShrinks(p: u64, obs: seq<Observation>)
    decreases obs
  {
    obs == [] || (obs[0].prompt >= p && NeverShrinks(obs[0].prompt, obs[1..]))
  }

  predicate FitsU64(obs: seq<Observation>, params: Params) {
    forall o :: o in obs ==> o.prompt + params.minPrefix <= U64_MAX
  }

  lemma WarmStep(l: Lane, o: Observation, params: Params)
    requires Settled(l) && Bounded(l, params) && o.prompt + params.minPrefix <= U64_MAX
    requires Decided(l, o.now, o.prompt, params).1.class_ == Warm
    ensures var (next, d) := Decided(l, o.now, o.prompt, params);
            && d.expectedWrite == Max(o.prompt - l.pObs, 0)
            && (o.prompt >= l.pObs ==> d.expectedRead == l.c)
            && Settled(next) && Bounded(next, params) && next.pObs == o.prompt
  {
    GrownBound(l, o.prompt, params);
    DecidedFacts(l, o.now, o.prompt, params);
  }

  /** Over a warm stretch the writes are exactly the growth of the prompt. */
  lemma {:induction false} WarmStretchWrites(l: Lane, obs: seq<Observation>, params: Params)
    requires Settled(l) && Bounded(l, params) && FitsU64(obs, params)
    requires AllWarm(RunDecisions(l, obs, params))
    ensures Writes(RunDecisions(l, obs, params)) == PositiveGrowth(l.pObs, obs)
    ensures obs != [] && NeverShrinks(l.pObs, obs) ==>
              Writes(RunDecisions(l, obs, params)) == obs[|obs| - 1].prompt - l.pObs
    decreases obs
  {
    if obs != [] {
      var (next, d) := Decided(l, obs[0].now, obs[0].prompt, params);
      var ds := RunDecisions(l, obs, params);
      DecidedFacts(l, obs[0].now, obs[0].prompt, params);
      assert ds == [d] + RunDecisions(next, obs[1..], params);
      assert ds[0] in ds;
      WarmStep(l, obs[0], params);
      assert forall e :: e in ds[1..] ==> e in ds;
      assert ds[1..] == RunDecisions(next, obs[1..], params);
      WarmStretchWrites(next, obs[1..], params);
    }
  }

  /** Each step grows by at most a ninth of the prefix committed before it. */
  predicate GrowsSlowly(l: Lane, obs: seq<Observation>, params: Params)
    requires Resting(l)
    decreases obs
  {
    if obs == [] then true
    else
      DecidedFacts(l, obs[0].now, obs[0].prompt, params);
      && obs[0].prompt >= l.pObs && 9 * (obs[0].prompt - l.pObs) <= l.c
      && GrowsSlowly(Decided(l, obs[0].now, obs[0].prompt, params).0, obs[1..], params)
  }

  /** AC-3: such a stretch reads at least nine tokens in ten from the cache. */
  lemma {:induction false} WarmStretchHitRatio(l: Lane, obs: seq<Observation>, params: Params)
    requires Settled(l) && Bounded(l, params) && FitsU64(obs, params)
    requires AllWarm(RunDecisions(l, obs, params)) && GrowsSlowly(l, obs, params)
    ensures var ds := RunDecisions(l, obs, params);
            10 * Reads(ds) >= 9 * (Reads(ds) + Writes(ds))
    decreases obs
  {
    if obs != [] {
      var (next, d) := Decided(l, obs[0].now, obs[0].prompt, params);
      var ds := RunDecisions(l, obs, params);
      DecidedFacts(l, obs[0].now, obs[0].prompt, params);
      assert ds == [d] + RunDecisions(next, obs[1..], params);
      assert ds[0] in ds;
      WarmStep(l, obs[0], params);
      assert forall e :: e in ds[1..] ==> e in ds;
      assert ds[1..] == RunDecisions(next, obs[1..], params);
      WarmStretchHitRatio(next, obs[1..], params);
    }
  }
}
