/**
 * The offline replay of the policy over an unbounded gap history, as
 * scripts/replay_cache.py runs it, and exactly when the proxy's lane with its
 * eight-gap ring and its whole seconds mirrors it.
 */
module Replay {
  import opened Wrappers
  import opened WritePolicy

  // ----- time ---------------------------------------------------------------

  /** Microseconds in a second: the replay reads its times to the microsecond, the proxy to the second. */
  const TICKS: nat := 1_000_000

  type Moment = t: nat | t <= U64_MAX * TICKS

  /** What the proxy's clock shows at a moment. */
  function Clock(t: Moment): u64 {
    t / TICKS
  }

  datatype Call = Call(at: Moment, prompt: u64)

  /** The calls as the proxy observes them. */
  function Observed(calls: seq<Call>): (obs: seq<Observation>)
    ensures |obs| == |calls|
  {
    seq(|calls|, i requires 0 <= i < |calls| => Observation(Clock(calls[i].at), calls[i].prompt))
  }

  // ----- one call -----------------------------------------------------------

  /** Unbounded integers, times in ticks, and every gap ever seen. */
  datatype ReplayLane = ReplayLane(s: nat, c: nat, pObs: nat, ttl: nat, lastTs: Option<Moment>, gaps: seq<nat>)

  const FRESH_LANE := ReplayLane(0, 0, 0, FIVE_MIN_S * TICKS, None, [])

  /** What one replayed call contributes to the totals. */
  datatype Entry = Entry(warm: bool, tier: TtlTier, read: nat, write: nat)

  /** Python's `int(...)` of the scaled prefix, floored by `min_prefix`; a negative product truncates to at most 0. */
  function ReplayCold(s: nat, compact: Fraction, minPrefix: nat): nat {
    if s == 0 then 0 else Max(minPrefix, Scaled(s, compact))
  }

  function ReplayGrown(l: ReplayLane, p: nat): ReplayLane {
    var growth := if l.lastTs.Some? then p - l.pObs else p;
    if growth < 0 then
      var s := Min(l.s, Shrunk(l.s, p, l.pObs));
      l.(s := s, c := Min(l.c, s), pObs := p)
    else l.(s := l.s + growth, pObs := p)
  }

  /** A call never comes before the lane's last one: the calls are sorted by time. */
  predicate InOrder(l: ReplayLane, at: Moment) {
    l.lastTs.Some? ==> l.lastTs.value <= at
  }

  function ReplayGap(l: ReplayLane, at: Moment): Option<nat>
    requires InOrder(l, at)
  {
    if l.lastTs.None? then None else Some(at - l.lastTs.value)
  }

  function Extended<T>(gaps: seq<T>, gap: Option<T>): seq<T> {
    if gap.Some? then gaps + [gap.value] else gaps
  }

  function ReplayForecast(gaps: seq<nat>): TtlTier {
    Forecast(gaps, FIVE_MIN_S * TICKS, ONE_HOUR_S * TICKS)
  }

  function ReplayCall(l: ReplayLane, o: Call, compact: Fraction, minPrefix: nat): (ReplayLane, Entry)
    requires InOrder(l, o.at) && l.c <= l.s
  {
    var g := ReplayGrown(l, o.prompt);
    var gap := ReplayGap(l, o.at);
    var gaps := Extended(l.gaps, gap);
    var warm := g.c > 0 && gap.Some? && gap.value < l.ttl;
    var s := if warm then g.s else ReplayCold(g.s, compact, minPrefix);
    var tier := ReplayForecast(gaps);
    (ReplayLane(s, s, o.prompt, tier.Secs() * TICKS, Some(o.at), gaps),
     Entry(warm, tier, if warm then g.c else 0, if warm then g.s - g.c else s))
  }

  predicate TimeSorted(l: ReplayLane, calls: seq<Call>) {
    && (calls != [] ==> InOrder(l, calls[0].at))
    && forall i, j :: 0 <= i < j < |calls| ==> calls[i].at <= calls[j].at
  }

  function ReplayRun(l: ReplayLane, calls: seq<Call>, compact: Fraction, minPrefix: nat): (r: seq<Entry>)
    requires TimeSorted(l, calls) && l.c <= l.s
    ensures |r| == |calls|
    decreases calls
  {
    if calls == [] then []
    else
      var (next, e) := ReplayCall(l, calls[0], compact, minPrefix);
      [e] + ReplayRun(next, calls[1..], compact, minPrefix)
  }

  // ----- the proxy's lane in the same terms ---------------------------------

  function EntryOf(d: Decision): Entry {
    Entry(d.class_ == Warm, d.tier, d.expectedRead, d.expectedWrite)
  }

  function Entries(ds: seq<Decision>): (r: seq<Entry>)
    ensures |r| == |ds|
  {
    if ds == [] then [] else [EntryOf(ds[0])] + Entries(ds[1..])
  }

  /** The gap between two moments on the proxy's clock. */
  function WholeGap(l: ReplayLane, at: Moment): Option<u64>
    requires InOrder(l, at)
  {
    if l.lastTs.None? then None else Some(Clock(at) - Clock(l.lastTs.value))
  }

  /**
   * The ring holds the most recent of all the gaps on the proxy's clock, and
   * everything else agrees up to the unit of time.
   */
  predicate Mirrors(l: Lane, r: ReplayLane, whole: seq<u64>) {
    && l.s == r.s && l.c == r.c && l.pObs == r.pObs
    && l.lastTs == (if r.lastTs.Some? then Some(Clock(r.lastTs.value)) else None)
    && TtlInEffect(l) * TICKS == r.ttl
    && l.gaps == Last(GAP_RING_CAP, whole)
  }

  /** The ring is enough: the last five of the last eight are the last five. */
  lemma RingSuffices(gaps: seq<u64>)
    ensures ForecastTier(Last(GAP_RING_CAP, gaps)) == ForecastTier(gaps)
  {
    assert Last(FORECAST_WINDOW, Last(GAP_RING_CAP, gaps)) == Last(FORECAST_WINDOW, gaps);
  }

  lemma RingRecords(gaps: seq<u64>, gap: Option<u64>)
    ensures RecordGap(Last(GAP_RING_CAP, gaps), gap) == Last(GAP_RING_CAP, Extended(gaps, gap))
  {
  }

  /** The replayed call stays within the proxy's integers before compaction. */
  predicate Fits(r: ReplayLane, o: Call) {
    ReplayGrown(r, o.prompt).s <= U64_MAX
  }

  lemma GrownMirrors(l: Lane, r: ReplayLane, whole: seq<u64>, o: Call)
    requires Mirrors(l, r, whole) && Fits(r, o)
    ensures var g, h := Grown(l, o.prompt), ReplayGrown(r, o.prompt);
            g.s == h.s && g.c == h.c
  {
  }

  /** The cold targets agree exactly when the replay's is within the cap. */
  lemma ColdAgrees(s: u64, params: Params)
    ensures ColdTarget(s, params) == ReplayCold(s, params.compact, params.minPrefix)
       <==> ReplayCold(s, params.compact, params.minPrefix) <= params.coldCap
  {
  }

  /** When there is something to keep alive, the two gaps lie on the same side of the TTL in effect. */
  predicate ClassAgrees(r: ReplayLane, o: Call)
    requires InOrder(r, o.at)
  {
    ReplayGrown(r, o.prompt).c > 0 && r.lastTs.Some? ==>
      (ReplayGap(r, o.at).value < r.ttl <==> WholeGap(r, o.at).value * TICKS < r.ttl)
  }

  /** The medians of the exact and of the whole gaps call for the same tier. */
  predicate TierAgrees(r: ReplayLane, whole: seq<u64>, o: Call)
    requires InOrder(r, o.at)
  {
    ReplayForecast(Extended(r.gaps, ReplayGap(r, o.at))) == ForecastTier(Extended(whole, WholeGap(r, o.at)))
  }

  lemma ClassMirrors(l: Lane, r: ReplayLane, whole: seq<u64>, o: Call)
    requires Mirrors(l, r, whole) && InOrder(r, o.at) && Fits(r, o)
    ensures GapOf(l, Clock(o.at)) == WholeGap(r, o.at)
    ensures var g := ReplayGrown(r, o.prompt);
            var warm := g.c > 0 && ReplayGap(r, o.at).Some? && ReplayGap(r, o.at).value < r.ttl;
            (IsWarm(l, Clock(o.at), o.prompt) <==> warm) <==> ClassAgrees(r, o)
  {
    GrownMirrors(l, r, whole, o);
  }

  lemma TierMirrors(l: Lane, r: ReplayLane, whole: seq<u64>, o: Call)
    requires Mirrors(l, r, whole) && InOrder(r, o.at) && GapOf(l, Clock(o.at)) == WholeGap(r, o.at)
    ensures var ring := RecordGap(l.gaps, GapOf(l, Clock(o.at)));
            var all := Extended(whole, WholeGap(r, o.at));
            ring == Last(GAP_RING_CAP, all) && ForecastTier(ring) == ForecastTier(all)
  {
    RingRecords(whole, WholeGap(r, o.at));
    RingSuffices(Extended(whole, WholeGap(r, o.at)));
  }

  /**
   * One call from mirroring lanes: the outcomes agree exactly when truncating
   * the times changes neither class nor tier and the replay's write is warm or
   * within the cap; and then the lanes mirror again.
   */
  lemma StepMirrors(l: Lane, r: ReplayLane, whole: seq<u64>, o: Call, params: Params)
    requires Mirrors(l, r, whole) && Sound(l) && InOrder(r, o.at) && Fits(r, o)
    ensures var (l', d) := Decided(l, Clock(o.at), o.prompt, params);
            var (r', e) := ReplayCall(r, o, params.compact, params.minPrefix);
            && (EntryOf(d) == e <==>
                  ClassAgrees(r, o) && TierAgrees(r, whole, o) && (e.warm || e.write <= params.coldCap))
            && (EntryOf(d) == e ==> Mirrors(l', r', Extended(whole, WholeGap(r, o.at))))
  {
    GrownMirrors(l, r, whole, o);
    ColdAgrees(Grown(l, o.prompt).s, params);
    ClassMirrors(l, r, whole, o);
    TierMirrors(l, r, whole, o);
  }

  // ----- whole runs ---------------------------------------------------------

  /** Every call of the replay fits the proxy's integers. */
  predicate AllFit(r: ReplayLane, calls: seq<Call>, compact: Fraction, minPrefix: nat)
    requires TimeSorted(r, calls) && r.c <= r.s
    decreases calls
  {
    calls == [] ||
    (&& Fits(r, calls[0])
     && AllFit(ReplayCall(r, calls[0], compact, minPrefix).0, calls[1..], compact, minPrefix))
  }

  /** At no call of the replay does truncating the times change class or tier. */
  predicate TimesAgree(r: ReplayLane, whole: seq<u64>, calls: seq<Call>, compact: Fraction, minPrefix: nat)
    requires TimeSorted(r, calls) && r.c <= r.s
    decreases calls
  {
    calls == [] ||
    (&& ClassAgrees(r, calls[0]) && TierAgrees(r, whole, calls[0])
     && TimesAgree(ReplayCall(r, calls[0], compact, minPrefix).0, Extended(whole, WholeGap(r, calls[0].at)), calls[1..],
                   compact, minPrefix))
  }

  /** AC-4 as the replay reports it: no cold write is over the cap. */
  predicate ColdWritesUnderCap(es: seq<Entry>, coldCap: nat) {
    forall e :: e in es ==> e.warm || e.write <= coldCap
  }

  lemma UnderCapCons(e: Entry, es: seq<Entry>, coldCap: nat)
    ensures ColdWritesUnderCap([e] + es, coldCap) <==> (e.warm || e.write <= coldCap) && ColdWritesUnderCap(es, coldCap)
  {
    var all := [e] + es;
    assert all[0] == e && forall i :: 0 <= i < |es| ==> all[i + 1] == es[i];
    if ColdWritesUnderCap(all, coldCap) {
      assert e in all;
      forall x | x in es ensures x.warm || x.write <= coldCap {
        assert x in all;
      }
    }
  }

  lemma EntriesCons(d: Decision, ds: seq<Decision>, e: Entry, es: seq<Entry>)
    ensures Entries([d] + ds) == [e] + es <==> EntryOf(d) == e && Entries(ds) == es
  {
    assert ([d] + ds)[1..] == ds;
    assert ([EntryOf(d)] + Entries(ds))[0] == EntryOf(d) && ([EntryOf(d)] + Entries(ds))[1..] == Entries(ds);
    assert ([e] + es)[0] == e && ([e] + es)[1..] == es;
  }

  lemma ObservedCons(calls: seq<Call>)
    requires calls != []
    ensures Observed(calls)[0] == Observation(Clock(calls[0].at), calls[0].prompt)
      && Observed(calls)[1..] == Observed(calls[1..])
  {
  }

  lemma {:induction false} RunMirrorsFrom(l: Lane, r: ReplayLane, whole: seq<u64>, calls: seq<Call>, params: Params)
    requires Resting(l) && Mirrors(l, r, whole) && TimeSorted(r, calls)
    requires AllFit(r, calls, params.compact, params.minPrefix)
    ensures var es := ReplayRun(r, calls, params.compact, params.minPrefix);
            Entries(RunDecisions(l, Observed(calls), params)) == es
            <==> TimesAgree(r, whole, calls, params.compact, params.minPrefix) && ColdWritesUnderCap(es, params.coldCap)
    decreases calls
  {
    if calls != [] {
      var o, obs := calls[0], Observed(calls);
      var (l', d) := Decided(l, Clock(o.at), o.prompt, params);
      var (r', e) := ReplayCall(r, o, params.compact, params.minPrefix);
      var rest := ReplayRun(r', calls[1..], params.compact, params.minPrefix);
      ObservedCons(calls);
      StepMirrors(l, r, whole, o, params);
      DecidedFacts(l, Clock(o.at), o.prompt, params);
      UnderCapCons(e, rest, params.coldCap);
      EntriesCons(d, RunDecisions(l', obs[1..], params), e, rest);
      if EntryOf(d) == e {
        RunMirrorsFrom(l', r', Extended(whole, WholeGap(r, o.at)), calls[1..], params);
      }
    }
  }

  /**
   * The proxy's lane gives the replay's outcomes, call by call, exactly when
   * truncating the times changes no class and no tier and the replay passes
   * AC-4: every cold write is within the cap.
   */
  lemma RunMirrors(calls: seq<Call>, params: Params)
    requires TimeSorted(FRESH_LANE, calls) && AllFit(FRESH_LANE, calls, params.compact, params.minPrefix)
    ensures var es := ReplayRun(FRESH_LANE, calls, params.compact, params.minPrefix);
            var agree := TimesAgree(FRESH_LANE, [], calls, params.compact, params.minPrefix);
            Entries(RunDecisions(DEFAULT_LANE, Observed(calls), params)) == es
            <==> agree && ColdWritesUnderCap(es, params.coldCap)
  {
    RunMirrorsFrom(DEFAULT_LANE, FRESH_LANE, [], calls, params);
  }

  // ----- when truncation does no harm ---------------------------------------

  /** An exact gap and the gap on the proxy's clock lie on the same sides of five minutes and of an hour. */
  predicate SameSides(gap: nat, whole: u64) {
    && (gap < FIVE_MIN_S * TICKS <==> whole < FIVE_MIN_S)
    && (gap < ONE_HOUR_S * TICKS <==> whole < ONE_HOUR_S)
    && (gap <= ONE_HOUR_S * TICKS <==> whole <= ONE_HOUR_S)
  }

  /** No gap between two calls is moved across five minutes or an hour by truncating its ends. */
  predicate SidesKept(r: ReplayLane, calls: seq<Call>)
    requires TimeSorted(r, calls)
  {
    && (calls != [] && r.lastTs.Some? ==> SameSides(ReplayGap(r, calls[0].at).value, WholeGap(r, calls[0].at).value))
    && forall i :: 0 <= i < |calls| - 1 ==>
         SameSides(calls[i + 1].at - calls[i].at, Clock(calls[i + 1].at) - Clock(calls[i].at))
  }

  predicate AllSameSides(gaps: seq<nat>, whole: seq<u64>) {
    |gaps| == |whole| && forall i :: 0 <= i < |gaps| ==> SameSides(gaps[i], whole[i])
  }

  lemma {:induction false} SameBelow(a: seq<nat>, b: seq<nat>, t: nat, u: nat)
    requires |a| == |b| && forall i :: 0 <= i < |a| ==> (a[i] < t <==> b[i] < u)
    ensures Below(a, t) == Below(b, u)
  {
    if a != [] {
      SameBelow(a[1..], b[1..], t, u);
    }
  }

  lemma SameTail(gaps: seq<nat>, whole: seq<u64>)
    requires AllSameSides(gaps, whole)
    ensures AllSameSides(Last(FORECAST_WINDOW, gaps), Last(FORECAST_WINDOW, whole))
  {
    var a, b := Last(FORECAST_WINDOW, gaps), Last(FORECAST_WINDOW, whole);
    forall i | 0 <= i < |a| ensures SameSides(a[i], b[i]) {
      assert a[i] == gaps[|gaps| - |a| + i] && b[i] == whole[|gaps| - |a| + i];
    }
  }

  lemma SameCounts(a: seq<nat>, b: seq<u64>)
    requires AllSameSides(a, b)
    ensures Below(a, FIVE_MIN_S * TICKS) == Below(b, FIVE_MIN_S)
    ensures Below(a, ONE_HOUR_S * TICKS + 1) == Below(b, ONE_HOUR_S + 1)
  {
    forall i | 0 <= i < |a| ensures SameSides(a[i], b[i]) {
    }
    SameBelow(a, b, FIVE_MIN_S * TICKS, FIVE_MIN_S);
    SameBelow(a, b, ONE_HOUR_S * TICKS + 1, ONE_HOUR_S + 1);
  }

  lemma SameForecast(gaps: seq<nat>, whole: seq<u64>)
    requires AllSameSides(gaps, whole)
    ensures ReplayForecast(gaps) == ForecastTier(whole)
  {
    ForecastByCounting(gaps, FIVE_MIN_S * TICKS, ONE_HOUR_S * TICKS);
    ForecastByCounting(whole, FIVE_MIN_S, ONE_HOUR_S);
    SameTail(gaps, whole);
    SameCounts(Last(FORECAST_WINDOW, gaps), Last(FORECAST_WINDOW, whole));
  }

  predicate TierTtl(r: ReplayLane) {
    r.ttl == FIVE_MIN_S * TICKS || r.ttl == ONE_HOUR_S * TICKS
  }

  lemma SidesKeptStep(r: ReplayLane, whole: seq<u64>, o: Call)
    requires InOrder(r, o.at) && TierTtl(r) && AllSameSides(r.gaps, whole)
    requires r.lastTs.Some? ==> SameSides(ReplayGap(r, o.at).value, WholeGap(r, o.at).value)
    ensures ClassAgrees(r, o) && TierAgrees(r, whole, o)
    ensures AllSameSides(Extended(r.gaps, ReplayGap(r, o.at)), Extended(whole, WholeGap(r, o.at)))
  {
    SameForecast(Extended(r.gaps, ReplayGap(r, o.at)), Extended(whole, WholeGap(r, o.at)));
  }

  lemma SidesKeptTail(next: ReplayLane, r: ReplayLane, calls: seq<Call>)
    requires TimeSorted(r, calls) && SidesKept(r, calls) && calls != [] && next.lastTs == Some(calls[0].at)
    ensures TimeSorted(next, calls[1..]) && SidesKept(next, calls[1..])
  {
    if |calls| > 1 {
      assert SameSides(calls[0 + 1].at - calls[0].at, Clock(calls[0 + 1].at) - Clock(calls[0].at));
    }
  }

  /** Then truncation changes nothing, whatever the prompts. */
  lemma {:induction false} SidesKeptAgree(r: ReplayLane, whole: seq<u64>, calls: seq<Call>,
      compact: Fraction, minPrefix: nat)
    requires TimeSorted(r, calls) && r.c <= r.s && TierTtl(r)
    requires AllSameSides(r.gaps, whole) && SidesKept(r, calls)
    ensures TimesAgree(r, whole, calls, compact, minPrefix)
    decreases calls
  {
    if calls != [] {
      var o, next := calls[0], ReplayCall(r, calls[0], compact, minPrefix).0;
      SidesKeptStep(r, whole, o);
      SidesKeptTail(next, r, calls);
      SidesKeptAgree(next, Extended(whole, WholeGap(r, o.at)), calls[1..], compact, minPrefix);
    }
  }

  /** A gap between whole seconds is not moved at all. */
  lemma WholeSecondsKeepSides(calls: seq<Call>)
    requires TimeSorted(FRESH_LANE, calls) && forall i :: 0 <= i < |calls| ==> calls[i].at % TICKS == 0
    ensures SidesKept(FRESH_LANE, calls)
  {
    forall i | 0 <= i < |calls| - 1
      ensures SameSides(calls[i + 1].at - calls[i].at, Clock(calls[i + 1].at) - Clock(calls[i].at))
    {
      assert calls[i].at == Clock(calls[i].at) * TICKS && calls[i + 1].at == Clock(calls[i + 1].at) * TICKS;
    }
  }

  /** On such times the proxy mirrors the replay exactly when the replay passes AC-4. */
  lemma RunMirrorsUnharmed(calls: seq<Call>, params: Params)
    requires TimeSorted(FRESH_LANE, calls) && AllFit(FRESH_LANE, calls, params.compact, params.minPrefix)
    requires SidesKept(FRESH_LANE, calls)
    ensures var es := ReplayRun(FRESH_LANE, calls, params.compact, params.minPrefix);
            Entries(RunDecisions(DEFAULT_LANE, Observed(calls), params)) == es
            <==> ColdWritesUnderCap(es, params.coldCap)
  {
    RunMirrors(calls, params);
    SidesKeptAgree(FRESH_LANE, [], calls, params.compact, params.minPrefix);
  }

  // ----- two runs on which they part ----------------------------------------

  /** Two calls 299.2 seconds apart whose clocks show 0 and 300. */
  function FractionCalls(): (calls: seq<Call>)
    ensures TimeSorted(FRESH_LANE, calls)
  {
    [Call(900_000, 100), Call(300_100_000, 100)]
  }

  /** The lane between the two calls. */
  const FRACTION_LANE := ReplayLane(100, 100, 100, FIVE_MIN_S * TICKS, Some(900_000), [])

  lemma FirstFraction(compact: Fraction)
    requires compact == Factor(1, 1)
    ensures ReplayCall(FRESH_LANE, Call(900_000, 100), compact, 0) == (FRACTION_LANE, Entry(false, Ephemeral5m, 0, 100))
  {
    ScaledIsFloor(100, compact);
  }

  lemma SecondFraction(compact: Fraction)
    ensures ReplayCall(FRACTION_LANE, Call(300_100_000, 100), compact, 0).1 == Entry(true, Ephemeral5m, 100, 0)
    ensures !ClassAgrees(FRACTION_LANE, Call(300_100_000, 100))
  {
    OneGap(299_200_000);
  }

  lemma OneGap(gap: nat)
    ensures Extended([], Some(gap)) == [gap] && (gap < FIVE_MIN_S * TICKS ==> ReplayForecast([gap]) == Ephemeral5m)
  {
    assert Sorted([gap]) == [gap];
  }

  /** What the replay makes of them. */
  lemma FractionEntries(compact: Fraction)
    requires compact == Factor(1, 1)
    ensures ReplayRun(FRESH_LANE, FractionCalls(), compact, 0)
         == [Entry(false, Ephemeral5m, 0, 100), Entry(true, Ephemeral5m, 100, 0)]
  {
    var second := Call(300_100_000, 100);
    FirstFraction(compact);
    SecondFraction(compact);
    assert FractionCalls()[1..] == [second] && [second][1..] == [];
    assert ReplayRun(FRACTION_LANE, [second], compact, 0) == [Entry(true, Ephemeral5m, 100, 0)] + [];
  }

  lemma FractionTimes(compact: Fraction)
    requires compact == Factor(1, 1)
    ensures AllFit(FRESH_LANE, FractionCalls(), compact, 0) && !TimesAgree(FRESH_LANE, [], FractionCalls(), compact, 0)
  {
    var second := Call(300_100_000, 100);
    FirstFraction(compact);
    SecondFraction(compact);
    assert FractionCalls()[1..] == [second] && [second][1..] == [];
    assert AllFit(FRACTION_LANE, [second], compact, 0);
    assert !TimesAgree(FRACTION_LANE, [], [second], compact, 0);
  }

  /** The replay finds the lane warm and the proxy finds it dead, although no cold write is over the cap. */
  lemma FractionsPart()
    ensures var calls, params := FractionCalls(), Params(Factor(1, 1), 0, 200_000);
            && AllFit(FRESH_LANE, calls, params.compact, params.minPrefix)
            && var es := ReplayRun(FRESH_LANE, calls, params.compact, params.minPrefix);
               ColdWritesUnderCap(es, params.coldCap)
               && Entries(RunDecisions(DEFAULT_LANE, Observed(calls), params)) != es
  {
    FractionEntries(Factor(1, 1));
    FractionTimes(Factor(1, 1));
    RunMirrors(FractionCalls(), Params(Factor(1, 1), 0, 200_000));
  }

  /** One prompt of a million tokens: compaction to 278 parts in a thousand writes more than the cap. */
  lemma ColdWritePart()
    ensures var calls, params := [Call(0, 1_000_000)], Params(Factor(278, 1000), 0, 200_000);
            && AllFit(FRESH_LANE, calls, params.compact, params.minPrefix)
            && TimesAgree(FRESH_LANE, [], calls, params.compact, params.minPrefix)
            && ReplayRun(FRESH_LANE, calls, params.compact, params.minPrefix)[0].write == 278_000
            && RunDecisions(DEFAULT_LANE, Observed(calls), params)[0].expectedWrite == 200_000
  {
    var calls, params := [Call(0, 1_000_000)], Params(Factor(278, 1000), 0, 200_000);
    ScaledIsFloor(1_000_000, params.compact);
    assert calls[1..] == [];
    ObservedCons(calls);
    var d := Decided(DEFAULT_LANE, 0, 1_000_000, params).1;
    assert d.expectedWrite == 200_000;
    assert RunDecisions(DEFAULT_LANE, Observed(calls), params)[0] == d;
  }

  predicate ReplayBounded(r: ReplayLane, minPrefix: nat) {
    r.s <= r.pObs + minPrefix && (r.lastTs.None? ==> r.s == 0)
  }

  lemma ReplayGrownBound(r: ReplayLane, p: nat, minPrefix: nat)
    requires ReplayBounded(r, minPrefix)
    ensures ReplayGrown(r, p).s <= p + minPrefix
  {
    if r.lastTs.Some? && p < r.pObs {
      ShrunkBound(r.s, p, r.pObs, minPrefix);
    }
  }

  /** With a factor of at most 1 the replay fits as soon as the prompts do. */
  lemma {:induction false} BoundedRunsFit(r: ReplayLane, calls: seq<Call>, params: Params)
    requires TimeSorted(r, calls) && r.c <= r.s && ReplayBounded(r, params.minPrefix)
    requires AtMostOne(params.compact) && FitsU64(Observed(calls), params)
    ensures AllFit(r, calls, params.compact, params.minPrefix)
    decreases calls
  {
    if calls != [] {
      var g := ReplayGrown(r, calls[0].prompt).s;
      ReplayGrownBound(r, calls[0].prompt, params.minPrefix);
      ScaledBound(g, params.compact);
      ObservedCons(calls);
      BoundedRunsFit(ReplayCall(r, calls[0], params.compact, params.minPrefix).0, calls[1..], params);
    }
  }
}
