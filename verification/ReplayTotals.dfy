/**
 * The replay over the calls of many lanes at once, with its totals: each lane
 * is replayed as if its own calls were all there are.
 */
module ReplayTotals {
  import opened Wrappers
  import opened WritePolicy
  import opened Replay

  /** A session and a model. */
  datatype Key = Key(session: string, model: string)

  /** One call of a transcript: uncached input, the whole prompt, and the output. */
  datatype Record = Record(key: Key, at: Moment, inp: nat, prompt: u64, out: nat) {
    function Seen(): Call {
      Call(at, prompt)
    }
  }

  datatype Totals = Totals(calls: nat, inp: nat, cacheR: nat, cacheW5m: nat, cacheW1h: nat, out: nat) {
    /** What one call adds; its write counts for the tier it is made with. */
    function Plus(c: Record, e: Entry): Totals {
      Totals(calls + 1, inp + c.inp, cacheR + e.read,
             cacheW5m + (if e.tier.Ephemeral5m? then e.write else 0),
             cacheW1h + (if e.tier.Ephemeral5m? then 0 else e.write),
             out + c.out)
    }
  }

  const NONE := Totals(0, 0, 0, 0, 0, 0)

  predicate InTime(calls: seq<Record>) {
    forall i, j :: 0 <= i < j < |calls| ==> calls[i].at <= calls[j].at
  }

  // ----- the lanes ----------------------------------------------------------

  /** The lane of a key after the first `n` calls. */
  function LaneAt(calls: seq<Record>, key: Key, n: nat, compact: Fraction, minPrefix: nat): (l: ReplayLane)
    requires n <= |calls| && InTime(calls)
    ensures l.c <= l.s && (l.lastTs.Some? ==> n > 0 && l.lastTs.value <= calls[n - 1].at)
  {
    if n == 0 then FRESH_LANE
    else
      var l := LaneAt(calls, key, n - 1, compact, minPrefix);
      if calls[n - 1].key == key then ReplayCall(l, calls[n - 1].Seen(), compact, minPrefix).0 else l
  }

  /** What call `i` contributes: its lane, as the calls before it left it, replays it. */
  function EntryAt(calls: seq<Record>, i: nat, compact: Fraction, minPrefix: nat): Entry
    requires i < |calls| && InTime(calls)
  {
    ReplayCall(LaneAt(calls, calls[i].key, i, compact, minPrefix), calls[i].Seen(), compact, minPrefix).1
  }

  /** The calls of one key, in order. */
  function Own(calls: seq<Record>, key: Key, n: nat): (own: seq<Call>)
    requires n <= |calls| && InTime(calls)
    ensures TimeSorted(FRESH_LANE, own) && (own != [] ==> n > 0 && own[|own| - 1].at <= calls[n - 1].at)
  {
    if n == 0 then []
    else Own(calls, key, n - 1) + if calls[n - 1].key == key then [calls[n - 1].Seen()] else []
  }

  /** What the calls of one key contribute, in order. */
  function OwnEntries(calls: seq<Record>, key: Key, n: nat, compact: Fraction, minPrefix: nat): seq<Entry>
    requires n <= |calls| && InTime(calls)
  {
    if n == 0 then []
    else
      OwnEntries(calls, key, n - 1, compact, minPrefix)
      + if calls[n - 1].key == key then [EntryAt(calls, n - 1, compact, minPrefix)] else []
  }

  /** The lane a run of calls leaves. */
  function LaneAfter(l: ReplayLane, calls: seq<Call>, compact: Fraction, minPrefix: nat): (r: ReplayLane)
    requires TimeSorted(l, calls) && l.c <= l.s
    ensures r.c <= r.s && (calls == [] ==> r == l)
    ensures calls != [] ==> r.lastTs == Some(calls[|calls| - 1].at)
    decreases calls
  {
    if calls == [] then l
    else LaneAfter(ReplayCall(l, calls[0], compact, minPrefix).0, calls[1..], compact, minPrefix)
  }

  lemma SortedFront(l: ReplayLane, front: seq<Call>, last: Call)
    requires TimeSorted(l, front + [last])
    ensures TimeSorted(l, front)
  {
    assert forall i :: 0 <= i < |front| ==> (front + [last])[i] == front[i];
  }

  /** One more call: the lane replays it from where the calls before left it. */
  lemma {:induction false} ReplaySnoc(l: ReplayLane, front: seq<Call>, last: Call, compact: Fraction, minPrefix: nat)
    requires TimeSorted(l, front + [last]) && l.c <= l.s
    ensures TimeSorted(l, front) && InOrder(LaneAfter(l, front, compact, minPrefix), last.at)
    ensures var (next, e) := ReplayCall(LaneAfter(l, front, compact, minPrefix), last, compact, minPrefix);
      && LaneAfter(l, front + [last], compact, minPrefix) == next
      && ReplayRun(l, front + [last], compact, minPrefix) == ReplayRun(l, front, compact, minPrefix) + [e]
    decreases front
  {
    var all := front + [last];
    SortedFront(l, front, last);
    if front == [] {
      assert all == [last] && all[1..] == [];
    } else {
      var (next, e) := ReplayCall(l, front[0], compact, minPrefix);
      assert all[0] == front[0] && all[1..] == front[1..] + [last];
      ReplaySnoc(next, front[1..], last, compact, minPrefix);
      var f := ReplayCall(LaneAfter(next, front[1..], compact, minPrefix), last, compact, minPrefix).1;
      ConsSnoc(e, ReplayRun(next, front[1..], compact, minPrefix), f);
    }
  }

  lemma ConsSnoc(e: Entry, es: seq<Entry>, f: Entry)
    ensures [e] + (es + [f]) == [e] + es + [f]
  {
  }

  /** The lane of a key is where its own calls take a fresh one, and what they contribute is their replay. */
  ghost predicate Independent(calls: seq<Record>, key: Key, n: nat, compact: Fraction, minPrefix: nat)
    requires n <= |calls| && InTime(calls)
  {
    && LaneAt(calls, key, n, compact, minPrefix) == LaneAfter(FRESH_LANE, Own(calls, key, n), compact, minPrefix)
    && OwnEntries(calls, key, n, compact, minPrefix) == ReplayRun(FRESH_LANE, Own(calls, key, n), compact, minPrefix)
  }

  lemma OtherKeySteps(calls: seq<Record>, key: Key, n: nat, compact: Fraction, minPrefix: nat)
    requires n < |calls| && InTime(calls) && calls[n].key != key
    ensures Own(calls, key, n + 1) == Own(calls, key, n)
    ensures LaneAt(calls, key, n + 1, compact, minPrefix) == LaneAt(calls, key, n, compact, minPrefix)
    ensures OwnEntries(calls, key, n + 1, compact, minPrefix) == OwnEntries(calls, key, n, compact, minPrefix)
  {
  }

  lemma OwnKeySteps(calls: seq<Record>, key: Key, n: nat, compact: Fraction, minPrefix: nat)
    requires n < |calls| && InTime(calls) && calls[n].key == key
    requires Independent(calls, key, n, compact, minPrefix)
    ensures Independent(calls, key, n + 1, compact, minPrefix)
  {
    var own, c := Own(calls, key, n), calls[n].Seen();
    assert Own(calls, key, n + 1) == own + [c];
    ReplaySnoc(FRESH_LANE, own, c, compact, minPrefix);
    var (next, e) := ReplayCall(LaneAt(calls, key, n, compact, minPrefix), c, compact, minPrefix);
    assert LaneAt(calls, key, n + 1, compact, minPrefix) == next;
    assert OwnEntries(calls, key, n + 1, compact, minPrefix) == OwnEntries(calls, key, n, compact, minPrefix) + [e];
  }

  /** In the whole replay each lane goes its own way: as the replay of its calls alone. */
  lemma {:induction false} LanesAreIndependent(calls: seq<Record>, key: Key, n: nat, compact: Fraction, minPrefix: nat)
    requires n <= |calls| && InTime(calls)
    ensures Independent(calls, key, n, compact, minPrefix)
    decreases n
  {
    if n > 0 {
      LanesAreIndependent(calls, key, n - 1, compact, minPrefix);
      if calls[n - 1].key == key {
        OwnKeySteps(calls, key, n - 1, compact, minPrefix);
      } else {
        OtherKeySteps(calls, key, n - 1, compact, minPrefix);
      }
    }
  }

  // ----- the totals ---------------------------------------------------------

  /** What each call contributes. */
  function EntriesOf(calls: seq<Record>, compact: Fraction, minPrefix: nat): (es: seq<Entry>)
    requires InTime(calls)
    ensures |es| == |calls|
    ensures forall i :: 0 <= i < |calls| ==> es[i] == EntryAt(calls, i, compact, minPrefix)
  {
    seq(|calls|, i requires 0 <= i < |calls| => EntryAt(calls, i, compact, minPrefix))
  }

  /** The totals of the first `n` calls, of one model or of all. */
  function Tally(calls: seq<Record>, es: seq<Entry>, n: nat, model: Option<string>): Totals
    requires n <= |calls| == |es|
  {
    if n == 0 then NONE
    else
      var t := Tally(calls, es, n - 1, model);
      if model.None? || model.value == calls[n - 1].key.model then t.Plus(calls[n - 1], es[n - 1]) else t
  }

  function TotalsOf(calls: seq<Record>, model: Option<string>, compact: Fraction, minPrefix: nat): Totals
    requires InTime(calls)
  {
    Tally(calls, EntriesOf(calls, compact, minPrefix), |calls|, model)
  }

  function WarmCalls(es: seq<Entry>, n: nat): (w: nat)
    requires n <= |es|
    ensures w <= n
  {
    if n == 0 then 0 else WarmCalls(es, n - 1) + if es[n - 1].warm then 1 else 0
  }

  /** The cold writes, in the order of the calls. */
  function ColdWrites(es: seq<Entry>, n: nat): seq<nat>
    requires n <= |es|
  {
    if n == 0 then [] else ColdWrites(es, n - 1) + if es[n - 1].warm then [] else [es[n - 1].write]
  }

  /** A call counts once for its own model and for the whole, its write by its lifetime. */
  lemma TallyStep(calls: seq<Record>, es: seq<Entry>, i: nat, model: Option<string>)
    requires i < |calls| == |es|
    ensures var t, u, c, e := Tally(calls, es, i, model), Tally(calls, es, i + 1, model), calls[i], es[i];
            if model == None || model == Some(c.key.model) then
              && u.calls == t.calls + 1 && u.inp == t.inp + c.inp && u.out == t.out + c.out
              && u.cacheR == t.cacheR + e.read
              && u.cacheW1h == t.cacheW1h + (if e.tier == Ephemeral1h then e.write else 0)
              && u.cacheW5m == t.cacheW5m + (if e.tier == Ephemeral5m then e.write else 0)
            else u == t
    ensures Tally(calls, es, 0, model) == Totals(0, 0, 0, 0, 0, 0)
  {
  }

  function Sum(xs: seq<nat>, n: nat): nat
    requires n <= |xs|
  {
    if n == 0 then 0 else Sum(xs, n - 1) + xs[n - 1]
  }

  lemma {:induction false} TallyReadsAndWrites(calls: seq<Record>, es: seq<Entry>, committed: seq<nat>, n: nat)
    requires n <= |calls| == |es| == |committed|
    requires forall i :: 0 <= i < |es| ==> es[i].read + es[i].write == committed[i]
    ensures var t := Tally(calls, es, n, None);
            t.calls == n && t.cacheR + t.cacheW5m + t.cacheW1h == Sum(committed, n)
  {
    if n > 0 {
      TallyReadsAndWrites(calls, es, committed, n - 1);
    }
  }

  /** The prefix the lane of each call commits with it. */
  function Commits(calls: seq<Record>, compact: Fraction, minPrefix: nat): (r: seq<nat>)
    requires InTime(calls)
    ensures |r| == |calls|
    ensures forall i :: 0 <= i < |calls| ==> r[i] == LaneAt(calls, calls[i].key, i + 1, compact, minPrefix).c
  {
    seq(|calls|, i requires 0 <= i < |calls| => LaneAt(calls, calls[i].key, i + 1, compact, minPrefix).c)
  }

  lemma EntryCommits(calls: seq<Record>, i: nat, compact: Fraction, minPrefix: nat)
    requires i < |calls| && InTime(calls)
    ensures var e := EntryAt(calls, i, compact, minPrefix);
      e.read + e.write == LaneAt(calls, calls[i].key, i + 1, compact, minPrefix).c
  {
    var l := LaneAt(calls, calls[i].key, i, compact, minPrefix);
    assert LaneAt(calls, calls[i].key, i + 1, compact, minPrefix)
        == ReplayCall(l, calls[i].Seen(), compact, minPrefix).0;
  }

  /** Everything that is read or written is accounted for once: what the lanes committed, call by call. */
  lemma TotalsAccount(calls: seq<Record>, compact: Fraction, minPrefix: nat)
    requires InTime(calls)
    ensures var t := TotalsOf(calls, None, compact, minPrefix);
            && t.calls == |calls|
            && t.cacheR + t.cacheW5m + t.cacheW1h == Sum(Commits(calls, compact, minPrefix), |calls|)
  {
    var es, committed := EntriesOf(calls, compact, minPrefix), Commits(calls, compact, minPrefix);
    forall i | 0 <= i < |es| ensures es[i].read + es[i].write == committed[i] {
      EntryCommits(calls, i, compact, minPrefix);
    }
    TallyReadsAndWrites(calls, es, committed, |calls|);
  }

  /** The writes of the calls that are no warm ones. */
  function ColdSum(es: seq<Entry>, n: nat): nat
    requires n <= |es|
  {
    if n == 0 then 0 else ColdSum(es, n - 1) + if es[n - 1].warm then 0 else es[n - 1].write
  }

  /** Every call is warm or a cold write, and the cold writes are the writes of the others. */
  lemma {:induction false} WarmOrCold(es: seq<Entry>, n: nat)
    requires n <= |es|
    ensures WarmCalls(es, n) + |ColdWrites(es, n)| == n
    ensures Sum(ColdWrites(es, n), |ColdWrites(es, n)|) == ColdSum(es, n)
  {
    if n > 0 {
      WarmOrCold(es, n - 1);
      if es[n - 1].warm {
        assert ColdWrites(es, n) == ColdWrites(es, n - 1);
      } else {
        SumSnoc(ColdWrites(es, n - 1), es[n - 1].write);
      }
    }
  }

  lemma SumSnoc(xs: seq<nat>, x: nat)
    ensures Sum(xs + [x], |xs| + 1) == Sum(xs, |xs|) + x
  {
    SumFront(xs, x, |xs|);
  }

  lemma {:induction false} SumFront(xs: seq<nat>, x: nat, n: nat)
    requires n <= |xs|
    ensures Sum(xs + [x], n) == Sum(xs, n)
  {
    if n > 0 {
      SumFront(xs, x, n - 1);
    }
  }

  // ----- the totals by model ------------------------------------------------

  function Add(t: Totals, u: Totals): Totals {
    Totals(t.calls + u.calls, t.inp + u.inp, t.cacheR + u.cacheR, t.cacheW5m + u.cacheW5m, t.cacheW1h + u.cacheW1h,
           t.out + u.out)
  }

  /** The sum of the totals of the models. */
  function AddedUp(calls: seq<Record>, es: seq<Entry>, n: nat, models: seq<string>): Totals
    requires n <= |calls| == |es|
    decreases models
  {
    if models == [] then NONE
    else Add(Tally(calls, es, n, Some(models[0])), AddedUp(calls, es, n, models[1..]))
  }

  predicate Distinct(models: seq<string>) {
    forall i, j :: 0 <= i < j < |models| ==> models[i] != models[j]
  }

  lemma {:induction false} AddedNone(calls: seq<Record>, es: seq<Entry>, models: seq<string>)
    requires |calls| == |es|
    ensures AddedUp(calls, es, 0, models) == NONE
  {
    if models != [] {
      assert Tally(calls, es, 0, Some(models[0])) == NONE;
      AddedNone(calls, es, models[1..]);
    }
  }

  /** A call counts for the one model it was made with, if that is among them. */
  lemma {:induction false} AddedStep(calls: seq<Record>, es: seq<Entry>, i: nat, models: seq<string>)
    requires i < |calls| == |es| && Distinct(models)
    ensures AddedUp(calls, es, i + 1, models) ==
      if calls[i].key.model in models then AddedUp(calls, es, i, models).Plus(calls[i], es[i])
      else AddedUp(calls, es, i, models)
    decreases models
  {
    if models != [] {
      assert models == [models[0]] + models[1..];
      AddedStep(calls, es, i, models[1..]);
    }
  }

  /** The totals of the models add up to the totals. */
  lemma {:induction false} ModelsAddUp(calls: seq<Record>, es: seq<Entry>, n: nat, models: seq<string>)
    requires n <= |calls| == |es| && Distinct(models)
    requires forall i :: 0 <= i < n ==> calls[i].key.model in models
    ensures AddedUp(calls, es, n, models) == Tally(calls, es, n, None)
    decreases n
  {
    if n == 0 {
      AddedNone(calls, es, models);
    } else {
      ModelsAddUp(calls, es, n - 1, models);
      AddedStep(calls, es, n - 1, models);
    }
  }

  // ----- the loop -----------------------------------------------------------

  function LaneOr(lanes: map<Key, ReplayLane>, key: Key): ReplayLane {
    if key in lanes then lanes[key] else FRESH_LANE
  }

  function TotalsOr(perModel: map<string, Totals>, model: string): Totals {
    if model in perModel then perModel[model] else NONE
  }

  /** The dictionary holds the totals of every model. */
  ghost predicate TallyIs(perModel: map<string, Totals>, calls: seq<Record>, es: seq<Entry>, n: nat)
    requires n <= |calls| == |es|
  {
    forall model: string :: TotalsOr(perModel, model) == Tally(calls, es, n, Some(model))
  }

  /** The loop over the calls, with a dictionary of lanes and running totals. */
  method ReplayAnthropic(calls: seq<Record>, compact: Fraction, minPrefix: nat)
    returns (lanes: map<Key, ReplayLane>, sim: Totals, perModel: map<string, Totals>, warm: nat, dead: nat,
             coldWrites: seq<nat>)
    requires InTime(calls)
    ensures forall key :: LaneOr(lanes, key) == LaneAt(calls, key, |calls|, compact, minPrefix)
    ensures sim == TotalsOf(calls, None, compact, minPrefix)
    ensures forall model :: TotalsOr(perModel, model) == TotalsOf(calls, Some(model), compact, minPrefix)
    ensures warm == WarmCalls(EntriesOf(calls, compact, minPrefix), |calls|) && warm + dead == |calls|
    ensures coldWrites == ColdWrites(EntriesOf(calls, compact, minPrefix), |calls|)
  {
    ghost var es := EntriesOf(calls, compact, minPrefix);
    lanes, sim, perModel, warm, dead, coldWrites := map[], NONE, map[], 0, 0, [];
    for i := 0 to |calls|
      invariant forall key :: LaneOr(lanes, key) == LaneAt(calls, key, i, compact, minPrefix)
      invariant sim == Tally(calls, es, i, None)
      invariant TallyIs(perModel, calls, es, i)
      invariant warm == WarmCalls(es, i) && warm + dead == i
      invariant coldWrites == ColdWrites(es, i)
    {
      var c := calls[i];
      var lane := if c.key in lanes then lanes[c.key] else FRESH_LANE;
      assert lane == LaneOr(lanes, c.key) == LaneAt(calls, c.key, i, compact, minPrefix);
      var (next, entry) := ReplayCall(lane, c.Seen(), compact, minPrefix);
      ghost var lanes0, perModel0 := lanes, perModel;
      lanes := lanes[c.key := next];
      sim := sim.Plus(c, entry);
      var stats := if c.key.model in perModel then perModel[c.key.model] else NONE;
      assert stats == TotalsOr(perModel, c.key.model);
      perModel := perModel[c.key.model := stats.Plus(c, entry)];
      if entry.warm {
        warm := warm + 1;
      } else {
        dead, coldWrites := dead + 1, coldWrites + [entry.write];
      }
      assert entry == es[i];
      LanesStep(calls, i, lanes0, lanes, next, compact, minPrefix);
      ModelsStep(calls, es, i, perModel0, perModel, stats.Plus(c, entry));
    }
    assert TallyIs(perModel, calls, es, |calls|);
  }

  lemma LanesStep(calls: seq<Record>, i: nat, lanes: map<Key, ReplayLane>, after: map<Key, ReplayLane>,
      next: ReplayLane, compact: Fraction, minPrefix: nat)
    requires i < |calls| && InTime(calls) && after == lanes[calls[i].key := next]
    requires forall key :: LaneOr(lanes, key) == LaneAt(calls, key, i, compact, minPrefix)
    requires var l := LaneAt(calls, calls[i].key, i, compact, minPrefix);
             next == ReplayCall(l, calls[i].Seen(), compact, minPrefix).0
    ensures forall key :: LaneOr(after, key) == LaneAt(calls, key, i + 1, compact, minPrefix)
  {
    forall key ensures LaneOr(after, key) == LaneAt(calls, key, i + 1, compact, minPrefix) {
      assert key != calls[i].key ==> LaneOr(after, key) == LaneOr(lanes, key);
    }
  }

  lemma ModelsStep(calls: seq<Record>, es: seq<Entry>, i: nat, perModel: map<string, Totals>,
      after: map<string, Totals>, u: Totals)
    requires i < |calls| == |es| && after == perModel[calls[i].key.model := u]
    requires u == TotalsOr(perModel, calls[i].key.model).Plus(calls[i], es[i])
    requires TallyIs(perModel, calls, es, i)
    ensures TallyIs(after, calls, es, i + 1)
  {
    forall model: string ensures TotalsOr(after, model) == Tally(calls, es, i + 1, Some(model)) {
      ModelStep(calls, es, i, perModel, after, u, model);
    }
  }

  lemma ModelStep(calls: seq<Record>, es: seq<Entry>, i: nat, perModel: map<string, Totals>,
      after: map<string, Totals>, u: Totals, model: string)
    requires i < |calls| == |es| && after == perModel[calls[i].key.model := u]
    requires u == TotalsOr(perModel, calls[i].key.model).Plus(calls[i], es[i])
    requires TotalsOr(perModel, model) == Tally(calls, es, i, Some(model))
    ensures TotalsOr(after, model) == Tally(calls, es, i + 1, Some(model))
  {
    if model != calls[i].key.model {
      assert TotalsOr(after, model) == TotalsOr(perModel, model);
    }
  }
}
