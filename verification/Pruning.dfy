/**
 * Removing adjacent pairs from a list of indices, oldest first, never touching
 * the first index or the last: the bare combinatorics of tier B.
 */
module PairRemoval {
  import opened Wrappers

  /** Do these two form a pair when they are next to each other? */
  type Pairs = (nat, nat) -> bool

  /** Does what is left fit? */
  type Fits = seq<nat> -> bool

  predicate Indices(keep: seq<nat>, n: nat) {
    && (forall i :: 0 <= i < |keep| ==> keep[i] < n)
    && (forall i, j :: 0 <= i < j < |keep| ==> keep[i] < keep[j])
  }

  function All(n: nat): (r: seq<nat>)
    ensures Indices(r, n) && |r| == n
    ensures forall i :: 0 <= i < n ==> r[i] == i
  {
    seq(n, i => i)
  }

  /** `s` without positions `i` and `i + 1`. */
  function WithoutPair<T>(s: seq<T>, i: nat): (r: seq<T>)
    requires i + 1 < |s|
    ensures |r| == |s| - 2
    ensures forall j :: 0 <= j < |r| ==> r[j] == if j < i then s[j] else s[j + 2]
  {
    s[..i] + s[i + 2..]
  }

  predicate PairAt(pairs: Pairs, keep: seq<nat>, j: nat) {
    j + 1 < |keep| && pairs(keep[j], keep[j + 1])
  }

  /** The first pair from position `i` on that leaves the last element alone. */
  function FirstPair(pairs: Pairs, keep: seq<nat>, i: nat): (r: Option<nat>)
    ensures r.Some? ==> i <= r.value && r.value + 2 < |keep| && PairAt(pairs, keep, r.value)
    ensures r.Some? ==> forall j :: i <= j < r.value ==> !PairAt(pairs, keep, j)
    ensures r.None? ==> forall j :: i <= j && j + 2 < |keep| ==> !PairAt(pairs, keep, j)
    decreases |keep| - i
  {
    if i + 2 >= |keep| then None
    else if PairAt(pairs, keep, i) then Some(i)
    else FirstPair(pairs, keep, i + 1)
  }

  lemma SameFirstPair(p: Pairs, a: seq<nat>, q: Pairs, b: seq<nat>, i: nat)
    requires |a| == |b| && forall j: nat :: j < |a| - 1 ==> PairAt(p, a, j) == PairAt(q, b, j)
    ensures FirstPair(p, a, i) == FirstPair(q, b, i)
  {
  }

  /** The indices left when the loop stops. */
  function Survivors(pairs: Pairs, fits: Fits, keep: seq<nat>): seq<nat>
    decreases |keep|
  {
    if fits(keep) || FirstPair(pairs, keep, 1).None? then keep
    else Survivors(pairs, fits, WithoutPair(keep, FirstPair(pairs, keep, 1).value))
  }

  /** Whatever every removal keeps, the loop keeps. */
  lemma {:induction false} SurvivorsKeep(pairs: Pairs, fits: Fits, keep: seq<nat>, inv: seq<nat> -> bool)
    requires inv(keep)
    requires forall s: seq<nat>, i: nat ::
      inv(s) && 0 < i && i + 2 < |s| && pairs(s[i], s[i + 1]) ==> inv(WithoutPair(s, i))
    ensures inv(Survivors(pairs, fits, keep))
    decreases |keep|
  {
    if !fits(keep) && FirstPair(pairs, keep, 1).Some? {
      SurvivorsKeep(pairs, fits, WithoutPair(keep, FirstPair(pairs, keep, 1).value), inv);
    }
  }

  predicate SameEnds(r: seq<nat>, keep: seq<nat>, n: nat) {
    && Indices(r, n) && |r| <= |keep| && (|keep| - |r|) % 2 == 0
    && (keep != [] ==> r != [] && r[0] == keep[0] && r[|r| - 1] == keep[|keep| - 1])
  }

  lemma SameEndsStep(s: seq<nat>, keep: seq<nat>, n: nat, i: nat)
    requires SameEnds(s, keep, n) && 0 < i && i + 2 < |s|
    ensures SameEnds(WithoutPair(s, i), keep, n)
  {
    var r := WithoutPair(s, i);
    assert r[0] == s[0] && r[|r| - 1] == s[|s| - 1];
    assert (|keep| - |r|) == (|keep| - |s|) + 2;
  }

  /** The ends stay, the order stays, and an even number goes. */
  lemma SurvivorsFacts(pairs: Pairs, fits: Fits, keep: seq<nat>, n: nat)
    requires Indices(keep, n)
    ensures SameEnds(Survivors(pairs, fits, keep), keep, n)
  {
    forall s: seq<nat>, i: nat | SameEnds(s, keep, n) && 0 < i && i + 2 < |s| && pairs(s[i], s[i + 1])
      ensures SameEnds(WithoutPair(s, i), keep, n)
    {
      SameEndsStep(s, keep, n, i);
    }
    SurvivorsKeep(pairs, fits, keep, (s: seq<nat>) => SameEnds(s, keep, n));
  }

  /** The loop stops only when it must. */
  lemma {:induction false} SurvivorsStop(pairs: Pairs, fits: Fits, keep: seq<nat>)
    ensures var r := Survivors(pairs, fits, keep);
            fits(r) || FirstPair(pairs, r, 1).None?
    decreases |keep|
  {
    if !fits(keep) && FirstPair(pairs, keep, 1).Some? {
      SurvivorsStop(pairs, fits, WithoutPair(keep, FirstPair(pairs, keep, 1).value));
    }
  }

  lemma {:induction false} Gone(pairs: Pairs, fits: Fits, keep: seq<nat>, k: nat)
    requires k !in keep
    ensures k !in Survivors(pairs, fits, keep)
    decreases |keep|
  {
    if !fits(keep) && FirstPair(pairs, keep, 1).Some? {
      Gone(pairs, fits, WithoutPair(keep, FirstPair(pairs, keep, 1).value), k);
    }
  }

  /** No element can both end one pair and start another. */
  ghost predicate Alternating(pairs: Pairs) {
    forall a, b, c :: !(pairs(a, b) && pairs(b, c))
  }

  /** A pair at positions `p`, `p + 1` stays together or goes together. */
  lemma {:induction false} PairGoesTogether(pairs: Pairs, fits: Fits, keep: seq<nat>, n: nat, p: nat)
    requires Alternating(pairs) && Indices(keep, n)
    requires p + 1 < |keep| && pairs(keep[p], keep[p + 1])
    ensures var r := Survivors(pairs, fits, keep);
            keep[p] in r || keep[p + 1] in r ==>
              exists q :: 0 <= q < |r| - 1 && r[q] == keep[p] && r[q + 1] == keep[p + 1]
    ensures p == 0 || p + 2 == |keep| ==> keep[p] in Survivors(pairs, fits, keep)
    decreases |keep|
  {
    if !fits(keep) && FirstPair(pairs, keep, 1).Some? {
      var i := FirstPair(pairs, keep, 1).value;
      var next := WithoutPair(keep, i);
      assert i != p + 1 && i + 1 != p;
      if i == p {
        assert keep[p] !in next && keep[p + 1] !in next;
        Gone(pairs, fits, next, keep[p]);
        Gone(pairs, fits, next, keep[p + 1]);
      } else {
        var p' := if p < i then p else p - 2;
        assert next[p'] == keep[p] && next[p' + 1] == keep[p + 1];
        PairGoesTogether(pairs, fits, next, n, p');
      }
    }
  }

  predicate KeptWith(pairs: Pairs, fits: Fits, n: nat, k: nat) {
    k in Survivors(pairs, fits, All(n)) && k + 1 in Survivors(pairs, fits, All(n))
  }

  lemma KeptAtEnds(pairs: Pairs, fits: Fits, n: nat, k: nat)
    requires Alternating(pairs) && k + 1 < n && pairs(k, k + 1) && (k == 0 || k + 2 == n)
    ensures KeptWith(pairs, fits, n, k)
  {
    PairGoesTogether(pairs, fits, All(n), n, k);
  }

  lemma GoneInside(pairs: Pairs, fits: Fits, n: nat, k: nat)
    requires Alternating(pairs) && k + 1 < n && pairs(k, k + 1) && k != 0 && k + 2 != n
    requires forall keep :: !fits(keep)
    ensures k !in Survivors(pairs, fits, All(n)) && k + 1 !in Survivors(pairs, fits, All(n))
  {
    var r := Survivors(pairs, fits, All(n));
    SurvivorsFacts(pairs, fits, All(n), n);
    SurvivorsStop(pairs, fits, All(n));
    PairGoesTogether(pairs, fits, All(n), n, k);
    if k in r || k + 1 in r {
      var q :| 0 <= q < |r| - 1 && r[q] == k && r[q + 1] == k + 1;
      assert PairAt(pairs, r, q);
    }
  }
}

/**
 * Soft cap, tier B: the oldest tool_use / tool_result message pairs go as a
 * unit, until the serialized body fits.
 */
module Pruning {
  import opened Wrappers
  import opened Json
  import opened Messages
  import opened Ejection
  import opened PairRemoval

  predicate HasToolUse(m: Json) {
    Blocks(m).Some? && exists b :: b in Blocks(m).value && IsToolUse(b)
  }

  /** An assistant message that calls, and a user message that only answers. */
  predicate IsPair(a: Json, b: Json) {
    IsAssistant(a) && HasToolUse(a) && IsUser(b) && OnlyToolResults(b)
  }

  function PairsOf(ms: seq<Json>): Pairs {
    (i: nat, j: nat) => i < |ms| && j < |ms| && IsPair(ms[i], ms[j])
  }

  function Select(ms: seq<Json>, keep: seq<nat>): (r: seq<Json>)
    requires Indices(keep, |ms|)
    ensures |r| == |keep|
    ensures forall i :: 0 <= i < |keep| ==> r[i] == ms[keep[i]]
  {
    seq(|keep|, i requires 0 <= i < |keep| => ms[keep[i]])
  }

  /** Does the request `v` fit the cap with these of its messages? */
  function FitsCap(v: Json, ms: seq<Json>, cap: nat): Fits {
    (keep: seq<nat>) => Indices(keep, |ms|) && BodySize(v, Select(ms, keep)) <= cap
  }

  /** The indices of the messages tier B leaves. */
  function Left(v: Json, ms: seq<Json>, cap: nat): (r: seq<nat>)
    ensures SameEnds(r, All(|ms|), |ms|)
  {
    SurvivorsFacts(PairsOf(ms), FitsCap(v, ms, cap), All(|ms|), |ms|);
    Survivors(PairsOf(ms), FitsCap(v, ms, cap), All(|ms|))
  }

  function TierB(v: Json, ms: seq<Json>, cap: nat): seq<Json> {
    Select(ms, Left(v, ms, cap))
  }

  lemma SelectWithoutPair(ms: seq<Json>, keep: seq<nat>, i: nat)
    requires Indices(keep, |ms|) && i + 1 < |keep|
    ensures Select(ms, WithoutPair(keep, i)) == WithoutPair(Select(ms, keep), i)
  {
  }

  // ----- two-sided pairing --------------------------------------------------

  function ResultIds(m: Json): set<string> {
    if Blocks(m).None? then {}
    else set b | b in Blocks(m).value && IsToolResult(b) && ResultId(b).Some? :: ResultId(b).value
  }

  /** Calls only in assistant messages, results only in user messages. */
  predicate RoleShaped(m: Json) {
    Blocks(m).Some? ==> forall b :: b in Blocks(m).value ==>
      (IsToolUse(b) ==> IsAssistant(m)) && (IsToolResult(b) ==> IsUser(m))
  }

  /** Every call is answered in `next`. */
  predicate CallsAnswered(m: Json, next: Json) {
    Blocks(m).Some? ==> forall b :: b in Blocks(m).value && IsToolUse(b) ==>
      UseId(b).Some? && UseId(b).value in ResultIds(next)
  }

  /** Every result answers a call of the message before; every call but the last message's is answered in the next. */
  predicate TwoSided(ms: seq<Json>) {
    && (forall i :: 0 <= i < |ms| ==> RoleShaped(ms[i]))
    && ResultsPaired(ms)
    && (forall i :: 0 <= i < |ms| - 1 ==> CallsAnswered(ms[i], ms[i + 1]))
  }

  lemma NoCallsInUser(m: Json)
    requires RoleShaped(m) && IsUser(m)
    ensures ToolUseIds(m) == {} && !HasToolUse(m)
  {
  }

  lemma NoResultsInAssistant(m: Json)
    requires RoleShaped(m) && IsAssistant(m)
    ensures ResultIds(m) == {}
  {
  }

  /** After the pair: message `i + 2` answers nothing, and message `i - 1` calls nothing. */
  lemma PairIsClosed(ms: seq<Json>, i: nat)
    requires TwoSided(ms) && 0 < i && i + 2 < |ms| && IsPair(ms[i], ms[i + 1])
    ensures MessageAnswers(ms[i + 2], ToolUseIds(ms[i - 1]))
    ensures CallsAnswered(ms[i - 1], ms[i + 2])
  {
    assert RoleShaped(ms[i]) && RoleShaped(ms[i + 1]);
    NoCallsInUser(ms[i + 1]);
    NoResultsInAssistant(ms[i]);
    assert MessageAnswers(ms[i + 2], IdsBefore({}, ms, i + 2));
    assert CallsAnswered(ms[i - 1], ms[i - 1 + 1]);
  }

  lemma PrunedAnswers(ms: seq<Json>, i: nat, j: nat)
    requires 0 < i && i + 2 < |ms| && j < |ms| - 2
    requires j < i ==> MessageAnswers(ms[j], IdsBefore({}, ms, j))
    requires j == i ==> MessageAnswers(ms[j + 2], ToolUseIds(ms[i - 1]))
    requires j > i ==> MessageAnswers(ms[j + 2], IdsBefore({}, ms, j + 2))
    ensures MessageAnswers(WithoutPair(ms, i)[j], IdsBefore({}, WithoutPair(ms, i), j))
  {
    var out := WithoutPair(ms, i);
    var k := if j < i then j else j + 2;
    assert out[j] == ms[k];
    if j > i {
      assert IdsBefore({}, out, j) == IdsBefore({}, ms, k);
    } else if j == i {
      assert IdsBefore({}, out, j) == ToolUseIds(ms[i - 1]);
    } else {
      assert IdsBefore({}, out, j) == IdsBefore({}, ms, j);
    }
  }

  lemma PruneKeepsResults(ms: seq<Json>, i: nat)
    requires ResultsPaired(ms) && 0 < i && i + 2 < |ms|
    requires MessageAnswers(ms[i + 2], ToolUseIds(ms[i - 1]))
    ensures ResultsPaired(WithoutPair(ms, i))
  {
    forall j | 0 <= j < |ms| - 2
      ensures MessageAnswers(WithoutPair(ms, i)[j], IdsBefore({}, WithoutPair(ms, i), j))
    {
      PrunedAnswers(ms, i, j);
    }
  }

  /** Removing such a pair keeps the request two-sided. */
  lemma PruneKeepsPairing(ms: seq<Json>, i: nat)
    requires TwoSided(ms) && 0 < i && i + 2 < |ms| && IsPair(ms[i], ms[i + 1])
    ensures TwoSided(WithoutPair(ms, i))
  {
    PairIsClosed(ms, i);
    PruneKeepsResults(ms, i);
    var out := WithoutPair(ms, i);
    forall j | 0 <= j < |out| - 1 ensures CallsAnswered(out[j], out[j + 1]) {
      var k := if j < i then j else j + 2;
      assert CallsAnswered(ms[k], ms[k + 1]);
    }
  }

  predicate StaysTwoSided(ms: seq<Json>, keep: seq<nat>) {
    Indices(keep, |ms|) && TwoSided(Select(ms, keep))
  }

  lemma IndicesWithout(keep: seq<nat>, n: nat, i: nat)
    requires Indices(keep, n) && i + 1 < |keep|
    ensures Indices(WithoutPair(keep, i), n)
  {
  }

  lemma PruneStays(ms: seq<Json>, keep: seq<nat>, i: nat)
    requires Indices(keep, |ms|) && TwoSided(Select(ms, keep))
    requires 0 < i && i + 2 < |keep| && IsPair(ms[keep[i]], ms[keep[i + 1]])
    ensures StaysTwoSided(ms, WithoutPair(keep, i))
  {
    var now := Select(ms, keep);
    IndicesWithout(keep, |ms|, i);
    PruneKeepsPairing(now, i);
    var next := Select(ms, WithoutPair(keep, i));
    assert next == WithoutPair(now, i) by {
      SelectWithoutPair(ms, keep, i);
    }
    assert TwoSided(next);
  }

  /** The whole loop keeps two-sided pairing. */
  lemma SurvivorsPaired(ms: seq<Json>, fits: Fits, keep: seq<nat>)
    requires StaysTwoSided(ms, keep)
    ensures StaysTwoSided(ms, Survivors(PairsOf(ms), fits, keep))
  {
    forall s: seq<nat>, i: nat | StaysTwoSided(ms, s) && 0 < i && i + 2 < |s| && PairsOf(ms)(s[i], s[i + 1])
      ensures StaysTwoSided(ms, WithoutPair(s, i))
    {
      PruneStays(ms, s, i);
    }
    SurvivorsKeep(PairsOf(ms), fits, keep, (s: seq<nat>) => StaysTwoSided(ms, s));
  }

  /** The answering message of a pair calls nothing, so the message after it answers nothing. */
  lemma PairIsClosedBelow(ms: seq<Json>, i: nat)
    requires ResultsPaired(ms) && 0 < i && i + 2 < |ms| && IsPair(ms[i], ms[i + 1])
    ensures MessageAnswers(ms[i + 2], ToolUseIds(ms[i - 1]))
  {
    assert ToolUseIds(ms[i + 1]) == {};
    assert MessageAnswers(ms[i + 2], IdsBefore({}, ms, i + 2));
  }

  predicate StaysPaired(ms: seq<Json>, keep: seq<nat>) {
    Indices(keep, |ms|) && ResultsPaired(Select(ms, keep))
  }

  lemma PruneStaysPaired(ms: seq<Json>, keep: seq<nat>, i: nat)
    requires StaysPaired(ms, keep)
    requires 0 < i && i + 2 < |keep| && IsPair(ms[keep[i]], ms[keep[i + 1]])
    ensures StaysPaired(ms, WithoutPair(keep, i))
  {
    IndicesWithout(keep, |ms|, i);
    PairIsClosedBelow(Select(ms, keep), i);
    PruneKeepsResults(Select(ms, keep), i);
    SelectWithoutPair(ms, keep, i);
  }

  /** Tier B orphans no result, whatever the roles and the calls. */
  lemma TierBResults(v: Json, ms: seq<Json>, cap: nat)
    requires ResultsPaired(ms)
    ensures ResultsPaired(TierB(v, ms, cap))
  {
    SelectAll(ms);
    forall s: seq<nat>, i: nat | StaysPaired(ms, s) && 0 < i && i + 2 < |s| && PairsOf(ms)(s[i], s[i + 1])
      ensures StaysPaired(ms, WithoutPair(s, i))
    {
      PruneStaysPaired(ms, s, i);
    }
    SurvivorsKeep(PairsOf(ms), FitsCap(v, ms, cap), All(|ms|), (s: seq<nat>) => StaysPaired(ms, s));
  }

  lemma SelectAll(ms: seq<Json>)
    ensures Select(ms, All(|ms|)) == ms
  {
  }

  /** Tier B keeps two-sided pairing. */
  lemma TierBPairing(v: Json, ms: seq<Json>, cap: nat)
    requires TwoSided(ms)
    ensures TwoSided(TierB(v, ms, cap))
  {
    SelectAll(ms);
    SurvivorsPaired(ms, FitsCap(v, ms, cap), All(|ms|));
  }

  /** The first and the last message are there, and messages are missing two at a time. */
  predicate EndsStay(ms: seq<Json>, out: seq<Json>) {
    && |out| <= |ms| && (|ms| - |out|) % 2 == 0
    && (ms != [] ==> out != [] && out[0] == ms[0] && out[|out| - 1] == ms[|ms| - 1])
  }

  lemma SelectEnds(ms: seq<Json>, keep: seq<nat>)
    requires SameEnds(keep, All(|ms|), |ms|)
    ensures EndsStay(ms, Select(ms, keep))
  {
  }

  /** Tier B keeps message 0 and the last message, and messages go two at a time. */
  lemma TierBEnds(v: Json, ms: seq<Json>, cap: nat)
    ensures EndsStay(ms, TierB(v, ms, cap))
  {
    SelectEnds(ms, Left(v, ms, cap));
  }

  // ----- size ---------------------------------------------------------------

  lemma PruneShrinks(v: Json, ms: seq<Json>, i: nat)
    requires Get(v, "messages").Some? && i + 2 < |ms|
    ensures BodySize(v, WithoutPair(ms, i)) < BodySize(v, ms)
  {
    var out := WithoutPair(ms, i);
    assert ms == ms[..i] + ms[i..i + 2] + ms[i + 2..];
    ItemsSizeConcat(ms[..i] + ms[i..i + 2], ms[i + 2..]);
    ItemsSizeConcat(ms[..i], ms[i..i + 2]);
    ItemsSizeConcat(ms[..i], ms[i + 2..]);
    BodySizeDiffers(v, out, ms);
  }

  predicate NoLarger(v: Json, ms: seq<Json>, keep: seq<nat>, size: nat) {
    Indices(keep, |ms|) && BodySize(v, Select(ms, keep)) <= size
  }

  lemma SurvivorsShrink(v: Json, ms: seq<Json>, fits: Fits)
    requires Get(v, "messages").Some?
    ensures NoLarger(v, ms, Survivors(PairsOf(ms), fits, All(|ms|)), BodySize(v, ms))
  {
    var size := BodySize(v, ms);
    SelectAll(ms);
    forall s: seq<nat>, i: nat | NoLarger(v, ms, s, size) && 0 < i && i + 2 < |s| && PairsOf(ms)(s[i], s[i + 1])
      ensures NoLarger(v, ms, WithoutPair(s, i), size)
    {
      SelectWithoutPair(ms, s, i);
      PruneShrinks(v, Select(ms, s), i);
    }
    SurvivorsKeep(PairsOf(ms), fits, All(|ms|), (s: seq<nat>) => NoLarger(v, ms, s, size));
  }

  /** Tier B stops over the cap only when no prunable pair is left. */
  lemma NoPairLeft(v: Json, ms: seq<Json>, cap: nat)
    requires BodySize(v, TierB(v, ms, cap)) > cap
    ensures var out := TierB(v, ms, cap);
            forall i :: 0 < i && i + 2 < |out| ==> !IsPair(out[i], out[i + 1])
  {
    var keep, out := Left(v, ms, cap), TierB(v, ms, cap);
    SurvivorsStop(PairsOf(ms), FitsCap(v, ms, cap), All(|ms|));
    forall i | 0 < i && i + 2 < |out| ensures !IsPair(out[i], out[i + 1]) {
      assert !PairAt(PairsOf(ms), keep, i);
    }
  }

  /** Tier B never grows the body. */
  lemma TierBSize(v: Json, ms: seq<Json>, cap: nat)
    requires Get(v, "messages").Some?
    ensures BodySize(v, TierB(v, ms, cap)) <= BodySize(v, ms)
  {
    SurvivorsShrink(v, ms, FitsCap(v, ms, cap));
    assert NoLarger(v, ms, Left(v, ms, cap), BodySize(v, ms));
  }

  // ----- which pairs can count on staying -----------------------------------

  predicate Retained(v: Json, ms: seq<Json>, k: nat, cap: nat) {
    k in Left(v, ms, cap) && k + 1 in Left(v, ms, cap)
  }

  lemma PairsAlternate(ms: seq<Json>)
    ensures Alternating(PairsOf(ms))
  {
  }

  /** A pair at either end is retained under every cap; any other pair goes under the smallest. */
  lemma RetainedUnder(v: Json, ms: seq<Json>, k: nat, cap: nat)
    requires v.Obj? && k + 1 < |ms| && IsPair(ms[k], ms[k + 1])
    ensures k == 0 || k + 2 == |ms| ==> Retained(v, ms, k, cap)
    ensures k != 0 && k + 2 != |ms| && cap <= 1 ==> k !in Left(v, ms, cap) && k + 1 !in Left(v, ms, cap)
  {
    PairsAlternate(ms);
    if k == 0 || k + 2 == |ms| {
      KeptAtEnds(PairsOf(ms), FitsCap(v, ms, cap), |ms|, k);
    } else if cap <= 1 {
      forall keep: seq<nat> ensures !FitsCap(v, ms, cap)(keep) {
      }
      GoneInside(PairsOf(ms), FitsCap(v, ms, cap), |ms|, k);
    }
  }

  // ----- the pass -----------------------------------------------------------

  /** The selected messages pair up as the originals do. */
  lemma FirstPairOfSelection(ms: seq<Json>, keep: seq<nat>, i: nat)
    requires Indices(keep, |ms|)
    ensures var now := Select(ms, keep);
            FirstPair(PairsOf(now), All(|now|), i) == FirstPair(PairsOf(ms), keep, i)
  {
    var now := Select(ms, keep);
    forall j: nat | j < |keep| - 1 ensures PairAt(PairsOf(now), All(|now|), j) == PairAt(PairsOf(ms), keep, j) {
    }
    SameFirstPair(PairsOf(now), All(|now|), PairsOf(ms), keep, i);
  }

  method FindPrunable(messages: seq<Json>) returns (pruneIdx: Option<nat>)
    ensures pruneIdx == FirstPair(PairsOf(messages), All(|messages|), 1)
  {
    var i := 1;
    while i + 2 < |messages|
      invariant 1 <= i
      invariant FirstPair(PairsOf(messages), All(|messages|), 1) == FirstPair(PairsOf(messages), All(|messages|), i)
    {
      assert PairsOf(messages)(i, i + 1) == IsPair(messages[i], messages[i + 1]);
      if IsPair(messages[i], messages[i + 1]) {
        return Some(i);
      }
      i := i + 1;
    }
    return None;
  }

  /** One removal: the body and the surviving indices move together. */
  lemma PruneStep(v: Json, ms: seq<Json>, keep: seq<nat>, i: nat)
    requires v.Obj? && Indices(keep, |ms|) && i + 1 < |keep|
    ensures Indices(WithoutPair(keep, i), |ms|)
    ensures WithMessages(WithMessages(v, Select(ms, keep)), WithoutPair(Select(ms, keep), i))
         == WithMessages(v, Select(ms, WithoutPair(keep, i)))
  {
    IndicesWithout(keep, |ms|, i);
    SelectWithoutPair(ms, keep, i);
    WithMessagesTwice(v, Select(ms, keep), WithoutPair(Select(ms, keep), i));
  }

  /** Prunes in place; returns how many pairs went. */
  method PruneOldestInflightPairs(req: Request, cap: nat) returns (pruned: nat)
    modifies req
    ensures MessagesOf(old(req.body)).None? ==> req.body == old(req.body) && pruned == 0
    ensures MessagesOf(old(req.body)).Some? ==>
              var ms := MessagesOf(old(req.body)).value;
              && req.body == WithMessages(old(req.body), TierB(old(req.body), ms, cap))
              && 2 * pruned == |ms| - |TierB(old(req.body), ms, cap)|
  {
    pruned := 0;
    if MessagesOf(req.body).None? {
      return;
    }
    ghost var v := req.body;
    ghost var ms := MessagesOf(v).value;
    ghost var keep := All(|ms|);
    SelectAll(ms);
    WithSameMessages(v);
    while Size(req.body) > cap
      invariant Indices(keep, |ms|) && 2 * pruned == |ms| - |keep|
      invariant req.body == WithMessages(v, Select(ms, keep))
      invariant Survivors(PairsOf(ms), FitsCap(v, ms, cap), keep) == Left(v, ms, cap)
      decreases |keep|
    {
      WithMessagesTwice(v, Select(ms, keep), []);
      var messages := MessagesOf(req.body).value;
      FirstPairOfSelection(ms, keep, 1);
      var pruneIdx := FindPrunable(messages);
      if pruneIdx.None? {
        break;
      }
      var i := pruneIdx.value;
      PruneStep(v, ms, keep, i);
      req.body := WithMessages(req.body, WithoutPair(messages, i));
      keep := WithoutPair(keep, i);
      pruned := pruned + 1;
    }
  }
}
