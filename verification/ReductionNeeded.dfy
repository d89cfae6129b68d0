/**
 * The soft cap does no more than it has to: pairs go only when ejecting does
 * not suffice, and tool definitions only when pruning does not either.
 */
module ReductionNeeded {
  import opened Wrappers
  import opened Json
  import opened Messages
  import opened Ejection
  import opened PairRemoval
  import opened Pruning
  import opened SoftCap
  import opened PairRetention
  import opened OutgoingPrefix
  import opened EjectedContents

  // ----- pairs --------------------------------------------------------------

  predicate SomePrunable(ms: seq<Json>) {
    exists p | 0 <= p < |ms| :: PrunablePair(ms, p)
  }

  /** The loop takes something exactly when the list does not fit and has a pair to take. */
  lemma SurvivorsShorten(pairs: Pairs, fits: Fits, n: nat)
    ensures |Survivors(pairs, fits, All(n))| < n <==> !fits(All(n)) && FirstPair(pairs, All(n), 1).Some?
  {
    var first := FirstPair(pairs, All(n), 1);
    if first.Some? {
      IndicesWithout(All(n), n, first.value);
      SurvivorsFacts(pairs, fits, WithoutPair(All(n), first.value), n);
    }
  }

  lemma PrunableIsFirst(ms: seq<Json>, all: seq<nat>, p: nat)
    requires all == All(|ms|) && PrunablePair(ms, p)
    ensures FirstPair(PairsOf(ms), all, 1).Some?
  {
    assert all[p] == p && all[p + 1] == p + 1;
    assert PairAt(PairsOf(ms), all, p);
  }

  lemma FirstPairIff(ms: seq<Json>)
    ensures FirstPair(PairsOf(ms), All(|ms|), 1).Some? <==> SomePrunable(ms)
  {
    var first := FirstPair(PairsOf(ms), All(|ms|), 1);
    if first.Some? {
      assert PrunablePair(ms, first.value);
    } else if SomePrunable(ms) {
      var p: nat :| p < |ms| && PrunablePair(ms, p);
      PrunableIsFirst(ms, All(|ms|), p);
    }
  }

  lemma LoopShortensIff(v: Json, ms: seq<Json>, cap: nat)
    ensures |TierB(v, ms, cap)| < |ms| <==> BodySize(v, ms) > cap && SomePrunable(ms)
  {
    WholeFits(v, ms, cap);
    FirstPairIff(ms);
    SurvivorsShorten(PairsOf(ms), FitsCap(v, ms, cap), |ms|);
  }

  lemma SamePrunable(a: seq<Json>, b: seq<Json>)
    requires SameShape(a, b) && SomePrunable(a)
    ensures SomePrunable(b)
  {
    var p: nat :| p < |a| && PrunablePair(a, p);
    SameShapePrunableAt(a, b, p);
  }

  /**
   * Messages go exactly when the body is over a positive cap with every large
   * result stubbed, and there is a pair that may go.
   */
  lemma PairsGoIff(v: Json, cap: nat)
    requires MessagesOf(v).Some?
    ensures MessagesOf(Reduced(v, cap)).Some?
    ensures var ms := MessagesOf(v).value;
            |MessagesOf(Reduced(v, cap)).value| < |ms| <==>
              cap > 0 && Size(WithMessages(v, AllStubbed(ms))) > cap && SomePrunable(ms)
  {
    var ms, a := MessagesOf(v).value, TierA(v, cap).0;
    ReducedMessagesAre(v, cap);
    AllStubbedSize(v, cap);
    TierALength(v, cap);
    if cap > 0 && Size(v) > cap && Size(BodyA(v, cap)) > cap {
      BodyFacts(v, cap);
      WithSameMessages(BodyA(v, cap));
      LoopShortensIff(BodyA(v, cap), a, cap);
      assert SomePrunable(a) <==> SomePrunable(ms) by {
        assert SameShape(ms, a) by {
          TierAFacts(v, cap);
        }
        SameShapeSymmetric(ms, a);
        if SomePrunable(a) {
          SamePrunable(a, ms);
        }
        if SomePrunable(ms) {
          SamePrunable(ms, a);
        }
      }
    }
  }

  /** With everything stubbed the body is no larger than what tier A leaves, and the same when that does not fit. */
  lemma AllStubbedSize(v: Json, cap: nat)
    requires MessagesOf(v).Some?
    ensures var all := WithMessages(v, AllStubbed(MessagesOf(v).value));
            && Size(all) <= Size(BodyA(v, cap)) <= Size(v)
            && (Size(BodyA(v, cap)) > cap ==> all == BodyA(v, cap))
  {
    var ms := MessagesOf(v).value;
    BodyFacts(v, cap);
    StubbedIsSmallest(v, TierA(v, cap).1);
    if Size(BodyA(v, cap)) > cap {
      OverCapMeansAllStubbed(v, cap);
    }
  }

  lemma StubbedIsSmallest(v: Json, k: nat)
    requires MessagesOf(v).Some? && k <= |Candidates(MessagesOf(v).value)|
    ensures var ms := MessagesOf(v).value;
            BodySize(v, AllStubbed(ms)) <= BodySize(v, EjectAll(ms, Candidates(ms)[..k]))
  {
    var ms, all := MessagesOf(v).value, Candidates(MessagesOf(v).value);
    assert all == all[..|all|] && all == all[..k] + all[k..];
    CandidatesMatch(ms, k);
    CandidatesMatch(ms, |all|);
    EverythingEjected(ms);
    EjectAllFacts(ms, all);
    EjectAllFacts(ms, all[..k]);
    TotalsConcat(all[..k], all[k..]);
    assert forall c :: c in all[k..] ==> c in all;
    StubsSmaller(all[k..]);
    BodySizeDiffers(v, EjectAll(ms, all), EjectAll(ms, all[..k]));
  }

  lemma EverythingEjected(ms: seq<Json>)
    ensures EjectAll(ms, Candidates(ms)) == AllStubbed(ms)
  {
    var all := Candidates(ms);
    assert all[..|all|] == all;
    CandidatesMatch(ms, |all|);
    EjectAllLength(ms, all);
    forall i | 0 <= i < |ms| ensures EjectAll(ms, all)[i] == Stubbed(ms[i]) {
      EjectAllIs(ms, all, i);
      MessageAfterAll(ms, i);
    }
  }

  lemma {:induction false} TotalsConcat(a: seq<Candidate>, b: seq<Candidate>)
    ensures TotalSize(a + b) == TotalSize(a) + TotalSize(b) && StubSize(a + b) == StubSize(a) + StubSize(b)
  {
    if a == [] {
      assert a + b == b;
    } else {
      assert (a + b)[1..] == a[1..] + b;
      TotalsConcat(a[1..], b);
    }
  }

  // ----- pruning, round by round --------------------------------------------

  /** One round of the loop, on the indices of a list and on the selected messages. */
  lemma SelectedRound(v: Json, ms: seq<Json>, keep: seq<nat>, cap: nat, now: seq<Json>)
    requires Indices(keep, |ms|) && now == Select(ms, keep)
    ensures FitsCap(v, ms, cap)(keep) <==> FitsCap(v, now, cap)(All(|now|))
    ensures FirstPair(PairsOf(ms), keep, 1) == FirstPair(PairsOf(now), All(|now|), 1)
    ensures var first := FirstPair(PairsOf(ms), keep, 1);
      first.Some? ==>
        && Indices(WithoutPair(keep, first.value), |ms|) && Indices(WithoutPair(All(|now|), first.value), |now|)
        && Select(ms, WithoutPair(keep, first.value)) == WithoutPair(now, first.value)
        && Select(now, WithoutPair(All(|now|), first.value)) == WithoutPair(now, first.value)
  {
    FirstPairOfSelection(ms, keep, 1);
    SelectAll(now);
    var first := FirstPair(PairsOf(ms), keep, 1);
    if first.Some? {
      IndicesWithout(keep, |ms|, first.value);
      SelectWithoutPair(ms, keep, first.value);
      IndicesWithout(All(|now|), |now|, first.value);
      SelectWithoutPair(now, All(|now|), first.value);
    }
  }

  /** The loop on some of the messages is tier B of those messages. */
  lemma {:induction false} LoopOnSelection(v: Json, ms: seq<Json>, keep: seq<nat>, cap: nat, now: seq<Json>)
    requires Indices(keep, |ms|) && now == Select(ms, keep)
    ensures Indices(Survivors(PairsOf(ms), FitsCap(v, ms, cap), keep), |ms|)
    ensures Select(ms, Survivors(PairsOf(ms), FitsCap(v, ms, cap), keep)) == TierB(v, now, cap)
    decreases |keep|
  {
    SelectedRound(v, ms, keep, cap, now);
    SurvivorsFacts(PairsOf(ms), FitsCap(v, ms, cap), keep, |ms|);
    SelectAll(now);
    var first := FirstPair(PairsOf(ms), keep, 1);
    if !FitsCap(v, ms, cap)(keep) && first.Some? {
      var next := WithoutPair(now, first.value);
      LoopOnSelection(v, ms, WithoutPair(keep, first.value), cap, next);
      LoopOnSelection(v, now, WithoutPair(All(|now|), first.value), cap, next);
    }
  }

  /** The oldest pair that may go starts at `p`. */
  ghost predicate IsOldest(ms: seq<Json>, p: nat) {
    PrunablePair(ms, p) && forall q: nat :: q < p ==> !PrunablePair(ms, q)
  }

  /**
   * Of any request, two-sided or not: tier B leaves the messages that fit or have
   * no pair that may go, and otherwise does as if the oldest such pair had not
   * been there. Taking it may bring a new pair together.
   */
  lemma TierBRounds(v: Json, ms: seq<Json>, cap: nat, p: nat)
    ensures BodySize(v, ms) <= cap || !SomePrunable(ms) ==> TierB(v, ms, cap) == ms
    ensures BodySize(v, ms) > cap && IsOldest(ms, p) ==> TierB(v, ms, cap) == TierB(v, WithoutPair(ms, p), cap)
  {
    WholeFits(v, ms, cap);
    SelectAll(ms);
    FirstPairIff(ms);
    if BodySize(v, ms) > cap && IsOldest(ms, p) {
      OldestIsFirst(ms, p, FirstPair(PairsOf(ms), All(|ms|), 1));
      SelectedRound(v, ms, All(|ms|), cap, ms);
      LoopOnSelection(v, ms, WithoutPair(All(|ms|), p), cap, WithoutPair(ms, p));
    }
  }

  lemma OldestIsFirst(ms: seq<Json>, p: nat, first: Option<nat>)
    requires IsOldest(ms, p) && first == FirstPair(PairsOf(ms), All(|ms|), 1)
    ensures first == Some(p)
  {
    PrunableIsFirst(ms, All(|ms|), p);
    var all := All(|ms|);
    assert PairAt(PairsOf(ms), all, p);
    assert PrunablePair(ms, first.value);
  }

  /**
   * The messages that go out: those of the request while it fits or there is no
   * cap; else what tier A leaves, if the body with them fits; else what tier B
   * leaves of those.
   */
  lemma TiersInOrder(v: Json, cap: nat)
    requires MessagesOf(v).Some?
    ensures var out := TierA(v, cap).0;
            var body := WithMessages(v, out);
            MessagesOf(Reduced(v, cap)) == Some(
              if cap == 0 || Size(v) <= cap then MessagesOf(v).value
              else if Size(body) <= cap then out
              else TierB(body, out, cap))
  {
    ReducedMessagesAre(v, cap);
  }

  // ----- tool definitions ---------------------------------------------------

  /** The body is over a positive cap with its messages reduced and all its tool definitions. */
  predicate OverWithAllTools(v: Json, cap: nat) {
    && cap > 0
    && (if MessagesOf(Reduced(v, cap)).Some? then Size(WithMessages(v, MessagesOf(Reduced(v, cap)).value)) > cap
        else Size(v) > cap)
  }

  /** Some block of some message is a call by this name. */
  predicate CallsByName(ms: seq<Json>, name: string) {
    exists m, b | m in ms && Blocks(m).Some? && b in Blocks(m).value ::
      Kind(b) == Some("tool_use") && AsStr(Get(b, "name")) == Some(name)
  }

  lemma CallsByNameIs(ms: seq<Json>, name: string)
    ensures CallsByName(ms, name) <==> Calls(ms, name)
  {
    if CallsByName(ms, name) {
      var m, b :| m in ms && Blocks(m).Some? && b in Blocks(m).value && Kind(b) == Some("tool_use")
        && AsStr(Get(b, "name")) == Some(name);
      assert m in ms && b in Blocks(m).value && IsToolUse(b) && ToolName(b) == Some(name);
    }
    if Calls(ms, name) {
      var m, b :| m in ms && Blocks(m).Some? && b in Blocks(m).value && IsToolUse(b) && ToolName(b) == Some(name);
      assert Kind(b) == Some("tool_use");
    }
  }

  /** The definitions that go out: all of them, or those without a name and those some message left calls by name. */
  predicate GoesOut(v: Json, cap: nat, t: Json) {
    var ms := MessagesOf(Reduced(v, cap));
    var name := AsStr(Get(t, "name"));
    OverWithAllTools(v, cap) && name.Some? ==> ms.Some? && CallsByName(ms.value, name.value)
  }

  function Filtered(tools: seq<Json>, keep: Json -> bool): seq<Json> {
    if tools == [] then [] else (if keep(tools[0]) then [tools[0]] else []) + Filtered(tools[1..], keep)
  }

  lemma {:induction false} FilteredAll(tools: seq<Json>, keep: Json -> bool)
    requires forall t :: t in tools ==> keep(t)
    ensures Filtered(tools, keep) == tools
  {
    if tools != [] {
      FilteredAll(tools[1..], keep);
    }
  }

  lemma {:induction false} KeptToolsFiltered(tools: seq<Json>, referenced: set<string>, keep: Json -> bool)
    requires forall t :: t in tools ==> (keep(t) <==> ToolName(t).Some? ==> ToolName(t).value in referenced)
    ensures KeptTools(tools, referenced) == Filtered(tools, keep)
  {
    if tools != [] {
      assert tools[0] in tools;
      KeptToolsFiltered(tools[1..], referenced, keep);
    }
  }

  lemma TierCFilters(w: Json, keep: Json -> bool)
    requires ToolsOf(w).Some?
    requires forall t :: t in ToolsOf(w).value ==>
      (keep(t) <==> (ToolName(t).Some? ==> MessagesOf(w).Some? && Calls(MessagesOf(w).value, ToolName(t).value)))
    ensures ToolsOf(TierC(w)) == Some(Filtered(ToolsOf(w).value, keep))
  {
    var ms := MessagesOf(w);
    var referenced := Referenced(if ms.Some? then ms.value else []);
    GetSet(w, "tools", Arr(KeptTools(ToolsOf(w).value, referenced)), "tools");
    KeptToolsFiltered(ToolsOf(w).value, referenced, keep);
  }

  /** The body before tier C, and what the last tier makes of it. */
  lemma BeforeTierC(v: Json, cap: nat)
    requires cap > 0
    ensures var ms := MessagesOf(Reduced(v, cap));
            var w := if ms.Some? then WithMessages(v, ms.value) else v;
            && MessagesOf(w) == MessagesOf(Reduced(v, cap)) && ToolsOf(w) == ToolsOf(v)
            && Reduced(v, cap) == if Size(w) > cap then TierC(w) else w
  {
    var a := BodyA(v, cap);
    var b := BodyB(a, cap);
    BodyFacts(v, cap);
    BodyBFacts(a, cap);
    TierCFacts(b);
    if MessagesOf(v).Some? {
      WithSameMessages(v);
      WithMessagesTwice(v, TierA(v, cap).0, TierB(a, TierA(v, cap).0, cap));
      ReducedMessagesAre(v, cap);
    }
  }

  /**
   * The definitions that go out are those of the request, in their order; and
   * some are missing only when the body with its messages reduced and all of its
   * definitions is over a positive cap: then those that have a name no message
   * left calls.
   */
  lemma ToolsGoIff(v: Json, cap: nat)
    requires ToolsOf(v).Some?
    ensures ToolsOf(Reduced(v, cap)) == Some(Filtered(ToolsOf(v).value, (t: Json) => GoesOut(v, cap, t)))
    ensures !OverWithAllTools(v, cap) ==> ToolsOf(Reduced(v, cap)) == ToolsOf(v)
  {
    var keep := (t: Json) => GoesOut(v, cap, t);
    if !OverWithAllTools(v, cap) {
      FilteredAll(ToolsOf(v).value, keep);
    }
    if cap > 0 {
      BeforeTierC(v, cap);
      var ms := MessagesOf(Reduced(v, cap));
      var w := if ms.Some? then WithMessages(v, ms.value) else v;
      if OverWithAllTools(v, cap) {
        ToolsLeft(v, w, cap, keep);
      }
    }
  }

  lemma ToolsLeft(v: Json, w: Json, cap: nat, keep: Json -> bool)
    requires OverWithAllTools(v, cap) && ToolsOf(w).Some?
    requires MessagesOf(w) == MessagesOf(Reduced(v, cap)) && forall t :: keep(t) <==> GoesOut(v, cap, t)
    ensures ToolsOf(TierC(w)) == Some(Filtered(ToolsOf(w).value, keep))
  {
    forall t | t in ToolsOf(w).value
      ensures keep(t) <==> (ToolName(t).Some? ==> MessagesOf(w).Some? && Calls(MessagesOf(w).value, ToolName(t).value))
    {
      if MessagesOf(w).Some? && ToolName(t).Some? {
        CallsByNameIs(MessagesOf(w).value, ToolName(t).value);
      }
    }
    TierCFilters(w, keep);
  }

  /** No other field of the request is touched. */
  lemma OtherFieldsStay(v: Json, cap: nat, key: string)
    requires key != "messages" && key != "tools"
    ensures Get(Reduced(v, cap), key) == Get(v, key)
  {
    if cap > 0 {
      BeforeTierC(v, cap);
      var ms := MessagesOf(Reduced(v, cap));
      var w := if ms.Some? then WithMessages(v, ms.value) else v;
      if ms.Some? && v.Obj? {
        GetSet(v, "messages", Arr(ms.value), key);
      }
      TierCOther(w, key);
    }
  }

  lemma TierCOther(w: Json, key: string)
    requires key != "tools"
    ensures Get(TierC(w), key) == Get(w, key)
  {
    if ToolsOf(w).Some? {
      var ms := MessagesOf(w);
      GetSet(w, "tools", Arr(KeptTools(ToolsOf(w).value, Referenced(if ms.Some? then ms.value else []))), key);
    }
  }
}
