/**
 * Which messages at the front of a request the soft cap leaves alone: what
 * tier A ejects and tier B removes decides whether a longer conversation still
 * goes out as an extension of a shorter one.
 */
module OutgoingPrefix {
  import opened Json
  import opened Messages
  import opened Ejection
  import opened PairRemoval
  import opened Pruning
  import opened SoftCap
  import opened PairRetention
  import PrunedPrefix

  // ----- tier A -------------------------------------------------------------

  /** Some of the candidates is in message `i`. */
  predicate EjectsIn(cs: seq<Candidate>, i: nat) {
    exists c :: c in cs && c.mi == i
  }

  /** An ejection makes its own message smaller and touches no other. */
  lemma EjectShrinks(ms: seq<Json>, c: Candidate)
    requires Matches(ms, c)
    ensures |EjectAt(ms, c)| == |ms| && forall i :: 0 <= i < |ms| && i != c.mi ==> EjectAt(ms, c)[i] == ms[i]
    ensures Size(EjectAt(ms, c)[c.mi]) < Size(ms[c.mi])
  {
    EjectFacts(ms, c);
    StubSmaller(c.size);
    SizeArrUpdate(ms, c.mi, EjectAt(ms, c)[c.mi]);
  }

  /** So after all of them a message is as it was exactly when none was in it. */
  lemma {:induction false} EjectedSmaller(ms: seq<Json>, cs: seq<Candidate>, i: nat)
    requires DistinctPlaces(cs) && (forall c :: c in cs ==> Matches(ms, c)) && i < |ms|
    ensures |EjectAll(ms, cs)| == |ms|
    ensures !EjectsIn(cs, i) ==> EjectAll(ms, cs)[i] == ms[i]
    ensures EjectsIn(cs, i) ==> Size(EjectAll(ms, cs)[i]) < Size(ms[i])
    decreases cs
  {
    if cs != [] {
      assert cs[0] in cs && cs == [cs[0]] + cs[1..];
      EjectShrinks(ms, cs[0]);
      EjectKeepsRest(ms, cs);
      EjectedSmaller(EjectAt(ms, cs[0]), cs[1..], i);
      assert EjectsIn(cs, i) <==> cs[0].mi == i || EjectsIn(cs[1..], i);
    }
  }

  /** Tier A ejects something from the first `n` messages. */
  predicate EjectsBefore(v: Json, cap: nat, n: nat)
    requires MessagesOf(v).Some?
  {
    exists c :: c in Candidates(MessagesOf(v).value)[..TierA(v, cap).1] && c.mi < n
  }

  /** Tier A leaves the first messages alone exactly when it ejects nothing from them. */
  lemma TierAFrontIff(v: Json, cap: nat, n: nat)
    requires MessagesOf(v).Some? && n <= |MessagesOf(v).value|
    ensures |TierA(v, cap).0| == |MessagesOf(v).value|
    ensures TierA(v, cap).0[..n] == MessagesOf(v).value[..n] <==> !EjectsBefore(v, cap, n)
  {
    var ms := MessagesOf(v).value;
    var (out, k) := TierA(v, cap);
    var cs := Candidates(ms)[..k];
    CandidatesMatch(ms, k);
    TierALength(v, cap);
    forall i: nat | i < n ensures out[i] == ms[i] <==> !EjectsIn(cs, i) {
      EjectedSmaller(ms, cs, i);
    }
    if out[..n] == ms[..n] {
      forall i: nat | i < n ensures !EjectsIn(cs, i) {
        assert out[..n][i] == ms[..n][i];
      }
    }
  }

  // ----- tier B -------------------------------------------------------------

  predicate PrunableBefore(ms: seq<Json>, n: nat) {
    exists p: nat :: p < n && PrunablePair(ms, p)
  }

  lemma SameShapePrunableAt(a: seq<Json>, b: seq<Json>, p: nat)
    requires SameShape(a, b) && PrunablePair(a, p)
    ensures PrunablePair(b, p)
  {
    SameShapePair(a, b, p);
  }

  /** What an ejection leaves pairs up as before. */
  lemma SameShapePrunable(a: seq<Json>, b: seq<Json>, n: nat)
    requires SameShape(a, b)
    ensures PrunableBefore(a, n) ==> PrunableBefore(b, n)
  {
    if PrunableBefore(a, n) {
      var p: nat :| p < n && PrunablePair(a, p);
      SameShapePrunableAt(a, b, p);
    }
  }

  lemma SameShapeSymmetric(a: seq<Json>, b: seq<Json>)
    requires SameShape(a, b)
    ensures SameShape(b, a)
  {
    forall i | 0 <= i < |b| ensures SameMessage(b[i], a[i]) {
      assert SameMessage(a[i], b[i]);
    }
  }

  /** Of any two messages at most one makes a call with a given id. */
  predicate DistinctIds(ms: seq<Json>) {
    forall i, j :: 0 <= i < j < |ms| ==> ToolUseIds(ms[i]) !! ToolUseIds(ms[j])
  }

  lemma PrunableIs(ms: seq<Json>, n: nat)
    ensures PrunableBefore(ms, n) <==> PrunedPrefix.PrunableBefore(PairsOf(ms), |ms|, n)
  {
    assert forall p: nat :: PrunablePair(ms, p) <==> PrunedPrefix.Prunable(PairsOf(ms), |ms|, p);
  }

  lemma WholeFits(v: Json, ms: seq<Json>, cap: nat)
    ensures FitsCap(v, ms, cap)(All(|ms|)) <==> BodySize(v, ms) <= cap
  {
    SelectAll(ms);
  }

  /** Tier B's loop, seen as the removal of pairs from a list of indices. */
  lemma TierBLoop(v: Json, ms: seq<Json>, cap: nat, pairs: Pairs, fits: Fits, n: nat)
    requires TwoSided(ms) && pairs == PairsOf(ms) && fits == FitsCap(v, ms, cap)
    ensures PrunedPrefix.Discrete(pairs) && Left(v, ms, cap) == Survivors(pairs, fits, All(|ms|))
    ensures fits(All(|ms|)) <==> BodySize(v, ms) <= cap
    ensures PrunableBefore(ms, n) <==> PrunedPrefix.PrunableBefore(pairs, |ms|, n)
  {
    TwoSidedIsDiscrete(ms);
    PrunableIs(ms, n);
    WholeFits(v, ms, cap);
  }

  lemma PrunableAt(ms: seq<Json>, pairs: Pairs, p: nat)
    requires pairs == PairsOf(ms) && PrunedPrefix.Prunable(pairs, |ms|, p)
    ensures PrunablePair(ms, p)
  {
  }

  /** A prunable pair before `n`, when the request does not fit: one of them goes. */
  lemma SomePairGoes(v: Json, ms: seq<Json>, cap: nat, pairs: Pairs, fits: Fits, n: nat) returns (p: nat)
    requires TwoSided(ms) && pairs == PairsOf(ms) && fits == FitsCap(v, ms, cap)
    requires PrunableBefore(ms, n) && BodySize(v, ms) > cap
    ensures p < n && PrunablePair(ms, p) && p !in Left(v, ms, cap)
  {
    TierBLoop(v, ms, cap, pairs, fits, n);
    p := PrunedPrefix.SomePairGoes(pairs, fits, |ms|, n);
    PrunableAt(ms, pairs, p);
  }

  /** Tier B leaves the first messages in place exactly when it has nothing to do or no pair starts among them. */
  lemma TierBFrontIff(v: Json, ms: seq<Json>, cap: nat, n: nat)
    requires TwoSided(ms) && n <= |ms|
    ensures PrunedPrefix.Front(Left(v, ms, cap), n) <==> BodySize(v, ms) <= cap || !PrunableBefore(ms, n)
  {
    TierBLoop(v, ms, cap, PairsOf(ms), FitsCap(v, ms, cap), n);
    PrunedPrefix.FrontStaysIff(PairsOf(ms), FitsCap(v, ms, cap), |ms|, n);
  }

  lemma {:induction false} IndicesAtLeast(keep: seq<nat>, n: nat, i: nat)
    requires Indices(keep, n) && i < |keep|
    ensures keep[i] >= i
  {
    if i > 0 {
      IndicesAtLeast(keep, n, i - 1);
    }
  }

  /** A call of a pair is answered, so it has an id. */
  lemma PairCalls(ms: seq<Json>, p: nat)
    requires TwoSided(ms) && PrunablePair(ms, p)
    ensures ToolUseIds(ms[p]) != {}
  {
    var b :| b in Blocks(ms[p]).value && IsToolUse(b);
    assert CallsAnswered(ms[p], ms[p + 1]);
    assert UseId(b).value in ToolUseIds(ms[p]);
  }

  /** In the place of a message that went there is a later one, or none. */
  lemma LaterInPlace(ms: seq<Json>, out: seq<Json>, left: seq<nat>, p: nat)
    requires Indices(left, |ms|) && out == Select(ms, left) && p !in left && p < |out|
    ensures exists q :: p < q < |ms| && out[p] == ms[q]
  {
    IndicesAtLeast(left, |ms|, p);
    assert left[p] in left && out[p] == ms[left[p]];
  }

  /** And a later one makes other calls. */
  lemma OtherCalls(ms: seq<Json>, a: seq<Json>, p: nat, q: nat)
    requires SameShape(ms, a) && TwoSided(ms) && DistinctIds(ms) && PrunablePair(ms, p) && p < q < |ms|
    ensures ms[p] != a[q]
  {
    PairCalls(ms, p);
    assert SameMessage(ms[q], a[q]);
    SameMessageIds(ms[q], a[q]);
  }

  lemma GoneIsSeen(ms: seq<Json>, a: seq<Json>, out: seq<Json>, left: seq<nat>, n: nat, p: nat)
    requires SameShape(ms, a) && TwoSided(ms) && DistinctIds(ms)
    requires Indices(left, |a|) && out == Select(a, left)
    requires p < n <= |ms| && PrunablePair(ms, p) && p !in left
    ensures !(ms[..n] <= out)
  {
    if ms[..n] <= out {
      assert ms[..n][p] == out[p];
      LaterInPlace(a, out, left, p);
      var q :| p < q < |a| && out[p] == a[q];
      OtherCalls(ms, a, p, q);
      assert false;
    }
  }

  // ----- the reduction ------------------------------------------------------

  /** Nothing is ejected from the first `n` messages, and tier B is not needed or finds no pair there. */
  predicate FirstKept(v: Json, cap: nat, n: nat)
    requires MessagesOf(v).Some?
  {
    || cap == 0 || Size(v) <= cap
    || (&& !EjectsBefore(v, cap, n)
        && (Size(BodyA(v, cap)) <= cap || !PrunableBefore(MessagesOf(v).value, n)))
  }

  lemma SelectFront(ms: seq<Json>, left: seq<nat>, n: nat)
    requires Indices(left, |ms|) && PrunedPrefix.Front(left, n) && n <= |ms|
    ensures n <= |Select(ms, left)| && Select(ms, left)[..n] == ms[..n]
  {
  }

  lemma TierBKeepsFront(v: Json, a: seq<Json>, cap: nat, n: nat)
    requires TwoSided(a) && n <= |a| && !PrunableBefore(a, n)
    ensures n <= |TierB(v, a, cap)| && TierB(v, a, cap)[..n] == a[..n]
  {
    TierBFrontIff(v, a, cap, n);
    SelectFront(a, Left(v, a, cap), n);
  }

  /** Tier A's result as the input of tier B. */
  lemma BetweenTiers(v: Json, cap: nat)
    requires MessagesOf(v).Some? && TwoSided(MessagesOf(v).value)
    ensures var a := TierA(v, cap).0;
            && SameShape(MessagesOf(v).value, a) && SameShape(a, MessagesOf(v).value) && TwoSided(a)
            && BodySize(BodyA(v, cap), a) == Size(BodyA(v, cap))
            && forall n :: PrunableBefore(a, n) <==> PrunableBefore(MessagesOf(v).value, n)
  {
    var ms, a := MessagesOf(v).value, TierA(v, cap).0;
    assert SameShape(ms, a) by {
      TierAFacts(v, cap);
    }
    SameShapePairing(ms, a);
    SameShapeSymmetric(ms, a);
    forall n ensures PrunableBefore(a, n) <==> PrunableBefore(ms, n) {
      SameShapePrunable(ms, a, n);
      SameShapePrunable(a, ms, n);
    }
    BodyFacts(v, cap);
    WithSameMessages(BodyA(v, cap));
  }

  /** Under the condition the first messages go out verbatim; a request that fits need not pair up for that. */
  lemma FirstMessagesKept(v: Json, cap: nat, n: nat)
    requires MessagesOf(v).Some? && n <= |MessagesOf(v).value| && FirstKept(v, cap, n)
    requires cap == 0 || Size(v) <= cap || TwoSided(MessagesOf(v).value)
    ensures MessagesOf(v).value[..n] <= ReducedMessages(v, cap)
  {
    if cap != 0 && Size(v) > cap {
      TierAFrontIff(v, cap, n);
      BetweenTiers(v, cap);
      if Size(BodyA(v, cap)) > cap {
        TierBKeepsFront(BodyA(v, cap), TierA(v, cap).0, cap, n);
      }
    }
  }

  /**
   * The first `n` messages of a two-sided request go out verbatim and in place
   * exactly when the request fits, or nothing is ejected from them and either
   * the ejections made it fit or no prunable pair starts among them. Only the
   * "only" needs distinct call ids: of two equal pairs one can take the other's place.
   */
  lemma FirstMessagesKeptIff(v: Json, cap: nat, n: nat)
    requires MessagesOf(v).Some? && n <= |MessagesOf(v).value|
    requires TwoSided(MessagesOf(v).value) && DistinctIds(MessagesOf(v).value)
    ensures MessagesOf(v).value[..n] <= ReducedMessages(v, cap) <==> FirstKept(v, cap, n)
  {
    var ms, a := MessagesOf(v).value, TierA(v, cap).0;
    if FirstKept(v, cap, n) {
      FirstMessagesKept(v, cap, n);
    } else {
      TierAFrontIff(v, cap, n);
      BetweenTiers(v, cap);
      if Size(BodyA(v, cap)) > cap {
        if PrunableBefore(ms, n) {
          var p := SomePairGoes(BodyA(v, cap), a, cap, PairsOf(a), FitsCap(BodyA(v, cap), a, cap), n);
          SameShapePrunableAt(a, ms, p);
          GoneIsSeen(ms, a, TierB(BodyA(v, cap), a, cap), Left(BodyA(v, cap), a, cap), n, p);
        } else {
          TierBKeepsFront(BodyA(v, cap), a, cap, n);
        }
      }
    }
  }
}
