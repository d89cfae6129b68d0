/**
 * When removing a pair never brings a new pair together, the removal loop of
 * tier B takes away the shortest prefix of the pairs, oldest first, that fits.
 */
module PrunedPrefix {
  import opened Wrappers
  import opened PairRemoval

  /**
   * No element ends one pair and starts another, and none starts a pair with
   * anything when the next one starts a pair.
   */
  ghost predicate Discrete(pairs: Pairs) {
    && Alternating(pairs)
    && forall a: nat, next: nat, b: nat, c: nat :: next == a + 1 && pairs(a, b) ==> !pairs(next, c)
  }

  /** A pair of the original list that leaves both ends alone. */
  predicate Prunable(pairs: Pairs, n: nat, p: nat) {
    1 <= p && p + 2 < n && pairs(p, p + 1)
  }

  /** The element is in a prunable pair. */
  predicate InPair(pairs: Pairs, n: nat, i: nat) {
    Prunable(pairs, n, i) || (i > 0 && Prunable(pairs, n, i - 1))
  }

  /** The elements below `q` that are in no prunable pair. */
  function Lone(pairs: Pairs, n: nat, q: nat): (r: seq<nat>)
    ensures |r| <= q
  {
    if q == 0 then []
    else Lone(pairs, n, q - 1) + if InPair(pairs, n, q - 1) then [] else [q - 1]
  }

  function From(q: nat, n: nat): (r: seq<nat>)
    requires q <= n
    ensures |r| == n - q && forall i :: 0 <= i < |r| ==> r[i] == q + i
  {
    seq(n - q, i requires 0 <= i < n - q => q + i)
  }

  /** What is left when every prunable pair before `q` is gone. */
  function WithoutBefore(pairs: Pairs, n: nat, q: nat): seq<nat>
    requires q <= n
  {
    Lone(pairs, n, q) + From(q, n)
  }

  /** `q` does not cut a prunable pair in two. */
  predicate Between(pairs: Pairs, n: nat, q: nat) {
    q > 0 ==> !Prunable(pairs, n, q - 1)
  }

  // ----- no pair is left behind ---------------------------------------------

  lemma NeighboursNotPrunable(pairs: Pairs, n: nat, p: nat)
    requires Discrete(pairs) && Prunable(pairs, n, p)
    ensures !Prunable(pairs, n, p - 1) && !Prunable(pairs, n, p + 1)
  {
  }

  /** Where the last lone element below `q` is: just before `q`, or just before a removed pair. */
  predicate IsLastLone(pairs: Pairs, n: nat, q: nat, x: nat) {
    x < q && !InPair(pairs, n, x) && (x + 1 < q ==> Prunable(pairs, n, x + 1))
  }

  lemma {:induction false} LastLone(pairs: Pairs, n: nat, q: nat)
    requires Discrete(pairs) && 0 < q
    ensures var r := Lone(pairs, n, q);
            r != [] && r[0] == 0 && IsLastLone(pairs, n, q, r[|r| - 1]) && (|r| > 1 ==> r[|r| - 1] > 0)
    decreases q
  {
    if q > 1 {
      LastLone(pairs, n, q - 1);
      if Prunable(pairs, n, q - 1) {
        NeighboursNotPrunable(pairs, n, q - 1);
      }
    }
  }

  /** The last lone element makes no pair with `q`. */
  lemma LastLoneIsAlone(pairs: Pairs, n: nat, q: nat)
    requires Discrete(pairs) && 0 < q && q + 1 < n && Between(pairs, n, q)
    ensures var r := Lone(pairs, n, q); r != [] && (|r| > 1 ==> !pairs(r[|r| - 1], q))
  {
    LastLone(pairs, n, q);
  }

  /** Among the lone elements below `q` there is no pair, the first element aside. */
  lemma {:induction false} LoneHasNoPair(pairs: Pairs, n: nat, q: nat, j: nat)
    requires Discrete(pairs) && q < n
    requires 0 < j && j + 1 < |Lone(pairs, n, q)|
    ensures !PairAt(pairs, Lone(pairs, n, q), j)
    decreases q
  {
    var before := Lone(pairs, n, q - 1);
    if j + 1 < |before| {
      LoneHasNoPair(pairs, n, q - 1, j);
      assert PairAt(pairs, Lone(pairs, n, q), j) == PairAt(pairs, before, j);
    } else {
      assert !InPair(pairs, n, q - 1) && Lone(pairs, n, q) == before + [q - 1];
      LastLoneIsAlone(pairs, n, q - 1);
    }
  }

  // ----- one round of the loop ----------------------------------------------

  /** An element in no pair is passed over. */
  lemma PassLone(pairs: Pairs, n: nat, q: nat)
    requires q < n && Between(pairs, n, q) && !Prunable(pairs, n, q)
    ensures WithoutBefore(pairs, n, q + 1) == WithoutBefore(pairs, n, q) && Between(pairs, n, q + 1)
  {
    assert From(q, n) == [q] + From(q + 1, n);
    assert Lone(pairs, n, q + 1) == Lone(pairs, n, q) + [q];
    assert Lone(pairs, n, q) + ([q] + From(q + 1, n)) == Lone(pairs, n, q) + [q] + From(q + 1, n);
  }

  /** A prunable pair is the first one there is. */
  lemma FirstIsPrunable(pairs: Pairs, n: nat, q: nat)
    requires Discrete(pairs) && Between(pairs, n, q) && Prunable(pairs, n, q)
    ensures FirstPair(pairs, WithoutBefore(pairs, n, q), 1) == Some(|Lone(pairs, n, q)|)
  {
    var keep, i := WithoutBefore(pairs, n, q), |Lone(pairs, n, q)|;
    LastLone(pairs, n, q);
    assert keep[i] == q && keep[i + 1] == q + 1;
    forall j: nat | 1 <= j < i ensures !PairAt(pairs, keep, j) {
      NoPairBefore(pairs, n, q, j);
    }
    FirstPairIs(pairs, keep, 1, i);
  }

  /** Its removal leaves what comes before and after. */
  lemma RemovePair(pairs: Pairs, n: nat, q: nat)
    requires Discrete(pairs) && Between(pairs, n, q) && Prunable(pairs, n, q)
    ensures WithoutPair(WithoutBefore(pairs, n, q), |Lone(pairs, n, q)|) == WithoutBefore(pairs, n, q + 2)
    ensures Between(pairs, n, q + 2)
  {
    NeighboursNotPrunable(pairs, n, q);
    assert InPair(pairs, n, q) && InPair(pairs, n, q + 1);
    assert Lone(pairs, n, q + 1) == Lone(pairs, n, q) + [];
    assert Lone(pairs, n, q + 2) == Lone(pairs, n, q + 1) + [];
    CutOut(Lone(pairs, n, q), n, q);
  }

  lemma CutOut(lone: seq<nat>, n: nat, q: nat)
    requires q + 2 <= n
    ensures WithoutPair(lone + From(q, n), |lone|) == lone + From(q + 2, n)
  {
  }

  lemma NoPairBefore(pairs: Pairs, n: nat, q: nat, j: nat)
    requires Discrete(pairs) && Between(pairs, n, q)
    requires 0 < q && q + 1 < n && 1 <= j < |Lone(pairs, n, q)|
    ensures !PairAt(pairs, WithoutBefore(pairs, n, q), j)
  {
    var keep, lone := WithoutBefore(pairs, n, q), Lone(pairs, n, q);
    assert keep[j] == lone[j];
    if j + 1 < |lone| {
      LoneHasNoPair(pairs, n, q, j);
      assert keep[j + 1] == lone[j + 1];
      assert PairAt(pairs, keep, j) == PairAt(pairs, lone, j);
    } else {
      LastLoneIsAlone(pairs, n, q);
      assert keep[j + 1] == q;
    }
  }

  lemma {:induction false} FirstPairIs(pairs: Pairs, keep: seq<nat>, from: nat, i: nat)
    requires from <= i && i + 2 < |keep| && PairAt(pairs, keep, i)
    requires forall j: nat :: from <= j < i ==> !PairAt(pairs, keep, j)
    ensures FirstPair(pairs, keep, from) == Some(i)
    decreases i - from
  {
    if from < i {
      FirstPairIs(pairs, keep, from + 1, i);
    }
  }

  /** At the end nothing is left to remove. */
  lemma NothingLeft(pairs: Pairs, n: nat)
    requires Discrete(pairs) && n > 0
    ensures FirstPair(pairs, WithoutBefore(pairs, n, n - 1), 1).None?
  {
    if n > 1 {
      var keep := WithoutBefore(pairs, n, n - 1);
      assert Between(pairs, n, n - 1);
      forall j: nat | 1 <= j && j + 2 < |keep| ensures !PairAt(pairs, keep, j) {
        LoneHasNoPair(pairs, n, n - 1, j);
        var lone := Lone(pairs, n, n - 1);
        assert keep[j] == lone[j] && keep[j + 1] == lone[j + 1];
        assert PairAt(pairs, keep, j) == PairAt(pairs, lone, j);
      }
    }
  }

  // ----- the whole loop -----------------------------------------------------

  /** The loop from `q` on ends at `stop`: it fits there or nothing is left, and at no pair on the way did it fit. */
  ghost predicate StopsAt(pairs: Pairs, fits: Fits, n: nat, q: nat, stop: nat) {
    && q <= stop <= n && Between(pairs, n, stop)
    && (fits(WithoutBefore(pairs, n, stop)) || forall p: nat :: stop <= p ==> !Prunable(pairs, n, p))
    && (forall p: nat :: q <= p < stop && Prunable(pairs, n, p) ==> !fits(WithoutBefore(pairs, n, p)))
  }

  lemma StopsBehindPair(pairs: Pairs, fits: Fits, n: nat, q: nat, stop: nat)
    requires StopsAt(pairs, fits, n, q + 2, stop) && q + 2 <= n && !fits(WithoutBefore(pairs, n, q))
      && !Prunable(pairs, n, q + 1)
    ensures StopsAt(pairs, fits, n, q, stop)
  {
    forall p: nat | q <= p < stop && Prunable(pairs, n, p) ensures !fits(WithoutBefore(pairs, n, p)) {
      assert p == q || p >= q + 2;
    }
  }

  lemma StopsBehindLone(pairs: Pairs, fits: Fits, n: nat, q: nat, stop: nat)
    requires StopsAt(pairs, fits, n, q + 1, stop) && q < n && !Prunable(pairs, n, q)
    ensures StopsAt(pairs, fits, n, q, stop)
  {
    forall p: nat | q <= p < stop && Prunable(pairs, n, p) ensures !fits(WithoutBefore(pairs, n, p)) {
      assert p >= q + 1;
    }
  }

  /** One round of the loop at a pair. */
  lemma Round(pairs: Pairs, fits: Fits, n: nat, q: nat)
    requires Discrete(pairs) && Between(pairs, n, q) && Prunable(pairs, n, q)
    ensures Survivors(pairs, fits, WithoutBefore(pairs, n, q)) ==
      if fits(WithoutBefore(pairs, n, q)) then WithoutBefore(pairs, n, q)
      else Survivors(pairs, fits, WithoutBefore(pairs, n, q + 2))
  {
    FirstIsPrunable(pairs, n, q);
    RemovePair(pairs, n, q);
  }

  lemma {:induction false} LoopStops(pairs: Pairs, fits: Fits, n: nat, q: nat) returns (stop: nat)
    requires Discrete(pairs) && q < n && Between(pairs, n, q)
    ensures StopsAt(pairs, fits, n, q, stop)
    ensures Survivors(pairs, fits, WithoutBefore(pairs, n, q)) == WithoutBefore(pairs, n, stop)
    decreases n - q
  {
    if Prunable(pairs, n, q) {
      Round(pairs, fits, n, q);
      if fits(WithoutBefore(pairs, n, q)) {
        stop := q;
      } else {
        NeighboursNotPrunable(pairs, n, q);
        stop := LoopStops(pairs, fits, n, q + 2);
        StopsBehindPair(pairs, fits, n, q, stop);
      }
    } else if q == n - 1 {
      NothingLeft(pairs, n);
      stop := q;
    } else {
      PassLone(pairs, n, q);
      stop := LoopStops(pairs, fits, n, q + 1);
      StopsBehindLone(pairs, fits, n, q, stop);
    }
  }

  /** The whole loop leaves the original list without its oldest prunable pairs: as few of them as do. */
  lemma SurvivorsArePrefix(pairs: Pairs, fits: Fits, n: nat) returns (stop: nat)
    requires Discrete(pairs) && n > 0
    ensures StopsAt(pairs, fits, n, 0, stop)
    ensures Survivors(pairs, fits, All(n)) == WithoutBefore(pairs, n, stop)
  {
    assert WithoutBefore(pairs, n, 0) == All(n);
    stop := LoopStops(pairs, fits, n, 0);
  }

  // ----- which pairs stay ---------------------------------------------------

  lemma {:induction false} LoneMembers(pairs: Pairs, n: nat, q: nat, i: nat)
    ensures i in Lone(pairs, n, q) <==> i < q && !InPair(pairs, n, i)
    decreases q
  {
    if q > 0 {
      LoneMembers(pairs, n, q - 1, i);
    }
  }

  lemma WithoutBeforeMembers(pairs: Pairs, n: nat, q: nat, i: nat)
    requires q <= n
    ensures i in WithoutBefore(pairs, n, q) <==> i < n && (i < q ==> !InPair(pairs, n, i))
  {
    LoneMembers(pairs, n, q, i);
    assert i in From(q, n) <==> q <= i < n by {
      if q <= i < n {
        assert From(q, n)[i - q] == i;
      }
    }
  }

  /** The first `n` elements are in their places. */
  predicate Front(left: seq<nat>, n: nat) {
    n <= |left| && forall i :: 0 <= i < n ==> left[i] == i
  }

  predicate PrunableBefore(pairs: Pairs, n: nat, k: nat) {
    exists p: nat :: p < k && Prunable(pairs, n, p)
  }

  lemma {:induction false} LoneFront(pairs: Pairs, n: nat, q: nat, k: nat)
    requires !PrunableBefore(pairs, n, k)
    ensures Front(Lone(pairs, n, q), if q < k then q else k)
    decreases q
  {
    if q > 0 {
      LoneFront(pairs, n, q - 1, k);
    }
  }

  /** Elements before the first prunable pair stay where they are. */
  lemma WithoutBeforeFront(pairs: Pairs, n: nat, q: nat, k: nat)
    requires q <= n && k <= n && !PrunableBefore(pairs, n, k)
    ensures Front(WithoutBefore(pairs, n, q), k)
  {
    LoneFront(pairs, n, q, k);
  }

  lemma NoneBefore(pairs: Pairs, n: nat, q: nat)
    requires q <= n && !PrunableBefore(pairs, n, q)
    ensures WithoutBefore(pairs, n, q) == All(n)
  {
    LoneFront(pairs, n, q, q);
  }

  /** A prunable pair before `k`, when the whole list does not fit: one of them goes. */
  lemma SomePairGoes(pairs: Pairs, fits: Fits, n: nat, k: nat) returns (p: nat)
    requires Discrete(pairs) && PrunableBefore(pairs, n, k) && !fits(All(n))
    ensures p < k && Prunable(pairs, n, p) && p !in Survivors(pairs, fits, All(n))
  {
    var stop := SurvivorsArePrefix(pairs, fits, n);
    p :| p < k && Prunable(pairs, n, p);
    if stop <= p {
      assert fits(WithoutBefore(pairs, n, stop));
      if !PrunableBefore(pairs, n, stop) {
        NoneBefore(pairs, n, stop);
        assert false;
      }
      p :| p < stop && Prunable(pairs, n, p);
    }
    WithoutBeforeMembers(pairs, n, stop, p);
  }

  /** The first `k` elements stay in their places exactly when the list fits or no prunable pair starts among them. */
  lemma FrontStaysIff(pairs: Pairs, fits: Fits, n: nat, k: nat)
    requires Discrete(pairs) && k <= n
    ensures Front(Survivors(pairs, fits, All(n)), k) <==> fits(All(n)) || !PrunableBefore(pairs, n, k)
  {
    if !fits(All(n)) {
      if PrunableBefore(pairs, n, k) {
        var p := SomePairGoes(pairs, fits, n, k);
        if Front(Survivors(pairs, fits, All(n)), k) {
          FrontIsThere(Survivors(pairs, fits, All(n)), k, p);
        }
      } else if n > 0 {
        var stop := SurvivorsArePrefix(pairs, fits, n);
        WithoutBeforeFront(pairs, n, stop, k);
      }
    }
  }

  lemma FrontIsThere(left: seq<nat>, k: nat, p: nat)
    requires Front(left, k) && p < k
    ensures p in left
  {
    assert left[p] == p;
  }

  /** `r` is `s` without one of its pairs of neighbours. */
  predicate IsRemoval(n: nat, s: seq<nat>, i: nat, r: seq<nat>) {
    Indices(s, n) && i + 2 < |s| && r == WithoutPair(s, i)
  }

  /** Once it fits, it fits with more pairs gone. */
  ghost predicate Shrinks(fits: Fits, n: nat) {
    forall s: seq<nat>, i: nat, r: seq<nat> :: IsRemoval(n, s, i, r) && fits(s) ==> fits(r)
  }

  lemma WithoutBeforeIndices(pairs: Pairs, n: nat, q: nat)
    requires q <= n
    ensures Indices(WithoutBefore(pairs, n, q), n)
  {
    LoneAscends(pairs, n, q);
  }

  lemma {:induction false} LoneAscends(pairs: Pairs, n: nat, q: nat)
    requires q <= n
    ensures Indices(Lone(pairs, n, q), q)
    decreases q
  {
    if q > 0 {
      LoneAscends(pairs, n, q - 1);
    }
  }

  lemma FitsBehindPair(pairs: Pairs, fits: Fits, n: nat, p: nat)
    requires Discrete(pairs) && Shrinks(fits, n)
    requires Between(pairs, n, p) && Prunable(pairs, n, p) && fits(WithoutBefore(pairs, n, p))
    ensures Between(pairs, n, p + 2) && fits(WithoutBefore(pairs, n, p + 2))
  {
    RemovePair(pairs, n, p);
    WithoutBeforeIndices(pairs, n, p);
    assert IsRemoval(n, WithoutBefore(pairs, n, p), |Lone(pairs, n, p)|, WithoutBefore(pairs, n, p + 2));
  }

  lemma {:induction false} StaysFitting(pairs: Pairs, fits: Fits, n: nat, p: nat, q: nat)
    requires Discrete(pairs) && Shrinks(fits, n)
    requires p <= q < n && Between(pairs, n, p) && Between(pairs, n, q) && fits(WithoutBefore(pairs, n, p))
    ensures fits(WithoutBefore(pairs, n, q))
    decreases q - p
  {
    if p < q {
      if Prunable(pairs, n, p) {
        FitsBehindPair(pairs, fits, n, p);
        StaysFitting(pairs, fits, n, p + 2, q);
      } else {
        PassLone(pairs, n, p);
        StaysFitting(pairs, fits, n, p + 1, q);
      }
    }
  }

  /** A prunable pair stays exactly when the list without the prunable pairs before it fits. */
  lemma PairStaysIff(pairs: Pairs, fits: Fits, n: nat, k: nat)
    requires Discrete(pairs) && Shrinks(fits, n) && Prunable(pairs, n, k)
    ensures KeptWith(pairs, fits, n, k) <==> fits(WithoutBefore(pairs, n, k))
  {
    var stop := SurvivorsArePrefix(pairs, fits, n);
    WithoutBeforeMembers(pairs, n, stop, k);
    WithoutBeforeMembers(pairs, n, stop, k + 1);
    NeighboursNotPrunable(pairs, n, k);
    if stop <= k && fits(WithoutBefore(pairs, n, stop)) {
      StaysFitting(pairs, fits, n, stop, k);
    }
  }
}
