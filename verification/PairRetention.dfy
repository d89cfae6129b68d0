/**
 * Which tool_use / tool_result pairs the soft cap lets through: tier B takes
 * the oldest away, as few as do, so whether a pair stays can be told from the
 * size of the request without the pairs before it.
 */
module PairRetention {
  import opened Wrappers
  import opened Json
  import opened Messages
  import opened Ejection
  import opened Pruning
  import opened PairRemoval
  import opened SoftCap
  import PrunedPrefix

  // ----- tier B as a prefix -------------------------------------------------

  /** A pair that tier B may take: neither the first message nor the last is in it. */
  predicate PrunablePair(ms: seq<Json>, p: nat) {
    1 <= p && p + 2 < |ms| && IsPair(ms[p], ms[p + 1])
  }

  /** The messages without the prunable pairs that start before `q`. */
  function WithoutPairsBefore(ms: seq<Json>, q: nat): seq<Json>
    requires q <= |ms|
  {
    PrunedPrefix.WithoutBeforeIndices(PairsOf(ms), |ms|, q);
    Select(ms, PrunedPrefix.WithoutBefore(PairsOf(ms), |ms|, q))
  }

  /** In a two-sided request the message after a call is no call, so removing a pair brings no new pair together. */
  lemma TwoSidedIsDiscrete(ms: seq<Json>)
    requires TwoSided(ms)
    ensures PrunedPrefix.Discrete(PairsOf(ms))
  {
    PairsAlternate(ms);
    forall a: nat, next: nat, b: nat, c: nat | next == a + 1 && PairsOf(ms)(a, b) ensures !PairsOf(ms)(next, c) {
      if next < |ms| && IsAssistant(ms[next]) {
        assert CallsAnswered(ms[a], ms[a + 1]) && RoleShaped(ms[next]);
        NoResultsInAssistant(ms[next]);
      }
    }
  }

  lemma FitsShrinks(v: Json, ms: seq<Json>, cap: nat)
    requires Get(v, "messages").Some?
    ensures PrunedPrefix.Shrinks(FitsCap(v, ms, cap), |ms|)
  {
    forall s: seq<nat>, i: nat, r: seq<nat> | PrunedPrefix.IsRemoval(|ms|, s, i, r) && FitsCap(v, ms, cap)(s)
      ensures FitsCap(v, ms, cap)(r)
    {
      IndicesWithout(s, |ms|, i);
      SelectWithoutPair(ms, s, i);
      PruneShrinks(v, Select(ms, s), i);
    }
  }

  /** Tier B stopped at `stop`: it fits there or no prunable pair is left, and it fitted before no earlier pair. */
  ghost predicate ShortestPrefix(v: Json, ms: seq<Json>, cap: nat, stop: nat) {
    && stop <= |ms|
    && (BodySize(v, WithoutPairsBefore(ms, stop)) <= cap || forall p: nat :: stop <= p ==> !PrunablePair(ms, p))
    && (forall p: nat :: p < stop && PrunablePair(ms, p) ==> BodySize(v, WithoutPairsBefore(ms, p)) > cap)
  }

  /**
   * Of a two-sided request tier B removes a prefix of the prunable pairs,
   * oldest first, and the shortest one that fits the cap, or all of them.
   */
  lemma TierBShortest(v: Json, ms: seq<Json>, cap: nat) returns (stop: nat)
    requires TwoSided(ms) && ms != []
    ensures ShortestPrefix(v, ms, cap, stop) && TierB(v, ms, cap) == WithoutPairsBefore(ms, stop)
  {
    TwoSidedIsDiscrete(ms);
    stop := PrunedPrefix.SurvivorsArePrefix(PairsOf(ms), FitsCap(v, ms, cap), |ms|);
    PrefixInMessages(v, ms, cap, stop);
  }

  lemma PrefixInMessages(v: Json, ms: seq<Json>, cap: nat, stop: nat)
    requires PrunedPrefix.StopsAt(PairsOf(ms), FitsCap(v, ms, cap), |ms|, 0, stop)
    ensures ShortestPrefix(v, ms, cap, stop)
  {
    PrunedPrefix.WithoutBeforeIndices(PairsOf(ms), |ms|, stop);
    forall p: nat | PrunablePair(ms, p) ensures PrunedPrefix.Prunable(PairsOf(ms), |ms|, p) {
    }
    forall p: nat | p < stop && PrunablePair(ms, p) ensures BodySize(v, WithoutPairsBefore(ms, p)) > cap {
      assert PrunedPrefix.Prunable(PairsOf(ms), |ms|, p);
      PrunedPrefix.WithoutBeforeIndices(PairsOf(ms), |ms|, p);
      assert !FitsCap(v, ms, cap)(PrunedPrefix.WithoutBefore(PairsOf(ms), |ms|, p));
    }
  }

  lemma FitsIs(v: Json, ms: seq<Json>, cap: nat, q: nat)
    requires q <= |ms|
    ensures FitsCap(v, ms, cap)(PrunedPrefix.WithoutBefore(PairsOf(ms), |ms|, q))
      <==> BodySize(v, WithoutPairsBefore(ms, q)) <= cap
  {
    PrunedPrefix.WithoutBeforeIndices(PairsOf(ms), |ms|, q);
  }

  lemma RetainedIsKept(v: Json, ms: seq<Json>, k: nat, cap: nat)
    ensures Retained(v, ms, k, cap) <==> KeptWith(PairsOf(ms), FitsCap(v, ms, cap), |ms|, k)
  {
  }

  /** Tier B lets a prunable pair through exactly when the request without the prunable pairs before it fits. */
  lemma TierBRetainsIff(v: Json, ms: seq<Json>, k: nat, cap: nat)
    requires Get(v, "messages").Some? && PrunedPrefix.Discrete(PairsOf(ms)) && PrunablePair(ms, k)
    ensures Retained(v, ms, k, cap) <==> BodySize(v, WithoutPairsBefore(ms, k)) <= cap
  {
    FitsShrinks(v, ms, cap);
    PrunedPrefix.PairStaysIff(PairsOf(ms), FitsCap(v, ms, cap), |ms|, k);
    RetainedIsKept(v, ms, k, cap);
    FitsIs(v, ms, cap, k);
  }

  // ----- which pairs go out -------------------------------------------------

  /** Pair `k` of the request goes out under `cap`. */
  predicate PairRetained(v: Json, k: nat, cap: nat)
    requires MessagesOf(v).Some?
  {
    || cap == 0 || Size(v) <= cap || Size(BodyA(v, cap)) <= cap
    || Retained(BodyA(v, cap), TierA(v, cap).0, k, cap)
  }

  lemma SameShapePair(a: seq<Json>, b: seq<Json>, k: nat)
    requires SameShape(a, b) && k + 1 < |a| && IsPair(a[k], a[k + 1])
    ensures IsPair(b[k], b[k + 1])
  {
    assert SameMessage(a[k], b[k]) && SameMessage(a[k + 1], b[k + 1]);
    var xs, ys := Blocks(a[k]).value, Blocks(b[k]).value;
    var j :| 0 <= j < |xs| && IsToolUse(xs[j]);
    assert SameBlock(xs[j], ys[j]) && ys[j] in ys;
    var us, ws := Blocks(a[k + 1]).value, Blocks(b[k + 1]).value;
    forall w | w in ws ensures IsToolResult(w) {
      var i :| 0 <= i < |ws| && ws[i] == w;
      assert SameBlock(us[i], ws[i]) && us[i] in us;
    }
  }

  /**
   * The cap in force retains a pair of a two-sided request exactly when the pair is the first
   * two messages or the last two, or the request fits, or tier A makes it fit,
   * or it fits without the prunable pairs before this one.
   */
  lemma PairRetainedIff(v: Json, k: nat, cap: nat)
    requires MessagesOf(v).Some? && TwoSided(MessagesOf(v).value)
    requires k + 1 < |MessagesOf(v).value| && IsPair(MessagesOf(v).value[k], MessagesOf(v).value[k + 1])
    ensures |TierA(v, cap).0| == |MessagesOf(v).value|
    ensures PairRetained(v, k, cap) <==>
              || k == 0 || k + 2 == |MessagesOf(v).value|
              || cap == 0 || Size(v) <= cap || Size(BodyA(v, cap)) <= cap
              || BodySize(BodyA(v, cap), WithoutPairsBefore(TierA(v, cap).0, k)) <= cap
  {
    var ms, a := MessagesOf(v).value, TierA(v, cap).0;
    assert SameShape(ms, a) by {
      TierAFacts(v, cap);
    }
    SameShapePairing(ms, a);
    SameShapePair(ms, a, k);
    BodyFacts(v, cap);
    TierBPairIff(BodyA(v, cap), a, k, cap);
  }

  lemma TierBPairIff(v: Json, a: seq<Json>, k: nat, cap: nat)
    requires Get(v, "messages").Some? && TwoSided(a) && k + 1 < |a| && IsPair(a[k], a[k + 1])
    ensures Retained(v, a, k, cap) <==>
              k == 0 || k + 2 == |a| || BodySize(v, WithoutPairsBefore(a, k)) <= cap
  {
    if k == 0 || k + 2 == |a| {
      RetainedUnder(v, a, k, cap);
    } else {
      TwoSidedIsDiscrete(a);
      TierBRetainsIff(v, a, k, cap);
    }
  }

  /**
   * Whatever the request, a pair is retained under every cap exactly when it is
   * the first two messages or the last two.
   */
  lemma AlwaysRetainedIff(v: Json, k: nat)
    requires MessagesOf(v).Some?
    requires k + 1 < |MessagesOf(v).value| && IsPair(MessagesOf(v).value[k], MessagesOf(v).value[k + 1])
    ensures (forall cap: nat :: PairRetained(v, k, cap)) <==> k == 0 || k + 2 == |MessagesOf(v).value|
  {
    if k == 0 || k + 2 == |MessagesOf(v).value| {
      forall cap: nat ensures PairRetained(v, k, cap) {
        PairUnderCap(v, k, cap);
      }
    } else {
      PairUnderCap(v, k, 1);
      assert !PairRetained(v, k, 1);
    }
  }

  lemma PairUnderCap(v: Json, k: nat, cap: nat)
    requires MessagesOf(v).Some?
    requires k + 1 < |MessagesOf(v).value| && IsPair(MessagesOf(v).value[k], MessagesOf(v).value[k + 1])
    ensures k == 0 || k + 2 == |MessagesOf(v).value| ==> PairRetained(v, k, cap)
    ensures k != 0 && k + 2 != |MessagesOf(v).value| && cap == 1 ==> !PairRetained(v, k, cap)
  {
    var a := TierA(v, cap).0;
    assert SameShape(MessagesOf(v).value, a) by {
      TierAFacts(v, cap);
    }
    BodyFacts(v, cap);
    SameShapePair(MessagesOf(v).value, a, k);
    RetainedUnder(BodyA(v, cap), a, k, cap);
  }

  // ----- the most recent pair -----------------------------------------------

  const MIB: nat := 1024 * 1024

  function Message(role: string, content: Json): Json {
    Obj([Field("role", Str(role)), Field("content", content)])
  }

  function CallBlock(input: string): Json {
    Obj([Field("type", Str("tool_use")), Field("id", Str("t")), Field("input", Str(input))])
  }

  function AnswerBlock(): Json {
    Obj([Field("type", Str("tool_result")), Field("tool_use_id", Str("t"))])
  }

  /** A question, one call, its answer, and a closing remark. */
  function Exchange(input: string, reply: string): (ms: seq<Json>)
    ensures |ms| == 4
  {
    [Message("user", Str("go")),
     Message("assistant", Arr([CallBlock(input)])),
     Message("user", Arr([AnswerBlock()])),
     Message("assistant", Str(reply))]
  }

  lemma SecondField(a: Field, b: Field, rest: seq<Field>)
    requires a.key != b.key
    ensures Lookup([a, b] + rest, b.key) == Some(b.value)
  {
    assert ([a, b] + rest)[1..] == [b] + rest;
  }

  lemma MessageFacts(role: string, content: Json)
    ensures Role(Message(role, content)) == Some(role)
    ensures Blocks(Message(role, content)) == AsArr(Some(content))
  {
    var f, g := Field("role", Str(role)), Field("content", content);
    assert [f, g] == [f, g] + [];
    SecondField(f, g, []);
  }

  lemma CallFacts(input: string)
    ensures var b := CallBlock(input);
            IsToolUse(b) && !IsToolResult(b) && UseId(b) == Some("t") && Size(b) >= |input|
  {
    var b := CallBlock(input);
    var f, g, h := b.fields[0], b.fields[1], b.fields[2];
    assert b.fields == [f, g] + [h];
    SecondField(f, g, [h]);
    assert b.fields[1..] == [g, h] && [g, h][1..] == [h];
    assert FieldsSize([h]) >= |input|;
    assert FieldsSize([g, h]) >= |input|;
  }

  lemma AnswerFacts()
    ensures var b := AnswerBlock();
            IsToolResult(b) && !IsToolUse(b) && ResultId(b) == Some("t") && ContentSize(b) == 0
  {
    var f, g := AnswerBlock().fields[0], AnswerBlock().fields[1];
    assert AnswerBlock().fields == [f, g] + [];
    SecondField(f, g, []);
    assert [f, g][1..] == [g] && [g][1..] == [];
    assert Lookup([g], "content").None?;
  }

  lemma ExchangeShape(input: string, reply: string)
    ensures var ms := Exchange(input, reply);
            && IsUser(ms[0]) && Blocks(ms[0]).None? && IsAssistant(ms[3]) && Blocks(ms[3]).None?
            && IsAssistant(ms[1]) && Blocks(ms[1]) == Some([CallBlock(input)])
            && IsUser(ms[2]) && Blocks(ms[2]) == Some([AnswerBlock()])
  {
    MessageFacts("user", Str("go"));
    MessageFacts("assistant", Arr([CallBlock(input)]));
    MessageFacts("user", Arr([AnswerBlock()]));
    MessageFacts("assistant", Str(reply));
  }

  lemma ExchangePairs(input: string, reply: string)
    ensures TwoSided(Exchange(input, reply)) && IsPair(Exchange(input, reply)[1], Exchange(input, reply)[2])
  {
    var ms := Exchange(input, reply);
    ExchangeShape(input, reply);
    CallFacts(input);
    AnswerFacts();
    var call, answer := CallBlock(input), AnswerBlock();
    assert call in Blocks(ms[1]).value && answer in Blocks(ms[2]).value;
    assert ToolUseIds(ms[1]) == {"t"} && ResultIds(ms[2]) == {"t"};
    forall i | 0 <= i < 4 ensures RoleShaped(ms[i]) && MessageAnswers(ms[i], IdsBefore({}, ms, i)) {
    }
    forall i | 0 <= i < 3 ensures CallsAnswered(ms[i], ms[i + 1]) {
    }
  }

  /** No result is large enough for tier A. */
  lemma ExchangeKeepsResults(input: string, reply: string)
    ensures CandidatesFrom(Exchange(input, reply), 0) == []
  {
    var ms := Exchange(input, reply);
    ExchangeShape(input, reply);
    CallFacts(input);
    AnswerFacts();
    assert CandidatesFrom(ms, 4) == [] && CandidatesFrom(ms, 3) == [];
    assert CandidatesIn([AnswerBlock()], 2, 1) == [];
    assert CandidatesFrom(ms, 2) == [];
    assert CandidatesIn([CallBlock(input)], 1, 1) == [];
    assert CandidatesFrom(ms, 1) == [];
  }

  lemma {:induction false} ItemAtMostItems(items: seq<Json>, i: nat)
    requires i < |items|
    ensures Size(items[i]) <= ItemsSize(items)
  {
    if i > 0 {
      ItemAtMostItems(items[1..], i - 1);
    }
  }

  lemma ExchangeSize(input: string, reply: string)
    ensures Size(Arr(Exchange(input, reply))) >= |input| && Size(Arr(Exchange(input, reply))) >= |reply|
  {
    CallFacts(input);
    ItemAtMostItems([CallBlock(input)], 0);
    MessageSize("assistant", Arr([CallBlock(input)]));
    MessageSize("assistant", Str(reply));
    ItemAtMostItems(Exchange(input, reply), 1);
    ItemAtMostItems(Exchange(input, reply), 3);
  }

  lemma MessageSize(role: string, content: Json)
    ensures Size(Message(role, content))
      == 11 + LiteralLen("role") + LiteralLen(role) + LiteralLen("content") + Size(content)
  {
    var f, g := Field("role", Str(role)), Field("content", content);
    assert [f, g][1..] == [g] && [g][1..] == [];
    assert FieldsSize([g]) == 2 + LiteralLen("content") + 1 + Size(content);
    assert FieldsSize([f, g]) == 2 + LiteralLen("role") + 1 + Size(f.value) + FieldsSize([g]);
  }

  function Body(ms: seq<Json>): Json {
    Obj([Field("messages", Arr(ms))])
  }

  /**
   * README.md line 174 says the most recent pair is always retained. Under a
   * cap of one MiB the only, hence most recent, pair of this request goes.
   */
  lemma MostRecentPairCanGo(input: string, reply: string)
    requires |input| > MIB || |reply| > MIB
    ensures TwoSided(Exchange(input, reply)) && IsPair(Exchange(input, reply)[1], Exchange(input, reply)[2])
    ensures MessagesOf(Body(Exchange(input, reply))) == Some(Exchange(input, reply))
    ensures !PairRetained(Body(Exchange(input, reply)), 1, MIB)
  {
    ExchangePairs(input, reply);
    ExchangeUntouched(input, reply);
    ExchangeTooLarge(input, reply);
    PairRetainedIff(Body(Exchange(input, reply)), 1, MIB);
    NoPairBeforeOne(Exchange(input, reply));
  }

  /** Tier A finds nothing to eject. */
  lemma ExchangeUntouched(input: string, reply: string)
    ensures var ms := Exchange(input, reply); var v := Body(ms);
            MessagesOf(v) == Some(ms) && TierA(v, MIB) == (ms, 0) && BodyA(v, MIB) == v && WithMessages(v, ms) == v
  {
    ExchangeKeepsResults(input, reply);
    assert Candidates(Exchange(input, reply)) == [];
  }

  lemma ExchangeTooLarge(input: string, reply: string)
    requires |input| > MIB || |reply| > MIB
    ensures Size(Body(Exchange(input, reply))) > MIB
  {
    ExchangeSize(input, reply);
    var f := Field("messages", Arr(Exchange(input, reply)));
    assert FieldsSize([f]) >= Size(f.value);
  }

  lemma NoPairBeforeOne(ms: seq<Json>)
    requires |ms| > 1
    ensures WithoutPairsBefore(ms, 1) == ms
  {
    PrunedPrefix.PassLone(PairsOf(ms), |ms|, 0);
    assert PrunedPrefix.WithoutBefore(PairsOf(ms), |ms|, 0) == All(|ms|);
    SelectAll(ms);
  }
}
