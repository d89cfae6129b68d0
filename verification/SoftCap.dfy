/**
 * The soft-cap reduction as a whole: eject, prune, drop unused tool
 * definitions, stopping as soon as the serialized body fits.
 */
module SoftCap {
  import opened Wrappers
  import opened Json
  import opened Messages
  import opened Ejection
  import opened Pruning

  datatype ReductionReport = ReductionReport(
    bytesBefore: nat, bytesAfter: nat,
    tierAEjected: nat, tierABytesRecovered: nat,
    tierBPairsPruned: nat, tierCToolsDropped: nat,
    irreducible: bool)

  // ----- tier C -------------------------------------------------------------

  /** Names called by some tool_use of the messages. */
  function Referenced(ms: seq<Json>): (r: set<string>)
    ensures forall n :: n in r <==> Calls(ms, n)
  {
    set m, b | m in ms && Blocks(m).Some? && b in Blocks(m).value && IsToolUse(b) && ToolName(b).Some?
      :: ToolName(b).value
  }

  /** Some surviving tool_use names `n`. */
  predicate Calls(ms: seq<Json>, n: string) {
    exists m, b :: m in ms && Blocks(m).Some? && b in Blocks(m).value && IsToolUse(b) && ToolName(b) == Some(n)
  }

  function ToolsOf(v: Json): Option<seq<Json>> {
    AsArr(Get(v, "tools"))
  }

  function KeptTools(tools: seq<Json>, referenced: set<string>): (r: seq<Json>)
    ensures |r| <= |tools|
    ensures ItemsSize(r) <= ItemsSize(tools)
  {
    if tools == [] then []
    else
      var name := ToolName(tools[0]);
      var rest := KeptTools(tools[1..], referenced);
      if name.Some? && name.value !in referenced then rest
      else
        assert ([tools[0]] + rest)[1..] == rest;
        [tools[0]] + rest
  }

  lemma {:induction false} KeptToolsMembers(tools: seq<Json>, referenced: set<string>)
    ensures forall t :: t in KeptTools(tools, referenced) <==>
              t in tools && (ToolName(t).Some? ==> ToolName(t).value in referenced)
  {
    if tools != [] {
      KeptToolsMembers(tools[1..], referenced);
      assert tools == [tools[0]] + tools[1..];
    }
  }

  function TierC(v: Json): Json {
    if ToolsOf(v).None? then v
    else
      var ms := MessagesOf(v);
      Set(v, "tools", Arr(KeptTools(ToolsOf(v).value, Referenced(if ms.Some? then ms.value else []))))
  }

  lemma TierCFacts(v: Json)
    ensures Size(TierC(v)) <= Size(v)
    ensures MessagesOf(TierC(v)) == MessagesOf(v)
    ensures ToolsOf(v).Some? ==> ToolsOf(TierC(v)).Some?
    ensures ToolsOf(v).Some? && MessagesOf(v).Some? ==>
              forall t :: t in ToolsOf(TierC(v)).value <==>
                   t in ToolsOf(v).value && (ToolName(t).Some? ==> Calls(MessagesOf(v).value, ToolName(t).value))
  {
    if ToolsOf(v).Some? {
      var ms := MessagesOf(v);
      var kept := KeptTools(ToolsOf(v).value, Referenced(if ms.Some? then ms.value else []));
      GetSet(v, "tools", Arr(kept), "tools");
      GetSet(v, "tools", Arr(kept), "messages");
      SizeSet(v, "tools", Arr(kept));
      KeptToolsMembers(ToolsOf(v).value, Referenced(if ms.Some? then ms.value else []));
    }
  }

  // ----- the pipeline -------------------------------------------------------

  function BodyA(v: Json, cap: nat): Json {
    if MessagesOf(v).None? then v else WithMessages(v, TierA(v, cap).0)
  }

  function BodyB(v: Json, cap: nat): Json {
    if MessagesOf(v).None? then v else WithMessages(v, TierB(v, MessagesOf(v).value, cap))
  }

  function Reduced(v: Json, cap: nat): Json {
    if cap == 0 || Size(v) <= cap then v
    else if Size(BodyA(v, cap)) <= cap then BodyA(v, cap)
    else if Size(BodyB(BodyA(v, cap), cap)) <= cap then BodyB(BodyA(v, cap), cap)
    else TierC(BodyB(BodyA(v, cap), cap))
  }

  /** Tiers A and B touch the messages field only, and never grow the body. */
  lemma BodyFacts(v: Json, cap: nat)
    ensures Size(BodyA(v, cap)) <= Size(v)
    ensures MessagesOf(v).Some? ==> MessagesOf(BodyA(v, cap)) == Some(TierA(v, cap).0)
    ensures ToolsOf(BodyA(v, cap)) == ToolsOf(v)
    ensures MessagesOf(v).None? ==> MessagesOf(BodyA(v, cap)).None?
  {
    if MessagesOf(v).Some? {
      TierAFacts(v, cap);
      GetSet(v, "messages", Arr(TierA(v, cap).0), "messages");
      GetSet(v, "messages", Arr(TierA(v, cap).0), "tools");
    }
  }

  lemma BodyBFacts(v: Json, cap: nat)
    ensures Size(BodyB(v, cap)) <= Size(v)
    ensures MessagesOf(v).Some? ==> MessagesOf(BodyB(v, cap)) == Some(TierB(v, MessagesOf(v).value, cap))
    ensures ToolsOf(BodyB(v, cap)) == ToolsOf(v)
  {
    if MessagesOf(v).Some? {
      var ms := MessagesOf(v).value;
      TierBSize(v, ms, cap);
      WithSameMessages(v);
      GetSet(v, "messages", Arr(TierB(v, ms, cap)), "messages");
      GetSet(v, "messages", Arr(TierB(v, ms, cap)), "tools");
    }
  }

  /** The reduction never grows the body. */
  lemma ReducedSize(v: Json, cap: nat)
    ensures Size(Reduced(v, cap)) <= Size(v)
  {
    BodyFacts(v, cap);
    BodyBFacts(BodyA(v, cap), cap);
    TierCFacts(BodyB(BodyA(v, cap), cap));
  }

  // ----- what every reduction preserves -------------------------------------

  lemma SameMessageIds(a: Json, b: Json)
    requires SameMessage(a, b)
    ensures ToolUseIds(a) == ToolUseIds(b) && ResultIds(a) == ResultIds(b)
  {
    if Blocks(a).Some? {
      var xs, ys := Blocks(a).value, Blocks(b).value;
      forall id ensures id in ToolUseIds(a) <==> id in ToolUseIds(b) {
        if id in ToolUseIds(a) {
          var k :| 0 <= k < |xs| && IsToolUse(xs[k]) && UseId(xs[k]) == Some(id);
          assert SameBlock(xs[k], ys[k]) && ys[k] in ys;
        }
        if id in ToolUseIds(b) {
          var k :| 0 <= k < |ys| && IsToolUse(ys[k]) && UseId(ys[k]) == Some(id);
          assert SameBlock(xs[k], ys[k]) && xs[k] in xs;
        }
      }
      forall id ensures id in ResultIds(a) <==> id in ResultIds(b) {
        if id in ResultIds(a) {
          var k :| 0 <= k < |xs| && IsToolResult(xs[k]) && ResultId(xs[k]) == Some(id);
          assert SameBlock(xs[k], ys[k]) && ys[k] in ys;
        }
        if id in ResultIds(b) {
          var k :| 0 <= k < |ys| && IsToolResult(ys[k]) && ResultId(ys[k]) == Some(id);
          assert SameBlock(xs[k], ys[k]) && xs[k] in xs;
        }
      }
    }
  }

  /** What holds of each block of a message up to ejection holds after it. */
  lemma SameMessageRules(a: Json, b: Json, valid: set<string>, next: Json)
    requires SameMessage(a, b)
    ensures RoleShaped(a) ==> RoleShaped(b)
    ensures MessageAnswers(a, valid) ==> MessageAnswers(b, valid)
    ensures CallsAnswered(a, next) ==> CallsAnswered(b, next)
  {
    if Blocks(a).Some? {
      var xs, ys := Blocks(a).value, Blocks(b).value;
      forall y | y in ys ensures exists k :: 0 <= k < |ys| && ys[k] == y && SameBlock(xs[k], y) && xs[k] in xs {
        var k :| 0 <= k < |ys| && ys[k] == y;
        assert SameBlock(xs[k], ys[k]);
      }
    }
  }

  lemma SameShapePairing(a: seq<Json>, b: seq<Json>)
    requires SameShape(a, b) && TwoSided(a)
    ensures TwoSided(b)
  {
    forall i | 0 <= i < |b| ensures RoleShaped(b[i]) && MessageAnswers(b[i], IdsBefore({}, b, i)) {
      assert RoleShaped(a[i]) && MessageAnswers(a[i], IdsBefore({}, a, i));
      if i > 0 {
        SameMessageIds(a[i - 1], b[i - 1]);
      }
      SameMessageRules(a[i], b[i], IdsBefore({}, a, i), a[i]);
    }
    forall i | 0 <= i < |b| - 1 ensures CallsAnswered(b[i], b[i + 1]) {
      assert CallsAnswered(a[i], a[i + 1]);
      SameMessageIds(a[i + 1], b[i + 1]);
      SameMessageRules(a[i], b[i], {}, a[i + 1]);
      assert CallsAnswered(b[i], a[i + 1]);
    }
  }

  /** The messages the reduction ends with. */
  function ReducedMessages(v: Json, cap: nat): seq<Json>
    requires MessagesOf(v).Some?
  {
    var a := TierA(v, cap).0;
    if cap == 0 || Size(v) <= cap then MessagesOf(v).value
    else if Size(BodyA(v, cap)) <= cap then a
    else TierB(BodyA(v, cap), a, cap)
  }

  lemma ReducedMessagesAre(v: Json, cap: nat)
    requires MessagesOf(v).Some?
    ensures MessagesOf(Reduced(v, cap)) == Some(ReducedMessages(v, cap))
  {
    BodyFacts(v, cap);
    BodyBFacts(BodyA(v, cap), cap);
    TierCFacts(BodyB(BodyA(v, cap), cap));
  }

  /** The first and the last message are those of `ms`, up to ejected contents. */
  predicate EndsKept(ms: seq<Json>, out: seq<Json>) {
    && ms != [] && out != []
    && SameMessage(ms[0], out[0]) && SameMessage(ms[|ms| - 1], out[|out| - 1])
  }

  lemma ShapeKeepsEnds(ms: seq<Json>, a: seq<Json>, out: seq<Json>)
    requires ms != [] && SameShape(ms, a) && out != [] && out[0] == a[0] && out[|out| - 1] == a[|a| - 1]
    ensures EndsKept(ms, out)
  {
    assert SameMessage(ms[0], a[0]) && SameMessage(ms[|ms| - 1], a[|ms| - 1]);
  }

  /** Message 0 and the last message stay. */
  lemma ReducedEnds(v: Json, cap: nat)
    requires MessagesOf(v).Some? && MessagesOf(v).value != []
    ensures MessagesOf(Reduced(v, cap)) == Some(ReducedMessages(v, cap))
    ensures EndsKept(MessagesOf(v).value, ReducedMessages(v, cap))
  {
    var ms, a := MessagesOf(v).value, TierA(v, cap).0;
    ReducedMessagesAre(v, cap);
    if cap == 0 || Size(v) <= cap {
      SameShapeRefl(ms);
      ShapeKeepsEnds(ms, ms, ms);
    } else {
      assert SameShape(ms, a) by {
        TierAFacts(v, cap);
      }
      if Size(BodyA(v, cap)) <= cap {
        ShapeKeepsEnds(ms, a, a);
      } else {
        TierBEnds(BodyA(v, cap), a, cap);
        ShapeKeepsEnds(ms, a, TierB(BodyA(v, cap), a, cap));
      }
    }
  }

  /** Every reduction of every two-sided request is two-sided. */
  lemma ReducedPairing(v: Json, cap: nat)
    requires MessagesOf(v).Some? && TwoSided(MessagesOf(v).value)
    ensures MessagesOf(Reduced(v, cap)) == Some(ReducedMessages(v, cap))
    ensures TwoSided(ReducedMessages(v, cap))
  {
    var a := TierA(v, cap).0;
    ReducedMessagesAre(v, cap);
    if cap != 0 && Size(v) > cap {
      assert SameShape(MessagesOf(v).value, a) by {
        TierAFacts(v, cap);
      }
      SameShapePairing(MessagesOf(v).value, a);
      if Size(BodyA(v, cap)) > cap {
        TierBPairing(BodyA(v, cap), a, cap);
      }
    }
  }

  lemma SameShapeResults(a: seq<Json>, b: seq<Json>)
    requires SameShape(a, b) && ResultsPaired(a)
    ensures ResultsPaired(b)
  {
    forall i | 0 <= i < |b| ensures MessageAnswers(b[i], IdsBefore({}, b, i)) {
      assert MessageAnswers(a[i], IdsBefore({}, a, i));
      if i > 0 {
        SameMessageIds(a[i - 1], b[i - 1]);
      }
      SameMessageRules(a[i], b[i], IdsBefore({}, a, i), a[i]);
    }
  }

  /** The reduction orphans no result: what the repair established, it keeps. */
  lemma ReducedResults(v: Json, cap: nat)
    requires MessagesOf(v).Some? && ResultsPaired(MessagesOf(v).value)
    ensures MessagesOf(Reduced(v, cap)) == Some(ReducedMessages(v, cap))
    ensures ResultsPaired(ReducedMessages(v, cap))
  {
    var a := TierA(v, cap).0;
    ReducedMessagesAre(v, cap);
    if cap != 0 && Size(v) > cap {
      assert SameShape(MessagesOf(v).value, a) by {
        TierAFacts(v, cap);
      }
      SameShapeResults(MessagesOf(v).value, a);
      if Size(BodyA(v, cap)) > cap {
        TierBResults(BodyA(v, cap), a, cap);
      }
    }
  }

  lemma TierCKeeps(v: Json, t: Json)
    requires MessagesOf(v).Some? && ToolsOf(v).Some? && t in ToolsOf(v).value
    requires ToolName(t).Some? ==> Calls(MessagesOf(v).value, ToolName(t).value)
    ensures ToolsOf(TierC(v)).Some? && t in ToolsOf(TierC(v)).value
  {
    TierCFacts(v);
  }

  /** Tiers A and B leave the tools alone. */
  lemma BodyBTools(v: Json, cap: nat)
    requires MessagesOf(v).Some?
    ensures var w := BodyB(BodyA(v, cap), cap);
      MessagesOf(w) == Some(TierB(BodyA(v, cap), TierA(v, cap).0, cap))
        && ToolsOf(w) == ToolsOf(v) == ToolsOf(BodyA(v, cap))
  {
    BodyFacts(v, cap);
    BodyBFacts(BodyA(v, cap), cap);
  }

  /** A definition the request had for a tool that some surviving tool_use names is never dropped. */
  lemma ReducedTools(v: Json, cap: nat, t: Json)
    requires MessagesOf(v).Some? && ToolsOf(v).Some? && t in ToolsOf(v).value
    requires ToolName(t).Some? ==> Calls(ReducedMessages(v, cap), ToolName(t).value)
    ensures ToolsOf(Reduced(v, cap)).Some? && t in ToolsOf(Reduced(v, cap)).value
  {
    BodyBTools(v, cap);
    var w := BodyB(BodyA(v, cap), cap);
    if cap > 0 && Size(v) > cap && Size(BodyA(v, cap)) > cap && Size(w) > cap {
      TierCKeeps(w, t);
    }
  }

  // ----- the pass -----------------------------------------------------------

  method DropUnreferencedTools(req: Request) returns (dropped: nat)
    modifies req
    ensures req.body == TierC(old(req.body))
    ensures ToolsOf(old(req.body)).None? ==> dropped == 0
    ensures ToolsOf(old(req.body)).Some? && ToolsOf(req.body).Some? ==>
              dropped == |ToolsOf(old(req.body)).value| - |ToolsOf(req.body).value|
  {
    if ToolsOf(req.body).None? {
      return 0;
    }
    var tools := ToolsOf(req.body).value;
    var ms := MessagesOf(req.body);
    var kept := KeptTools(tools, Referenced(if ms.Some? then ms.value else []));
    GetSet(req.body, "tools", Arr(kept), "tools");
    req.body := Set(req.body, "tools", Arr(kept));
    return |tools| - |kept|;
  }

  lemma TierALength(v: Json, cap: nat)
    ensures MessagesOf(v).Some? ==> |TierA(v, cap).0| == |MessagesOf(v).value|
  {
    if MessagesOf(v).Some? {
      TierAFacts(v, cap);
    }
  }

  /**
   * Reduces in place. The report gives the true sizes; for a positive cap the
   * request either fits or is flagged irreducible, never both.
   */
  method EnforceSoftCap(req: Request, cap: nat) returns (report: ReductionReport)
    modifies req
    ensures req.body == Reduced(old(req.body), cap)
    ensures report.bytesBefore == Size(old(req.body)) && report.bytesAfter == Size(req.body) <= report.bytesBefore
    ensures cap == 0 ==> req.body == old(req.body) && !report.irreducible
    ensures cap > 0 ==> (report.irreducible <==> Size(req.body) > cap)
    ensures MessagesOf(old(req.body)).Some? ==>
              && MessagesOf(req.body).Some?
              && 2 * report.tierBPairsPruned == |MessagesOf(old(req.body)).value| - |MessagesOf(req.body).value|
    ensures MessagesOf(old(req.body)).Some? && 0 < cap < Size(old(req.body)) ==>
              var k := TierA(old(req.body), cap).1;
              && report.tierAEjected == k
              && report.tierABytesRecovered == TotalSize(Candidates(MessagesOf(old(req.body)).value)[..k])
    ensures ToolsOf(old(req.body)).Some? ==>
              && ToolsOf(req.body).Some?
              && report.tierCToolsDropped == |ToolsOf(old(req.body)).value| - |ToolsOf(req.body).value|
  {
    ReducedSize(req.body, cap);
    report := ReductionReport(Size(req.body), Size(req.body), 0, 0, 0, 0, false);
    if cap == 0 || report.bytesBefore <= cap {
      return;
    }
    ghost var v := req.body;
    BodyFacts(v, cap);
    BodyBFacts(BodyA(v, cap), cap);
    TierCFacts(BodyB(BodyA(v, cap), cap));
    TierALength(v, cap);
    var ejected, recovered := EjectLargeToolResults(req, cap);
    assert req.body == BodyA(v, cap);
    report := report.(tierAEjected := ejected, tierABytesRecovered := recovered, bytesAfter := Size(req.body));
    if report.bytesAfter <= cap {
      return;
    }
    var pruned := PruneOldestInflightPairs(req, cap);
    assert req.body == BodyB(BodyA(v, cap), cap);
    report := report.(tierBPairsPruned := pruned, bytesAfter := Size(req.body));
    if report.bytesAfter <= cap {
      return;
    }
    var dropped := DropUnreferencedTools(req);
    report := report.(tierCToolsDropped := dropped, bytesAfter := Size(req.body));
    if report.bytesAfter <= cap {
      return;
    }
    report := report.(irreducible := true);
  }
}
