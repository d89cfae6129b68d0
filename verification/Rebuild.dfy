/**
 * The rebuild pass: everything before the cycle boundary is replaced by one
 * synthetic message, the in-flight chain is kept and repaired.
 */
module Rebuild {
  import opened Wrappers
  import opened Json
  import opened Messages
  import Repair

  // ----- composing the synthetic context ------------------------------------

  /** The optional sections, in the order in which a byte budget drops them. */
  datatype Sections = Sections(templates: Option<string>, tail: Option<string>, digests: Option<string>) {
    function Count(): nat {
      (if templates.Some? then 1 else 0) + (if tail.Some? then 1 else 0) + (if digests.Some? then 1 else 0)
    }

    /** Without the next section to go. */
    function Next(): (r: Sections)
      requires Count() > 0
      ensures r.Count() == Count() - 1
    {
      if templates.Some? then this.(templates := None)
      else if tail.Some? then this.(tail := None)
      else this.(digests := None)
    }

    /** Without the first `k` sections to go. */
    function Without(k: nat): (r: Sections)
      requires k <= Count()
      ensures r.Count() == Count() - k
      decreases k
    {
      if k == 0 then this else Next().Without(k - 1)
    }
  }

  /** The text composed for a dropped history and a choice of optional sections. */
  type Composer = (seq<Json>, Sections) -> string

  /** How many sections are dropped to meet the budget: as few as do, all of them if none do. */
  ghost predicate IsElision(compose: Composer, dropped: seq<Json>, sections: Sections, budget: Option<nat>, k: nat) {
    && k <= sections.Count()
    && (budget.None? ==> k == 0)
    && (budget.Some? ==>
          && (forall j :: 0 <= j < k ==> TextLen(compose(dropped, sections.Without(j))) > budget.value)
          && (k < sections.Count() ==> TextLen(compose(dropped, sections.Without(k))) <= budget.value))
  }

  lemma ElisionUnique(compose: Composer, dropped: seq<Json>, sections: Sections, budget: Option<nat>, k: nat, l: nat)
    requires IsElision(compose, dropped, sections, budget, k) && IsElision(compose, dropped, sections, budget, l)
    ensures k == l
  {
  }

  function Elision(compose: Composer, dropped: seq<Json>, sections: Sections, budget: Option<nat>, from: nat): (k: nat)
    requires from <= sections.Count()
    ensures from <= k <= sections.Count()
    ensures budget.None? ==> k == from
    ensures budget.Some? ==> forall j :: from <= j < k ==> TextLen(compose(dropped, sections.Without(j))) > budget.value
    ensures budget.Some? && k < sections.Count() ==> TextLen(compose(dropped, sections.Without(k))) <= budget.value
    decreases sections.Count() - from
  {
    if budget.Some? && TextLen(compose(dropped, sections.Without(from))) > budget.value && from < sections.Count()
    then Elision(compose, dropped, sections, budget, from + 1)
    else from
  }

  lemma {:induction false} WithoutStep(sections: Sections, k: nat)
    requires k < sections.Count()
    ensures sections.Without(k + 1) == sections.Without(k).Next()
    decreases k
  {
    if k > 0 {
      WithoutStep(sections.Next(), k - 1);
    } else {
      assert sections.Next().Without(0) == sections.Next();
    }
  }

  method Compose(compose: Composer, dropped: seq<Json>, sections: Sections, budget: Option<nat>)
    returns (synthetic: string, elided: nat)
    ensures IsElision(compose, dropped, sections, budget, elided)
    ensures elided == Elision(compose, dropped, sections, budget, 0)
    ensures synthetic == compose(dropped, sections.Without(elided))
  {
    var current := sections;
    synthetic, elided := compose(dropped, sections), 0;
    if budget.Some? {
      while TextLen(synthetic) > budget.value
        invariant elided <= sections.Count() && current == sections.Without(elided)
        invariant synthetic == compose(dropped, current)
        invariant forall j :: 0 <= j < elided ==> TextLen(compose(dropped, sections.Without(j))) > budget.value
        decreases sections.Count() - elided
      {
        if current.templates.None? && current.tail.None? && current.digests.None? {
          break;
        }
        WithoutStep(sections, elided);
        current := current.Next();
        elided := elided + 1;
        synthetic := compose(dropped, current);
      }
    }
    ElisionUnique(compose, dropped, sections, budget, elided, Elision(compose, dropped, sections, budget, 0));
  }

  // ----- the pass -----------------------------------------------------------

  /** A projection served before, and the boundary it was rendered against. */
  datatype FrozenSynthetic = FrozenSynthetic(text: string, boundaryFp: nat, boundaryIdx: nat)

  /** A deterministic digest of a document; nothing is assumed about collisions. */
  type Fingerprint = Json -> nat

  datatype Config = Config(
    enabled: bool,
    frozen: Option<FrozenSynthetic>,
    compose: Composer,
    sections: Sections,
    compactTargetBytes: Option<nat>)

  datatype SkipReason = MessagesNotArray | NoRealUserMessage | NoPriorHistory

  datatype Report = Report(
    turnsDropped: nat, bytesIn: nat, bytesOut: nat, sectionsElided: nat,
    servedFrozen: bool, boundaryFp: nat, boundaryIdx: nat)

  datatype Outcome = Disabled | Skipped(reason: SkipReason) | Applied(report: Report)

  function SyntheticMessage(text: string): Json {
    Obj([Field("role", Str("user")),
         Field("content", Arr([Obj([Field("type", Str("text")), Field("text", Str(text))])]))])
  }

  /** Is the offered projection the one of this very boundary? */
  predicate Matches(frozen: Option<FrozenSynthetic>, fp: nat, idx: nat) {
    frozen.Some? && frozen.value.boundaryFp == fp && frozen.value.boundaryIdx == idx
  }

  /** The text that stands for the dropped history. */
  function Synthetic(cfg: Config, fp: Fingerprint, ms: seq<Json>, idx: nat): (string, nat)
    requires idx < |ms|
  {
    if Matches(cfg.frozen, fp(ms[idx]), idx) then (cfg.frozen.value.text, 0)
    else
      var k := Elision(cfg.compose, ms[..idx], cfg.sections, cfg.compactTargetBytes, 0);
      (cfg.compose(ms[..idx], cfg.sections.Without(k)), k)
  }

  function Rebuilt(ms: seq<Json>, cfg: Config, fp: Fingerprint): (seq<Json>, Outcome) {
    if !cfg.enabled then (ms, Disabled)
    else if BoundaryIdx(ms).None? then (ms, Skipped(NoRealUserMessage))
    else if BoundaryIdx(ms) == Some(0) then (ms, Skipped(NoPriorHistory))
    else
      var idx := BoundaryIdx(ms).value;
      var (text, elided) := Synthetic(cfg, fp, ms, idx);
      (Repair.Repaired([SyntheticMessage(text)] + ms[idx..]),
       Applied(Report(idx, Size(Arr(ms[..idx])), TextLen(text), elided,
                      Matches(cfg.frozen, fp(ms[idx]), idx), fp(ms[idx]), idx)))
  }

  /** The text of the first block of the first message. */
  function HeadText(ms: seq<Json>): Option<string> {
    if ms == [] then None
    else
      var blocks := Blocks(ms[0]);
      if blocks.Some? && blocks.value != [] then AsStr(Get(blocks.value[0], "text")) else None
  }

  lemma SyntheticMessageFacts(text: string)
    ensures var m := SyntheticMessage(text);
            IsUser(m) && Blocks(m).Some? && |Blocks(m).value| == 1
              && AsStr(Get(Blocks(m).value[0], "text")) == Some(text)
    ensures Kind(Blocks(SyntheticMessage(text)).value[0]) == Some("text")
    ensures ToolUseIds(SyntheticMessage(text)) == {}
  {
    var m := SyntheticMessage(text);
    assert m.fields[1..] == [Field("content", m.fields[1].value)];
    assert Lookup(m.fields[1..], "content") == Some(m.fields[1].value);
    var b := m.fields[1].value.items[0];
    assert b.fields[1..] == [Field("text", Str(text))];
    assert Lookup(b.fields[1..], "text") == Some(Str(text));
    assert Blocks(m) == Some([b]);
  }

  /** The synthetic message survives the repair in first place, untouched. */
  lemma RepairedHead(text: string, rest: seq<Json>)
    ensures Repair.Repaired([SyntheticMessage(text)] + rest)
         == [SyntheticMessage(text)] + Repair.RepairedFrom({}, rest)
  {
    var m := SyntheticMessage(text);
    SyntheticMessageFacts(text);
    Repair.KeptBlocksAll(Blocks(m).value, {});
    WithSameBlocks(m);
    assert ([m] + rest)[1..] == rest;
  }

  /** What an applied rebuild leaves: the synthetic text first, then a list every tool_result of which is paired. */
  lemma RebuiltFacts(ms: seq<Json>, cfg: Config, fp: Fingerprint)
    requires Rebuilt(ms, cfg, fp).1.Applied?
    ensures var (out, outcome) := Rebuilt(ms, cfg, fp);
            var idx := outcome.report.boundaryIdx;
            && 0 < idx < |ms| && BoundaryIdx(ms) == Some(idx)
            && out != [] && out[0] == SyntheticMessage(Synthetic(cfg, fp, ms, idx).0)
            && out[1..] == Repair.RepairedFrom({}, ms[idx..])
            && ResultsPaired(out)
  {
    var idx := BoundaryIdx(ms).value;
    RepairedHead(Synthetic(cfg, fp, ms, idx).0, ms[idx..]);
    Repair.RepairPairs([SyntheticMessage(Synthetic(cfg, fp, ms, idx).0)] + ms[idx..]);
  }

  /** The text and the report of a rebuild cut at `b`: the offered projection of this very boundary, or a fresh one. */
  ghost predicate IsProjection(ms: seq<Json>, b: nat, cfg: Config, fp: Fingerprint, text: string, report: Report)
    requires b < |ms|
  {
    && report.turnsDropped == b && report.bytesIn == Size(Arr(ms[..b])) && report.bytesOut == TextLen(text)
    && report.boundaryIdx == b && report.boundaryFp == fp(ms[b])
    && (report.servedFrozen <==>
          cfg.frozen.Some? && cfg.frozen.value.boundaryFp == fp(ms[b]) && cfg.frozen.value.boundaryIdx == b)
    && (if report.servedFrozen then
          cfg.frozen == Some(FrozenSynthetic(text, fp(ms[b]), b)) && report.sectionsElided == 0
        else
          && IsElision(cfg.compose, ms[..b], cfg.sections, cfg.compactTargetBytes, report.sectionsElided)
          && text == cfg.compose(ms[..b], cfg.sections.Without(report.sectionsElided)))
  }

  /**
   * A rebuild applies exactly when it is enabled and there is history before the
   * boundary. The text that stands for that history is the offered one of this
   * very boundary, or composed from the messages that go and from no others.
   */
  lemma ComposedFromDropped(ms: seq<Json>, cfg: Config, fp: Fingerprint)
    ensures var (out, outcome) := Rebuilt(ms, cfg, fp);
            && (outcome.Applied? <==> cfg.enabled && BoundaryIdx(ms).Some? && BoundaryIdx(ms).value > 0)
            && (!outcome.Applied? ==> out == ms)
            && (outcome.Applied? ==>
                  var b := BoundaryIdx(ms).value;
                  && HeadText(out).Some? && IsProjection(ms, b, cfg, fp, HeadText(out).value, outcome.report)
                  && out == Repair.Repaired([SyntheticMessage(HeadText(out).value)] + ms[b..]))
  {
    var (out, outcome) := Rebuilt(ms, cfg, fp);
    if outcome.Applied? {
      RebuiltFacts(ms, cfg, fp);
      var b := BoundaryIdx(ms).value;
      var (text, elided) := Synthetic(cfg, fp, ms, b);
      SyntheticMessageFacts(text);
      assert HeadText(out) == Some(text);
      ProjectionIs(ms, b, cfg, fp, text, elided, outcome.report);
    }
  }

  lemma ProjectionIs(ms: seq<Json>, b: nat, cfg: Config, fp: Fingerprint, text: string, elided: nat, report: Report)
    requires b < |ms| && (text, elided) == Synthetic(cfg, fp, ms, b)
    requires report == Report(b, Size(Arr(ms[..b])), TextLen(text), elided,
                              Matches(cfg.frozen, fp(ms[b]), b), fp(ms[b]), b)
    ensures IsProjection(ms, b, cfg, fp, text, report)
  {
  }

  // ----- the optional sections ----------------------------------------------

  /** Sections go in a fixed order: templates first, the tail next, digests last. */
  lemma {:induction false} SectionsGoInOrder(s: Sections, k: nat)
    requires k <= s.Count()
    ensures var left := s.Without(k);
            && left.Count() == s.Count() - k
            && (left.templates == s.templates || left.templates.None?)
            && (left.tail == s.tail || (left.tail.None? && left.templates.None?))
            && (left.digests == s.digests || (left.digests.None? && left.tail.None? && left.templates.None?))
    decreases k
  {
    if k > 0 {
      SectionsGoInOrder(s.Next(), k - 1);
    }
  }

  /** The in-flight chain goes out verbatim exactly when it pairs up by itself and holds no empty user message. */
  lemma InFlightVerbatim(ms: seq<Json>, cfg: Config, fp: Fingerprint)
    requires Rebuilt(ms, cfg, fp).1.Applied?
    ensures var (out, outcome) := Rebuilt(ms, cfg, fp);
            var chain := ms[outcome.report.boundaryIdx..];
            out != [] && (out[1..] == chain <==> ResultsPaired(chain) && forall m :: m in chain ==> Repair.Survives(m))
  {
    RebuiltFacts(ms, cfg, fp);
    var chain := ms[Rebuilt(ms, cfg, fp).1.report.boundaryIdx..];
    assert Repair.Repaired(chain) == Repair.RepairedFrom({}, chain);
    Repair.RepairFixpoint(chain);
  }

  /** A longer history with the same boundary and the same synthetic text is rebuilt to an extension. */
  lemma RebuiltPrefix(xs: seq<Json>, ys: seq<Json>, idx: nat, text: string)
    requires idx <= |xs| && xs <= ys
    ensures Repair.Repaired([SyntheticMessage(text)] + xs[idx..])
         <= Repair.Repaired([SyntheticMessage(text)] + ys[idx..])
  {
    var more := ys[|xs|..];
    assert [SyntheticMessage(text)] + ys[idx..] == [SyntheticMessage(text)] + xs[idx..] + more;
    Repair.RepairPrefix([SyntheticMessage(text)] + xs[idx..], more);
  }

  /** Rewrites the message list of a request in place. */
  method ApplyRebuild(req: Request, cfg: Config, fp: Fingerprint) returns (outcome: Outcome)
    modifies req
    ensures MessagesOf(old(req.body)).None? ==>
              req.body == old(req.body) && outcome == if cfg.enabled then Skipped(MessagesNotArray) else Disabled
    ensures MessagesOf(old(req.body)).Some? ==>
              outcome == Rebuilt(MessagesOf(old(req.body)).value, cfg, fp).1
    ensures !outcome.Applied? ==> req.body == old(req.body)
    ensures outcome.Applied? ==>
              req.body == WithMessages(old(req.body), Rebuilt(MessagesOf(old(req.body)).value, cfg, fp).0)
  {
    if !cfg.enabled {
      return Disabled;
    }
    if MessagesOf(req.body).None? {
      return Skipped(MessagesNotArray);
    }
    var messages := MessagesOf(req.body).value;
    var boundary := BoundaryIdx(messages);
    if boundary.None? {
      return Skipped(NoRealUserMessage);
    }
    var userIdx := boundary.value;
    if userIdx == 0 {
      return Skipped(NoPriorHistory);
    }
    var droppedSlice := messages[..userIdx];
    var boundaryFp := fp(messages[userIdx]);
    var synthetic, elided: nat, servedFrozen := "", 0, false;
    if Matches(cfg.frozen, boundaryFp, userIdx) {
      synthetic, servedFrozen := cfg.frozen.value.text, true;
    } else {
      synthetic, elided := Compose(cfg.compose, droppedSlice, cfg.sections, cfg.compactTargetBytes);
    }
    var list := new MessageList([SyntheticMessage(synthetic)] + messages[userIdx..]);
    var orphans := Repair.RepairOrphanedToolResults(list);
    req.body := WithMessages(req.body, list.items);
    return Applied(Report(
      userIdx, Size(Arr(droppedSlice)), TextLen(synthetic), elided, servedFrozen, boundaryFp, userIdx));
  }
}
