/**
 * The frozen projection: while a lane is warm and the cycle boundary stays
 * put, a turn re-serves the text of the turn before, so that what is sent
 * only ever grows at the end.
 */
module WarmFreeze {
  import opened Wrappers
  import opened Json
  import opened Messages
  import opened TokenScan
  import opened Rebuild
  import BillingStrip
  import opened BillingRewrite
  import ReminderStrip
  import Repair

  const IDLE_EVICT_SECS: nat := 24 * 60 * 60
  const SWEEP_MIN_LEN: nat := 64

  /** A session and the fingerprint of the first message the harness sent. */
  type Key = (string, nat)

  datatype FrozenProjection = FrozenProjection(text: string, boundaryFp: nat, boundaryIdx: nat, lastTs: nat)

  type Store = map<Key, FrozenProjection>

  /** One request; `warm` is the policy's verdict, `None` when the policy is dark. */
  datatype Turn = Turn(
    session: string, body: Json, warm: Option<bool>, now: nat,
    enabled: bool, compose: Composer, sections: Sections, compactTargetBytes: Option<nat>)

  // ----- what one turn sends and stores -------------------------------------

  function KeyOf(t: Turn, fp: Fingerprint): Option<Key> {
    var ms := MessagesOf(t.body);
    if ms.Some? && ms.value != [] then Some((t.session, fp(ms.value[0]))) else None
  }

  /** The messages after the billing token is gone from the whole body. */
  function Billed(t: Turn): seq<Json> {
    if MessagesOf(t.body).Some? then KeptItems(BillingStrip.CCH, MessagesOf(t.body).value) else []
  }

  /** The messages the rebuild pass starts from. */
  function Prepared(t: Turn): seq<Json> {
    ReminderStrip.Cleaned(Billed(t))
  }

  function Offer(store: Store, t: Turn, fp: Fingerprint): Option<FrozenSynthetic> {
    var key := KeyOf(t, fp);
    if t.warm == Some(true) && key.Some? && key.value in store then
      var f := store[key.value];
      Some(FrozenSynthetic(f.text, f.boundaryFp, f.boundaryIdx))
    else None
  }

  function ConfigOf(store: Store, t: Turn, fp: Fingerprint): Config {
    Config(t.enabled, Offer(store, t, fp), t.compose, t.sections, t.compactTargetBytes)
  }

  function OutcomeOf(store: Store, t: Turn, fp: Fingerprint): Outcome {
    Rebuilt(Prepared(t), ConfigOf(store, t, fp), fp).1
  }

  /** The messages that go out. A skipped rebuild still repairs. */
  function Sent(store: Store, t: Turn, fp: Fingerprint): seq<Json> {
    var (out, outcome) := Rebuilt(Prepared(t), ConfigOf(store, t, fp), fp);
    if outcome.Skipped? then Repair.Repaired(out) else out
  }

  function Sweep(store: Store, now: nat): Store {
    if |store| > SWEEP_MIN_LEN
    then map k | k in store && now - store[k].lastTs <= IDLE_EVICT_SECS :: store[k]
    else store
  }

  function Recorded(store: Store, key: Key, report: Report, sent: seq<Json>, now: nat): Store {
    if report.servedFrozen then
      if key in store then store[key := store[key].(lastTs := now)] else store
    else if HeadText(sent).Some? then
      store[key := FrozenProjection(HeadText(sent).value, report.boundaryFp, report.boundaryIdx, now)]
    else store
  }

  function StoreAfter(store: Store, t: Turn, fp: Fingerprint): Store {
    var outcome := OutcomeOf(store, t, fp);
    if outcome.Applied? && t.warm.Some? && KeyOf(t, fp).Some?
    then Sweep(Recorded(store, KeyOf(t, fp).value, outcome.report, Sent(store, t, fp), t.now), t.now)
    else store
  }

  // ----- runs ---------------------------------------------------------------

  function Run(turns: seq<Turn>, fp: Fingerprint): Store {
    if turns == [] then map[]
    else StoreAfter(Run(turns[..|turns| - 1], fp), turns[|turns| - 1], fp)
  }

  /** What turn `i` of a run sends. */
  function SentBy(turns: seq<Turn>, i: nat, fp: Fingerprint): seq<Json>
    requires i < |turns|
  {
    Sent(Run(turns[..i], fp), turns[i], fp)
  }

  /** Turn `i` rendered or re-served a projection for `key`. */
  predicate Stores(turns: seq<Turn>, i: nat, key: Key, fp: Fingerprint)
    requires i < |turns|
  {
    && KeyOf(turns[i], fp) == Some(key)
    && turns[i].warm.Some?
    && OutcomeOf(Run(turns[..i], fp), turns[i], fp).Applied?
  }

  /** The last index below `n` satisfying `p`. */
  function LastIndex(p: nat -> bool, n: nat): (r: Option<nat>)
    ensures r.Some? ==> r.value < n && p(r.value) && forall j :: r.value < j < n ==> !p(j)
    ensures r.None? ==> forall j :: 0 <= j < n ==> !p(j)
  {
    if n == 0 then None else if p(n - 1) then Some(n - 1) else LastIndex(p, n - 1)
  }

  /** The most recent turn before `n` that stored for `key`. */
  function LastStored(turns: seq<Turn>, key: Key, fp: Fingerprint, n: nat): Option<nat>
    requires n <= |turns|
  {
    LastIndex((i: nat) => i < |turns| && Stores(turns, i, key, fp), n)
  }

  /**
   * The requests that land on `key` form one conversation that only grows once
   * the billing tokens are gone; other keys are unconstrained.
   */
  predicate AppendOnly(turns: seq<Turn>, key: Key, fp: Fingerprint) {
    forall i, j :: 0 <= i < j < |turns| && KeyOf(turns[i], fp) == Some(key) && KeyOf(turns[j], fp) == Some(key) ==>
      Billed(turns[i]) <= Billed(turns[j])
  }

  /** A stored projection is the text turn `t` sent, for the boundary it sent it with. */
  predicate Renders(f: FrozenProjection, store: Store, t: Turn, fp: Fingerprint) {
    var outcome := OutcomeOf(store, t, fp);
    && outcome.Applied?
    && f.boundaryIdx == outcome.report.boundaryIdx
    && f.boundaryFp == outcome.report.boundaryFp
    && f.boundaryIdx <= |Prepared(t)|
    && Sent(store, t, fp) == Repair.Repaired([SyntheticMessage(f.text)] + Prepared(t)[f.boundaryIdx..])
  }

  /** An applied rebuild sends its text in front, and re-serves the offered text when it says so. */
  lemma AppliedText(ms: seq<Json>, cfg: Config, fp: Fingerprint)
    requires Rebuilt(ms, cfg, fp).1.Applied?
    ensures var (out, outcome) := Rebuilt(ms, cfg, fp);
            var idx := outcome.report.boundaryIdx;
            && idx < |ms|
            && var text := Synthetic(cfg, fp, ms, idx).0;
               && HeadText(out) == Some(text)
               && out == Repair.Repaired([SyntheticMessage(text)] + ms[idx..])
               && (outcome.report.servedFrozen ==>
                     cfg.frozen == Some(FrozenSynthetic(text, outcome.report.boundaryFp, idx)))
  {
    RebuiltFacts(ms, cfg, fp);
    SyntheticMessageFacts(Synthetic(cfg, fp, ms, Rebuilt(ms, cfg, fp).1.report.boundaryIdx).0);
  }

  /** What recording leaves for its key: the entry that was served, touched, or the text that was sent. */
  lemma RecordedEntry(store: Store, key: Key, report: Report, sent: seq<Json>, now: nat)
    requires HeadText(sent).Some? && (report.servedFrozen ==> key in store)
    ensures var after := Sweep(Recorded(store, key, report, sent, now), now);
            && key in after
            && after[key] ==
               if report.servedFrozen then store[key].(lastTs := now)
               else FrozenProjection(HeadText(sent).value, report.boundaryFp, report.boundaryIdx, now)
  {
    assert Recorded(store, key, report, sent, now)[key].lastTs == now;
  }

  /** After a turn that stores, its key is there, and what is kept for it is what the turn sent. */
  lemma StoredRenders(store: Store, t: Turn, key: Key, fp: Fingerprint)
    requires KeyOf(t, fp) == Some(key) && t.warm.Some? && OutcomeOf(store, t, fp).Applied?
    ensures key in StoreAfter(store, t, fp) && Renders(StoreAfter(store, t, fp)[key], store, t, fp)
  {
    AppliedText(Prepared(t), ConfigOf(store, t, fp), fp);
    RecordedEntry(store, key, OutcomeOf(store, t, fp).report, Sent(store, t, fp), t.now);
  }

  /** A turn that stores nothing for `key` leaves its entry alone, or evicts it. */
  lemma OtherKeysKept(store: Store, t: Turn, key: Key, fp: Fingerprint)
    requires !(KeyOf(t, fp) == Some(key) && t.warm.Some? && OutcomeOf(store, t, fp).Applied?)
    requires key in StoreAfter(store, t, fp)
    ensures key in store && StoreAfter(store, t, fp)[key] == store[key]
  {
  }

  /** What a turn stores for `key`, the next turn finds. */
  lemma StoredIsFound(turns: seq<Turn>, i: nat, key: Key, fp: Fingerprint)
    requires i < |turns| && Stores(turns, i, key, fp)
    ensures key in Run(turns[..i + 1], fp)
  {
    RunStep(turns, fp, i + 1);
    StoredRenders(Run(turns[..i], fp), turns[i], key, fp);
  }

  /** In every run, an entry is what the last turn that stored for its key sent. */
  lemma {:induction false} StoreInvariant(turns: seq<Turn>, key: Key, fp: Fingerprint, n: nat)
    requires n <= |turns| && key in Run(turns[..n], fp)
    ensures var m := LastStored(turns, key, fp, n);
            m.Some? && Renders(Run(turns[..n], fp)[key], Run(turns[..m.value], fp), turns[m.value], fp)
  {
    if n > 0 {
      var store, t := Run(turns[..n - 1], fp), turns[n - 1];
      RunStep(turns, fp, n);
      if Stores(turns, n - 1, key, fp) {
        StoredRenders(store, t, key, fp);
        assert LastStored(turns, key, fp, n) == Some(n - 1);
      } else {
        OtherKeysKept(store, t, key, fp);
        StoreInvariant(turns, key, fp, n - 1);
        assert LastStored(turns, key, fp, n) == LastStored(turns, key, fp, n - 1);
      }
    }
  }

  lemma RunStep(turns: seq<Turn>, fp: Fingerprint, n: nat)
    requires 0 < n <= |turns|
    ensures Run(turns[..n], fp) == StoreAfter(Run(turns[..n - 1], fp), turns[n - 1], fp)
  {
    assert turns[..n][..n - 1] == turns[..n - 1];
  }

  // ----- growing conversations ----------------------------------------------

  lemma {:induction false} BilledPrefix(xs: seq<Json>, ys: seq<Json>)
    requires xs <= ys
    ensures KeptItems(BillingStrip.CCH, xs) <= KeptItems(BillingStrip.CCH, ys)
  {
    if xs != [] {
      BilledPrefix(xs[1..], ys[1..]);
    }
  }

  /** `b` brings the history of `a` back, its billing tokens given other values, with more messages after it. */
  ghost predicate GrowsButTokens(a: Turn, b: Turn) {
    && MessagesOf(a.body).Some? && MessagesOf(b.body).Some?
    && var xs, ys := MessagesOf(a.body).value, MessagesOf(b.body).value;
       |xs| <= |ys| && SameItems(xs, ys[..|xs|])
  }

  /** After the strip it is the same history with more messages. */
  lemma RewrittenHistoryGrows(a: Turn, b: Turn)
    requires GrowsButTokens(a, b)
    ensures Billed(a) <= Billed(b)
  {
    var xs, ys := MessagesOf(a.body).value, MessagesOf(b.body).value;
    StripIgnoresValuesInItems(xs, ys[..|xs|]);
    BilledPrefix(ys[..|xs|], ys);
  }

  /** So a client that gives every token a new value before each call still has a conversation that only grows. */
  lemma RewrittenRunGrows(turns: seq<Turn>, key: Key, fp: Fingerprint)
    requires forall i, j :: 0 <= i < j < |turns| && KeyOf(turns[i], fp) == Some(key) && KeyOf(turns[j], fp) == Some(key)
               ==> GrowsButTokens(turns[i], turns[j])
    ensures AppendOnly(turns, key, fp)
  {
    forall i, j | 0 <= i < j < |turns| && KeyOf(turns[i], fp) == Some(key) && KeyOf(turns[j], fp) == Some(key)
      ensures Billed(turns[i]) <= Billed(turns[j])
    {
      RewrittenHistoryGrows(turns[i], turns[j]);
    }
  }

  /**
   * But the key fingerprints the first message as the harness sent it: a token
   * in there that got a new value leaves the same messages and finds nothing stored.
   */
  lemma TokenInFirstMessage(a: Turn, b: Turn, fp: Fingerprint)
    requires GrowsButTokens(a, b) && MessagesOf(a.body).value != []
    requires fp(MessagesOf(a.body).value[0]) != fp(MessagesOf(b.body).value[0])
    ensures Billed(a) <= Billed(b) && Billed(a)[0] == Billed(b)[0]
    ensures Offer(StoreAfter(map[], a, fp), b, fp) == None
  {
    RewrittenHistoryGrows(a, b);
    if KeyOf(b, fp).value in StoreAfter(map[], a, fp) {
      OtherKeysKept(map[], a, KeyOf(b, fp).value, fp);
    }
  }

  /** While the boundary index stays, the prepared messages only grow at the end. */
  lemma PreparedPrefix(a: Turn, b: Turn)
    requires Billed(a) <= Billed(b)
    requires BoundaryIdx(Billed(a)).Some? && BoundaryIdx(Billed(a)) == BoundaryIdx(Billed(b))
    ensures Prepared(a) <= Prepared(b)
  {
    CleanedExtends(Billed(a), Billed(b));
  }

  lemma CleanedExtends(xs: seq<Json>, ys: seq<Json>)
    requires xs <= ys && BoundaryIdx(xs).Some? && BoundaryIdx(xs) == BoundaryIdx(ys)
    ensures ReminderStrip.Cleaned(xs) <= ReminderStrip.Cleaned(ys)
  {
    assert ys == xs + ys[|xs|..];
    ReminderStrip.CleanedPrefix(xs, ys[|xs|..]);
  }

  /**
   * A warm turn that finds a stored projection is served it exactly when the
   * cycle boundary index has not moved since the turn that stored it; and then
   * that turn's outgoing messages are a prefix of this turn's. Fingerprint
   * collisions do not matter.
   */
  lemma WarmTurnExtends(turns: seq<Turn>, n: nat, key: Key, fp: Fingerprint)
    requires n < |turns| && AppendOnly(turns, key, fp)
    requires KeyOf(turns[n], fp) == Some(key) && turns[n].warm == Some(true) && turns[n].enabled
    requires key in Run(turns[..n], fp)
    ensures var m := LastStored(turns, key, fp, n);
            && m.Some?
            && var outcome := OutcomeOf(Run(turns[..n], fp), turns[n], fp);
               var served := outcome.Applied? && outcome.report.servedFrozen;
               && (served <==> BoundaryIdx(Billed(turns[n])) == BoundaryIdx(Billed(turns[m.value])))
               && (served ==> SentBy(turns, m.value, fp) <= SentBy(turns, n, fp))
  {
    StoreInvariant(turns, key, fp, n);
    var m := LastStored(turns, key, fp, n).value;
    var a, b := turns[m], turns[n];
    var frozen := Run(turns[..n], fp)[key];
    ReminderStrip.CleanedBoundary(Billed(a));
    ReminderStrip.CleanedBoundary(Billed(b));
    RebuiltFacts(Prepared(a), ConfigOf(Run(turns[..m], fp), a, fp), fp);
    if BoundaryIdx(Billed(b)) == BoundaryIdx(Billed(a)) {
      PreparedPrefix(a, b);
      var idx := frozen.boundaryIdx;
      assert Prepared(b)[idx] == Prepared(a)[idx];
      RebuiltPrefix(Prepared(a), Prepared(b), idx, frozen.text);
    }
  }

  // ----- the handler --------------------------------------------------------

  lemma BilledMessages(body: Json)
    ensures MessagesOf(KeptTree(BillingStrip.CCH, body))
         == if MessagesOf(body).None? then None else Some(KeptItems(BillingStrip.CCH, MessagesOf(body).value))
  {
    if body.Obj? {
      KeptLookup(BillingStrip.CCH, body.fields, "messages");
    }
  }

  class ProxyState {
    var projections: map<Key, FrozenProjection>

    constructor ()
      ensures projections == map[]
    {
      projections := map[];
    }

    /** The rewriting passes of one request: strip, strip, rebuild, remember, sweep. */
    method RewriteMessages(req: Request, t: Turn, fp: Fingerprint) returns (outcome: Outcome)
      requires req.body == t.body
      modifies this, req
      ensures MessagesOf(t.body).Some? ==>
                && outcome == OutcomeOf(old(projections), t, fp)
                && req.body == WithMessages(KeptTree(BillingStrip.CCH, t.body), Sent(old(projections), t, fp))
      ensures MessagesOf(t.body).Some? ==> projections == StoreAfter(old(projections), t, fp)
      ensures MessagesOf(t.body).None? ==>
                && projections == old(projections) && req.body == KeptTree(BillingStrip.CCH, t.body)
                && outcome == if t.enabled then Skipped(MessagesNotArray) else Disabled
    {
      var key := KeyOf(t, fp);
      StripPasses(req, t);
      if MessagesOf(req.body).None? {
        outcome := ApplyRebuild(req, ConfigOf(projections, t, fp), fp);
        return;
      }
      outcome := RebuildPass(req, t, fp, KeptTree(BillingStrip.CCH, t.body));
      if outcome.Applied? && t.warm.Some? && key.Some? {
        Remember(key.value, outcome.report, MessagesOf(req.body).value, t.now);
      }
    }

    method StripPasses(req: Request, t: Turn)
      requires req.body == t.body
      modifies req
      ensures req.body == if MessagesOf(t.body).None? then KeptTree(BillingStrip.CCH, t.body)
                          else WithMessages(KeptTree(BillingStrip.CCH, t.body), Prepared(t))
      ensures MessagesOf(req.body) == if MessagesOf(t.body).None? then None else Some(Prepared(t))
    {
      BilledMessages(t.body);
      var billed, _ := BillingStrip.StripVolatileBillingTokens(req.body);
      req.body := billed;
      var _ := ReminderStrip.StripSystemRemindersFromPastTurns(req);
      if MessagesOf(t.body).Some? {
        GetSet(billed, "messages", Arr(Prepared(t)), "messages");
      }
    }

    /** Rebuilds, and repairs when the rebuild declines. */
    method RebuildPass(req: Request, t: Turn, fp: Fingerprint, ghost base: Json) returns (outcome: Outcome)
      requires base.Obj? && req.body == WithMessages(base, Prepared(t))
      modifies req
      ensures outcome == OutcomeOf(projections, t, fp)
      ensures req.body == WithMessages(base, Sent(projections, t, fp))
      ensures MessagesOf(req.body) == Some(Sent(projections, t, fp))
    {
      WithMessagesTwice(base, Prepared(t), Sent(projections, t, fp));
      outcome := ApplyRebuild(req, ConfigOf(projections, t, fp), fp);
      if outcome.Skipped? {
        var list := new MessageList(MessagesOf(req.body).value);
        var _ := Repair.RepairOrphanedToolResults(list);
        req.body := WithMessages(req.body, list.items);
      }
      GetSet(base, "messages", Arr(Sent(projections, t, fp)), "messages");
    }

    method Remember(key: Key, report: Report, sent: seq<Json>, now: nat)
      modifies this
      ensures projections == Sweep(Recorded(old(projections), key, report, sent, now), now)
    {
      if report.servedFrozen {
        if key in projections {
          projections := projections[key := projections[key].(lastTs := now)];
        }
      } else {
        var text := HeadText(sent);
        if text.Some? {
          projections := projections[key := FrozenProjection(text.value, report.boundaryFp, report.boundaryIdx, now)];
        }
      }
      if |projections| > SWEEP_MIN_LEN {
        projections := map k | k in projections && now - projections[k].lastTs <= IDLE_EVICT_SECS :: projections[k];
      }
    }
  }
}
