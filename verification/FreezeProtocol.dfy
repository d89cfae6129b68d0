/**
 * Concurrent turns on the projection store: each looks a projection up when
 * it starts and stores or touches one when it is done, in any interleaving.
 */
module FreezeProtocol {
  import opened Wrappers
  import opened Json
  import opened Messages
  import opened Rebuild
  import opened WarmFreeze
  import ReminderStrip
  import Repair

  type Rid = nat

  /** A turn in flight, with the projection it was offered when it looked. */
  datatype Flight = Flight(turn: Turn, offer: Option<FrozenSynthetic>)

  /** The shared store, the turns in flight, and the turns that were sent, in the order they were done. */
  datatype System = System(store: Store, flying: map<Rid, Flight>, done: seq<Flight>)

  datatype Step =
    | Lookup(rid: Rid, turn: Turn)
    | Finish(rid: Rid)
    | Abandon(rid: Rid)

  // ----- one turn in two steps ----------------------------------------------

  function ConfigWith(f: Flight): Config {
    Config(f.turn.enabled, f.offer, f.turn.compose, f.turn.sections, f.turn.compactTargetBytes)
  }

  function OutcomeWith(f: Flight, fp: Fingerprint): Outcome {
    Rebuilt(Prepared(f.turn), ConfigWith(f), fp).1
  }

  function SentWith(f: Flight, fp: Fingerprint): seq<Json> {
    var (out, outcome) := Rebuilt(Prepared(f.turn), ConfigWith(f), fp);
    if outcome.Skipped? then Repair.Repaired(out) else out
  }

  /** Is the turn served the projection it was offered? */
  predicate Served(f: Flight, fp: Fingerprint) {
    OutcomeWith(f, fp).Applied? && OutcomeWith(f, fp).report.servedFrozen
  }

  /** What a turn leaves in the store as it finds it when it is done. */
  function StoreWith(store: Store, f: Flight, fp: Fingerprint): Store {
    var outcome := OutcomeWith(f, fp);
    if outcome.Applied? && f.turn.warm.Some? && KeyOf(f.turn, fp).Some?
    then Sweep(Recorded(store, KeyOf(f.turn, fp).value, outcome.report, SentWith(f, fp), f.turn.now), f.turn.now)
    else store
  }

  function Next(sys: System, step: Step, fp: Fingerprint): System {
    match step
    case Lookup(rid, t) =>
      if rid in sys.flying then sys
      else sys.(flying := sys.flying[rid := Flight(t, Offer(sys.store, t, fp))])
    case Finish(rid) =>
      if rid !in sys.flying then sys
      else System(StoreWith(sys.store, sys.flying[rid], fp), sys.flying - {rid}, sys.done + [sys.flying[rid]])
    case Abandon(rid) => sys.(flying := sys.flying - {rid})
  }

  /** Looking up and finishing by themselves are the one step of a turn that has the store to itself. */
  lemma FlightIsTurn(store: Store, t: Turn, fp: Fingerprint)
    ensures var f := Flight(t, Offer(store, t, fp));
            OutcomeWith(f, fp) == OutcomeOf(store, t, fp) && SentWith(f, fp) == Sent(store, t, fp)
            && StoreWith(store, f, fp) == StoreAfter(store, t, fp)
  {
    assert ConfigWith(Flight(t, Offer(store, t, fp))) == ConfigOf(store, t, fp);
  }

  /**
   * With nobody in between, a turn that looks up and finishes leaves the store,
   * and sends the messages, of the one step; a turn that is abandoned leaves no
   * trace.
   */
  lemma TwoStepsAreOne(sys: System, rid: Rid, t: Turn, fp: Fingerprint)
    requires rid !in sys.flying
    ensures var after := Next(Next(sys, Lookup(rid, t), fp), Finish(rid), fp);
            && after.store == StoreAfter(sys.store, t, fp) && after.flying == sys.flying
            && |after.done| == |sys.done| + 1 && after.done[..|sys.done|] == sys.done
            && after.done[|sys.done|].turn == t
            && OutcomeWith(after.done[|sys.done|], fp) == OutcomeOf(sys.store, t, fp)
            && SentWith(after.done[|sys.done|], fp) == Sent(sys.store, t, fp)
    ensures Next(Next(sys, Lookup(rid, t), fp), Abandon(rid), fp) == sys
  {
    FlightIsTurn(sys.store, t, fp);
    assert sys.flying[rid := Flight(t, Offer(sys.store, t, fp))] - {rid} == sys.flying;
  }

  function Exec(steps: seq<Step>, fp: Fingerprint): System {
    if steps == [] then System(map[], map[], [])
    else Next(Exec(steps[..|steps| - 1], fp), steps[|steps| - 1], fp)
  }

  // ----- where projections come from ----------------------------------------

  /** The flight sent this text in front of its messages from this boundary on. */
  predicate SentText(d: Flight, f: FrozenSynthetic, key: Key, fp: Fingerprint) {
    && KeyOf(d.turn, fp) == Some(key) && OutcomeWith(d, fp).Applied?
    && f.boundaryIdx == OutcomeWith(d, fp).report.boundaryIdx
    && f.boundaryFp == OutcomeWith(d, fp).report.boundaryFp
    && f.boundaryIdx <= |Prepared(d.turn)|
    && SentWith(d, fp) == Repair.Repaired([SyntheticMessage(f.text)] + Prepared(d.turn)[f.boundaryIdx..])
  }

  /** Some turn that is done sent it. */
  predicate FromDone(f: FrozenSynthetic, key: Key, done: seq<Flight>, fp: Fingerprint) {
    exists i :: 0 <= i < |done| && SentText(done[i], f, key, fp)
  }

  function Frozen(f: FrozenProjection): FrozenSynthetic {
    FrozenSynthetic(f.text, f.boundaryFp, f.boundaryIdx)
  }

  /** Every stored and every offered projection is what some turn of its key sent. */
  ghost predicate AllFromDone(sys: System, fp: Fingerprint) {
    && (forall k :: k in sys.store ==> FromDone(Frozen(sys.store[k]), k, sys.done, fp))
    && (forall r :: r in sys.flying && sys.flying[r].offer.Some? ==>
          KeyOf(sys.flying[r].turn, fp).Some?
          && FromDone(sys.flying[r].offer.value, KeyOf(sys.flying[r].turn, fp).value, sys.done, fp))
  }

  lemma FromDoneGrows(f: FrozenSynthetic, key: Key, done: seq<Flight>, d: Flight, fp: Fingerprint)
    requires FromDone(f, key, done, fp)
    ensures FromDone(f, key, done + [d], fp)
  {
    var i :| 0 <= i < |done| && SentText(done[i], f, key, fp);
    assert (done + [d])[i] == done[i];
  }

  /** What a finished turn leaves for a key was there before, or is what it sent. */
  lemma FinishLeaves(store: Store, f: Flight, k: Key, fp: Fingerprint)
    requires k in StoreWith(store, f, fp)
    ensures (k in store && Frozen(StoreWith(store, f, fp)[k]) == Frozen(store[k]))
         || SentText(f, Frozen(StoreWith(store, f, fp)[k]), k, fp)
  {
    if OutcomeWith(f, fp).Applied? && f.turn.warm.Some? && KeyOf(f.turn, fp).Some? {
      AppliedText(Prepared(f.turn), ConfigWith(f), fp);
      var recorded := Recorded(store, KeyOf(f.turn, fp).value, OutcomeWith(f, fp).report, SentWith(f, fp), f.turn.now);
      assert k in recorded && StoreWith(store, f, fp)[k] == recorded[k];
    }
  }

  lemma FinishKeeps(sys: System, rid: Rid, fp: Fingerprint)
    requires AllFromDone(sys, fp) && rid in sys.flying
    ensures AllFromDone(Next(sys, Finish(rid), fp), fp)
  {
    var f, next := sys.flying[rid], Next(sys, Finish(rid), fp);
    forall k | k in next.store ensures FromDone(Frozen(next.store[k]), k, next.done, fp) {
      FinishLeaves(sys.store, f, k, fp);
      if k in sys.store && Frozen(next.store[k]) == Frozen(sys.store[k]) {
        FromDoneGrows(Frozen(sys.store[k]), k, sys.done, f, fp);
      } else {
        assert next.done[|sys.done|] == f;
      }
    }
    forall r | r in next.flying && next.flying[r].offer.Some?
      ensures FromDone(next.flying[r].offer.value, KeyOf(next.flying[r].turn, fp).value, next.done, fp)
    {
      FromDoneGrows(sys.flying[r].offer.value, KeyOf(sys.flying[r].turn, fp).value, sys.done, f, fp);
    }
  }

  lemma NextKeeps(sys: System, step: Step, fp: Fingerprint)
    requires AllFromDone(sys, fp)
    ensures AllFromDone(Next(sys, step, fp), fp)
  {
    if step.Finish? && step.rid in sys.flying {
      FinishKeeps(sys, step.rid, fp);
    }
  }

  /** In every interleaving every stored and every offered projection is what some turn of its key sent. */
  lemma {:induction false} EveryProjectionWasSent(steps: seq<Step>, fp: Fingerprint)
    ensures AllFromDone(Exec(steps, fp), fp)
  {
    if steps != [] {
      EveryProjectionWasSent(steps[..|steps| - 1], fp);
      NextKeeps(Exec(steps[..|steps| - 1], fp), steps[|steps| - 1], fp);
    }
  }

  // ----- what a served turn sends -------------------------------------------

  /** Of two requests one is the other with more messages, once the billing tokens are gone. */
  predicate Comparable(a: Turn, b: Turn) {
    Billed(a) <= Billed(b) || Billed(b) <= Billed(a)
  }

  /** The finished turns with this turn's key belong to its conversation. */
  predicate OneConversation(sys: System, t: Turn, fp: Fingerprint) {
    forall i :: 0 <= i < |sys.done| && KeyOf(sys.done[i].turn, fp) == KeyOf(t, fp) ==> Comparable(sys.done[i].turn, t)
  }

  lemma SameBoundaryPrepared(a: Turn, b: Turn)
    requires Comparable(a, b)
    requires BoundaryIdx(Billed(a)).Some? && BoundaryIdx(Billed(a)) == BoundaryIdx(Billed(b))
    ensures Billed(a) <= Billed(b) ==> Prepared(a) <= Prepared(b)
    ensures Billed(b) <= Billed(a) ==> Prepared(b) <= Prepared(a)
  {
    if Billed(a) <= Billed(b) {
      PreparedPrefix(a, b);
    }
    if Billed(b) <= Billed(a) {
      PreparedPrefix(b, a);
    }
  }

  lemma AppliedBoundary(d: Flight, fp: Fingerprint)
    requires OutcomeWith(d, fp).Applied?
    ensures var report := OutcomeWith(d, fp).report;
            && BoundaryIdx(Billed(d.turn)) == Some(report.boundaryIdx) && 0 < report.boundaryIdx < |Prepared(d.turn)|
            && report.boundaryFp == fp(Prepared(d.turn)[report.boundaryIdx])
  {
    RebuiltFacts(Prepared(d.turn), ConfigWith(d), fp);
    ReminderStrip.CleanedBoundary(Billed(d.turn));
  }

  /** A turn offered what `d` sent is served it exactly when the two have their boundary at one index. */
  lemma ServedIff(b: Flight, d: Flight, key: Key, fp: Fingerprint)
    requires b.turn.enabled && b.offer.Some? && SentText(d, b.offer.value, key, fp) && Comparable(d.turn, b.turn)
    ensures Served(b, fp) <==> BoundaryIdx(Billed(b.turn)) == BoundaryIdx(Billed(d.turn))
  {
    AppliedBoundary(d, fp);
    ReminderStrip.CleanedBoundary(Billed(b.turn));
    if BoundaryIdx(Billed(b.turn)) == BoundaryIdx(Billed(d.turn)) {
      SameBoundaryPrepared(d.turn, b.turn);
      var idx := b.offer.value.boundaryIdx;
      assert Prepared(b.turn)[idx] == Prepared(d.turn)[idx];
    }
  }

  /** And then the shorter conversation's outgoing messages begin the longer one's. */
  lemma ServedExtends(b: Flight, d: Flight, key: Key, fp: Fingerprint)
    requires b.turn.enabled && b.offer.Some? && SentText(d, b.offer.value, key, fp) && Comparable(d.turn, b.turn)
    requires Served(b, fp)
    ensures Billed(d.turn) <= Billed(b.turn) ==> SentWith(d, fp) <= SentWith(b, fp)
    ensures Billed(b.turn) <= Billed(d.turn) ==> SentWith(b, fp) <= SentWith(d, fp)
  {
    ServedIff(b, d, key, fp);
    AppliedBoundary(d, fp);
    SameBoundaryPrepared(d.turn, b.turn);
    AppliedText(Prepared(b.turn), ConfigWith(b), fp);
    var idx, text := b.offer.value.boundaryIdx, b.offer.value.text;
    if Prepared(d.turn) <= Prepared(b.turn) {
      RebuiltPrefix(Prepared(d.turn), Prepared(b.turn), idx, text);
    }
    if Prepared(b.turn) <= Prepared(d.turn) {
      RebuiltPrefix(Prepared(b.turn), Prepared(d.turn), idx, text);
    }
  }

  /**
   * In every interleaving a turn in flight that was offered a projection was
   * offered what some finished turn of its conversation sent. It is served it
   * exactly when the two have their boundary at one index, and then the outgoing
   * messages of the one with the shorter conversation begin those of the other.
   */
  lemma InterleavedTurnExtends(steps: seq<Step>, rid: Rid, fp: Fingerprint) returns (i: nat)
    requires rid in Exec(steps, fp).flying && Exec(steps, fp).flying[rid].offer.Some?
    requires Exec(steps, fp).flying[rid].turn.enabled
    requires OneConversation(Exec(steps, fp), Exec(steps, fp).flying[rid].turn, fp)
    ensures var sys := Exec(steps, fp);
            && i < |sys.done|
            && var (b, d) := (sys.flying[rid], sys.done[i]);
               && KeyOf(d.turn, fp) == KeyOf(b.turn, fp) && OutcomeWith(d, fp).Applied?
               && (Served(b, fp) <==> BoundaryIdx(Billed(b.turn)) == BoundaryIdx(Billed(d.turn)))
               && (Served(b, fp) && Billed(d.turn) <= Billed(b.turn) ==>
                     SentWith(d, fp) <= SentWith(b, fp))
               && (Served(b, fp) && Billed(b.turn) <= Billed(d.turn) ==>
                     SentWith(b, fp) <= SentWith(d, fp))
  {
    EveryProjectionWasSent(steps, fp);
    var sys := Exec(steps, fp);
    var b := sys.flying[rid];
    var key := KeyOf(b.turn, fp).value;
    i :| 0 <= i < |sys.done| && SentText(sys.done[i], b.offer.value, key, fp);
    ServedIff(b, sys.done[i], key, fp);
    if Served(b, fp) {
      ServedExtends(b, sys.done[i], key, fp);
    }
  }
}
