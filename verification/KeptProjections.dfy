/**
 * How long a stored projection is there to be served: over whole runs, what
 * the sweep of idle conversations takes and what it leaves.
 */
module KeptProjections {
  import opened Wrappers
  import opened Json
  import opened Messages
  import opened Rebuild
  import opened WarmFreeze

  // ----- the store, told without the sweep ----------------------------------

  /** What a turn does to the store: when it comes, and the conversation it stores for, if any. */
  datatype Effect = Effect(stored: Option<Key>, now: nat)

  /** An entry last used at `used` is spared: at most 64 conversations are stored, or the turn comes within a day. */
  predicate Spares(keys: set<Key>, e: Effect, used: nat) {
    e.stored.Some? ==> |keys + {e.stored.value}| <= 64 || e.now <= used + 86400
  }

  /** Its own entry is there afterwards, used now; any other exactly when it is spared, and untouched. */
  ghost predicate IsStep(store: Store, e: Effect, next: Store) {
    && (e.stored.Some? ==> e.stored.value in next && next[e.stored.value].lastTs == e.now)
    && (forall k :: k in next && Some(k) != e.stored ==> k in store && next[k] == store[k])
    && (forall k :: k in store && Some(k) != e.stored ==> (k in next <==> Spares(store.Keys, e, store[k].lastTs)))
  }

  ghost predicate AreSteps(stores: seq<Store>, effects: seq<Effect>) {
    && |stores| == |effects| + 1
    && forall i :: 0 <= i < |effects| ==> IsStep(stores[i], effects[i], stores[i + 1])
  }

  /** Effect `m` is the last one before `n` that stores for `key`. */
  predicate LastFor(effects: seq<Effect>, m: nat, n: nat, key: Key) {
    && m < n <= |effects| && effects[m].stored == Some(key)
    && forall i :: m < i < n ==> effects[i].stored != Some(key)
  }

  predicate SparedBetween(stores: seq<Store>, effects: seq<Effect>, m: nat, n: nat) {
    && m < n <= |effects| && n <= |stores|
    && forall i :: m < i < n ==> Spares(stores[i].Keys, effects[i], effects[m].now)
  }

  lemma LastForStep(effects: seq<Effect>, m: nat, n: nat, key: Key)
    requires LastFor(effects, m, n + 1, key) && m < n
    ensures LastFor(effects, m, n, key) && effects[n].stored != Some(key)
  {
  }

  lemma SparedStep(stores: seq<Store>, effects: seq<Effect>, m: nat, n: nat)
    requires m < n < |effects| && n < |stores|
    ensures SparedBetween(stores, effects, m, n + 1) <==>
              SparedBetween(stores, effects, m, n) && Spares(stores[n].Keys, effects[n], effects[m].now)
  {
  }

  /** An entry is there exactly as long as it is spared, and nothing touches it meanwhile. */
  lemma {:induction false} ThereWhileSpared(stores: seq<Store>, effects: seq<Effect>, m: nat, n: nat, key: Key)
    requires AreSteps(stores, effects) && LastFor(effects, m, n, key)
    ensures key in stores[n] <==> SparedBetween(stores, effects, m, n)
    ensures key in stores[n] ==> stores[n][key].lastTs == effects[m].now
    decreases n
  {
    if n == m + 1 {
      assert IsStep(stores[m], effects[m], stores[m + 1]);
    } else {
      LastForStep(effects, m, n - 1, key);
      ThereWhileSpared(stores, effects, m, n - 1, key);
      SparedStep(stores, effects, m, n - 1);
      assert IsStep(stores[n - 1], effects[n - 1], stores[n]);
    }
  }

  // ----- a turn is such a step ----------------------------------------------

  function EffectOf(store: Store, t: Turn, fp: Fingerprint): Effect {
    Effect(if t.warm.Some? && OutcomeOf(store, t, fp).Applied? then KeyOf(t, fp) else None, t.now)
  }

  lemma RecordedKeys(store: Store, key: Key, report: Report, sent: seq<Json>, now: nat)
    requires HeadText(sent).Some? && (report.servedFrozen ==> key in store)
    ensures var after := Recorded(store, key, report, sent, now);
            && after.Keys == store.Keys + {key} && after[key].lastTs == now
            && forall k :: k in store && k != key ==> after[k] == store[k]
  {
  }

  lemma SweptIff(store: Store, now: nat)
    ensures var after := Sweep(store, now);
            && (forall k :: k in after ==> k in store && after[k] == store[k])
            && forall k :: k in store ==> (k in after <==> |store.Keys| <= 64 || now <= store[k].lastTs + 86400)
  {
    assert |store| == |store.Keys|;
  }

  lemma TurnIsStep(store: Store, t: Turn, fp: Fingerprint)
    ensures IsStep(store, EffectOf(store, t, fp), StoreAfter(store, t, fp))
  {
    if EffectOf(store, t, fp).stored.Some? {
      var key, report, sent := KeyOf(t, fp).value, OutcomeOf(store, t, fp).report, Sent(store, t, fp);
      AppliedText(Prepared(t), ConfigOf(store, t, fp), fp);
      RecordThenSweep(store, key, report, sent, t.now);
    }
  }

  lemma RecordThenSweep(store: Store, key: Key, report: Report, sent: seq<Json>, now: nat)
    requires HeadText(sent).Some? && (report.servedFrozen ==> key in store)
    ensures IsStep(store, Effect(Some(key), now), Sweep(Recorded(store, key, report, sent, now), now))
  {
    RecordedKeys(store, key, report, sent, now);
    SweptIff(Recorded(store, key, report, sent, now), now);
  }

  // ----- whole runs ---------------------------------------------------------

  /** The stores a run goes through, the empty one first. */
  function StoresOf(turns: seq<Turn>, fp: Fingerprint): (r: seq<Store>)
    ensures |r| == |turns| + 1
    ensures forall i :: 0 <= i <= |turns| ==> r[i] == Run(turns[..i], fp)
  {
    seq(|turns| + 1, i requires 0 <= i <= |turns| => Run(turns[..i], fp))
  }

  function Effects(turns: seq<Turn>, fp: Fingerprint): (r: seq<Effect>)
    ensures |r| == |turns|
    ensures forall i :: 0 <= i < |turns| ==> r[i] == EffectOf(Run(turns[..i], fp), turns[i], fp)
  {
    seq(|turns|, i requires 0 <= i < |turns| => EffectOf(Run(turns[..i], fp), turns[i], fp))
  }

  lemma RunSteps(turns: seq<Turn>, fp: Fingerprint)
    ensures AreSteps(StoresOf(turns, fp), Effects(turns, fp))
  {
    var stores, effects := StoresOf(turns, fp), Effects(turns, fp);
    forall i | 0 <= i < |effects| ensures IsStep(stores[i], effects[i], stores[i + 1]) {
      RunStep(turns, fp, i + 1);
      TurnIsStep(Run(turns[..i], fp), turns[i], fp);
    }
  }

  /**
   * Over every run, what turn `m` stored or touched is there for turn `n` exactly
   * when every turn in between that stored for any conversation left at most 64
   * of them or came at most a day after turn `m`.
   */
  lemma EntryStaysIff(turns: seq<Turn>, m: nat, n: nat, key: Key, fp: Fingerprint)
    requires LastFor(Effects(turns, fp), m, n, key)
    ensures key in Run(turns[..n], fp) <==> SparedBetween(StoresOf(turns, fp), Effects(turns, fp), m, n)
  {
    RunSteps(turns, fp);
    ThereWhileSpared(StoresOf(turns, fp), Effects(turns, fp), m, n, key);
  }

  // ----- who is served ------------------------------------------------------

  /** Two requests share a projection when their session and the fingerprint of their first message are the same. */
  lemma SameKeyIff(a: Turn, b: Turn, fp: Fingerprint)
    requires MessagesOf(a.body).Some? && MessagesOf(b.body).Some?
    requires MessagesOf(a.body).value != [] && MessagesOf(b.body).value != []
    ensures KeyOf(a, fp).Some? && KeyOf(b, fp).Some?
    ensures KeyOf(a, fp) == KeyOf(b, fp) <==>
              a.session == b.session && fp(MessagesOf(a.body).value[0]) == fp(MessagesOf(b.body).value[0])
  {
  }

  lemma StoredIff(turns: seq<Turn>, i: nat, key: Key, fp: Fingerprint, e: Effect)
    requires i < |turns| && e == EffectOf(Run(turns[..i], fp), turns[i], fp)
    ensures e.stored == Some(key) <==> Stores(turns, i, key, fp)
  {
  }

  lemma LastIndexIs(p: nat -> bool, effects: seq<Effect>, m: nat, n: nat, key: Key)
    requires LastFor(effects, m, n, key) && forall i :: 0 <= i < n ==> (p(i) <==> effects[i].stored == Some(key))
    ensures LastIndex(p, n) == Some(m)
  {
    assert p(m);
  }

  lemma LastForIsLastStored(turns: seq<Turn>, effects: seq<Effect>, m: nat, n: nat, key: Key, fp: Fingerprint)
    requires n <= |turns| && effects == Effects(turns, fp) && LastFor(effects, m, n, key)
    ensures LastStored(turns, key, fp, n) == Some(m)
  {
    var p := (i: nat) => i < |turns| && Stores(turns, i, key, fp);
    forall i | 0 <= i < n ensures p(i) <==> effects[i].stored == Some(key) {
      StoredIff(turns, i, key, fp, effects[i]);
    }
    LastIndexIs(p, effects, m, n, key);
  }

  lemma NotServed(store: Store, t: Turn, key: Key, fp: Fingerprint)
    requires KeyOf(t, fp) == Some(key) && key !in store
    ensures var outcome := OutcomeOf(store, t, fp); !(outcome.Applied? && outcome.report.servedFrozen)
  {
  }

  /** Only a turn the policy calls WARM is served a projection, and only one stored for its own conversation. */
  lemma OnlyWarmIsServed(store: Store, t: Turn, fp: Fingerprint)
    ensures var outcome := OutcomeOf(store, t, fp);
            outcome.Applied? && outcome.report.servedFrozen ==>
              && t.enabled && t.warm == Some(true) && KeyOf(t, fp).Some? && KeyOf(t, fp).value in store
              && HeadText(Sent(store, t, fp)) == Some(store[KeyOf(t, fp).value].text)
  {
    if OutcomeOf(store, t, fp).Applied? {
      AppliedText(Prepared(t), ConfigOf(store, t, fp), fp);
    }
  }

  /**
   * In a conversation that only grows, a WARM turn is served the projection of
   * the last turn that stored one exactly when the cycle boundary has not moved
   * and no turn in between drove the projection out; and then it sends an
   * extension of what that turn sent.
   */
  lemma ServedIff(turns: seq<Turn>, m: nat, n: nat, key: Key, fp: Fingerprint)
    requires n < |turns| && AppendOnly(turns, key, fp) && LastFor(Effects(turns, fp), m, n, key)
    requires KeyOf(turns[n], fp) == Some(key) && turns[n].warm == Some(true) && turns[n].enabled
    ensures var outcome := OutcomeOf(Run(turns[..n], fp), turns[n], fp);
            var served := outcome.Applied? && outcome.report.servedFrozen;
            && (served <==>
                  && BoundaryIdx(Billed(turns[n])) == BoundaryIdx(Billed(turns[m]))
                  && SparedBetween(StoresOf(turns, fp), Effects(turns, fp), m, n))
            && (served ==> SentBy(turns, m, fp) <= SentBy(turns, n, fp))
  {
    EntryStaysIff(turns, m, n, key, fp);
    LastForIsLastStored(turns, Effects(turns, fp), m, n, key, fp);
    if key in Run(turns[..n], fp) {
      WarmTurnExtends(turns, n, key, fp);
    } else {
      NotServed(Run(turns[..n], fp), turns[n], key, fp);
    }
  }
}
