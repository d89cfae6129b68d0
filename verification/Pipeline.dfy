/** The passes one after the other: what reaches the upstream API is well paired. */
module Pipeline {
  import opened Wrappers
  import opened Json
  import opened Messages
  import opened Rebuild
  import opened WarmFreeze
  import opened TokenScan
  import opened CleanedContents
  import BillingStrip
  import ReminderStrip
  import opened Pruning
  import opened OutgoingPrefix
  import Repair
  import SoftCap

  // ----- the passes in order ------------------------------------------------

  /**
   * What the rebuild starts from: each message loses its billing tokens, string
   * by string; and then each but the current turn its reminders, with what they
   * leave empty.
   */
  lemma PreparedInOrder(t: Turn, i: nat)
    requires MessagesOf(t.body).Some? && i < |MessagesOf(t.body).value|
    ensures |Billed(t)| == |Prepared(t)| == |MessagesOf(t.body).value|
    ensures var raw, billed, prepared := MessagesOf(t.body).value[i], Billed(t)[i], Prepared(t)[i];
            && Strings(billed) == EachKept(BillingStrip.CCH, Strings(raw)) && SameButStrings(raw, billed)
            && (IsCurrentTurn(Billed(t), i) || ReminderStrip.Reminders(billed) == 0 ==> prepared == billed)
            && (!IsCurrentTurn(Billed(t), i) && ReminderStrip.Reminders(billed) > 0 ==>
                  && Get(billed, "content").Some? && Get(prepared, "content").Some?
                  && var before, after := Get(billed, "content").value, Get(prepared, "content").value;
                     && (before.Str? ==> after.Str? && after.s != "")
                     && (!before.Str? ==> IsPruned(KeptTree(ReminderStrip.REMINDER, before), after)))
  {
    var ms := MessagesOf(t.body).value;
    KeptItemAt(ms, i);
    WalkIsByString(BillingStrip.CCH, ms[i]);
    WalkKeepsShape(BillingStrip.CCH, ms[i]);
    CleanedIs(Billed(t), i);
  }

  lemma {:induction false} KeptItemAt(ms: seq<Json>, i: nat)
    requires i < |ms|
    ensures KeptItems(BillingStrip.CCH, ms)[i] == KeptTree(BillingStrip.CCH, ms[i])
  {
    if i > 0 {
      KeptItemAt(ms[1..], i - 1);
    }
  }

  /**
   * What goes out: the prepared messages while the rebuild is disabled, their
   * repair when there is no history to replace, and otherwise the repair of one
   * synthetic message and everything from the boundary on.
   */
  lemma SentIs(store: Store, t: Turn, fp: Fingerprint)
    ensures var ms, out := Prepared(t), Sent(store, t, fp);
            && (!t.enabled ==> out == ms)
            && (t.enabled && (BoundaryIdx(ms) == None || BoundaryIdx(ms) == Some(0)) ==> out == Repair.Repaired(ms))
            && (t.enabled && BoundaryIdx(ms).Some? && BoundaryIdx(ms).value > 0 ==>
                  && HeadText(out).Some?
                  && out == Repair.Repaired([SyntheticMessage(HeadText(out).value)] + ms[BoundaryIdx(ms).value..]))
  {
    ComposedFromDropped(Prepared(t), ConfigOf(store, t, fp), fp);
  }

  // ----- what holds of what goes out ----------------------------------------

  /** Whatever the client sent, an enabled rebuild sends only results that answer the message before. */
  lemma SentIsPaired(store: Store, t: Turn, fp: Fingerprint)
    requires t.enabled
    ensures ResultsPaired(Sent(store, t, fp))
  {
    var ms, cfg := Prepared(t), ConfigOf(store, t, fp);
    if Rebuilt(ms, cfg, fp).1.Applied? {
      RebuiltFacts(ms, cfg, fp);
    } else {
      Repair.RepairPairs(ms);
    }
  }

  /** And the soft cap keeps it so, at every cap, whatever the other fields of the body. */
  lemma OutgoingIsPaired(store: Store, t: Turn, fp: Fingerprint, other: Json, cap: nat)
    requires t.enabled && other.Obj?
    ensures var body := WithMessages(other, Sent(store, t, fp));
            && MessagesOf(SoftCap.Reduced(body, cap)).Some?
            && ResultsPaired(MessagesOf(SoftCap.Reduced(body, cap)).value)
  {
    SentIsPaired(store, t, fp);
    var body := WithMessages(other, Sent(store, t, fp));
    GetSet(other, "messages", Arr(Sent(store, t, fp)), "messages");
    SoftCap.ReducedResults(body, cap);
  }

  // ----- the frozen prefix behind the soft cap ------------------------------

  /** What leaves the soft cap for the second body begins with what left it for the first. */
  predicate OutgoingPrefixOf(first: Json, second: Json, cap: nat) {
    var before, after := MessagesOf(SoftCap.Reduced(first, cap)), MessagesOf(SoftCap.Reduced(second, cap));
    before.Some? && after.Some? && before.value <= after.value
  }

  /** The body fits the cap in force. */
  predicate Fits(body: Json, cap: nat) {
    cap == 0 || Size(body) <= cap
  }

  /** For two bodies, the first of which fits and begins the second. */
  lemma BodiesExtend(other: Json, another: Json, a: seq<Json>, b: seq<Json>, cap: nat)
    requires other.Obj? && another.Obj? && a <= b && Fits(WithMessages(other, a), cap)
    ensures var first, second := WithMessages(other, a), WithMessages(another, b);
            && MessagesOf(second) == Some(b)
            && (FirstKept(second, cap, |a|) && (Fits(second, cap) || TwoSided(b)) ==>
                  OutgoingPrefixOf(first, second, cap))
            && (TwoSided(b) && DistinctIds(b) ==>
                  (OutgoingPrefixOf(first, second, cap) <==> FirstKept(second, cap, |a|)))
  {
    var first, second := WithMessages(other, a), WithMessages(another, b);
    GetSet(other, "messages", Arr(a), "messages");
    GetSet(another, "messages", Arr(b), "messages");
    SoftCap.ReducedMessagesAre(first, cap);
    SoftCap.ReducedMessagesAre(second, cap);
    assert b[..|a|] == a;
    if FirstKept(second, cap, |a|) && (Fits(second, cap) || TwoSided(b)) {
      FirstMessagesKept(second, cap, |a|);
    }
    if TwoSided(b) && DistinctIds(b) {
      FirstMessagesKeptIff(second, cap, |a|);
    }
  }

  /**
   * The extension a served turn promises is what leaves the proxy when the
   * first body fits and the soft cap takes nothing of the second one's first
   * messages; in particular when both fit.
   */
  lemma OutgoingExtends(turns: seq<Turn>, n: nat, key: Key, fp: Fingerprint, other: Json, another: Json, cap: nat)
    requires n < |turns| && AppendOnly(turns, key, fp) && other.Obj? && another.Obj?
    requires KeyOf(turns[n], fp) == Some(key) && turns[n].warm == Some(true) && turns[n].enabled
    requires key in Run(turns[..n], fp)
    ensures var m := LastStored(turns, key, fp, n);
            && m.Some?
            && var a, b := SentBy(turns, m.value, fp), SentBy(turns, n, fp);
               var first, second := WithMessages(other, a), WithMessages(another, b);
               && MessagesOf(second) == Some(b)
               && (BoundaryIdx(Billed(turns[n])) == BoundaryIdx(Billed(turns[m.value])) && Fits(first, cap) ==>
                     && a <= b
                     && (FirstKept(second, cap, |a|) && (Fits(second, cap) || TwoSided(b)) ==>
                           OutgoingPrefixOf(first, second, cap)))
  {
    WarmTurnExtends(turns, n, key, fp);
    var m := LastStored(turns, key, fp, n).value;
    var a, b := SentBy(turns, m, fp), SentBy(turns, n, fp);
    GetSet(another, "messages", Arr(b), "messages");
    if BoundaryIdx(Billed(turns[n])) == BoundaryIdx(Billed(turns[m])) && Fits(WithMessages(other, a), cap) {
      BodiesExtend(other, another, a, b, cap);
    }
  }

  /** For a two-sided conversation with distinct call ids it leaves the proxy only then. */
  lemma OutgoingExtendsIff(turns: seq<Turn>, n: nat, key: Key, fp: Fingerprint, other: Json, another: Json, cap: nat)
    requires n < |turns| && AppendOnly(turns, key, fp) && other.Obj? && another.Obj?
    requires KeyOf(turns[n], fp) == Some(key) && turns[n].warm == Some(true) && turns[n].enabled
    requires key in Run(turns[..n], fp)
    requires TwoSided(SentBy(turns, n, fp)) && DistinctIds(SentBy(turns, n, fp))
    ensures var m := LastStored(turns, key, fp, n);
            && m.Some?
            && var a, b := SentBy(turns, m.value, fp), SentBy(turns, n, fp);
               var first, second := WithMessages(other, a), WithMessages(another, b);
               && MessagesOf(second) == Some(b)
               && (BoundaryIdx(Billed(turns[n])) == BoundaryIdx(Billed(turns[m.value])) && Fits(first, cap) ==>
                     && a <= b
                     && (OutgoingPrefixOf(first, second, cap) <==> FirstKept(second, cap, |a|)))
  {
    WarmTurnExtends(turns, n, key, fp);
    var m := LastStored(turns, key, fp, n).value;
    var a, b := SentBy(turns, m, fp), SentBy(turns, n, fp);
    GetSet(another, "messages", Arr(b), "messages");
    if BoundaryIdx(Billed(turns[n])) == BoundaryIdx(Billed(turns[m])) && Fits(WithMessages(other, a), cap) {
      BodiesExtend(other, another, a, b, cap);
    }
  }
}
