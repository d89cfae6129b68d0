/**
 * A turn that is served its frozen projection and yet does not go out as an
 * extension of the turn before it: the soft cap takes a pair out of its front.
 */
module ServedExample {
  import opened Wrappers
  import opened Json
  import opened Messages
  import opened TokenScan
  import opened Rebuild
  import opened WarmFreeze
  import opened Ejection
  import opened Pruning
  import opened PairRetention
  import opened OutgoingPrefix
  import BillingStrip
  import ReminderStrip
  import Repair
  import Pipeline

  // ----- documents no stripper touches --------------------------------------

  /** A text without the letters that tokens start with. */
  predicate PlainText(s: string) {
    forall c :: c in s ==> c != 'c' && c != '<'
  }

  predicate Plain(v: Json) {
    match v
    case Str(s) => PlainText(s)
    case Arr(items) => forall x :: x in items ==> Plain(x)
    case Obj(fields) => forall f :: f in fields ==> Plain(f.value)
    case _ => true
  }

  /** Every token starts with one of the two letters. */
  ghost predicate StartsMarked(tok: Grammar) {
    forall s: string, i: nat :: tok(s, i) > 0 ==> s[i] == 'c' || s[i] == '<'
  }

  lemma BothMarked()
    ensures StartsMarked(BillingStrip.CCH) && StartsMarked(ReminderStrip.REMINDER)
  {
    assert BillingStrip.NEEDLE[0] == 'c' && ReminderStrip.OPEN_TAG[0] == '<';
    forall s: string, i: nat | BillingStrip.CCH(s, i) > 0 ensures s[i] == 'c' {
      assert s[i + 0] == BillingStrip.NEEDLE[0];
    }
    forall s: string, i: nat | ReminderStrip.REMINDER(s, i) > 0 ensures s[i] == '<' {
      assert s[i + 0] == ReminderStrip.OPEN_TAG[0];
    }
  }

  lemma {:induction false} PlainString(tok: Grammar, s: string, i: nat)
    requires StartsMarked(tok) && PlainText(s) && i <= |s|
    ensures CutsFrom(tok, s, i) == 0
    decreases |s| - i
  {
    if i < |s| {
      assert s[i] in s;
      PlainString(tok, s, i + 1);
    }
  }

  lemma {:induction false} PlainTree(tok: Grammar, v: Json)
    requires StartsMarked(tok) && Plain(v)
    ensures CutsTree(tok, v) == 0
    decreases v, 1
  {
    match v
    case Str(s) => PlainString(tok, s, 0);
    case Arr(items) => PlainItems(tok, items);
    case Obj(fields) => PlainFields(tok, fields);
    case _ =>
  }

  lemma {:induction false} PlainItems(tok: Grammar, items: seq<Json>)
    requires StartsMarked(tok) && forall x :: x in items ==> Plain(x)
    ensures CutsItems(tok, items) == 0
    decreases items, 0
  {
    if items != [] {
      PlainTree(tok, items[0]);
      PlainItems(tok, items[1..]);
    }
  }

  lemma {:induction false} PlainFields(tok: Grammar, fields: seq<Field>)
    requires StartsMarked(tok) && forall f :: f in fields ==> Plain(f.value)
    ensures CutsFields(tok, fields) == 0
    decreases fields, 0
  {
    if fields != [] {
      PlainTree(tok, fields[0].value);
      PlainFields(tok, fields[1..]);
    }
  }

  lemma {:induction false} PlainLookup(fields: seq<Field>, key: string)
    requires (forall f :: f in fields ==> Plain(f.value)) && Lookup(fields, key).Some?
    ensures Plain(Lookup(fields, key).value)
  {
    if fields[0].key != key {
      PlainLookup(fields[1..], key);
    }
  }

  lemma NoReminders(m: Json)
    requires Plain(m)
    ensures ReminderStrip.Reminders(m) == 0
  {
    if Get(m, "content").Some? {
      BothMarked();
      PlainLookup(m.fields, "content");
      PlainTree(ReminderStrip.REMINDER, Get(m, "content").value);
    }
  }

  lemma PlainMessages(ms: seq<Json>)
    requires forall m :: m in ms ==> Plain(m)
    ensures KeptItems(BillingStrip.CCH, ms) == ms && ReminderStrip.Cleaned(ms) == ms
  {
    BothMarked();
    PlainItems(BillingStrip.CCH, ms);
    UncutItems(BillingStrip.CCH, ms);
    forall i | 0 <= i < |ms| ensures ReminderStrip.Cleaned(ms)[i] == ms[i] {
      assert ms[i] in ms;
      NoReminders(ms[i]);
      ReminderStrip.CleanedFacts(ms, i);
    }
  }

  // ----- the conversation ---------------------------------------------------

  const SUMMARY: string := "as before"

  /** An old question, and then the exchange. */
  function History(reply: string): seq<Json> {
    [Message("user", Str("old"))] + Exchange("", reply)
  }

  function TurnWith(ms: seq<Json>, warm: bool): Turn {
    Turn("s", Body(ms), Some(warm), 0, true, (dropped, sections) => SUMMARY, Sections(None, None, None), None)
  }

  /** The first turn comes before the closing remark, the second after it. */
  function Turns(reply: string): (ts: seq<Turn>)
    ensures |ts| == 2
  {
    [TurnWith(History(reply)[..4], false), TurnWith(History(reply), true)]
  }

  lemma PlainMessage(role: string, content: Json)
    requires PlainText(role) && Plain(content)
    ensures Plain(Message(role, content))
  {
    assert Plain(Str(role));
  }

  lemma PlainBlock(b: Json)
    requires b.Obj? && forall f :: f in b.fields ==> f.value.Str? && PlainText(f.value.s)
    ensures Plain(Arr([b]))
  {
    forall f | f in b.fields ensures Plain(f.value) {
    }
    assert Plain(b);
  }

  lemma PlainBlocks()
    ensures Plain(Arr([CallBlock("")])) && Plain(Arr([AnswerBlock()]))
  {
    PlainBlock(CallBlock(""));
    PlainBlock(AnswerBlock());
  }

  lemma PlainFive(a: Json, b: Json, c: Json, d: Json, e: Json)
    requires Plain(a) && Plain(b) && Plain(c) && Plain(d) && Plain(e)
    ensures forall m :: m in [a] + [b, c, d, e] ==> Plain(m)
  {
  }

  lemma PlainHistory(reply: string)
    requires PlainText(reply)
    ensures forall m :: m in History(reply) ==> Plain(m)
  {
    var ms := Exchange("", reply);
    PlainExchange(reply);
    PlainMessage("user", Str("old"));
    PlainFive(Message("user", Str("old")), ms[0], ms[1], ms[2], ms[3]);
    assert ms == [ms[0], ms[1], ms[2], ms[3]];
  }

  lemma PlainExchange(reply: string)
    requires PlainText(reply)
    ensures var ms := Exchange("", reply); Plain(ms[0]) && Plain(ms[1]) && Plain(ms[2]) && Plain(ms[3])
  {
    PlainBlocks();
    PlainMessage("user", Str("go"));
    PlainMessage("assistant", Arr([CallBlock("")]));
    PlainMessage("user", Arr([AnswerBlock()]));
    PlainMessage("assistant", Str(reply));
  }

  lemma BodyMessages(ms: seq<Json>)
    ensures MessagesOf(Body(ms)) == Some(ms) && WithMessages(Obj([]), ms) == Body(ms)
  {
  }

  /** Both turns reach the rebuild as the harness sent them. */
  lemma PreparedAre(reply: string)
    requires PlainText(reply)
    ensures Billed(Turns(reply)[0]) == History(reply)[..4] == Prepared(Turns(reply)[0])
    ensures Billed(Turns(reply)[1]) == History(reply) == Prepared(Turns(reply)[1])
  {
    PlainHistory(reply);
    BodyMessages(History(reply)[..4]);
    BodyMessages(History(reply));
    PlainMessages(History(reply)[..4]);
    PlainMessages(History(reply));
  }

  /** The cycle starts at the question of the exchange. */
  lemma BoundaryIsOne(reply: string)
    ensures BoundaryIdx(History(reply)[..4]) == Some(1) == BoundaryIdx(History(reply))
  {
    var ms := History(reply);
    ExchangeShape("", reply);
    AnswerFacts();
    assert OnlyToolResults(Exchange("", reply)[2]);
    assert ms[1] == Exchange("", reply)[0] && ms[2] == Exchange("", reply)[1];
    assert ms[3] == Exchange("", reply)[2] && ms[4] == Exchange("", reply)[3];
    BoundaryUnique(ms[..4], 1);
    BoundaryUnique(ms, 1);
  }

  // ----- what the turns send ------------------------------------------------

  /** The synthetic message in front of the exchange. */
  function Outgoing(reply: string): seq<Json> {
    [SyntheticMessage(SUMMARY)] + Exchange("", reply)
  }

  /** The in-flight chain pairs up by itself, whole and before the remark. */
  lemma ChainStays(reply: string)
    ensures Repair.RepairedFrom({}, Exchange("", reply)) == Exchange("", reply)
    ensures Repair.RepairedFrom({}, Exchange("", reply)[..3]) == Exchange("", reply)[..3]
  {
    var ms := Exchange("", reply);
    ExchangeShape("", reply);
    ExchangePairs("", reply);
    forall i | 0 <= i < 3 ensures MessageAnswers(ms[..3][i], IdsBefore({}, ms[..3], i)) {
      assert MessageAnswers(ms[i], IdsBefore({}, ms, i));
    }
    Repair.RepairFixpoint(ms);
    Repair.RepairFixpoint(ms[..3]);
  }

  /** A rebuild cut at one sends the text and the chain. */
  lemma AppliedAtOne(ms: seq<Json>, cfg: Config, fp: Fingerprint)
    requires cfg.enabled && BoundaryIdx(ms) == Some(1)
    requires Repair.RepairedFrom({}, ms[1..]) == ms[1..]
    ensures Rebuilt(ms, cfg, fp).1.Applied?
    ensures Rebuilt(ms, cfg, fp).0 == [SyntheticMessage(Synthetic(cfg, fp, ms, 1).0)] + ms[1..]
  {
    RebuiltFacts(ms, cfg, fp);
    var out := Rebuilt(ms, cfg, fp).0;
    assert out == [out[0]] + out[1..];
  }

  function KeyFor(fp: Fingerprint): Key {
    ("s", fp(Message("user", Str("old"))))
  }

  lemma SameKey(reply: string, fp: Fingerprint)
    ensures KeyOf(Turns(reply)[0], fp) == Some(KeyFor(fp)) && KeyOf(Turns(reply)[1], fp) == Some(KeyFor(fp))
  {
    BodyMessages(History(reply)[..4]);
    BodyMessages(History(reply));
    assert History(reply)[..4][0] == Message("user", Str("old"));
  }

  /** A turn with such a history, offered nothing or the same text. */
  lemma TurnSends(ms: seq<Json>, store: Store, t: Turn, fp: Fingerprint)
    requires Prepared(t) == ms && t.enabled && BoundaryIdx(ms) == Some(1)
    requires Repair.RepairedFrom({}, ms[1..]) == ms[1..]
    ensures OutcomeOf(store, t, fp).Applied?
    ensures Sent(store, t, fp) == [SyntheticMessage(Synthetic(ConfigOf(store, t, fp), fp, ms, 1).0)] + ms[1..]
  {
    AppliedAtOne(ms, ConfigOf(store, t, fp), fp);
  }

  /** Unless it is offered something the text is composed. */
  lemma FreshText(ms: seq<Json>, store: Store, t: Turn, fp: Fingerprint)
    requires |ms| > 1 && t.warm == Some(false) && forall dropped, sections :: t.compose(dropped, sections) == SUMMARY
    ensures Synthetic(ConfigOf(store, t, fp), fp, ms, 1).0 == SUMMARY
  {
  }

  lemma FirstSends(ms: seq<Json>, chain: seq<Json>, store: Store, t: Turn, fp: Fingerprint)
    requires Prepared(t) == ms && t.enabled && BoundaryIdx(ms) == Some(1)
    requires chain == ms[1..] && Repair.RepairedFrom({}, chain) == chain
    requires t.warm == Some(false) && forall dropped, sections :: t.compose(dropped, sections) == SUMMARY
    ensures OutcomeOf(store, t, fp).Applied? && Sent(store, t, fp) == [SyntheticMessage(SUMMARY)] + chain
  {
    TurnSends(ms, store, t, fp);
    FreshText(ms, store, t, fp);
  }

  /** What is known of one of the two turns: its history, and what comes after the old question. */
  ghost predicate IsTurn(t: Turn, ms: seq<Json>, chain: seq<Json>, warm: bool) {
    && Billed(t) == ms && Prepared(t) == ms && BoundaryIdx(ms) == Some(1)
    && chain == ms[1..] && Repair.RepairedFrom({}, chain) == chain
    && t.enabled && t.warm == Some(warm) && forall dropped, sections :: t.compose(dropped, sections) == SUMMARY
  }

  lemma TakeCons(x: Json, rest: seq<Json>, k: nat)
    requires k <= |rest|
    ensures ([x] + rest)[..k + 1] == [x] + rest[..k] && ([x] + rest)[..k + 1][1..] == rest[..k]
    ensures ([x] + rest)[1..] == rest
  {
  }

  lemma TheTurns(reply: string)
    requires PlainText(reply)
    ensures IsTurn(Turns(reply)[0], History(reply)[..4], Exchange("", reply)[..3], false)
    ensures IsTurn(Turns(reply)[1], History(reply), Exchange("", reply), true)
  {
    PreparedAre(reply);
    BoundaryIsOne(reply);
    ChainStays(reply);
    TakeCons(Message("user", Str("old")), Exchange("", reply), 3);
  }

  lemma FirstStores(ts: seq<Turn>, ms: seq<Json>, chain: seq<Json>, key: Key, fp: Fingerprint)
    requires |ts| == 2 && IsTurn(ts[0], ms, chain, false) && KeyOf(ts[0], fp) == Some(key)
    ensures Stores(ts, 0, key, fp) && SentBy(ts, 0, fp) == [SyntheticMessage(SUMMARY)] + chain
  {
    FirstSends(ms, chain, Run(ts[..0], fp), ts[0], fp);
  }

  /** Two turns with one boundary: the second is served what the first stored. */
  lemma SecondIsServed(ts: seq<Turn>, key: Key, fp: Fingerprint)
    requires |ts| == 2 && AppendOnly(ts, key, fp) && Stores(ts, 0, key, fp)
    requires KeyOf(ts[1], fp) == Some(key) && ts[1].warm == Some(true) && ts[1].enabled
    requires BoundaryIdx(Billed(ts[1])) == BoundaryIdx(Billed(ts[0]))
    ensures key in Run(ts[..1], fp) && LastStored(ts, key, fp, 1) == Some(0)
    ensures var outcome := OutcomeOf(Run(ts[..1], fp), ts[1], fp); outcome.Applied? && outcome.report.servedFrozen
    ensures SentBy(ts, 0, fp) <= SentBy(ts, 1, fp)
  {
    StoredIsFound(ts, 0, key, fp);
    WarmTurnExtends(ts, 1, key, fp);
  }

  /** So it sends the same text before its own chain. */
  lemma SecondSends(ms: seq<Json>, chain: seq<Json>, store: Store, t: Turn, fp: Fingerprint, before: seq<Json>)
    requires Prepared(t) == ms && t.enabled && BoundaryIdx(ms) == Some(1)
    requires chain == ms[1..] && Repair.RepairedFrom({}, chain) == chain
    requires before <= Sent(store, t, fp) && before != [] && before[0] == SyntheticMessage(SUMMARY)
    ensures Sent(store, t, fp) == [SyntheticMessage(SUMMARY)] + chain
  {
    TurnSends(ms, store, t, fp);
    assert Sent(store, t, fp)[0] == before[0];
  }

  lemma TwoGrow(ts: seq<Turn>, key: Key, fp: Fingerprint)
    requires |ts| == 2 && Billed(ts[0]) <= Billed(ts[1])
    ensures AppendOnly(ts, key, fp)
  {
  }

  lemma SecondExtends(ts: seq<Turn>, xs: seq<Json>, ys: seq<Json>, chain: seq<Json>, more: seq<Json>,
                      key: Key, fp: Fingerprint)
    requires |ts| == 2 && IsTurn(ts[0], xs, chain, false) && IsTurn(ts[1], ys, more, true) && xs <= ys
    requires KeyOf(ts[0], fp) == Some(key) && KeyOf(ts[1], fp) == Some(key)
    ensures AppendOnly(ts, key, fp) && key in Run(ts[..1], fp) && LastStored(ts, key, fp, 1) == Some(0)
    ensures var outcome := OutcomeOf(Run(ts[..1], fp), ts[1], fp); outcome.Applied? && outcome.report.servedFrozen
    ensures SentBy(ts, 0, fp) == [SyntheticMessage(SUMMARY)] + chain
    ensures SentBy(ts, 1, fp) == [SyntheticMessage(SUMMARY)] + more
  {
    FirstStores(ts, xs, chain, key, fp);
    TwoGrow(ts, key, fp);
    SecondIsServed(ts, key, fp);
    var before := SentBy(ts, 0, fp);
    assert before[0] == SyntheticMessage(SUMMARY);
    SecondSends(ys, more, Run(ts[..1], fp), ts[1], fp, before);
  }

  /** The second turn is served, and sends what the first one sent and the remark. */
  lemma BothTurns(reply: string, fp: Fingerprint)
    requires PlainText(reply)
    ensures var ts, key := Turns(reply), KeyFor(fp);
            && KeyOf(ts[1], fp) == Some(key) && ts[1].warm == Some(true) && ts[1].enabled
            && AppendOnly(ts, key, fp) && key in Run(ts[..1], fp) && LastStored(ts, key, fp, 1) == Some(0)
            && BoundaryIdx(Billed(ts[1])) == BoundaryIdx(Billed(ts[0]))
            && var outcome := OutcomeOf(Run(ts[..1], fp), ts[1], fp); outcome.Applied? && outcome.report.servedFrozen
    ensures SentBy(Turns(reply), 0, fp) == [SyntheticMessage(SUMMARY)] + Exchange("", reply)[..3]
    ensures SentBy(Turns(reply), 1, fp) == Outgoing(reply)
  {
    var ms := History(reply);
    TheTurns(reply);
    SameKey(reply, fp);
    SecondExtends(Turns(reply), ms[..4], ms, Exchange("", reply)[..3], Exchange("", reply), KeyFor(fp), fp);
  }

  // ----- what the soft cap makes of it --------------------------------------

  lemma NoIdsInFront()
    ensures ToolUseIds(SyntheticMessage(SUMMARY)) == {} && RoleShaped(SyntheticMessage(SUMMARY))
    ensures forall next :: CallsAnswered(SyntheticMessage(SUMMARY), next)
    ensures forall valid :: MessageAnswers(SyntheticMessage(SUMMARY), valid)
  {
    SyntheticMessageFacts(SUMMARY);
  }

  lemma OutgoingPairs(reply: string)
    ensures TwoSided(Outgoing(reply)) && PrunablePair(Outgoing(reply), 2)
  {
    var ms, out := Exchange("", reply), Outgoing(reply);
    ExchangePairs("", reply);
    NoIdsInFront();
    forall i | 0 <= i < 5 ensures RoleShaped(out[i]) && MessageAnswers(out[i], IdsBefore({}, out, i)) {
      if i > 0 {
        assert RoleShaped(ms[i - 1]) && MessageAnswers(ms[i - 1], IdsBefore({}, ms, i - 1));
      }
    }
    forall i | 0 <= i < 4 ensures CallsAnswered(out[i], out[i + 1]) {
      if i > 0 {
        assert CallsAnswered(ms[i - 1], ms[i - 1 + 1]);
      }
    }
  }

  lemma OutgoingDistinct(reply: string)
    ensures DistinctIds(Outgoing(reply))
  {
    NoIdsInFront();
    ExchangeShape("", reply);
    AnswerFacts();
    assert ToolUseIds(Exchange("", reply)[2]) == {};
  }

  // ----- sizes --------------------------------------------------------------

  lemma SmallMessage(role: string, content: Json)
    requires |role| <= 9 && Size(content) <= 1000
    ensures Size(Message(role, content)) <= 2000
  {
    MessageSize(role, content);
  }

  lemma CallSize()
    ensures Size(CallBlock("")) <= 500
  {
    var b := CallBlock("");
    ThreeStrings(b.fields[0], b.fields[1], b.fields[2]);
  }

  lemma SmallBlock(role: string, b: Json)
    requires |role| <= 9 && Size(b) <= 500
    ensures Size(Message(role, Arr([b]))) <= 2000
  {
    OneItem(b);
    SmallMessage(role, Arr([b]));
  }

  lemma ThreeStrings(f: Field, g: Field, h: Field)
    requires |f.key| <= 11 && |g.key| <= 11 && |h.key| <= 11
    requires f.value.Str? && g.value.Str? && h.value.Str?
    requires |f.value.s| <= 11 && |g.value.s| <= 11 && |h.value.s| <= 11
    ensures Size(Obj([f, g, h])) <= 500
  {
    assert [f, g, h][1..] == [g, h] && [g, h][1..] == [h] && [h][1..] == [];
    assert FieldsSize([h]) == 2 + LiteralLen(h.key) + 1 + Size(h.value);
    assert FieldsSize([g, h]) == 2 + LiteralLen(g.key) + 1 + Size(g.value) + FieldsSize([h]);
    assert FieldsSize([f, g, h]) == 2 + LiteralLen(f.key) + 1 + Size(f.value) + FieldsSize([g, h]);
  }

  lemma OneItem(b: Json)
    ensures Size(Arr([b])) == 2 + Size(b)
  {
    assert [b][1..] == [] && ItemsSize([b]) == Size(b);
  }

  lemma AnswerSize()
    ensures Size(Arr([AnswerBlock()])) <= 1000
  {
    TextBlockSize(Field("type", Str("tool_result")), Field("tool_use_id", Str("t")));
  }

  lemma SummarySize()
    ensures Size(SyntheticMessage(SUMMARY)) <= 2000
  {
    var f, g := Field("type", Str("text")), Field("text", Str(SUMMARY));
    TextBlockSize(f, g);
    SmallMessage("user", Arr([Obj([f, g])]));
  }

  lemma FourItems(a: Json, b: Json, c: Json, d: Json)
    requires Size(a) <= 2000 && Size(b) <= 2000 && Size(c) <= 2000 && Size(d) <= 2000
    ensures Size(Arr([a, b, c, d])) <= 9000
  {
    assert [a, b, c, d][1..] == [b, c, d] && [b, c, d][1..] == [c, d] && [c, d][1..] == [d] && [d][1..] == [];
    assert ItemsSize([d]) == Size(d);
    assert ItemsSize([c, d]) == Size(c) + ItemsSize([d]);
    assert ItemsSize([b, c, d]) == Size(b) + ItemsSize([c, d]);
  }

  lemma BodyOf(ms: seq<Json>)
    ensures Size(Arr(ms)) <= Size(Body(ms)) <= 100 + Size(Arr(ms))
  {
    var f := Field("messages", Arr(ms));
    assert [f][1..] == [] && FieldsSize([f]) == 2 + LiteralLen("messages") + 1 + Size(Arr(ms));
  }

  lemma QuestionSmall(reply: string)
    ensures Size(Exchange("", reply)[0]) <= 2000
  {
    SmallMessage("user", Str("go"));
  }

  lemma CallSmall(reply: string)
    ensures Size(Exchange("", reply)[1]) <= 2000
  {
    CallSize();
    SmallBlock("assistant", CallBlock(""));
  }

  lemma AnswerSmall(reply: string)
    ensures Size(Exchange("", reply)[2]) <= 2000
  {
    AnswerSize();
    SmallMessage("user", Arr([AnswerBlock()]));
  }

  lemma FrontSmall(head: Json, ms: seq<Json>)
    requires |ms| >= 3 && Size(head) <= 2000
    requires Size(ms[0]) <= 2000 && Size(ms[1]) <= 2000 && Size(ms[2]) <= 2000
    ensures Size(Body([head] + ms[..3])) <= 10_000
  {
    FourItems(head, ms[0], ms[1], ms[2]);
    assert [head] + ms[..3] == [head, ms[0], ms[1], ms[2]];
    BodyOf([head] + ms[..3]);
  }

  lemma FrontFits(head: Json, ms: seq<Json>, reply: string)
    requires Size(head) <= 2000 && ms == Exchange("", reply)
    ensures Size(Body([head] + ms[..3])) <= MIB
  {
    QuestionSmall(reply);
    CallSmall(reply);
    AnswerSmall(reply);
    FrontSmall(head, ms);
  }

  /** Without the closing remark what goes out is small. */
  lemma FirstFits(reply: string)
    ensures Size(Body([SyntheticMessage(SUMMARY)] + Exchange("", reply)[..3])) <= MIB
  {
    SummarySize();
    FrontFits(SyntheticMessage(SUMMARY), Exchange("", reply), reply);
  }

  /** With it, it is over the cap, and there is no content to eject. */
  lemma SecondTooLarge(reply: string)
    requires |reply| > MIB
    ensures Size(Body(Outgoing(reply))) > MIB
  {
    var out := Outgoing(reply);
    MessageSize("assistant", Str(reply));
    ItemAtMostItems(out, 4);
    BodyOf(out);
  }

  lemma NothingLarge(reply: string, i: nat)
    requires i < 4
    ensures var m := Exchange("", reply)[i]; Blocks(m).Some? ==> forall b :: b in Blocks(m).value ==> !Ejectable(b)
  {
    ExchangeShape("", reply);
    if i == 1 {
      CallFacts("");
    } else if i == 2 {
      AnswerFacts();
    }
  }

  lemma EmptyOrNot(cs: seq<Candidate>)
    ensures cs == [] || exists c :: c in cs
  {
    if cs != [] {
      assert cs[0] in cs;
    }
  }

  lemma NothingToEject(reply: string)
    ensures Candidates(Outgoing(reply)) == []
  {
    var out := Outgoing(reply);
    SyntheticMessageFacts(SUMMARY);
    forall c ensures !Ejection.Matches(out, c) {
      if 0 < c.mi < 5 {
        NothingLarge(reply, c.mi - 1);
      }
    }
    CandidatesFacts(out, 0);
    EmptyOrNot(CandidatesFrom(out, 0));
  }

  /** So the pair in front has to go. */
  lemma FrontNotKept(reply: string)
    requires |reply| > MIB
    ensures MessagesOf(Body(Outgoing(reply))) == Some(Outgoing(reply))
    ensures !FirstKept(Body(Outgoing(reply)), MIB, 4)
  {
    var out := Outgoing(reply);
    BodyMessages(out);
    NothingToEject(reply);
    WithSameMessages(Body(out));
    SecondTooLarge(reply);
    OutgoingPairs(reply);
    assert PrunableBefore(out, 4);
  }

  /**
   * A long closing remark and a cap of one MiB: the second turn is served the
   * first one's projection, the first one's body fits, and what leaves the
   * proxy for the second no longer begins with what left it for the first.
   */
  lemma ServedAndLost(reply: string, fp: Fingerprint)
    requires PlainText(reply) && |reply| > MIB
    ensures var ts := Turns(reply); var outcome := OutcomeOf(Run(ts[..1], fp), ts[1], fp);
            && LastStored(ts, KeyFor(fp), fp, 1) == Some(0)
            && outcome.Applied? && outcome.report.servedFrozen
            && SentBy(ts, 0, fp) <= SentBy(ts, 1, fp)
            && var first, second := WithMessages(Obj([]), SentBy(ts, 0, fp)), WithMessages(Obj([]), SentBy(ts, 1, fp));
               Size(first) <= MIB && !Pipeline.OutgoingPrefixOf(first, second, MIB)
  {
    BothTurns(reply, fp);
    FirstFits(reply);
    FrontNotKept(reply);
    OutgoingPairs(reply);
    OutgoingDistinct(reply);
    BodyMessages([SyntheticMessage(SUMMARY)] + Exchange("", reply)[..3]);
    BodyMessages(Outgoing(reply));
    Pipeline.OutgoingExtendsIff(Turns(reply), 1, KeyFor(fp), fp, Obj([]), Obj([]), MIB);
  }
}
