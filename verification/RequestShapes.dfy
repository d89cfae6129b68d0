/**
 * The notions the passes share, in the field names of a request: who spoke, what
 * answers what, and which two messages are a pair.
 */
module RequestShapes {
  import opened Wrappers
  import opened Json
  import opened Messages
  import opened Pruning
  import opened PairRetention

  predicate HasRole(m: Json, role: string) {
    Get(m, "role") == Some(Str(role))
  }

  /** The block stands in the list that is the content of the message. */
  predicate InContent(m: Json, b: Json) {
    Get(m, "content").Some? && Get(m, "content").value.Arr? && b in Get(m, "content").value.items
  }

  predicate OfType(b: Json, kind: string) {
    Get(b, "type") == Some(Str(kind))
  }

  /** A list of blocks, not empty, that are all tool results. */
  ghost predicate OnlyAnswers(m: Json) {
    (exists b :: InContent(m, b)) && forall b :: InContent(m, b) ==> OfType(b, "tool_result")
  }

  /** A message of the user's that is no mere answer of tools. */
  ghost predicate UserSpoke(m: Json) {
    HasRole(m, "user") && !OnlyAnswers(m)
  }

  lemma OnlyAnswersIff(m: Json)
    ensures OnlyToolResults(m) <==> OnlyAnswers(m)
  {
    if Blocks(m).Some? {
      assert forall b :: InContent(m, b) <==> b in Blocks(m).value;
      if Blocks(m).value != [] {
        assert Blocks(m).value[0] in Blocks(m).value;
      }
    }
  }

  /** The cycle boundary is the last message the user spoke, and nothing else is. */
  lemma BoundaryIff(ms: seq<Json>, i: nat)
    requires i < |ms|
    ensures BoundaryIdx(ms) == Some(i) <==> UserSpoke(ms[i]) && forall j :: i < j < |ms| ==> !UserSpoke(ms[j])
    ensures BoundaryIdx(ms).None? <==> forall j :: 0 <= j < |ms| ==> !UserSpoke(ms[j])
  {
    forall j | 0 <= j < |ms| ensures IsRealUser(ms[j]) <==> UserSpoke(ms[j]) {
      OnlyAnswersIff(ms[j]);
    }
    if UserSpoke(ms[i]) && forall j :: i < j < |ms| ==> !UserSpoke(ms[j]) {
      BoundaryUnique(ms, i);
    }
  }

  /** The message makes a call with this id. */
  ghost predicate MakesCall(m: Json, id: string) {
    exists c :: InContent(m, c) && OfType(c, "tool_use") && Get(c, "id") == Some(Str(id))
  }

  lemma CallsAre(m: Json, id: string)
    ensures id in ToolUseIds(m) <==> MakesCall(m, id)
  {
    if id in ToolUseIds(m) {
      var c :| c in Blocks(m).value && IsToolUse(c) && UseId(c) == Some(id);
      assert InContent(m, c);
    }
    if MakesCall(m, id) {
      var c :| InContent(m, c) && OfType(c, "tool_use") && Get(c, "id") == Some(Str(id));
      assert c in Blocks(m).value && IsToolUse(c);
    }
  }

  /** Block `b` of message `i` answers a call of the message directly before. */
  ghost predicate AnswersBefore(ms: seq<Json>, i: nat, b: Json)
    requires i < |ms|
  {
    i > 0 && exists id :: Get(b, "tool_use_id") == Some(Str(id)) && MakesCall(ms[i - 1], id)
  }

  lemma AnswersIs(ms: seq<Json>, i: nat, b: Json)
    requires i < |ms| && OfType(b, "tool_result")
    ensures Answers(b, IdsBefore({}, ms, i)) <==> AnswersBefore(ms, i, b)
  {
    if i > 0 && ResultId(b).Some? {
      CallsAre(ms[i - 1], ResultId(b).value);
      assert Get(b, "tool_use_id") == Some(Str(ResultId(b).value));
    }
  }

  /** Every tool result of message `i`, if it is the user's, answers a call of the message directly before. */
  ghost predicate ResultsAnswer(ms: seq<Json>, i: nat)
    requires i < |ms|
  {
    HasRole(ms[i], "user") ==>
      forall b :: InContent(ms[i], b) && OfType(b, "tool_result") ==> AnswersBefore(ms, i, b)
  }

  lemma MessageAnswersIff(ms: seq<Json>, i: nat, valid: set<string>)
    requires i < |ms| && valid == IdsBefore({}, ms, i)
    ensures MessageAnswers(ms[i], valid) <==> ResultsAnswer(ms, i)
  {
    if MessageAnswers(ms[i], valid) && HasRole(ms[i], "user") {
      forall b | InContent(ms[i], b) && OfType(b, "tool_result") ensures AnswersBefore(ms, i, b) {
        assert b in Blocks(ms[i]).value;
        AnswersIs(ms, i, b);
      }
    }
    if ResultsAnswer(ms, i) && IsUser(ms[i]) && Blocks(ms[i]).Some? {
      forall b | b in Blocks(ms[i]).value ensures Answers(b, valid) {
        assert InContent(ms[i], b);
        if IsToolResult(b) {
          AnswersIs(ms, i, b);
        }
      }
    }
  }

  /** Pairing, as the repair establishes it, is exactly this. */
  lemma ResultsPairedIff(ms: seq<Json>)
    ensures ResultsPaired(ms) <==> forall i :: 0 <= i < |ms| ==> ResultsAnswer(ms, i)
  {
    forall i | 0 <= i < |ms| ensures MessageAnswers(ms[i], IdsBefore({}, ms, i)) <==> ResultsAnswer(ms, i) {
      MessageAnswersIff(ms, i, IdsBefore({}, ms, i));
    }
  }

  /** A pair the soft cap may take: an assistant that calls, and the user's answers, neither first nor last. */
  lemma PrunablePairIff(ms: seq<Json>, p: nat)
    ensures PrunablePair(ms, p) <==>
      && 0 < p && p + 2 < |ms|
      && HasRole(ms[p], "assistant") && (exists c :: InContent(ms[p], c) && OfType(c, "tool_use"))
      && HasRole(ms[p + 1], "user") && OnlyAnswers(ms[p + 1])
  {
    if 0 < p && p + 2 < |ms| {
      OnlyAnswersIff(ms[p + 1]);
      assert forall c :: InContent(ms[p], c) <==> Blocks(ms[p]).Some? && c in Blocks(ms[p]).value;
      if c :| InContent(ms[p], c) && OfType(c, "tool_use") {
        assert c in Blocks(ms[p]).value && IsToolUse(c);
      }
      if HasToolUse(ms[p]) {
        var c :| c in Blocks(ms[p]).value && IsToolUse(c);
        assert InContent(ms[p], c);
      }
    }
  }
}
