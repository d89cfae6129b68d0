/** What the repair leaves of each message, told by the message before it. */
module RepairedMessages {
  import opened Wrappers
  import opened Json
  import opened Messages
  import opened RequestShapes
  import opened Repair

  /** The blocks of message `i` without the tool results that answer nothing. */
  ghost function Answering(ms: seq<Json>, i: nat, blocks: seq<Json>): seq<Json>
    requires i < |ms|
  {
    if blocks == [] then []
    else
      var stays := OfType(blocks[0], "tool_result") ==> AnswersBefore(ms, i, blocks[0]);
      (if stays then [blocks[0]] else []) + Answering(ms, i, blocks[1..])
  }

  /** What is left of message `i`: of a user's list of blocks what answers, and nothing when that is empty. */
  ghost function LeftOf(ms: seq<Json>, i: nat): seq<Json>
    requires i < |ms|
  {
    var content := Get(ms[i], "content");
    if HasRole(ms[i], "user") && content.Some? && content.value.Arr? then
      var blocks := Answering(ms, i, content.value.items);
      if blocks == [] then [] else [Set(ms[i], "content", Arr(blocks))]
    else [ms[i]]
  }

  ghost function LeftFrom(ms: seq<Json>, i: nat): seq<Json>
    requires i <= |ms|
    decreases |ms| - i
  {
    if i == |ms| then [] else LeftOf(ms, i) + LeftFrom(ms, i + 1)
  }

  lemma {:induction false} AnsweringIsKept(ms: seq<Json>, i: nat, blocks: seq<Json>, valid: set<string>)
    requires i < |ms| && valid == IdsBefore({}, ms, i)
    ensures Answering(ms, i, blocks) == KeptBlocks(blocks, valid)
  {
    if blocks != [] {
      if OfType(blocks[0], "tool_result") {
        AnswersIs(ms, i, blocks[0]);
      }
      AnsweringIsKept(ms, i, blocks[1..], valid);
    }
  }

  lemma LeftOfIs(ms: seq<Json>, i: nat, valid: set<string>)
    requires i < |ms| && valid == IdsBefore({}, ms, i)
    ensures LeftOf(ms, i) == if Survives(Stripped(ms[i], valid)) then [Stripped(ms[i], valid)] else []
  {
    if Repairable(ms[i]) {
      AnsweringIsKept(ms, i, Blocks(ms[i]).value, valid);
      StrippedFacts(ms[i], valid);
    }
  }

  lemma {:induction false} RepairedFromIs(ms: seq<Json>, i: nat, valid: set<string>)
    requires i <= |ms| && (i < |ms| ==> valid == IdsBefore({}, ms, i))
    ensures RepairedFrom(valid, ms[i..]) == LeftFrom(ms, i)
    decreases |ms| - i
  {
    if i < |ms| {
      assert ms[i..][0] == ms[i] && ms[i..][1..] == ms[i + 1..];
      LeftOfIs(ms, i, valid);
      RepairedFromIs(ms, i + 1, ToolUseIds(ms[i]));
    }
  }

  /**
   * The repair leaves every message but the user's lists of blocks as it is; of
   * those it takes exactly the tool results that answer no call of the message
   * before, and drops the ones with nothing left.
   */
  lemma RepairedIs(ms: seq<Json>)
    ensures Repaired(ms) == LeftFrom(ms, 0)
  {
    assert ms[0..] == ms;
    RepairedFromIs(ms, 0, {});
  }
}
