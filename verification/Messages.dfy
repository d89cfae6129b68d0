/** The parts of a chat request the rewriting passes look at. */
module Messages {
  import opened Wrappers
  import opened Json

  // ----- messages -----------------------------------------------------------

  function Role(m: Json): Option<string> {
    AsStr(Get(m, "role"))
  }

  /** The content blocks, when the content is an array. */
  function Blocks(m: Json): Option<seq<Json>> {
    AsArr(Get(m, "content"))
  }

  function WithBlocks(m: Json, blocks: seq<Json>): Json {
    Set(m, "content", Arr(blocks))
  }

  predicate IsUser(m: Json) {
    Role(m) == Some("user")
  }

  predicate IsAssistant(m: Json) {
    Role(m) == Some("assistant")
  }

  /** Writing the blocks changes the blocks and nothing else a pass reads. */
  lemma WithBlocksFrame(m: Json, blocks: seq<Json>)
    requires m.Obj?
    ensures Blocks(WithBlocks(m, blocks)) == Some(blocks)
    ensures Role(WithBlocks(m, blocks)) == Role(m)
  {
    GetSet(m, "content", Arr(blocks), "content");
    GetSet(m, "content", Arr(blocks), "role");
  }

  lemma WithSameBlocks(m: Json)
    requires Blocks(m).Some?
    ensures WithBlocks(m, Blocks(m).value) == m
  {
    ReplaceSame(m.fields, "content");
  }

  // ----- content blocks -----------------------------------------------------

  function Kind(b: Json): Option<string> {
    AsStr(Get(b, "type"))
  }

  predicate IsToolUse(b: Json) {
    Kind(b) == Some("tool_use")
  }

  predicate IsToolResult(b: Json) {
    Kind(b) == Some("tool_result")
  }

  function UseId(b: Json): Option<string> {
    AsStr(Get(b, "id"))
  }

  function ResultId(b: Json): Option<string> {
    AsStr(Get(b, "tool_use_id"))
  }

  /** Ids of the tool calls a message makes. */
  function ToolUseIds(m: Json): set<string> {
    if Blocks(m).None? then {}
    else set b | b in Blocks(m).value && IsToolUse(b) && UseId(b).Some? :: UseId(b).value
  }

  // ----- tool_result pairing ------------------------------------------------

  /** A block is fine where `valid` are the calls of the previous message. */
  predicate Answers(b: Json, valid: set<string>) {
    IsToolResult(b) ==> ResultId(b).Some? && ResultId(b).value in valid
  }

  predicate MessageAnswers(m: Json, valid: set<string>) {
    IsUser(m) && Blocks(m).Some? ==> forall b :: b in Blocks(m).value ==> Answers(b, valid)
  }

  /** The calls in reach of message `i`; `valid` are those in reach of the first message. */
  function IdsBefore(valid: set<string>, ms: seq<Json>, i: nat): set<string>
    requires i < |ms|
  {
    if i == 0 then valid else ToolUseIds(ms[i - 1])
  }

  predicate PairedAfter(valid: set<string>, ms: seq<Json>) {
    forall i :: 0 <= i < |ms| ==> MessageAnswers(ms[i], IdsBefore(valid, ms, i))
  }

  /** Every tool_result of a user message answers a tool_use of the message directly before it. */
  predicate ResultsPaired(ms: seq<Json>) {
    PairedAfter({}, ms)
  }

  // ----- the cycle boundary -------------------------------------------------

  /** A content array made of tool_result blocks only. */
  predicate OnlyToolResults(m: Json) {
    Blocks(m).Some? && Blocks(m).value != [] && forall b :: b in Blocks(m).value ==> IsToolResult(b)
  }

  /** A user message that carries something the user said. */
  predicate IsRealUser(m: Json) {
    IsUser(m) && !OnlyToolResults(m)
  }

  /** The last message satisfying `p`. */
  function LastWhere(ms: seq<Json>, p: Json -> bool): (r: Option<nat>)
    ensures r.Some? ==> r.value < |ms| && p(ms[r.value]) && forall j :: r.value < j < |ms| ==> !p(ms[j])
    ensures r.None? ==> forall j :: 0 <= j < |ms| ==> !p(ms[j])
  {
    if ms == [] then None
    else if p(ms[|ms| - 1]) then Some(|ms| - 1)
    else LastWhere(ms[..|ms| - 1], p)
  }

  /** The message that started the current reasoning cycle. */
  function BoundaryIdx(ms: seq<Json>): (r: Option<nat>)
    ensures r.Some? ==> r.value < |ms| && IsRealUser(ms[r.value])
    ensures r.Some? ==> forall j :: r.value < j < |ms| ==> !IsRealUser(ms[j])
    ensures r.None? ==> forall j :: 0 <= j < |ms| ==> !IsRealUser(ms[j])
  {
    LastWhere(ms, IsRealUser)
  }

  lemma BoundaryUnique(ms: seq<Json>, i: nat)
    requires i < |ms| && IsRealUser(ms[i])
    requires forall j :: i < j < |ms| ==> !IsRealUser(ms[j])
    ensures BoundaryIdx(ms) == Some(i)
  {
  }

  // ----- the request body ---------------------------------------------------

  function MessagesOf(body: Json): Option<seq<Json>> {
    AsArr(Get(body, "messages"))
  }

  function WithMessages(body: Json, ms: seq<Json>): Json {
    Set(body, "messages", Arr(ms))
  }

  lemma WithMessagesTwice(v: Json, a: seq<Json>, b: seq<Json>)
    requires v.Obj?
    ensures MessagesOf(WithMessages(v, a)) == Some(a)
    ensures WithMessages(WithMessages(v, a), b) == WithMessages(v, b)
  {
    GetSet(v, "messages", Arr(a), "messages");
    ReplaceTwice(v.fields, "messages", Arr(a), Arr(b));
  }

  /** A parsed request body that the passes edit in place. */
  class Request {
    var body: Json

    constructor (body: Json)
      ensures this.body == body
    {
      this.body := body;
    }
  }

  /** A message array that is edited in place. */
  class MessageList {
    var items: seq<Json>

    constructor (items: seq<Json>)
      ensures this.items == items
    {
      this.items := items;
    }
  }
}
