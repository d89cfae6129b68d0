/**
 * The summary of tool calls in a dropped history, and the frontier of calls
 * and locks that must not fall off the projection.
 */
module Frontier {
  import opened Wrappers
  import opened Json
  import opened Messages

  const INLINE_ERROR_BUDGET: nat := 1500

  datatype Status = Pending | Ok | Error

  datatype NativeToolCall = NativeToolCall(
    name: string, id: string, input: Option<Json>,
    outputSize: nat, status: Status, errorBody: Option<string>)

  // ----- events -------------------------------------------------------------

  /** The content blocks of a history in order. */
  function BlocksOf(ms: seq<Json>): seq<Json> {
    if ms == [] then [] else (if Blocks(ms[0]).Some? then Blocks(ms[0]).value else []) + BlocksOf(ms[1..])
  }

  function IdOr(id: Option<string>): string {
    if id.Some? then id.value else ""
  }

  /** A call that is recorded: one with a non-empty id. */
  predicate IsCall(b: Json, id: string) {
    id != "" && Get(b, "type") == Some(Str("tool_use")) && Get(b, "id") == Some(Str(id))
  }

  predicate IsAnswer(b: Json, id: string) {
    id != "" && Get(b, "type") == Some(Str("tool_result")) && Get(b, "tool_use_id") == Some(Str(id))
  }

  predicate IsErrorResult(b: Json) {
    Get(b, "is_error") == Some(Bool(true))
  }

  /** Size and inlinable text of a result's content: text blocks joined by newlines. */
  function OutputOf(b: Json): (nat, Option<string>) {
    match Get(b, "content")
    case Some(Str(s)) => (TextLen(s), Some(s))
    case Some(Arr(items)) => (OutputSize(items), if Texts(items) == [] then None else Some(Join(Texts(items))))
    case _ => (0, None)
  }

  function OutputSize(items: seq<Json>): nat {
    if items == [] then 0
    else
      var t := AsStr(Get(items[0], "text"));
      (if t.Some? then TextLen(t.value) else Size(items[0])) + OutputSize(items[1..])
  }

  function Texts(items: seq<Json>): seq<string> {
    if items == [] then []
    else
      var t := AsStr(Get(items[0], "text"));
      (if t.Some? then [t.value] else []) + Texts(items[1..])
  }

  function Join(lines: seq<string>): string {
    if lines == [] then "" else if |lines| == 1 then lines[0] else lines[0] + "\n" + Join(lines[1..])
  }

  lemma {:induction false} OutputSizeSnoc(items: seq<Json>, x: Json)
    ensures OutputSize(items + [x]) ==
      OutputSize(items) + if AsStr(Get(x, "text")).Some? then TextLen(AsStr(Get(x, "text")).value) else Size(x)
  {
    if items == [] {
      assert [x][1..] == [];
    } else {
      assert (items + [x])[1..] == items[1..] + [x];
      OutputSizeSnoc(items[1..], x);
    }
  }

  lemma {:induction false} TextsSnoc(items: seq<Json>, x: Json)
    ensures Texts(items + [x]) ==
      Texts(items) + if AsStr(Get(x, "text")).Some? then [AsStr(Get(x, "text")).value] else []
  {
    if items == [] {
      assert [x][1..] == [];
    } else {
      assert (items + [x])[1..] == items[1..] + [x];
      TextsSnoc(items[1..], x);
      var t, u := AsStr(Get(items[0], "text")), AsStr(Get(x, "text"));
      var first, last := if t.Some? then [t.value] else [], if u.Some? then [u.value] else [];
      assert first + (Texts(items[1..]) + last) == first + Texts(items[1..]) + last;
    }
  }

  lemma {:induction false} JoinSnoc(lines: seq<string>, t: string)
    ensures Join(lines + [t]) == if lines == [] then t else Join(lines) + "\n" + t
  {
    if lines != [] {
      var rest := lines[1..];
      assert (lines + [t])[1..] == rest + [t];
      JoinSnoc(rest, t);
      if rest != [] {
        assert lines[0] + "\n" + (Join(rest) + "\n" + t) == lines[0] + "\n" + Join(rest) + "\n" + t;
      }
    }
  }

  /** A plain text is its own output, and nothing is none. */
  lemma OutputOfText(b: Json)
    ensures match Get(b, "content")
            case Some(Str(s)) => OutputOf(b) == (TextLen(s), Some(s))
            case Some(Arr(items)) => items == [] ==> OutputOf(b) == (0, None)
            case _ => OutputOf(b) == (0, None)
  {
  }

  /** One block more: a text adds its bytes and, on a line of its own, itself; anything else adds its size only. */
  lemma OutputOfMore(b: Json, more: Json, items: seq<Json>, x: Json)
    requires Get(b, "content") == Some(Arr(items)) && Get(more, "content") == Some(Arr(items + [x]))
    ensures match Get(x, "text")
            case Some(Str(t)) =>
              && OutputOf(more).0 == OutputOf(b).0 + TextLen(t)
              && OutputOf(more).1 == Some(if OutputOf(b).1.Some? then OutputOf(b).1.value + "\n" + t else t)
            case _ => OutputOf(more) == (OutputOf(b).0 + Size(x), OutputOf(b).1)
  {
    OutputSizeSnoc(items, x);
    TextsSnoc(items, x);
    if AsStr(Get(x, "text")).Some? {
      JoinSnoc(Texts(items), AsStr(Get(x, "text")).value);
    } else {
      assert Texts(items + [x]) == Texts(items);
    }
  }

  function NewCall(b: Json): NativeToolCall {
    NativeToolCall(
      if AsStr(Get(b, "name")).Some? then AsStr(Get(b, "name")).value else "?",
      IdOr(UseId(b)), Get(b, "input"), 0, Pending, None)
  }

  function Answered(call: NativeToolCall, b: Json): NativeToolCall {
    var (size, text) := OutputOf(b);
    var error := IsErrorResult(b);
    call.(outputSize := size,
          status := if error then Error else Ok,
          errorBody := if error && text.Some? && |text.value| <= INLINE_ERROR_BUDGET then text else call.errorBody)
  }

  // ----- the scan -----------------------------------------------------------

  /** Ids in the order first met, and the latest state of each call. */
  datatype Scan = Scan(order: seq<string>, byId: map<string, NativeToolCall>)

  ghost predicate Valid(s: Scan) {
    && (forall i, j :: 0 <= i < j < |s.order| ==> s.order[i] != s.order[j])
    && (forall id :: id in s.order <==> id in s.byId)
    && (forall id :: id in s.byId ==> s.byId[id].id == id && id != "")
  }

  function Step(s: Scan, b: Json): Scan {
    if IsToolUse(b) then
      var id := IdOr(UseId(b));
      if id == "" then s
      else Scan(if id in s.byId then s.order else s.order + [id], s.byId[id := NewCall(b)])
    else if IsToolResult(b) then
      var id := IdOr(ResultId(b));
      if id == "" || id !in s.byId then s
      else s.(byId := s.byId[id := Answered(s.byId[id], b)])
    else s
  }

  function ScanBlocks(blocks: seq<Json>): Scan {
    if blocks == [] then Scan([], map[])
    else Step(ScanBlocks(blocks[..|blocks| - 1]), blocks[|blocks| - 1])
  }

  function CallsOf(s: Scan): (r: seq<NativeToolCall>)
    requires Valid(s)
    ensures |r| == |s.order|
    ensures forall i :: 0 <= i < |r| ==> r[i] == s.byId[s.order[i]]
  {
    seq(|s.order|, i requires 0 <= i < |s.order| => s.byId[s.order[i]])
  }

  /** The last `cap` elements. */
  function Tail<T>(s: seq<T>, cap: nat): (r: seq<T>)
    ensures |r| == Min(cap, |s|)
    ensures r == s[|s| - |r|..]
  {
    if |s| > cap then s[|s| - cap..] else s
  }

  lemma {:induction false} ScanValid(blocks: seq<Json>)
    ensures Valid(ScanBlocks(blocks))
  {
    if blocks != [] {
      ScanValid(blocks[..|blocks| - 1]);
    }
  }

  function Summary(ms: seq<Json>, cap: nat): seq<NativeToolCall> {
    ScanValid(BlocksOf(ms));
    Tail(CallsOf(ScanBlocks(BlocksOf(ms))), cap)
  }

  /** Paging drops whole calls from the front: the capped summary is a suffix of the full one. */
  lemma SummaryIsSuffix(ms: seq<Json>, cap: nat, all: nat)
    requires all >= |BlocksOf(ms)|
    ensures var full, capped := Summary(ms, all), Summary(ms, cap);
            |capped| == Min(cap, |full|) && capped == full[|full| - |capped|..]
  {
    ScanBounded(BlocksOf(ms));
  }

  lemma {:induction false} ScanBounded(blocks: seq<Json>)
    ensures |ScanBlocks(blocks).order| <= |blocks|
  {
    if blocks != [] {
      ScanBounded(blocks[..|blocks| - 1]);
    }
  }

  // ----- what the scan knows about a call -----------------------------------

  /** The last call with this id. */
  ghost predicate LastCall(blocks: seq<Json>, id: string, i: nat) {
    i < |blocks| && IsCall(blocks[i], id) && forall j :: i < j < |blocks| ==> !IsCall(blocks[j], id)
  }

  /** No result for the id after position `i`. */
  ghost predicate Unanswered(blocks: seq<Json>, id: string, i: nat) {
    forall j :: i < j < |blocks| ==> !IsAnswer(blocks[j], id)
  }

  /** Result `k` is the last one after `i`. */
  ghost predicate LastAnswer(blocks: seq<Json>, id: string, i: nat, k: nat) {
    i < k < |blocks| && IsAnswer(blocks[k], id) && forall j :: k < j < |blocks| ==> !IsAnswer(blocks[j], id)
  }

  predicate Failed(b: Json) {
    Get(b, "is_error") == Some(Bool(true))
  }

  /** A result that says it failed, in a text of at most 1500 characters. */
  predicate Inlined(b: Json) {
    Failed(b) && OutputOf(b).1.Some? && |OutputOf(b).1.value| <= 1500
  }

  ghost predicate InlinedAnswer(blocks: seq<Json>, id: string, i: nat, k: nat) {
    i < k < |blocks| && IsAnswer(blocks[k], id) && Inlined(blocks[k])
  }

  /** The error text on record is that of the last inlined result after `i`, also when a later result is none. */
  ghost predicate TellsError(blocks: seq<Json>, id: string, i: nat, errorBody: Option<string>) {
    && (errorBody.None? ==> forall k: nat :: !InlinedAnswer(blocks, id, i, k))
    && (errorBody.Some? ==> exists k: nat ::
          && InlinedAnswer(blocks, id, i, k) && OutputOf(blocks[k]).1 == errorBody
          && forall j: nat :: k < j ==> !InlinedAnswer(blocks, id, i, j))
  }

  /** The name and the input of the record are those of the call. */
  predicate TellsCall(b: Json, call: NativeToolCall) {
    && call.input == Get(b, "input")
    && (match Get(b, "name") case Some(Str(s)) => call.name == s case _ => call.name == "?")
  }

  /** What the record of `id` says, read off the history itself, the last call with the id being block `i`. */
  ghost predicate ReflectsAt(blocks: seq<Json>, id: string, i: nat, call: NativeToolCall) {
    && LastCall(blocks, id, i) && call.id == id && TellsCall(blocks[i], call)
    && (call.status == Pending <==> Unanswered(blocks, id, i))
    && (call.status == Pending ==> call.outputSize == 0)
    && (forall k: nat :: LastAnswer(blocks, id, i, k) ==>
          call.status == (if Failed(blocks[k]) then Error else Ok) && call.outputSize == OutputOf(blocks[k]).0)
    && TellsError(blocks, id, i, call.errorBody)
  }

  ghost predicate Reflects(blocks: seq<Json>, id: string, call: NativeToolCall) {
    exists i: nat :: ReflectsAt(blocks, id, i, call)
  }

  lemma ReflectsNewCall(blocks: seq<Json>, b: Json, id: string)
    requires IsCall(b, id)
    ensures Reflects(blocks + [b], id, NewCall(b))
  {
    assert LastCall(blocks + [b], id, |blocks|);
    assert ReflectsAt(blocks + [b], id, |blocks|, NewCall(b));
  }

  /** A result more: it is the last inlined one, or the last one stays. */
  lemma TellsErrorSnoc(blocks: seq<Json>, b: Json, id: string, i: nat, errorBody: Option<string>)
    requires i < |blocks| && TellsError(blocks, id, i, errorBody)
    ensures TellsError(blocks + [b], id, i, if IsAnswer(b, id) && Inlined(b) then OutputOf(b).1 else errorBody)
  {
    var more := blocks + [b];
    assert more[|blocks|] == b;
    assert forall k: nat :: k < |blocks| ==> more[k] == blocks[k];
    assert forall k: nat :: k < |blocks| ==> (InlinedAnswer(more, id, i, k) <==> InlinedAnswer(blocks, id, i, k));
    if IsAnswer(b, id) && Inlined(b) {
      assert InlinedAnswer(more, id, i, |blocks|);
    } else if errorBody.Some? {
      var k: nat :| InlinedAnswer(blocks, id, i, k) && OutputOf(blocks[k]).1 == errorBody
        && forall j: nat :: k < j ==> !InlinedAnswer(blocks, id, i, j);
      assert InlinedAnswer(more, id, i, k);
    }
  }

  lemma ReflectsAnswer(blocks: seq<Json>, b: Json, id: string, call: NativeToolCall)
    requires Reflects(blocks, id, call) && IsAnswer(b, id)
    ensures Reflects(blocks + [b], id, Answered(call, b))
  {
    var i: nat :| ReflectsAt(blocks, id, i, call);
    var more := blocks + [b];
    assert more[i] == blocks[i] && more[|blocks|] == b;
    assert LastCall(more, id, i);
    assert !Unanswered(more, id, i) && IsAnswer(more[|blocks|], id);
    forall k: nat | LastAnswer(more, id, i, k) ensures k == |blocks| {
    }
    TellsErrorSnoc(blocks, b, id, i, call.errorBody);
    assert ReflectsAt(more, id, i, Answered(call, b));
  }

  lemma ReflectsOther(blocks: seq<Json>, b: Json, id: string, call: NativeToolCall)
    requires Reflects(blocks, id, call) && !IsCall(b, id) && !IsAnswer(b, id)
    ensures Reflects(blocks + [b], id, call)
  {
    var i: nat :| ReflectsAt(blocks, id, i, call);
    var more := blocks + [b];
    assert forall j :: 0 <= j < |blocks| ==> more[j] == blocks[j];
    assert LastCall(more, id, i);
    SameAnswers(blocks, b, id, i);
    TellsErrorSnoc(blocks, b, id, i, call.errorBody);
    assert ReflectsAt(more, id, i, call);
  }

  lemma SameAnswers(blocks: seq<Json>, b: Json, id: string, i: nat)
    requires !IsAnswer(b, id) && i < |blocks|
    ensures Unanswered(blocks + [b], id, i) <==> Unanswered(blocks, id, i)
    ensures forall k: nat :: LastAnswer(blocks + [b], id, i, k) ==>
              LastAnswer(blocks, id, i, k) && (blocks + [b])[k] == blocks[k]
  {
    var more := blocks + [b];
    assert forall j :: 0 <= j < |blocks| ==> more[j] == blocks[j];
    if Unanswered(more, id, i) {
      forall j | i < j < |blocks| ensures !IsAnswer(blocks[j], id) {
        assert !IsAnswer(more[j], id);
      }
    }
    forall k: nat | LastAnswer(more, id, i, k) ensures LastAnswer(blocks, id, i, k) {
      forall j | k < j < |blocks| ensures !IsAnswer(blocks[j], id) {
        assert !IsAnswer(more[j], id);
      }
    }
  }

  ghost predicate Called(blocks: seq<Json>, id: string) {
    exists j :: 0 <= j < |blocks| && IsCall(blocks[j], id)
  }

  lemma CalledSnoc(blocks: seq<Json>, b: Json, id: string)
    ensures Called(blocks + [b], id) <==> Called(blocks, id) || IsCall(b, id)
  {
    var more := blocks + [b];
    assert more[|blocks|] == b;
    if Called(blocks, id) {
      var j :| 0 <= j < |blocks| && IsCall(blocks[j], id);
      assert IsCall(more[j], id);
    }
    if Called(more, id) {
      var j :| 0 <= j < |more| && IsCall(more[j], id);
      assert j < |blocks| ==> IsCall(blocks[j], id);
    }
  }

  /** The scan records exactly the ids that are called. */
  lemma {:induction false} ScanRecords(blocks: seq<Json>, id: string)
    ensures id in ScanBlocks(blocks).byId <==> Called(blocks, id)
  {
    if blocks != [] {
      var before, b := blocks[..|blocks| - 1], blocks[|blocks| - 1];
      assert blocks == before + [b];
      ScanRecords(before, id);
      CalledSnoc(before, b, id);
    }
  }

  lemma StepReflects(blocks: seq<Json>, s: Scan, b: Json, id: string)
    requires id in s.byId ==> Reflects(blocks, id, s.byId[id])
    requires id in Step(s, b).byId
    ensures Reflects(blocks + [b], id, Step(s, b).byId[id])
  {
    if IsCall(b, id) {
      ReflectsNewCall(blocks, b, id);
    } else if IsAnswer(b, id) {
      ReflectsAnswer(blocks, b, id, s.byId[id]);
    } else {
      assert Step(s, b).byId[id] == s.byId[id];
      ReflectsOther(blocks, b, id, s.byId[id]);
    }
  }

  /** One more block keeps it. */
  ghost predicate Stays(good: (seq<Json>, Scan) -> bool) {
    forall bs: seq<Json>, b, s: Scan :: good(bs, s) ==> good(bs + [b], Step(s, b))
  }

  lemma StaysOnce(good: (seq<Json>, Scan) -> bool, bs: seq<Json>, b: Json, s: Scan)
    requires Stays(good) && good(bs, s)
    ensures good(bs + [b], Step(s, b))
  {
  }

  /** Whatever holds of an empty scan and stays with every block holds of the scan. */
  lemma {:induction false} ScanKeeps(blocks: seq<Json>, good: (seq<Json>, Scan) -> bool)
    requires good([], Scan([], map[])) && Stays(good)
    ensures good(blocks, ScanBlocks(blocks))
  {
    if blocks != [] {
      var before, b := blocks[..|blocks| - 1], blocks[|blocks| - 1];
      ScanKeeps(before, good);
      StaysOnce(good, before, b, ScanBlocks(before));
      assert before + [b] == blocks;
    }
  }

  /** What the scan records of a call is the truth about the history. */
  lemma ScanReflects(blocks: seq<Json>, id: string)
    ensures id in ScanBlocks(blocks).byId ==> Reflects(blocks, id, ScanBlocks(blocks).byId[id])
  {
    var good := (bs: seq<Json>, s: Scan) => id in s.byId ==> Reflects(bs, id, s.byId[id]);
    forall bs: seq<Json>, b, s: Scan | good(bs, s) ensures good(bs + [b], Step(s, b)) {
      if id in Step(s, b).byId {
        StepReflects(bs, s, b, id);
      }
    }
    ScanKeeps(blocks, good);
  }

  // ----- the frontier -------------------------------------------------------

  datatype Item = InFlight(call: NativeToolCall) | ArmedMonitor(description: string) | LockHeld(name: string)

  function Pendings(calls: seq<NativeToolCall>): seq<Item> {
    if calls == [] then []
    else
      var c := calls[|calls| - 1];
      Pendings(calls[..|calls| - 1]) + if c.status == Pending then [InFlight(c)] else []
  }

  lemma {:induction false} PendingsConcat(a: seq<NativeToolCall>, b: seq<NativeToolCall>)
    ensures Pendings(a + b) == Pendings(a) + Pendings(b)
    decreases b
  {
    if b == [] {
      assert a + b == a;
    } else {
      var front, c := b[..|b| - 1], b[|b| - 1];
      assert (a + b)[..|a + b| - 1] == a + front;
      PendingsConcat(a, front);
      var last := if c.status == Pending then [InFlight(c)] else [];
      assert Pendings(a) + Pendings(front) + last == Pendings(a) + (Pendings(front) + last);
    }
  }

  function MonitorText(call: NativeToolCall): string {
    var d := if call.input.Some? then AsStr(Get(call.input.value, "description")) else None;
    if d.Some? then d.value else "?"
  }

  function Monitors(calls: seq<NativeToolCall>): seq<Item> {
    if calls == [] then []
    else
      var c := calls[|calls| - 1];
      var armed := if c.status == Ok && c.name == "Monitor" then [ArmedMonitor(MonitorText(c))] else [];
      Monitors(calls[..|calls| - 1]) + armed
  }

  lemma {:induction false} MonitorsConcat(a: seq<NativeToolCall>, b: seq<NativeToolCall>)
    ensures Monitors(a + b) == Monitors(a) + Monitors(b)
    decreases b
  {
    if b == [] {
      assert a + b == a;
    } else {
      var front, c := b[..|b| - 1], b[|b| - 1];
      assert (a + b)[..|a + b| - 1] == a + front;
      MonitorsConcat(a, front);
      var last := if c.status == Ok && c.name == "Monitor" then [ArmedMonitor(MonitorText(c))] else [];
      assert Monitors(a) + Monitors(front) + last == Monitors(a) + (Monitors(front) + last);
    }
  }

  function Arg(input: Option<Json>, key: string): string {
    if input.Some? then IdOr(AsStr(Get(input.value, key))) else ""
  }

  /** The lock a call by this name and input would act on, and whether it takes it. */
  function LockAct(name: string, input: Option<Json>): Option<(string, bool)> {
    var action, lock := Arg(input, "action"), Arg(input, "name");
    if (name != "mcp__ostk__lock" && name != "lock") || lock == "" then None
    else if action == "create" then Some((lock, true))
    else if action == "release" || action == "break" then Some((lock, false))
    else None
  }

  function ActOf(call: NativeToolCall): Option<(string, bool)> {
    if call.status == Ok then LockAct(call.name, call.input) else None
  }

  function Without(held: seq<string>, name: string): seq<string> {
    if held == [] then [] else (if held[0] == name then [] else [held[0]]) + Without(held[1..], name)
  }

  function HeldStep(held: seq<string>, call: NativeToolCall): seq<string> {
    match ActOf(call)
    case None => held
    case Some((lock, takes)) => if !takes then Without(held, lock) else if lock in held then held else held + [lock]
  }

  function Held(calls: seq<NativeToolCall>): seq<string> {
    if calls == [] then [] else HeldStep(Held(calls[..|calls| - 1]), calls[|calls| - 1])
  }

  function LockItems(held: seq<string>): seq<Item> {
    if held == [] then [] else [LockHeld(held[0])] + LockItems(held[1..])
  }

  function AllCalls(ms: seq<Json>): seq<NativeToolCall> {
    ScanValid(BlocksOf(ms));
    CallsOf(ScanBlocks(BlocksOf(ms)))
  }

  function Unresolved(ms: seq<Json>): seq<Item> {
    Pendings(AllCalls(ms)) + Monitors(AllCalls(ms)) + LockItems(Held(AllCalls(ms)))
  }

  /** In-flight calls first, monitors next, locks last; calls and monitors in the order of the calls. */
  lemma UnresolvedInOrder(ms: seq<Json>, a: seq<NativeToolCall>, b: seq<NativeToolCall>)
    requires AllCalls(ms) == a + b
    ensures Unresolved(ms) == Pendings(a) + Pendings(b) + (Monitors(a) + Monitors(b)) + LockItems(Held(a + b))
  {
    PendingsConcat(a, b);
    MonitorsConcat(a, b);
  }

  lemma {:induction false} PendingsMembers(calls: seq<NativeToolCall>, item: Item)
    ensures item in Pendings(calls) <==> item.InFlight? && item.call in calls && item.call.status == Pending
  {
    if calls != [] {
      PendingsMembers(calls[..|calls| - 1], item);
      assert calls == calls[..|calls| - 1] + [calls[|calls| - 1]];
    }
  }

  /** A call that left a monitor armed. */
  predicate Armed(call: NativeToolCall) {
    call.status == Ok && call.name == "Monitor"
  }

  lemma {:induction false} MonitorsMembers(calls: seq<NativeToolCall>, item: Item)
    ensures item in Monitors(calls) <==>
      item.ArmedMonitor? && exists c :: c in calls && Armed(c) && MonitorText(c) == item.description
  {
    if calls != [] {
      MonitorsMembers(calls[..|calls| - 1], item);
      assert calls == calls[..|calls| - 1] + [calls[|calls| - 1]];
    }
  }

  lemma {:induction false} LockItemsMembers(held: seq<string>, item: Item)
    ensures item in LockItems(held) <==> item.LockHeld? && item.name in held
  {
    if held != [] {
      LockItemsMembers(held[1..], item);
      assert held == [held[0]] + held[1..];
    }
  }

  ghost predicate ListedInFlight(ms: seq<Json>, id: string) {
    exists call: NativeToolCall :: call.id == id && InFlight(call) in Unresolved(ms)
  }

  ghost predicate OpenCall(ms: seq<Json>, id: string) {
    exists i: nat :: LastCall(BlocksOf(ms), id, i) && Unanswered(BlocksOf(ms), id, i)
  }

  lemma UnresolvedInFlight(ms: seq<Json>, call: NativeToolCall)
    ensures InFlight(call) in Unresolved(ms) <==> call in AllCalls(ms) && call.status == Pending
  {
    PendingsMembers(AllCalls(ms), InFlight(call));
    MonitorsMembers(AllCalls(ms), InFlight(call));
    LockItemsMembers(Held(AllCalls(ms)), InFlight(call));
  }

  /** The record of an id is among all calls, and is the only one with that id. */
  lemma RecordIsListed(ms: seq<Json>, id: string, call: NativeToolCall)
    ensures var byId := ScanBlocks(BlocksOf(ms)).byId;
            call in AllCalls(ms) && call.id == id <==> id in byId && call == byId[id]
  {
    var s := ScanBlocks(BlocksOf(ms));
    ScanValid(BlocksOf(ms));
    if call in AllCalls(ms) && call.id == id {
      var k :| 0 <= k < |AllCalls(ms)| && AllCalls(ms)[k] == call;
      assert s.order[k] in s.byId;
    }
    if id in s.byId && call == s.byId[id] {
      var k :| 0 <= k < |s.order| && s.order[k] == id;
      assert AllCalls(ms)[k] == call;
    }
  }

  /**
   * A call is on the frontier exactly when the history holds no result after
   * it, however deep it sits and whatever the paging cap.
   */
  lemma InFlightComplete(ms: seq<Json>, id: string)
    ensures ListedInFlight(ms, id) <==> OpenCall(ms, id)
  {
    var byId := ScanBlocks(BlocksOf(ms)).byId;
    ScanRecords(BlocksOf(ms), id);
    ScanReflects(BlocksOf(ms), id);
    if OpenCall(ms, id) {
      assert Called(BlocksOf(ms), id);
      RecordIsListed(ms, id, byId[id]);
      UnresolvedInFlight(ms, byId[id]);
    }
    if ListedInFlight(ms, id) {
      var call: NativeToolCall :| call.id == id && InFlight(call) in Unresolved(ms);
      UnresolvedInFlight(ms, call);
      RecordIsListed(ms, id, call);
    }
  }

  // ----- locks --------------------------------------------------------------

  lemma {:induction false} WithoutMembers(held: seq<string>, name: string, x: string)
    ensures x in Without(held, name) <==> x in held && x != name
  {
    if held != [] {
      WithoutMembers(held[1..], name, x);
      assert held == [held[0]] + held[1..];
    }
  }

  /** The last call that acts on `lock` takes it. */
  ghost predicate LastTakes(calls: seq<NativeToolCall>, lock: string) {
    exists i :: 0 <= i < |calls| && ActOf(calls[i]) == Some((lock, true)) && NoActAfter(calls, i, lock)
  }

  ghost predicate NoActAfter(calls: seq<NativeToolCall>, i: int, lock: string) {
    forall j :: 0 <= j < |calls| && i < j ==> ActOf(calls[j]).None? || ActOf(calls[j]).value.0 != lock
  }

  lemma {:induction false} HeldIsLastTake(calls: seq<NativeToolCall>, lock: string)
    ensures lock in Held(calls) <==> LastTakes(calls, lock)
  {
    if calls != [] {
      var before, c := calls[..|calls| - 1], calls[|calls| - 1];
      HeldIsLastTake(before, lock);
      assert forall j :: 0 <= j < |before| ==> before[j] == calls[j];
      if ActOf(c).Some? {
        WithoutMembers(Held(before), ActOf(c).value.0, lock);
      }
      if ActOf(c) == Some((lock, true)) {
        assert NoActAfter(calls, |calls| - 1, lock);
      } else if ActOf(c).None? || ActOf(c).value.0 != lock {
        assert forall i :: 0 <= i < |before| ==> (NoActAfter(calls, i, lock) <==> NoActAfter(before, i, lock)) by {
          forall i | 0 <= i < |before| ensures NoActAfter(calls, i, lock) <==> NoActAfter(before, i, lock) {
            NoActStep(before, c, calls, i, lock);
          }
        }
      }
    }
  }

  lemma NoActStep(before: seq<NativeToolCall>, c: NativeToolCall, calls: seq<NativeToolCall>, i: int, lock: string)
    requires calls == before + [c] && 0 <= i < |before|
    requires ActOf(c).None? || ActOf(c).value.0 != lock
    ensures NoActAfter(calls, i, lock) <==> NoActAfter(before, i, lock)
  {
    if NoActAfter(calls, i, lock) {
      forall j | 0 <= j < |before| && i < j ensures ActOf(before[j]).None? || ActOf(before[j]).value.0 != lock {
        assert before[j] == calls[j];
      }
    }
  }

  /** No two calls of the history share an id. */
  ghost predicate DistinctCalls(blocks: seq<Json>) {
    forall i, j, id :: 0 <= i < j < |blocks| && IsCall(blocks[i], id) ==> !IsCall(blocks[j], id)
  }

  /** The input of the block has this text under this key. */
  predicate InputSays(b: Json, key: string, text: string) {
    Get(b, "input").Some? && Get(Get(b, "input").value, key) == Some(Str(text))
  }

  /** The block asks the lock tool to create, or to release or break, the lock. */
  predicate AsksLock(b: Json, lock: string, takes: bool) {
    && (Get(b, "name") == Some(Str("lock")) || Get(b, "name") == Some(Str("mcp__ostk__lock")))
    && lock != "" && InputSays(b, "name", lock)
    && (if takes then InputSays(b, "action", "create")
        else InputSays(b, "action", "release") || InputSays(b, "action", "break"))
  }

  /** Block `i` is a call that took or gave up `lock`, and its last result says it succeeded. */
  ghost predicate ActsAt(blocks: seq<Json>, i: nat, lock: string, takes: bool)
    requires i < |blocks|
  {
    && IsCall(blocks[i], IdOr(UseId(blocks[i])))
    && AsksLock(blocks[i], lock, takes)
    && Succeeded(blocks, IdOr(UseId(blocks[i])), i)
  }

  /** The record's act is what the call asks for. */
  lemma ActIsAsked(b: Json, call: NativeToolCall, lock: string, takes: bool)
    requires TellsCall(b, call)
    ensures LockAct(call.name, call.input) == Some((lock, takes)) <==> AsksLock(b, lock, takes)
  {
  }

  lemma OneCall(blocks: seq<Json>, id: string, i: nat, j: nat)
    requires DistinctCalls(blocks) && i < |blocks| && j < |blocks|
    requires IsCall(blocks[i], id) && IsCall(blocks[j], id)
    ensures i == j
  {
  }

  /** What was recorded before the last block keeps its place. */
  lemma OrderSnoc(blocks: seq<Json>, b: nat)
    requires blocks != [] && b < |ScanBlocks(blocks).order|
    requires Called(blocks[..|blocks| - 1], ScanBlocks(blocks).order[b])
    ensures var before := ScanBlocks(blocks[..|blocks| - 1]).order;
      b < |before| && forall a :: 0 <= a <= b ==> before[a] == ScanBlocks(blocks).order[a]
  {
    var before := blocks[..|blocks| - 1];
    ScanValid(before);
    ScanValid(blocks);
    ScanRecords(before, ScanBlocks(blocks).order[b]);
  }

  /** With distinct ids, records are in the order of their calls. */
  lemma {:induction false} ScanOrder(blocks: seq<Json>, a: nat, b: nat, i: nat, j: nat)
    requires DistinctCalls(blocks)
    requires a < b < |ScanBlocks(blocks).order| && i < |blocks| && j < |blocks|
    requires IsCall(blocks[i], ScanBlocks(blocks).order[a]) && IsCall(blocks[j], ScanBlocks(blocks).order[b])
    ensures i < j
  {
    var before, order := blocks[..|blocks| - 1], ScanBlocks(blocks).order;
    ScanValid(blocks);
    assert order[a] != order[b];
    if j < |blocks| - 1 {
      assert before[j] == blocks[j] && Called(before, order[b]);
      OrderSnoc(blocks, b);
      CalledAt(before, a);
      var i' :| 0 <= i' < |before| && IsCall(before[i'], order[a]);
      OneCall(blocks, order[a], i, i');
      ScanOrder(before, a, b, i, j);
    }
  }

  lemma CalledAt(blocks: seq<Json>, a: nat)
    requires a < |ScanBlocks(blocks).order|
    ensures Called(blocks, ScanBlocks(blocks).order[a])
  {
    ScanValid(blocks);
    ScanRecords(blocks, ScanBlocks(blocks).order[a]);
  }

  /** Without a later result there is an answer to look at, or none at all. */
  lemma {:induction false} AnswerOrNot(blocks: seq<Json>, id: string, i: nat, n: nat) returns (k: Option<nat>)
    requires i < n <= |blocks|
    requires forall j :: n <= j < |blocks| ==> !IsAnswer(blocks[j], id)
    ensures k.None? ==> Unanswered(blocks, id, i)
    ensures k.Some? ==> LastAnswer(blocks, id, i, k.value)
    decreases n
  {
    if n == i + 1 {
      k := None;
    } else if IsAnswer(blocks[n - 1], id) {
      k := Some(n - 1);
    } else {
      k := AnswerOrNot(blocks, id, i, n - 1);
    }
  }

  /** Some result of the call at `i` is its last one and is no error. */
  ghost predicate Succeeded(blocks: seq<Json>, id: string, i: nat) {
    exists k: nat :: LastAnswer(blocks, id, i, k) && !Failed(blocks[k])
  }

  lemma LastCallUnique(blocks: seq<Json>, id: string, i: nat, p: nat)
    requires LastCall(blocks, id, i) && LastCall(blocks, id, p)
    ensures i == p
  {
  }

  lemma ReflectsStatus(blocks: seq<Json>, id: string, i: nat, call: NativeToolCall)
    requires LastCall(blocks, id, i) && Reflects(blocks, id, call)
    ensures TellsCall(blocks[i], call)
    ensures call.status == Ok <==> Succeeded(blocks, id, i)
  {
    var p: nat :| ReflectsAt(blocks, id, p, call);
    LastCallUnique(blocks, id, i, p);
    var k := AnswerOrNot(blocks, id, i, |blocks|);
    if k.None? {
      assert forall j: nat :: !LastAnswer(blocks, id, i, j);
    }
  }

  /** The record of a distinct call acts on a lock exactly when the call itself does. */
  lemma RecordActs(blocks: seq<Json>, i: nat, id: string, lock: string, takes: bool)
    requires DistinctCalls(blocks) && i < |blocks| && IsCall(blocks[i], id)
    ensures id in ScanBlocks(blocks).byId
    ensures ActOf(ScanBlocks(blocks).byId[id]) == Some((lock, takes)) <==> ActsAt(blocks, i, lock, takes)
  {
    ScanRecords(blocks, id);
    ScanReflects(blocks, id);
    assert LastCall(blocks, id, i);
    ReflectsStatus(blocks, id, i, ScanBlocks(blocks).byId[id]);
    ActIsAsked(blocks[i], ScanBlocks(blocks).byId[id], lock, takes);
  }

  /** The last successful create, release or break of `lock` in the history is a create. */
  ghost predicate LastTakesAt(blocks: seq<Json>, lock: string) {
    exists i: nat ::
      && i < |blocks| && ActsAt(blocks, i, lock, true)
      && forall j: nat, takes :: i < j < |blocks| ==> !ActsAt(blocks, j, lock, takes)
  }

  lemma PositionOf(blocks: seq<Json>, a: nat) returns (i: nat)
    requires a < |ScanBlocks(blocks).order|
    ensures i < |blocks| && IsCall(blocks[i], ScanBlocks(blocks).order[a])
  {
    ScanValid(blocks);
    ScanRecords(blocks, ScanBlocks(blocks).order[a]);
    i :| 0 <= i < |blocks| && IsCall(blocks[i], ScanBlocks(blocks).order[a]);
  }

  lemma RankOf(blocks: seq<Json>, i: nat) returns (a: nat)
    requires i < |blocks| && IsCall(blocks[i], IdOr(UseId(blocks[i])))
    ensures a < |ScanBlocks(blocks).order| && ScanBlocks(blocks).order[a] == IdOr(UseId(blocks[i]))
  {
    ScanValid(blocks);
    ScanRecords(blocks, IdOr(UseId(blocks[i])));
    a :| 0 <= a < |ScanBlocks(blocks).order| && ScanBlocks(blocks).order[a] == IdOr(UseId(blocks[i]));
  }

  /** Acts that come later in the history come later among the records. */
  lemma LaterAct(blocks: seq<Json>, calls: seq<NativeToolCall>, a: nat, i: nat, j: nat, lock: string, takes: bool)
    returns (b: nat)
    requires Valid(ScanBlocks(blocks)) && calls == CallsOf(ScanBlocks(blocks))
    requires DistinctCalls(blocks) && i < j < |blocks| && ActsAt(blocks, j, lock, takes)
    requires a < |ScanBlocks(blocks).order| && IsCall(blocks[i], ScanBlocks(blocks).order[a])
    ensures a < b < |calls| && ActOf(calls[b]) == Some((lock, takes))
  {
    b := RankOf(blocks, j);
    RecordActs(blocks, j, ScanBlocks(blocks).order[b], lock, takes);
    if b < a {
      ScanOrder(blocks, b, a, j, i);
    }
  }

  lemma LastTakeForward(blocks: seq<Json>, calls: seq<NativeToolCall>, lock: string)
    requires DistinctCalls(blocks) && Valid(ScanBlocks(blocks)) && calls == CallsOf(ScanBlocks(blocks))
    requires LastTakes(calls, lock)
    ensures LastTakesAt(blocks, lock)
  {
    var a :| 0 <= a < |calls| && ActOf(calls[a]) == Some((lock, true)) && NoActAfter(calls, a, lock);
    var i := PositionOf(blocks, a);
    RecordActs(blocks, i, ScanBlocks(blocks).order[a], lock, true);
    forall j: nat, takes | i < j < |blocks| ensures !ActsAt(blocks, j, lock, takes) {
      if ActsAt(blocks, j, lock, takes) {
        var b := LaterAct(blocks, calls, a, i, j, lock, takes);
      }
    }
  }

  lemma LastTakeBackward(blocks: seq<Json>, calls: seq<NativeToolCall>, lock: string)
    requires DistinctCalls(blocks) && Valid(ScanBlocks(blocks)) && calls == CallsOf(ScanBlocks(blocks))
    requires LastTakesAt(blocks, lock)
    ensures LastTakes(calls, lock)
  {
    var s := ScanBlocks(blocks);
    var i: nat :|
      && i < |blocks| && ActsAt(blocks, i, lock, true)
      && forall j: nat, takes :: i < j < |blocks| ==> !ActsAt(blocks, j, lock, takes);
    var a := RankOf(blocks, i);
    RecordActs(blocks, i, s.order[a], lock, true);
    forall b | 0 <= b < |calls| && a < b ensures ActOf(calls[b]).None? || ActOf(calls[b]).value.0 != lock {
      var j := PositionOf(blocks, b);
      ScanOrder(blocks, a, b, i, j);
      RecordActs(blocks, j, s.order[b], lock, true);
      RecordActs(blocks, j, s.order[b], lock, false);
    }
    assert ActOf(calls[a]) == Some((lock, true)) && NoActAfter(calls, a, lock);
  }

  /** A lock is on the frontier exactly when the last successful act on its name took it. */
  lemma LockListed(ms: seq<Json>, lock: string)
    requires DistinctCalls(BlocksOf(ms))
    ensures LockHeld(lock) in Unresolved(ms) <==> LastTakesAt(BlocksOf(ms), lock)
  {
    var calls := AllCalls(ms);
    ScanValid(BlocksOf(ms));
    PendingsMembers(calls, LockHeld(lock));
    MonitorsMembers(calls, LockHeld(lock));
    LockItemsMembers(Held(calls), LockHeld(lock));
    HeldIsLastTake(calls, lock);
    if LastTakes(calls, lock) {
      LastTakeForward(BlocksOf(ms), calls, lock);
    }
    if LastTakesAt(BlocksOf(ms), lock) {
      LastTakeBackward(BlocksOf(ms), calls, lock);
    }
  }

  // ----- monitors -----------------------------------------------------------

  /** The description in the input of a call, or a question mark. */
  predicate Describes(b: Json, description: string) {
    match Get(b, "input")
    case Some(input) =>
      (match Get(input, "description") case Some(Str(text)) => description == text case _ => description == "?")
    case None => description == "?"
  }

  /** The last call with the id is a Monitor with this description, and its last result is no error. */
  ghost predicate ArmedAt(blocks: seq<Json>, id: string, i: nat, description: string) {
    && LastCall(blocks, id, i) && Succeeded(blocks, id, i)
    && Get(blocks[i], "name") == Some(Str("Monitor")) && Describes(blocks[i], description)
  }

  lemma MonitorTextIs(b: Json, call: NativeToolCall, description: string)
    requires TellsCall(b, call)
    ensures MonitorText(call) == description <==> Describes(b, description)
  {
  }

  lemma RecordArmed(blocks: seq<Json>, id: string, i: nat, description: string)
    requires LastCall(blocks, id, i)
    ensures id in ScanBlocks(blocks).byId
    ensures var call := ScanBlocks(blocks).byId[id];
      Armed(call) && MonitorText(call) == description <==> ArmedAt(blocks, id, i, description)
  {
    ScanRecords(blocks, id);
    ScanReflects(blocks, id);
    ReflectsStatus(blocks, id, i, ScanBlocks(blocks).byId[id]);
    MonitorTextIs(blocks[i], ScanBlocks(blocks).byId[id], description);
  }

  lemma RecordHasCall(blocks: seq<Json>, id: string) returns (i: nat)
    requires id in ScanBlocks(blocks).byId
    ensures LastCall(blocks, id, i)
  {
    ScanReflects(blocks, id);
    i :| ReflectsAt(blocks, id, i, ScanBlocks(blocks).byId[id]);
  }

  lemma UnresolvedMonitor(ms: seq<Json>, description: string)
    ensures ArmedMonitor(description) in Unresolved(ms)
      <==> exists c :: c in AllCalls(ms) && Armed(c) && MonitorText(c) == description
  {
    PendingsMembers(AllCalls(ms), ArmedMonitor(description));
    MonitorsMembers(AllCalls(ms), ArmedMonitor(description));
    LockItemsMembers(Held(AllCalls(ms)), ArmedMonitor(description));
  }

  /** A monitor is on the frontier exactly when some Monitor call with that description last succeeded. */
  lemma MonitorListed(ms: seq<Json>, description: string)
    ensures ArmedMonitor(description) in Unresolved(ms)
      <==> exists id: string, i: nat :: ArmedAt(BlocksOf(ms), id, i, description)
  {
    var blocks := BlocksOf(ms);
    UnresolvedMonitor(ms, description);
    if ArmedMonitor(description) in Unresolved(ms) {
      var c :| c in AllCalls(ms) && Armed(c) && MonitorText(c) == description;
      RecordIsListed(ms, c.id, c);
      var i := RecordHasCall(blocks, c.id);
      RecordArmed(blocks, c.id, i, description);
    }
    if id: string, i: nat :| ArmedAt(blocks, id, i, description) {
      RecordArmed(blocks, id, i, description);
      RecordIsListed(ms, id, ScanBlocks(blocks).byId[id]);
    }
  }

  // ----- the passes ---------------------------------------------------------

  lemma {:induction false} BlocksOfSnoc(ms: seq<Json>, m: Json)
    ensures BlocksOf([]) == []
    ensures match Get(m, "content")
            case Some(Arr(items)) => BlocksOf(ms + [m]) == BlocksOf(ms) + items
            case _ => BlocksOf(ms + [m]) == BlocksOf(ms)
  {
    if ms == [] {
      assert [m][1..] == [];
    } else {
      assert (ms + [m])[1..] == ms[1..] + [m];
      BlocksOfSnoc(ms[1..], m);
      var first := if Blocks(ms[0]).Some? then Blocks(ms[0]).value else [];
      var last := if Blocks(m).Some? then Blocks(m).value else [];
      assert first + (BlocksOf(ms[1..]) + last) == first + BlocksOf(ms[1..]) + last;
    }
  }

  lemma ScanSnoc(blocks: seq<Json>, b: Json)
    ensures ScanBlocks(blocks + [b]) == Step(ScanBlocks(blocks), b)
  {
    assert (blocks + [b])[..|blocks|] == blocks;
  }

  lemma BlocksOfTake(ms: seq<Json>, i: nat)
    requires i < |ms|
    ensures Blocks(ms[i]).Some? ==> BlocksOf(ms[..i + 1]) == BlocksOf(ms[..i]) + Blocks(ms[i]).value
    ensures Blocks(ms[i]).None? ==> BlocksOf(ms[..i + 1]) == BlocksOf(ms[..i])
  {
    BlocksOfSnoc(ms[..i], ms[i]);
    assert ms[..i + 1] == ms[..i] + [ms[i]];
  }

  method SummarizeNativeTools(messages: seq<Json>, cap: nat) returns (calls: seq<NativeToolCall>)
    ensures calls == Summary(messages, cap)
  {
    var order: seq<string> := [];
    var byId: map<string, NativeToolCall> := map[];
    ScanValid(BlocksOf(messages));
    for i := 0 to |messages|
      invariant Scan(order, byId) == ScanBlocks(BlocksOf(messages[..i]))
    {
      BlocksOfTake(messages, i);
      if Blocks(messages[i]).Some? {
        order, byId := ScanContent(order, byId, BlocksOf(messages[..i]), Blocks(messages[i]).value);
      }
    }
    assert messages[..|messages|] == messages;
    calls := Collect(order, byId, cap);
  }

  /** The last `cap` ids, each with its record. */
  method Collect(order: seq<string>, byId: map<string, NativeToolCall>, cap: nat) returns (calls: seq<NativeToolCall>)
    requires Valid(Scan(order, byId))
    ensures calls == Tail(CallsOf(Scan(order, byId)), cap)
  {
    var last := if |order| > cap then order[|order| - cap..] else order;
    assert last == Tail(order, cap);
    forall i | 0 <= i < |last| ensures last[i] in byId {
      TailIsRecorded(order, byId, cap, i);
    }
    calls := Records(last, byId);
    CallsOfTail(Scan(order, byId), cap, calls);
  }

  method Records(ids: seq<string>, byId: map<string, NativeToolCall>) returns (calls: seq<NativeToolCall>)
    requires forall i :: 0 <= i < |ids| ==> ids[i] in byId
    ensures AreRecords(ids, byId, calls)
  {
    calls := [];
    for i := 0 to |ids|
      invariant AreRecords(ids[..i], byId, calls)
    {
      RecordsStep(ids, byId, calls, i);
      calls := calls + [byId[ids[i]]];
    }
    assert ids[..|ids|] == ids;
  }

  predicate AreRecords(ids: seq<string>, byId: map<string, NativeToolCall>, calls: seq<NativeToolCall>) {
    |calls| == |ids| && forall k :: 0 <= k < |ids| ==> ids[k] in byId && calls[k] == byId[ids[k]]
  }

  lemma RecordsStep(ids: seq<string>, byId: map<string, NativeToolCall>, calls: seq<NativeToolCall>, i: nat)
    requires i < |ids| && AreRecords(ids[..i], byId, calls) && ids[i] in byId
    ensures AreRecords(ids[..i + 1], byId, calls + [byId[ids[i]]])
  {
    assert ids[..i + 1] == ids[..i] + [ids[i]];
  }

  lemma TailIsRecorded(order: seq<string>, byId: map<string, NativeToolCall>, cap: nat, i: nat)
    requires Valid(Scan(order, byId)) && i < |Tail(order, cap)|
    ensures Tail(order, cap)[i] in byId
  {
    assert Tail(order, cap)[i] in order;
  }

  lemma CallsOfTail(s: Scan, cap: nat, calls: seq<NativeToolCall>)
    requires Valid(s) && AreRecords(Tail(s.order, cap), s.byId, calls)
    ensures calls == Tail(CallsOf(s), cap)
  {
    MappedTail(s.order, CallsOf(s), s.byId, cap, calls);
  }

  lemma MappedTail(order: seq<string>, full: seq<NativeToolCall>, byId: map<string, NativeToolCall>,
      cap: nat, calls: seq<NativeToolCall>)
    requires |full| == |order| && forall i :: 0 <= i < |order| ==> order[i] in byId && full[i] == byId[order[i]]
    requires |calls| == |Tail(order, cap)| && forall k :: 0 <= k < |calls| ==> calls[k] == byId[Tail(order, cap)[k]]
    ensures calls == Tail(full, cap)
  {
    var d := |order| - |calls|;
    forall k | 0 <= k < |calls| ensures calls[k] == Tail(full, cap)[k] {
      assert Tail(order, cap)[k] == order[d + k] && Tail(full, cap)[k] == full[d + k];
    }
  }

  /** The inner loop over one content array, on the order list and the map it updates. */
  method ScanContent(order0: seq<string>, byId0: map<string, NativeToolCall>, ghost before: seq<Json>,
      content: seq<Json>)
    returns (order: seq<string>, byId: map<string, NativeToolCall>)
    requires Scan(order0, byId0) == ScanBlocks(before)
    ensures Scan(order, byId) == ScanBlocks(before + content)
  {
    order, byId := order0, byId0;
    assert before + content[..0] == before;
    for k := 0 to |content|
      invariant Scan(order, byId) == ScanBlocks(before + content[..k])
    {
      var block := content[k];
      ScanSnoc(before + content[..k], block);
      assert before + content[..k + 1] == before + content[..k] + [block];
      if IsToolUse(block) {
        var id := IdOr(UseId(block));
        if id != "" {
          if id !in byId {
            order := order + [id];
          }
          byId := byId[id := NewCall(block)];
        }
      } else if IsToolResult(block) {
        var id := IdOr(ResultId(block));
        if id != "" && id in byId {
          byId := byId[id := Answered(byId[id], block)];
        }
      }
    }
    assert content[..|content|] == content;
  }

  method InFlightItems(all: seq<NativeToolCall>) returns (items: seq<Item>)
    ensures items == Pendings(all)
  {
    items := [];
    for i := 0 to |all|
      invariant items == Pendings(all[..i])
    {
      assert all[..i + 1][..i] == all[..i];
      if all[i].status == Pending {
        items := items + [InFlight(all[i])];
      }
    }
    assert all[..|all|] == all;
  }

  method MonitorItems(all: seq<NativeToolCall>) returns (items: seq<Item>)
    ensures items == Monitors(all)
  {
    items := [];
    for i := 0 to |all|
      invariant items == Monitors(all[..i])
    {
      assert all[..i + 1][..i] == all[..i];
      if all[i].status == Ok && all[i].name == "Monitor" {
        items := items + [ArmedMonitor(MonitorText(all[i]))];
      }
    }
    assert all[..|all|] == all;
  }

  method HeldLocks(all: seq<NativeToolCall>) returns (held: seq<string>)
    ensures held == Held(all)
  {
    held := [];
    for i := 0 to |all|
      invariant held == Held(all[..i])
    {
      assert all[..i + 1][..i] == all[..i];
      var act := ActOf(all[i]);
      if act.Some? {
        var (name, takes) := act.value;
        if !takes {
          held := Without(held, name);
        } else if name !in held {
          held := held + [name];
        }
      }
    }
    assert all[..|all|] == all;
  }

  method SummarizeUnresolved(messages: seq<Json>) returns (items: seq<Item>)
    ensures items == Unresolved(messages)
  {
    ScanBounded(BlocksOf(messages));
    var all := SummarizeNativeTools(messages, CountBlocks(messages));
    var inFlight := InFlightItems(all);
    var monitors := MonitorItems(all);
    var held := HeldLocks(all);
    items := inFlight + monitors + LockItems(held);
  }

  /** A cap no history of this length reaches. */
  function CountBlocks(ms: seq<Json>): (n: nat)
    ensures n == |BlocksOf(ms)|
  {
    if ms == [] then 0 else (if Blocks(ms[0]).Some? then |Blocks(ms[0]).value| else 0) + CountBlocks(ms[1..])
  }
}
