/**
 * Removal of orphaned tool_result blocks: what is left pairs up, nothing else
 * is lost, and the pass never looks ahead.
 */
module Repair {
  import opened Wrappers
  import opened Json
  import opened Messages

  // ----- specification ------------------------------------------------------

  function KeptBlocks(blocks: seq<Json>, valid: set<string>): seq<Json> {
    if blocks == [] then []
    else (if Answers(blocks[0], valid) then [blocks[0]] else []) + KeptBlocks(blocks[1..], valid)
  }

  function OrphanBlocks(blocks: seq<Json>, valid: set<string>): seq<Json> {
    if blocks == [] then []
    else (if Answers(blocks[0], valid) then [] else [blocks[0]]) + OrphanBlocks(blocks[1..], valid)
  }

  predicate Repairable(m: Json) {
    IsUser(m) && Blocks(m).Some?
  }

  function Stripped(m: Json, valid: set<string>): Json {
    if Repairable(m) then WithBlocks(m, KeptBlocks(Blocks(m).value, valid)) else m
  }

  /** Only a user message whose content array is empty is dropped. */
  predicate Survives(m: Json) {
    Repairable(m) ==> Blocks(m).value != []
  }

  function RepairedFrom(valid: set<string>, ms: seq<Json>): seq<Json>
    decreases ms
  {
    if ms == [] then []
    else
      var m := Stripped(ms[0], valid);
      (if Survives(m) then [m] else []) + RepairedFrom(ToolUseIds(ms[0]), ms[1..])
  }

  function Repaired(ms: seq<Json>): seq<Json> {
    RepairedFrom({}, ms)
  }

  function OrphansOf(m: Json, valid: set<string>): seq<Json> {
    if Repairable(m) then OrphanBlocks(Blocks(m).value, valid) else []
  }

  /** The blocks the pass removes, in order. */
  function OrphansFrom(valid: set<string>, ms: seq<Json>): seq<Json>
    decreases ms
  {
    if ms == [] then []
    else OrphansOf(ms[0], valid) + OrphansFrom(ToolUseIds(ms[0]), ms[1..])
  }

  function Orphans(ms: seq<Json>): seq<Json> {
    OrphansFrom({}, ms)
  }

  // ----- one message --------------------------------------------------------

  lemma {:induction false} KeptBlocksMembers(blocks: seq<Json>, valid: set<string>)
    ensures forall b :: b in KeptBlocks(blocks, valid) <==> b in blocks && Answers(b, valid)
    ensures forall b :: b in OrphanBlocks(blocks, valid) <==> b in blocks && !Answers(b, valid)
  {
    if blocks != [] {
      KeptBlocksMembers(blocks[1..], valid);
      assert blocks == [blocks[0]] + blocks[1..];
    }
  }

  lemma {:induction false} KeptBlocksPartition(blocks: seq<Json>, valid: set<string>)
    ensures multiset(blocks) == multiset(KeptBlocks(blocks, valid)) + multiset(OrphanBlocks(blocks, valid))
  {
    if blocks != [] {
      KeptBlocksPartition(blocks[1..], valid);
      assert blocks == [blocks[0]] + blocks[1..];
    }
  }

  lemma {:induction false} KeptBlocksAll(blocks: seq<Json>, valid: set<string>)
    requires forall b :: b in blocks ==> Answers(b, valid)
    ensures KeptBlocks(blocks, valid) == blocks && OrphanBlocks(blocks, valid) == []
  {
    if blocks != [] {
      KeptBlocksAll(blocks[1..], valid);
    }
  }

  /** Stripping keeps the role and every tool call, and what it keeps answers `valid`. */
  lemma StrippedFacts(m: Json, valid: set<string>)
    ensures Role(Stripped(m, valid)) == Role(m)
    ensures Repairable(m) ==> Blocks(Stripped(m, valid)) == Some(KeptBlocks(Blocks(m).value, valid))
    ensures ToolUseIds(Stripped(m, valid)) == ToolUseIds(m)
    ensures MessageAnswers(Stripped(m, valid), valid)
  {
    if Repairable(m) {
      var kept := KeptBlocks(Blocks(m).value, valid);
      WithBlocksFrame(m, kept);
      KeptBlocksMembers(Blocks(m).value, valid);
      assert forall b :: b in Blocks(m).value && IsToolUse(b) <==> b in kept && IsToolUse(b);
    }
  }

  /** A dropped message made no tool calls, so the message after it had no valid result. */
  lemma DroppedMadeNoCalls(m: Json, valid: set<string>)
    requires !Survives(Stripped(m, valid))
    ensures ToolUseIds(m) == {}
  {
    StrippedFacts(m, valid);
  }

  // ----- main results -------------------------------------------------------

  lemma PairedCons(valid: set<string>, m: Json, rest: seq<Json>)
    requires MessageAnswers(m, valid) && PairedAfter(ToolUseIds(m), rest)
    ensures PairedAfter(valid, [m] + rest)
  {
    var out := [m] + rest;
    forall i | 0 <= i < |out| ensures MessageAnswers(out[i], IdsBefore(valid, out, i)) {
      if i > 0 {
        assert MessageAnswers(rest[i - 1], IdsBefore(ToolUseIds(m), rest, i - 1));
      }
    }
  }

  lemma PairedWeaken(valid: set<string>, ms: seq<Json>)
    requires PairedAfter({}, ms)
    ensures PairedAfter(valid, ms)
  {
    forall i | 0 <= i < |ms| ensures MessageAnswers(ms[i], IdsBefore(valid, ms, i)) {
      assert MessageAnswers(ms[i], IdsBefore({}, ms, i));
    }
  }

  lemma {:induction false} RepairedFromPairs(valid: set<string>, ms: seq<Json>)
    ensures PairedAfter(valid, RepairedFrom(valid, ms))
    decreases ms
  {
    if ms != [] {
      var ids := ToolUseIds(ms[0]);
      var rest := RepairedFrom(ids, ms[1..]);
      RepairedFromPairs(ids, ms[1..]);
      StrippedFacts(ms[0], valid);
      if Survives(Stripped(ms[0], valid)) {
        PairedCons(valid, Stripped(ms[0], valid), rest);
      } else {
        DroppedMadeNoCalls(ms[0], valid);
        PairedWeaken(valid, rest);
        assert RepairedFrom(valid, ms) == rest;
      }
    }
  }

  /** After the pass every tool_result in a user message is paired, although dropping messages moved neighbours. */
  lemma RepairPairs(ms: seq<Json>)
    ensures ResultsPaired(Repaired(ms))
    ensures forall m :: m in Repaired(ms) ==> Survives(m)
  {
    RepairedFromPairs({}, ms);
    RepairedFromSurvives({}, ms);
  }

  lemma {:induction false} RepairedFromSurvives(valid: set<string>, ms: seq<Json>)
    ensures forall m :: m in RepairedFrom(valid, ms) ==> Survives(m)
    decreases ms
  {
    if ms != [] {
      RepairedFromSurvives(ToolUseIds(ms[0]), ms[1..]);
    }
  }

  lemma {:induction false} RepairedFromFixes(valid: set<string>, ms: seq<Json>)
    requires PairedAfter(valid, ms)
    requires forall m :: m in ms ==> Survives(m)
    ensures RepairedFrom(valid, ms) == ms && OrphansFrom(valid, ms) == []
    decreases ms
  {
    if ms != [] {
      var m := ms[0];
      assert MessageAnswers(m, IdsBefore(valid, ms, 0));
      if Repairable(m) {
        KeptBlocksAll(Blocks(m).value, valid);
        WithSameBlocks(m);
      }
      forall i | 0 <= i < |ms[1..]|
        ensures MessageAnswers(ms[1..][i], IdsBefore(ToolUseIds(m), ms[1..], i))
      {
        assert MessageAnswers(ms[i + 1], IdsBefore(valid, ms, i + 1));
      }
      RepairedFromFixes(ToolUseIds(m), ms[1..]);
    }
  }

  /** The pass is the identity exactly on the lists it could have produced. */
  lemma RepairFixpoint(ms: seq<Json>)
    ensures Repaired(ms) == ms <==> ResultsPaired(ms) && forall m :: m in ms ==> Survives(m)
    ensures Repaired(ms) == ms ==> Orphans(ms) == []
  {
    RepairPairs(ms);
    if ResultsPaired(ms) && forall m :: m in ms ==> Survives(m) {
      RepairedFromFixes({}, ms);
    }
  }

  /** A second pass changes nothing and reports nothing. */
  lemma RepairIdempotent(ms: seq<Json>)
    ensures Repaired(Repaired(ms)) == Repaired(ms) && Orphans(Repaired(ms)) == []
  {
    RepairPairs(ms);
    RepairFixpoint(Repaired(ms));
  }

  function LastIds(valid: set<string>, ms: seq<Json>): set<string> {
    if ms == [] then valid else ToolUseIds(ms[|ms| - 1])
  }

  lemma {:induction false} RepairedFromConcat(valid: set<string>, xs: seq<Json>, ys: seq<Json>)
    ensures RepairedFrom(valid, xs + ys) == RepairedFrom(valid, xs) + RepairedFrom(LastIds(valid, xs), ys)
    decreases xs
  {
    if xs == [] {
      assert xs + ys == ys;
    } else {
      assert (xs + ys)[1..] == xs[1..] + ys;
      RepairedFromConcat(ToolUseIds(xs[0]), xs[1..], ys);
      var first := if Survives(Stripped(xs[0], valid)) then [Stripped(xs[0], valid)] else [];
      var rest, last := RepairedFrom(ToolUseIds(xs[0]), xs[1..]), RepairedFrom(LastIds(valid, xs), ys);
      assert first + (rest + last) == first + rest + last;
    }
  }

  /** The repair of a longer history begins with the repair of the shorter one. */
  lemma RepairPrefix(xs: seq<Json>, ys: seq<Json>)
    ensures Repaired(xs) <= Repaired(xs + ys)
  {
    RepairedFromConcat({}, xs, ys);
  }

  function BlockSet(m: Json): multiset<Json> {
    if Blocks(m).Some? then multiset(Blocks(m).value) else multiset{}
  }

  function AllBlocks(ms: seq<Json>): multiset<Json> {
    if ms == [] then multiset{} else BlockSet(ms[0]) + AllBlocks(ms[1..])
  }

  lemma StrippedConserves(m: Json, valid: set<string>)
    ensures BlockSet(m) == BlockSet(Stripped(m, valid)) + multiset(OrphansOf(m, valid))
    ensures forall b :: b in OrphansOf(m, valid) ==> IsToolResult(b)
  {
    if Repairable(m) {
      StrippedFacts(m, valid);
      KeptBlocksPartition(Blocks(m).value, valid);
      KeptBlocksMembers(Blocks(m).value, valid);
    }
  }

  lemma AllBlocksCons(m: Json, rest: seq<Json>)
    ensures AllBlocks([m] + rest) == BlockSet(m) + AllBlocks(rest)
  {
    assert ([m] + rest)[1..] == rest;
  }

  lemma {:induction false} OrphansAreResults(valid: set<string>, ms: seq<Json>)
    ensures forall b :: b in OrphansFrom(valid, ms) ==> IsToolResult(b)
    decreases ms
  {
    if ms != [] {
      OrphansAreResults(ToolUseIds(ms[0]), ms[1..]);
      StrippedConserves(ms[0], valid);
    }
  }

  /** The blocks left by repairing one message and then the rest. */
  lemma RepairedFromBlocks(valid: set<string>, ms: seq<Json>)
    requires ms != []
    ensures AllBlocks(RepairedFrom(valid, ms))
         == BlockSet(Stripped(ms[0], valid)) + AllBlocks(RepairedFrom(ToolUseIds(ms[0]), ms[1..]))
  {
    var m, rest := Stripped(ms[0], valid), RepairedFrom(ToolUseIds(ms[0]), ms[1..]);
    if Survives(m) {
      AllBlocksCons(m, rest);
    } else {
      assert RepairedFrom(valid, ms) == rest && BlockSet(m) == multiset{};
    }
  }

  lemma {:induction false} RepairedFromConserves(valid: set<string>, ms: seq<Json>)
    ensures AllBlocks(ms) == AllBlocks(RepairedFrom(valid, ms)) + multiset(OrphansFrom(valid, ms))
    decreases ms
  {
    if ms != [] {
      RepairedFromConserves(ToolUseIds(ms[0]), ms[1..]);
      RepairedFromBlocks(valid, ms);
      StrippedConserves(ms[0], valid);
    }
  }

  /** Every block of the input is either still there or a reported orphan tool_result; the report is exact. */
  lemma RepairConserves(ms: seq<Json>)
    ensures AllBlocks(ms) == AllBlocks(Repaired(ms)) + multiset(Orphans(ms))
    ensures |AllBlocks(ms)| == |AllBlocks(Repaired(ms))| + |Orphans(ms)|
    ensures forall b :: b in Orphans(ms) ==> IsToolResult(b)
  {
    RepairedFromConserves({}, ms);
    OrphansAreResults({}, ms);
  }

  // ----- the pass -----------------------------------------------------------

  lemma {:induction false} KeptBlocksSnoc(blocks: seq<Json>, b: Json, valid: set<string>)
    ensures KeptBlocks(blocks + [b], valid) == KeptBlocks(blocks, valid) + if Answers(b, valid) then [b] else []
    ensures |OrphanBlocks(blocks + [b], valid)| == |OrphanBlocks(blocks, valid)| + if Answers(b, valid) then 0 else 1
  {
    if blocks == [] {
      assert KeptBlocks([b][1..], valid) == [];
    } else {
      assert (blocks + [b])[1..] == blocks[1..] + [b];
      KeptBlocksSnoc(blocks[1..], b, valid);
    }
  }

  /** `retain` on one content array. */
  method RetainAnswered(blocks: seq<Json>, valid: set<string>) returns (kept: seq<Json>)
    ensures kept == KeptBlocks(blocks, valid)
    ensures |blocks| - |kept| == |OrphanBlocks(blocks, valid)|
  {
    kept := [];
    for k := 0 to |blocks|
      invariant kept == KeptBlocks(blocks[..k], valid)
      invariant k - |kept| == |OrphanBlocks(blocks[..k], valid)|
    {
      KeptBlocksSnoc(blocks[..k], blocks[k], valid);
      assert blocks[..k + 1] == blocks[..k] + [blocks[k]];
      if !IsToolResult(blocks[k]) || (ResultId(blocks[k]).Some? && ResultId(blocks[k]).value in valid) {
        kept := kept + [blocks[k]];
      }
    }
    assert blocks[..|blocks|] == blocks;
  }

  /** The list after stripping and before the emptied messages go. */
  function StrippedFrom(valid: set<string>, ms: seq<Json>): (r: seq<Json>)
    ensures |r| == |ms|
    decreases ms
  {
    if ms == [] then [] else [Stripped(ms[0], valid)] + StrippedFrom(ToolUseIds(ms[0]), ms[1..])
  }

  function Surviving(ms: seq<Json>): seq<Json> {
    if ms == [] then [] else (if Survives(ms[0]) then [ms[0]] else []) + Surviving(ms[1..])
  }

  lemma {:induction false} StrippedFromAt(valid: set<string>, ms: seq<Json>, i: nat)
    requires i < |ms|
    ensures StrippedFrom(valid, ms)[i] == Stripped(ms[i], IdsBefore(valid, ms, i))
    decreases ms
  {
    if i > 0 {
      StrippedFromAt(ToolUseIds(ms[0]), ms[1..], i - 1);
    }
  }

  lemma {:induction false} SurvivingOfStripped(valid: set<string>, ms: seq<Json>)
    ensures Surviving(StrippedFrom(valid, ms)) == RepairedFrom(valid, ms)
    decreases ms
  {
    if ms != [] {
      assert StrippedFrom(valid, ms)[1..] == StrippedFrom(ToolUseIds(ms[0]), ms[1..]);
      SurvivingOfStripped(ToolUseIds(ms[0]), ms[1..]);
    }
  }

  lemma {:induction false} SurvivingSnoc(ms: seq<Json>, m: Json)
    ensures Surviving(ms + [m]) == Surviving(ms) + if Survives(m) then [m] else []
  {
    if ms == [] {
      assert ms + [m] == [m] && Surviving([m][1..]) == [];
    } else {
      assert (ms + [m])[1..] == ms[1..] + [m];
      SurvivingSnoc(ms[1..], m);
      var first, last := if Survives(ms[0]) then [ms[0]] else [], if Survives(m) then [m] else [];
      assert first + (Surviving(ms[1..]) + last) == first + Surviving(ms[1..]) + last;
    }
  }

  lemma {:induction false} OrphansFromSnoc(valid: set<string>, ms: seq<Json>, m: Json)
    ensures OrphansFrom(valid, ms + [m]) == OrphansFrom(valid, ms) + OrphansOf(m, LastIds(valid, ms))
    decreases ms
  {
    if ms == [] {
      assert OrphansFrom(ToolUseIds(m), [m][1..]) == [];
    } else {
      assert (ms + [m])[1..] == ms[1..] + [m];
      OrphansFromSnoc(ToolUseIds(ms[0]), ms[1..], m);
    }
  }

  /** The call ids available to each position, collected before anything is edited. */
  function ValidIds(ms: seq<Json>): (r: seq<set<string>>)
    ensures |r| == |ms|
    ensures forall i :: 0 <= i < |ms| ==> r[i] == IdsBefore({}, ms, i)
  {
    seq(|ms|, i requires 0 <= i < |ms| => IdsBefore({}, ms, i))
  }

  /** Edits the list in place and returns how many blocks it removed. */
  method RepairOrphanedToolResults(list: MessageList) returns (stripped: nat)
    modifies list
    ensures list.items == Repaired(old(list.items))
    ensures stripped == |Orphans(old(list.items))|
  {
    ghost var before := list.items;
    var validIdsFor := ValidIds(list.items);
    stripped := StripOrphans(list, validIdsFor);
    SurvivingOfStripped({}, before);
    DropEmptied(list);
  }

  method StripMessage(m: Json, valid: set<string>) returns (out: Json, stripped: nat)
    ensures out == Stripped(m, valid)
    ensures stripped == |OrphansOf(m, valid)|
  {
    if Role(m) != Some("user") || Blocks(m).None? {
      return m, 0;
    }
    var kept := RetainAnswered(Blocks(m).value, valid);
    return WithBlocks(m, kept), |Blocks(m).value| - |kept|;
  }

  method StripOrphans(list: MessageList, validIdsFor: seq<set<string>>) returns (stripped: nat)
    requires validIdsFor == ValidIds(list.items)
    modifies list
    ensures list.items == StrippedFrom({}, old(list.items))
    ensures stripped == |Orphans(old(list.items))|
  {
    ghost var before := list.items;
    stripped := 0;
    for i := 0 to |list.items|
      invariant |list.items| == |before|
      invariant forall k :: 0 <= k < i ==> list.items[k] == StrippedFrom({}, before)[k]
      invariant forall k :: i <= k < |before| ==> list.items[k] == before[k]
      invariant stripped == |OrphansFrom({}, before[..i])|
    {
      StrippedFromAt({}, before, i);
      OrphansFromSnoc({}, before[..i], before[i]);
      assert before[..i + 1] == before[..i] + [before[i]];
      var m, n := StripMessage(list.items[i], validIdsFor[i]);
      list.items := list.items[i := m];
      stripped := stripped + n;
    }
    assert before[..|before|] == before;
  }

  method DropEmptied(list: MessageList)
    modifies list
    ensures list.items == Surviving(old(list.items))
  {
    var out := [];
    for j := 0 to |list.items|
      invariant list.items == old(list.items)
      invariant out == Surviving(list.items[..j])
    {
      SurvivingSnoc(list.items[..j], list.items[j]);
      assert list.items[..j + 1] == list.items[..j] + [list.items[j]];
      var m := list.items[j];
      if Role(m) != Some("user") || Blocks(m).None? || Blocks(m).value != [] {
        out := out + [m];
      }
    }
    assert list.items[..|list.items|] == list.items;
    list.items := out;
  }
}
