/**
 * Removal of `<system-reminder>` blocks from every message but the current
 * user turn, and of the empty text blocks the removal leaves behind.
 */
module ReminderStrip {
  import opened Wrappers
  import opened Json
  import opened Messages
  import opened TokenScan

  const OPEN_TAG: string := "<system-reminder>"
  const CLOSE_TAG: string := "</system-reminder>"
  const PLACEHOLDER_TEXT: string := "(reminder)"
  const PLACEHOLDER: Json := Obj([Field("type", Str("text")), Field("text", Str(PLACEHOLDER_TEXT))])

  // ----- one string ---------------------------------------------------------

  /** First occurrence of `w` at or after `i`. */
  function FirstAt(s: string, i: nat, w: string): (r: Option<nat>)
    ensures r.Some? ==> i <= r.value && At(s, r.value, w) && forall j :: i <= j < r.value ==> !At(s, j, w)
    ensures r.None? ==> forall j :: i <= j ==> !At(s, j, w)
    decreases |s| - i
  {
    if i + |w| > |s| then None
    else if At(s, i, w) then Some(i)
    else if i == |s| then None
    else FirstAt(s, i + 1, w)
  }

  lemma FirstAtIs(s: string, i: nat, w: string, j: nat)
    requires i <= j && At(s, j, w) && forall k :: i <= k < j ==> !At(s, k, w)
    ensures FirstAt(s, i, w) == Some(j)
  {
    var r := FirstAt(s, i, w);
    assert r.Some?;
  }

  /** Length of the reminder at `i`: up to the first close tag, and one newline after it. */
  function ReminderLen(s: string, i: nat): (n: nat)
    ensures n > 0 ==> i + n <= |s|
  {
    if At(s, i, OPEN_TAG) then
      var close := FirstAt(s, i + |OPEN_TAG|, CLOSE_TAG);
      if close.None? then 0
      else
        var end := close.value + |CLOSE_TAG|;
        (if end < |s| && s[end] == '\n' then end + 1 else end) - i
    else 0
  }

  const REMINDER: Grammar := (s: string, i: nat) => ReminderLen(s, i)

  /** Open tag, a body without a close tag, close tag, and the newline exactly when there is one. */
  ghost predicate IsReminder(s: string, i: nat, n: nat) {
    exists close: nat :: ClosesAt(s, i, n, close)
  }

  ghost predicate ClosesAt(s: string, i: nat, n: nat, close: nat) {
    && At(s, i, "<system-reminder>") && i + 17 <= close && At(s, close, "</system-reminder>")
    && (forall j :: i + 17 <= j < close ==> !At(s, j, "</system-reminder>"))
    && var end := close + 18;
       n == (if end < |s| && s[end] == '\n' then end + 1 else end) - i
  }

  lemma ReminderLenIsGrammar(s: string, i: nat, n: nat)
    requires n > 0
    ensures ReminderLen(s, i) == n <==> IsReminder(s, i, n)
  {
    if IsReminder(s, i, n) {
      var close: nat :| ClosesAt(s, i, n, close);
      FirstAtIs(s, i + |OPEN_TAG|, CLOSE_TAG, close);
    }
    if ReminderLen(s, i) == n {
      ReminderCloses(s, i, n);
    }
  }

  lemma ReminderCloses(s: string, i: nat, n: nat)
    requires n > 0 && ReminderLen(s, i) == n
    ensures IsReminder(s, i, n)
  {
    assert ClosesAt(s, i, n, FirstAt(s, i + |OPEN_TAG|, CLOSE_TAG).value);
  }

  /** `find` from a position. */
  method Find(s: string, from: nat, w: string) returns (r: Option<nat>)
    requires from <= |s| && w != ""
    ensures r == FirstAt(s, from, w)
  {
    var i := from;
    while i + |w| <= |s|
      invariant from <= i <= |s|
      invariant FirstAt(s, from, w) == FirstAt(s, i, w)
    {
      AtSlice(s, i, w);
      if s[i..i + |w|] == w {
        return Some(i);
      }
      i := i + 1;
    }
    return None;
  }

  lemma NoOpenNoToken(s: string, i: nat, n: nat)
    requires i <= n <= |s| && forall j :: i <= j < n ==> !At(s, j, OPEN_TAG)
    ensures NoTokenIn(REMINDER, s, i, n)
  {
  }

  lemma NoCloseNoToken(s: string, i: nat)
    requires i <= |s| && FirstAt(s, i + |OPEN_TAG|, CLOSE_TAG).None?
    ensures NoTokenIn(REMINDER, s, i, |s|)
  {
    forall j | i <= j < |s| ensures REMINDER(s, j) == 0 {
      if At(s, j, OPEN_TAG) {
        assert FirstAt(s, j + |OPEN_TAG|, CLOSE_TAG).None?;
      }
    }
  }

  lemma {:induction false} ScanKeepsTo(s: string, out: string, last: nat, i: nat, n: nat, count: nat)
    requires Scanning(REMINDER, s, out, last, i, count)
    requires i <= n <= |s| && NoTokenIn(REMINDER, s, i, n)
    ensures Scanning(REMINDER, s, out, last, n, count)
    decreases n - i
  {
    if i < n {
      ScanKeeps(REMINDER, s, out, last, i, count);
      ScanKeepsTo(s, out, last, i + 1, n, count);
    }
  }

  /** `r` is the first block from `cursor` on: where it opens and where the text resumes. */
  ghost predicate IsNext(s: string, cursor: nat, r: Option<(nat, nat)>)
    requires cursor <= |s|
  {
    if r.None? then NoTokenIn(REMINDER, s, cursor, |s|)
    else
      var (open, end) := r.value;
      cursor <= open < end == open + REMINDER(s, open) <= |s| && NoTokenIn(REMINDER, s, cursor, open)
  }

  lemma ReminderAt(s: string, open: nat, close: nat, end: nat)
    requires At(s, open, OPEN_TAG) && FirstAt(s, open + |OPEN_TAG|, CLOSE_TAG) == Some(close)
    requires end == if close + |CLOSE_TAG| < |s| && s[close + |CLOSE_TAG|] == '\n' then close + |CLOSE_TAG| + 1
                    else close + |CLOSE_TAG|
    ensures open < end <= |s| && REMINDER(s, open) == end - open
  {
  }

  method NextReminder(s: string, cursor: nat) returns (r: Option<(nat, nat)>)
    requires cursor <= |s|
    ensures IsNext(s, cursor, r)
  {
    var open := Find(s, cursor, OPEN_TAG);
    if open.None? {
      NoOpenNoToken(s, cursor, |s|);
      return None;
    }
    NoOpenNoToken(s, cursor, open.value);
    var close := Find(s, open.value + |OPEN_TAG|, CLOSE_TAG);
    if close.None? {
      NoCloseNoToken(s, open.value);
      return None;
    }
    var closeEnd := close.value + |CLOSE_TAG|;
    var dropEnd := if closeEnd < |s| && s[closeEnd] == '\n' then closeEnd + 1 else closeEnd;
    ReminderAt(s, open.value, close.value, dropEnd);
    return Some((open.value, dropEnd));
  }

  /** `None` when nothing was removed, otherwise the kept text, the number of blocks and their bytes. */
  method StripRemindersInStr(s: string) returns (r: Option<(string, nat, nat)>)
    ensures r.None? ==> Cuts(REMINDER, s) == 0 && Kept(REMINDER, s) == s
    ensures r.Some? ==>
              && r.value.0 == Kept(REMINDER, s)
              && r.value.1 == Cuts(REMINDER, s) > 0
              && r.value.2 + TextLen(r.value.0) == TextLen(s)
  {
    var out, cursor := "", 0;
    var blocks: nat, bytes: nat := 0, 0;
    var next := NextReminder(s, cursor);
    while next.Some?
      invariant 0 <= cursor <= |s| && IsNext(s, cursor, next)
      invariant Scanning(REMINDER, s, out, cursor, cursor, blocks)
      invariant bytes + TextLen(out) == TextLen(s[..cursor])
      decreases |s| - cursor, next.Some?
    {
      var (open, end) := next.value;
      DropStep(s, out, cursor, open, end, blocks);
      CutBytesStep(s, out, cursor, open, end);
      bytes := bytes + TextLen(s[open..end]);
      out, blocks, cursor := out + s[cursor..open], blocks + 1, end;
      next := NextReminder(s, cursor);
    }
    ScanEnds(REMINDER, s, out, cursor, cursor, blocks);
    RestBytes(s, out, cursor);
    return if blocks == 0 then None else Some((out + s[cursor..], blocks, bytes));
  }

  lemma DropStep(s: string, out: string, cursor: nat, open: nat, end: nat, blocks: nat)
    requires Scanning(REMINDER, s, out, cursor, cursor, blocks)
    requires cursor <= |s| && IsNext(s, cursor, Some((open, end)))
    ensures Scanning(REMINDER, s, out + s[cursor..open], end, end, blocks + 1)
  {
    ScanKeepsTo(s, out, cursor, cursor, open, blocks);
    ScanCuts(REMINDER, s, out, cursor, open, end, blocks);
  }

  lemma RestBytes(s: string, out: string, cursor: nat)
    requires cursor <= |s|
    ensures TextLen(out + s[cursor..]) + TextLen(s[..cursor]) == TextLen(out) + TextLen(s)
  {
    TextLenConcat(out, s[cursor..]);
    TextLenConcat(s[..cursor], s[cursor..]);
    assert s == s[..cursor] + s[cursor..];
  }

  lemma CutBytesStep(s: string, out: string, cursor: nat, open: nat, end: nat)
    requires cursor <= open <= end <= |s|
    ensures TextLen(out + s[cursor..open]) + TextLen(s[open..end]) + TextLen(s[..cursor])
         == TextLen(out) + TextLen(s[..end])
  {
    TextLenConcat(out, s[cursor..open]);
    TextLenConcat(s[..cursor], s[cursor..open]);
    TextLenConcat(s[..open], s[open..end]);
    assert s[..open] == s[..cursor] + s[cursor..open] && s[..end] == s[..open] + s[open..end];
  }

  // ----- one document -------------------------------------------------------

  /** Bytes of string payload in a document. */
  function Payload(v: Json): nat
    decreases v, 1
  {
    match v
    case Str(s) => TextLen(s)
    case Arr(items) => PayloadItems(items)
    case Obj(fields) => PayloadFields(fields)
    case _ => 0
  }

  function PayloadItems(items: seq<Json>): nat
    decreases items, 0
  {
    if items == [] then 0 else Payload(items[0]) + PayloadItems(items[1..])
  }

  function PayloadFields(fields: seq<Field>): nat
    decreases fields, 0
  {
    if fields == [] then 0 else Payload(fields[0].value) + PayloadFields(fields[1..])
  }

  lemma {:induction false} PayloadItemsSnoc(items: seq<Json>, v: Json)
    ensures PayloadItems(items + [v]) == PayloadItems(items) + Payload(v)
  {
    if items == [] {
      assert [v][1..] == [];
    } else {
      assert (items + [v])[1..] == items[1..] + [v];
      PayloadItemsSnoc(items[1..], v);
    }
  }

  lemma {:induction false} PayloadFieldsSnoc(fields: seq<Field>, f: Field)
    ensures PayloadFields(fields + [f]) == PayloadFields(fields) + Payload(f.value)
  {
    if fields == [] {
      assert [f][1..] == [];
    } else {
      assert (fields + [f])[1..] == fields[1..] + [f];
      PayloadFieldsSnoc(fields[1..], f);
    }
  }

  /** The recursive strip; `blocks` and `bytes` account for exactly what is gone. */
  method StripRemindersRecursive(value: Json) returns (stripped: Json, blocks: nat, bytes: nat)
    ensures stripped == KeptTree(REMINDER, value) && blocks == CutsTree(REMINDER, value)
    ensures bytes + Payload(stripped) == Payload(value)
    decreases value, 1
  {
    stripped, blocks, bytes := value, 0, 0;
    match value {
      case Str(s) =>
        var r := StripRemindersInStr(s);
        if r.Some? {
          stripped, blocks, bytes := Str(r.value.0), r.value.1, r.value.2;
        }
      case Arr(items) =>
        var out;
        out, blocks, bytes := StripItems(items);
        stripped := Arr(out);
      case Obj(fields) =>
        var out;
        out, blocks, bytes := StripFields(fields);
        stripped := Obj(out);
      case _ =>
    }
  }

  method StripItems(items: seq<Json>) returns (out: seq<Json>, blocks: nat, bytes: nat)
    ensures out == KeptItems(REMINDER, items) && blocks == CutsItems(REMINDER, items)
    ensures bytes + PayloadItems(out) == PayloadItems(items)
    decreases items, 0
  {
    out, blocks, bytes := [], 0, 0;
    for i := 0 to |items|
      invariant out == KeptItems(REMINDER, items[..i]) && blocks == CutsItems(REMINDER, items[..i])
      invariant bytes + PayloadItems(out) == PayloadItems(items[..i])
    {
      var v, k, n := StripRemindersRecursive(items[i]);
      KeptItemsSnoc(REMINDER, items[..i], items[i]);
      PayloadItemsSnoc(items[..i], items[i]);
      PayloadItemsSnoc(out, v);
      assert items[..i + 1] == items[..i] + [items[i]];
      out, blocks, bytes := out + [v], blocks + k, bytes + n;
    }
    assert items[..|items|] == items;
  }

  method StripFields(fields: seq<Field>) returns (out: seq<Field>, blocks: nat, bytes: nat)
    ensures out == KeptFields(REMINDER, fields) && blocks == CutsFields(REMINDER, fields)
    ensures bytes + PayloadFields(out) == PayloadFields(fields)
    decreases fields, 0
  {
    out, blocks, bytes := [], 0, 0;
    for i := 0 to |fields|
      invariant out == KeptFields(REMINDER, fields[..i]) && blocks == CutsFields(REMINDER, fields[..i])
      invariant bytes + PayloadFields(out) == PayloadFields(fields[..i])
    {
      var v, k, n := StripRemindersRecursive(fields[i].value);
      KeptFieldsSnoc(REMINDER, fields[..i], fields[i]);
      PayloadFieldsSnoc(fields[..i], fields[i]);
      PayloadFieldsSnoc(out, Field(fields[i].key, v));
      assert fields[..i + 1] == fields[..i] + [fields[i]];
      out, blocks, bytes := out + [Field(fields[i].key, v)], blocks + k, bytes + n;
    }
    assert fields[..|fields|] == fields;
  }

  // ----- empty text blocks --------------------------------------------------

  predicate IsEmptyText(v: Json) {
    AsStr(Get(v, "type")) == Some("text") && AsStr(Get(v, "text")) == Some("")
  }

  /** Empty text blocks go from every array; an array emptied by that holds one placeholder. */
  function Pruned(v: Json): Json
    decreases v, 1
  {
    match v
    case Arr(items) =>
      var kept := PrunedItems(items);
      Arr(if kept == [] && items != [] then [PLACEHOLDER] else kept)
    case Obj(fields) => Obj(PrunedFields(fields))
    case _ => v
  }

  function PrunedItems(items: seq<Json>): seq<Json>
    decreases items, 0
  {
    if items == [] then []
    else (if IsEmptyText(items[0]) then [] else [Pruned(items[0])]) + PrunedItems(items[1..])
  }

  function PrunedFields(fields: seq<Field>): (r: seq<Field>)
    ensures |r| == |fields|
    decreases fields, 0
  {
    if fields == [] then [] else [Field(fields[0].key, Pruned(fields[0].value))] + PrunedFields(fields[1..])
  }

  /** Every item is an empty text block, and there is one. */
  predicate AllEmptyText(items: seq<Json>) {
    items != [] && forall x :: x in items ==> IsEmptyText(x)
  }

  /** How many empty text blocks arrays hold, not counting what is inside such blocks. */
  function EmptyTexts(v: Json): nat
    decreases v, 1
  {
    match v
    case Arr(items) => EmptyTextsIn(items)
    case Obj(fields) => EmptyTextsOf(fields)
    case _ => 0
  }

  function EmptyTextsIn(items: seq<Json>): nat
    decreases items, 0
  {
    if items == [] then 0
    else (if IsEmptyText(items[0]) then 1 else EmptyTexts(items[0])) + EmptyTextsIn(items[1..])
  }

  function EmptyTextsOf(fields: seq<Field>): nat
    decreases fields, 0
  {
    if fields == [] then 0 else EmptyTexts(fields[0].value) + EmptyTextsOf(fields[1..])
  }

  /** How many arrays hold nothing else. */
  function Placeholders(v: Json): nat
    decreases v, 1
  {
    match v
    case Arr(items) => if AllEmptyText(items) then 1 else PlaceholdersIn(items)
    case Obj(fields) => PlaceholdersOf(fields)
    case _ => 0
  }

  function PlaceholdersIn(items: seq<Json>): nat
    decreases items, 0
  {
    if items == [] then 0
    else (if IsEmptyText(items[0]) then 0 else Placeholders(items[0])) + PlaceholdersIn(items[1..])
  }

  function PlaceholdersOf(fields: seq<Field>): nat
    decreases fields, 0
  {
    if fields == [] then 0 else Placeholders(fields[0].value) + PlaceholdersOf(fields[1..])
  }

  /** No array anywhere in the document holds an empty text block. */
  ghost predicate NoEmptyText(v: Json)
    decreases v
  {
    match v
    case Arr(items) => forall x :: x in items ==> !IsEmptyText(x) && NoEmptyText(x)
    case Obj(fields) => forall f :: f in fields ==> NoEmptyText(f.value)
    case _ => true
  }

  function EmptyArrays(v: Json): nat
    decreases v, 1
  {
    match v
    case Arr(items) => if items == [] then 1 else EmptyArraysIn(items)
    case Obj(fields) => EmptyArraysOf(fields)
    case _ => 0
  }

  function EmptyArraysIn(items: seq<Json>): nat
    decreases items, 0
  {
    if items == [] then 0 else EmptyArrays(items[0]) + EmptyArraysIn(items[1..])
  }

  function EmptyArraysOf(fields: seq<Field>): nat
    decreases fields, 0
  {
    if fields == [] then 0 else EmptyArrays(fields[0].value) + EmptyArraysOf(fields[1..])
  }

  /** Pruning reaches only arrays, so a string field reads as before. */
  lemma {:induction false} PrunedLookup(fields: seq<Field>, key: string)
    ensures AsStr(Lookup(PrunedFields(fields), key)) == AsStr(Lookup(fields, key))
  {
    if fields != [] && fields[0].key != key {
      assert PrunedFields(fields)[1..] == PrunedFields(fields[1..]);
      PrunedLookup(fields[1..], key);
    }
  }

  lemma PrunedIsEmptyText(v: Json)
    ensures IsEmptyText(Pruned(v)) == IsEmptyText(v)
    ensures Kind(Pruned(v)) == Kind(v)
  {
    if v.Obj? {
      PrunedLookup(v.fields, "type");
      PrunedLookup(v.fields, "text");
    }
  }

  /** After pruning no array holds an empty text block, and no array was left empty that was not. */
  lemma {:induction false} PrunedIsClean(v: Json)
    ensures NoEmptyText(Pruned(v))
    ensures EmptyArrays(Pruned(v)) <= EmptyArrays(v)
    decreases v, 1
  {
    match v
    case Arr(items) =>
      PrunedItemsClean(items);
      PlaceholderClean();
    case Obj(fields) =>
      PrunedFieldsClean(fields);
    case _ =>
  }

  lemma PlaceholderClean()
    ensures !IsEmptyText(PLACEHOLDER) && NoEmptyText(PLACEHOLDER)
    ensures EmptyArraysIn([PLACEHOLDER]) == 0
  {
    var fields := PLACEHOLDER.fields;
    assert fields[1..] == [Field("text", Str(PLACEHOLDER_TEXT))] && fields[1..][1..] == [];
    assert Lookup(fields[1..], "text") == Some(Str(PLACEHOLDER_TEXT));
    assert EmptyArraysOf(fields[1..][1..]) == 0 && EmptyArraysOf(fields[1..]) == 0;
    assert EmptyArrays(PLACEHOLDER) == EmptyArraysOf(fields) == 0;
    assert [PLACEHOLDER][1..] == [] && EmptyArraysIn([PLACEHOLDER][1..]) == 0;
  }

  lemma {:induction false} PrunedItemsClean(items: seq<Json>)
    ensures forall x :: x in PrunedItems(items) ==> !IsEmptyText(x) && NoEmptyText(x)
    ensures EmptyArraysIn(PrunedItems(items)) <= EmptyArraysIn(items)
    decreases items, 0
  {
    if items != [] {
      var rest := PrunedItems(items[1..]);
      PrunedItemsClean(items[1..]);
      PrunedIsClean(items[0]);
      PrunedIsEmptyText(items[0]);
      assert ([Pruned(items[0])] + rest)[1..] == rest;
      assert [] + rest == rest;
    }
  }

  lemma {:induction false} PrunedFieldsClean(fields: seq<Field>)
    ensures forall f :: f in PrunedFields(fields) ==> NoEmptyText(f.value)
    ensures EmptyArraysOf(PrunedFields(fields)) <= EmptyArraysOf(fields)
    decreases fields, 0
  {
    if fields != [] {
      PrunedFieldsClean(fields[1..]);
      PrunedIsClean(fields[0].value);
      assert PrunedFields(fields)[1..] == PrunedFields(fields[1..]);
    }
  }

  lemma {:induction false} PrunedItemsSnoc(items: seq<Json>, v: Json)
    ensures PrunedItems(items + [v]) == PrunedItems(items) + if IsEmptyText(v) then [] else [Pruned(v)]
  {
    var last := if IsEmptyText(v) then [] else [Pruned(v)];
    if items == [] {
      assert items + [v] == [v] && [v][1..] == [];
      assert PrunedItems([v]) == last + PrunedItems([]);
    } else {
      var first, rest := if IsEmptyText(items[0]) then [] else [Pruned(items[0])], PrunedItems(items[1..]);
      assert (items + [v])[0] == items[0] && (items + [v])[1..] == items[1..] + [v];
      PrunedItemsSnoc(items[1..], v);
      assert first + (rest + last) == first + rest + last;
    }
  }

  lemma {:induction false} PrunedFieldsSnoc(fields: seq<Field>, f: Field)
    ensures PrunedFields(fields + [f]) == PrunedFields(fields) + [Field(f.key, Pruned(f.value))]
  {
    if fields == [] {
      assert PrunedFields([f][1..]) == [];
    } else {
      assert (fields + [f])[1..] == fields[1..] + [f];
      PrunedFieldsSnoc(fields[1..], f);
    }
  }

  lemma {:induction false} CountsInSnoc(items: seq<Json>, v: Json)
    ensures EmptyTextsIn(items + [v]) == EmptyTextsIn(items) + if IsEmptyText(v) then 1 else EmptyTexts(v)
    ensures PlaceholdersIn(items + [v]) == PlaceholdersIn(items) + if IsEmptyText(v) then 0 else Placeholders(v)
  {
    if items == [] {
      assert [] + [v] == [v] && [v][1..] == [];
    } else {
      assert (items + [v])[1..] == items[1..] + [v];
      CountsInSnoc(items[1..], v);
    }
  }

  lemma {:induction false} CountsOfSnoc(fields: seq<Field>, f: Field)
    ensures EmptyTextsOf(fields + [f]) == EmptyTextsOf(fields) + EmptyTexts(f.value)
    ensures PlaceholdersOf(fields + [f]) == PlaceholdersOf(fields) + Placeholders(f.value)
  {
    if fields == [] {
      assert [] + [f] == [f] && [f][1..] == [];
    } else {
      assert (fields + [f])[1..] == fields[1..] + [f];
      CountsOfSnoc(fields[1..], f);
    }
  }

  /**
   * Pruning empties an array exactly when it held nothing but empty text blocks;
   * then there is nothing else to count.
   */
  lemma {:induction false} EmptiedIff(items: seq<Json>)
    ensures PrunedItems(items) == [] && items != [] <==> AllEmptyText(items)
    ensures AllEmptyText(items) ==> PlaceholdersIn(items) == 0
  {
    if items != [] {
      EmptiedIff(items[1..]);
      assert items == [items[0]] + items[1..];
    }
  }

  /** The recursive prune. The placeholder holds no array, so walking it would find nothing. */
  method PruneEmptyTextBlocks(value: Json) returns (out: Json, pruned: nat, placeholders: nat)
    ensures out == Pruned(value) && pruned == EmptyTexts(value) && placeholders == Placeholders(value)
    decreases value, 1
  {
    match value {
      case Arr(items) =>
        var kept;
        kept, pruned, placeholders := PruneItems(items);
        EmptiedIff(items);
        if kept == [] && items != [] {
          kept, placeholders := [PLACEHOLDER], placeholders + 1;
        }
        out := Arr(kept);
      case Obj(fields) =>
        var kept;
        kept, pruned, placeholders := PruneFields(fields);
        out := Obj(kept);
      case _ =>
        out, pruned, placeholders := value, 0, 0;
    }
  }

  method PruneItems(items: seq<Json>) returns (out: seq<Json>, pruned: nat, placeholders: nat)
    ensures out == PrunedItems(items) && pruned == EmptyTextsIn(items) && placeholders == PlaceholdersIn(items)
    decreases items, 0
  {
    out, pruned, placeholders := [], 0, 0;
    for i := 0 to |items|
      invariant out == PrunedItems(items[..i])
      invariant pruned == EmptyTextsIn(items[..i]) && placeholders == PlaceholdersIn(items[..i])
    {
      PrunedItemsSnoc(items[..i], items[i]);
      CountsInSnoc(items[..i], items[i]);
      assert items[..i + 1] == items[..i] + [items[i]];
      if IsEmptyText(items[i]) {
        pruned := pruned + 1;
      } else {
        var v, p, ph := PruneEmptyTextBlocks(items[i]);
        out, pruned, placeholders := out + [v], pruned + p, placeholders + ph;
      }
    }
    assert items[..|items|] == items;
  }

  method PruneFields(fields: seq<Field>) returns (out: seq<Field>, pruned: nat, placeholders: nat)
    ensures out == PrunedFields(fields) && pruned == EmptyTextsOf(fields) && placeholders == PlaceholdersOf(fields)
    decreases fields, 0
  {
    out, pruned, placeholders := [], 0, 0;
    for i := 0 to |fields|
      invariant out == PrunedFields(fields[..i])
      invariant pruned == EmptyTextsOf(fields[..i]) && placeholders == PlaceholdersOf(fields[..i])
    {
      var v, p, ph := PruneEmptyTextBlocks(fields[i].value);
      PrunedFieldsSnoc(fields[..i], fields[i]);
      CountsOfSnoc(fields[..i], fields[i]);
      assert fields[..i + 1] == fields[..i] + [fields[i]];
      out, pruned, placeholders := out + [Field(fields[i].key, v)], pruned + p, placeholders + ph;
    }
    assert fields[..|fields|] == fields;
  }

  // ----- the pass over the messages -----------------------------------------

  /** The current turn: the last real user message, or failing that the last user message. */
  function ProtectedIdx(ms: seq<Json>): (r: Option<nat>)
    ensures r.Some? ==> r.value < |ms| && IsUser(ms[r.value])
  {
    if BoundaryIdx(ms).Some? then BoundaryIdx(ms) else LastWhere(ms, IsUser)
  }

  /** How many blocks a message would lose. */
  function Reminders(m: Json): nat {
    if Get(m, "content").Some? then CutsTree(REMINDER, Get(m, "content").value) else 0
  }

  function CleanedContent(content: Json): Json {
    var c := Pruned(KeptTree(REMINDER, content));
    if c == Str("") then Str(PLACEHOLDER_TEXT) else c
  }

  function CleanedMessage(m: Json): Json {
    if Reminders(m) == 0 then m else Set(m, "content", CleanedContent(Get(m, "content").value))
  }

  function CleanedFrom(ms: seq<Json>, i: nat, protectedIdx: Option<nat>): (r: seq<Json>)
    requires i <= |ms|
    ensures |r| == |ms| - i
    ensures forall k :: 0 <= k < |r| ==>
              r[k] == if protectedIdx == Some(i + k) then ms[i + k] else CleanedMessage(ms[i + k])
    decreases |ms| - i
  {
    if i == |ms| then []
    else [if protectedIdx == Some(i) then ms[i] else CleanedMessage(ms[i])] + CleanedFrom(ms, i + 1, protectedIdx)
  }

  function Cleaned(ms: seq<Json>): (r: seq<Json>)
    ensures |r| == |ms|
  {
    CleanedFrom(ms, 0, ProtectedIdx(ms))
  }

  lemma CleanedContentFacts(content: Json)
    ensures NoEmptyText(CleanedContent(content))
    ensures EmptyArrays(CleanedContent(content)) <= EmptyArrays(content)
    ensures CleanedContent(content) != Str("")
  {
    PrunedIsClean(KeptTree(REMINDER, content));
    KeptEmptyArrays(content);
  }

  lemma {:induction false} KeptEmptyArrays(v: Json)
    ensures EmptyArrays(KeptTree(REMINDER, v)) == EmptyArrays(v)
    decreases v, 1
  {
    match v
    case Arr(items) => KeptEmptyArraysIn(items);
    case Obj(fields) => KeptEmptyArraysOf(fields);
    case _ =>
  }

  lemma {:induction false} KeptEmptyArraysIn(items: seq<Json>)
    ensures EmptyArraysIn(KeptItems(REMINDER, items)) == EmptyArraysIn(items)
    decreases items, 0
  {
    if items != [] {
      KeptEmptyArrays(items[0]);
      KeptEmptyArraysIn(items[1..]);
      assert KeptItems(REMINDER, items)[1..] == KeptItems(REMINDER, items[1..]);
    }
  }

  lemma {:induction false} KeptEmptyArraysOf(fields: seq<Field>)
    ensures EmptyArraysOf(KeptFields(REMINDER, fields)) == EmptyArraysOf(fields)
    decreases fields, 0
  {
    if fields != [] {
      KeptEmptyArrays(fields[0].value);
      KeptEmptyArraysOf(fields[1..]);
      assert KeptFields(REMINDER, fields)[1..] == KeptFields(REMINDER, fields[1..]);
    }
  }

  /** What the pass promises of every message of every request. */
  lemma CleanedFacts(ms: seq<Json>, i: nat)
    requires i < |ms|
    ensures ProtectedIdx(ms) == Some(i) || Reminders(ms[i]) == 0 ==> Cleaned(ms)[i] == ms[i]
    ensures ProtectedIdx(ms) != Some(i) && Reminders(ms[i]) > 0 ==>
              var content := Get(Cleaned(ms)[i], "content");
              && content.Some? && content.value != Str("")
              && NoEmptyText(content.value)
              && EmptyArrays(content.value) <= EmptyArrays(Get(ms[i], "content").value)
    ensures Role(Cleaned(ms)[i]) == Role(ms[i])
  {
    var m := ms[i];
    if Reminders(m) > 0 {
      CleanedContentFacts(Get(m, "content").value);
      GetSet(m, "content", CleanedContent(Get(m, "content").value), "content");
      GetSet(m, "content", CleanedContent(Get(m, "content").value), "role");
    }
  }

  // ----- the pass does not move the cycle boundary --------------------------

  lemma ToolResultTag()
    ensures Kept(REMINDER, "tool_result") == "tool_result"
  {
    var s := "tool_result";
    NoOpenNoToken(s, 0, |s|);
    KeptSkips(REMINDER, s, 0, |s|);
    assert s[0..|s|] + "" == s;
  }

  lemma ToolResultStays(b: Json)
    requires IsToolResult(b)
    ensures IsToolResult(Pruned(KeptTree(REMINDER, b))) && !IsEmptyText(KeptTree(REMINDER, b))
  {
    ToolResultTag();
    KeptLookup(REMINDER, b.fields, "type");
    PrunedIsEmptyText(KeptTree(REMINDER, b));
  }

  lemma {:induction false} ToolResultsStay(items: seq<Json>)
    requires forall b :: b in items ==> IsToolResult(b)
    ensures var out := PrunedItems(KeptItems(REMINDER, items));
            |out| == |items| && forall b :: b in out ==> IsToolResult(b)
  {
    if items != [] {
      ToolResultStays(items[0]);
      ToolResultsStay(items[1..]);
      assert KeptItems(REMINDER, items)[1..] == KeptItems(REMINDER, items[1..]);
    }
  }

  lemma OnlyToolResultsStays(m: Json)
    requires OnlyToolResults(m)
    ensures OnlyToolResults(CleanedMessage(m))
  {
    var items := Blocks(m).value;
    ToolResultsStay(items);
    GetSet(m, "content", CleanedContent(Arr(items)), "content");
  }

  /** The boundary after the pass is the boundary before it. */
  lemma CleanedBoundary(ms: seq<Json>)
    ensures BoundaryIdx(Cleaned(ms)) == BoundaryIdx(ms)
  {
    var out, b := Cleaned(ms), BoundaryIdx(ms);
    var from := if b.Some? then b.value + 1 else 0;
    forall j | from <= j < |ms| ensures !IsRealUser(out[j]) {
      CleanedFacts(ms, j);
      if IsUser(ms[j]) {
        OnlyToolResultsStays(ms[j]);
      }
    }
    if b.Some? {
      CleanedFacts(ms, b.value);
      BoundaryUnique(out, b.value);
    }
  }

  /** While the boundary stays, a longer history is cleaned to an extension of what the shorter one was cleaned to. */
  lemma CleanedPrefix(xs: seq<Json>, ys: seq<Json>)
    requires BoundaryIdx(xs).Some? && BoundaryIdx(xs + ys) == BoundaryIdx(xs)
    ensures Cleaned(xs) <= Cleaned(xs + ys)
  {
    forall i | 0 <= i < |xs| ensures Cleaned(xs)[i] == Cleaned(xs + ys)[i] {
      assert (xs + ys)[i] == xs[i];
    }
  }

  datatype ReminderStats = ReminderStats(
    blocksRemoved: nat, bytesRemoved: nat, emptyBlocksPruned: nat, placeholdersInserted: nat)
  {
    function Plus(t: ReminderStats): ReminderStats {
      ReminderStats(blocksRemoved + t.blocksRemoved, bytesRemoved + t.bytesRemoved,
                    emptyBlocksPruned + t.emptyBlocksPruned, placeholdersInserted + t.placeholdersInserted)
    }
  }

  const NO_STATS := ReminderStats(0, 0, 0, 0)

  /** The blocks and bytes of string payload a message loses, and what pruning does to the rest. */
  function StatsOf(m: Json): ReminderStats {
    if Reminders(m) == 0 then NO_STATS
    else
      var content := Get(m, "content").value;
      var kept := KeptTree(REMINDER, content);
      ReminderStats(Reminders(m), Max(Payload(content) - Payload(kept), 0), EmptyTexts(kept),
                    Placeholders(kept) + if Pruned(kept) == Str("") then 1 else 0)
  }

  /** The sum over the first `n` messages, the protected one aside. */
  function StatsUpTo(ms: seq<Json>, n: nat, protectedIdx: Option<nat>): ReminderStats
    requires n <= |ms|
  {
    if n == 0 then NO_STATS
    else StatsUpTo(ms, n - 1, protectedIdx).Plus(if protectedIdx == Some(n - 1) then NO_STATS else StatsOf(ms[n - 1]))
  }

  method CleanMessage(m: Json) returns (out: Json, stats: ReminderStats)
    ensures out == CleanedMessage(m) && stats == StatsOf(m)
  {
    out, stats := m, NO_STATS;
    var content := Get(m, "content");
    if content.None? {
      return;
    }
    var stripped, blocks, bytes := StripRemindersRecursive(content.value);
    if blocks == 0 {
      return;
    }
    var c, pruned, placeholders := PruneEmptyTextBlocks(stripped);
    if c == Str("") {
      c, placeholders := Str(PLACEHOLDER_TEXT), placeholders + 1;
    }
    return Set(m, "content", c), ReminderStats(blocks, bytes, pruned, placeholders);
  }

  /** Every message but the protected one, in order, on one list. */
  method CleanMessages(ms: seq<Json>, protectedIdx: Option<nat>) returns (list: seq<Json>, stats: ReminderStats)
    ensures list == CleanedFrom(ms, 0, protectedIdx) && stats == StatsUpTo(ms, |ms|, protectedIdx)
  {
    list, stats := ms, NO_STATS;
    for i := 0 to |ms|
      invariant |list| == |ms| && stats == StatsUpTo(ms, i, protectedIdx)
      invariant forall k :: 0 <= k < i ==> list[k] == if protectedIdx == Some(k) then ms[k] else CleanedMessage(ms[k])
      invariant forall k :: i <= k < |ms| ==> list[k] == ms[k]
    {
      if protectedIdx != Some(i) {
        var m, s := CleanMessage(list[i]);
        list, stats := list[i := m], stats.Plus(s);
      }
    }
  }

  /** Strips past-turn reminders in place and reports what went. */
  method StripSystemRemindersFromPastTurns(req: Request) returns (stats: ReminderStats)
    modifies req
    ensures MessagesOf(old(req.body)).None? ==> req.body == old(req.body) && stats == NO_STATS
    ensures MessagesOf(old(req.body)).Some? ==>
              var ms := MessagesOf(old(req.body)).value;
              && req.body == WithMessages(old(req.body), Cleaned(ms))
              && stats == StatsUpTo(ms, |ms|, ProtectedIdx(ms))
  {
    stats := NO_STATS;
    if MessagesOf(req.body).None? {
      return;
    }
    var ms := MessagesOf(req.body).value;
    var list;
    list, stats := CleanMessages(ms, ProtectedIdx(ms));
    req.body := WithMessages(req.body, list);
  }
}
