/**
 * What the reminder pass leaves of a past message, told structure by structure:
 * which turn it protects, which texts and blocks stay, and what it counts.
 */
module CleanedContents {
  import opened Wrappers
  import opened Json
  import opened Messages
  import opened TokenScan
  import opened ReminderStrip

  // ----- the turn that is protected -----------------------------------------

  /** The last message the user wrote; if there is none, the last message in the user's role. */
  predicate IsCurrentTurn(ms: seq<Json>, i: nat)
    requires i < |ms|
  {
    if exists j :: 0 <= j < |ms| && IsRealUser(ms[j])
    then IsRealUser(ms[i]) && forall j :: i < j < |ms| ==> !IsRealUser(ms[j])
    else Get(ms[i], "role") == Some(Str("user")) && forall j :: i < j < |ms| ==> Get(ms[j], "role") != Some(Str("user"))
  }

  lemma ProtectedIsCurrent(ms: seq<Json>, i: nat)
    requires i < |ms|
    ensures ProtectedIdx(ms) == Some(i) <==> IsCurrentTurn(ms, i)
  {
    if BoundaryIdx(ms).Some? {
      assert IsRealUser(ms[BoundaryIdx(ms).value]);
    } else {
      var last := LastWhere(ms, IsUser);
      assert forall j :: 0 <= j < |ms| ==> (IsUser(ms[j]) <==> Get(ms[j], "role") == Some(Str("user")));
    }
  }

  // ----- what pruning leaves ------------------------------------------------

  predicate IsEmptyTextBlock(x: Json) {
    Get(x, "type") == Some(Str("text")) && Get(x, "text") == Some(Str(""))
  }

  /** The items that are no empty text blocks, in order. */
  function Live(items: seq<Json>): (r: seq<Json>)
    ensures forall x :: x in r ==> x in items && !IsEmptyTextBlock(x)
  {
    if items == [] then [] else (if IsEmptyTextBlock(items[0]) then [] else [items[0]]) + Live(items[1..])
  }

  /** A text block that says "(reminder)". */
  predicate IsPlaceholder(x: Json) {
    Get(x, "type") == Some(Str("text")) && Get(x, "text") == Some(Str("(reminder)"))
  }

  /**
   * `w` is `v` without the empty text blocks of its arrays: everything else is
   * there, in order, and an array that held nothing else holds one placeholder.
   */
  ghost predicate IsPruned(v: Json, w: Json)
    decreases v
  {
    match v
    case Arr(items) =>
      var live := Live(items);
      && w.Arr?
      && (if live == [] && items != [] then |w.items| == 1 && IsPlaceholder(w.items[0])
          else |w.items| == |live| && forall j :: 0 <= j < |live| ==> live[j] in items && IsPruned(live[j], w.items[j]))
    case Obj(fields) =>
      && w.Obj? && |w.fields| == |fields|
      && forall j :: 0 <= j < |fields| ==>
           w.fields[j].key == fields[j].key && IsPruned(fields[j].value, w.fields[j].value)
    case _ => w == v
  }

  lemma EmptyTextIs(x: Json)
    ensures IsEmptyText(x) <==> IsEmptyTextBlock(x)
  {
  }

  lemma PlaceholderIs()
    ensures IsPlaceholder(PLACEHOLDER)
  {
    var f := PLACEHOLDER.fields;
    assert f[1..] == [f[1]] && Lookup(f[1..], "text") == Some(Str("(reminder)"));
  }

  lemma {:induction false} PrunedIs(v: Json)
    ensures IsPruned(v, Pruned(v))
    decreases v, 1
  {
    match v
    case Arr(items) =>
      PrunedItemsAre(items);
      PlaceholderIs();
    case Obj(fields) => PrunedFieldsAre(fields);
    case _ =>
  }

  lemma {:induction false} PrunedItemsAre(items: seq<Json>)
    ensures |PrunedItems(items)| == |Live(items)|
    ensures forall j :: 0 <= j < |Live(items)| ==> IsPruned(Live(items)[j], PrunedItems(items)[j])
    decreases items, 0
  {
    if items != [] {
      EmptyTextIs(items[0]);
      PrunedItemsAre(items[1..]);
      PrunedIs(items[0]);
    }
  }

  lemma {:induction false} PrunedFieldsAre(fields: seq<Field>)
    ensures forall j :: 0 <= j < |fields| ==>
              && PrunedFields(fields)[j].key == fields[j].key
              && IsPruned(fields[j].value, PrunedFields(fields)[j].value)
    decreases fields, 0
  {
    if fields != [] {
      PrunedFieldsAre(fields[1..]);
      PrunedIs(fields[0].value);
      assert PrunedFields(fields)[1..] == PrunedFields(fields[1..]);
    }
  }

  /**
   * The pass leaves the current turn and every message without a reminder as they
   * were. Of any other message only the content changes: a text loses its
   * reminders, or becomes the placeholder when nothing is left, and any other
   * content loses them and the empty text blocks, and nothing else.
   */
  lemma CleanedIs(ms: seq<Json>, i: nat)
    requires i < |ms|
    ensures IsCurrentTurn(ms, i) || Reminders(ms[i]) == 0 ==> Cleaned(ms)[i] == ms[i]
    ensures !IsCurrentTurn(ms, i) && Reminders(ms[i]) > 0 ==>
              && Get(ms[i], "content").Some? && Get(Cleaned(ms)[i], "content").Some?
              && (forall key :: key != "content" ==> Get(Cleaned(ms)[i], key) == Get(ms[i], key))
              && var before, after := Get(ms[i], "content").value, Get(Cleaned(ms)[i], "content").value;
                 if before.Str? then
                   after == Str(if Kept(REMINDER, before.s) == "" then "(reminder)" else Kept(REMINDER, before.s))
                 else IsPruned(KeptTree(REMINDER, before), after)
  {
    ProtectedIsCurrent(ms, i);
    if !IsCurrentTurn(ms, i) && Reminders(ms[i]) > 0 {
      var before := Get(ms[i], "content").value;
      forall key ensures Get(Cleaned(ms)[i], key) ==
                         if key == "content" then Some(CleanedContent(before)) else Get(ms[i], key)
      {
        GetSet(ms[i], "content", CleanedContent(before), key);
      }
      PrunedIs(KeptTree(REMINDER, before));
    }
  }

  // ----- what pruning counts ------------------------------------------------

  /** The items of all arrays of a document, leaving out what is inside empty text blocks. */
  function Entries(v: Json): nat
    decreases v, 1
  {
    match v
    case Arr(items) => EntriesIn(items)
    case Obj(fields) => EntriesOf(fields)
    case _ => 0
  }

  function EntriesIn(items: seq<Json>): nat
    decreases items, 0
  {
    if items == [] then 0
    else 1 + (if IsEmptyTextBlock(items[0]) then 0 else Entries(items[0])) + EntriesIn(items[1..])
  }

  function EntriesOf(fields: seq<Field>): nat
    decreases fields, 0
  {
    if fields == [] then 0 else Entries(fields[0].value) + EntriesOf(fields[1..])
  }

  /** Entries before and placeholders put in are entries left and empty text blocks pruned. */
  lemma {:induction false} PruningAccounts(v: Json)
    ensures Entries(v) + Placeholders(v) == Entries(Pruned(v)) + EmptyTexts(v)
    decreases v, 1
  {
    match v
    case Arr(items) =>
      PruningAccountsIn(items);
      EmptiedIff(items);
      if PrunedItems(items) == [] && items != [] {
        PlaceholderEntries();
      }
    case Obj(fields) => PruningAccountsOf(fields);
    case _ =>
  }

  lemma {:induction false} TextsHaveNoEntries(fields: seq<Field>)
    requires forall f :: f in fields ==> f.value.Str?
    ensures EntriesOf(fields) == 0
  {
    if fields != [] {
      assert fields[0] in fields;
      TextsHaveNoEntries(fields[1..]);
    }
  }

  lemma PlaceholderEntries()
    ensures EntriesIn([PLACEHOLDER]) == 1
  {
    TextsHaveNoEntries(PLACEHOLDER.fields);
    PlaceholderIs();
    assert Entries(PLACEHOLDER) == EntriesOf(PLACEHOLDER.fields);
    assert [PLACEHOLDER][1..] == [];
  }

  lemma {:induction false} PruningAccountsIn(items: seq<Json>)
    ensures EntriesIn(items) + PlaceholdersIn(items) == EntriesIn(PrunedItems(items)) + EmptyTextsIn(items)
    decreases items, 0
  {
    if items != [] {
      EmptyTextIs(items[0]);
      PruningAccountsIn(items[1..]);
      if !IsEmptyText(items[0]) {
        PruningAccounts(items[0]);
        PrunedIsEmptyText(items[0]);
        EmptyTextIs(Pruned(items[0]));
        assert PrunedItems(items)[1..] == PrunedItems(items[1..]);
      } else {
        assert PrunedItems(items) == PrunedItems(items[1..]);
      }
    }
  }

  lemma {:induction false} PruningAccountsOf(fields: seq<Field>)
    ensures EntriesOf(fields) + PlaceholdersOf(fields) == EntriesOf(PrunedFields(fields)) + EmptyTextsOf(fields)
    decreases fields, 0
  {
    if fields != [] {
      PruningAccounts(fields[0].value);
      PruningAccountsOf(fields[1..]);
      assert PrunedFields(fields)[1..] == PrunedFields(fields[1..]);
    }
  }

  // ----- the statistics of the pass -----------------------------------------

  lemma KeptIsNoLonger(s: string)
    ensures TextLen(Kept(REMINDER, s)) <= TextLen(s)
  {
    var pieces := DecompositionExists(REMINDER, s, 0);
    DecompositionUnique(REMINDER, s, 0, pieces);
    DecompositionBytes(REMINDER, s, 0, pieces);
    assert s[0..] == s;
  }

  lemma {:induction false} KeptPayload(v: Json)
    ensures Payload(KeptTree(REMINDER, v)) <= Payload(v)
    decreases v, 1
  {
    match v
    case Str(s) => KeptIsNoLonger(s);
    case Arr(items) => KeptPayloadIn(items);
    case Obj(fields) => KeptPayloadOf(fields);
    case _ =>
  }

  lemma {:induction false} KeptPayloadIn(items: seq<Json>)
    ensures PayloadItems(KeptItems(REMINDER, items)) <= PayloadItems(items)
    decreases items, 0
  {
    if items != [] {
      KeptPayload(items[0]);
      KeptPayloadIn(items[1..]);
      assert KeptItems(REMINDER, items)[1..] == KeptItems(REMINDER, items[1..]);
    }
  }

  lemma {:induction false} KeptPayloadOf(fields: seq<Field>)
    ensures PayloadFields(KeptFields(REMINDER, fields)) <= PayloadFields(fields)
    decreases fields, 0
  {
    if fields != [] {
      KeptPayload(fields[0].value);
      KeptPayloadOf(fields[1..]);
      assert KeptFields(REMINDER, fields)[1..] == KeptFields(REMINDER, fields[1..]);
    }
  }

  /** The bytes of some texts. */
  function TextBytes(ss: seq<string>): nat {
    if ss == [] then 0 else TextLen(ss[0]) + TextBytes(ss[1..])
  }

  lemma {:induction false} TextBytesConcat(a: seq<string>, b: seq<string>)
    ensures TextBytes(a + b) == TextBytes(a) + TextBytes(b)
  {
    if a == [] {
      assert a + b == b;
    } else {
      assert (a + b)[1..] == a[1..] + b;
      TextBytesConcat(a[1..], b);
    }
  }

  lemma {:induction false} PayloadIsText(v: Json)
    ensures Payload(v) == TextBytes(Strings(v))
    decreases v, 1
  {
    match v
    case Str(s) => assert [s][1..] == [] && TextBytes([s]) == TextLen(s);
    case Arr(items) => PayloadIsTextIn(items);
    case Obj(fields) => PayloadIsTextOf(fields);
    case _ =>
  }

  lemma {:induction false} PayloadIsTextIn(items: seq<Json>)
    ensures PayloadItems(items) == TextBytes(StringsIn(items))
    decreases items, 0
  {
    if items != [] {
      PayloadIsText(items[0]);
      PayloadIsTextIn(items[1..]);
      TextBytesConcat(Strings(items[0]), StringsIn(items[1..]));
    }
  }

  lemma {:induction false} PayloadIsTextOf(fields: seq<Field>)
    ensures PayloadFields(fields) == TextBytes(StringsOf(fields))
    decreases fields, 0
  {
    if fields != [] {
      PayloadIsText(fields[0].value);
      PayloadIsTextOf(fields[1..]);
      TextBytesConcat(Strings(fields[0].value), StringsOf(fields[1..]));
    }
  }

  /**
   * Each message but the current turn adds the reminders it loses, the bytes of
   * text they had, the empty text blocks that go and the placeholders that come.
   */
  lemma StatsTell(ms: seq<Json>, i: nat)
    requires i < |ms|
    ensures StatsUpTo(ms, 0, ProtectedIdx(ms)) == ReminderStats(0, 0, 0, 0)
    ensures var t, u := StatsUpTo(ms, i, ProtectedIdx(ms)), StatsUpTo(ms, i + 1, ProtectedIdx(ms));
            if IsCurrentTurn(ms, i) || Reminders(ms[i]) == 0 then u == t
            else
              var before := Get(ms[i], "content").value;
              var kept := KeptTree(REMINDER, before);
              && u.blocksRemoved == t.blocksRemoved + AllCuts(REMINDER, Strings(before))
              && u.bytesRemoved + TextBytes(EachKept(REMINDER, Strings(before)))
                 == t.bytesRemoved + TextBytes(Strings(before))
              && u.emptyBlocksPruned == t.emptyBlocksPruned + EmptyTexts(kept)
              && u.placeholdersInserted ==
                 t.placeholdersInserted + (if kept == Str("") then 1 else Placeholders(kept))
  {
    ProtectedIsCurrent(ms, i);
    if !IsCurrentTurn(ms, i) && Reminders(ms[i]) > 0 {
      KeptPayload(Get(ms[i], "content").value);
      WalkIsByString(REMINDER, Get(ms[i], "content").value);
      PayloadIsText(Get(ms[i], "content").value);
      PayloadIsText(KeptTree(REMINDER, Get(ms[i], "content").value));
    }
  }
}
