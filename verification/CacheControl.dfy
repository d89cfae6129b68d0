/**
 * Cache breakpoints: the TTL the proxy gives its own marker, the block it
 * appends to the system prompt, and the order of TTLs that results.
 */
module CacheControl {
  import opened Wrappers
  import opened Json
  import opened Messages
  import opened TokenScan
  import opened WritePolicy

  const CACHE_CONTROL_LIMIT: nat := 4
  const HEADER_MARKER: string := "# ostk-cache kernel orientation"

  // ----- markers ------------------------------------------------------------

  /** Does this object carry a breakpoint, and is it a one-hour one? */
  function OwnMarker(v: Json): seq<bool> {
    var cc := Get(v, "cache_control");
    if cc.None? then [] else [AsStr(Get(cc.value, "ttl")) == Some("1h")]
  }

  /** The breakpoints of a document in document order; true for one hour, false for anything shorter. */
  function Markers(v: Json): seq<bool>
    decreases v, 1
  {
    match v
    case Arr(items) => MarkersIn(items)
    case Obj(fields) => OwnMarker(v) + MarkersOf(fields)
    case _ => []
  }

  function MarkersIn(items: seq<Json>): seq<bool>
    decreases items, 0
  {
    if items == [] then [] else Markers(items[0]) + MarkersIn(items[1..])
  }

  function MarkersOf(fields: seq<Field>): seq<bool>
    decreases fields, 0
  {
    if fields == [] then [] else Markers(fields[0].value) + MarkersOf(fields[1..])
  }

  /** The source's search for a one-hour breakpoint anywhere in a document. */
  predicate Has1hMarker(v: Json)
    decreases v, 1
  {
    match v
    case Arr(items) => AnyHas1h(items)
    case Obj(fields) => OwnMarker(v) == [true] || AnyFieldHas1h(fields)
    case _ => false
  }

  predicate AnyHas1h(items: seq<Json>)
    decreases items, 0
  {
    items != [] && (Has1hMarker(items[0]) || AnyHas1h(items[1..]))
  }

  predicate AnyFieldHas1h(fields: seq<Field>)
    decreases fields, 0
  {
    fields != [] && (Has1hMarker(fields[0].value) || AnyFieldHas1h(fields[1..]))
  }

  lemma {:induction false} Has1hIsMember(v: Json)
    ensures Has1hMarker(v) <==> true in Markers(v)
    decreases v, 1
  {
    match v
    case Arr(items) => Has1hIsMemberIn(items);
    case Obj(fields) => Has1hIsMemberOf(fields);
    case _ =>
  }

  lemma {:induction false} Has1hIsMemberIn(items: seq<Json>)
    ensures AnyHas1h(items) <==> true in MarkersIn(items)
    decreases items, 0
  {
    if items != [] {
      Has1hIsMember(items[0]);
      Has1hIsMemberIn(items[1..]);
    }
  }

  lemma {:induction false} Has1hIsMemberOf(fields: seq<Field>)
    ensures AnyFieldHas1h(fields) <==> true in MarkersOf(fields)
    decreases fields, 0
  {
    if fields != [] {
      Has1hIsMember(fields[0].value);
      Has1hIsMemberOf(fields[1..]);
    }
  }

  function MarkersAt(v: Json, key: string): seq<bool> {
    if Get(v, key).Some? then Markers(Get(v, key).value) else []
  }

  /** The breakpoints in the order the API reads them. */
  function WireMarkers(v: Json): seq<bool> {
    MarkersAt(v, "tools") + MarkersAt(v, "system") + MarkersAt(v, "messages")
  }

  /** TTLs never increase: no one-hour breakpoint after a shorter one. */
  predicate NonIncreasing(ms: seq<bool>) {
    forall i, j :: 0 <= i < j < |ms| ==> (ms[j] ==> ms[i])
  }

  predicate AllLong(ms: seq<bool>) {
    forall i :: 0 <= i < |ms| ==> ms[i]
  }

  // ----- the clamp ----------------------------------------------------------

  /** A policy tier is raised when the harness pinned an hour anywhere in the messages. */
  function ClampTtl(v: Json, ttl: TtlTier): TtlTier {
    if ttl != Ephemeral1h && Get(v, "messages").Some? && Has1hMarker(Get(v, "messages").value) then Ephemeral1h else ttl
  }

  // ----- the orientation block ----------------------------------------------

  predicate Contains(s: string, w: string) {
    exists i :: 0 <= i <= |s| && At(s, i, w)
  }

  function TextBlock(text: string): Json {
    Obj([Field("type", Str("text")), Field("text", Str(text))])
  }

  function MarkedBlock(text: string, ttl: TtlTier): Json {
    Obj([Field("type", Str("text")), Field("text", Str(text)),
         Field("cache_control", Obj([Field("type", Str("ephemeral")), Field("ttl", Str(ttl.Wire()))]))])
  }

  predicate IsOrientation(b: Json) {
    AsStr(Get(b, "text")).Some? && Contains(AsStr(Get(b, "text")).value, HEADER_MARKER)
  }

  /** Is there a system field this pass will extend? */
  predicate Extends(v: Json) {
    match Get(v, "system")
    case None => true
    case Some(Arr(items)) => forall b :: b in items ==> !IsOrientation(b)
    case Some(Str(s)) => !Contains(s, HEADER_MARKER)
    case Some(_) => false
  }

  predicate HasBudget(v: Json) {
    |Markers(v)| < CACHE_CONTROL_LIMIT
  }

  function NewBlock(v: Json, orientation: string, ttl: TtlTier): Json {
    if HasBudget(v) then MarkedBlock(orientation, ttl) else TextBlock(orientation)
  }

  function NewSystem(v: Json, orientation: string, ttl: TtlTier): seq<Json> {
    var block := NewBlock(v, orientation, ttl);
    match Get(v, "system")
    case Some(Arr(items)) => items + [block]
    case Some(Str(s)) => [TextBlock(s), block]
    case _ => [block]
  }

  /** What a body takes a field by: an object, or null, which becomes one. Anything else panics. */
  predicate TakesField(v: Json) {
    v.Obj? || v.Null?
  }

  function AsObject(v: Json): Json {
    if v.Null? then Obj([]) else v
  }

  function Oriented(v: Json, orientation: string, ttl: TtlTier): Json {
    if Extends(v) then Set(AsObject(v), "system", Arr(NewSystem(v, orientation, ttl))) else v
  }

  /** Appends in place; true when a block was appended. */
  method AppendKernelOrientation(req: Request, orientation: string, ttl: TtlTier) returns (appended: bool)
    requires TakesField(req.body)
    modifies req
    ensures req.body == Oriented(old(req.body), orientation, ttl)
    ensures appended == Extends(old(req.body))
  {
    var withCacheControl := |Markers(req.body)| < CACHE_CONTROL_LIMIT;
    var newBlock := if withCacheControl then MarkedBlock(orientation, ttl) else TextBlock(orientation);
    var system := Get(req.body, "system");
    if system.None? {
      req.body := Set(AsObject(req.body), "system", Arr([newBlock]));
      return true;
    }
    match system.value {
      case Arr(items) =>
        if exists b :: b in items && IsOrientation(b) {
          return false;
        }
        req.body := Set(req.body, "system", Arr(items + [newBlock]));
        return true;
      case Str(s) =>
        if Contains(s, HEADER_MARKER) {
          return false;
        }
        req.body := Set(req.body, "system", Arr([TextBlock(s), newBlock]));
        return true;
      case _ =>
        return false;
    }
  }

  // ----- what appending does to the markers ---------------------------------

  lemma {:induction false} StringFieldsUnmarked(fields: seq<Field>)
    requires forall f :: f in fields ==> f.value.Str? && f.key != "cache_control"
    ensures MarkersOf(fields) == [] && Lookup(fields, "cache_control").None?
  {
    if fields != [] {
      assert fields[0] in fields;
      StringFieldsUnmarked(fields[1..]);
      assert Markers(fields[0].value) == [];
    }
  }

  lemma SecondField(a: Field, b: Field, rest: seq<Field>, key: string)
    requires a.key != key
    ensures Lookup([a, b] + rest, key) == if b.key == key then Some(b.value) else Lookup(rest, key)
  {
    assert ([a, b] + rest)[1..] == [b] + rest && ([b] + rest)[1..] == rest;
  }

  lemma BlockMarkers(text: string, ttl: TtlTier)
    ensures Markers(TextBlock(text)) == []
    ensures Markers(MarkedBlock(text, ttl)) == [ttl == Ephemeral1h]
    ensures AsStr(Get(TextBlock(text), "text")) == Some(text)
      && AsStr(Get(MarkedBlock(text, ttl), "text")) == Some(text)
  {
    var t, m := TextBlock(text).fields, MarkedBlock(text, ttl).fields;
    StringFieldsUnmarked(t);
    var c := m[2].value.fields;
    StringFieldsUnmarked(c);
    assert c == c + [] && t == t + [] && m == [m[0], m[1]] + [m[2]];
    SecondField(c[0], c[1], [], "ttl");
    SecondField(t[0], t[1], [], "text");
    SecondField(m[0], m[1], [m[2]], "text");
    SecondField(m[0], m[1], [m[2]], "cache_control");
    assert OwnMarker(MarkedBlock(text, ttl)) == [ttl == Ephemeral1h];
    assert Markers(m[2].value) == [];
    assert m[1..] == [m[1], m[2]] && [m[1], m[2]][1..] == [m[2]] && [m[2]][1..] == [];
    assert MarkersOf([m[2]]) == [] && MarkersOf(m[1..]) == [] && MarkersOf(m) == [];
  }

  lemma {:induction false} MarkersInSnoc(items: seq<Json>, b: Json)
    ensures MarkersIn(items + [b]) == MarkersIn(items) + Markers(b)
  {
    if items == [] {
      assert [b][1..] == [] && items + [b] == [b];
    } else {
      assert (items + [b])[1..] == items[1..] + [b];
      MarkersInSnoc(items[1..], b);
    }
  }

  /** What a system field turns into gains the new block's marker at its end. */
  lemma NewSystemMarkers(v: Json, orientation: string, ttl: TtlTier)
    requires Extends(v)
    ensures MarkersIn(NewSystem(v, orientation, ttl))
         == MarkersAt(v, "system") + if HasBudget(v) then [ttl == Ephemeral1h] else []
  {
    var block := NewBlock(v, orientation, ttl);
    BlockMarkers(orientation, ttl);
    match Get(v, "system")
    case Some(Arr(items)) => MarkersInSnoc(items, block);
    case Some(Str(s)) =>
      BlockMarkers(s, ttl);
      MarkersInSnoc([TextBlock(s)], block);
      MarkersInSnoc([], TextBlock(s));
      assert [TextBlock(s), block] == [TextBlock(s)] + [block] && [TextBlock(s)] == [] + [TextBlock(s)];
    case None =>
      MarkersInSnoc([], block);
      assert [block] == [] + [block];
  }

  /** In wire order the new marker stands between the system's markers and the messages'. */
  lemma OrientedWire(v: Json, orientation: string, ttl: TtlTier)
    requires TakesField(v)
    ensures Extends(v) && HasBudget(v) ==>
              WireMarkers(Oriented(v, orientation, ttl))
              == MarkersAt(v, "tools") + MarkersAt(v, "system") + [ttl == Ephemeral1h] + MarkersAt(v, "messages")
    ensures !(Extends(v) && HasBudget(v)) ==> WireMarkers(Oriented(v, orientation, ttl)) == WireMarkers(v)
  {
    if Extends(v) {
      OrientedFields(v, orientation, ttl);
      NewSystemMarkers(v, orientation, ttl);
      var mark := if HasBudget(v) then [ttl == Ephemeral1h] else [];
      Regroup(MarkersAt(v, "tools"), MarkersAt(v, "system"), mark, MarkersAt(v, "messages"));
    }
  }

  lemma OrientedFields(v: Json, orientation: string, ttl: TtlTier)
    requires TakesField(v) && Extends(v)
    ensures var out := Oriented(v, orientation, ttl);
      && MarkersAt(out, "system") == MarkersIn(NewSystem(v, orientation, ttl))
      && MarkersAt(out, "tools") == MarkersAt(v, "tools") && MarkersAt(out, "messages") == MarkersAt(v, "messages")
  {
    var system := Arr(NewSystem(v, orientation, ttl));
    GetSet(AsObject(v), "system", system, "system");
    GetSet(AsObject(v), "system", system, "tools");
    GetSet(AsObject(v), "system", system, "messages");
  }

  lemma Regroup(tools: seq<bool>, sys: seq<bool>, mark: seq<bool>, msgs: seq<bool>)
    ensures tools + (sys + mark) + msgs == tools + sys + mark + msgs
    ensures mark == [] ==> tools + (sys + mark) + msgs == tools + sys + msgs
  {
    assert tools + (sys + mark) == tools + sys + mark;
  }

  /**
   * A tier of five minutes, clamped, never breaks the TTL order. An hour that
   * was asked for keeps it exactly when tools and system hold nothing shorter,
   * or no marker is added.
   */
  lemma OrientationKeepsOrder(v: Json, orientation: string, asked: TtlTier)
    requires TakesField(v) && NonIncreasing(WireMarkers(v))
    ensures var out := Oriented(v, orientation, ClampTtl(v, asked));
            && (asked == Ephemeral5m ==> NonIncreasing(WireMarkers(out)))
            && (asked == Ephemeral1h ==>
                  (NonIncreasing(WireMarkers(out)) <==>
                     !Extends(v) || !HasBudget(v) || AllLong(MarkersAt(v, "tools") + MarkersAt(v, "system"))))
  {
    var ttl := ClampTtl(v, asked);
    OrientedWire(v, orientation, ttl);
    if Get(v, "messages").Some? {
      Has1hIsMember(Get(v, "messages").value);
    }
    if Extends(v) && HasBudget(v) {
      InsertOrder(MarkersAt(v, "tools") + MarkersAt(v, "system"), ttl == Ephemeral1h, MarkersAt(v, "messages"));
    }
  }

  /** Inserting one marker into an ordered list. */
  lemma InsertOrder(before: seq<bool>, long: bool, after: seq<bool>)
    requires NonIncreasing(before + after)
    ensures NonIncreasing(before + [long] + after) <==> if long then AllLong(before) else true !in after
    ensures true in after ==> AllLong(before)
  {
    var a, b := before + after, before + [long] + after;
    forall i, j | 0 <= i < |before| && 0 <= j < |after| ensures after[j] ==> before[i] {
      assert a[i] == before[i] && a[|before| + j] == after[j];
    }
    if NonIncreasing(b) {
      forall i | 0 <= i < |before| ensures long ==> before[i] {
        assert b[i] == before[i] && b[|before|] == long;
      }
      forall j | 0 <= j < |after| ensures after[j] ==> long {
        assert b[|before| + 1 + j] == after[j] && b[|before|] == long;
      }
    }
    if if long then AllLong(before) else true !in after {
      forall i, j | 0 <= i < j < |b| ensures b[j] ==> b[i] {
        var i' := if i <= |before| then i else i - 1;
        var j' := if j <= |before| then j else j - 1;
        if i != |before| && j != |before| {
          assert a[i'] == b[i] && a[j'] == b[j];
        }
      }
    }
  }

  // ----- the marker limit ---------------------------------------------------

  lemma {:induction false} MarkersOfReplace(fields: seq<Field>, key: string, x: Json)
    ensures |MarkersOf(Replace(fields, key, x))|
         == |MarkersOf(fields)| + |Markers(x)|
          - if Lookup(fields, key).Some? then |Markers(Lookup(fields, key).value)| else 0
  {
    if fields == [] {
      assert [Field(key, x)][1..] == [] && |MarkersOf([Field(key, x)][1..])| == 0;
    } else if fields[0].key == key {
      assert Replace(fields, key, x)[1..] == fields[1..];
    } else {
      assert Replace(fields, key, x)[1..] == Replace(fields[1..], key, x);
      MarkersOfReplace(fields[1..], key, x);
    }
  }

  /** A request within the limit of four markers stays within it. */
  lemma OrientationKeepsLimit(v: Json, orientation: string, ttl: TtlTier)
    requires TakesField(v)
    ensures |Markers(Oriented(v, orientation, ttl))| == |Markers(v)| + if Extends(v) && HasBudget(v) then 1 else 0
    ensures |Markers(v)| <= 4 ==> |Markers(Oriented(v, orientation, ttl))| <= 4
  {
    if Extends(v) {
      var system := Arr(NewSystem(v, orientation, ttl));
      NewSystemMarkers(v, orientation, ttl);
      MarkersOfReplace(AsObject(v).fields, "system", system);
      GetSet(AsObject(v), "system", system, "cache_control");
    }
  }

  /** Appending is idempotent: the second pass finds the block. */
  lemma OrientationIdempotent(v: Json, orientation: string, ttl: TtlTier, again: TtlTier)
    requires TakesField(v) && Contains(orientation, HEADER_MARKER)
    ensures !Extends(Oriented(v, orientation, ttl))
    ensures Oriented(Oriented(v, orientation, ttl), orientation, again) == Oriented(v, orientation, ttl)
  {
    if Extends(v) {
      var blocks := NewSystem(v, orientation, ttl);
      BlockMarkers(orientation, ttl);
      GetSet(AsObject(v), "system", Arr(blocks), "system");
      assert blocks[|blocks| - 1] == NewBlock(v, orientation, ttl) && IsOrientation(blocks[|blocks| - 1]);
    }
  }

  // ----- the append, field by field -----------------------------------------

  /** The text carries the header of the orientation. */
  ghost predicate CarriesHeader(text: string) {
    exists before: string, after: string :: text == before + "# ostk-cache kernel orientation" + after
  }

  lemma HeaderIsContained(text: string)
    ensures CarriesHeader(text) <==> Contains(text, HEADER_MARKER)
  {
    if CarriesHeader(text) {
      var before: string, after: string :| text == before + "# ostk-cache kernel orientation" + after;
      assert text[|before|..|before| + |HEADER_MARKER|] == HEADER_MARKER;
      AtSlice(text, |before|, HEADER_MARKER);
    }
    if Contains(text, HEADER_MARKER) {
      var i :| 0 <= i <= |text| && At(text, i, HEADER_MARKER);
      AtSlice(text, i, HEADER_MARKER);
      assert text == text[..i] + HEADER_MARKER + text[i + |HEADER_MARKER|..];
    }
  }

  predicate IsTextBlock(b: Json, text: string) {
    Get(b, "type") == Some(Str("text")) && Get(b, "text") == Some(Str(text))
  }

  /** The marker of a block, a one-hour or a five-minute one; or no marker. */
  predicate HasMarker(b: Json, ttl: Option<string>) {
    match (Get(b, "cache_control"), ttl)
    case (Some(c), Some(t)) => Get(c, "type") == Some(Str("ephemeral")) && Get(c, "ttl") == Some(Str(t))
    case (None, None) => true
    case _ => false
  }

  lemma BlockFields(text: string, ttl: TtlTier)
    ensures IsTextBlock(TextBlock(text), text) && HasMarker(TextBlock(text), None)
    ensures IsTextBlock(MarkedBlock(text, ttl), text)
    ensures HasMarker(MarkedBlock(text, ttl), Some(if ttl == Ephemeral1h then "1h" else "5m"))
  {
    var t, m := TextBlock(text).fields, MarkedBlock(text, ttl).fields;
    var c := m[2].value.fields;
    assert c == c + [] && t == t + [] && m == [m[0], m[1]] + [m[2]];
    SecondField(c[0], c[1], [], "ttl");
    SecondField(t[0], t[1], [], "text");
    SecondField(t[0], t[1], [], "cache_control");
    SecondField(m[0], m[1], [m[2]], "text");
    SecondField(m[0], m[1], [m[2]], "cache_control");
  }

  /** What the system prompt held, in blocks: its own, or a text block with its text. */
  ghost predicate IsFormer(system: Option<Json>, blocks: seq<Json>) {
    match system
    case None => blocks == []
    case Some(Arr(items)) => blocks == items
    case Some(Str(text)) => |blocks| == 1 && IsTextBlock(blocks[0], text) && HasMarker(blocks[0], None)
    case Some(_) => false
  }

  /** Some text of the system prompt carries the header already. */
  ghost predicate AlreadyOriented(system: Option<Json>) {
    match system
    case Some(Arr(items)) =>
      exists b, text :: b in items && Get(b, "text") == Some(Str(text)) && CarriesHeader(text)
    case Some(Str(text)) => CarriesHeader(text)
    case _ => false
  }

  /** The prompt is none, a text or a list of blocks, and is not oriented yet. */
  ghost predicate TakesBlock(system: Option<Json>) {
    !AlreadyOriented(system) && (system.None? || system.value.Arr? || system.value.Str?)
  }

  lemma ExtendsIff(v: Json)
    ensures Extends(v) <==> TakesBlock(Get(v, "system"))
  {
    match Get(v, "system")
    case Some(Arr(items)) =>
      if b :| b in items && IsOrientation(b) {
        HeaderIsContained(AsStr(Get(b, "text")).value);
        assert Get(b, "text") == Some(Str(AsStr(Get(b, "text")).value));
      }
      if b, text :| b in items && Get(b, "text") == Some(Str(text)) && CarriesHeader(text) {
        HeaderIsContained(text);
        assert IsOrientation(b);
      }
    case Some(Str(text)) => HeaderIsContained(text);
    case _ =>
  }

  /**
   * The append leaves the request alone when the orientation is there already or
   * the system prompt has another shape; else all the prompt held is still there,
   * in order, followed by the orientation, with a marker of the asked lifetime
   * while the request holds fewer than four.
   */
  lemma OrientationIs(v: Json, orientation: string, ttl: TtlTier) returns (former: seq<Json>, block: Json)
    requires TakesField(v)
    ensures !TakesBlock(Get(v, "system")) ==> Oriented(v, orientation, ttl) == v
    ensures TakesBlock(Get(v, "system")) ==>
              && Oriented(v, orientation, ttl) == Set(if v.Obj? then v else Obj([]), "system", Arr(former + [block]))
              && IsFormer(Get(v, "system"), former) && IsTextBlock(block, orientation)
              && HasMarker(block, if |Markers(v)| >= 4 then None else Some(if ttl == Ephemeral1h then "1h" else "5m"))
  {
    former, block := [], NewBlock(v, orientation, ttl);
    ExtendsIff(v);
    BlockFields(orientation, ttl);
    if Extends(v) {
      match Get(v, "system") {
        case Some(Arr(items)) => former := items;
        case Some(Str(text)) =>
          former := [TextBlock(text)];
          BlockFields(text, ttl);
        case None =>
      }
      assert NewSystem(v, orientation, ttl) == former + [block];
    }
  }
}
