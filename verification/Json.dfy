/**
 * JSON documents as the proxy sees them after parsing, and the exact number of
 * bytes of their compact serialization.
 */
module Json {
  import opened Wrappers
  import Decimal

  /** An object is its fields in serialization order; a lookup finds the first match. */
  datatype Json =
    | Null
    | Bool(b: bool)
    | Int(n: int)
    | Float(text: string)
    | Str(s: string)
    | Arr(items: seq<Json>)
    | Obj(fields: seq<Field>)

  datatype Field = Field(key: string, value: Json)

  // ----- lookups and updates ------------------------------------------------

  function Lookup(fields: seq<Field>, key: string): (r: Option<Json>) {
    if fields == [] then None
    else if fields[0].key == key then Some(fields[0].value)
    else Lookup(fields[1..], key)
  }

  function Get(v: Json, key: string): Option<Json> {
    if v.Obj? then Lookup(v.fields, key) else None
  }

  function AsStr(v: Option<Json>): Option<string> {
    if v.Some? && v.value.Str? then Some(v.value.s) else None
  }

  function AsArr(v: Option<Json>): Option<seq<Json>> {
    if v.Some? && v.value.Arr? then Some(v.value.items) else None
  }

  function Replace(fields: seq<Field>, key: string, x: Json): (r: seq<Field>) {
    if fields == [] then [Field(key, x)]
    else if fields[0].key == key then [Field(key, x)] + fields[1..]
    else [fields[0]] + Replace(fields[1..], key, x)
  }

  /** Insert-or-overwrite; anything but an object is left alone. */
  function Set(v: Json, key: string, x: Json): Json {
    if v.Obj? then Obj(Replace(v.fields, key, x)) else v
  }

  lemma {:induction false} LookupReplace(fields: seq<Field>, key: string, x: Json, other: string)
    ensures Lookup(Replace(fields, key, x), other) == if other == key then Some(x) else Lookup(fields, other)
  {
    if fields == [] {
      assert Replace(fields, key, x)[1..] == [];
    } else if fields[0].key == key {
      assert Replace(fields, key, x)[1..] == fields[1..];
    } else {
      assert Replace(fields, key, x)[1..] == Replace(fields[1..], key, x);
      LookupReplace(fields[1..], key, x, other);
    }
  }

  /** Reading back a written field gives the written value, and no other field moves. */
  lemma GetSet(v: Json, key: string, x: Json, other: string)
    requires v.Obj?
    ensures Get(Set(v, key, x), other) == if other == key then Some(x) else Get(v, other)
  {
    LookupReplace(v.fields, key, x, other);
  }

  // ----- serialized size ----------------------------------------------------

  /** Bytes of one character of a string in UTF-8. */
  function Utf8Len(c: char): (r: nat)
    ensures 1 <= r <= 4
  {
    if c as int < 0x80 then 1
    else if c as int < 0x800 then 2
    else if c as int < 0x1_0000 then 3
    else 4
  }

  function TextLen(s: string): (r: nat)
    ensures r >= |s|
  {
    if s == [] then 0 else Utf8Len(s[0]) + TextLen(s[1..])
  }

  /** Bytes of one character inside a JSON string literal. */
  function EscapedLen(c: char): (r: nat)
    ensures 1 <= r <= 6
  {
    if c == '\"' || c == '\\' || c == '\n' || c == '\r' || c == '\t' || c as int == 8 || c as int == 12 then 2
    else if c as int < 0x20 then 6
    else Utf8Len(c)
  }

  function LiteralLen(s: string): (r: nat)
    ensures |s| <= r <= 6 * |s|
  {
    if s == [] then 0 else EscapedLen(s[0]) + LiteralLen(s[1..])
  }

  /** Length of the compact serialization. */
  function Size(v: Json): (r: nat)
    decreases v, 1
  {
    match v
    case Null => 4
    case Bool(b) => if b then 4 else 5
    case Int(n) => if n < 0 then 1 + Decimal.Length(-n) else Decimal.Length(n)
    case Float(text) => TextLen(text)
    case Str(s) => 2 + LiteralLen(s)
    case Arr(items) => 2 + Commas(|items|) + ItemsSize(items)
    case Obj(fields) => 2 + Commas(|fields|) + FieldsSize(fields)
  }

  function Commas(n: nat): nat {
    if n == 0 then 0 else n - 1
  }

  function ItemsSize(items: seq<Json>): (r: nat)
    decreases items, 0
  {
    if items == [] then 0 else Size(items[0]) + ItemsSize(items[1..])
  }

  function FieldsSize(fields: seq<Field>): (r: nat)
    decreases fields, 0
  {
    if fields == [] then 0
    else 2 + LiteralLen(fields[0].key) + 1 + Size(fields[0].value) + FieldsSize(fields[1..])
  }

  lemma {:induction false} ItemsSizeConcat(a: seq<Json>, b: seq<Json>)
    ensures ItemsSize(a + b) == ItemsSize(a) + ItemsSize(b)
  {
    if a == [] {
      assert a + b == b;
    } else {
      assert (a + b)[1..] == a[1..] + b;
      ItemsSizeConcat(a[1..], b);
    }
  }

  /** Replacing one element changes the total by exactly the difference of the two elements. */
  lemma ItemsSizeUpdate(items: seq<Json>, i: nat, x: Json)
    requires i < |items|
    ensures ItemsSize(items[i := x]) == ItemsSize(items) - Size(items[i]) + Size(x)
  {
    var tail := items[i + 1..];
    assert items == items[..i] + ([items[i]] + tail);
    assert items[i := x] == items[..i] + ([x] + tail);
    ItemsSizeConcat(items[..i], [items[i]] + tail);
    ItemsSizeConcat(items[..i], [x] + tail);
    assert ([items[i]] + tail)[1..] == tail && ([x] + tail)[1..] == tail;
  }

  lemma {:induction false} FieldsSizeReplace(fields: seq<Field>, key: string, x: Json)
    requires Lookup(fields, key).Some?
    ensures |Replace(fields, key, x)| == |fields|
    ensures FieldsSize(Replace(fields, key, x)) == FieldsSize(fields) - Size(Lookup(fields, key).value) + Size(x)
  {
    if fields[0].key == key {
      assert Replace(fields, key, x)[1..] == fields[1..];
    } else {
      assert Replace(fields, key, x)[1..] == Replace(fields[1..], key, x);
      FieldsSizeReplace(fields[1..], key, x);
    }
  }

  /** Overwriting a present field changes the size by exactly the difference of the two values. */
  lemma SizeSet(v: Json, key: string, x: Json)
    requires Get(v, key).Some?
    ensures Size(Set(v, key, x)) == Size(v) - Size(Get(v, key).value) + Size(x)
  {
    FieldsSizeReplace(v.fields, key, x);
  }

  /** The size of an array determines, and is determined by, the sizes of what it holds. */
  lemma SizeArrUpdate(items: seq<Json>, i: nat, x: Json)
    requires i < |items|
    ensures Size(Arr(items[i := x])) == Size(Arr(items)) - Size(items[i]) + Size(x)
  {
    ItemsSizeUpdate(items, i, x);
  }

  /** An overwritten field with the value it already had leaves the object as it was. */
  lemma {:induction false} ReplaceSame(fields: seq<Field>, key: string)
    requires Lookup(fields, key).Some?
    ensures Replace(fields, key, Lookup(fields, key).value) == fields
  {
    if fields[0].key != key {
      ReplaceSame(fields[1..], key);
    }
  }

  /** Of two writes to one field only the second is visible. */
  lemma {:induction false} ReplaceTwice(fields: seq<Field>, key: string, x: Json, y: Json)
    ensures Replace(Replace(fields, key, x), key, y) == Replace(fields, key, y)
  {
    if fields == [] {
    } else if fields[0].key == key {
      assert Replace(fields, key, x)[1..] == fields[1..];
    } else {
      assert Replace(fields, key, x)[1..] == Replace(fields[1..], key, x);
      ReplaceTwice(fields[1..], key, x, y);
    }
  }
}
