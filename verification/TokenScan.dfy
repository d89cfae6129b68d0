/**
 * Leftmost, non-overlapping removal of tokens from a string.
 *
 * A token grammar is a function giving the length of the token that starts at
 * a position of a string, 0 when none does. Both string strippers are instances.
 */
module TokenScan {
  import opened Json

  type Grammar = tok: (string, nat) -> nat
    | forall s: string, i: nat :: tok(s, i) > 0 ==> i + tok(s, i) <= |s|
    witness (s: string, i: nat) => 0

  /** Does `w` stand in `s` at `i`? */
  predicate At(s: string, i: nat, w: string) {
    i + |w| <= |s| && forall k :: 0 <= k < |w| ==> s[i + k] == w[k]
  }

  lemma AtSlice(s: string, i: nat, w: string)
    requires i + |w| <= |s|
    ensures s[i..i + |w|] == w <==> At(s, i, w)
  {
    var cut := s[i..i + |w|];
    assert forall k :: 0 <= k < |w| ==> cut[k] == s[i + k];
  }

  // ----- the scan -----------------------------------------------------------

  /** What is left of `s` from position `i` on. */
  function KeptFrom(tok: Grammar, s: string, i: nat): string
    requires i <= |s|
    decreases |s| - i
  {
    if i == |s| then ""
    else if tok(s, i) > 0 then KeptFrom(tok, s, i + tok(s, i))
    else [s[i]] + KeptFrom(tok, s, i + 1)
  }

  /** How many tokens go from position `i` on. */
  function CutsFrom(tok: Grammar, s: string, i: nat): nat
    requires i <= |s|
    decreases |s| - i
  {
    if i == |s| then 0
    else if tok(s, i) > 0 then 1 + CutsFrom(tok, s, i + tok(s, i))
    else CutsFrom(tok, s, i + 1)
  }

  function Kept(tok: Grammar, s: string): string
  {
    KeptFrom(tok, s, 0)
  }

  function Cuts(tok: Grammar, s: string): nat
  {
    CutsFrom(tok, s, 0)
  }

  ghost predicate NoTokenIn(tok: Grammar, s: string, i: nat, n: nat)
    requires i <= n <= |s|
  {
    forall j :: i <= j < n ==> tok(s, j) == 0
  }

  /** A stretch in which no token starts is kept whole. */
  lemma {:induction false} KeptSkips(tok: Grammar, s: string, i: nat, n: nat)
    requires i <= n <= |s| && NoTokenIn(tok, s, i, n)
    ensures KeptFrom(tok, s, i) == s[i..n] + KeptFrom(tok, s, n)
    ensures CutsFrom(tok, s, i) == CutsFrom(tok, s, n)
    decreases n - i
  {
    if i < n {
      KeptSkips(tok, s, i + 1, n);
      SliceCons(s, i, n, KeptFrom(tok, s, n));
      assert tok(s, i) == 0;
    } else {
      assert s[i..n] == "";
    }
  }

  lemma SliceCons(s: string, i: nat, n: nat, rest: string)
    requires i < n <= |s|
    ensures [s[i]] + (s[i + 1..n] + rest) == s[i..n] + rest
  {
    assert [s[i]] + s[i + 1..n] == s[i..n];
  }

  /** The state of a scanning loop: `out` is emitted, `s[last..i]` is pending and token-free. */
  ghost predicate Scanning(tok: Grammar, s: string, out: string, last: nat, i: nat, count: nat) {
    && last <= i <= |s|
    && NoTokenIn(tok, s, last, i)
    && out + KeptFrom(tok, s, last) == Kept(tok, s)
    && count + CutsFrom(tok, s, last) == Cuts(tok, s)
    && (count == 0 ==> out == "" && last == 0)
  }

  lemma ScanKeeps(tok: Grammar, s: string, out: string, last: nat, i: nat, count: nat)
    requires Scanning(tok, s, out, last, i, count) && i < |s| && tok(s, i) == 0
    ensures Scanning(tok, s, out, last, i + 1, count)
  {
  }

  lemma ScanCuts(tok: Grammar, s: string, out: string, last: nat, i: nat, end: nat, count: nat)
    requires Scanning(tok, s, out, last, i, count) && i < end == i + tok(s, i)
    ensures end <= |s| && Scanning(tok, s, out + s[last..i], end, end, count + 1)
  {
    KeptSkips(tok, s, last, i);
    assert out + s[last..i] + KeptFrom(tok, s, i) == out + (s[last..i] + KeptFrom(tok, s, i));
  }

  lemma ScanEnds(tok: Grammar, s: string, out: string, last: nat, i: nat, count: nat)
    requires Scanning(tok, s, out, last, i, count) && NoTokenIn(tok, s, i, |s|)
    ensures out + s[last..] == Kept(tok, s) && count == Cuts(tok, s)
    ensures count == 0 ==> Kept(tok, s) == s
  {
    assert NoTokenIn(tok, s, last, |s|);
    KeptSkips(tok, s, last, |s|);
    assert s[last..|s|] + "" == s[last..];
  }

  // ----- what a decomposition is, independently of any scan -----------------

  datatype Piece = Keep(text: string) | Cut(text: string)

  /** The pieces tile `s` from `i`; a cut piece is the token that starts there, no token starts in a kept one. */
  ghost predicate Leftmost(tok: Grammar, s: string, i: nat, pieces: seq<Piece>)
    requires i <= |s|
    decreases pieces
  {
    if pieces == [] then i == |s|
    else
      var p := pieces[0];
      && 0 < |p.text| <= |s| - i
      && s[i..i + |p.text|] == p.text
      && (if p.Cut? then tok(s, i) == |p.text| else NoTokenIn(tok, s, i, i + |p.text|))
      && Leftmost(tok, s, i + |p.text|, pieces[1..])
  }

  function KeptText(pieces: seq<Piece>): string {
    if pieces == [] then ""
    else (if pieces[0].Keep? then pieces[0].text else "") + KeptText(pieces[1..])
  }

  function CutCount(pieces: seq<Piece>): nat {
    if pieces == [] then 0 else (if pieces[0].Cut? then 1 else 0) + CutCount(pieces[1..])
  }

  function CutBytes(pieces: seq<Piece>): nat {
    if pieces == [] then 0 else (if pieces[0].Cut? then TextLen(pieces[0].text) else 0) + CutBytes(pieces[1..])
  }

  // ----- the scan is the decomposition --------------------------------------

  lemma {:induction false} TextLenConcat(a: string, b: string)
    ensures TextLen(a + b) == TextLen(a) + TextLen(b)
  {
    if a == "" {
      assert a + b == b;
    } else {
      assert (a + b)[1..] == a[1..] + b;
      TextLenConcat(a[1..], b);
    }
  }

  lemma TextLenSplit(s: string, i: nat, j: nat)
    requires i <= j <= |s|
    ensures TextLen(s[i..]) == TextLen(s[i..j]) + TextLen(s[j..])
  {
    assert s[i..] == s[i..j] + s[j..];
    TextLenConcat(s[i..j], s[j..]);
  }

  /** Every leftmost decomposition keeps and cuts what the scan keeps and cuts. */
  lemma {:induction false} DecompositionUnique(tok: Grammar, s: string, i: nat, pieces: seq<Piece>)
    requires i <= |s| && Leftmost(tok, s, i, pieces)
    ensures KeptText(pieces) == KeptFrom(tok, s, i)
    ensures CutCount(pieces) == CutsFrom(tok, s, i)
    decreases pieces
  {
    if pieces != [] {
      var p, n := pieces[0], i + |pieces[0].text|;
      DecompositionUnique(tok, s, n, pieces[1..]);
      if p.Keep? {
        KeptSkips(tok, s, i, n);
      } else {
        assert KeptText(pieces) == KeptText(pieces[1..]);
      }
    }
  }

  /** A decomposition accounts for every byte. */
  lemma {:induction false} DecompositionBytes(tok: Grammar, s: string, i: nat, pieces: seq<Piece>)
    requires i <= |s| && Leftmost(tok, s, i, pieces)
    ensures TextLen(KeptText(pieces)) + CutBytes(pieces) == TextLen(s[i..])
    decreases pieces
  {
    if pieces != [] {
      var p, n := pieces[0], i + |pieces[0].text|;
      DecompositionBytes(tok, s, n, pieces[1..]);
      TextLenSplit(s, i, n);
      TextLenConcat(if p.Keep? then p.text else "", KeptText(pieces[1..]));
    }
  }

  /** Such a decomposition exists for every string. */
  lemma {:induction false} DecompositionExists(tok: Grammar, s: string, i: nat) returns (pieces: seq<Piece>)
    requires i <= |s|
    ensures Leftmost(tok, s, i, pieces)
    decreases |s| - i
  {
    if i == |s| {
      pieces := [];
    } else {
      var k := tok(s, i);
      var n := if k > 0 then i + k else i + 1;
      var rest := DecompositionExists(tok, s, n);
      pieces := [if k > 0 then Cut(s[i..n]) else Keep(s[i..n])] + rest;
      assert pieces[1..] == rest;
    }
  }

  lemma {:induction false} UncutString(tok: Grammar, s: string, i: nat)
    requires i <= |s| && CutsFrom(tok, s, i) == 0
    ensures KeptFrom(tok, s, i) == s[i..]
    decreases |s| - i
  {
    if i < |s| {
      UncutString(tok, s, i + 1);
    }
  }

  // ----- the same removal in every string of a document ---------------------

  function KeptTree(tok: Grammar, v: Json): Json
    decreases v, 1
  {
    match v
    case Str(s) => Str(Kept(tok, s))
    case Arr(items) => Arr(KeptItems(tok, items))
    case Obj(fields) => Obj(KeptFields(tok, fields))
    case _ => v
  }

  function KeptItems(tok: Grammar, items: seq<Json>): (r: seq<Json>)
    ensures |r| == |items|
    decreases items, 0
  {
    if items == [] then [] else [KeptTree(tok, items[0])] + KeptItems(tok, items[1..])
  }

  function KeptFields(tok: Grammar, fields: seq<Field>): (r: seq<Field>)
    ensures |r| == |fields|
    decreases fields, 0
  {
    if fields == [] then []
    else [Field(fields[0].key, KeptTree(tok, fields[0].value))] + KeptFields(tok, fields[1..])
  }

  function CutsTree(tok: Grammar, v: Json): nat
    decreases v, 1
  {
    match v
    case Str(s) => Cuts(tok, s)
    case Arr(items) => CutsItems(tok, items)
    case Obj(fields) => CutsFields(tok, fields)
    case _ => 0
  }

  function CutsItems(tok: Grammar, items: seq<Json>): nat
    decreases items, 0
  {
    if items == [] then 0 else CutsTree(tok, items[0]) + CutsItems(tok, items[1..])
  }

  function CutsFields(tok: Grammar, fields: seq<Field>): nat
    decreases fields, 0
  {
    if fields == [] then 0 else CutsTree(tok, fields[0].value) + CutsFields(tok, fields[1..])
  }

  /** A document no token was cut from is left exactly as it was. */
  lemma {:induction false} UncutTree(tok: Grammar, v: Json)
    requires CutsTree(tok, v) == 0
    ensures KeptTree(tok, v) == v
    decreases v, 1
  {
    match v
    case Str(s) => UncutString(tok, s, 0);
    case Arr(items) => UncutItems(tok, items);
    case Obj(fields) => UncutFields(tok, fields);
    case _ =>
  }

  lemma {:induction false} UncutItems(tok: Grammar, items: seq<Json>)
    requires CutsItems(tok, items) == 0
    ensures KeptItems(tok, items) == items
    decreases items, 0
  {
    if items != [] {
      UncutTree(tok, items[0]);
      UncutItems(tok, items[1..]);
    }
  }

  lemma {:induction false} UncutFields(tok: Grammar, fields: seq<Field>)
    requires CutsFields(tok, fields) == 0
    ensures KeptFields(tok, fields) == fields
    decreases fields, 0
  {
    if fields != [] {
      UncutTree(tok, fields[0].value);
      UncutFields(tok, fields[1..]);
    }
  }

  lemma {:induction false} KeptItemsSnoc(tok: Grammar, items: seq<Json>, v: Json)
    ensures KeptItems(tok, items + [v]) == KeptItems(tok, items) + [KeptTree(tok, v)]
    ensures CutsItems(tok, items + [v]) == CutsItems(tok, items) + CutsTree(tok, v)
  {
    if items == [] {
      assert [v][1..] == [];
    } else {
      assert (items + [v])[1..] == items[1..] + [v];
      KeptItemsSnoc(tok, items[1..], v);
    }
  }

  lemma {:induction false} KeptFieldsSnoc(tok: Grammar, fields: seq<Field>, f: Field)
    ensures KeptFields(tok, fields + [f]) == KeptFields(tok, fields) + [Field(f.key, KeptTree(tok, f.value))]
    ensures CutsFields(tok, fields + [f]) == CutsFields(tok, fields) + CutsTree(tok, f.value)
  {
    if fields == [] {
      assert [f][1..] == [];
    } else {
      assert (fields + [f])[1..] == fields[1..] + [f];
      KeptFieldsSnoc(tok, fields[1..], f);
    }
  }

  /** The walk touches values only: a field is found exactly where it was. */
  lemma {:induction false} KeptLookup(tok: Grammar, fields: seq<Field>, key: string)
    ensures Lookup(KeptFields(tok, fields), key).Some? <==> Lookup(fields, key).Some?
    ensures Lookup(fields, key).Some? ==>
              Lookup(KeptFields(tok, fields), key).value == KeptTree(tok, Lookup(fields, key).value)
  {
    if fields != [] && fields[0].key != key {
      assert KeptFields(tok, fields)[1..] == KeptFields(tok, fields[1..]);
      KeptLookup(tok, fields[1..], key);
    }
  }

  // ----- the strings of a document ------------------------------------------

  /** Every string value of a document, in order. */
  function Strings(v: Json): seq<string>
    decreases v, 1
  {
    match v
    case Str(s) => [s]
    case Arr(items) => StringsIn(items)
    case Obj(fields) => StringsOf(fields)
    case _ => []
  }

  function StringsIn(items: seq<Json>): seq<string>
    decreases items, 0
  {
    if items == [] then [] else Strings(items[0]) + StringsIn(items[1..])
  }

  function StringsOf(fields: seq<Field>): seq<string>
    decreases fields, 0
  {
    if fields == [] then [] else Strings(fields[0].value) + StringsOf(fields[1..])
  }

  function EachKept(tok: Grammar, ss: seq<string>): (r: seq<string>)
    ensures |r| == |ss| && forall i :: 0 <= i < |ss| ==> r[i] == Kept(tok, ss[i])
  {
    seq(|ss|, i requires 0 <= i < |ss| => Kept(tok, ss[i]))
  }

  function AllCuts(tok: Grammar, ss: seq<string>): nat {
    if ss == [] then 0 else Cuts(tok, ss[0]) + AllCuts(tok, ss[1..])
  }

  lemma {:induction false} CutsConcat(tok: Grammar, a: seq<string>, b: seq<string>)
    ensures AllCuts(tok, a + b) == AllCuts(tok, a) + AllCuts(tok, b)
    ensures EachKept(tok, a + b) == EachKept(tok, a) + EachKept(tok, b)
  {
    if a == [] {
      assert a + b == b;
    } else {
      assert (a + b)[1..] == a[1..] + b;
      CutsConcat(tok, a[1..], b);
    }
  }

  /** The walk cuts from each string of a document what the scan cuts from it alone, and counts all of it. */
  lemma {:induction false} WalkIsByString(tok: Grammar, v: Json)
    ensures Strings(KeptTree(tok, v)) == EachKept(tok, Strings(v)) && CutsTree(tok, v) == AllCuts(tok, Strings(v))
    decreases v, 1
  {
    match v
    case Str(s) =>
      assert [s][1..] == [] && AllCuts(tok, [s]) == Cuts(tok, s);
    case Arr(items) => WalkIsByStringIn(tok, items);
    case Obj(fields) => WalkIsByStringOf(tok, fields);
    case _ =>
  }

  lemma {:induction false} WalkIsByStringIn(tok: Grammar, items: seq<Json>)
    ensures StringsIn(KeptItems(tok, items)) == EachKept(tok, StringsIn(items))
    ensures CutsItems(tok, items) == AllCuts(tok, StringsIn(items))
    decreases items, 0
  {
    if items != [] {
      WalkIsByString(tok, items[0]);
      WalkIsByStringIn(tok, items[1..]);
      CutsConcat(tok, Strings(items[0]), StringsIn(items[1..]));
      assert KeptItems(tok, items)[1..] == KeptItems(tok, items[1..]);
    }
  }

  lemma {:induction false} WalkIsByStringOf(tok: Grammar, fields: seq<Field>)
    ensures StringsOf(KeptFields(tok, fields)) == EachKept(tok, StringsOf(fields))
    ensures CutsFields(tok, fields) == AllCuts(tok, StringsOf(fields))
    decreases fields, 0
  {
    if fields != [] {
      WalkIsByString(tok, fields[0].value);
      WalkIsByStringOf(tok, fields[1..]);
      CutsConcat(tok, Strings(fields[0].value), StringsOf(fields[1..]));
      assert KeptFields(tok, fields)[1..] == KeptFields(tok, fields[1..]);
    }
  }

  /** Two documents that differ in string values at most. */
  ghost predicate SameButStrings(v: Json, w: Json)
    decreases v
  {
    match v
    case Str(_) => w.Str?
    case Arr(items) =>
      w.Arr? && |w.items| == |items| && forall i :: 0 <= i < |items| ==> SameButStrings(items[i], w.items[i])
    case Obj(fields) =>
      && w.Obj? && |w.fields| == |fields|
      && forall i :: 0 <= i < |fields| ==>
           w.fields[i].key == fields[i].key && SameButStrings(fields[i].value, w.fields[i].value)
    case _ => w == v
  }

  /** The walk changes string values and nothing else. */
  lemma {:induction false} WalkKeepsShape(tok: Grammar, v: Json)
    ensures SameButStrings(v, KeptTree(tok, v))
    decreases v, 1
  {
    match v
    case Arr(items) => WalkKeepsItems(tok, items);
    case Obj(fields) => WalkKeepsFields(tok, fields);
    case _ =>
  }

  lemma {:induction false} WalkKeepsItems(tok: Grammar, items: seq<Json>)
    ensures forall i :: 0 <= i < |items| ==> SameButStrings(items[i], KeptItems(tok, items)[i])
    decreases items, 0
  {
    if items != [] {
      WalkKeepsShape(tok, items[0]);
      WalkKeepsItems(tok, items[1..]);
      assert KeptItems(tok, items)[1..] == KeptItems(tok, items[1..]);
    }
  }

  lemma {:induction false} WalkKeepsFields(tok: Grammar, fields: seq<Field>)
    ensures forall i :: 0 <= i < |fields| ==>
              && KeptFields(tok, fields)[i].key == fields[i].key
              && SameButStrings(fields[i].value, KeptFields(tok, fields)[i].value)
    decreases fields, 0
  {
    if fields != [] {
      WalkKeepsShape(tok, fields[0].value);
      WalkKeepsFields(tok, fields[1..]);
      assert KeptFields(tok, fields)[1..] == KeptFields(tok, fields[1..]);
    }
  }
}
