/** Removal of the volatile `cch=<hex>;` token from every string of a request. */
module BillingStrip {
  import opened Wrappers
  import opened Json
  import opened TokenScan

  const NEEDLE: string := "cch="

  predicate IsHex(c: char) {
    '0' <= c <= '9' || 'a' <= c <= 'f'
  }

  /** First position from `i` on that holds no hex digit. */
  function HexEnd(s: string, i: nat): (j: nat)
    requires i <= |s|
    ensures i <= j <= |s|
    ensures forall k :: i <= k < j ==> IsHex(s[k])
    ensures j < |s| ==> !IsHex(s[j])
    decreases |s| - i
  {
    if i < |s| && IsHex(s[i]) then HexEnd(s, i + 1) else i
  }

  /** Length of the billing token at `i`. */
  function TokenLen(s: string, i: nat): (n: nat)
    ensures n > 0 ==> i + n <= |s|
  {
    if At(s, i, NEEDLE) then
      var j := HexEnd(s, i + 4);
      if j > i + 4 && j < |s| && s[j] == ';' then j + 1 - i else 0
    else 0
  }

  const CCH: Grammar := (s: string, i: nat) => TokenLen(s, i)

  predicate HexDigit(c: char) {
    c in "0123456789abcdef"
  }

  /** `cch=`, at least one lowercase hex digit, `;`. */
  predicate InGrammar(w: string) {
    && |w| >= 6 && At(w, 0, "cch=") && w[|w| - 1] == ';'
    && forall j :: 4 <= j < |w| - 1 ==> HexDigit(w[j])
  }

  lemma HexIs(c: char)
    ensures IsHex(c) <==> HexDigit(c)
  {
    var digits := "0123456789abcdef";
    assert digits[0] == '0' && digits[1] == '1' && digits[2] == '2' && digits[3] == '3' && digits[4] == '4';
    assert digits[5] == '5' && digits[6] == '6' && digits[7] == '7' && digits[8] == '8' && digits[9] == '9';
    assert digits[10] == 'a' && digits[11] == 'b' && digits[12] == 'c' && digits[13] == 'd';
    assert digits[14] == 'e' && digits[15] == 'f';
  }

  lemma {:induction false} HexEndAt(s: string, i: nat, j: nat)
    requires i <= j <= |s| && (forall k :: i <= k < j ==> IsHex(s[k])) && (j < |s| ==> !IsHex(s[j]))
    ensures HexEnd(s, i) == j
    decreases j - i
  {
    if i < j {
      HexEndAt(s, i + 1, j);
    }
  }

  /** The scanner finds a token exactly where a word of the grammar stands, and takes that word. */
  lemma TokenLenIsGrammar(s: string, i: nat, n: nat)
    requires n > 0 && i + n <= |s|
    ensures TokenLen(s, i) == n <==> InGrammar(s[i..i + n])
  {
    var w := s[i..i + n];
    if InGrammar(w) {
      forall k | 0 <= k < 4 ensures s[i + k] == NEEDLE[k] {
        assert w[k] == NEEDLE[k];
      }
      forall k | i + 4 <= k < i + n - 1 ensures IsHex(s[k]) {
        assert w[k - i] == s[k];
        HexIs(s[k]);
      }
      HexEndAt(s, i + 4, i + n - 1);
    }
    if TokenLen(s, i) == n {
      forall j | 4 <= j < n - 1 ensures HexDigit(w[j]) {
        HexIs(s[i + j]);
      }
    }
  }

  /** The inner scan: where the token that starts at `i` ends, if one does. */
  method TokenEnd(s: string, i: nat) returns (end: Option<nat>)
    requires i + 4 <= |s|
    ensures end == if CCH(s, i) > 0 then Some(i + CCH(s, i)) else None
  {
    AtSlice(s, i, NEEDLE);
    if s[i..i + 4] != NEEDLE {
      return None;
    }
    var valueStart := i + 4;
    var j := valueStart;
    while j < |s| && IsHex(s[j])
      invariant valueStart <= j <= |s|
      invariant forall k :: valueStart <= k < j ==> IsHex(s[k])
    {
      j := j + 1;
    }
    HexEndAt(s, valueStart, j);
    return if j > valueStart && j < |s| && s[j] == ';' then Some(j + 1) else None;
  }

  lemma NoTokenNearEnd(s: string, i: nat)
    requires i <= |s| < i + 4
    ensures NoTokenIn(CCH, s, i, |s|)
  {
  }

  /** The two-index loop: `None` when nothing matched, otherwise the kept text and the number of tokens. */
  method StripTokensInStr(s: string) returns (r: Option<(string, nat)>)
    ensures r.None? ==> Cuts(CCH, s) == 0 && Kept(CCH, s) == s
    ensures r.Some? ==> r.value == (Kept(CCH, s), Cuts(CCH, s)) && r.value.1 > 0
  {
    var out, lastEmit, i := "", 0, 0;
    var count: nat := 0;
    while i + 4 <= |s|
      invariant 0 <= lastEmit <= i <= |s|
      invariant Scanning(CCH, s, out, lastEmit, i, count)
    {
      var end := TokenEnd(s, i);
      if end.Some? {
        ScanCuts(CCH, s, out, lastEmit, i, end.value, count);
        out := out + s[lastEmit..i];
        lastEmit, count, i := end.value, count + 1, end.value;
      } else {
        ScanKeeps(CCH, s, out, lastEmit, i, count);
        i := i + 1;
      }
    }
    NoTokenNearEnd(s, i);
    ScanEnds(CCH, s, out, lastEmit, i, count);
    return if count == 0 then None else Some((out + s[lastEmit..], count));
  }

  /** The recursive walk over a whole document. */
  method StripVolatileBillingTokens(value: Json) returns (stripped: Json, n: nat)
    ensures stripped == KeptTree(CCH, value) && n == CutsTree(CCH, value)
    decreases value, 1
  {
    stripped, n := value, 0;
    match value {
      case Str(s) =>
        var r := StripTokensInStr(s);
        if r.Some? {
          stripped, n := Str(r.value.0), r.value.1;
        }
      case Arr(items) =>
        var out;
        out, n := StripItems(items);
        stripped := Arr(out);
      case Obj(fields) =>
        var out;
        out, n := StripFields(fields);
        stripped := Obj(out);
      case _ =>
    }
  }

  method StripItems(items: seq<Json>) returns (out: seq<Json>, n: nat)
    ensures out == KeptItems(CCH, items) && n == CutsItems(CCH, items)
    decreases items, 0
  {
    out, n := [], 0;
    for i := 0 to |items|
      invariant out == KeptItems(CCH, items[..i]) && n == CutsItems(CCH, items[..i])
    {
      var v, k := StripVolatileBillingTokens(items[i]);
      KeptItemsSnoc(CCH, items[..i], items[i]);
      assert items[..i + 1] == items[..i] + [items[i]];
      out, n := out + [v], n + k;
    }
    assert items[..|items|] == items;
  }

  method StripFields(fields: seq<Field>) returns (out: seq<Field>, n: nat)
    ensures out == KeptFields(CCH, fields) && n == CutsFields(CCH, fields)
    decreases fields, 0
  {
    out, n := [], 0;
    for i := 0 to |fields|
      invariant out == KeptFields(CCH, fields[..i]) && n == CutsFields(CCH, fields[..i])
    {
      var v, k := StripVolatileBillingTokens(fields[i].value);
      KeptFieldsSnoc(CCH, fields[..i], fields[i]);
      assert fields[..i + 1] == fields[..i] + [fields[i]];
      out, n := out + [Field(fields[i].key, v)], n + k;
    }
    assert fields[..|fields|] == fields;
  }
}
