/**
 * What the billing strip is for: the client gives the tokens in a history new
 * values before every call, and what is left after the strip is the same.
 */
module BillingRewrite {
  import opened Json
  import opened TokenScan
  import opened BillingStrip

  /** A new token for the one that starts at each position. */
  type Renaming = nat -> string

  ghost predicate AllTokens(w: Renaming) {
    forall i: nat :: InGrammar(w(i))
  }

  /** The text from `i` on with every token replaced. */
  function Renamed(tok: Grammar, s: string, i: nat, w: Renaming): string
    requires i <= |s|
    decreases |s| - i
  {
    if i == |s| then ""
    else if tok(s, i) > 0 then w(i) + Renamed(tok, s, i + tok(s, i), w)
    else [s[i]] + Renamed(tok, s, i + 1, w)
  }

  // ----- tokens look ahead only ---------------------------------------------

  lemma {:induction false} HexEndShift(p: string, s: string, i: nat)
    requires i <= |s|
    ensures HexEnd(p + s, |p| + i) == |p| + HexEnd(s, i)
    decreases |s| - i
  {
    if i < |s| && IsHex(s[i]) {
      HexEndShift(p, s, i + 1);
    }
  }

  lemma TokenShift(p: string, s: string, i: nat)
    requires i <= |s|
    ensures CCH(p + s, |p| + i) == CCH(s, i)
  {
    assert forall j :: i <= j < |s| ==> (p + s)[|p| + j] == s[j];
    assert At(p + s, |p| + i, NEEDLE) == At(s, i, NEEDLE) by {
      assert forall k :: 0 <= k < |NEEDLE| && i + k < |s| ==> (p + s)[|p| + i + k] == s[i + k] == s[i..][k];
    }
    if i + 4 <= |s| {
      HexEndShift(p, s, i + 4);
    }
  }

  lemma {:induction false} KeptShift(tok: Grammar, p: string, s: string, i: nat)
    requires i <= |s| && forall j :: i <= j <= |s| ==> tok(p + s, |p| + j) == tok(s, j)
    ensures KeptFrom(tok, p + s, |p| + i) == KeptFrom(tok, s, i)
    decreases |s| - i
  {
    if i < |s| {
      assert tok(p + s, |p| + i) == tok(s, i);
      if tok(s, i) > 0 {
        assert |p| + (i + tok(s, i)) == |p| + i + tok(s, i);
        KeptShift(tok, p, s, i + tok(s, i));
      } else {
        assert |p| + (i + 1) == |p| + i + 1;
        KeptShift(tok, p, s, i + 1);
      }
    }
  }

  /** Tokens look ahead only: what stands before changes none. */
  ghost predicate Shifts(tok: Grammar, p: string, s: string) {
    forall j :: 0 <= j <= |s| ==> tok(p + s, |p| + j) == tok(s, j)
  }

  lemma TokensShift(p: string, s: string)
    ensures Shifts(CCH, p, s)
  {
    forall j | 0 <= j <= |s| ensures CCH(p + s, |p| + j) == CCH(s, j) {
      TokenShift(p, s, j);
    }
  }

  lemma KeptAfter(tok: Grammar, p: string, s: string)
    requires Shifts(tok, p, s)
    ensures KeptFrom(tok, p + s, |p|) == Kept(tok, s)
  {
    KeptShift(tok, p, s, 0);
  }

  lemma KeptBehind(p: string, s: string)
    ensures KeptFrom(CCH, p + s, |p|) == Kept(CCH, s)
  {
    TokensShift(p, s);
    KeptAfter(CCH, p, s);
  }

  /** A token at the front is taken whole. */
  lemma TokenInFront(w: string, rest: string)
    requires InGrammar(w)
    ensures CCH(w + rest, 0) == |w|
  {
    assert (w + rest)[0..|w|] == w;
    TokenLenIsGrammar(w + rest, 0, |w|);
  }

  // ----- renaming makes no token --------------------------------------------

  /** Where the next token starts, or the end. */
  function NextToken(tok: Grammar, s: string, i: nat): (p: nat)
    requires i <= |s|
    ensures i <= p <= |s| && (p < |s| ==> tok(s, p) > 0)
    decreases |s| - i
  {
    if i == |s| || tok(s, i) > 0 then i else NextToken(tok, s, i + 1)
  }

  /** `t` is the text from `i` on for `d` characters; then both end, or both have a needle. */
  predicate Agrees(s: string, i: nat, t: string, d: nat) {
    && i + d <= |s| && d <= |t|
    && (forall k :: 0 <= k < d ==> t[k] == s[i + k])
    && (if i + d == |s| then |t| == d else At(t, d, NEEDLE) && At(s, i + d, NEEDLE))
  }

  lemma AgreesCons(s: string, i: nat, t: string, d: nat)
    requires i < |s| && Agrees(s, i + 1, t, d)
    ensures Agrees(s, i, [s[i]] + t, d + 1)
  {
    var longer := [s[i]] + t;
    assert forall k :: 0 < k < |longer| ==> longer[k] == t[k - 1];
    if i + 1 + d < |s| {
      forall k | 0 <= k < 4 ensures longer[d + 1 + k] == NEEDLE[k] {
        assert t[d + k] == NEEDLE[k];
      }
    }
  }

  lemma NeedleInFront(w: string, rest: string)
    requires At(w, 0, NEEDLE)
    ensures At(w + rest, 0, NEEDLE)
  {
    forall k | 0 <= k < 4 ensures (w + rest)[0 + k] == NEEDLE[k] {
      assert w[0 + k] == NEEDLE[k];
    }
  }

  /** Up to the next token the renamed text is the text, and there it has a needle too. */
  lemma {:induction false} RenamedAgrees(tok: Grammar, s: string, i: nat, w: Renaming)
    requires i <= |s| && forall j: nat :: At(w(j), 0, NEEDLE)
    requires forall j: nat :: tok(s, j) > 0 ==> At(s, j, NEEDLE)
    ensures Agrees(s, i, Renamed(tok, s, i, w), NextToken(tok, s, i) - i)
    decreases |s| - i
  {
    if i < |s| {
      if tok(s, i) > 0 {
        NeedleInFront(w(i), Renamed(tok, s, i + tok(s, i), w));
      } else {
        RenamedAgrees(tok, s, i + 1, w);
        AgreesCons(s, i, Renamed(tok, s, i + 1, w), NextToken(tok, s, i + 1) - (i + 1));
      }
    }
  }

  /** A token cannot run over the needle of another: its third letter is no hex digit. */
  lemma NeedleEndsToken(w: string, d: nat)
    requires InGrammar(w) && 0 < d && d + 4 < |w|
    ensures !At(w, d, NEEDLE)
  {
    assert NEEDLE[0] == 'c' && NEEDLE[1] == 'c' && NEEDLE[2] == 'h' && NEEDLE[3] == '=';
    assert w[0 + 1] == 'c' && w[0 + 2] == 'h' && w[0 + 3] == '=';
  }

  /** Where no token starts, none starts after the renaming. */
  lemma NoNewToken(s: string, i: nat, w: Renaming)
    requires i < |s| && CCH(s, i) == 0 && AllTokens(w)
    ensures CCH(Renamed(CCH, s, i, w), 0) == 0
  {
    forall j: nat ensures At(w(j), 0, NEEDLE) {
      assert InGrammar(w(j));
    }
    RenamedAgrees(CCH, s, i, w);
    NoTokenInFront(s, i, Renamed(CCH, s, i, w), NextToken(CCH, s, i) - i);
  }

  lemma NoTokenInFront(s: string, i: nat, t: string, d: nat)
    requires i < |s| && CCH(s, i) == 0 && 0 < d && Agrees(s, i, t, d)
    ensures CCH(t, 0) == 0
  {
    var n := CCH(t, 0);
    if n > 0 {
      TokenLenIsGrammar(t, 0, n);
      if i + d < |s| && n > d + 4 {
        NeedleInWord(t, n, d);
        NeedleEndsToken(t[0..n], d);
      } else {
        SameWord(s, i, t, n, d);
        TokenLenIsGrammar(s, i, n);
      }
    }
  }

  lemma NeedleInWord(t: string, n: nat, d: nat)
    requires d + 4 <= n <= |t| && At(t, d, NEEDLE)
    ensures At(t[0..n], d, NEEDLE)
  {
    forall k | 0 <= k < 4 ensures t[0..n][d + k] == NEEDLE[k] {
      assert t[d + k] == NEEDLE[k];
    }
  }

  lemma SameWord(s: string, i: nat, t: string, n: nat, d: nat)
    requires n <= |t| && d <= |t| && i + d <= |s| && (forall k :: 0 <= k < d ==> t[k] == s[i + k])
    requires n <= d || (n <= d + 4 && At(t, d, NEEDLE) && At(s, i + d, NEEDLE))
    ensures i + n <= |s| && s[i..i + n] == t[0..n]
  {
    forall k | 0 <= k < n ensures i + k < |s| && s[i + k] == t[k] {
      if k >= d {
        assert t[d + (k - d)] == NEEDLE[k - d] == s[i + d + (k - d)];
      }
    }
  }

  // ----- the strip does not see the values ----------------------------------

  lemma KeptBehindToken(w: string, rest: string)
    requires InGrammar(w)
    ensures Kept(CCH, w + rest) == Kept(CCH, rest)
  {
    TokenInFront(w, rest);
    KeptBehind(w, rest);
  }

  lemma KeptBehindChar(c: char, rest: string)
    requires CCH([c] + rest, 0) == 0
    ensures Kept(CCH, [c] + rest) == [c] + Kept(CCH, rest)
  {
    KeptBehind([c], rest);
  }

  /** The renamed text is kept from position `i` as the text itself would be, one token or character at a time. */
  ghost predicate KeepsStep(tok: Grammar, s: string, i: nat, w: Renaming)
    requires i < |s|
  {
    Kept(tok, Renamed(tok, s, i, w)) ==
      if tok(s, i) > 0 then Kept(tok, Renamed(tok, s, i + tok(s, i), w))
      else [s[i]] + Kept(tok, Renamed(tok, s, i + 1, w))
  }

  lemma TokenKeepsStep(s: string, i: nat, w: Renaming, rest: string)
    requires i < |s| && CCH(s, i) > 0 && AllTokens(w) && rest == Renamed(CCH, s, i + CCH(s, i), w)
    ensures Kept(CCH, Renamed(CCH, s, i, w)) == Kept(CCH, rest)
  {
    var word := w(i);
    assert InGrammar(word) && Renamed(CCH, s, i, w) == word + rest;
    KeptBehindToken(word, rest);
  }

  lemma CharKeepsStep(s: string, i: nat, w: Renaming, rest: string)
    requires i < |s| && CCH(s, i) == 0 && AllTokens(w) && rest == Renamed(CCH, s, i + 1, w)
    ensures Kept(CCH, Renamed(CCH, s, i, w)) == [s[i]] + Kept(CCH, rest)
  {
    NoNewToken(s, i, w);
    assert Renamed(CCH, s, i, w) == [s[i]] + rest;
    KeptBehindChar(s[i], rest);
  }

  lemma RenamedKeepsStep(s: string, i: nat, w: Renaming)
    requires i < |s| && AllTokens(w)
    ensures KeepsStep(CCH, s, i, w)
  {
    if CCH(s, i) > 0 {
      TokenKeepsStep(s, i, w, Renamed(CCH, s, i + CCH(s, i), w));
    } else {
      CharKeepsStep(s, i, w, Renamed(CCH, s, i + 1, w));
    }
  }

  lemma {:induction false} KeptByStep(tok: Grammar, s: string, i: nat, w: Renaming)
    requires i <= |s| && tok("", 0) == 0 && forall j :: 0 <= j < |s| ==> KeepsStep(tok, s, j, w)
    ensures Kept(tok, Renamed(tok, s, i, w)) == KeptFrom(tok, s, i)
    decreases |s| - i
  {
    if i < |s| {
      assert KeepsStep(tok, s, i, w);
      KeptByStep(tok, s, if tok(s, i) > 0 then i + tok(s, i) else i + 1, w);
    }
  }

  lemma KeptRenamed(s: string, w: Renaming)
    requires AllTokens(w)
    ensures Kept(CCH, Renamed(CCH, s, 0, w)) == Kept(CCH, s)
  {
    forall j | 0 <= j < |s| ensures KeepsStep(CCH, s, j, w) {
      RenamedKeepsStep(s, j, w);
    }
    KeptByStep(CCH, s, 0, w);
  }

  /** One text is the other with its tokens given other values. */
  ghost predicate SameButTokens(s: string, t: string) {
    exists w: Renaming :: AllTokens(w) && t == Renamed(CCH, s, 0, w)
  }

  /** The same of every string of a document. */
  ghost predicate SameTree(a: Json, b: Json)
    decreases a, 1
  {
    match a
    case Str(s) => b.Str? && SameButTokens(s, b.s)
    case Arr(items) => b.Arr? && SameItems(items, b.items)
    case Obj(fields) => b.Obj? && SameFields(fields, b.fields)
    case _ => a == b
  }

  ghost predicate SameItems(xs: seq<Json>, ys: seq<Json>)
    decreases xs, 0
  {
    |xs| == |ys| && (xs != [] ==> SameTree(xs[0], ys[0]) && SameItems(xs[1..], ys[1..]))
  }

  ghost predicate SameFields(fs: seq<Field>, gs: seq<Field>)
    decreases fs, 0
  {
    && |fs| == |gs|
    && (fs != [] ==> fs[0].key == gs[0].key && SameTree(fs[0].value, gs[0].value) && SameFields(fs[1..], gs[1..]))
  }

  /** Whatever values the tokens are given, what is left of a text is the same. */
  lemma StripIgnoresValues(s: string, t: string)
    requires SameButTokens(s, t)
    ensures Kept(CCH, s) == Kept(CCH, t)
  {
    var w: Renaming :| AllTokens(w) && t == Renamed(CCH, s, 0, w);
    KeptRenamed(s, w);
  }

  /** And of a document. */
  lemma {:induction false} StripIgnoresValuesInTree(a: Json, b: Json)
    requires SameTree(a, b)
    ensures KeptTree(CCH, a) == KeptTree(CCH, b)
    decreases a, 1
  {
    match a
    case Str(s) => StripIgnoresValues(s, b.s);
    case Arr(items) => StripIgnoresValuesInItems(items, b.items);
    case Obj(fields) => StripIgnoresValuesInFields(fields, b.fields);
    case _ =>
  }

  lemma {:induction false} StripIgnoresValuesInItems(xs: seq<Json>, ys: seq<Json>)
    requires SameItems(xs, ys)
    ensures KeptItems(CCH, xs) == KeptItems(CCH, ys)
    decreases xs, 0
  {
    if xs != [] {
      StripIgnoresValuesInTree(xs[0], ys[0]);
      StripIgnoresValuesInItems(xs[1..], ys[1..]);
    }
  }

  lemma {:induction false} StripIgnoresValuesInFields(fs: seq<Field>, gs: seq<Field>)
    requires SameFields(fs, gs)
    ensures KeptFields(CCH, fs) == KeptFields(CCH, gs)
    decreases fs, 0
  {
    if fs != [] {
      StripIgnoresValuesInTree(fs[0].value, gs[0].value);
      StripIgnoresValuesInFields(fs[1..], gs[1..]);
    }
  }
}
