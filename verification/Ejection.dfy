/**
 * Soft cap, tier A: large tool_result contents are replaced by stubs, largest
 * first, until the serialized body fits.
 */
module Ejection {
  import opened Wrappers
  import opened Json
  import opened Messages
  import Decimal

  const TIER_A_EJECTION_THRESHOLD: nat := 100 * 1024

  // ----- the stub ---------------------------------------------------

  /** `n / unit` in tenths, rounded half to even. */
  function Tenths(n: nat, unit: nat): nat
    requires unit > 0
  {
    var q, r := 10 * n / unit, 10 * n % unit;
    if 2 * r > unit || (2 * r == unit && q % 2 == 1) then q + 1 else q
  }

  function OneDecimal(tenths: nat): string {
    Decimal.Numeral(tenths / 10) + "." + Decimal.Numeral(tenths % 10)
  }

  function FmtBytes(n: nat): string {
    if n >= 1024 * 1024 then OneDecimal(Tenths(n, 1024 * 1024)) + "MB"
    else if n >= 10 * 1024 then OneDecimal(Tenths(n, 1024)) + "KB"
    else Decimal.Numeral(n) + "b"
  }

  function StubContent(size: nat): Json {
    Arr([Obj([Field("type", Str("text")),
              Field("text", Str("[ejected by ostk-cache soft-cap: " + FmtBytes(size)
                + " \U{2192} 60b. Re-run the call if needed.]"))])])
  }

  lemma {:induction false} LengthMonotone(a: nat, b: nat)
    requires a <= b
    ensures Decimal.Length(a) <= Decimal.Length(b)
    decreases b
  {
    if a >= 10 {
      LengthMonotone(a / 10, b / 10);
    }
  }

  lemma FmtBytesShort(n: nat)
    ensures |FmtBytes(n)| <= 5 + n / 10
  {
    if n >= 1024 * 1024 {
      LengthMonotone(Tenths(n, 1024 * 1024) / 10, n);
    } else if n >= 10 * 1024 {
      LengthMonotone(Tenths(n, 1024) / 10, n);
    }
  }

  /** A stub is smaller than any content large enough to be ejected. */
  lemma StubSmaller(size: nat)
    requires size >= TIER_A_EJECTION_THRESHOLD
    ensures Size(StubContent(size)) < size
  {
    FmtBytesShort(size);
    var text := "[ejected by ostk-cache soft-cap: " + FmtBytes(size) + " \U{2192} 60b. Re-run the call if needed.]";
    TextBlockSize(Field("type", Str("text")), Field("text", Str(text)));
    assert |text| <= 80 + |FmtBytes(size)|;
  }

  /** The size of an array of one object of two string fields. */
  lemma TextBlockSize(f: Field, g: Field)
    requires f.value.Str? && g.value.Str?
    ensures Size(Arr([Obj([f, g])]))
      == 15 + LiteralLen(f.key) + LiteralLen(f.value.s) + LiteralLen(g.key) + LiteralLen(g.value.s)
  {
    assert [f, g][1..] == [g] && [g][1..] == [] && [Obj([f, g])][1..] == [];
    assert FieldsSize([g]) == 2 + LiteralLen(g.key) + 1 + Size(g.value);
    assert FieldsSize([f, g]) == 2 + LiteralLen(f.key) + 1 + Size(f.value) + FieldsSize([g]);
    assert ItemsSize([Obj([f, g])]) == Size(Obj([f, g]));
  }

  // ----- candidates -------------------------------------------------

  datatype Candidate = Candidate(mi: nat, bi: nat, size: nat)

  function ContentSize(b: Json): nat {
    if Get(b, "content").Some? then Size(Get(b, "content").value) else 0
  }

  predicate Ejectable(b: Json) {
    IsToolResult(b) && ContentSize(b) >= TIER_A_EJECTION_THRESHOLD
  }

  function CandidatesIn(blocks: seq<Json>, mi: nat, bi: nat): seq<Candidate>
    requires bi <= |blocks|
    decreases |blocks| - bi
  {
    if bi == |blocks| then []
    else if Ejectable(blocks[bi]) then
      [Candidate(mi, bi, ContentSize(blocks[bi]))] + CandidatesIn(blocks, mi, bi + 1)
    else CandidatesIn(blocks, mi, bi + 1)
  }

  function CandidatesFrom(ms: seq<Json>, mi: nat): seq<Candidate>
    requires mi <= |ms|
    decreases |ms| - mi
  {
    if mi == |ms| then []
    else (if Blocks(ms[mi]).Some? then CandidatesIn(Blocks(ms[mi]).value, mi, 0) else []) + CandidatesFrom(ms, mi + 1)
  }

  /** The candidate names a tool_result whose content has the recorded, ejectable size. */
  predicate Matches(ms: seq<Json>, c: Candidate) {
    && c.mi < |ms| && Blocks(ms[c.mi]).Some? && c.bi < |Blocks(ms[c.mi]).value|
    && Ejectable(Blocks(ms[c.mi]).value[c.bi])
    && ContentSize(Blocks(ms[c.mi]).value[c.bi]) == c.size
  }

  predicate DistinctPlaces(cs: seq<Candidate>) {
    forall i, j :: 0 <= i < j < |cs| ==> cs[i].mi != cs[j].mi || cs[i].bi != cs[j].bi
  }

  lemma {:induction false} CandidatesInFacts(blocks: seq<Json>, mi: nat, bi: nat)
    requires bi <= |blocks|
    ensures forall c :: c in CandidatesIn(blocks, mi, bi) <==>
              c.mi == mi && bi <= c.bi < |blocks| && Ejectable(blocks[c.bi]) && c.size == ContentSize(blocks[c.bi])
    ensures DistinctPlaces(CandidatesIn(blocks, mi, bi))
    decreases |blocks| - bi
  {
    if bi < |blocks| {
      CandidatesInFacts(blocks, mi, bi + 1);
    }
  }

  /** Every large tool_result is a candidate, once, and nothing else is. */
  lemma {:induction false} CandidatesFacts(ms: seq<Json>, mi: nat)
    requires mi <= |ms|
    ensures forall c :: c in CandidatesFrom(ms, mi) <==> mi <= c.mi && Matches(ms, c)
    ensures DistinctPlaces(CandidatesFrom(ms, mi))
    decreases |ms| - mi
  {
    if mi < |ms| {
      CandidatesFacts(ms, mi + 1);
      if Blocks(ms[mi]).Some? {
        CandidatesInFacts(Blocks(ms[mi]).value, mi, 0);
      }
      DistinctConcat(if Blocks(ms[mi]).Some? then CandidatesIn(Blocks(ms[mi]).value, mi, 0) else [],
          CandidatesFrom(ms, mi + 1));
    }
  }

  lemma DistinctConcat(a: seq<Candidate>, b: seq<Candidate>)
    requires DistinctPlaces(a) && DistinctPlaces(b)
    requires forall x, y :: x in a && y in b ==> x.mi != y.mi || x.bi != y.bi
    ensures DistinctPlaces(a + b)
  {
    forall i, j | 0 <= i < j < |a + b| ensures (a + b)[i].mi != (a + b)[j].mi || (a + b)[i].bi != (a + b)[j].bi {
      if i < |a| <= j {
        assert (a + b)[i] in a && (a + b)[j] in b;
      }
    }
  }

  // The stable sort by descending size.

  function Insert(c: Candidate, sorted: seq<Candidate>): seq<Candidate> {
    if sorted == [] || sorted[0].size <= c.size then [c] + sorted else [sorted[0]] + Insert(c, sorted[1..])
  }

  function SortDescending(cs: seq<Candidate>): seq<Candidate> {
    if cs == [] then [] else Insert(cs[0], SortDescending(cs[1..]))
  }

  predicate Descending(cs: seq<Candidate>) {
    forall i, j :: 0 <= i < j < |cs| ==> cs[i].size >= cs[j].size
  }

  lemma {:induction false} InsertPermutes(c: Candidate, sorted: seq<Candidate>)
    ensures multiset(Insert(c, sorted)) == multiset(sorted) + multiset{c}
    ensures forall x :: x in Insert(c, sorted) <==> x == c || x in sorted
  {
    if sorted != [] && sorted[0].size > c.size {
      InsertPermutes(c, sorted[1..]);
      assert sorted == [sorted[0]] + sorted[1..];
    }
  }

  lemma {:induction false} InsertDescends(c: Candidate, sorted: seq<Candidate>)
    requires Descending(sorted)
    ensures Descending(Insert(c, sorted))
  {
    if sorted != [] && sorted[0].size > c.size {
      InsertDescends(c, sorted[1..]);
      InsertPermutes(c, sorted[1..]);
      var rest := Insert(c, sorted[1..]);
      forall j | 0 <= j < |rest| ensures rest[j].size <= sorted[0].size {
        assert rest[j] in rest;
      }
    }
  }

  lemma {:induction false} SortFacts(cs: seq<Candidate>)
    ensures Descending(SortDescending(cs)) && multiset(SortDescending(cs)) == multiset(cs)
  {
    if cs != [] {
      SortFacts(cs[1..]);
      InsertDescends(cs[0], SortDescending(cs[1..]));
      InsertPermutes(cs[0], SortDescending(cs[1..]));
      assert cs == [cs[0]] + cs[1..];
    }
  }

  lemma {:induction false} InsertDistinct(c: Candidate, sorted: seq<Candidate>)
    requires DistinctPlaces(sorted) && forall x :: x in sorted ==> x.mi != c.mi || x.bi != c.bi
    ensures DistinctPlaces(Insert(c, sorted))
  {
    if sorted != [] {
      assert sorted == [sorted[0]] + sorted[1..];
      if sorted[0].size > c.size {
        InsertDistinct(c, sorted[1..]);
        InsertPermutes(c, sorted[1..]);
        DistinctConcat([sorted[0]], Insert(c, sorted[1..]));
      } else {
        DistinctConcat([c], sorted);
      }
    }
  }

  lemma {:induction false} SortDistinct(cs: seq<Candidate>)
    requires DistinctPlaces(cs)
    ensures DistinctPlaces(SortDescending(cs))
    ensures forall x :: x in SortDescending(cs) <==> x in cs
  {
    if cs != [] {
      assert cs == [cs[0]] + cs[1..];
      SortDistinct(cs[1..]);
      InsertDistinct(cs[0], SortDescending(cs[1..]));
      InsertPermutes(cs[0], SortDescending(cs[1..]));
    }
  }

  function Candidates(ms: seq<Json>): seq<Candidate> {
    SortDescending(CandidatesFrom(ms, 0))
  }

  // ----- ejection ---------------------------------------------------

  /** Bytes of the request `v` with `ms` for its messages. */
  function BodySize(v: Json, ms: seq<Json>): nat {
    Size(WithMessages(v, ms))
  }

  lemma BodySizeDiffers(v: Json, a: seq<Json>, b: seq<Json>)
    requires Get(v, "messages").Some?
    ensures BodySize(v, a) - Size(Arr(a)) == BodySize(v, b) - Size(Arr(b))
  {
    SizeSet(v, "messages", Arr(a));
    SizeSet(v, "messages", Arr(b));
  }

  /** The candidate's block can be reached for editing. */
  predicate Reaches(ms: seq<Json>, c: Candidate) {
    && c.mi < |ms| && Blocks(ms[c.mi]).Some? && c.bi < |Blocks(ms[c.mi]).value|
    && Blocks(ms[c.mi]).value[c.bi].Obj?
  }

  function EjectAt(ms: seq<Json>, c: Candidate): seq<Json> {
    if Reaches(ms, c) then
      var blocks := Blocks(ms[c.mi]).value;
      ms[c.mi := WithBlocks(ms[c.mi], blocks[c.bi := Set(blocks[c.bi], "content", StubContent(c.size))])]
    else ms
  }

  /** How many candidates, in order, are ejected before the body fits. */
  function EjectCount(v: Json, ms: seq<Json>, cs: seq<Candidate>, cap: nat): (k: nat)
    ensures k <= |cs|
    decreases cs
  {
    if cs == [] || BodySize(v, ms) <= cap then 0 else 1 + EjectCount(v, EjectAt(ms, cs[0]), cs[1..], cap)
  }

  function EjectAll(ms: seq<Json>, cs: seq<Candidate>): seq<Json>
    decreases cs
  {
    if cs == [] then ms else EjectAll(EjectAt(ms, cs[0]), cs[1..])
  }

  function TotalSize(cs: seq<Candidate>): nat {
    if cs == [] then 0 else cs[0].size + TotalSize(cs[1..])
  }

  function StubSize(cs: seq<Candidate>): nat {
    if cs == [] then 0 else Size(StubContent(cs[0].size)) + StubSize(cs[1..])
  }

  function ToolName(b: Json): Option<string> {
    AsStr(Get(b, "name"))
  }

  /** Two blocks nothing but an ejection can tell apart. */
  predicate SameBlock(a: Json, b: Json) {
    Kind(a) == Kind(b) && UseId(a) == UseId(b) && ResultId(a) == ResultId(b) && ToolName(a) == ToolName(b)
    && (!IsToolResult(a) ==> a == b)
  }

  predicate SameMessage(a: Json, b: Json) {
    && Role(a) == Role(b) && (Blocks(a).Some? <==> Blocks(b).Some?)
    && (Blocks(a).Some? ==>
          && |Blocks(a).value| == |Blocks(b).value|
          && forall k :: 0 <= k < |Blocks(a).value| ==> SameBlock(Blocks(a).value[k], Blocks(b).value[k]))
  }

  predicate SameShape(a: seq<Json>, b: seq<Json>) {
    |a| == |b| && forall i :: 0 <= i < |a| ==> SameMessage(a[i], b[i])
  }

  lemma EjectFacts(ms: seq<Json>, c: Candidate)
    requires Matches(ms, c)
    ensures SameShape(ms, EjectAt(ms, c))
    ensures Size(Arr(EjectAt(ms, c))) + c.size == Size(Arr(ms)) + Size(StubContent(c.size))
  {
    var m := ms[c.mi];
    var blocks := Blocks(m).value;
    var b := blocks[c.bi];
    var b' := Set(b, "content", StubContent(c.size));
    var blocks' := blocks[c.bi := b'];
    GetSet(b, "content", StubContent(c.size), "type");
    GetSet(b, "content", StubContent(c.size), "id");
    GetSet(b, "content", StubContent(c.size), "tool_use_id");
    GetSet(b, "content", StubContent(c.size), "name");
    WithBlocksFrame(m, blocks');
    SizeSet(b, "content", StubContent(c.size));
    SizeArrUpdate(blocks, c.bi, b');
    SizeSet(m, "content", Arr(blocks'));
    SizeArrUpdate(ms, c.mi, WithBlocks(m, blocks'));
  }

  lemma EjectKeepsOthers(ms: seq<Json>, c: Candidate, d: Candidate)
    requires Matches(ms, c) && Matches(ms, d) && (c.mi != d.mi || c.bi != d.bi)
    ensures Matches(EjectAt(ms, c), d)
  {
    var blocks := Blocks(ms[c.mi]).value;
    WithBlocksFrame(ms[c.mi], blocks[c.bi := Set(blocks[c.bi], "content", StubContent(c.size))]);
  }

  lemma EjectKeepsRest(ms: seq<Json>, cs: seq<Candidate>)
    requires cs != [] && DistinctPlaces(cs) && forall c :: c in cs ==> Matches(ms, c)
    ensures DistinctPlaces(cs[1..]) && forall c :: c in cs[1..] ==> Matches(EjectAt(ms, cs[0]), c)
  {
    forall c | c in cs[1..] ensures Matches(EjectAt(ms, cs[0]), c) {
      var j :| 0 <= j < |cs[1..]| && cs[1..][j] == c;
      assert c == cs[j + 1];
      EjectKeepsOthers(ms, cs[0], c);
    }
  }

  lemma SameShapeTransitive(a: seq<Json>, b: seq<Json>, c: seq<Json>)
    requires SameShape(a, b) && SameShape(b, c)
    ensures SameShape(a, c)
  {
    forall i | 0 <= i < |a| ensures SameMessage(a[i], c[i]) {
      assert SameMessage(a[i], b[i]) && SameMessage(b[i], c[i]);
      if Blocks(a[i]).Some? {
        forall k | 0 <= k < |Blocks(a[i]).value| ensures SameBlock(Blocks(a[i]).value[k], Blocks(c[i]).value[k]) {
          assert SameBlock(Blocks(a[i]).value[k], Blocks(b[i]).value[k]);
        }
      }
    }
  }

  lemma SameShapeRefl(a: seq<Json>)
    ensures SameShape(a, a)
  {
  }

  /** Ejecting distinct candidates: same shape, and the array shrinks by the contents minus the stubs. */
  lemma {:induction false} EjectAllFacts(ms: seq<Json>, cs: seq<Candidate>)
    requires DistinctPlaces(cs) && forall c :: c in cs ==> Matches(ms, c)
    ensures SameShape(ms, EjectAll(ms, cs))
    ensures Size(Arr(EjectAll(ms, cs))) + TotalSize(cs) == Size(Arr(ms)) + StubSize(cs)
    decreases cs
  {
    if cs == [] {
      SameShapeRefl(ms);
    } else {
      var ms' := EjectAt(ms, cs[0]);
      assert cs[0] in cs;
      EjectFacts(ms, cs[0]);
      EjectKeepsRest(ms, cs);
      EjectAllFacts(ms', cs[1..]);
      SameShapeTransitive(ms, ms', EjectAll(ms', cs[1..]));
    }
  }

  lemma {:induction false} StubsSmaller(cs: seq<Candidate>)
    requires forall c :: c in cs ==> c.size >= TIER_A_EJECTION_THRESHOLD
    ensures StubSize(cs) <= TotalSize(cs) && (cs != [] ==> StubSize(cs) < TotalSize(cs))
  {
    if cs != [] {
      StubSmaller(cs[0].size);
      StubsSmaller(cs[1..]);
    }
  }

  /** The count is the least prefix that fits, or everything. */
  lemma {:induction false} EjectCountIsLeast(v: Json, ms: seq<Json>, cs: seq<Candidate>, cap: nat)
    ensures var k := EjectCount(v, ms, cs, cap);
            && (forall j :: 0 <= j < k ==> BodySize(v, EjectAll(ms, cs[..j])) > cap)
            && (k < |cs| ==> BodySize(v, EjectAll(ms, cs[..k])) <= cap)
    decreases cs
  {
    var k := EjectCount(v, ms, cs, cap);
    if k > 0 {
      EjectCountIsLeast(v, EjectAt(ms, cs[0]), cs[1..], cap);
      forall j | 0 <= j < k ensures BodySize(v, EjectAll(ms, cs[..j])) > cap {
        if j > 0 {
          assert cs[..j][1..] == cs[1..][..j - 1];
        }
      }
      assert cs[..k][1..] == cs[1..][..k - 1];
    }
  }

  function TierA(v: Json, cap: nat): (seq<Json>, nat)
    requires MessagesOf(v).Some?
  {
    var ms := MessagesOf(v).value;
    var k := EjectCount(v, ms, Candidates(ms), cap);
    (EjectAll(ms, Candidates(ms)[..k]), k)
  }

  lemma CandidatesMatch(ms: seq<Json>, k: nat)
    requires k <= |Candidates(ms)|
    ensures DistinctPlaces(Candidates(ms)[..k])
    ensures forall c :: c in Candidates(ms)[..k] ==> Matches(ms, c) && c.size >= TIER_A_EJECTION_THRESHOLD
  {
    CandidatesFacts(ms, 0);
    SortDistinct(CandidatesFrom(ms, 0));
  }

  /**
   * Tier A ejects a prefix of the candidates in descending size, the least one
   * that fits; the body shrinks by exactly the bytes reported minus the stubs.
   */
  lemma TierAFacts(v: Json, cap: nat)
    requires MessagesOf(v).Some?
    ensures var ms := MessagesOf(v).value;
            var (out, k) := TierA(v, cap);
            var done := Candidates(ms)[..k];
            && Descending(Candidates(ms)) && multiset(Candidates(ms)) == multiset(CandidatesFrom(ms, 0))
            && SameShape(ms, out)
            && BodySize(v, out) + TotalSize(done) == Size(v) + StubSize(done)
            && BodySize(v, out) <= Size(v)
            && (k < |Candidates(ms)| ==> BodySize(v, out) <= cap)
            && (forall j :: 0 <= j < k ==> BodySize(v, EjectAll(ms, Candidates(ms)[..j])) > cap)
  {
    var ms := MessagesOf(v).value;
    var cs := Candidates(ms);
    var k := EjectCount(v, ms, cs, cap);
    SortFacts(CandidatesFrom(ms, 0));
    CandidatesMatch(ms, k);
    EjectAllFacts(ms, cs[..k]);
    StubsSmaller(cs[..k]);
    EjectCountIsLeast(v, ms, cs, cap);
    BodySizeDiffers(v, ms, EjectAll(ms, cs[..k]));
    WithSameMessages(v);
  }

  lemma WithSameMessages(v: Json)
    requires MessagesOf(v).Some?
    ensures WithMessages(v, MessagesOf(v).value) == v
  {
    ReplaceSame(v.fields, "messages");
  }

  // ----- the pass -----------------------------------------------------------

  method CollectCandidates(ms: seq<Json>) returns (candidates: seq<Candidate>)
    ensures candidates == CandidatesFrom(ms, 0)
  {
    candidates := [];
    for mi := 0 to |ms|
      invariant candidates + CandidatesFrom(ms, mi) == CandidatesFrom(ms, 0)
    {
      if Blocks(ms[mi]).Some? {
        var arr := Blocks(ms[mi]).value;
        ghost var before := candidates;
        for bi := 0 to |arr|
          invariant candidates + CandidatesIn(arr, mi, bi) == before + CandidatesIn(arr, mi, 0)
        {
          if IsToolResult(arr[bi]) && ContentSize(arr[bi]) >= TIER_A_EJECTION_THRESHOLD {
            assert candidates + CandidatesIn(arr, mi, bi)
                == candidates + [Candidate(mi, bi, ContentSize(arr[bi]))] + CandidatesIn(arr, mi, bi + 1);
            candidates := candidates + [Candidate(mi, bi, ContentSize(arr[bi]))];
          }
        }
        assert candidates == before + CandidatesIn(arr, mi, 0);
        assert before + CandidatesFrom(ms, mi) == candidates + CandidatesFrom(ms, mi + 1);
      }
    }
  }

  lemma {:induction false} EjectAllSnoc(ms: seq<Json>, cs: seq<Candidate>, c: Candidate)
    ensures EjectAll(ms, cs + [c]) == EjectAt(EjectAll(ms, cs), c)
    decreases cs
  {
    if cs == [] {
      assert EjectAll(EjectAt(ms, c), [c][1..]) == EjectAt(ms, c);
    } else {
      assert (cs + [c])[1..] == cs[1..] + [c];
      EjectAllSnoc(EjectAt(ms, cs[0]), cs[1..], c);
    }
  }

  lemma {:induction false} TotalSizeSnoc(cs: seq<Candidate>, c: Candidate)
    ensures TotalSize(cs + [c]) == TotalSize(cs) + c.size
  {
    if cs == [] {
      assert [c][1..] == [];
    } else {
      assert (cs + [c])[1..] == cs[1..] + [c];
      TotalSizeSnoc(cs[1..], c);
    }
  }

  /** Ejects in place; returns how many contents went and their original bytes. */
  method EjectLargeToolResults(req: Request, cap: nat) returns (ejected: nat, recovered: nat)
    modifies req
    ensures MessagesOf(old(req.body)).None? ==> req.body == old(req.body) && ejected == 0 && recovered == 0
    ensures MessagesOf(old(req.body)).Some? ==>
              var (out, k) := TierA(old(req.body), cap);
              && req.body == WithMessages(old(req.body), out)
              && ejected == k
              && recovered == TotalSize(Candidates(MessagesOf(old(req.body)).value)[..k])
  {
    ejected, recovered := 0, 0;
    if MessagesOf(req.body).None? {
      return;
    }
    ghost var v := req.body;
    var ms := MessagesOf(req.body).value;
    var found := CollectCandidates(ms);
    var candidates := SortDescending(found);
    EjectingStarts(v, ms, candidates, cap);
    while ejected < |candidates| && Size(req.body) > cap
      invariant Ejecting(v, ms, candidates, cap, ejected, recovered, req.body)
    {
      var c := candidates[ejected];
      EjectingStep(v, ms, candidates, cap, ejected, recovered, req.body);
      req.body := WithMessages(req.body, EjectAt(MessagesOf(req.body).value, c));
      ejected, recovered := ejected + 1, recovered + c.size;
    }
    EjectingEnds(v, ms, candidates, cap, ejected, recovered, req.body);
  }

  /** The first `ejected` candidates are out of the body, and the rest of the loop decides as the whole one would. */
  ghost predicate Ejecting(v: Json, ms: seq<Json>, cs: seq<Candidate>, cap: nat, ejected: nat,
      recovered: nat, body: Json) {
    && ejected <= |cs|
    && body == WithMessages(v, EjectAll(ms, cs[..ejected]))
    && ejected + EjectCount(v, EjectAll(ms, cs[..ejected]), cs[ejected..], cap) == EjectCount(v, ms, cs, cap)
    && recovered == TotalSize(cs[..ejected])
  }

  lemma EjectingStarts(v: Json, ms: seq<Json>, cs: seq<Candidate>, cap: nat)
    requires MessagesOf(v) == Some(ms)
    ensures Ejecting(v, ms, cs, cap, 0, 0, v)
  {
    WithSameMessages(v);
    assert cs[..0] == [] && cs[0..] == cs;
  }

  lemma EjectingEnds(v: Json, ms: seq<Json>, cs: seq<Candidate>, cap: nat, ejected: nat, recovered: nat, body: Json)
    requires Ejecting(v, ms, cs, cap, ejected, recovered, body) && (ejected == |cs| || Size(body) <= cap)
    ensures ejected == EjectCount(v, ms, cs, cap)
  {
  }

  lemma EjectingStep(v: Json, ms: seq<Json>, cs: seq<Candidate>, cap: nat, ejected: nat, recovered: nat, body: Json)
    requires MessagesOf(v).Some? && Ejecting(v, ms, cs, cap, ejected, recovered, body)
    requires ejected < |cs| && Size(body) > cap
    ensures MessagesOf(body).Some?
    ensures Ejecting(v, ms, cs, cap, ejected + 1, recovered + cs[ejected].size,
                     WithMessages(body, EjectAt(MessagesOf(body).value, cs[ejected])))
  {
    var c, now := cs[ejected], EjectAll(ms, cs[..ejected]);
    assert cs[ejected..][0] == c && cs[ejected..][1..] == cs[ejected + 1..];
    assert cs[..ejected + 1] == cs[..ejected] + [c];
    EjectAllSnoc(ms, cs[..ejected], c);
    TotalSizeSnoc(cs[..ejected], c);
    WithMessagesTwice(v, now, EjectAt(now, c));
  }
}
