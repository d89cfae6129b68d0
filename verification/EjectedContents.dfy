/**
 * Which contents tier A replaces, block by block: the largest first, equal ones
 * in document order, and nothing else of the request.
 */
module EjectedContents {
  import opened Wrappers
  import opened Json
  import opened Messages
  import opened Ejection
  import Decimal

  // ----- the order of ejection ----------------------------------------------

  /** The larger goes first; of two equal ones the one that comes first in the request. */
  predicate GoesBefore(c: Candidate, d: Candidate) {
    c.size > d.size || (c.size == d.size && ComesBefore(c, d))
  }

  predicate ComesBefore(c: Candidate, d: Candidate) {
    c.mi < d.mi || (c.mi == d.mi && c.bi < d.bi)
  }

  predicate InOrder(cs: seq<Candidate>) {
    forall i, j :: 0 <= i < j < |cs| ==> GoesBefore(cs[i], cs[j])
  }

  predicate InDocumentOrder(cs: seq<Candidate>) {
    forall i, j :: 0 <= i < j < |cs| ==> ComesBefore(cs[i], cs[j])
  }

  lemma {:induction false} CandidatesInOrder(blocks: seq<Json>, mi: nat, bi: nat)
    requires bi <= |blocks|
    ensures InDocumentOrder(CandidatesIn(blocks, mi, bi))
    decreases |blocks| - bi
  {
    if bi < |blocks| {
      CandidatesInOrder(blocks, mi, bi + 1);
      CandidatesInFacts(blocks, mi, bi + 1);
      var rest := CandidatesIn(blocks, mi, bi + 1);
      assert forall j :: 0 <= j < |rest| ==> rest[j] in rest;
    }
  }

  lemma {:induction false} CandidatesFromInOrder(ms: seq<Json>, mi: nat)
    requires mi <= |ms|
    ensures InDocumentOrder(CandidatesFrom(ms, mi))
    decreases |ms| - mi
  {
    if mi < |ms| {
      CandidatesFromInOrder(ms, mi + 1);
      CandidatesFacts(ms, mi + 1);
      var here := if Blocks(ms[mi]).Some? then CandidatesIn(Blocks(ms[mi]).value, mi, 0) else [];
      if Blocks(ms[mi]).Some? {
        CandidatesInOrder(Blocks(ms[mi]).value, mi, 0);
        CandidatesInFacts(Blocks(ms[mi]).value, mi, 0);
      }
      OrderConcat(here, CandidatesFrom(ms, mi + 1), mi);
    }
  }

  lemma OrderConcat(a: seq<Candidate>, b: seq<Candidate>, mi: nat)
    requires InDocumentOrder(a) && InDocumentOrder(b)
    requires (forall c :: c in a ==> c.mi == mi) && forall c :: c in b ==> c.mi > mi
    ensures InDocumentOrder(a + b)
  {
    forall i, j | 0 <= i < j < |a + b| ensures ComesBefore((a + b)[i], (a + b)[j]) {
      if i < |a| <= j {
        assert (a + b)[i] in a && (a + b)[j] in b;
      }
    }
  }

  lemma {:induction false} InsertInOrder(c: Candidate, sorted: seq<Candidate>)
    requires InOrder(sorted) && forall d :: d in sorted ==> ComesBefore(c, d)
    ensures InOrder(Insert(c, sorted))
  {
    if sorted != [] {
      assert sorted[0] in sorted && sorted == [sorted[0]] + sorted[1..];
      if sorted[0].size > c.size {
        InsertInOrder(c, sorted[1..]);
        InsertPermutes(c, sorted[1..]);
        var rest := Insert(c, sorted[1..]);
        forall j | 0 <= j < |rest| ensures GoesBefore(sorted[0], rest[j]) {
          assert rest[j] in rest;
        }
      } else {
        forall j | 0 <= j < |sorted| ensures GoesBefore(c, sorted[j]) {
          assert sorted[j] in sorted;
        }
      }
    }
  }

  lemma {:induction false} SortInOrder(cs: seq<Candidate>)
    requires InDocumentOrder(cs)
    ensures InOrder(SortDescending(cs)) && forall c :: c in SortDescending(cs) <==> c in cs
  {
    if cs != [] {
      SortInOrder(cs[1..]);
      InsertPermutes(cs[0], SortDescending(cs[1..]));
      assert cs == [cs[0]] + cs[1..];
      forall d | d in SortDescending(cs[1..]) ensures ComesBefore(cs[0], d) {
        var j :| 0 <= j < |cs[1..]| && cs[1..][j] == d;
        assert d == cs[j + 1];
      }
      InsertInOrder(cs[0], SortDescending(cs[1..]));
    }
  }

  /** The candidates are the large results, each once, the largest first and equal ones in document order. */
  lemma EjectionOrder(ms: seq<Json>)
    ensures InOrder(Candidates(ms)) && forall c :: c in Candidates(ms) <==> Ejection.Matches(ms, c)
  {
    CandidatesFromInOrder(ms, 0);
    CandidatesFacts(ms, 0);
    SortInOrder(CandidatesFrom(ms, 0));
  }

  // ----- the stub -----------------------------------------------------------

  /** `t` tenths are nearest to `n` in the unit, and even when two are equally near. */
  predicate IsNearest(n: nat, unit: int, t: nat) {
    var twice := 20 * n - 2 * (unit * t);
    -unit <= twice <= unit && (twice == unit || twice == -unit ==> t % 2 == 0)
  }

  /** The size a stub gives: bytes up to ten KiB, else tenths of a KiB or of a MiB. */
  predicate Tells(shown: string, size: nat, t: nat) {
    if size < 10240 then shown == Decimal.Numeral(size) + "b"
    else if size < 1048576 then
      IsNearest(size, 1024, t) && shown == Decimal.Numeral(t / 10) + "." + Decimal.Numeral(t % 10) + "KB"
    else IsNearest(size, 1048576, t) && shown == Decimal.Numeral(t / 10) + "." + Decimal.Numeral(t % 10) + "MB"
  }

  lemma TenthsAreNearest(n: nat, unit: nat)
    requires unit == 1024 || unit == 1048576
    ensures IsNearest(n, unit, Tenths(n, unit))
  {
  }

  /** A stub is one text block that tells the size of what it stands for. */
  lemma StubTells(size: nat) returns (b: Json, shown: string, t: nat)
    ensures StubContent(size) == Arr([b]) && Tells(shown, size, t)
    ensures Get(b, "type") == Some(Str("text"))
    ensures Get(b, "text") == Some(Str("[ejected by ostk-cache soft-cap: " + shown
                + " \U{2192} 60b. Re-run the call if needed.]"))
  {
    b, shown := StubContent(size).items[0], FmtBytes(size);
    assert b.fields[1..] == [b.fields[1]] && Lookup(b.fields[1..], "text") == Some(b.fields[1].value);
    TenthsAreNearest(size, 1024);
    TenthsAreNearest(size, 1048576);
    t := if size < 1048576 then Tenths(size, 1024) else Tenths(size, 1048576);
  }

  // ----- what an ejection leaves --------------------------------------------

  /** A candidate names the block `j` of message `i`. */
  predicate Names(cs: seq<Candidate>, i: nat, j: nat) {
    exists c :: c in cs && c.mi == i && c.bi == j
  }

  /** The block with a stub for its content. */
  function WithStub(b: Json): Json {
    Set(b, "content", StubContent(ContentSize(b)))
  }

  function BlocksAfter(blocks: seq<Json>, cs: seq<Candidate>, i: nat): (r: seq<Json>)
    ensures |r| == |blocks|
    ensures forall j :: 0 <= j < |r| ==> r[j] == if Names(cs, i, j) then WithStub(blocks[j]) else blocks[j]
  {
    seq(|blocks|, j requires 0 <= j < |blocks| => if Names(cs, i, j) then WithStub(blocks[j]) else blocks[j])
  }

  function MessageAfter(m: Json, cs: seq<Candidate>, i: nat): Json {
    if Blocks(m).Some? then WithBlocks(m, BlocksAfter(Blocks(m).value, cs, i)) else m
  }

  lemma MessageAfterNone(m: Json, i: nat)
    ensures MessageAfter(m, [], i) == m
  {
    if Blocks(m).Some? {
      assert BlocksAfter(Blocks(m).value, [], i) == Blocks(m).value;
      WithSameBlocks(m);
    }
  }

  /** One more candidate: its own block is stubbed, and only that. */
  lemma MessageAfterCons(ms: seq<Json>, cs: seq<Candidate>, i: nat)
    requires cs != [] && DistinctPlaces(cs) && Ejection.Matches(ms, cs[0]) && i < |ms|
    ensures MessageAfter(EjectAt(ms, cs[0])[i], cs[1..], i) == MessageAfter(ms[i], cs, i)
  {
    var c, m := cs[0], ms[i];
    assert cs == [c] + cs[1..];
    if i == c.mi {
      var blocks := Blocks(m).value;
      var blocks' := blocks[c.bi := WithStub(blocks[c.bi])];
      WithBlocksFrame(m, blocks');
      assert !Names(cs[1..], i, c.bi);
      assert forall j: nat :: j != c.bi ==> (Names(cs, i, j) <==> Names(cs[1..], i, j));
      assert BlocksAfter(blocks', cs[1..], i) == BlocksAfter(blocks, cs, i);
      ReplaceTwice(m.fields, "content", Arr(blocks'), Arr(BlocksAfter(blocks, cs, i)));
    } else if Blocks(m).Some? {
      assert forall j: nat :: Names(cs, i, j) <==> Names(cs[1..], i, j);
      assert BlocksAfter(Blocks(m).value, cs[1..], i) == BlocksAfter(Blocks(m).value, cs, i);
    }
  }

  /** Ejecting: in every message exactly the named blocks have their content stubbed. */
  lemma {:induction false} EjectAllIs(ms: seq<Json>, cs: seq<Candidate>, i: nat)
    requires DistinctPlaces(cs) && (forall c :: c in cs ==> Ejection.Matches(ms, c)) && i < |ms|
    ensures |EjectAll(ms, cs)| == |ms| && EjectAll(ms, cs)[i] == MessageAfter(ms[i], cs, i)
    decreases cs
  {
    if cs == [] {
      MessageAfterNone(ms[i], i);
    } else {
      assert cs[0] in cs;
      EjectFacts(ms, cs[0]);
      EjectKeepsRest(ms, cs);
      EjectAllIs(EjectAt(ms, cs[0]), cs[1..], i);
      MessageAfterCons(ms, cs, i);
    }
  }

  /** Tier A stubs the contents of its first candidates and changes nothing else of any message. */
  lemma TierAContents(v: Json, cap: nat)
    requires MessagesOf(v).Some?
    ensures var ms := MessagesOf(v).value;
            var (out, k) := TierA(v, cap);
            && InOrder(Candidates(ms)) && k <= |Candidates(ms)| && |out| == |ms|
            && forall i :: 0 <= i < |ms| ==> out[i] == MessageAfter(ms[i], Candidates(ms)[..k], i)
  {
    var ms, k := MessagesOf(v).value, TierA(v, cap).1;
    var out, cs := TierA(v, cap).0, Candidates(ms)[..k];
    EjectionOrder(ms);
    CandidatesMatch(ms, k);
    EjectAllLength(ms, cs);
    forall i | 0 <= i < |ms| ensures out[i] == MessageAfter(ms[i], cs, i) {
      EjectAllIs(ms, cs, i);
    }
  }

  lemma EjectAllLength(ms: seq<Json>, cs: seq<Candidate>)
    requires DistinctPlaces(cs) && forall c :: c in cs ==> Ejection.Matches(ms, c)
    ensures |EjectAll(ms, cs)| == |ms|
  {
    EjectAllFacts(ms, cs);
  }

  // ----- everything ejected -------------------------------------------------

  /** Every content of at least 100 KiB of a tool_result is a stub. */
  function Stubbed(m: Json): Json {
    if Blocks(m).None? then m
    else
      var blocks := Blocks(m).value;
      WithBlocks(m, seq(|blocks|, j requires 0 <= j < |blocks| =>
        if Kind(blocks[j]) == Some("tool_result") && ContentSize(blocks[j]) >= 102_400 then WithStub(blocks[j])
        else blocks[j]))
  }

  function AllStubbed(ms: seq<Json>): (r: seq<Json>)
    ensures |r| == |ms| && forall i :: 0 <= i < |ms| ==> r[i] == Stubbed(ms[i])
  {
    seq(|ms|, i requires 0 <= i < |ms| => Stubbed(ms[i]))
  }

  lemma NamesLarge(ms: seq<Json>, i: nat, j: nat)
    requires i < |ms| && Blocks(ms[i]).Some? && j < |Blocks(ms[i]).value|
    ensures Names(Candidates(ms), i, j) <==> Ejectable(Blocks(ms[i]).value[j])
  {
    EjectionOrder(ms);
    var b := Blocks(ms[i]).value[j];
    if Ejectable(b) {
      assert Ejection.Matches(ms, Candidate(i, j, ContentSize(b)));
    }
  }

  lemma MessageAfterAll(ms: seq<Json>, i: nat)
    requires i < |ms|
    ensures MessageAfter(ms[i], Candidates(ms), i) == Stubbed(ms[i])
  {
    if Blocks(ms[i]).Some? {
      var blocks := Blocks(ms[i]).value;
      forall j | 0 <= j < |blocks| ensures Names(Candidates(ms), i, j) <==> Ejectable(blocks[j]) {
        NamesLarge(ms, i, j);
      }
      assert BlocksAfter(blocks, Candidates(ms), i) == seq(|blocks|, j requires 0 <= j < |blocks| =>
        if Kind(blocks[j]) == Some("tool_result") && ContentSize(blocks[j]) >= 102_400 then WithStub(blocks[j])
        else blocks[j]);
    }
  }

  /** A tier A that does not make the body fit has stubbed every large content. */
  lemma OverCapMeansAllStubbed(v: Json, cap: nat)
    requires MessagesOf(v).Some? && BodySize(v, TierA(v, cap).0) > cap
    ensures TierA(v, cap).0 == AllStubbed(MessagesOf(v).value)
  {
    var ms, out := MessagesOf(v).value, TierA(v, cap).0;
    TierAFacts(v, cap);
    TierAContents(v, cap);
    assert Candidates(ms)[..TierA(v, cap).1] == Candidates(ms);
    forall i | 0 <= i < |ms| ensures out[i] == Stubbed(ms[i]) {
      MessageAfterAll(ms, i);
    }
  }
}
