/**
 * Events of a byte stream: they are cut out at blank lines and rewritten one
 * at a time, and what comes out does not depend on how the network cut the
 * stream.
 */
module Sse {
  import opened Wrappers

  type byte = x: int | 0 <= x < 256
  type Bytes = seq<byte>

  const LF: byte := 10
  const CR: byte := 13

  // ----- where events end ---------------------------------------------------

  /** `needle` stands in `b` at `p`. */
  predicate WindowAt(b: Bytes, p: nat, needle: Bytes) {
    p + |needle| <= |b| && b[p..p + |needle|] == needle
  }

  /** A delimiter ends just before position `e`: LF LF, or CR LF CR LF. */
  predicate EndsAt(b: Bytes, e: nat) {
    && e <= |b|
    && ((e >= 2 && b[e - 2] == LF && b[e - 1] == LF)
        || (e >= 4 && b[e - 4] == CR && b[e - 3] == LF && b[e - 2] == CR && b[e - 1] == LF))
  }

  /** One of the two delimiters stands as a window just before `e`. */
  predicate DelimiterBefore(b: Bytes, e: nat) {
    (e >= 2 && WindowAt(b, e - 2, [LF, LF])) || (e >= 4 && WindowAt(b, e - 4, [CR, LF, CR, LF]))
  }

  lemma EndsAtIsWindow(b: Bytes, e: nat)
    ensures EndsAt(b, e) <==> DelimiterBefore(b, e)
  {
    if 2 <= e <= |b| {
      IsPair(b[e - 2..e], LF, LF);
    }
    if 4 <= e <= |b| {
      IsPair(b[e - 4..e][..2], CR, LF);
      IsPair(b[e - 4..e][2..], CR, LF);
      assert [CR, LF, CR, LF] == [CR, LF] + [CR, LF];
      assert b[e - 4..e] == b[e - 4..e][..2] + b[e - 4..e][2..];
    }
  }

  lemma IsPair(w: Bytes, x: byte, y: byte)
    requires |w| == 2
    ensures w == [x, y] <==> w[0] == x && w[1] == y
  {
  }

  /** The first end at or after `from`; from 0, the length of the first complete event. */
  function FirstEnd(b: Bytes, from: nat): (r: Option<nat>)
    ensures r.Some? ==> Max(from, 2) <= r.value <= |b|
    decreases |b| - from
  {
    if from > |b| then None
    else if EndsAt(b, from) then Some(from)
    else FirstEnd(b, from + 1)
  }

  lemma {:induction false} FirstEndEnds(b: Bytes, from: nat)
    requires FirstEnd(b, from).Some?
    ensures EndsAt(b, FirstEnd(b, from).value)
    decreases |b| - from
  {
    if !EndsAt(b, from) {
      FirstEndEnds(b, from + 1);
    }
  }

  lemma {:induction false} NoEarlierEnd(b: Bytes, from: nat, e: nat)
    requires from <= e && EndsAt(b, e)
    ensures FirstEnd(b, from).Some? && FirstEnd(b, from).value <= e
    decreases e - from
  {
    if from < e && !EndsAt(b, from) {
      NoEarlierEnd(b, from + 1, e);
    }
  }

  lemma FirstEndIsFirst(b: Bytes)
    ensures var r := FirstEnd(b, 0);
      if r.Some? then EndsAt(b, r.value) && forall e: nat :: e < r.value ==> !EndsAt(b, e)
      else forall e: nat :: !EndsAt(b, e)
  {
    if FirstEnd(b, 0).Some? {
      FirstEndEnds(b, 0);
    }
    forall e: nat | EndsAt(b, e) ensures FirstEnd(b, 0).Some? && FirstEnd(b, 0).value <= e {
      NoEarlierEnd(b, 0, e);
    }
  }

  /** `windows(n).position`. */
  method WindowPosition(b: Bytes, needle: Bytes) returns (r: Option<nat>)
    ensures r.Some? ==> WindowAt(b, r.value, needle) && forall p :: 0 <= p < r.value ==> !WindowAt(b, p, needle)
    ensures r.None? ==> forall p: nat :: !WindowAt(b, p, needle)
  {
    var i := 0;
    while i + |needle| <= |b|
      invariant 0 <= i
      invariant forall p :: 0 <= p < i ==> !WindowAt(b, p, needle)
    {
      if b[i..i + |needle|] == needle {
        return Some(i);
      }
      i := i + 1;
    }
    return None;
  }

  /** The smaller of the two first matches is the first end. */
  method FindDoubleNewline(b: Bytes) returns (r: Option<nat>)
    ensures r == FirstEnd(b, 0)
  {
    var lf := WindowPosition(b, [LF, LF]);
    var crlf := WindowPosition(b, [CR, LF, CR, LF]);
    var a := if lf.Some? then Some(lf.value + 2) else None;
    var c := if crlf.Some? then Some(crlf.value + 4) else None;
    r := if a.Some? && c.Some? then Some(Min(a.value, c.value)) else if a.Some? then a else c;
    forall e: nat ensures EndsAt(b, e) <==> DelimiterBefore(b, e) {
      EndsAtIsWindow(b, e);
    }
    FirstEndIs(b, r);
  }

  lemma FirstEndIs(b: Bytes, r: Option<nat>)
    requires r.Some? ==> EndsAt(b, r.value)
    requires forall e: nat :: EndsAt(b, e) ==> r.Some? && r.value <= e
    ensures r == FirstEnd(b, 0)
  {
    FirstEndIsFirst(b);
  }

  /** The bytes before `e` end in two line feeds, or in two pairs of carriage return and line feed. */
  predicate BlankLineBefore(b: Bytes, e: nat) {
    e <= |b| && ((e >= 2 && b[e - 2..e] == [10, 10]) || (e >= 4 && b[e - 4..e] == [13, 10, 13, 10]))
  }

  /** The first complete event reaches to the end of the first blank line. */
  lemma FirstEndIff(b: Bytes, e: nat)
    ensures FirstEnd(b, 0) == Some(e) <==>
              BlankLineBefore(b, e) && forall d :: 0 <= d < e ==> !BlankLineBefore(b, d)
    ensures FirstEnd(b, 0).None? <==> forall d: nat :: !BlankLineBefore(b, d)
  {
    forall d: nat ensures EndsAt(b, d) <==> BlankLineBefore(b, d) {
      EndsAtIsWindow(b, d);
    }
    FirstIsLeast(b, FirstEnd(b, 0));
  }

  lemma FirstIsLeast(b: Bytes, r: Option<nat>)
    requires r == FirstEnd(b, 0)
    ensures r.Some? ==> EndsAt(b, r.value) && forall e: nat :: e < r.value ==> !EndsAt(b, e)
    ensures r.None? ==> forall e: nat :: !EndsAt(b, e)
  {
    FirstEndIsFirst(b);
  }

  // ----- the whole stream at once -------------------------------------------

  type Rewriter = Bytes -> Bytes

  /** Every complete event rewritten once, in order, and the incomplete tail verbatim. */
  function Whole(rewrite: Rewriter, b: Bytes): Bytes
    decreases |b|
  {
    var e := FirstEnd(b, 0);
    if e.None? then b else rewrite(b[..e.value]) + Whole(rewrite, b[e.value..])
  }

  /** What leaves the carry buffer `b`, and what stays in it. */
  function Emitted(rewrite: Rewriter, b: Bytes): Bytes
    decreases |b|
  {
    var e := FirstEnd(b, 0);
    if e.None? then [] else rewrite(b[..e.value]) + Emitted(rewrite, b[e.value..])
  }

  function Rest(b: Bytes): (r: Bytes)
    ensures FirstEnd(r, 0).None?
    decreases |b|
  {
    var e := FirstEnd(b, 0);
    if e.None? then b else Rest(b[e.value..])
  }

  lemma EndStable(a: Bytes, b: Bytes, e: nat)
    requires e <= |a|
    ensures EndsAt(a + b, e) == EndsAt(a, e)
  {
  }

  /** More bytes never move an end that was already there. */
  lemma FirstEndStable(a: Bytes, b: Bytes)
    requires FirstEnd(a, 0).Some?
    ensures FirstEnd(a + b, 0) == FirstEnd(a, 0)
  {
    var e := FirstEnd(a, 0).value;
    FirstEndIsFirst(a);
    EndStable(a, b, e);
    forall f | 0 <= f < e ensures !EndsAt(a + b, f) {
      EndStable(a, b, f);
    }
    FirstEndFrom(a + b, 0, e);
  }

  lemma {:induction false} FirstEndFrom(b: Bytes, from: nat, e: nat)
    requires from <= e && EndsAt(b, e)
    requires forall f :: from <= f < e ==> !EndsAt(b, f)
    ensures FirstEnd(b, from) == Some(e)
    decreases e - from
  {
    if from < e {
      FirstEndFrom(b, from + 1, e);
    }
  }

  /** Feeding more after emptying the carry is feeding everything at once. */
  lemma {:induction false} WholeAppends(rewrite: Rewriter, a: Bytes, b: Bytes)
    ensures Whole(rewrite, a + b) == Emitted(rewrite, a) + Whole(rewrite, Rest(a) + b)
    decreases |a|
  {
    var e := FirstEnd(a, 0);
    if e.None? {
      assert [] + Whole(rewrite, a + b) == Whole(rewrite, a + b);
    } else {
      FirstEndStable(a, b);
      assert (a + b)[..e.value] == a[..e.value] && (a + b)[e.value..] == a[e.value..] + b;
      WholeAppends(rewrite, a[e.value..], b);
      var first, more, last := rewrite(a[..e.value]), Emitted(rewrite, a[e.value..]), Whole(rewrite, Rest(a) + b);
      assert first + (more + last) == first + more + last;
    }
  }

  // ----- chunk by chunk -----------------------------------------------------

  function Joined(chunks: seq<Bytes>): Bytes {
    if chunks == [] then [] else chunks[0] + Joined(chunks[1..])
  }

  /** What `transform` returns over the chunks from a carry, and `flush` at the end. */
  function Streamed(rewrite: Rewriter, carry: Bytes, chunks: seq<Bytes>): Bytes
    decreases chunks
  {
    if chunks == [] then carry
    else Emitted(rewrite, carry + chunks[0]) + Streamed(rewrite, Rest(carry + chunks[0]), chunks[1..])
  }

  lemma {:induction false} StreamedIsWhole(rewrite: Rewriter, carry: Bytes, chunks: seq<Bytes>)
    requires FirstEnd(carry, 0).None?
    ensures Streamed(rewrite, carry, chunks) == Whole(rewrite, carry + Joined(chunks))
    decreases chunks
  {
    if chunks == [] {
      assert carry + [] == carry;
    } else {
      assert carry + (chunks[0] + Joined(chunks[1..])) == carry + chunks[0] + Joined(chunks[1..]);
      WholeAppends(rewrite, carry + chunks[0], Joined(chunks[1..]));
      StreamedIsWhole(rewrite, Rest(carry + chunks[0]), chunks[1..]);
    }
  }

  /** The output depends on the stream, not on how it was cut. */
  lemma ChunkingIsInvisible(rewrite: Rewriter, chunks: seq<Bytes>, others: seq<Bytes>)
    requires Joined(chunks) == Joined(others)
    ensures Streamed(rewrite, [], chunks) == Streamed(rewrite, [], others) == Whole(rewrite, Joined(chunks))
  {
    StreamedIsWhole(rewrite, [], chunks);
    StreamedIsWhole(rewrite, [], others);
    assert [] + Joined(chunks) == Joined(chunks);
  }

  // ----- event by event -----------------------------------------------------

  /** The events of a stream, in order. */
  function Events(b: Bytes): seq<Bytes>
    decreases |b|
  {
    var e := FirstEnd(b, 0);
    if e.None? then [] else [b[..e.value]] + Events(b[e.value..])
  }

  function Mapped(rewrite: Rewriter, events: seq<Bytes>): seq<Bytes> {
    if events == [] then [] else [rewrite(events[0])] + Mapped(rewrite, events[1..])
  }

  /** One event and nothing else, up to its delimiter. */
  predicate IsEvent(b: Bytes) {
    FirstEnd(b, 0) == Some(|b|)
  }

  lemma EventsCons(b: Bytes)
    requires FirstEnd(b, 0).Some?
    ensures var e := FirstEnd(b, 0).value;
      Events(b)[0] == b[..e] && Events(b)[1..] == Events(b[e..]) && IsEvent(b[..e])
  {
    var e := FirstEnd(b, 0).value;
    assert Events(b) == [b[..e]] + Events(b[e..]);
    FirstEndIsFirst(b);
    assert b[..e] + b[e..] == b;
    EndStable(b[..e], b[e..], e);
    forall f | 0 <= f < e ensures !EndsAt(b[..e], f) {
      EndStable(b[..e], b[e..], f);
    }
    FirstEndFrom(b[..e], 0, e);
  }

  lemma {:induction false} EventsAreEvents(b: Bytes)
    ensures forall i :: 0 <= i < |Events(b)| ==> IsEvent(Events(b)[i])
    decreases |b|
  {
    var e := FirstEnd(b, 0);
    if e.Some? {
      EventsCons(b);
      EventsAreEvents(b[e.value..]);
      forall i | 0 <= i < |Events(b)| ensures IsEvent(Events(b)[i]) {
        if i > 0 {
          assert Events(b)[i] == Events(b)[1..][i - 1];
        }
      }
    }
  }

  lemma EventsOfAppended(ev: Bytes, b: Bytes)
    requires IsEvent(ev)
    ensures Events(ev + b) == [ev] + Events(b)
    ensures Rest(ev + b) == Rest(b)
  {
    FirstEndStable(ev, b);
    assert (ev + b)[..|ev|] == ev && (ev + b)[|ev|..] == b;
  }

  /** If every rewritten event is still one event, the outgoing stream has exactly the rewritten events. */
  lemma {:induction false} EventsOfWhole(rewrite: Rewriter, b: Bytes)
    requires forall i :: 0 <= i < |Events(b)| ==> IsEvent(rewrite(Events(b)[i]))
    ensures Events(Whole(rewrite, b)) == Mapped(rewrite, Events(b))
    ensures Rest(Whole(rewrite, b)) == Rest(b)
    decreases |b|
  {
    var e := FirstEnd(b, 0);
    if e.Some? {
      EventsCons(b);
      var tail := b[e.value..];
      forall i | 0 <= i < |Events(tail)| ensures IsEvent(rewrite(Events(tail)[i])) {
        assert Events(tail)[i] == Events(b)[i + 1];
      }
      EventsOfWhole(rewrite, tail);
      EventsOfAppended(rewrite(b[..e.value]), Whole(rewrite, tail));
    }
  }

  /** A stream none of whose events is changed comes out as it went in. */
  lemma {:induction false} UnchangedStream(rewrite: Rewriter, b: Bytes)
    requires forall i :: 0 <= i < |Events(b)| ==> rewrite(Events(b)[i]) == Events(b)[i]
    ensures Whole(rewrite, b) == b
    decreases |b|
  {
    var e := FirstEnd(b, 0);
    if e.Some? {
      EventsCons(b);
      var tail := b[e.value..];
      forall i | 0 <= i < |Events(tail)| ensures rewrite(Events(tail)[i]) == Events(tail)[i] {
        assert Events(tail)[i] == Events(b)[i + 1];
      }
      UnchangedStream(rewrite, tail);
      assert b == b[..e.value] + tail;
    }
  }
}
