/**
 * A small encoding that meets what the usage rewriter assumes of printing, and
 * an event with CR LF line ends that it rewrites into something that is no
 * longer one event.
 */
module UsageExample {
  import opened Wrappers
  import opened Json
  import opened Sse
  import opened UsageTruth

  // ----- documents with one count -------------------------------------------

  function Doc(n: nat): Json {
    Obj([Field("usage", Obj([Field("input_tokens", Int(n))]))])
  }

  /** `{"usage":{"input_tokens":` and `}}` around the digits. */
  const HEAD: Bytes := [123] + USAGE + [58, 123, 34, 105, 110, 112, 117, 116, 95, 116, 111, 107, 101, 110, 115, 34, 58]
  const TAIL: Bytes := [125, 125]

  predicate IsDigit(b: byte) {
    48 <= b < 58
  }

  predicate AreDigits(b: Bytes) {
    b != [] && forall i :: 0 <= i < |b| ==> IsDigit(b[i])
  }

  function Digits(n: nat): (b: Bytes)
    ensures AreDigits(b)
  {
    if n < 10 then [48 + n] else Digits(n / 10) + [48 + n % 10]
  }

  function Number(b: Bytes): nat
    requires AreDigits(b)
  {
    if |b| == 1 then b[0] - 48 else 10 * Number(b[..|b| - 1]) + (b[|b| - 1] - 48)
  }

  lemma {:induction false} NumberOfDigits(n: nat)
    ensures Number(Digits(n)) == n
  {
    if n >= 10 {
      NumberOfDigits(n / 10);
      assert Digits(n)[..|Digits(n)| - 1] == Digits(n / 10);
    }
  }

  function Text(n: nat): Bytes {
    HEAD + Digits(n) + TAIL
  }

  function DropLast(b: Bytes, c: byte): Bytes {
    if b != [] && b[|b| - 1] == c then b[..|b| - 1] else b
  }

  function Trimmed(b: Bytes): Bytes {
    DropLast(DropLast(b, LF), CR)
  }

  function Parse(b: Bytes): Option<Json> {
    var t := Trimmed(b);
    var mid := if |t| >= |HEAD| + |TAIL| then t[|HEAD|..|t| - |TAIL|] else [];
    if AreDigits(mid) && t == HEAD + mid + TAIL then Some(Doc(Number(mid))) else None
  }

  /** The count of a document of this kind. */
  function CountOf(v: Json): nat {
    if InputOf(v).Some? then InputOf(v).value else 0
  }

  const CODEC: Codec := Codec((b: Bytes) => true, (b: Bytes) => Parse(b), (v: Json) => Text(CountOf(v)))

  // ----- it meets what the rewriter assumes ----------------------------------

  lemma DocFacts(n: nat)
    ensures !InMessage(Doc(n)) && UsageOf(Doc(n)).Some?
    ensures InputOf(Doc(n)) == if n < U64 then Some(n) else None
    ensures n < U64 ==> TrueInput(Doc(n)) == n
  {
    var inner := [Field("input_tokens", Int(n))];
    assert inner[1..] == [] && Doc(n).fields[1..] == [];
    assert Lookup(inner, "cache_read_input_tokens").None? && Lookup(inner, "cache_creation_input_tokens").None?;
    assert Lookup(Doc(n).fields, "message").None?;
  }

  lemma DocWithInput(n: nat, m: nat)
    requires n < U64 && InputOf(Doc(n)).Some? && !InMessage(Doc(n))
    ensures WithInput(Doc(n), m) == Doc(m)
  {
    var inner := [Field("input_tokens", Int(n))];
    assert Replace(inner, "input_tokens", Int(m)) == [Field("input_tokens", Int(m))];
    assert Replace(Doc(n).fields, "usage", Obj([Field("input_tokens", Int(m))])) == Doc(m).fields;
  }

  lemma TrimmedText(n: nat)
    ensures Trimmed(Text(n)) == Trimmed(Text(n) + [LF]) == Trimmed(Text(n) + [CR, LF]) == Text(n)
  {
    var t := Text(n);
    assert t[|t| - 1] == 125;
    assert (t + [LF])[..|t|] == t;
    assert t + [CR, LF] == t + [CR] + [LF];
    assert (t + [CR] + [LF])[..|t| + 1] == t + [CR] && (t + [CR])[..|t|] == t;
  }

  lemma TextParses(n: nat, b: Bytes)
    requires Trimmed(b) == Text(n)
    ensures Parse(b) == Some(Doc(n))
  {
    var t := Text(n);
    assert t[|HEAD|..|t| - |TAIL|] == Digits(n);
    NumberOfDigits(n);
  }

  lemma TextIsClean(n: nat)
    ensures LF !in Text(n) && CR !in Text(n) && !StartsBlank(Text(n))
  {
    forall i | 0 <= i < |Text(n)| ensures Text(n)[i] != LF && Text(n)[i] != CR {
      if i < |HEAD| {
        assert Text(n)[i] == HEAD[i] && HEAD[i] >= 34;
      } else if i < |HEAD| + |Digits(n)| {
        assert IsDigit(Digits(n)[i - |HEAD|]);
      }
    }
    assert Text(n)[0] == HEAD[0] == 123;
  }

  lemma BumpedDoc(est: nat, n: nat)
    ensures Bump(est, Doc(n)).Some? ==> n < U64 && Bump(est, Doc(n)) == Some(Doc(Wrap(est)))
    ensures n < est < U64 ==> Bump(est, Doc(n)) == Some(Doc(est))
  {
    DocFacts(n);
    if n < U64 {
      DocWithInput(n, Wrap(n + (if est > n then est - n else 0)));
    }
  }

  lemma DocRendersBack(m: nat)
    requires m < U64
    ensures RendersBack(CODEC, Doc(m))
  {
    DocFacts(m);
    TextIsClean(m);
    TrimmedText(m);
    TextParses(m, Text(m));
    TextParses(m, Text(m) + [LF]);
  }

  lemma CodecIsFaithful()
    ensures Faithful(CODEC)
  {
    forall est: nat, line: Bytes | BumpedPayload(CODEC, est, line).Some?
      ensures RendersBack(CODEC, BumpedPayload(CODEC, est, line).value)
    {
      var json := CODEC.parse(line[PrefixLen(line).value..]).value;
      var n :| json == Doc(n);
      BumpedDoc(est, n);
      WrapFits(est);
      DocRendersBack(Wrap(est));
    }
  }

  // ----- an event that does not stay one -------------------------------------

  /** `data: ` and a document that reports one token. */
  function DataLine(): Bytes {
    DATA + [SPACE] + Text(1) + [CR, LF]
  }

  function CrLfEvent(): Bytes {
    DataLine() + [CR, LF]
  }

  lemma DataLineFacts()
    ensures IsLine(DataLine()) && Terminated(DataLine()) && EndsCrLf(DataLine())
    ensures PrefixLen(DataLine()) == Some(6) && DataLine()[6..] == Text(1) + [CR, LF]
  {
    var line, front := DataLine(), DATA + [SPACE];
    TextIsClean(1);
    assert line[..6] == front && line[..5] == DATA;
    assert line == front + (Text(1) + [CR, LF]);
    forall j | 0 <= j < |line| - 1 ensures line[j] != LF {
      if j >= 6 && j < 6 + |Text(1)| {
        assert line[j] == Text(1)[j - 6];
      }
    }
  }

  lemma DataLineBumped()
    ensures BumpedPayload(CODEC, 2, DataLine()) == Some(Doc(2))
  {
    DataLineFacts();
    TrimmedText(1);
    TextParses(1, Text(1) + [CR, LF]);
    BumpedDoc(2, 1);
  }

  function CrLfLines(): seq<Bytes> {
    [DataLine(), [CR, LF]]
  }

  lemma CrLfEventLines()
    ensures AreLines(CrLfLines()) && Joined(CrLfLines()) == CrLfEvent() && Lines(CrLfEvent()) == CrLfLines()
  {
    DataLineFacts();
    JoinedPair(DataLine(), [CR, LF]);
    LinesOfJoined(CrLfLines());
  }

  lemma JoinedPair(a: Bytes, b: Bytes)
    ensures Joined([a, b]) == a + b
  {
    assert [a, b][1..] == [b] && [b][1..] == [];
    assert Joined([b]) == b + [] == b;
  }

  /** A line and a blank one, both ending in CR LF, are an event. */
  lemma LineAndBlank(line: Bytes)
    requires AreLines([line, [CR, LF]]) && EndsCrLf(line)
    ensures IsEvent(Joined([line, [CR, LF]]))
  {
    var lines, all := [line, [CR, LF]], Joined([line, [CR, LF]]);
    CompletedByLastCons([], line, [[CR, LF]]);
    assert [] + line == line && [] + all == all;
    assert lines == [line] + [[CR, LF]];
    EventByLines([], lines);
  }

  lemma CrLfEventIsEvent()
    ensures IsEvent(CrLfEvent())
  {
    CrLfEventLines();
    DataLineFacts();
    LineAndBlank(DataLine());
  }

  lemma CrLfEventHasUsage()
    ensures Contains(CrLfEvent(), USAGE)
  {
    var b := CrLfEvent();
    var front, rest := DATA + [SPACE, 123], HEAD[1 + |USAGE|..] + Digits(1) + TAIL + [CR, LF] + [CR, LF];
    assert b == front + USAGE + rest;
    assert b[7..7 + |USAGE|] == USAGE;
    assert WindowAt(b, 7, USAGE);
  }

  /** The line of the bumped document. */
  function BumpedLine(): Bytes {
    DATA + [SPACE] + Text(2) + [LF]
  }

  lemma DataLineRewritten()
    ensures RewriteLine(CODEC, 2, DataLine()) == BumpedLine()
  {
    DataLineFacts();
    DataLineBumped();
    DocFacts(2);
    assert DataLine()[..6] == DATA + [SPACE];
  }

  lemma CrLfEventRewritten()
    ensures RewriteEvent(CODEC, 2, CrLfEvent()) == BumpedLine() + [CR, LF]
  {
    CrLfEventHasUsage();
    CrLfEventLines();
    DataLineRewritten();
    CodecIsFaithful();
    BlankIsNotBumped(CODEC, 2, [CR, LF]);
    assert Mended(CODEC, 2, CrLfLines()) == [BumpedLine(), [CR, LF]];
    JoinedPair(BumpedLine(), [CR, LF]);
  }

  /** The rewritten event has lost its delimiter, although the encoding is faithful and the event was one. */
  lemma CrLfEventParts()
    ensures Faithful(CODEC) && IsEvent(CrLfEvent())
    ensures RewriteEvent(CODEC, 2, CrLfEvent()) == BumpedLine() + [CR, LF]
    ensures !IsEvent(RewriteEvent(CODEC, 2, CrLfEvent()))
  {
    CodecIsFaithful();
    CrLfEventIsEvent();
    CrLfEventHasUsage();
    CrLfEventLines();
    CrLfEventRewritten();
    DataLineBumped();
    EventStaysOne(CODEC, 2, CrLfEvent());
  }
}
