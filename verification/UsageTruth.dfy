/**
 * The rewriting of one event, the bump of its usage object, and the object
 * that does this to a stream chunk by chunk.
 */
module UsageTruth {
  import opened Wrappers
  import opened Json
  import opened Sse

  const U64: nat := 0x1_0000_0000_0000_0000

  // ----- the usage object ---------------------------------------------------

  /** Arithmetic on 64 bits: the remainder modulo 2^64. */
  function Wrap(n: nat): nat {
    if n < U64 then n else Wrap(n - U64)
  }

  lemma {:induction false} WrapIsRemainder(n: nat)
    ensures Wrap(n) == n % U64
    decreases n
  {
    if n >= U64 {
      WrapIsRemainder(n - U64);
      assert n == n - U64 + 1 * U64;
    }
  }

  lemma {:induction false} WrapFits(n: nat)
    ensures Wrap(n) < U64 && Wrap(n) <= n
    decreases n
  {
    if n >= U64 {
      WrapFits(n - U64);
    }
  }

  function AsU64(v: Option<Json>): (r: Option<nat>)
    ensures r.Some? ==> r.value < U64
  {
    if v.Some? && v.value.Int? && 0 <= v.value.n < U64 then Some(v.value.n) else None
  }

  function U64Or0(v: Option<Json>): (r: nat)
    ensures r < U64
  {
    var n := AsU64(v);
    if n.Some? then n.value else 0
  }

  /** `/message/usage` resolves. */
  predicate InMessage(json: Json) {
    Get(json, "message").Some? && Get(Get(json, "message").value, "usage").Some?
  }

  /** `/message/usage`, or else `/usage`. */
  function UsageOf(json: Json): Option<Json> {
    if InMessage(json) then Get(Get(json, "message").value, "usage") else Get(json, "usage")
  }

  function InputOf(json: Json): Option<nat> {
    var usage := UsageOf(json);
    if usage.Some? then AsU64(Get(usage.value, "input_tokens")) else None
  }

  /** The two cache counts of the usage object. */
  function CacheInput(json: Json): nat
    requires UsageOf(json).Some?
  {
    var usage := UsageOf(json).value;
    U64Or0(Get(usage, "cache_read_input_tokens")) + U64Or0(Get(usage, "cache_creation_input_tokens"))
  }

  /** What the input side of the usage object adds up to without a width. */
  function TrueInput(json: Json): nat
    requires InputOf(json).Some?
  {
    InputOf(json).value + CacheInput(json)
  }

  /** What it adds up to in 64 bits. */
  function Reported(json: Json): nat
    requires InputOf(json).Some?
  {
    Wrap(TrueInput(json))
  }

  function WithInput(json: Json, n: nat): Json
    requires InputOf(json).Some?
  {
    var usage := Set(UsageOf(json).value, "input_tokens", Int(n));
    if InMessage(json) then Set(json, "message", Set(Get(json, "message").value, "usage", usage))
    else Set(json, "usage", usage)
  }

  /** `bump_usage`: the changed document, or nothing when the report is already large enough. */
  function Bump(est: nat, json: Json): Option<Json> {
    if InputOf(json).None? || est <= Reported(json) then None
    else Some(WithInput(json, Wrap(InputOf(json).value + (est - Reported(json)))))
  }

  /** The document as it leaves, bumped or not. */
  function Bumped(est: nat, json: Json): Json {
    var bump := Bump(est, json);
    if bump.Some? then bump.value else json
  }

  /** Writing the input count changes the input count and not the cache counts. */
  lemma WithInputUsage(json: Json, n: nat)
    requires InputOf(json).Some? && n < U64
    ensures var k := WithInput(json, n);
      InMessage(k) == InMessage(json) && InputOf(k) == Some(n) && TrueInput(k) == n + CacheInput(json)
  {
    var was := UsageOf(json).value;
    var usage := Set(was, "input_tokens", Int(n));
    GetSet(was, "input_tokens", Int(n), "input_tokens");
    GetSet(was, "input_tokens", Int(n), "cache_read_input_tokens");
    GetSet(was, "input_tokens", Int(n), "cache_creation_input_tokens");
    if InMessage(json) {
      var message := Get(json, "message").value;
      GetSet(message, "usage", usage, "usage");
      GetSet(json, "message", Set(message, "usage", usage), "message");
    } else {
      GetSet(json, "usage", usage, "usage");
      GetSet(json, "usage", usage, "message");
    }
  }

  lemma SetTwice(v: Json, key: string, x: Json, y: Json)
    ensures Set(Set(v, key, x), key, y) == Set(v, key, y)
  {
    if v.Obj? {
      ReplaceTwice(v.fields, key, x, y);
    }
  }

  lemma WithInputTwice(json: Json, m: nat, n: nat)
    requires InputOf(json).Some? && m < U64
    ensures InputOf(WithInput(json, m)).Some? && WithInput(WithInput(json, m), n) == WithInput(json, n)
  {
    WithInputUsage(json, m);
    var was := UsageOf(json).value;
    var first, second := Set(was, "input_tokens", Int(m)), Set(was, "input_tokens", Int(n));
    SetTwice(was, "input_tokens", Int(m), Int(n));
    if InMessage(json) {
      var message := Get(json, "message").value;
      GetSet(message, "usage", first, "usage");
      GetSet(json, "message", Set(message, "usage", first), "message");
      SetTwice(message, "usage", first, second);
      SetTwice(json, "message", Set(message, "usage", first), Set(message, "usage", second));
    } else {
      GetSet(json, "usage", first, "usage");
      SetTwice(json, "usage", first, second);
    }
  }

  lemma SetSame(v: Json, key: string)
    requires Get(v, key).Some?
    ensures Set(v, key, Get(v, key).value) == v
  {
    ReplaceSame(v.fields, key);
  }

  lemma WithInputSame(json: Json)
    requires InputOf(json).Some?
    ensures WithInput(json, InputOf(json).value) == json
  {
    var usage := UsageOf(json).value;
    SetSame(usage, "input_tokens");
    if InMessage(json) {
      SetSame(Get(json, "message").value, "usage");
      SetSame(json, "message");
    } else {
      SetSame(json, "usage");
    }
  }

  /** Wrapping early or late makes no difference. */
  lemma {:induction false} WrapTwice(a: nat, b: nat)
    ensures Wrap(Wrap(a) + b) == Wrap(a + b)
    decreases a
  {
    if a >= U64 {
      WrapTwice(a - U64, b);
    }
  }

  /** Adding in 64 bits what the wrapped total lacks of `est` makes the wrapped total `est`. */
  lemma {:induction false} WrapLacks(total: nat, est: nat)
    requires Wrap(total) < est < U64
    ensures Wrap(total + (est - Wrap(total))) == est
    decreases total
  {
    if total >= U64 {
      WrapLacks(total - U64, est);
    }
  }

  lemma BumpSum(input: nat, rest: nat, est: nat)
    requires Wrap(input + rest) < est < U64
    ensures var n := Wrap(input + (est - Wrap(input + rest)));
      Wrap(n + rest) == est && (input + rest < U64 ==> n + rest == est)
  {
    var lacks := est - Wrap(input + rest);
    WrapTwice(input + lacks, rest);
    WrapLacks(input + rest, est);
  }

  lemma BumpReports(est: nat, json: Json)
    requires est < U64 && Bump(est, json).Some?
    ensures var after := Bumped(est, json);
      InputOf(after).Some? && Reported(after) == est && (TrueInput(json) < U64 ==> TrueInput(after) == est)
  {
    var input, rest := InputOf(json).value, CacheInput(json);
    var n := Wrap(input + (est - Reported(json)));
    WrapFits(input + (est - Reported(json)));
    WithInputUsage(json, n);
    BumpSum(input, rest, est);
  }

  /** The report becomes the larger of itself and the estimate, and only the input count moves to get there. */
  lemma BumpIsMonotonicMax(est: nat, json: Json)
    requires InputOf(json).Some? && est < U64
    ensures var after := Bumped(est, json);
      && InputOf(after).Some?
      && Reported(after) == Max(Reported(json), est)
      && (TrueInput(json) < U64 ==> TrueInput(after) == Max(TrueInput(json), est))
      && WithInput(after, InputOf(json).value) == json
  {
    WithInputSame(json);
    if Bump(est, json).Some? {
      BumpReports(est, json);
      WrapFits(InputOf(json).value + (est - Reported(json)));
      WithInputTwice(json, Wrap(InputOf(json).value + (est - Reported(json))), InputOf(json).value);
    }
  }

  /** The count a usage object gives under a name; what is no unsigned 64-bit integer counts for nothing. */
  predicate Counts(usage: Json, name: string, n: nat) {
    match Get(usage, name)
    case Some(Int(k)) => n == if 0 <= k <= 0xFFFF_FFFF_FFFF_FFFF then k else 0
    case _ => n == 0
  }

  /** The three input counts of a usage object, adding up within 64 bits. */
  predicate InputCounts(usage: Json, input: nat, read: nat, created: nat) {
    && Get(usage, "input_tokens") == Some(Int(input))
    && Counts(usage, "cache_read_input_tokens", read)
    && Counts(usage, "cache_creation_input_tokens", created)
    && input + read + created <= 0xFFFF_FFFF_FFFF_FFFF
  }

  lemma BumpByCounts(est: nat, json: Json, usage: Json, input: nat, read: nat, created: nat)
    requires UsageOf(json) == Some(usage) && InputCounts(usage, input, read, created) && est < U64
    ensures InputOf(json).Some?
    ensures Bumped(est, json) ==
      if est <= input + read + created then json else WithInput(json, est - read - created)
  {
  }

  /** The usage of a message: its input count becomes what the estimate leaves beside both cache counts. */
  lemma BumpInMessage(est: nat, json: Json, message: Json, usage: Json, input: nat, read: nat, created: nat)
    requires Get(json, "message") == Some(message) && Get(message, "usage") == Some(usage)
    requires InputCounts(usage, input, read, created) && est <= 0xFFFF_FFFF_FFFF_FFFF
    ensures est <= input + read + created ==> Bumped(est, json) == json
    ensures est > input + read + created ==>
              Bumped(est, json) ==
              Set(json, "message", Set(message, "usage", Set(usage, "input_tokens", Int(est - read - created))))
  {
    BumpByCounts(est, json, usage, input, read, created);
  }

  /** The usage of the event itself, when the message has none. */
  lemma BumpAtTop(est: nat, json: Json, usage: Json, input: nat, read: nat, created: nat)
    requires Get(json, "message").None? || Get(Get(json, "message").value, "usage").None?
    requires Get(json, "usage") == Some(usage)
    requires InputCounts(usage, input, read, created) && est <= 0xFFFF_FFFF_FFFF_FFFF
    ensures est <= input + read + created ==> Bumped(est, json) == json
    ensures est > input + read + created ==>
              Bumped(est, json) == Set(json, "usage", Set(usage, "input_tokens", Int(est - read - created)))
  {
    BumpByCounts(est, json, usage, input, read, created);
  }

  /** Bumping to one estimate and then to another is bumping once to the larger. */
  lemma BumpTwice(e: nat, f: nat, json: Json)
    requires e < U64 && f < U64
    ensures Bumped(f, Bumped(e, json)) == Bumped(Max(e, f), json)
  {
    if InputOf(json).Some? && Bump(e, json).Some? {
      BumpReports(e, json);
      if f > e {
        BumpHigher(e, f, json);
      }
    }
  }

  lemma WrapHigher(input: nat, total: nat, e: nat, f: nat)
    requires total < e < f < U64
    ensures Wrap(input + (e - total)) < U64
    ensures Wrap(Wrap(input + (e - total)) + (f - e)) == Wrap(input + (f - total))
  {
    WrapFits(input + (e - total));
    WrapTwice(input + (e - total), f - e);
  }

  lemma BumpHigher(e: nat, f: nat, json: Json)
    requires Bump(e, json).Some? && e < f < U64
    requires InputOf(Bumped(e, json)).Some? && Reported(Bumped(e, json)) == e
    ensures Bumped(f, Bumped(e, json)) == Bumped(f, json)
  {
    var input, total := InputOf(json).value, Reported(json);
    var n := Wrap(input + (e - total));
    WrapHigher(input, total, e, f);
    BumpFromBumped(json, n, e, f, Wrap(input + (f - total)));
  }

  lemma BumpFromBumped(json: Json, n: nat, e: nat, f: nat, m: nat)
    requires InputOf(json).Some? && n < U64 && e < f && m == Wrap(n + (f - e))
    requires InputOf(WithInput(json, n)).Some? && Reported(WithInput(json, n)) == e
    ensures Bumped(f, WithInput(json, n)) == WithInput(json, m)
  {
    WithInputUsage(json, n);
    WithInputTwice(json, n, m);
  }

  // ----- one event ----------------------------------------------------------

  /** Text encoding and JSON text, as the rewriter meets them: `parse` ignores trailing white space. */
  datatype Codec = Codec(utf8: Bytes -> bool, parse: Bytes -> Option<Json>, render: Json -> Bytes)

  const DATA: Bytes := [100, 97, 116, 97, 58]
  const SPACE: byte := 32
  const USAGE: Bytes := [34, 117, 115, 97, 103, 101, 34]

  predicate Contains(b: Bytes, needle: Bytes) {
    exists p :: 0 <= p <= |b| && WindowAt(b, p, needle)
  }

  /** Length of `data: ` or else `data:` at the front of a line. */
  function PrefixLen(line: Bytes): (r: Option<nat>)
    ensures r.Some? ==> 5 <= r.value <= 6 && r.value <= |line| && LF !in line[..r.value] && CR !in line[..r.value]
  {
    if DATA + [SPACE] <= line then
      assert line[..6] == DATA + [SPACE];
      Some(6)
    else if DATA <= line then
      assert line[..5] == DATA;
      Some(5)
    else None
  }

  /** The changed document of a line, if it has a payload that is bumped. */
  function BumpedPayload(codec: Codec, est: nat, line: Bytes): Option<Json> {
    var p := PrefixLen(line);
    if p.None? || codec.parse(line[p.value..]).None? then None
    else Bump(est, codec.parse(line[p.value..]).value)
  }

  predicate Terminated(line: Bytes) {
    line != [] && line[|line| - 1] == LF
  }

  function LineEnding(line: Bytes): Bytes {
    if Terminated(line) then [LF] else []
  }

  function RewriteLine(codec: Codec, est: nat, line: Bytes): Bytes {
    var bumped := BumpedPayload(codec, est, line);
    if bumped.None? then line
    else line[..PrefixLen(line).value] + codec.render(bumped.value) + LineEnding(line)
  }

  /** Position just past the first line feed at or after `i`, or the end. */
  function LineEnd(b: Bytes, i: nat): (r: nat)
    requires i < |b|
    ensures i < r <= |b|
    ensures forall j :: i <= j < r - 1 ==> b[j] != LF
    ensures b[r - 1] == LF || r == |b|
    decreases |b| - i
  {
    if b[i] == LF || i + 1 == |b| then i + 1 else LineEnd(b, i + 1)
  }

  /** `split_inclusive('\n')`. */
  function Lines(b: Bytes): (r: seq<Bytes>)
    decreases |b|
  {
    if b == [] then [] else [b[..LineEnd(b, 0)]] + Lines(b[LineEnd(b, 0)..])
  }

  function Mended(codec: Codec, est: nat, lines: seq<Bytes>): seq<Bytes> {
    seq(|lines|, i requires 0 <= i < |lines| => RewriteLine(codec, est, lines[i]))
  }

  function RewriteEvent(codec: Codec, est: nat, event: Bytes): Bytes {
    if !Contains(event, USAGE) || !codec.utf8(event) then event
    else Joined(Mended(codec, est, Lines(event)))
  }

  function Rewriting(codec: Codec, est: nat): Rewriter {
    (event: Bytes) => RewriteEvent(codec, est, event)
  }

  /** A line that is `data: ` and a payload, or `data:` and a payload that starts with no space. */
  predicate CarriesPayload(line: Bytes, prefix: Bytes, payload: Bytes) {
    && line == prefix + payload
    && (|| prefix == [100, 97, 116, 97, 58, 32]
        || (prefix == [100, 97, 116, 97, 58] && (payload == [] || payload[0] != 32)))
  }

  /** A line carries a payload exactly when it starts with `data:`. */
  lemma PayloadIs(line: Bytes, prefix: Bytes, payload: Bytes)
    requires CarriesPayload(line, prefix, payload)
    ensures PrefixLen(line) == Some(|prefix|) && line[..|prefix|] == prefix && line[|prefix|..] == payload
  {
    if |prefix| == 6 {
      assert DATA + [SPACE] <= line;
    } else {
      assert DATA <= line;
      assert payload != [] ==> line[5] == payload[0];
    }
  }

  /**
   * A payload that parses and whose document is bumped is replaced by the print
   * of the bumped document, between the same prefix and a line feed where there
   * was one; any other line stays.
   */
  lemma LineRewritten(codec: Codec, est: nat, line: Bytes, prefix: Bytes, payload: Bytes)
    requires CarriesPayload(line, prefix, payload)
    ensures RewriteLine(codec, est, line) ==
      match codec.parse(payload)
      case None => line
      case Some(json) =>
        match Bump(est, json)
        case None => line
        case Some(bumped) => prefix + codec.render(bumped) + if line[|line| - 1] == 10 then [10] else []
  {
    PayloadIs(line, prefix, payload);
  }

  lemma LineWithoutPayload(codec: Codec, est: nat, line: Bytes)
    requires |line| < 5 || line[..5] != [100, 97, 116, 97, 58]
    ensures RewriteLine(codec, est, line) == line
  {
    assert |line| >= 5 ==> line[..5] != DATA;
  }

  // ----- lines --------------------------------------------------------------

  /** At least one byte, and no line feed but the last. */
  predicate IsLine(line: Bytes) {
    line != [] && forall j :: 0 <= j < |line| - 1 ==> line[j] != LF
  }

  /** Every line but the last ends in a line feed. */
  predicate AreLines(lines: seq<Bytes>) {
    && (forall i :: 0 <= i < |lines| ==> IsLine(lines[i]))
    && (forall i :: 0 <= i < |lines| - 1 ==> Terminated(lines[i]))
  }

  lemma AreLinesTail(lines: seq<Bytes>)
    requires AreLines(lines) && lines != []
    ensures AreLines(lines[1..])
  {
  }

  lemma AreLinesCons(line: Bytes, lines: seq<Bytes>)
    requires IsLine(line) && AreLines(lines) && (Terminated(line) || lines == [])
    ensures AreLines([line] + lines)
  {
  }

  lemma {:induction false} LinesAreLines(b: Bytes)
    ensures AreLines(Lines(b))
    decreases |b|
  {
    if b != [] {
      var e := LineEnd(b, 0);
      LinesAreLines(b[e..]);
      AreLinesCons(b[..e], Lines(b[e..]));
    }
  }

  lemma JoinedCons(line: Bytes, lines: seq<Bytes>)
    ensures Joined([line] + lines) == line + Joined(lines)
  {
    assert ([line] + lines)[1..] == lines;
  }

  lemma {:induction false} LinesJoin(b: Bytes)
    ensures Joined(Lines(b)) == b
    decreases |b|
  {
    if b != [] {
      var e := LineEnd(b, 0);
      var first, rest := b[..e], b[e..];
      LinesJoin(rest);
      JoinedCons(first, Lines(rest));
      assert b == first + rest;
    }
  }

  lemma JoinedStep(out: Bytes, lines: seq<Bytes>, i: nat)
    requires i < |lines|
    ensures out + Joined(lines[i..]) == out + lines[i] + Joined(lines[i + 1..])
  {
    assert lines[i..][1..] == lines[i + 1..];
    assert out + (lines[i] + Joined(lines[i + 1..])) == out + lines[i] + Joined(lines[i + 1..]);
  }

  lemma LineEndIs(b: Bytes, i: nat, e: nat)
    requires i < e <= |b|
    requires forall j :: i <= j < e - 1 ==> b[j] != LF
    requires b[e - 1] == LF || e == |b|
    ensures LineEnd(b, i) == e
    decreases e - i
  {
    if i + 1 < e {
      LineEndIs(b, i + 1, e);
    }
  }

  lemma {:induction false} LinesOfJoined(lines: seq<Bytes>)
    requires AreLines(lines)
    ensures Lines(Joined(lines)) == lines
  {
    if lines != [] {
      var first, rest := lines[0], Joined(lines[1..]);
      LinesOfJoined(lines[1..]);
      if |lines| > 1 {
        assert Terminated(first);
      } else {
        assert rest == [];
      }
      forall j | 0 <= j < |first| - 1 ensures (first + rest)[j] != LF {
      }
      LineEndIs(first + rest, 0, |first|);
      assert (first + rest)[..|first|] == first && (first + rest)[|first|..] == rest;
    }
  }

  predicate StartsBlank(b: Bytes) {
    b != [] && b[0] == SPACE
  }

  /** Rendered JSON holds no raw control character, starts with no space, and reads back. */
  predicate RendersBack(codec: Codec, v: Json) {
    var text := codec.render(v);
    && LF !in text && CR !in text && !StartsBlank(text)
    && codec.parse(text) == codec.parse(text + [LF]) == Some(v)
  }

  /** Every bumped document of a line that parses renders back. */
  ghost predicate Faithful(codec: Codec) {
    forall est: nat, line: Bytes :: BumpedPayload(codec, est, line).Some? ==>
      RendersBack(codec, BumpedPayload(codec, est, line).value)
  }

  lemma MendedLine(codec: Codec, est: nat, line: Bytes)
    requires Faithful(codec) && IsLine(line)
    ensures var after := RewriteLine(codec, est, line);
      IsLine(after) && Terminated(after) == Terminated(line)
  {
    var after, bumped := RewriteLine(codec, est, line), BumpedPayload(codec, est, line);
    if bumped.Some? {
      var p := PrefixLen(line).value;
      var text := codec.render(bumped.value);
      assert LF !in text;
      assert LF !in line[..p] + text;
      if Terminated(line) {
        assert after[..|after| - 1] == line[..p] + text;
      } else {
        assert after == line[..p] + text;
      }
    }
  }

  lemma MendedAreLines(codec: Codec, est: nat, lines: seq<Bytes>)
    requires Faithful(codec) && AreLines(lines)
    ensures AreLines(Mended(codec, est, lines))
  {
    forall i | 0 <= i < |lines|
      ensures var after := RewriteLine(codec, est, lines[i]);
        IsLine(after) && Terminated(after) == Terminated(lines[i])
    {
      MendedLine(codec, est, lines[i]);
    }
  }

  // ----- twice --------------------------------------------------------------

  lemma PrefixKept(line: Bytes, after: Bytes, p: nat)
    requires PrefixLen(line) == Some(p) && p <= |after| && after[..p] == line[..p]
    requires !StartsBlank(after[p..])
    ensures PrefixLen(after) == Some(p)
  {
    assert after[..5] == after[..p][..5] && line[..5] == line[..p][..5];
    if |after| > 5 {
      assert |after[p..]| == |after| - p;
      assert p == 5 ==> after[p..][0] == after[5];
    }
  }

  /** A line that has been bumped reads back as the bumped document. */
  lemma BumpedReadsBack(codec: Codec, est: nat, line: Bytes)
    requires Faithful(codec) && BumpedPayload(codec, est, line).Some?
    ensures var after := RewriteLine(codec, est, line); var p := PrefixLen(line).value;
      && PrefixLen(after) == Some(p) && after[..p] == line[..p]
      && codec.parse(after[p..]) == BumpedPayload(codec, est, line)
      && LineEnding(after) == LineEnding(line)
  {
    var bumped := BumpedPayload(codec, est, line).value;
    var p := PrefixLen(line).value;
    var text, end := codec.render(bumped), LineEnding(line);
    var after := line[..p] + text + end;
    assert after == line[..p] + (text + end);
    assert after[p..] == text + end;
    assert text + [] == text;
    assert after[..p] == line[..p];
    assert RendersBack(codec, bumped);
    PrefixKept(line, after, p);
    assert LF !in line[..p] + text;
  }

  /** Two rewriters in series do to a line what one with the larger estimate does. */
  lemma SeriesOnLine(codec: Codec, e: nat, f: nat, line: Bytes)
    requires Faithful(codec) && e < U64 && f < U64
    ensures RewriteLine(codec, f, RewriteLine(codec, e, line)) == RewriteLine(codec, Max(e, f), line)
  {
    var p := PrefixLen(line);
    if p.Some? && codec.parse(line[p.value..]).Some? {
      var json := codec.parse(line[p.value..]).value;
      BumpTwice(e, f, json);
      if Bump(e, json).Some? {
        BumpedReadsBack(codec, e, line);
      }
    }
  }

  lemma {:induction false} MendedTwice(codec: Codec, est: nat, lines: seq<Bytes>)
    requires Faithful(codec) && est < U64
    ensures Mended(codec, est, Mended(codec, est, lines)) == Mended(codec, est, lines)
  {
    var once := Mended(codec, est, lines);
    var twice := Mended(codec, est, once);
    forall i | 0 <= i < |lines| ensures twice[i] == once[i] {
      SeriesOnLine(codec, est, est, lines[i]);
    }
  }

  /** A rewritten event is left alone by a second rewriter with the same estimate. */
  lemma EventRewrittenOnce(codec: Codec, est: nat, event: Bytes)
    requires Faithful(codec) && est < U64
    ensures RewriteEvent(codec, est, RewriteEvent(codec, est, event)) == RewriteEvent(codec, est, event)
  {
    if Contains(event, USAGE) && codec.utf8(event) {
      var once := Mended(codec, est, Lines(event));
      LinesAreLines(event);
      MendedAreLines(codec, est, Lines(event));
      LinesOfJoined(once);
      MendedTwice(codec, est, Lines(event));
    }
  }

  /** The text `"usage"`, quotes included, stands somewhere in the event. */
  ghost predicate MentionsUsage(event: Bytes) {
    exists before: Bytes, after: Bytes :: event == before + [34, 117, 115, 97, 103, 101, 34] + after
  }

  lemma MentionIsContained(event: Bytes)
    ensures MentionsUsage(event) <==> Contains(event, USAGE)
  {
    if MentionsUsage(event) {
      var before: Bytes, after: Bytes :| event == before + [34, 117, 115, 97, 103, 101, 34] + after;
      assert event[|before|..|before| + |USAGE|] == USAGE;
      assert WindowAt(event, |before|, USAGE);
    }
    if Contains(event, USAGE) {
      var p :| 0 <= p <= |event| && WindowAt(event, p, USAGE);
      assert event == event[..p] + USAGE + event[p + |USAGE|..];
    }
  }

  /** Line by line: an event that mentions usage and is valid text has each of its lines rewritten, any other none. */
  lemma EventByLine(codec: Codec, est: nat, lines: seq<Bytes>)
    requires AreLines(lines)
    ensures RewriteEvent(codec, est, Joined(lines)) ==
      if MentionsUsage(Joined(lines)) && codec.utf8(Joined(lines))
      then Joined(seq(|lines|, i requires 0 <= i < |lines| => RewriteLine(codec, est, lines[i])))
      else Joined(lines)
  {
    MentionIsContained(Joined(lines));
    LinesOfJoined(lines);
    assert Mended(codec, est, lines) == seq(|lines|, i requires 0 <= i < |lines| => RewriteLine(codec, est, lines[i]));
  }

  // ----- is a rewritten event still one event? ------------------------------

  /** `line`, read after `before`, ends an event. */
  predicate Completes(before: Bytes, line: Bytes) {
    (line == [LF] && before != []) || (line == [CR, LF] && EndsCrLf(before))
  }

  predicate EndsCrLf(b: Bytes) {
    |b| >= 2 && b[|b| - 2] == CR && b[|b| - 1] == LF
  }

  predicate Boundary(b: Bytes) {
    b == [] || Terminated(b)
  }

  lemma EndsOnlyAtLineEnd(before: Bytes, line: Bytes, e: nat)
    requires Boundary(before) && IsLine(line) && |before| < e <= |before + line|
    ensures EndsAt(before + line, e) <==> e == |before + line| && Completes(before, line)
  {
    var b := before + line;
    if EndsAt(b, e) {
      assert line[e - 1 - |before|] == LF;
      assert e == |b|;
    }
  }

  /** The last line completes an event and no earlier one does. */
  predicate CompletedByLast(before: Bytes, lines: seq<Bytes>)
    decreases |lines|
  {
    if lines == [] then false
    else if |lines| == 1 then Completes(before, lines[0])
    else !Completes(before, lines[0]) && CompletedByLast(before + lines[0], lines[1..])
  }

  ghost predicate NoEnd(b: Bytes) {
    forall e: nat :: !EndsAt(b, e)
  }

  lemma StillNoEnd(before: Bytes, line: Bytes)
    requires NoEnd(before) && Boundary(before) && IsLine(line) && !Completes(before, line)
    ensures NoEnd(before + line)
  {
    forall e: nat ensures !EndsAt(before + line, e) {
      if e <= |before| {
        EndStable(before, line, e);
      } else if e <= |before + line| {
        EndsOnlyAtLineEnd(before, line, e);
      }
    }
  }

  lemma FirstEndAfter(before: Bytes, line: Bytes, rest: Bytes)
    requires NoEnd(before) && Boundary(before) && IsLine(line) && Completes(before, line)
    ensures FirstEnd(before + line + rest, 0) == Some(|before + line|)
  {
    var b := before + line;
    EndsOnlyAtLineEnd(before, line, |b|);
    forall e: nat | e < |b| ensures !EndsAt(b, e) {
      if e <= |before| {
        EndStable(before, line, e);
      } else {
        EndsOnlyAtLineEnd(before, line, e);
      }
    }
    FirstEndFrom(b, 0, |b|);
    FirstEndStable(b, rest);
  }

  /** A delimiter is a blank line after a line, so events can be told line by line. */
  lemma {:induction false} EventByLines(before: Bytes, lines: seq<Bytes>)
    requires NoEnd(before) && Boundary(before) && AreLines(lines) && lines != []
    ensures IsEvent(before + Joined(lines)) <==> CompletedByLast(before, lines)
    decreases |lines|
  {
    var line, rest := lines[0], Joined(lines[1..]);
    assert before + (line + rest) == before + line + rest;
    if Completes(before, line) {
      FirstEndAfter(before, line, rest);
      if |lines| > 1 {
        assert IsLine(lines[1]) && rest == lines[1] + Joined(lines[2..]);
        assert |before + line + rest| > |before + line|;
      } else {
        assert rest == [];
      }
    } else {
      StillNoEnd(before, line);
      if |lines| > 1 {
        assert Terminated(line);
        EventByLines(before + line, lines[1..]);
      } else {
        assert before + line + rest == before + line;
        FirstEndIsFirst(before + line);
      }
    }
  }

  /** The lines of two versions of one text so far: `after` may have lost carriage returns at line ends. */
  predicate Alongside(before: Bytes, after: Bytes) {
    && (before == [] <==> after == [])
    && (EndsCrLf(after) ==> EndsCrLf(before))
  }

  /** The blank line is CR LF and the line before it is bumped: its new version ends in LF alone. */
  predicate LosesDelimiter(codec: Codec, est: nat, lines: seq<Bytes>) {
    var n := |lines|;
    n >= 2 && lines[n - 1] == [CR, LF] && BumpedPayload(codec, est, lines[n - 2]).Some?
  }

  lemma BlankIsNotBumped(codec: Codec, est: nat, line: Bytes)
    requires Faithful(codec)
    ensures RewriteLine(codec, est, line) == [LF] <==> line == [LF]
    ensures RewriteLine(codec, est, line) == [CR, LF] <==> line == [CR, LF]
  {
    if BumpedPayload(codec, est, line).Some? {
      assert |RewriteLine(codec, est, line)| >= 5;
    }
  }

  lemma LastTwo(b: Bytes, line: Bytes)
    requires line != [] && Boundary(b)
    ensures EndsCrLf(b + line) <==> EndsCrLf(line)
    ensures Boundary(b + line) <==> Terminated(line)
  {
  }

  lemma MendedEnd(codec: Codec, est: nat, line: Bytes)
    requires Faithful(codec)
    ensures EndsCrLf(RewriteLine(codec, est, line)) <==> EndsCrLf(line) && BumpedPayload(codec, est, line).None?
  {
    var bumped := BumpedPayload(codec, est, line);
    if bumped.Some? {
      var body := line[..PrefixLen(line).value] + codec.render(bumped.value);
      assert CR !in codec.render(bumped.value);
      assert CR !in body;
      assert RewriteLine(codec, est, line) == body + LineEnding(line);
    }
  }

  lemma MendedStep(codec: Codec, est: nat, before: Bytes, after: Bytes, line: Bytes)
    requires Faithful(codec) && IsLine(line) && Terminated(line)
    requires Boundary(before) && Boundary(after) && Alongside(before, after)
    ensures var line' := RewriteLine(codec, est, line);
      && Boundary(before + line) && Boundary(after + line') && Alongside(before + line, after + line')
      && (Completes(after, line') ==> Completes(before, line))
      && (EndsCrLf(after + line') <==> EndsCrLf(before + line) && BumpedPayload(codec, est, line).None?)
  {
    var line' := RewriteLine(codec, est, line);
    MendedLine(codec, est, line);
    MendedEnd(codec, est, line);
    BlankIsNotBumped(codec, est, line);
    LastTwo(before, line);
    LastTwo(after, line');
  }

  lemma CompletedByLastCons(before: Bytes, line: Bytes, rest: seq<Bytes>)
    requires rest != []
    ensures CompletedByLast(before, [line] + rest) <==> !Completes(before, line) && CompletedByLast(before + line, rest)
  {
    assert ([line] + rest)[1..] == rest;
  }

  lemma MendedCons(codec: Codec, est: nat, line: Bytes, rest: seq<Bytes>)
    ensures Mended(codec, est, [line] + rest) == [RewriteLine(codec, est, line)] + Mended(codec, est, rest)
  {
  }

  lemma MendedLast(codec: Codec, est: nat, before: Bytes, after: Bytes, line: Bytes)
    requires Faithful(codec) && Alongside(before, after) && Completes(before, line)
    ensures CompletedByLast(after, Mended(codec, est, [line])) <==> line == [LF] || EndsCrLf(after)
  {
    BlankIsNotBumped(codec, est, line);
    assert Mended(codec, est, [line]) == [RewriteLine(codec, est, line)];
  }

  lemma LosesDelimiterCons(codec: Codec, est: nat, line: Bytes, rest: seq<Bytes>)
    requires rest != []
    ensures LosesDelimiter(codec, est, [line] + rest) <==>
      if |rest| == 1 then rest[0] == [CR, LF] && BumpedPayload(codec, est, line).Some?
      else LosesDelimiter(codec, est, rest)
  {
  }

  lemma AreLinesUncons(line: Bytes, rest: seq<Bytes>)
    requires AreLines([line] + rest) && rest != []
    ensures IsLine(line) && Terminated(line) && AreLines(rest)
  {
    AreLinesTail([line] + rest);
    assert ([line] + rest)[0] == line && ([line] + rest)[1..] == rest;
  }

  /** One line further: what is read so far stays alongside, and the question is that of the rest. */
  lemma MendedFurther(codec: Codec, est: nat, before: Bytes, after: Bytes, line: Bytes, rest: seq<Bytes>,
      line': Bytes, rest': seq<Bytes>)
    requires Faithful(codec) && AreLines([line] + rest) && rest != []
    requires Boundary(before) && Boundary(after) && Alongside(before, after)
    requires CompletedByLast(before, [line] + rest)
    requires line' == RewriteLine(codec, est, line) && rest' == Mended(codec, est, rest)
    ensures AreLines(rest) && CompletedByLast(before + line, rest)
    ensures Boundary(before + line) && Boundary(after + line') && Alongside(before + line, after + line')
    ensures EndsCrLf(after + line') <==> EndsCrLf(before + line) && BumpedPayload(codec, est, line).None?
    ensures CompletedByLast(after, Mended(codec, est, [line] + rest)) <==> CompletedByLast(after + line', rest')
  {
    AreLinesUncons(line, rest);
    MendedStep(codec, est, before, after, line);
    CompletedByLastCons(before, line, rest);
    CompletedByLastCons(after, line', rest');
    MendedCons(codec, est, line, rest);
  }

  lemma {:induction false} MendedCompletes(codec: Codec, est: nat, before: Bytes, after: Bytes, line: Bytes,
      rest: seq<Bytes>)
    requires Faithful(codec) && AreLines([line] + rest) && rest != []
    requires Boundary(before) && Boundary(after) && Alongside(before, after)
    requires CompletedByLast(before, [line] + rest)
    ensures CompletedByLast(after, Mended(codec, est, [line] + rest)) <==> !LosesDelimiter(codec, est, [line] + rest)
    decreases |rest|
  {
    var line' := RewriteLine(codec, est, line);
    MendedFurther(codec, est, before, after, line, rest, line', Mended(codec, est, rest));
    LosesDelimiterCons(codec, est, line, rest);
    if |rest| == 1 {
      assert rest == [rest[0]];
      MendedLast(codec, est, before + line, after + line', rest[0]);
    } else {
      assert rest == [rest[0]] + rest[1..];
      MendedCompletes(codec, est, before + line, after + line', rest[0], rest[1..]);
    }
  }

  /**
   * A rewritten event is still exactly one event, unless its blank line is
   * CR LF and the line before that was bumped.
   */
  lemma EventStaysOne(codec: Codec, est: nat, event: Bytes)
    requires Faithful(codec) && IsEvent(event)
    ensures IsEvent(RewriteEvent(codec, est, event))
      <==> !(Contains(event, USAGE) && codec.utf8(event) && LosesDelimiter(codec, est, Lines(event)))
  {
    if Contains(event, USAGE) && codec.utf8(event) {
      var lines := Lines(event);
      LinesAreLines(event);
      LinesJoin(event);
      assert lines != [];
      assert [] + Joined(lines) == Joined(lines);
      EventByLines([], lines);
      MendedAreLines(codec, est, lines);
      var mended := Mended(codec, est, lines);
      assert [] + Joined(mended) == Joined(mended);
      EventByLines([], mended);
      if IsEvent(event) && |lines| > 1 {
        assert lines == [lines[0]] + lines[1..];
        MendedCompletes(codec, est, [], [], lines[0], lines[1..]);
      }
    }
  }

  /**
   * When no event loses its delimiter, the outgoing stream has as many events,
   * and rewriting it again changes nothing.
   */
  lemma StreamRewrittenOnce(codec: Codec, est: nat, b: Bytes)
    requires Faithful(codec) && est < U64
    requires forall i :: 0 <= i < |Events(b)| ==> !LosesDelimiter(codec, est, Lines(Events(b)[i]))
    ensures var rw := Rewriting(codec, est); var out := Whole(rw, b);
      Events(out) == Mapped(rw, Events(b)) && Rest(out) == Rest(b) && Whole(rw, out) == out
  {
    var rw := Rewriting(codec, est);
    var out := Whole(rw, b);
    EventsAreEvents(b);
    forall i | 0 <= i < |Events(b)| ensures IsEvent(rw(Events(b)[i])) {
      EventStaysOne(codec, est, Events(b)[i]);
    }
    EventsOfWhole(rw, b);
    forall i | 0 <= i < |Events(out)| ensures rw(Events(out)[i]) == Events(out)[i] {
      MappedAt(rw, Events(b), i);
      EventRewrittenOnce(codec, est, Events(b)[i]);
    }
    UnchangedStream(rw, out);
  }

  lemma {:induction false} MappedAt(rewrite: Rewriter, events: seq<Bytes>, i: nat)
    requires i < |Mapped(rewrite, events)|
    ensures |Mapped(rewrite, events)| == |events| && Mapped(rewrite, events)[i] == rewrite(events[i])
  {
    if i > 0 {
      MappedAt(rewrite, events[1..], i - 1);
    } else if |events| > 1 {
      MappedAt(rewrite, events[1..], 0);
    }
  }

  lemma EmittedStep(rewrite: Rewriter, out: Bytes, b: Bytes)
    requires FirstEnd(b, 0).Some?
    ensures var e := FirstEnd(b, 0).value;
      out + Emitted(rewrite, b) == out + rewrite(b[..e]) + Emitted(rewrite, b[e..]) && Rest(b) == Rest(b[e..])
  {
    var e := FirstEnd(b, 0).value;
    var first, tail := rewrite(b[..e]), Emitted(rewrite, b[e..]);
    assert out + (first + tail) == out + first + tail;
  }

  method HasUsage(event: Bytes) returns (yes: bool)
    ensures yes == Contains(event, USAGE)
  {
    var found := WindowPosition(event, USAGE);
    yes := found.Some?;
    if yes {
      assert WindowAt(event, found.value, USAGE);
    }
  }

  // ----- the object ---------------------------------------------------------

  class SseUsageRewriter {
    var carry: Bytes
    const estTokens: nat
    const codec: Codec

    constructor (estTokens: nat, codec: Codec)
      ensures carry == [] && this.estTokens == estTokens && this.codec == codec
    {
      carry := [];
      this.estTokens := estTokens;
      this.codec := codec;
    }

    /** Everything complete leaves the carry, rewritten; nothing complete stays. */
    method Transform(chunk: Bytes) returns (out: Bytes)
      modifies this
      ensures out == Emitted(Rewriting(codec, estTokens), old(carry) + chunk)
      ensures carry == Rest(old(carry) + chunk) && FirstEnd(carry, 0).None?
    {
      carry := carry + chunk;
      out := [];
      ghost var rw, start := Rewriting(codec, estTokens), carry;
      var pos := FindDoubleNewline(carry);
      while pos.Some?
        invariant pos == FirstEnd(carry, 0)
        invariant Emitted(rw, start) == out + Emitted(rw, carry)
        invariant Rest(start) == Rest(carry)
        decreases |carry|
      {
        var event := carry[..pos.value];
        EmittedStep(rw, out, carry);
        carry := carry[pos.value..];
        var bytes := Rewrite(event);
        out := out + bytes;
        pos := FindDoubleNewline(carry);
      }
      assert out + [] == out;
    }

    method Flush() returns (out: Bytes)
      modifies this
      ensures out == old(carry) && carry == []
    {
      out := carry;
      carry := [];
    }

    method Rewrite(event: Bytes) returns (out: Bytes)
      ensures out == RewriteEvent(codec, estTokens, event)
    {
      var usage := HasUsage(event);
      if !usage || !codec.utf8(event) {
        return event;
      }
      LinesJoin(event);
      var changed;
      out, changed := RewriteLines(Lines(event));
      if !changed {
        out := event;
      }
    }

    /** Line by line, remembering whether any line changed. */
    method RewriteLines(lines: seq<Bytes>) returns (out: Bytes, changed: bool)
      ensures out == Joined(Mended(codec, estTokens, lines))
      ensures !changed ==> out == Joined(lines)
    {
      ghost var mended := Mended(codec, estTokens, lines);
      changed := false;
      out := [];
      var i := 0;
      assert lines[i..] == lines && mended[i..] == mended;
      while i < |lines|
        invariant 0 <= i <= |lines|
        invariant out + Joined(mended[i..]) == Joined(mended)
        invariant !changed ==> out + Joined(lines[i..]) == Joined(lines)
      {
        JoinedStep(out, lines, i);
        JoinedStep(out, mended, i);
        var line := lines[i];
        var bumped := BumpedPayload(codec, estTokens, line);
        if bumped.Some? {
          var bytes := line[..PrefixLen(line).value] + codec.render(bumped.value) + LineEnding(line);
          out := out + bytes;
          changed := true;
        } else {
          out := out + line;
        }
        i := i + 1;
      }
      assert out + [] == out;
    }
  }

  /** What a client receives over a response is the whole stream rewritten once, however it was cut. */
  method Forward(rewriter: SseUsageRewriter, chunks: seq<Bytes>) returns (out: Bytes)
    requires rewriter.carry == []
    modifies rewriter
    ensures out == Whole(Rewriting(rewriter.codec, rewriter.estTokens), Joined(chunks)) && rewriter.carry == []
  {
    ghost var rw := Rewriting(rewriter.codec, rewriter.estTokens);
    ghost var all := Streamed(rw, [], chunks);
    assert FirstEnd([], 0).None?;
    StreamedIsWhole(rw, [], chunks);
    assert [] + Joined(chunks) == Joined(chunks);
    out := [];
    var i := 0;
    while i < |chunks|
      invariant 0 <= i <= |chunks|
      invariant all == out + Streamed(rw, rewriter.carry, chunks[i..])
    {
      assert chunks[i..][0] == chunks[i] && chunks[i..][1..] == chunks[i + 1..];
      ghost var tail := Streamed(rw, Rest(rewriter.carry + chunks[i]), chunks[i + 1..]);
      var bytes := rewriter.Transform(chunks[i]);
      assert out + (bytes + tail) == out + bytes + tail;
      out := out + bytes;
      i := i + 1;
    }
    assert chunks[i..] == [];
    var last := rewriter.Flush();
    out := out + last;
  }
}
