/** Timestamps as printed by the proxy, and what can be read back from them (section 5.6 of RFC 3339). */
module Timestamps {
  import opened Wrappers
  import Decimal
  import opened Calendar

  // ----- printing -----------------------------------------------------------

  /** A field of a timestamp: its width, and the character after it. */
  datatype Column = Column(width: nat, after: char)

  const SHAPE: seq<Column> :=
    [Column(4, '-'), Column(2, '-'), Column(2, 'T'), Column(2, ':'), Column(2, ':'), Column(2, 'Z')]

  /** `{:0w}` of a number that is not negative. */
  function ZeroPadded(n: nat, w: nat): string {
    if n < Decimal.Pow10(w) then Decimal.Padded(n, w) else Decimal.Numeral(n)
  }

  function Printed(fields: seq<nat>, shape: seq<Column>): string
    requires |fields| == |shape|
  {
    if fields == [] then ""
    else ZeroPadded(fields[0], shape[0].width) + ([shape[0].after] + Printed(fields[1..], shape[1..]))
  }

  lemma DateIsPositive(days: nat)
    ensures var t := CivilFromDays(days); t.year >= 1970 && t.month >= 1 && t.day >= 1
  {
    CivilEpoch();
    CivilIsDate(days);
    if days > 0 {
      LaterIsAfter(0, days);
    }
  }

  /** Year, month, day, hour, minute and second of a Unix time. */
  function FieldsOf(secs: nat): (r: seq<nat>)
    ensures |r| == 6
  {
    DateIsPositive(secs / 86_400);
    var t, clock := CivilFromDays(secs / 86_400), secs % 86_400;
    [t.year, t.month, t.day, clock / 3600, clock % 3600 / 60, clock % 60]
  }

  function Iso8601(secs: nat): string {
    Printed(FieldsOf(secs), SHAPE)
  }

  // ----- reading ------------------------------------------------------------

  predicate AllDigits(s: string) {
    forall c :: c in s ==> Decimal.IsDigit(c)
  }

  /** The fields of a text that has exactly the shape. */
  function ReadFields(s: string, shape: seq<Column>): (r: Option<seq<nat>>)
    ensures r.Some? ==> |r.value| == |shape|
  {
    if shape == [] then (if s == "" then Some([]) else None)
    else
      var w := shape[0].width;
      if |s| <= w || !AllDigits(s[..w]) || s[w] != shape[0].after then None
      else
        var rest := ReadFields(s[w + 1..], shape[1..]);
        if rest.None? then None else Some([Decimal.Value(s[..w])] + rest.value)
  }

  function Read(s: string): Option<int> {
    var r := ReadFields(s, SHAPE);
    if r.None? then None else Some(Seconds(r.value))
  }

  function Seconds(f: seq<nat>): int
    requires |f| == 6
  {
    86_400 * DaysFromCivil(Date(f[0], f[1], f[2])) + 3600 * f[3] + 60 * f[4] + f[5]
  }

  lemma SecondsBack(secs: nat)
    ensures Seconds(FieldsOf(secs)) == secs
  {
    FieldRanges(secs);
    CivilRoundTrip(secs / 86_400);
  }

  predicate Fit(fields: seq<nat>, shape: seq<Column>)
    requires |fields| == |shape|
  {
    forall i :: 0 <= i < |fields| ==> fields[i] < Decimal.Pow10(shape[i].width)
  }

  lemma ReadOneField(first: string, rest: string, shape: seq<Column>)
    requires shape != [] && |first| == shape[0].width && AllDigits(first)
    requires ReadFields(rest, shape[1..]).Some?
    ensures ReadFields(first + ([shape[0].after] + rest), shape)
      == Some([Decimal.Value(first)] + ReadFields(rest, shape[1..]).value)
  {
    var text, w := first + ([shape[0].after] + rest), |first|;
    assert text[..w] == first && text[w] == shape[0].after && text[w + 1..] == rest;
  }

  lemma FieldText(n: nat, w: nat)
    requires n < Decimal.Pow10(w)
    ensures var first := ZeroPadded(n, w); |first| == w && AllDigits(first) && Decimal.Value(first) == n
  {
    Decimal.PaddedValue(n, w);
  }

  lemma PrintedStep(n: nat, fields: seq<nat>, shape: seq<Column>)
    requires |shape| == |fields| + 1 && n < Decimal.Pow10(shape[0].width)
    requires ReadFields(Printed(fields, shape[1..]), shape[1..]) == Some(fields)
    ensures ReadFields(Printed([n] + fields, shape), shape) == Some([n] + fields)
  {
    FieldText(n, shape[0].width);
    ReadOneField(ZeroPadded(n, shape[0].width), Printed(fields, shape[1..]), shape);
    assert ([n] + fields)[1..] == fields;
  }

  /** Fields that fit their columns read back. */
  lemma {:induction false} PrintedReads(fields: seq<nat>, shape: seq<Column>)
    requires |fields| == |shape| && Fit(fields, shape)
    ensures ReadFields(Printed(fields, shape), shape) == Some(fields)
    decreases |fields|
  {
    if fields != [] {
      FitTail(fields, shape);
      PrintedReads(fields[1..], shape[1..]);
      PrintedStep(fields[0], fields[1..], shape);
      assert [fields[0]] + fields[1..] == fields;
    }
  }

  lemma FitTail(fields: seq<nat>, shape: seq<Column>)
    requires |fields| == |shape| && fields != [] && Fit(fields, shape)
    ensures Fit(fields[1..], shape[1..]) && fields[0] < Decimal.Pow10(shape[0].width)
  {
  }

  /** A shape's texts are as long as its columns. */
  function Width(shape: seq<Column>): nat {
    if shape == [] then 0 else shape[0].width + 1 + Width(shape[1..])
  }

  lemma {:induction false} ReadWidth(s: string, shape: seq<Column>)
    requires ReadFields(s, shape).Some?
    ensures |s| == Width(shape)
    decreases |shape|
  {
    if shape != [] {
      ReadWidth(s[shape[0].width + 1..], shape[1..]);
    }
  }

  lemma {:induction false} PrintedWidth(fields: seq<nat>, shape: seq<Column>)
    requires |fields| == |shape|
    ensures |Printed(fields, shape)| >= Width(shape)
    ensures fields != [] && fields[0] >= Decimal.Pow10(shape[0].width) ==> |Printed(fields, shape)| > Width(shape)
    decreases |fields|
  {
    if fields != [] {
      PrintedWidth(fields[1..], shape[1..]);
      if fields[0] >= Decimal.Pow10(shape[0].width) {
        LongNumeral(fields[0], shape[0].width);
      }
    }
  }

  lemma {:induction false} LongNumeral(n: nat, w: nat)
    requires n >= Decimal.Pow10(w)
    ensures Decimal.Length(n) > w
    decreases w
  {
    if w > 0 {
      LongNumeral(n / 10, w - 1);
    }
  }

  lemma Powers()
    ensures Decimal.Pow10(2) == 100 && Decimal.Pow10(4) == 10_000
  {
    assert Decimal.Pow10(1) == 10 && Decimal.Pow10(2) == 100 && Decimal.Pow10(3) == 1000;
  }

  lemma FieldRanges(secs: nat)
    ensures var f := FieldsOf(secs);
      f[1] <= 12 && f[2] <= 31 && f[3] < 24 && f[4] < 60 && f[5] < 60
      && secs == 86_400 * (secs / 86_400) + 3600 * f[3] + 60 * f[4] + f[5]
  {
    CivilIsDate(secs / 86_400);
    ClockFields(secs % 86_400);
  }

  lemma ClockFields(clock: nat)
    ensures clock == 3600 * (clock / 3600) + 60 * (clock % 3600 / 60) + clock % 60
    ensures clock < 86_400 ==> clock / 3600 < 24
  {
    assert clock == 60 * (60 * (clock / 3600)) + clock % 3600;
  }

  lemma FieldsFit(secs: nat)
    requires FieldsOf(secs)[0] <= 9999
    ensures Fit(FieldsOf(secs), SHAPE)
  {
    FieldRanges(secs);
    Powers();
  }

  /** The first second of the year 10000. */
  const YEAR_10000: nat := 253_402_300_800

  lemma FourDigitYears(secs: nat)
    ensures FieldsOf(secs)[0] <= 9999 <==> secs < YEAR_10000
  {
    CivilIsDateOf(Digits(24, 3, 24, 3, 306));
    YearsBefore(secs / 86_400, YEAR_10000 / 86_400, 10_000);
  }

  lemma FourDigitYearsRead(secs: nat)
    requires FieldsOf(secs)[0] <= 9999
    ensures Read(Iso8601(secs)) == Some(secs)
  {
    FieldsFit(secs);
    PrintedReads(FieldsOf(secs), SHAPE);
    SecondsBack(secs);
  }

  lemma LongYearsDoNot(secs: nat)
    requires FieldsOf(secs)[0] > 9999
    ensures Read(Iso8601(secs)).None?
  {
    Powers();
    PrintedWidth(FieldsOf(secs), SHAPE);
    if ReadFields(Iso8601(secs), SHAPE).Some? {
      ReadWidth(Iso8601(secs), SHAPE);
    }
  }

  /** A printed timestamp reads back to the same second exactly up to the end of the year 9999. */
  lemma TimestampRoundTrip(secs: nat)
    ensures Read(Iso8601(secs)) == Some(secs) <==> secs < YEAR_10000
  {
    FourDigitYears(secs);
    if secs < YEAR_10000 {
      FourDigitYearsRead(secs);
    } else {
      LongYearsDoNot(secs);
    }
  }

  // ----- order --------------------------------------------------------------

  /** Lexicographic order of strings. */
  predicate TextBefore(a: string, b: string) {
    b != "" && (a == "" || a[0] < b[0] || (a[0] == b[0] && TextBefore(a[1..], b[1..])))
  }

  lemma {:induction false} TextAsymmetric(a: string, b: string)
    requires TextBefore(a, b)
    ensures !TextBefore(b, a)
  {
    if a != "" && a[0] == b[0] {
      TextAsymmetric(a[1..], b[1..]);
    }
  }

  lemma {:induction false} BeforeBehindPrefix(p: string, a: string, b: string)
    ensures TextBefore(p + a, p + b) == TextBefore(a, b)
  {
    if p == "" {
      assert p + a == a && p + b == b;
    } else {
      assert (p + a)[1..] == p[1..] + a && (p + b)[1..] == p[1..] + b;
      BeforeBehindPrefix(p[1..], a, b);
    }
  }

  lemma {:induction false} BeforeDecidedEarly(a: string, b: string, x: string, y: string)
    requires |a| == |b| && TextBefore(a, b)
    ensures TextBefore(a + x, b + y)
  {
    assert (a + x)[0] == a[0] && (b + y)[0] == b[0];
    if a[0] == b[0] {
      assert (a + x)[1..] == a[1..] + x && (b + y)[1..] == b[1..] + y;
      BeforeDecidedEarly(a[1..], b[1..], x, y);
    }
  }

  /** Numerals of one width are ordered as their numbers. */
  lemma {:induction false} PaddedInOrder(m: nat, n: nat, w: nat)
    requires m < n < Decimal.Pow10(w)
    ensures TextBefore(Decimal.Padded(m, w), Decimal.Padded(n, w))
    decreases w
  {
    var a, b := Decimal.Padded(m / 10, w - 1), Decimal.Padded(n / 10, w - 1);
    var x, y := [Decimal.DigitChar(m % 10)], [Decimal.DigitChar(n % 10)];
    if m / 10 < n / 10 {
      PaddedInOrder(m / 10, n / 10, w - 1);
      BeforeDecidedEarly(a, b, x, y);
    } else {
      assert TextBefore(x, y);
      BeforeBehindPrefix(a, x, y);
    }
  }

  /** The first difference of two field lists is at `k`, and the first list is less there. */
  predicate LessAt(f: seq<nat>, g: seq<nat>, k: nat)
    requires |f| == |g|
  {
    k < |f| && f[k] < g[k] && forall i :: 0 <= i < k ==> f[i] == g[i]
  }

  /** Fields that fit are printed in their order. */
  lemma {:induction false} PrintedInOrder(f: seq<nat>, g: seq<nat>, shape: seq<Column>, k: nat)
    requires |f| == |g| == |shape| && Fit(f, shape) && Fit(g, shape) && LessAt(f, g, k)
    ensures TextBefore(Printed(f, shape), Printed(g, shape))
    decreases k
  {
    var w, sep := shape[0].width, [shape[0].after];
    var a, b := Decimal.Padded(f[0], w), Decimal.Padded(g[0], w);
    var x, y := sep + Printed(f[1..], shape[1..]), sep + Printed(g[1..], shape[1..]);
    if k == 0 {
      PaddedInOrder(f[0], g[0], w);
      BeforeDecidedEarly(a, b, x, y);
    } else {
      PrintedInOrder(f[1..], g[1..], shape[1..], k - 1);
      BeforeBehindPrefix(sep, Printed(f[1..], shape[1..]), Printed(g[1..], shape[1..]));
      BeforeBehindPrefix(a, x, y);
    }
  }

  lemma FieldsInOrder(a: nat, b: nat) returns (k: nat)
    requires a < b
    ensures LessAt(FieldsOf(a), FieldsOf(b), k)
  {
    DatesInOrder(a / 86_400, b / 86_400);
    FieldRanges(a);
    FieldRanges(b);
    var f, g := FieldsOf(a), FieldsOf(b);
    k := if f[0] < g[0] then 0 else if f[1] < g[1] then 1 else if f[2] < g[2] then 2
      else if f[3] < g[3] then 3 else if f[4] < g[4] then 4 else 5;
  }

  lemma EarlierPrintsBefore(a: nat, b: nat)
    requires a < b && FieldsOf(a)[0] <= 9999 && FieldsOf(b)[0] <= 9999
    ensures TextBefore(Iso8601(a), Iso8601(b))
  {
    var k := FieldsInOrder(a, b);
    FieldsFit(a);
    FieldsFit(b);
    PrintedInOrder(FieldsOf(a), FieldsOf(b), SHAPE, k);
  }

  lemma OrderBothWays(text: nat -> string, a: nat, b: nat)
    requires forall x, y :: x in {a, b} && y in {a, b} && x < y ==> TextBefore(text(x), text(y))
    ensures TextBefore(text(a), text(b)) <==> a < b
  {
    if b <= a && TextBefore(text(a), text(b)) {
      TextAsymmetric(text(a), text(b));
    }
  }

  /** Up to the end of the year 9999 timestamps sort as texts exactly in time order. */
  lemma TimestampsSort(a: nat, b: nat)
    requires a < YEAR_10000 && b < YEAR_10000
    ensures TextBefore(Iso8601(a), Iso8601(b)) <==> a < b
  {
    FourDigitYears(a);
    FourDigitYears(b);
    forall x, y | x in {a, b} && y in {a, b} && x < y ensures TextBefore(Iso8601(x), Iso8601(y)) {
      EarlierPrintsBefore(x, y);
    }
    OrderBothWays(Iso8601, a, b);
  }

  lemma FirstDigits()
    ensures ZeroPadded(10_000, 4)[0] == '1' && ZeroPadded(9999, 4)[0] == '9'
  {
    Powers();
    assert Decimal.Numeral(10) == Decimal.Numeral(1) + ['0'];
    assert Decimal.Numeral(100) == Decimal.Numeral(10) + ['0'];
    assert Decimal.Numeral(1000) == Decimal.Numeral(100) + ['0'];
    assert Decimal.Numeral(10_000) == Decimal.Numeral(1000) + ['0'];
    assert Decimal.Padded(9, 1) == "" + ['9'];
    assert Decimal.Padded(99, 2) == Decimal.Padded(9, 1) + ['9'];
    assert Decimal.Padded(999, 3) == Decimal.Padded(99, 2) + ['9'];
    assert Decimal.Padded(9999, 4) == Decimal.Padded(999, 3) + ['9'];
  }

  lemma FirstOfIso(secs: nat)
    ensures Iso8601(secs) != "" && ZeroPadded(FieldsOf(secs)[0], 4) != ""
    ensures Iso8601(secs)[0] == ZeroPadded(FieldsOf(secs)[0], 4)[0]
  {
    var f, year := FieldsOf(secs), ZeroPadded(FieldsOf(secs)[0], 4);
    assert Iso8601(secs) == year + (['-'] + Printed(f[1..], SHAPE[1..]));
  }

  lemma YearsThere()
    ensures FieldsOf(YEAR_10000)[0] == 10_000 && FieldsOf(YEAR_10000 - 1)[0] == 9999
  {
    FourDigitYears(YEAR_10000 - 1);
    CivilIsDateOf(Digits(24, 3, 24, 3, 306));
    CivilIsDateOf(Digits(24, 3, 24, 2, 306));
    YearsBefore((YEAR_10000 - 1) / 86_400, 2_932_532, 9999);
  }

  lemma DecidedAtOnce(a: string, b: string)
    requires a != "" && b != "" && a[0] < b[0]
    ensures TextBefore(a, b)
  {
  }

  /** After that the order breaks: the first second of the year 10000 sorts before the second before it. */
  lemma SortBreaksAt10000()
    ensures TextBefore(Iso8601(YEAR_10000), Iso8601(YEAR_10000 - 1))
  {
    YearsThere();
    FirstDigits();
    FirstOfIso(YEAR_10000);
    FirstOfIso(YEAR_10000 - 1);
    DecidedAtOnce(Iso8601(YEAR_10000), Iso8601(YEAR_10000 - 1));
  }
}
