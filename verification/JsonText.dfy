/**
 * The compact text of a document, character by character and byte by byte: what
 * the sizes the passes compare are the length of.
 */
module JsonText {
  import opened Json
  import opened TokenScan
  import Decimal

  // ----- the text -----------------------------------------------------------

  function HexChar(n: nat): char
    requires n < 16
  {
    "0123456789abcdef"[n]
  }

  /** A character inside a string literal. */
  function Escaped(c: char): string {
    if c == '\"' then "\\\""
    else if c == '\\' then "\\\\"
    else if c == '\n' then "\\n"
    else if c == '\r' then "\\r"
    else if c == '\t' then "\\t"
    else if c as int == 8 then "\\b"
    else if c as int == 12 then "\\f"
    else if c as int < 32 then "\\u00" + [HexChar(c as int / 16)] + [HexChar(c as int % 16)]
    else [c]
  }

  function EscapedText(s: string): string {
    if s == [] then "" else Escaped(s[0]) + EscapedText(s[1..])
  }

  function Quoted(s: string): string {
    "\"" + EscapedText(s) + "\""
  }

  /** The compact serialization. */
  function Text(v: Json): string
    decreases v, 1
  {
    match v
    case Null => "null"
    case Bool(b) => if b then "true" else "false"
    case Int(n) => if n < 0 then "-" + Decimal.Numeral(-n) else Decimal.Numeral(n)
    case Float(text) => text
    case Str(s) => Quoted(s)
    case Arr(items) => "[" + ItemsText(items) + "]"
    case Obj(fields) => "{" + FieldsText(fields) + "}"
  }

  function ItemsText(items: seq<Json>): string
    decreases items, 0
  {
    if items == [] then ""
    else Text(items[0]) + (if |items| > 1 then "," else "") + ItemsText(items[1..])
  }

  function FieldsText(fields: seq<Field>): string
    decreases fields, 0
  {
    if fields == [] then ""
    else
      Quoted(fields[0].key) + ":" + Text(fields[0].value) + (if |fields| > 1 then "," else "") + FieldsText(fields[1..])
  }

  // ----- its bytes ----------------------------------------------------------

  /** UTF-8, section 3 of RFC 3629. */
  function Utf8(c: char): (r: seq<nat>)
    ensures forall i :: 0 <= i < |r| ==> r[i] < 256
  {
    var n := c as int;
    if n < 0x80 then [n]
    else if n < 0x800 then [0xC0 + n / 0x40, 0x80 + n % 0x40]
    else if n < 0x1_0000 then [0xE0 + n / 0x1000, 0x80 + n / 0x40 % 0x40, 0x80 + n % 0x40]
    else [0xF0 + n / 0x4_0000, 0x80 + n / 0x1000 % 0x40, 0x80 + n / 0x40 % 0x40, 0x80 + n % 0x40]
  }

  function Bytes(s: string): seq<nat> {
    if s == "" then [] else Utf8(s[0]) + Bytes(s[1..])
  }

  lemma {:induction false} BytesAreTextLen(s: string)
    ensures |Bytes(s)| == TextLen(s)
  {
    if s != "" {
      BytesAreTextLen(s[1..]);
    }
  }

  // ----- the sizes ----------------------------------------------------------

  /** Characters of one byte each. */
  predicate IsAscii(s: string) {
    forall c :: c in s ==> c as int < 0x80
  }

  lemma {:induction false} AsciiLen(s: string)
    requires IsAscii(s)
    ensures TextLen(s) == |s|
  {
    if s != "" {
      assert s[0] in s && forall c :: c in s[1..] ==> c in s;
      AsciiLen(s[1..]);
    }
  }

  lemma EscapedSize(c: char)
    ensures TextLen(Escaped(c)) == EscapedLen(c)
  {
    if c as int < 32 || c == '\"' || c == '\\' {
      AsciiLen(Escaped(c));
    } else {
      assert [c][1..] == "";
    }
  }

  lemma {:induction false} EscapedTextSize(s: string)
    ensures TextLen(EscapedText(s)) == LiteralLen(s)
  {
    if s != "" {
      EscapedSize(s[0]);
      EscapedTextSize(s[1..]);
      TextLenConcat(Escaped(s[0]), EscapedText(s[1..]));
    }
  }

  lemma QuotedSize(s: string)
    ensures TextLen(Quoted(s)) == 2 + LiteralLen(s)
  {
    EscapedTextSize(s);
    Around("\"", EscapedText(s), "\"");
  }

  lemma Around(a: string, s: string, b: string)
    requires |a| == |b| == 1 && IsAscii(a) && IsAscii(b)
    ensures TextLen(a + s + b) == 2 + TextLen(s)
  {
    AsciiLen(a);
    AsciiLen(b);
    TextLenConcat(a + s, b);
    TextLenConcat(a, s);
  }

  lemma WordSizes()
    ensures TextLen("null") == 4 && TextLen("true") == 4 && TextLen("false") == 5
  {
    AsciiLen("null");
    AsciiLen("true");
    AsciiLen("false");
  }

  lemma IntSize(n: int)
    ensures TextLen(Text(Int(n))) == Size(Int(n))
  {
    NumeralSize(if n < 0 then -n else n);
    if n < 0 {
      AsciiLen("-");
      TextLenConcat("-", Decimal.Numeral(-n));
    }
  }

  /** The size of a document is the length of its text in bytes. */
  lemma {:induction false} SizeIsLength(v: Json)
    ensures Size(v) == TextLen(Text(v)) == |Bytes(Text(v))|
    decreases v, 1
  {
    BytesAreTextLen(Text(v));
    match v
    case Null => WordSizes();
    case Bool(_) => WordSizes();
    case Int(n) => IntSize(n);
    case Float(text) =>
    case Str(s) => QuotedSize(s);
    case Arr(items) =>
      ItemsTextSize(items);
      Around("[", ItemsText(items), "]");
    case Obj(fields) =>
      FieldsTextSize(fields);
      Around("{", FieldsText(fields), "}");
  }

  /** A numeral reads back as its number. */
  lemma {:induction false} NumeralReadsBack(n: nat)
    ensures Decimal.Value(Decimal.Numeral(n)) == n
  {
    if n >= 10 {
      NumeralReadsBack(n / 10);
    }
    LastDigit(if n < 10 then "" else Decimal.Numeral(n / 10), n % 10);
  }

  lemma LastDigit(front: string, d: nat)
    requires d < 10 && forall c :: c in front ==> Decimal.IsDigit(c)
    ensures var s := front + [Decimal.DigitChar(d)];
      (forall c :: c in s ==> Decimal.IsDigit(c)) && Decimal.Value(s) == 10 * Decimal.Value(front) + d
  {
    assert (front + [Decimal.DigitChar(d)])[..|front|] == front;
  }

  lemma NumeralSize(n: nat)
    ensures TextLen(Decimal.Numeral(n)) == Decimal.Length(n)
  {
    AsciiLen(Decimal.Numeral(n));
  }

  lemma CommaLen(more: bool)
    ensures TextLen(if more then "," else "") == if more then 1 else 0
  {
    AsciiLen(",");
  }

  lemma {:induction false} ItemsTextSize(items: seq<Json>)
    ensures TextLen(ItemsText(items)) == Commas(|items|) + ItemsSize(items)
    decreases items, 0
  {
    if items != [] {
      var head, comma, rest := Text(items[0]), if |items| > 1 then "," else "", ItemsText(items[1..]);
      SizeIsLength(items[0]);
      ItemsTextSize(items[1..]);
      CommaLen(|items| > 1);
      TextLenConcat(head + comma, rest);
      TextLenConcat(head, comma);
    }
  }

  lemma {:induction false} FieldsTextSize(fields: seq<Field>)
    ensures TextLen(FieldsText(fields)) == Commas(|fields|) + FieldsSize(fields)
    decreases fields, 0
  {
    if fields != [] {
      var key, value := Quoted(fields[0].key), Text(fields[0].value);
      var comma, rest := if |fields| > 1 then "," else "", FieldsText(fields[1..]);
      QuotedSize(fields[0].key);
      SizeIsLength(fields[0].value);
      FieldsTextSize(fields[1..]);
      CommaLen(|fields| > 1);
      AsciiLen(":");
      TextLenConcat(key + ":" + value + comma, rest);
      TextLenConcat(key + ":" + value, comma);
      TextLenConcat(key + ":", value);
      TextLenConcat(key, ":");
    }
  }
}
