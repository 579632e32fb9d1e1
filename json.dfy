/**
 * The JSON values the cache hashes and stores (no floats), Python's
 * `json.dumps(obj, separators=(",", ":"), ensure_ascii=...)` writer, the
 * `sort_keys=True` reordering, and a reader that inverts the writer.
 */
module Json {
  import opened Wrappers
  import opened Strings
  import Sorting

  datatype Json =
    | JNull
    | JBool(b: bool)
    | JInt(i: int)
    | JStr(s: string)
    | JArr(items: seq<Json>)
    | JObj(fields: seq<Field>)

  /** One `key: value` entry of a JSON object, in insertion order. */
  datatype Field = Field(key: string, value: Json)

  // ---------------------------------------------------------------------
  // String escaping
  // ---------------------------------------------------------------------

  /**
   * The characters `json.dumps` writes as they are: not the quote, not the
   * backslash, not a control character below U+0020, and with
   * `ensure_ascii` nothing outside U+0020..U+007E either.
   */
  predicate Literal(c: char, ascii: bool)
  {
    c != '"' && c != '\\' && 0x20 <= c as int && (!ascii || c as int <= 0x7E)
  }

  /** What follows the backslash for a character that is not written as it is. */
  function EscapeCode(c: char, ascii: bool): string
    requires !Literal(c, ascii)
  {
    var n := c as int;
    if c == '"' then "\""
    else if c == '\\' then "\\"
    else if n == 8 then "b"
    else if n == 12 then "f"
    else if c == '\n' then "n"
    else if c == '\r' then "r"
    else if c == '\t' then "t"
    else if n < 0x10000 then UnicodeEscape(n)
    else SurrogatePair(n)
  }

  /** `uHHHH`: four lower-case hex digits of a UTF-16 code unit. */
  function UnicodeEscape(n: nat): string
    requires n < 0x10000
  {
    "u" + Hex4(n)
  }

  /** `uHHHH\uLLLL` for a code point above U+FFFF, as UTF-16 writes it. */
  function SurrogatePair(n: int): string
    requires 0x10000 <= n < 0x110000
  {
    var v := n - 0x10000;
    UnicodeEscape(0xD800 + v / 0x400) + "\\" + UnicodeEscape(0xDC00 + v % 0x400)
  }

  /** How `json.dumps` writes one character of a string (a surrogate pair above U+FFFF). */
  function EscapeChar(c: char, ascii: bool): string
  {
    if Literal(c, ascii) then [c] else "\\" + EscapeCode(c, ascii)
  }

  function Escape(s: string, ascii: bool): string
  {
    if |s| == 0 then "" else EscapeChar(s[0], ascii) + Escape(s[1..], ascii)
  }

  function Quote(s: string, ascii: bool): string
  {
    "\"" + Escape(s, ascii) + "\""
  }

  // ---------------------------------------------------------------------
  // The writer, with separators (",", ":") and no reordering
  // ---------------------------------------------------------------------

  function Write(j: Json, ascii: bool): string
    decreases j
  {
    match j
    case JNull => "null"
    case JBool(b) => if b then "true" else "false"
    case JInt(i) => IntToString(i)
    case JStr(s) => Quote(s, ascii)
    case JArr(items) => "[" + WriteItems(items, ascii) + "]"
    case JObj(fs) => "{" + WriteFields(fs, ascii) + "}"
  }

  function WriteItems(items: seq<Json>, ascii: bool): string
    decreases items
  {
    if |items| == 0 then ""
    else if |items| == 1 then Write(items[0], ascii)
    else Write(items[0], ascii) + "," + WriteItems(items[1..], ascii)
  }

  function WriteField(f: Field, ascii: bool): string
    decreases f
  {
    Quote(f.key, ascii) + ":" + Write(f.value, ascii)
  }

  function WriteFields(fs: seq<Field>, ascii: bool): string
    decreases fs
  {
    if |fs| == 0 then ""
    else if |fs| == 1 then WriteField(fs[0], ascii)
    else WriteField(fs[0], ascii) + "," + WriteFields(fs[1..], ascii)
  }

  // ---------------------------------------------------------------------
  // The reader: each function takes a text and returns what it read and
  // the text after it.
  // ---------------------------------------------------------------------

  predicate IsHex4(t: string)
  {
    |t| == 4 && forall i :: 0 <= i < 4 ==> IsLowerHex(t[i])
  }

  /** The character after a backslash inside a string. */
  function ParseEscape(s: string): (r: Option<(char, string)>)
    ensures r.Some? ==> |r.value.1| < |s|
  {
    if |s| == 0 then None
    else if s[0] == '"' then Some(('"', s[1..]))
    else if s[0] == '\\' then Some(('\\', s[1..]))
    else if s[0] == 'b' then Some((8 as char, s[1..]))
    else if s[0] == 'f' then Some((12 as char, s[1..]))
    else if s[0] == 'n' then Some(('\n', s[1..]))
    else if s[0] == 'r' then Some(('\r', s[1..]))
    else if s[0] == 't' then Some(('\t', s[1..]))
    else if s[0] == 'u' && |s| >= 5 && IsHex4(s[1..5]) then
      var n := Hex4Value(s[1..5]);
      if 0xD800 <= n < 0xDC00 then
        if |s| >= 11 && s[5] == '\\' && s[6] == 'u' && IsHex4(s[7..11]) then
          var m := Hex4Value(s[7..11]);
          if 0xDC00 <= m < 0xE000 then
            Some(((0x10000 + (n - 0xD800) * 0x400 + (m - 0xDC00)) as char, s[11..]))
          else None
        else None
      else if 0xDC00 <= n < 0xE000 || n >= 0x10000 then None
      else Some((n as char, s[5..]))
    else None
  }

  /** The rest of a string after its opening quote, up to and past the closing quote. */
  function ParseStr(s: string): (r: Option<(string, string)>)
    ensures r.Some? ==> |r.value.1| < |s|
    decreases |s|
  {
    if |s| == 0 then None
    else if s[0] == '"' then Some(("", s[1..]))
    else if s[0] == '\\' then
      match ParseEscape(s[1..])
      case None => None
      case Some((c, rest)) =>
        match ParseStr(rest)
        case None => None
        case Some((t, rest')) => Some(([c] + t, rest'))
    else
      match ParseStr(s[1..])
      case None => None
      case Some((t, rest)) => Some(([s[0]] + t, rest))
  }

  function ParseValue(s: string): (r: Option<(Json, string)>)
    ensures r.Some? ==> |r.value.1| < |s|
    decreases |s|, 1
  {
    if |s| == 0 then None
    else if s[0] == 'n' then
      if |s| >= 4 && s[..4] == "null" then Some((JNull, s[4..])) else None
    else if s[0] == 't' then
      if |s| >= 4 && s[..4] == "true" then Some((JBool(true), s[4..])) else None
    else if s[0] == 'f' then
      if |s| >= 5 && s[..5] == "false" then Some((JBool(false), s[5..])) else None
    else if s[0] == '-' then
      var k := DigitRun(s[1..]);
      if k == 0 then None else Some((JInt(-(DigitsValue(s[1..][..k]) as int)), s[1..][k..]))
    else if IsDigit(s[0]) then
      var k := DigitRun(s);
      Some((JInt(DigitsValue(s[..k])), s[k..]))
    else if s[0] == '"' then
      match ParseStr(s[1..])
      case None => None
      case Some((t, rest)) => Some((JStr(t), rest))
    else if s[0] == '[' then
      if |s| >= 2 && s[1] == ']' then Some((JArr([]), s[2..]))
      else
        match ParseItems(s[1..])
        case None => None
        case Some((items, rest)) => Some((JArr(items), rest))
    else if s[0] == '{' then
      if |s| >= 2 && s[1] == '}' then Some((JObj([]), s[2..]))
      else
        match ParseFields(s[1..])
        case None => None
        case Some((fs, rest)) => Some((JObj(fs), rest))
    else None
  }

  /** One or more comma-separated values and the closing bracket. */
  function ParseItems(s: string): (r: Option<(seq<Json>, string)>)
    ensures r.Some? ==> |r.value.1| < |s|
    decreases |s|, 2
  {
    match ParseValue(s)
    case None => None
    case Some((v, rest)) =>
      if |rest| == 0 then None
      else if rest[0] == ']' then Some(([v], rest[1..]))
      else if rest[0] == ',' then
        match ParseItems(rest[1..])
        case None => None
        case Some((vs, rest')) => Some(([v] + vs, rest'))
      else None
  }

  function ParseField(s: string): (r: Option<(Field, string)>)
    ensures r.Some? ==> |r.value.1| < |s|
    decreases |s|, 2
  {
    if |s| == 0 || s[0] != '"' then None
    else
      match ParseStr(s[1..])
      case None => None
      case Some((k, rest)) =>
        if |rest| == 0 || rest[0] != ':' then None
        else
          match ParseValue(rest[1..])
          case None => None
          case Some((v, rest')) => Some((Field(k, v), rest'))
  }

  /** One or more comma-separated `key:value` entries and the closing brace. */
  function ParseFields(s: string): (r: Option<(seq<Field>, string)>)
    ensures r.Some? ==> |r.value.1| < |s|
    decreases |s|, 3
  {
    match ParseField(s)
    case None => None
    case Some((f, rest)) =>
      if |rest| == 0 then None
      else if rest[0] == '}' then Some(([f], rest[1..]))
      else if rest[0] == ',' then
        match ParseFields(rest[1..])
        case None => None
        case Some((fs, rest')) => Some(([f] + fs, rest'))
      else None
  }

  /** A whole text holding exactly one value. */
  function Parse(s: string): Option<Json>
  {
    match ParseValue(s)
    case Some((j, rest)) => if rest == "" then Some(j) else None
    case None => None
  }

  // ---------------------------------------------------------------------
  // The reader inverts the writer
  // ---------------------------------------------------------------------

  lemma ParseHex4(n: nat, more: string)
    requires n < 0x10000
    ensures var s := Hex4(n) + more; |s| >= 4 && IsHex4(s[..4]) && Hex4Value(s[..4]) == n && s[4..] == more
  {
    var s := Hex4(n) + more;
    assert s[..4] == Hex4(n);
    Hex4Inverse(n);
  }

  lemma ParseEscapeBmp(n: nat, more: string)
    requires n < 0xD800 || 0xE000 <= n < 0x10000
    ensures ParseEscape(UnicodeEscape(n) + more) == Some((n as char, more))
  {
    var s := UnicodeEscape(n) + more;
    ParseHex4(n, more);
    assert s[1..] == Hex4(n) + more;
    assert s[1..5] == (Hex4(n) + more)[..4];
    assert s[5..] == (Hex4(n) + more)[4..];
  }

  lemma ParseEscapeSurrogates(hi: nat, lo: nat, more: string)
    requires 0xD800 <= hi < 0xDC00 && 0xDC00 <= lo < 0xE000
    ensures ParseEscape(UnicodeEscape(hi) + "\\" + UnicodeEscape(lo) + more)
      == Some(((0x10000 + (hi - 0xD800) * 0x400 + (lo - 0xDC00)) as char, more))
  {
    var tail := "\\" + UnicodeEscape(lo) + more;
    var s := "u" + (Hex4(hi) + tail);
    assert UnicodeEscape(hi) + "\\" + UnicodeEscape(lo) + more == s;
    ParseHex4(hi, tail);
    ParseHex4(lo, more);
    assert s[1..5] == (Hex4(hi) + tail)[..4];
    assert s[5..] == tail;
    assert s[5] == '\\' && s[6] == 'u';
    assert s[7..11] == (Hex4(lo) + more)[..4];
    assert s[11..] == (Hex4(lo) + more)[4..];
  }

  /** The two halves of a surrogate pair are in range and put the code point back together. */
  lemma SurrogateHalves(n: int)
    requires 0x10000 <= n < 0x110000
    ensures var v := n - 0x10000;
      var hi, lo := 0xD800 + v / 0x400, 0xDC00 + v % 0x400;
      0xD800 <= hi < 0xDC00 && 0xDC00 <= lo < 0xE000
      && 0x10000 + (hi - 0xD800) * 0x400 + (lo - 0xDC00) == n
  {
  }

  lemma ParseEscapePair(c: char, more: string)
    requires c as int >= 0x10000
    ensures ParseEscape(SurrogatePair(c as int) + more) == Some((c, more))
  {
    var v := c as int - 0x10000;
    var hi, lo := 0xD800 + v / 0x400, 0xDC00 + v % 0x400;
    SurrogateHalves(c as int);
    assert SurrogatePair(c as int) == UnicodeEscape(hi) + "\\" + UnicodeEscape(lo);
    ParseEscapeSurrogates(hi, lo, more);
  }

  lemma ParseEscapeCode(c: char, ascii: bool, more: string)
    requires !Literal(c, ascii)
    ensures ParseEscape(EscapeCode(c, ascii) + more) == Some((c, more))
  {
    var n := c as int;
    if c == '"' || c == '\\' || n == 8 || n == 12 || c == '\n' || c == '\r' || c == '\t' {
    } else if n < 0x10000 {
      ParseEscapeBmp(n, more);
    } else {
      ParseEscapePair(c, more);
    }
  }

  lemma ParseStrLiteral(c: char, more: string, u: string, r: string)
    requires c != '"' && c != '\\'
    requires ParseStr(more) == Some((u, r))
    ensures ParseStr([c] + more) == Some(([c] + u, r))
  {
    assert ([c] + more)[1..] == more;
  }

  lemma ParseStrEscaped(code: string, c: char, more: string, u: string, r: string)
    requires ParseEscape(code + more) == Some((c, more))
    requires ParseStr(more) == Some((u, r))
    ensures ParseStr("\\" + code + more) == Some(([c] + u, r))
  {
    assert ("\\" + code + more)[1..] == code + more;
  }

  /** The reader takes back exactly what `EscapeChar` wrote for one character. */
  lemma ParseStrStep(c: char, ascii: bool, more: string, u: string, r: string)
    requires ParseStr(more) == Some((u, r))
    ensures ParseStr(EscapeChar(c, ascii) + more) == Some(([c] + u, r))
  {
    if Literal(c, ascii) {
      ParseStrLiteral(c, more, u, r);
    } else {
      ParseEscapeCode(c, ascii, more);
      ParseStrEscaped(EscapeCode(c, ascii), c, more, u, r);
    }
  }

  lemma EscapeCons(t: string, ascii: bool, rest: string)
    requires |t| > 0
    ensures Escape(t, ascii) + "\"" + rest == EscapeChar(t[0], ascii) + (Escape(t[1..], ascii) + "\"" + rest)
  {
  }

  lemma {:induction false} ParseQuoted(t: string, ascii: bool, rest: string)
    ensures ParseStr(Escape(t, ascii) + "\"" + rest) == Some((t, rest))
  {
    if |t| == 0 {
      assert Escape(t, ascii) + "\"" + rest == "\"" + rest;
    } else {
      var more := Escape(t[1..], ascii) + "\"" + rest;
      ParseQuoted(t[1..], ascii, rest);
      ParseStrStep(t[0], ascii, more, t[1..], rest);
      EscapeCons(t, ascii, rest);
      assert [t[0]] + t[1..] == t;
    }
  }

  /** What may follow a value in the written text: its end, a comma or a closing bracket or brace. */
  predicate Delimited(rest: string)
  {
    |rest| == 0 || rest[0] == ',' || rest[0] == ']' || rest[0] == '}'
  }

  lemma WriteStart(j: Json, ascii: bool)
    ensures |Write(j, ascii)| > 0
    ensures var c := Write(j, ascii)[0];
      c == 'n' || c == 't' || c == 'f' || c == '-' || IsDigit(c) || c == '"' || c == '[' || c == '{'
  {
    if j.JInt? && j.i >= 0 {
      assert IsDigit(NatToString(j.i)[0]);
    }
  }

  lemma ParseNat(n: nat, rest: string)
    requires Delimited(rest)
    ensures ParseValue(NatToString(n) + rest) == Some((JInt(n), rest))
  {
    var s := NatToString(n) + rest;
    NatToStringInverse(n, rest);
    assert IsDigit(s[0]);
    var k := DigitRun(s);
    assert s[k..] == rest;
  }

  lemma ParseMinusParts(t: string, k: nat, v: nat, rest: string)
    requires k > 0 && DigitRun(t) == k && DigitsValue(t[..k]) == v && t[k..] == rest
    ensures ParseValue("-" + t) == Some((JInt(-(v as int)), rest))
  {
    var s := "-" + t;
    assert s[0] == '-' && s[1..] == t;
  }

  lemma ParseNegative(n: nat, rest: string)
    requires n > 0 && Delimited(rest)
    ensures ParseValue("-" + NatToString(n) + rest) == Some((JInt(-(n as int)), rest))
  {
    var t := NatToString(n) + rest;
    NatToStringInverse(n, rest);
    assert t[|NatToString(n)|..] == rest;
    ParseMinusParts(t, |NatToString(n)|, n, rest);
    assert "-" + NatToString(n) + rest == "-" + t;
  }

  lemma ParseInt(i: int, rest: string)
    requires Delimited(rest)
    ensures ParseValue(IntToString(i) + rest) == Some((JInt(i), rest))
  {
    if i < 0 {
      ParseNegative(-i, rest);
    } else {
      ParseNat(i, rest);
    }
  }

  lemma ParseLiteral(j: Json, ascii: bool, rest: string)
    requires j.JNull? || j.JBool?
    ensures ParseValue(Write(j, ascii) + rest) == Some((j, rest))
  {
    var s := Write(j, ascii) + rest;
    if j.JNull? {
      assert s[..4] == "null" && s[4..] == rest;
    } else if j.b {
      assert s[..4] == "true" && s[4..] == rest;
    } else {
      assert s[..5] == "false" && s[5..] == rest;
    }
  }

  lemma ParseString(t: string, ascii: bool, rest: string)
    ensures ParseValue(Quote(t, ascii) + rest) == Some((JStr(t), rest))
  {
    var s := Quote(t, ascii) + rest;
    assert s[0] == '"';
    assert s[1..] == Escape(t, ascii) + "\"" + rest;
    ParseQuoted(t, ascii, rest);
  }

  /** Reading back what `Write` produced gives the value and leaves the text after it. */
  lemma {:induction false} ParseWrite(j: Json, ascii: bool, rest: string)
    requires Delimited(rest)
    ensures ParseValue(Write(j, ascii) + rest) == Some((j, rest))
    decreases j, 2
  {
    match j
    case JNull => ParseLiteral(j, ascii, rest);
    case JBool(_) => ParseLiteral(j, ascii, rest);
    case JInt(i) => ParseInt(i, rest);
    case JStr(t) => ParseString(t, ascii, rest);
    case JArr(items) => ParseArray(items, ascii, rest);
    case JObj(fs) => ParseObject(fs, ascii, rest);
  }

  lemma ParseArrayParts(s: string, items: seq<Json>, rest: string)
    requires |s| >= 2 && s[0] == '[' && s[1] != ']'
    requires ParseItems(s[1..]) == Some((items, rest))
    ensures ParseValue(s) == Some((JArr(items), rest))
  {
  }

  lemma ParseObjectParts(s: string, fs: seq<Field>, rest: string)
    requires |s| >= 2 && s[0] == '{' && s[1] != '}'
    requires ParseFields(s[1..]) == Some((fs, rest))
    ensures ParseValue(s) == Some((JObj(fs), rest))
  {
  }

  lemma WriteArrayShape(items: seq<Json>, ascii: bool, rest: string)
    ensures Write(JArr(items), ascii) + rest == "[" + (WriteItems(items, ascii) + "]" + rest)
  {
  }

  lemma WriteObjectShape(fs: seq<Field>, ascii: bool, rest: string)
    ensures Write(JObj(fs), ascii) + rest == "{" + (WriteFields(fs, ascii) + "}" + rest)
  {
  }

  lemma ParseEmptyArray(rest: string)
    ensures ParseValue("[" + ("" + "]" + rest)) == Some((JArr([]), rest))
  {
    var s := "[" + ("" + "]" + rest);
    assert s[0] == '[' && s[1] == ']' && s[2..] == rest;
  }

  lemma ParseEmptyObject(rest: string)
    ensures ParseValue("{" + ("" + "}" + rest)) == Some((JObj([]), rest))
  {
    var s := "{" + ("" + "}" + rest);
    assert s[0] == '{' && s[1] == '}' && s[2..] == rest;
  }

  lemma {:induction false} ParseArray(items: seq<Json>, ascii: bool, rest: string)
    requires Delimited(rest)
    ensures ParseValue(Write(JArr(items), ascii) + rest) == Some((JArr(items), rest))
    decreases items, 1
  {
    var w := WriteItems(items, ascii);
    WriteArrayShape(items, ascii, rest);
    if |items| == 0 {
      assert w == "";
      ParseEmptyArray(rest);
    } else {
      WriteItemsStart(items, ascii);
      ParseWriteItems(items, ascii, rest);
      var t := w + "]" + rest;
      assert t[0] == w[0];
      var s := "[" + t;
      assert s[0] == '[' && s[1..] == t && s[1] == t[0];
      ParseArrayParts(s, items, rest);
    }
  }

  lemma {:induction false} ParseObject(fs: seq<Field>, ascii: bool, rest: string)
    requires Delimited(rest)
    ensures ParseValue(Write(JObj(fs), ascii) + rest) == Some((JObj(fs), rest))
    decreases fs, 1
  {
    var w := WriteFields(fs, ascii);
    WriteObjectShape(fs, ascii, rest);
    if |fs| == 0 {
      assert w == "";
      ParseEmptyObject(rest);
    } else {
      WriteFieldsStart(fs, ascii);
      ParseWriteFields(fs, ascii, rest);
      var t := w + "}" + rest;
      assert t[0] == w[0];
      var s := "{" + t;
      assert s[0] == '{' && s[1..] == t && s[1] == t[0];
      ParseObjectParts(s, fs, rest);
    }
  }

  lemma ParseItemsLast(s: string, v: Json, rest: string)
    requires ParseValue(s) == Some((v, "]" + rest))
    ensures ParseItems(s) == Some(([v], rest))
  {
    assert ("]" + rest)[1..] == rest;
  }

  lemma ParseItemsCons(s: string, v: Json, tail: string, vs: seq<Json>, rest: string)
    requires ParseValue(s) == Some((v, "," + tail))
    requires ParseItems(tail) == Some((vs, rest))
    ensures ParseItems(s) == Some(([v] + vs, rest))
  {
    assert ("," + tail)[1..] == tail;
  }

  lemma {:induction false} ParseWriteItems(items: seq<Json>, ascii: bool, rest: string)
    requires |items| > 0
    ensures ParseItems(WriteItems(items, ascii) + "]" + rest) == Some((items, rest))
    decreases items, 0
  {
    var v := items[0];
    var a := Write(v, ascii);
    var s := WriteItems(items, ascii) + "]" + rest;
    if |items| == 1 {
      assert s == a + ("]" + rest);
      ParseWrite(v, ascii, "]" + rest);
      ParseItemsLast(s, v, rest);
      assert [v] == items;
    } else {
      var b := WriteItems(items[1..], ascii);
      var tail := b + "]" + rest;
      assert WriteItems(items, ascii) == a + "," + b;
      assert s == a + ("," + tail);
      ParseWrite(v, ascii, "," + tail);
      ParseWriteItems(items[1..], ascii, rest);
      ParseItemsCons(s, v, tail, items[1..], rest);
      assert [v] + items[1..] == items;
    }
  }

  lemma ParseFieldParts(s: string, k: string, x: string, v: Json, rest: string)
    requires |s| > 0 && s[0] == '"'
    requires ParseStr(s[1..]) == Some((k, ":" + x))
    requires ParseValue(x) == Some((v, rest))
    ensures ParseField(s) == Some((Field(k, v), rest))
  {
    assert (":" + x)[1..] == x;
  }

  lemma WriteFieldShape(f: Field, ascii: bool, rest: string)
    ensures WriteField(f, ascii) + rest
      == "\"" + (Escape(f.key, ascii) + "\"" + (":" + (Write(f.value, ascii) + rest)))
  {
  }

  lemma {:induction false} ParseWriteField(f: Field, ascii: bool, rest: string)
    requires Delimited(rest)
    ensures ParseField(WriteField(f, ascii) + rest) == Some((f, rest))
    decreases f, 1
  {
    var x := Write(f.value, ascii) + rest;
    var q := Escape(f.key, ascii) + "\"" + (":" + x);
    var s := WriteField(f, ascii) + rest;
    WriteFieldShape(f, ascii, rest);
    assert s[1..] == q;
    ParseQuoted(f.key, ascii, ":" + x);
    ParseWrite(f.value, ascii, rest);
    ParseFieldParts(s, f.key, x, f.value, rest);
  }

  lemma WriteFieldStart(f: Field, ascii: bool)
    ensures |WriteField(f, ascii)| > 0 && WriteField(f, ascii)[0] == '"'
  {
    assert WriteField(f, ascii) == "\"" + (Escape(f.key, ascii) + "\"" + ":" + Write(f.value, ascii));
  }

  lemma WriteItemsStart(items: seq<Json>, ascii: bool)
    requires |items| > 0
    ensures |WriteItems(items, ascii)| > 0 && WriteItems(items, ascii)[0] != ']'
  {
    var w := Write(items[0], ascii);
    WriteStart(items[0], ascii);
    if |items| > 1 {
      var t := "," + WriteItems(items[1..], ascii);
      assert WriteItems(items, ascii) == w + t;
      assert (w + t)[0] == w[0];
    } else {
      assert WriteItems(items, ascii) == w;
    }
  }

  lemma {:induction false} WriteFieldsStart(fs: seq<Field>, ascii: bool)
    requires |fs| > 0
    ensures |WriteFields(fs, ascii)| > 0 && WriteFields(fs, ascii)[0] == '"'
  {
    var w := WriteField(fs[0], ascii);
    WriteFieldStart(fs[0], ascii);
    if |fs| > 1 {
      var t := "," + WriteFields(fs[1..], ascii);
      assert WriteFields(fs, ascii) == w + t;
      assert (w + t)[0] == w[0];
    } else {
      assert WriteFields(fs, ascii) == w;
    }
  }

  lemma ParseFieldsCons(s: string, f: Field, tail: string, fs: seq<Field>, rest: string)
    requires ParseField(s) == Some((f, "," + tail))
    requires ParseFields(tail) == Some((fs, rest))
    ensures ParseFields(s) == Some(([f] + fs, rest))
  {
    assert ("," + tail)[1..] == tail;
  }

  lemma ParseFieldsLast(s: string, f: Field, rest: string)
    requires ParseField(s) == Some((f, "}" + rest))
    ensures ParseFields(s) == Some(([f], rest))
  {
    assert ("}" + rest)[1..] == rest;
  }

  lemma {:induction false} ParseWriteFields(fs: seq<Field>, ascii: bool, rest: string)
    requires |fs| > 0
    ensures ParseFields(WriteFields(fs, ascii) + "}" + rest) == Some((fs, rest))
    decreases fs, 0
  {
    var f := fs[0];
    var a := WriteField(f, ascii);
    var s := WriteFields(fs, ascii) + "}" + rest;
    if |fs| == 1 {
      assert s == a + ("}" + rest);
      ParseWriteField(f, ascii, "}" + rest);
      ParseFieldsLast(s, f, rest);
      assert [f] == fs;
    } else {
      var b := WriteFields(fs[1..], ascii);
      var tail := b + "}" + rest;
      assert WriteFields(fs, ascii) == a + "," + b;
      assert s == a + ("," + tail);
      ParseWriteField(f, ascii, "," + tail);
      ParseWriteFields(fs[1..], ascii, rest);
      ParseFieldsCons(s, f, tail, fs[1..], rest);
      assert [f] + fs[1..] == fs;
    }
  }

  /** The written text of a value reads back as that value. */
  lemma RoundTrip(j: Json, ascii: bool)
    ensures Parse(Write(j, ascii)) == Some(j)
  {
    ParseWrite(j, ascii, "");
    assert Write(j, ascii) + "" == Write(j, ascii);
  }

  /** Distinct values are written as distinct texts, in both escaping modes. */
  lemma WriteInjective(j: Json, k: Json, ascii: bool)
    requires Write(j, ascii) == Write(k, ascii)
    ensures j == k
  {
    RoundTrip(j, ascii);
    RoundTrip(k, ascii);
  }

  // ---------------------------------------------------------------------
  // sort_keys=True
  // ---------------------------------------------------------------------

  /** A Python dict: no key twice. */
  predicate UniqueKeys(fs: seq<Field>)
  {
    forall i, k :: 0 <= i < k < |fs| ==> fs[i].key != fs[k].key
  }

  /** The order `sort_keys` puts entries in: by key, as Python compares str. */
  predicate KeyLe(a: Field, b: Field)
  {
    LessEq(a.key, b.key)
  }

  lemma KeyLeTotalPreorder()
    ensures Sorting.TotalPreorder(KeyLe)
  {
    LessEqTotalPreorder();
  }

  /** Entries of a dict never tie under the key order. */
  lemma UniqueKeysNoTies(fs: seq<Field>)
    requires UniqueKeys(fs)
    ensures Sorting.NoTies(fs, KeyLe)
  {
    LessEqTotalPreorder();
    forall a, b | a in fs && b in fs && KeyLe(a, b) && KeyLe(b, a) ensures a == b {
      var i :| 0 <= i < |fs| && fs[i] == a;
      var k :| 0 <= k < |fs| && fs[k] == b;
      assert a.key == b.key;
      assert !(i < k) && !(k < i);
    }
  }

  /** The same value with the entries of every object in key order. */
  function Canon(j: Json): Json
    decreases j, 1
  {
    match j
    case JArr(items) => JArr(CanonItems(items))
    case JObj(fs) => JObj(Sorting.Sort(CanonFields(fs), KeyLe))
    case _ => j
  }

  function CanonItems(items: seq<Json>): (r: seq<Json>)
    ensures |r| == |items|
    decreases items, 0
  {
    seq(|items|, i requires 0 <= i < |items| => Canon(items[i]))
  }

  function CanonField(f: Field): Field
    decreases f, 2
  {
    Field(f.key, Canon(f.value))
  }

  function CanonFields(fs: seq<Field>): (r: seq<Field>)
    ensures |r| == |fs|
    ensures forall i :: 0 <= i < |fs| ==> r[i] == CanonField(fs[i])
    decreases fs, 0
  {
    seq(|fs|, i requires 0 <= i < |fs| => CanonField(fs[i]))
  }

  /** `json.dumps(obj, sort_keys=True, separators=(",", ":"), ensure_ascii=ascii)`. */
  function Dumps(j: Json, ascii: bool): string
  {
    Write(Canon(j), ascii)
  }

  /** Every object, at every depth, lists its entries in key order. */
  ghost predicate SortedKeys(j: Json)
    decreases j
  {
    match j
    case JArr(items) => forall i :: 0 <= i < |items| ==> SortedKeys(items[i])
    case JObj(fs) =>
      Sorting.SortedBy(fs, KeyLe) && forall i :: 0 <= i < |fs| ==> SortedKeys(fs[i].value)
    case _ => true
  }

  /** The payload lists the keys of every object, at every depth, in order. */
  lemma {:induction false} CanonSortsKeys(j: Json)
    ensures SortedKeys(Canon(j))
    decreases j
  {
    match j
    case JArr(items) =>
      forall i | 0 <= i < |items| ensures SortedKeys(CanonItems(items)[i]) {
        CanonSortsKeys(items[i]);
      }
    case JObj(fs) =>
      KeyLeTotalPreorder();
      var cf := CanonFields(fs);
      var r := Sorting.Sort(cf, KeyLe);
      Sorting.SortSorted(cf, KeyLe);
      forall i | 0 <= i < |r| ensures SortedKeys(r[i].value) {
        assert r[i] in multiset(cf);
        var p :| 0 <= p < |cf| && cf[p] == r[i];
        assert r[i].value == Canon(fs[p].value);
        CanonSortsKeys(fs[p].value);
      }
    case _ =>
  }

  lemma CanonFieldsAppend(a: seq<Field>, b: seq<Field>)
    ensures CanonFields(a + b) == CanonFields(a) + CanonFields(b)
  {
  }

  lemma {:induction false} CanonFieldsPermutation(fs: seq<Field>, gs: seq<Field>)
    requires multiset(fs) == multiset(gs)
    ensures multiset(CanonFields(fs)) == multiset(CanonFields(gs))
    decreases |fs|
  {
    if |fs| > 0 {
      var x := fs[0];
      assert x in multiset(gs);
      var k :| 0 <= k < |gs| && gs[k] == x;
      var gs' := gs[..k] + gs[k + 1..];
      assert gs == gs[..k] + [x] + gs[k + 1..];
      assert fs == [x] + fs[1..];
      assert multiset(gs) == multiset(gs[..k]) + multiset{x} + multiset(gs[k + 1..]);
      assert multiset(gs') == multiset(gs[..k]) + multiset(gs[k + 1..]);
      assert multiset(gs') == multiset(gs) - multiset{x};
      assert multiset(fs) == multiset{x} + multiset(fs[1..]);
      assert multiset(fs[1..]) == multiset(fs) - multiset{x};
      CanonFieldsPermutation(fs[1..], gs');
      CanonFieldsAppend([x], fs[1..]);
      CanonFieldsAppend(gs[..k] + [x], gs[k + 1..]);
      CanonFieldsAppend(gs[..k], [x]);
      CanonFieldsAppend(gs[..k], gs[k + 1..]);
    } else {
      assert gs == [];
    }
  }

  lemma CanonFieldsUnique(fs: seq<Field>)
    requires UniqueKeys(fs)
    ensures UniqueKeys(CanonFields(fs))
  {
  }

  /**
   * With `sort_keys`, the insertion order of a dict does not show: the same
   * entries in any order give the same payload.
   */
  lemma DumpsIgnoresOrder(fs: seq<Field>, gs: seq<Field>, ascii: bool)
    requires multiset(fs) == multiset(gs)
    requires UniqueKeys(fs)
    ensures Dumps(JObj(fs), ascii) == Dumps(JObj(gs), ascii)
  {
    KeyLeTotalPreorder();
    CanonFieldsPermutation(fs, gs);
    CanonFieldsUnique(fs);
    UniqueKeysNoTies(CanonFields(fs));
    Sorting.SortPermutationInvariant(CanonFields(fs), CanonFields(gs), KeyLe);
  }

  /** Sorting does not add or drop entries, so equal canonical forms hold the same entries. */
  lemma SameCanonPermutation(fs: seq<Field>, gs: seq<Field>)
    requires Canon(JObj(fs)) == Canon(JObj(gs))
    ensures multiset(CanonFields(fs)) == multiset(CanonFields(gs))
  {
    var cf, cg := CanonFields(fs), CanonFields(gs);
    assert Sorting.Sort(cf, KeyLe) == Sorting.Sort(cg, KeyLe);
  }

  lemma UniqueKeyPosition(fs: seq<Field>, i: nat, p: nat)
    requires UniqueKeys(fs) && i < |fs| && p < |fs| && fs[i].key == fs[p].key
    ensures i == p
  {
    assert !(p < i) && !(i < p);
  }

  /** Two dicts with the same canonical form have, under each key, values with the same canonical form. */
  lemma CanonDeterminesValues(fs: seq<Field>, gs: seq<Field>, i: nat, k: nat)
    requires UniqueKeys(fs)
    requires i < |fs| && k < |gs| && fs[i].key == gs[k].key
    requires Canon(JObj(fs)) == Canon(JObj(gs))
    ensures Canon(fs[i].value) == Canon(gs[k].value)
  {
    SameCanonPermutation(fs, gs);
    var cf, cg := CanonFields(fs), CanonFields(gs);
    assert cg[k] in multiset(cf);
    var p :| 0 <= p < |cf| && cf[p] == cg[k];
    CanonFieldsUnique(fs);
    UniqueKeyPosition(cf, i, p);
  }

  /** Changing the value under any key of a dict changes its `sort_keys` text. */
  lemma DumpsDeterminesValues(fs: seq<Field>, gs: seq<Field>, ascii: bool, i: nat, k: nat)
    requires UniqueKeys(fs)
    requires i < |fs| && k < |gs| && fs[i].key == gs[k].key
    requires Dumps(JObj(fs), ascii) == Dumps(JObj(gs), ascii)
    ensures Canon(fs[i].value) == Canon(gs[k].value)
  {
    WriteInjective(Canon(JObj(fs)), Canon(JObj(gs)), ascii);
    CanonDeterminesValues(fs, gs, i, k);
  }

  // ---------------------------------------------------------------------
  // ensure_ascii=True
  // ---------------------------------------------------------------------

  /** Only characters U+0020..U+007E. */
  predicate Printable(s: string)
  {
    forall i :: 0 <= i < |s| ==> 0x20 <= s[i] as int <= 0x7E
  }

  lemma PrintableAppend(a: string, b: string)
    requires Printable(a) && Printable(b)
    ensures Printable(a + b)
  {
    forall i | 0 <= i < |a + b| ensures 0x20 <= (a + b)[i] as int <= 0x7E {
      if i >= |a| {
        assert (a + b)[i] == b[i - |a|];
      }
    }
  }

  lemma PrintableHex4(n: nat)
    requires n < 0x10000
    ensures Printable(Hex4(n))
  {
  }

  lemma PrintableUnicodeEscape(n: nat)
    requires n < 0x10000
    ensures Printable(UnicodeEscape(n))
  {
    PrintableAppend("u", Hex4(n));
  }

  lemma PrintableSurrogatePair(n: int)
    requires 0x10000 <= n < 0x110000
    ensures Printable(SurrogatePair(n))
  {
    var v := n - 0x10000;
    var a, b := UnicodeEscape(0xD800 + v / 0x400), UnicodeEscape(0xDC00 + v % 0x400);
    PrintableUnicodeEscape(0xD800 + v / 0x400);
    PrintableUnicodeEscape(0xDC00 + v % 0x400);
    PrintableAppend(a, "\\");
    PrintableAppend(a + "\\", b);
  }

  lemma PrintableEscapeCode(c: char)
    requires !Literal(c, true)
    ensures Printable(EscapeCode(c, true))
  {
    var n := c as int;
    if c == '"' || c == '\\' || n == 8 || n == 12 || c == '\n' || c == '\r' || c == '\t' {
    } else if n < 0x10000 {
      PrintableUnicodeEscape(n);
    } else {
      PrintableSurrogatePair(n);
    }
  }

  lemma PrintableEscapeChar(c: char)
    ensures Printable(EscapeChar(c, true))
  {
    if !Literal(c, true) {
      PrintableEscapeCode(c);
      PrintableAppend("\\", EscapeCode(c, true));
    }
  }

  lemma {:induction false} PrintableEscape(t: string)
    ensures Printable(Escape(t, true))
  {
    if |t| > 0 {
      PrintableEscapeChar(t[0]);
      PrintableEscape(t[1..]);
      PrintableAppend(EscapeChar(t[0], true), Escape(t[1..], true));
    }
  }

  lemma PrintableInt(i: int)
    ensures Printable(IntToString(i))
  {
    var s := IntToString(i);
    var ds := if i < 0 then NatToString(-i) else NatToString(i);
    assert AllDigits(ds);
    assert s == if i < 0 then "-" + ds else ds;
  }

  /** With `ensure_ascii=True` the payload holds printable ASCII only, so its UTF-8 bytes are its characters. */
  lemma {:induction false} WriteAscii(j: Json)
    ensures Printable(Write(j, true))
    decreases j, 1
  {
    match j
    case JNull =>
    case JBool(_) =>
    case JInt(i) => PrintableInt(i);
    case JStr(t) =>
      PrintableEscape(t);
      PrintableAppend("\"", Escape(t, true));
      PrintableAppend("\"" + Escape(t, true), "\"");
    case JArr(items) =>
      WriteItemsAscii(items);
      PrintableAppend("[", WriteItems(items, true));
      PrintableAppend("[" + WriteItems(items, true), "]");
    case JObj(fs) =>
      WriteFieldsAscii(fs);
      PrintableAppend("{", WriteFields(fs, true));
      PrintableAppend("{" + WriteFields(fs, true), "}");
  }

  lemma {:induction false} WriteItemsAscii(items: seq<Json>)
    ensures Printable(WriteItems(items, true))
    decreases items, 0
  {
    if |items| > 0 {
      WriteAscii(items[0]);
      if |items| > 1 {
        WriteItemsAscii(items[1..]);
        PrintableAppend(Write(items[0], true), ",");
        PrintableAppend(Write(items[0], true) + ",", WriteItems(items[1..], true));
      }
    }
  }

  lemma {:induction false} WriteFieldAscii(f: Field)
    ensures Printable(WriteField(f, true))
    decreases f, 2
  {
    PrintableEscape(f.key);
    WriteAscii(f.value);
    var q := Quote(f.key, true);
    PrintableAppend("\"", Escape(f.key, true));
    PrintableAppend("\"" + Escape(f.key, true), "\"");
    PrintableAppend(q, ":");
    PrintableAppend(q + ":", Write(f.value, true));
  }

  lemma {:induction false} WriteFieldsAscii(fs: seq<Field>)
    ensures Printable(WriteFields(fs, true))
    decreases fs, 0
  {
    if |fs| > 0 {
      WriteFieldAscii(fs[0]);
      if |fs| > 1 {
        WriteFieldsAscii(fs[1..]);
        PrintableAppend(WriteField(fs[0], true), ",");
        PrintableAppend(WriteField(fs[0], true) + ",", WriteFields(fs[1..], true));
      }
    }
  }
}
