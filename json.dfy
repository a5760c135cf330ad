/** JSON values as JavaScript sees them, JavaScript truthiness, and the string
    quoting that `JSON.stringify` applies (QuoteJSONString, section 25.5.2.3 of
    ECMA-262), with a decoder for quoted strings that undoes it. */
module Json {
  import opened Wrappers

  /** A parsed JSON value. Numbers are integers in this model. */
  datatype JsonValue =
    | JNull
    | JBool(b: bool)
    | JNumber(n: int)
    | JString(s: string)
    | JArray(items: seq<JsonValue>)
    | JObject(fields: map<string, JsonValue>)

  /** JavaScript's ToBoolean (section 7.1.2 of ECMA-262); `None` is `undefined`. */
  predicate Truthy(v: Option<JsonValue>) {
    match v
    case None => false
    case Some(JNull) => false
    case Some(JBool(b)) => b
    case Some(JNumber(n)) => n != 0
    case Some(JString(s)) => s != ""
    case Some(_) => true
  }

  /** Property access `v[key]`: `undefined` unless `v` is an object that holds `key`. */
  function Get(v: Option<JsonValue>, key: string): (r: Option<JsonValue>)
    ensures r.Some? <==> v.Some? && v.value.JObject? && key in v.value.fields
  {
    if v.Some? && v.value.JObject? && key in v.value.fields then Some(v.value.fields[key]) else None
  }

  /** `typeof v === 'boolean'`. */
  predicate IsBoolean(v: Option<JsonValue>) {
    v.Some? && v.value.JBool?
  }

  /** The lower-case hexadecimal digit for `d`, as UnicodeEscape writes it. */
  function HexDigit(d: nat): (c: char)
    requires d < 16
    ensures '0' <= c <= '9' || 'a' <= c <= 'f'
  {
    if d < 10 then ('0' as int + d) as char else ('a' as int + d - 10) as char
  }

  /** The value of a hexadecimal digit of either case. */
  function HexValue(c: char): (r: Option<nat>)
    ensures r.Some? ==> r.value < 16
  {
    if '0' <= c <= '9' then Some(c as int - '0' as int)
    else if 'a' <= c <= 'f' then Some(c as int - 'a' as int + 10)
    else if 'A' <= c <= 'F' then Some(c as int - 'A' as int + 10)
    else None
  }

  lemma HexValueOfDigit(d: nat)
    requires d < 16
    ensures HexValue(HexDigit(d)) == Some(d)
  {
  }

  /** The JSON text for one character inside a quoted string. */
  function EscapeChar(c: char): string {
    if c == '"' then "\\\""
    else if c == '\\' then "\\\\"
    else if c as int == 0x08 then "\\b"
    else if c == '\t' then "\\t"
    else if c == '\n' then "\\n"
    else if c as int == 0x0C then "\\f"
    else if c == '\r' then "\\r"
    else if c as int < 0x20 then "\\u00" + [HexDigit(c as int / 16), HexDigit(c as int % 16)]
    else [c]
  }

  /** The escaped body of a JSON string literal. */
  function Escape(s: string): string {
    if s == [] then [] else EscapeChar(s[0]) + Escape(s[1..])
  }

  /** QuoteJSONString: the string literal `JSON.stringify` writes for `s`. */
  function Quote(s: string): string {
    "\"" + Escape(s) + "\""
  }

  /** Text that `JSON.stringify` writes unchanged inside a string literal. */
  predicate PlainText(s: string) {
    forall i :: 0 <= i < |s| ==> s[i] as int >= 0x20 && s[i] != '"' && s[i] != '\\'
  }

  lemma {:induction false} EscapePlain(s: string)
    requires PlainText(s)
    ensures Escape(s) == s
  {
    if s != [] {
      assert PlainText(s[1..]) by {
        forall i | 0 <= i < |s[1..]| ensures s[1..][i] as int >= 0x20 && s[1..][i] != '"' && s[1..][i] != '\\' {
          assert s[1..][i] == s[i + 1];
        }
      }
      EscapePlain(s[1..]);
      assert [s[0]] + s[1..] == s;
    }
  }

  /** Decodes one escape sequence at the head of `s` (which starts with a backslash):
      the character it stands for and how many characters it takes. */
  function DecodeEscape(s: string): (r: Option<(char, nat)>)
    ensures r.Some? ==> 2 <= r.value.1 <= |s|
  {
    if |s| < 2 then None
    else if s[1] == '"' then Some(('"', 2))
    else if s[1] == '\\' then Some(('\\', 2))
    else if s[1] == '/' then Some(('/', 2))
    else if s[1] == 'b' then Some((0x08 as char, 2))
    else if s[1] == 't' then Some(('\t', 2))
    else if s[1] == 'n' then Some(('\n', 2))
    else if s[1] == 'f' then Some((0x0C as char, 2))
    else if s[1] == 'r' then Some(('\r', 2))
    else if s[1] == 'u' && |s| >= 6 then
      match (HexValue(s[2]), HexValue(s[3]), HexValue(s[4]), HexValue(s[5]))
      case (Some(d0), Some(d1), Some(d2), Some(d3)) =>
        var code := ((d0 * 16 + d1) * 16 + d2) * 16 + d3;
        if code < 0xD800 || 0xE000 <= code then Some((code as char, 6)) else None
      case _ => None
    else None
  }

  function Prepend(c: char, r: Option<(string, string)>): Option<(string, string)> {
    match r
    case None => None
    case Some((body, rest)) => Some(([c] + body, rest))
  }

  /** Reads the body of a JSON string literal up to and including its closing quote:
      the decoded text and what follows the quote. A raw control character, a bad
      escape or a missing closing quote is `None`. */
  function Unescape(s: string): Option<(string, string)>
    decreases |s|
  {
    if s == [] then None
    else if s[0] == '"' then Some(([], s[1..]))
    else if s[0] == '\\' then
      match DecodeEscape(s)
      case None => None
      case Some((c, n)) => Prepend(c, Unescape(s[n..]))
    else if s[0] as int < 0x20 then None
    else Prepend(s[0], Unescape(s[1..]))
  }

  /** Decoding one escaped character gives back that character. */
  lemma UnescapeChar(c: char, t: string)
    ensures Unescape(EscapeChar(c) + t) == Prepend(c, Unescape(t))
  {
    var e := EscapeChar(c);
    if c as int < 0x20 && c != '\t' && c != '\n' && c != '\r' && c as int != 0x08 && c as int != 0x0C {
      var hi, lo := c as int / 16, c as int % 16;
      HexValueOfDigit(hi);
      HexValueOfDigit(lo);
      assert e == ['\\', 'u', '0', '0', HexDigit(hi), HexDigit(lo)];
      assert (e + t)[6..] == t;
      assert DecodeEscape(e + t) == Some((c, 6));
    } else if e[0] == '\\' {
      assert |e| == 2;
      assert (e + t)[2..] == t;
    } else {
      assert e == [c];
      assert (e + t)[1..] == t;
    }
  }

  /** Round trip: decoding the escaped text of `s` followed by a closing quote gives
      back `s` exactly, and leaves whatever followed the quote untouched. */
  lemma {:induction false} UnescapeEscape(s: string, rest: string)
    ensures Unescape(Escape(s) + "\"" + rest) == Some((s, rest))
  {
    if s == [] {
      assert Escape(s) + "\"" + rest == "\"" + rest;
      assert ("\"" + rest)[1..] == rest;
    } else {
      var t := Escape(s[1..]) + "\"" + rest;
      assert Escape(s) + "\"" + rest == EscapeChar(s[0]) + t;
      UnescapeChar(s[0], t);
      UnescapeEscape(s[1..], rest);
      assert [s[0]] + s[1..] == s;
    }
  }

  /** Quoting is injective: different strings are written as different literals. */
  lemma QuoteInjective(a: string, b: string)
    ensures Quote(a) == Quote(b) ==> a == b
  {
    UnescapeEscape(a, []);
    UnescapeEscape(b, []);
    assert Quote(a)[1..] == Escape(a) + "\"" + [];
    assert Quote(b)[1..] == Escape(b) + "\"" + [];
  }
}
