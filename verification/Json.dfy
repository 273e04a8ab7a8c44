/** The JSON emitter of include/sciforge/bench.hpp, and a JSON reader after RFC 8259 that takes, as Python's
    does, the three constants `NaN`, `Infinity` and `-Infinity` as numbers. A text is a sequence of bytes, one
    char a byte. */
module Json {
  import opened Decimal
  import Utf8

  datatype Json =
    | JNull
    | JBool(flag: bool)
    | JNumber(lexeme: string)
    | JString(text: string)
    | JArray(items: seq<Json>)
    | JObject(fields: map<string, Json>)

  datatype Option<T> = None | Some(value: T)

  // --- the reader (sections 2 to 7 of RFC 8259) ---

  datatype Read<T> = Fail | Done(value: T, rest: string)

  predicate IsSpace(c: char) { c == ' ' || c == '\t' || c == '\n' || c == '\r' }

  function SkipSpace(s: string): (r: string)
    ensures |r| <= |s|
    ensures r != "" ==> !IsSpace(r[0])
  {
    if s != "" && IsSpace(s[0]) then SkipSpace(s[1..]) else s
  }

  function HexValue(c: char): int {
    if '0' <= c <= '9' then c as int - '0' as int
    else if 'a' <= c <= 'f' then c as int - 'a' as int + 10
    else if 'A' <= c <= 'F' then c as int - 'A' as int + 10
    else -1
  }

  function ReadHex4(s: string): (r: Read<nat>)
    ensures r.Done? ==> |r.rest| < |s| && r.value < 0x10000
  {
    if |s| < 4 || HexValue(s[0]) < 0 || HexValue(s[1]) < 0 || HexValue(s[2]) < 0 || HexValue(s[3]) < 0 then Fail
    else Done(((HexValue(s[0]) * 16 + HexValue(s[1])) * 16 + HexValue(s[2])) * 16 + HexValue(s[3]), s[4..])
  }

  /** The UTF-8 bytes of a code point. */
  function Utf8Bytes(c: nat): string
    requires c < 0x110000
  {
    var bytes := Utf8.Encode(c);
    seq(|bytes|, i requires 0 <= i < |bytes| => bytes[i] as char)
  }

  /** A `\u` escape after its `u`; a high surrogate needs the low one after it. */
  function ReadUnicode(s: string): (r: Read<string>)
    ensures r.Done? ==> |r.rest| < |s|
  {
    match ReadHex4(s)
    case Fail => Fail
    case Done(h, rest) =>
      if h < 0xD800 || h >= 0xE000 then Done(Utf8Bytes(h), rest)
      else if h >= 0xDC00 || |rest| < 2 || rest[0] != '\\' || rest[1] != 'u' then Fail
      else
        match ReadHex4(rest[2..])
        case Fail => Fail
        case Done(l, rest') =>
          if 0xDC00 <= l < 0xE000 then Done(Utf8Bytes(0x10000 + (h - 0xD800) * 0x400 + (l - 0xDC00)), rest') else Fail
  }

  function ReadEscape(s: string): (r: Read<string>)
    ensures r.Done? ==> |r.rest| < |s|
  {
    if s == "" then Fail
    else if s[0] == '"' || s[0] == '\\' || s[0] == '/' then Done([s[0]], s[1..])
    else if s[0] == 'b' then Done([8 as char], s[1..])
    else if s[0] == 'f' then Done([12 as char], s[1..])
    else if s[0] == 'n' then Done("\n", s[1..])
    else if s[0] == 'r' then Done("\r", s[1..])
    else if s[0] == 't' then Done("\t", s[1..])
    else if s[0] == 'u' then ReadUnicode(s[1..])
    else Fail
  }

  /** The rest of a string, after its opening quote. */
  function ReadString(s: string): (r: Read<string>)
    ensures r.Done? ==> |r.rest| < |s|
    decreases |s|
  {
    if s == "" then Fail
    else if s[0] == '"' then Done("", s[1..])
    else if s[0] == '\\' then
      match ReadEscape(s[1..])
      case Fail => Fail
      case Done(head, r) =>
        match ReadString(r)
        case Fail => Fail
        case Done(tail, r') => Done(head + tail, r')
    else if s[0] as int < 0x20 then Fail
    else
      match ReadString(s[1..])
      case Fail => Fail
      case Done(tail, r) => Done([s[0]] + tail, r)
  }

  predicate IsTokenChar(c: char) {
    IsDigit(c) || 'a' <= c <= 'z' || 'A' <= c <= 'Z' || c == '+' || c == '-' || c == '.'
  }

  function TokenLength(s: string): (n: nat)
    ensures n <= |s|
  {
    if s != "" && IsTokenChar(s[0]) then 1 + TokenLength(s[1..]) else 0
  }

  function DigitRun(s: string): (n: nat)
    ensures n <= |s| && forall i :: 0 <= i < n ==> IsDigit(s[i])
  {
    if s != "" && IsDigit(s[0]) then 1 + DigitRun(s[1..]) else 0
  }

  predicate IsExponent(s: string) {
    s == "" || ((s[0] == 'e' || s[0] == 'E')
                && var digits := if |s| > 1 && (s[1] == '+' || s[1] == '-') then s[2..] else s[1..];
                   digits != "" && AllDigits(digits))
  }

  predicate IsFraction(s: string) {
    if s != "" && s[0] == '.' then var n := DigitRun(s[1..]); n >= 1 && IsExponent(s[1 + n..]) else IsExponent(s)
  }

  /** The number grammar of section 6. */
  predicate IsNumber(s: string) {
    var u := if s != "" && s[0] == '-' then s[1..] else s;
    var n := DigitRun(u);
    n >= 1 && (u[0] == '0' ==> n == 1) && IsFraction(u[n..])
  }

  /** What `json_number` writes: a number, or one of the three constants. */
  predicate IsLexeme(s: string) {
    IsNumber(s) || s == "NaN" || s == "Infinity" || s == "-Infinity"
  }

  function ReadScalar(s: string): (r: Read<Json>)
    ensures r.Done? ==> |r.rest| < |s|
  {
    var n := TokenLength(s);
    var token, rest := s[..n], s[n..];
    if token == "null" then Done(JNull, rest)
    else if token == "true" then Done(JBool(true), rest)
    else if token == "false" then Done(JBool(false), rest)
    else if IsLexeme(token) then Done(JNumber(token), rest)
    else Fail
  }

  function ReadValue(s: string): (r: Read<Json>)
    ensures r.Done? ==> |r.rest| < |s|
    decreases |s|, 1
  {
    var t := SkipSpace(s);
    if t == "" then Fail
    else if t[0] == '{' then
      var u := SkipSpace(t[1..]);
      if u != "" && u[0] == '}' then Done(JObject(map[]), u[1..]) else ReadMembers(t[1..], map[])
    else if t[0] == '[' then
      var u := SkipSpace(t[1..]);
      if u != "" && u[0] == ']' then Done(JArray([]), u[1..])
      else
        match ReadItems(t[1..])
        case Fail => Fail
        case Done(items, r) => Done(JArray(items), r)
    else if t[0] == '"' then
      match ReadString(t[1..])
      case Fail => Fail
      case Done(text, r) => Done(JString(text), r)
    else ReadScalar(t)
  }

  /** The items of a non-empty array, after its opening bracket. */
  function ReadItems(s: string): (r: Read<seq<Json>>)
    ensures r.Done? ==> |r.rest| < |s|
    decreases |s|, 2
  {
    match ReadValue(s)
    case Fail => Fail
    case Done(v, r) =>
      var u := SkipSpace(r);
      if u != "" && u[0] == ',' then
        match ReadItems(u[1..])
        case Fail => Fail
        case Done(vs, r') => Done([v] + vs, r')
      else if u != "" && u[0] == ']' then Done([v], u[1..])
      else Fail
  }

  /** A quoted key and its colon. */
  function ReadKey(s: string): (r: Read<string>)
    ensures r.Done? ==> |r.rest| < |s|
  {
    var u := SkipSpace(s);
    if u == "" || u[0] != '"' then Fail
    else
      match ReadString(u[1..])
      case Fail => Fail
      case Done(key, r) =>
        var w := SkipSpace(r);
        if w != "" && w[0] == ':' then Done(key, w[1..]) else Fail
  }

  /** The members of a non-empty object, added to `seen`: a repeated key keeps its last value. */
  function ReadMembers(s: string, seen: map<string, Json>): (r: Read<Json>)
    ensures r.Done? ==> |r.rest| < |s|
    decreases |s|, 2
  {
    match ReadKey(s)
    case Fail => Fail
    case Done(key, r) =>
      match ReadValue(r)
      case Fail => Fail
      case Done(v, r') =>
        var u := SkipSpace(r');
        if u != "" && u[0] == ',' then ReadMembers(u[1..], seen[key := v])
        else if u != "" && u[0] == '}' then Done(JObject(seen[key := v]), u[1..])
        else Fail
  }

  /** A whole JSON text: one value and nothing but space after it. */
  function ReadText(s: string): Option<Json> {
    match ReadValue(s)
    case Fail => None
    case Done(v, r) => if SkipSpace(r) == "" then Some(v) else None
  }

  // --- the emitter ---

  const HEX := "0123456789abcdef"

  function EscapedChar(c: char): string {
    if c == '"' || c == '\\' then ['\\', c]
    else if c == '\n' then "\\n"
    else if c == '\t' then "\\t"
    else if c == '\r' then "\\r"
    else if c as int < 0x20 then "\\u00" + [HEX[c as int / 16], HEX[c as int % 16]]
    else [c]
  }

  function Escaped(value: string): string {
    if value == "" then "" else EscapedChar(value[0]) + Escaped(value[1..])
  }

  function Quoted(value: string): string {
    "\"" + Escaped(value) + "\""
  }

  function Join(items: seq<string>): string {
    if items == [] then "" else if |items| == 1 then items[0] else items[0] + "," + Join(items[1..])
  }

  lemma {:induction false} EscapedAppend(a: string, c: char)
    ensures Escaped(a + [c]) == Escaped(a) + EscapedChar(c)
    decreases |a|
  {
    if a == "" {
      assert a + [c] == [c] && [c][1..] == "";
      assert Escaped([c]) == EscapedChar(c) + "" == EscapedChar(c);
    } else {
      EscapedAppend(a[1..], c);
      assert (a + [c])[1..] == a[1..] + [c];
    }
  }

  method JsonString(value: string) returns (out: string)
    ensures out == Quoted(value)
  {
    hide EscapedChar;
    out := "\"";
    for i := 0 to |value|
      invariant out == "\"" + Escaped(value[..i])
    {
      EscapedAppend(value[..i], value[i]);
      assert value[..i + 1] == value[..i] + [value[i]];
      out := out + EscapedChar(value[i]);
    }
    assert value[..|value|] == value;
    out := out + "\"";
  }

  lemma {:induction false} JoinAppend(items: seq<string>, last: string)
    ensures Join(items + [last]) == if items == [] then last else Join(items) + "," + last
    decreases |items|
  {
    if |items| >= 1 {
      JoinAppend(items[1..], last);
      assert (items + [last])[1..] == items[1..] + [last];
      if |items| == 1 {
        assert items[1..] == [];
      }
    }
  }

  method JsonJoin(items: seq<string>) returns (out: string)
    ensures out == Join(items)
  {
    out := "";
    for i := 0 to |items|
      invariant out == Join(items[..i])
    {
      JoinAppend(items[..i], items[i]);
      assert items[..i + 1] == items[..i] + [items[i]];
      if i != 0 {
        out := out + ",";
      }
      out := out + items[i];
    }
    assert items[..|items|] == items;
  }

  function ArrayText(items: seq<string>): string {
    "[" + Join(items) + "]"
  }

  /** The number lexemes are `json_number`'s, taken as given. */
  method JsonArray(lexemes: seq<string>) returns (out: string)
    ensures out == ArrayText(lexemes)
  {
    var items: seq<string> := [];
    for i := 0 to |lexemes|
      invariant items == lexemes[..i]
    {
      items := items + [lexemes[i]];
    }
    assert items == lexemes;
    var joined := JsonJoin(items);
    out := "[" + joined + "]";
  }

  type Field = (string, string)

  function MemberTexts(fields: seq<Field>): (r: seq<string>)
    ensures |r| == |fields|
    ensures forall i :: 0 <= i < |fields| ==> r[i] == Quoted(fields[i].0) + ":" + fields[i].1
  {
    seq(|fields|, i requires 0 <= i < |fields| => Quoted(fields[i].0) + ":" + fields[i].1)
  }

  function ObjectText(fields: seq<Field>): string {
    "{" + Join(MemberTexts(fields)) + "}"
  }

  method JsonObject(fields: seq<Field>) returns (out: string)
    ensures out == ObjectText(fields)
  {
    var items: seq<string> := [];
    for i := 0 to |fields|
      invariant items == MemberTexts(fields)[..i]
    {
      var key := JsonString(fields[i].0);
      items := items + [key + ":" + fields[i].1];
    }
    assert items == MemberTexts(fields);
    var joined := JsonJoin(items);
    out := "{" + joined + "}";
  }

  /** `json_integer`: exact, whatever the size. */
  function JsonInteger(value: int): string {
    IntText(value)
  }
}
