/** The reader undoes the emitter, and reads a value the same way wherever it stands in a text. First the readers are
    extended: what follows a complete value does not change how it is read. Then each emitter's text is read back,
    strings byte by byte, numbers by their lexemes, arrays and objects by induction on their items. */
module JsonLaws {
  import opened Decimal
  import opened Json

  /** The bytes that follow an embedded value: a comma or a closing bracket. */
  predicate Delimited(t: string) {
    t != "" && (t[0] == ',' || t[0] == '}' || t[0] == ']')
  }

  // --- a value that reads alone reads the same before a delimiter ---

  lemma {:induction false} SpaceExtends(s: string, t: string)
    requires Delimited(t)
    ensures SkipSpace(s + t) == SkipSpace(s) + t
    decreases |s|
  {
    if s == "" {
      assert !IsSpace(t[0]);
      assert SkipSpace(s) == "" && "" + t == t && s + t == t;
    } else {
      assert (s + t)[1..] == s[1..] + t;
      if IsSpace(s[0]) {
        SpaceExtends(s[1..], t);
      }
    }
  }

  lemma {:induction false} TokenExtends(s: string, t: string)
    requires Delimited(t)
    ensures TokenLength(s + t) == TokenLength(s)
    decreases |s|
  {
    if s == "" {
      assert s + t == t;
    } else {
      assert (s + t)[1..] == s[1..] + t;
      if IsTokenChar(s[0]) {
        TokenExtends(s[1..], t);
      }
    }
  }

  lemma {:induction false} Hex4Extends(s: string, t: string)
    requires ReadHex4(s).Done?
    ensures ReadHex4(s + t) == ReadHex4(s).(rest := ReadHex4(s).rest + t)
  {
    assert (s + t)[4..] == s[4..] + t;
  }

  lemma {:induction false} UnicodeExtends(s: string, t: string)
    requires ReadUnicode(s).Done?
    ensures ReadUnicode(s + t) == ReadUnicode(s).(rest := ReadUnicode(s).rest + t)
  {
    hide ReadHex4, Utf8Bytes;
    Hex4Extends(s, t);
    var h := ReadHex4(s);
    if !(h.value < 0xD800 || h.value >= 0xE000) {
      Hex4Extends(h.rest[2..], t);
      assert (h.rest + t)[2..] == h.rest[2..] + t;
    }
  }

  lemma {:induction false} EscapeExtends(s: string, t: string)
    requires ReadEscape(s).Done?
    ensures ReadEscape(s + t) == ReadEscape(s).(rest := ReadEscape(s).rest + t)
  {
    hide ReadUnicode;
    assert (s + t)[1..] == s[1..] + t;
    if s[0] == 'u' {
      UnicodeExtends(s[1..], t);
    }
  }

  lemma {:induction false} StringExtends(s: string, t: string)
    requires ReadString(s).Done?
    ensures ReadString(s + t) == ReadString(s).(rest := ReadString(s).rest + t)
    decreases |s|
  {
    hide ReadEscape;
    assert (s + t)[1..] == s[1..] + t;
    if s[0] == '\\' {
      EscapeExtends(s[1..], t);
      StringExtends(ReadEscape(s[1..]).rest, t);
    } else if s[0] != '"' {
      StringExtends(s[1..], t);
    }
  }

  lemma {:induction false} KeyExtends(s: string, t: string)
    requires Delimited(t) && ReadKey(s).Done?
    ensures ReadKey(s + t) == ReadKey(s).(rest := ReadKey(s).rest + t)
  {
    hide ReadString, SkipSpace;
    SpaceExtends(s, t);
    var u := SkipSpace(s);
    assert (u + t)[1..] == u[1..] + t;
    StringExtends(u[1..], t);
    var r := ReadString(u[1..]).rest;
    SpaceExtends(r, t);
    assert (SkipSpace(r) + t)[1..] == SkipSpace(r)[1..] + t;
  }

  lemma {:induction false} ScalarExtends(s: string, t: string)
    requires Delimited(t) && ReadScalar(s).Done?
    ensures ReadScalar(s + t) == ReadScalar(s).(rest := ReadScalar(s).rest + t)
  {
    hide TokenLength, IsLexeme;
    TokenExtends(s, t);
    var n := TokenLength(s);
    assert (s + t)[..n] == s[..n] && (s + t)[n..] == s[n..] + t;
  }

  lemma {:induction false} ValueExtends(s: string, t: string)
    requires Delimited(t) && ReadValue(s).Done?
    ensures ReadValue(s + t) == ReadValue(s).(rest := ReadValue(s).rest + t)
    decreases |s|, 1
  {
    hide SkipSpace, ReadString, ReadScalar, ReadItems, ReadMembers, ReadKey;
    SpaceExtends(s, t);
    var v := SkipSpace(s);
    assert (v + t)[1..] == v[1..] + t;
    if v[0] == '{' || v[0] == '[' {
      SpaceExtends(v[1..], t);
      var u := SkipSpace(v[1..]);
      assert u != "" ==> (u + t)[1..] == u[1..] + t;
      if v[0] == '{' {
        if u == "" {
          EmptyMembersFail(v[1..]);
        } else if u[0] != '}' {
          MembersExtend(v[1..], t, map[]);
        }
      } else if u == "" {
        EmptyItemsFail(v[1..]);
      } else if u[0] != ']' {
        ItemsExtend(v[1..], t);
      }
    } else if v[0] == '"' {
      StringExtends(v[1..], t);
    } else {
      ScalarExtends(v, t);
    }
  }

  lemma {:induction false} EmptyMembersFail(s: string)
    ensures SkipSpace(s) == "" ==> ReadMembers(s, map[]) == Fail
  {
  }

  lemma {:induction false} EmptyItemsFail(s: string)
    ensures SkipSpace(s) == "" ==> ReadItems(s) == Fail
  {
  }

  lemma {:induction false} ItemsExtend(s: string, t: string)
    requires Delimited(t) && ReadItems(s).Done?
    ensures ReadItems(s + t) == ReadItems(s).(rest := ReadItems(s).rest + t)
    decreases |s|, 2
  {
    hide SkipSpace, ReadValue;
    ValueExtends(s, t);
    var r := ReadValue(s).rest;
    SpaceExtends(r, t);
    var u := SkipSpace(r);
    assert (u + t)[1..] == u[1..] + t;
    if u[0] == ',' {
      ItemsExtend(u[1..], t);
    }
  }

  lemma {:induction false} MembersExtend(s: string, t: string, seen: map<string, Json>)
    requires Delimited(t) && ReadMembers(s, seen).Done?
    ensures ReadMembers(s + t, seen) == ReadMembers(s, seen).(rest := ReadMembers(s, seen).rest + t)
    decreases |s|, 2
  {
    hide SkipSpace, ReadValue, ReadKey;
    KeyExtends(s, t);
    var k := ReadKey(s);
    ValueExtends(k.rest, t);
    var v := ReadValue(k.rest);
    SpaceExtends(v.rest, t);
    var u := SkipSpace(v.rest);
    assert (u + t)[1..] == u[1..] + t;
    if u[0] == ',' {
      MembersExtend(u[1..], t, seen[k.value := v.value]);
    }
  }

  /** An embedded JSON text reads as its value, and the reader then stands at the delimiter. */
  lemma {:induction false} EmbeddedText(text: string, t: string)
    requires Delimited(t) && ReadText(text).Some?
    ensures ReadValue(text + t).Done? && ReadValue(text + t).value == ReadText(text).value
    ensures SkipSpace(ReadValue(text + t).rest) == t
  {
    hide ReadValue, SkipSpace;
    ValueExtends(text, t);
    SpaceExtends(ReadValue(text).rest, t);
    assert "" + t == t;
  }

  // --- strings, arrays and objects come back ---

  lemma {:induction false} EscapedReads(value: string, t: string)
    ensures ReadString(Escaped(value) + "\"" + t) == Done(value, t)
    decreases |value|
  {
    hide ReadEscape, EscapedChar;
    if value == "" {
      assert Escaped(value) + "\"" + t == "\"" + t && ("\"" + t)[1..] == t;
    } else {
      var after := Escaped(value[1..]) + "\"" + t;
      EscapedReads(value[1..], t);
      assert Escaped(value) + "\"" + t == EscapedChar(value[0]) + after;
      CharReads(value[0], after, value[1..], t);
      assert [value[0]] + value[1..] == value;
    }
  }

  /** One escaped character in front of a string body adds that character. */
  lemma {:induction false} CharReads(c: char, after: string, tail: string, t: string)
    requires ReadString(after) == Done(tail, t)
    ensures ReadString(EscapedChar(c) + after) == Done([c] + tail, t)
  {
    hide ReadUnicode;
    var s := EscapedChar(c) + after;
    if c == '"' || c == '\\' || c == '\n' || c == '\t' || c == '\r' {
      assert s[1..][1..] == after && s[1..][0] == EscapedChar(c)[1];
      assert ReadEscape(s[1..]) == Done([c], after);
    } else if c as int < 0x20 {
      assert s[1..][1..] == "00" + [HEX[c as int / 16], HEX[c as int % 16]] + after;
      ControlReads(c, after);
      assert s[1..][0] == 'u';
      assert ReadEscape(s[1..]) == Done([c], after);
    } else {
      assert s[1..] == after;
    }
  }

  lemma {:induction false} ControlReads(c: char, after: string)
    requires c as int < 0x20
    ensures ReadUnicode("00" + [HEX[c as int / 16], HEX[c as int % 16]] + after) == Done([c], after)
  {
    var hi, lo := c as int / 16, c as int % 16;
    var s := "00" + [HEX[hi], HEX[lo]] + after;
    HexReads(hi);
    HexReads(lo);
    assert s[0] == '0' && s[1] == '0' && s[2] == HEX[hi] && s[3] == HEX[lo] && s[4..] == after;
    assert ReadHex4(s) == Done(c as int, after);
    assert Utf8Bytes(c as int) == [c];
  }

  lemma {:induction false} HexReads(d: nat)
    requires d < 16
    ensures HexValue(HEX[d]) == d
  {
    assert HEX[0] == '0' && HEX[1] == '1' && HEX[2] == '2' && HEX[3] == '3' && HEX[4] == '4' && HEX[5] == '5';
    assert HEX[6] == '6' && HEX[7] == '7' && HEX[8] == '8' && HEX[9] == '9' && HEX[10] == 'a' && HEX[11] == 'b';
    assert HEX[12] == 'c' && HEX[13] == 'd' && HEX[14] == 'e' && HEX[15] == 'f';
  }

  /** `json_string` of any bytes reads back as those bytes. */
  lemma {:induction false} QuotedReads(value: string)
    ensures ReadText(Quoted(value)) == Some(JString(value))
  {
    hide ReadString, Escaped;
    EscapedReads(value, "");
    var s := Quoted(value);
    assert s[1..] == Escaped(value) + "\"" + "";
    assert SkipSpace(s) == s;
  }

  // --- the other ways to write a string ---

  /** One character of a JSON string: itself, a short escape, or the four hex digits of a `\u` escape, two of them for
      a character behind U+FFFF. */
  datatype Piece = Itself(c: char) | Short(letter: nat) | Unit(unit: nat, upper: bool)
      | Pair(high: nat, low: nat, upper: bool)

  predicate CanBePiece(p: Piece) {
    match p
    case Itself(c) => c as int >= 0x20 && c != '"' && c != '\\'
    case Short(letter) => letter < 8
    case Unit(unit, _) => unit < 0x10000 && !(0xD800 <= unit < 0xE000)
    case Pair(high, low, _) => 0xD800 <= high < 0xDC00 && 0xDC00 <= low < 0xE000
  }

  function HexDigit(d: nat, upper: bool): char
    requires d < 16
  {
    if upper then "0123456789ABCDEF"[d] else "0123456789abcdef"[d]
  }

  function Hex4(n: nat, upper: bool): string
    requires n < 0x10000
  {
    var h := n / 16;
    var g := h / 16;
    [HexDigit(g / 16, upper), HexDigit(g % 16, upper), HexDigit(h % 16, upper), HexDigit(n % 16, upper)]
  }

  function PieceText(p: Piece): string
    requires CanBePiece(p)
  {
    match p
    case Itself(c) => [c]
    case Short(letter) => ['\\', "\"\\/bfnrt"[letter]]
    case Unit(unit, upper) => "\\u" + Hex4(unit, upper)
    case Pair(high, low, upper) => "\\u" + Hex4(high, upper) + "\\u" + Hex4(low, upper)
  }

  /** The bytes a piece stands for: of an escape, the UTF-8 of its code point. */
  function PieceBytes(p: Piece): string
    requires CanBePiece(p)
  {
    match p
    case Itself(c) => [c]
    case Short(letter) => [[34, 92, 47, 8, 12, 10, 13, 9][letter] as char]
    case Unit(unit, _) => Utf8Bytes(unit)
    case Pair(high, low, _) => Utf8Bytes(0x10000 + (high - 0xD800) * 0x400 + (low - 0xDC00))
  }

  ghost predicate CanBePieces(ps: seq<Piece>) {
    forall i :: 0 <= i < |ps| ==> CanBePiece(ps[i])
  }

  function PiecesText(ps: seq<Piece>): string
    requires CanBePieces(ps)
  {
    if ps == [] then "" else PieceText(ps[0]) + PiecesText(ps[1..])
  }

  function PiecesBytes(ps: seq<Piece>): string
    requires CanBePieces(ps)
  {
    if ps == [] then "" else PieceBytes(ps[0]) + PiecesBytes(ps[1..])
  }

  lemma {:induction false} HexDigitReads(d: nat, upper: bool)
    requires d < 16
    ensures HexValue(HexDigit(d, upper)) == d
  {
  }

  lemma {:induction false} Hex4Reads(n: nat, upper: bool, after: string)
    requires n < 0x10000
    ensures ReadHex4(Hex4(n, upper) + after) == Done(n, after)
  {
    hide HexValue, HexDigit;
    var h := n / 16;
    var g := h / 16;
    HexDigitReads(g / 16, upper);
    HexDigitReads(g % 16, upper);
    HexDigitReads(h % 16, upper);
    HexDigitReads(n % 16, upper);
    var s := Hex4(n, upper) + after;
    assert s[0] == HexDigit(g / 16, upper) && s[1] == HexDigit(g % 16, upper) && s[2] == HexDigit(h % 16, upper);
    assert s[3] == HexDigit(n % 16, upper) && s[4..] == after;
  }

  lemma {:induction false} UnitReads(unit: nat, upper: bool, after: string)
    requires CanBePiece(Unit(unit, upper))
    ensures ReadUnicode(Hex4(unit, upper) + after) == Done(Utf8Bytes(unit), after)
  {
    hide Hex4, ReadHex4, Utf8Bytes;
    Hex4Reads(unit, upper, after);
  }

  lemma {:induction false} PairReads(high: nat, low: nat, upper: bool, after: string)
    requires CanBePiece(Pair(high, low, upper))
    ensures ReadUnicode(Hex4(high, upper) + ("\\u" + (Hex4(low, upper) + after)))
            == Done(Utf8Bytes(0x10000 + (high - 0xD800) * 0x400 + (low - 0xDC00)), after)
  {
    hide Hex4, ReadHex4, Utf8Bytes;
    var second := "\\u" + (Hex4(low, upper) + after);
    Hex4Reads(high, upper, second);
    Hex4Reads(low, upper, after);
    assert second[0] == '\\' && second[1] == 'u' && second[2..] == Hex4(low, upper) + after;
  }

  lemma {:induction false} ShortReads(letter: nat, after: string)
    requires letter < 8
    ensures ReadEscape(["\"\\/bfnrt"[letter]] + after) == Done(PieceBytes(Short(letter)), after)
  {
    hide ReadUnicode;
    assert (["\"\\/bfnrt"[letter]] + after)[1..] == after;
  }

  lemma {:induction false} PieceReads(p: Piece, after: string)
    requires CanBePiece(p) && !p.Itself?
    ensures PieceText(p) != "" && PieceText(p)[0] == '\\'
    ensures ReadEscape((PieceText(p) + after)[1..]) == Done(PieceBytes(p), after)
  {
    hide Hex4, ReadUnicode, Utf8Bytes;
    var s := (PieceText(p) + after)[1..];
    match p {
      case Itself(_) =>
      case Short(letter) =>
        ShortReads(letter, after);
        assert s == ["\"\\/bfnrt"[letter]] + after;
      case Unit(unit, upper) =>
        UnitReads(unit, upper, after);
        assert s[0] == 'u' && s[1..] == Hex4(unit, upper) + after;
      case Pair(high, low, upper) =>
        PairReads(high, low, upper, after);
        assert s[0] == 'u' && s[1..] == Hex4(high, upper) + ("\\u" + (Hex4(low, upper) + after));
    }
  }

  /** A string is read as the bytes its pieces stand for, however each is written. */
  lemma {:induction false} PiecesRead(ps: seq<Piece>, t: string)
    requires CanBePieces(ps)
    ensures ReadString(PiecesText(ps) + "\"" + t) == Done(PiecesBytes(ps), t)
    decreases |ps|
  {
    hide CanBePiece, PieceText, PieceBytes, ReadEscape;
    if ps == [] {
      assert PiecesText(ps) + "\"" + t == "\"" + t && ("\"" + t)[1..] == t;
    } else {
      var p, after := ps[0], PiecesText(ps[1..]) + "\"" + t;
      PiecesRead(ps[1..], t);
      var s := PiecesText(ps) + "\"" + t;
      assert s == PieceText(p) + after;
      if p.Itself? {
        ItselfRead(p);
        assert s[1..] == after;
      } else {
        PieceReads(p, after);
      }
    }
  }

  lemma {:induction false} ItselfRead(p: Piece)
    requires p.Itself? && CanBePiece(p)
    ensures PieceText(p) == [p.c] == PieceBytes(p) && p.c as int >= 0x20 && p.c != '"' && p.c != '\\'
  {
  }

  /** The three words, alone and under the punctuation of arrays and objects. */
  lemma {:induction false} WordsRead(word: string, value: Json, key: string)
    requires (word, value) in [("true", JBool(true)), ("false", JBool(false)), ("null", JNull)]
    ensures ReadText(word) == Some(value)
    ensures ReadText("[" + word + "," + word + "]") == Some(JArray([value, value]))
    ensures ReadText("{" + Quoted(key) + ":" + word + "}") == Some(JObject(map[key := value]))
  {
    hide ReadText, Quoted;
    WordRead(word, value);
    ArrayReads([word, word], [value, value]);
    JoinTwo(word, word);
    var fields := [(key, word)];
    ObjectReads(fields, [value]);
    assert MemberTexts(fields) == [Quoted(key) + ":" + word];
    assert ObjectText(fields) == "{" + Quoted(key) + ":" + word + "}";
    assert Keys(fields) == [key];
    assert Filled(map[], Keys(fields), [value]) == map[key := value];
  }

  lemma {:induction false} JoinTwo(a: string, b: string)
    ensures ArrayText([a, b]) == "[" + a + "," + b + "]"
  {
    assert [a, b][1..] == [b];
    assert Join([a, b]) == a + "," + b;
  }

  lemma {:induction false} WordRead(word: string, value: Json)
    requires (word, value) in [("true", JBool(true)), ("false", JBool(false)), ("null", JNull)]
    ensures ReadText(word) == Some(value)
  {
    hide IsLexeme, TokenLength;
    assert forall i :: 0 <= i < |word| ==> IsTokenChar(word[i]);
    TokenWhole(word);
    assert word[..|word|] == word && word[|word|..] == "";
    assert ReadScalar(word) == Done(value, "");
    assert SkipSpace(word) == word;
  }

  lemma {:induction false} LexemeChars(s: string)
    requires IsLexeme(s)
    ensures s != "" && !IsSpace(s[0]) && TokenLength(s) == |s|
    ensures s[0] != '{' && s[0] != '[' && s[0] != '"' && s != "null" && s != "true" && s != "false"
  {
    if IsNumber(s) {
      NumberChars(s);
      TokenWhole(s);
      var u := if s[0] == '-' then s[1..] else s;
      assert IsDigit(u[0]);
    } else {
      TokenWhole(s);
    }
  }

  lemma {:induction false} TokenWhole(s: string)
    requires forall i :: 0 <= i < |s| ==> IsTokenChar(s[i])
    ensures TokenLength(s) == |s|
    decreases |s|
  {
    if s != "" {
      TokenWhole(s[1..]);
    }
  }

  lemma {:induction false} NumberChars(s: string)
    requires IsNumber(s)
    ensures s != "" && forall i :: 0 <= i < |s| ==> IsTokenChar(s[i])
  {
    hide IsExponent, DigitRun;
    var sign := if s != "" && s[0] == '-' then 1 else 0;
    var u := s[sign..];
    assert u == if s != "" && s[0] == '-' then s[1..] else s;
    var n := DigitRun(u);
    var f := u[n..];
    assert forall i :: 0 <= i < |f| ==> IsTokenChar(f[i]) by { FractionChars(f); }
    forall i | 0 <= i < |s| ensures IsTokenChar(s[i]) {
      if i >= sign + n {
        assert s[i] == f[i - sign - n];
      } else if i >= sign {
        assert s[i] == u[..n][i - sign];
      }
    }
  }

  lemma {:induction false} FractionChars(f: string)
    requires IsFraction(f)
    ensures forall i :: 0 <= i < |f| ==> IsTokenChar(f[i])
  {
    hide IsExponent, DigitRun;
    if f != "" && f[0] == '.' {
      var n := DigitRun(f[1..]);
      var e := f[1 + n..];
      ExponentChars(e);
      forall i | 0 <= i < |f| ensures IsTokenChar(f[i]) {
        if i >= 1 + n {
          assert f[i] == e[i - 1 - n];
        } else if i >= 1 {
          assert f[i] == f[1..][..n][i - 1];
        }
      }
    } else {
      ExponentChars(f);
    }
  }

  lemma {:induction false} ExponentChars(e: string)
    requires IsExponent(e)
    ensures forall i :: 0 <= i < |e| ==> IsTokenChar(e[i])
  {
    if e != "" {
      var skip := if |e| > 1 && (e[1] == '+' || e[1] == '-') then 2 else 1;
      assert forall i :: skip <= i < |e| ==> e[i] == e[skip..][i - skip];
    }
  }

  lemma {:induction false} LexemeReads(s: string)
    requires IsLexeme(s)
    ensures ReadText(s) == Some(JNumber(s))
  {
    hide IsLexeme, TokenLength;
    LexemeChars(s);
    assert SkipSpace(s) == s;
    assert s[..|s|] == s && s[|s|..] == "";
    assert ReadScalar(s) == Done(JNumber(s), "");
  }

  /** `json_integer` writes a JSON number that reads back as that integer. */
  lemma {:induction false} IntegerReads(value: int)
    ensures ReadText(JsonInteger(value)) == Some(JNumber(IntText(value)))
    ensures value >= 0 ==> AllDigits(IntText(value)) && Value(IntText(value)) == value
    ensures value < 0 ==>
            IntText(value)[0] == '-' && AllDigits(IntText(value)[1..]) && Value(IntText(value)[1..]) == -value
  {
    var d := Digits(if value < 0 then -value else value);
    ValueOfDigits(if value < 0 then -value else value);
    assert value < 0 ==> IntText(value)[1..] == d;
    DigitsRun(d);
    assert d[|d|..] == "";
    assert IsNumber(IntText(value));
    LexemeReads(IntText(value));
  }

  lemma {:induction false} DigitsRun(d: string)
    requires AllDigits(d)
    ensures DigitRun(d) == |d|
    decreases |d|
  {
    if d != "" {
      DigitsRun(d[1..]);
    }
  }

  // --- joined items and members ---

  ghost predicate AllRead(texts: seq<string>, values: seq<Json>) {
    |texts| == |values| && forall i :: 0 <= i < |texts| ==> ReadText(texts[i]) == Some(values[i])
  }

  lemma {:induction false} ItemsRead(texts: seq<string>, values: seq<Json>, t: string)
    requires texts != [] && AllRead(texts, values)
    ensures ReadItems(Join(texts) + "]" + t) == Done(values, t)
    decreases |texts|
  {
    hide ReadValue, SkipSpace;
    var s := Join(texts) + "]" + t;
    assert ReadText(texts[0]) == Some(values[0]);
    if |texts| == 1 {
      var after := "]" + t;
      assert s == texts[0] + after && after[1..] == t;
      EmbeddedText(texts[0], after);
      assert values == [values[0]];
    } else {
      var rest := Join(texts[1..]) + "]" + t;
      var after := "," + rest;
      ItemsRead(texts[1..], values[1..], t);
      assert s == texts[0] + after && after[1..] == rest;
      EmbeddedText(texts[0], after);
      assert values == [values[0]] + values[1..];
    }
  }

  lemma {:induction false} ArrayReads(texts: seq<string>, values: seq<Json>)
    requires AllRead(texts, values)
    ensures ReadText(ArrayText(texts)) == Some(JArray(values))
  {
    hide ReadItems, Join;
    var s := ArrayText(texts);
    assert SkipSpace(s) == s && s[1..] == Join(texts) + "]" + "";
    if texts == [] {
      assert Join(texts) == "" by { EmptyJoin(); }
      assert s[1..] == "]" && SkipSpace("]") == "]" && "]"[1..] == "";
    } else {
      ItemsRead(texts, values, "");
      ItemsNotClosed(texts, values, "");
    }
  }

  lemma {:induction false} EmptyJoin()
    ensures Join([]) == ""
  {
  }

  /** The first item of an array does not start with the closing bracket, so the array is not read as empty. */
  lemma {:induction false} ItemsNotClosed(texts: seq<string>, values: seq<Json>, t: string)
    requires texts != [] && AllRead(texts, values)
    ensures var u := SkipSpace(Join(texts) + "]" + t); u != "" && u[0] != ']'
  {
    ItemsRead(texts, values, t);
    var s := Join(texts) + "]" + t;
    assert ReadItems(s).Done?;
    assert ReadValue(s).Done?;
    ValueNotClosed(s);
  }

  lemma {:induction false} ValueNotClosed(s: string)
    requires ReadValue(s).Done?
    ensures SkipSpace(s) != "" && SkipSpace(s)[0] != ']'
  {
    assert !IsLexeme("");
  }

  /** A dictionary filled pair by pair: a later pair replaces an earlier one of the same key. */
  function Filled(seen: map<string, Json>, keys: seq<string>, values: seq<Json>): map<string, Json>
    requires |keys| == |values|
    decreases |keys|
  {
    if keys == [] then seen else Filled(seen[keys[0] := values[0]], keys[1..], values[1..])
  }

  function Keys(fields: seq<Field>): (r: seq<string>)
    ensures |r| == |fields| && forall i :: 0 <= i < |r| ==> r[i] == fields[i].0
  {
    seq(|fields|, i requires 0 <= i < |fields| => fields[i].0)
  }

  ghost predicate FieldsRead(fields: seq<Field>, values: seq<Json>) {
    |fields| == |values| && forall i :: 0 <= i < |fields| ==> ReadText(fields[i].1) == Some(values[i])
  }

  lemma {:induction false} KeyReads(key: string, after: string)
    ensures ReadKey(Quoted(key) + ":" + after) == Done(key, after)
  {
    hide ReadString, Escaped;
    var s := Quoted(key) + ":" + after;
    EscapedReads(key, ":" + after);
    assert SkipSpace(s) == s && s[1..] == Escaped(key) + "\"" + (":" + after);
    assert SkipSpace(":" + after) == ":" + after && (":" + after)[1..] == after;
  }

  lemma {:induction false} MembersRead(fields: seq<Field>, values: seq<Json>, seen: map<string, Json>, t: string)
    requires fields != [] && FieldsRead(fields, values)
    ensures ReadMembers(Join(MemberTexts(fields)) + "}" + t, seen)
            == Done(JObject(Filled(seen, Keys(fields), values)), t)
    decreases |fields|
  {
    hide ReadKey, ReadValue, SkipSpace, Quoted;
    var texts := MemberTexts(fields);
    var s := Join(texts) + "}" + t;
    var key, text := fields[0].0, fields[0].1;
    assert ReadText(text) == Some(values[0]);
    assert Keys(fields)[1..] == Keys(fields[1..]);
    if |fields| == 1 {
      var after := "}" + t;
      assert s == Quoted(key) + ":" + (text + after) && after[1..] == t;
      KeyReads(key, text + after);
      EmbeddedText(text, after);
      assert Filled(seen, Keys(fields), values) == seen[key := values[0]];
    } else {
      assert texts[1..] == MemberTexts(fields[1..]);
      var rest := Join(texts[1..]) + "}" + t;
      var after := "," + rest;
      assert s == Quoted(key) + ":" + (text + after) && after[1..] == rest;
      KeyReads(key, text + after);
      EmbeddedText(text, after);
      MembersRead(fields[1..], values[1..], seen[key := values[0]], t);
    }
  }

  /** An emitted object reads back as the dictionary of its pairs. */
  lemma {:induction false} ObjectReads(fields: seq<Field>, values: seq<Json>)
    requires FieldsRead(fields, values)
    ensures ReadText(ObjectText(fields)) == Some(JObject(Filled(map[], Keys(fields), values)))
  {
    hide ReadMembers, Join;
    var s := ObjectText(fields);
    assert SkipSpace(s) == s && s[1..] == Join(MemberTexts(fields)) + "}" + "";
    if fields == [] {
      EmptyJoin();
      assert MemberTexts(fields) == [];
      assert s[1..] == "}" && SkipSpace("}") == "}" && "}"[1..] == "";
    } else {
      MembersRead(fields, values, map[], "");
      MembersNotClosed(s[1..]);
    }
  }

  lemma {:induction false} MembersNotClosed(s: string)
    requires ReadMembers(s, map[]).Done?
    ensures SkipSpace(s) != "" && SkipSpace(s)[0] != '}'
  {
  }
}
