/** The field readers of a Fowler `.dat` line (python/sciforge/corpus/runner.py): C escapes and outcomes. Each loop is
    proved equal to a recursive reading of the field, and each reading is inverted: `Spelling` lists the ways to write
    one character, `SpansText` prints a match array, and both read back to what was written. */
module DatFields {
  import opened Decimal
  import opened PyInt

  // --- `_dat_unquote` ---

  /** The code point of a one-letter escape, -1 for any other letter. */
  function ShortEscape(c: char): int {
    if c == 'a' then 7 else if c == 'b' then 8 else if c == 'f' then 12 else if c == 'n' then 10
    else if c == 'r' then 13 else if c == 't' then 9 else if c == 'v' then 11
    else if c == '\\' then '\\' as int else if c == '"' then '"' as int else -1
  }

  /** A Python slice, which stops at the end of the text. */
  function Slice(s: string, i: nat, j: nat): string
    requires i <= j
  {
    if i >= |s| then "" else if j >= |s| then s[i..] else s[i..j]
  }

  /** How many digits follow the letter of a hex escape; 0 for any other letter. */
  function Width(code: string): nat {
    if code == "x" then 2 else if code == "u" then 4 else if code == "U" then 8 else 0
  }

  /** What reading a text, or its head, comes to: a value, a refusal, or the OverflowError of `chr` on a code that is no
      C int. */
  datatype Reading<T> = Read(value: T) | Refused | Overflow

  /** `chr(int(digits, base))`, as a code point. */
  function CodeOf(digits: string, base: nat): Reading<nat> {
    match IntOf(digits, base)
    case None => Refused
    case Some(v) => if v >= 0x80000000 then Overflow else if v < 0 || v >= 0x110000 then Refused else Read(v)
  }

  /** One turn of the loop at the head of `s`: the code point and the characters it takes. */
  function Head(s: string): (r: Reading<(nat, nat)>)
    requires s != ""
    ensures r.Read? ==> 1 <= r.value.1 <= |s|
  {
    var code := Slice(s, 1, 2);
    if s[0] != '\\' then Read((s[0] as nat, 1))
    else if code != "" && ShortEscape(code[0]) >= 0 then Read((ShortEscape(code[0]), 2))
    else
      var width := Width(code);
      var digits := if width > 0 then Slice(s, 2, 2 + width) else Slice(s, 1, 4);
      match CodeOf(digits, if width > 0 then 16 else 8)
      case Refused => Refused
      case Overflow => Overflow
      case Read(v) =>
        if |digits| != (if width > 0 then width else 3) then Refused
        else Read((v, if width > 0 then 2 + width else 4))
  }

  function Prepend(out: seq<nat>, r: Reading<seq<nat>>): Reading<seq<nat>> {
    match r
    case Read(more) => Read(out + more)
    case _ => r
  }

  function Unquoted(s: string): Reading<seq<nat>>
    decreases |s|
  {
    if s == "" then Read([])
    else
      match Head(s)
      case Refused => Refused
      case Overflow => Overflow
      case Read((v, n)) => Prepend([v], Unquoted(s[n..]))
  }

  /** One accepted turn of the loop at index `i` of the field. */
  lemma {:induction false} Turn(field: string, i: nat, out: seq<nat>, v: nat, n: nat)
    requires i < |field| && Head(field[i..]) == Read((v, n))
    requires Unquoted(field) == Prepend(out, Unquoted(field[i..]))
    ensures 1 <= n && i + n <= |field|
    ensures Unquoted(field) == Prepend(out + [v], Unquoted(field[i + n..]))
  {
    hide Head;
    var r := Unquoted(field[i..][n..]);
    assert field[i..][n..] == field[i + n..];
    if r.Read? {
      assert out + ([v] + r.value) == out + [v] + r.value;
    }
  }

  lemma {:induction false} LastTurn(field: string, i: nat, out: seq<nat>)
    requires i < |field| && !Head(field[i..]).Read?
    requires Unquoted(field) == Prepend(out, Unquoted(field[i..]))
    ensures Unquoted(field) == if Head(field[i..]).Refused? then Refused else Overflow
  {
    hide Head;
  }

  /** A slice of the field is the slice of what is left of it. */
  lemma {:induction false} SliceFrom(field: string, i: nat, j: nat, k: nat)
    requires i <= |field| && j <= k
    ensures Slice(field, i + j, i + k) == Slice(field[i..], j, k)
  {
  }

  method Unquote(field: string) returns (r: Reading<seq<nat>>)
    ensures r == Unquoted(field)
  {
    hide CodeOf, ShortEscape, Prepend, Unquoted, Slice, Width;
    var out: seq<nat>, i := [], 0;
    assert field[0..] == field;
    EmptyPrepend(Unquoted(field));
    while i < |field|
      invariant 0 <= i <= |field|
      invariant Unquoted(field) == Prepend(out, Unquoted(field[i..]))
      decreases |field| - i
    {
      ghost var s := field[i..];
      var c := field[i];
      if c != '\\' {
        Turn(field, i, out, c as nat, 1);
        out := out + [c as nat];
        i := i + 1;
        continue;
      }
      var code := Slice(field, i + 1, i + 2);
      SliceFrom(field, i, 1, 2);
      if code != "" && ShortEscape(code[0]) >= 0 {
        Turn(field, i, out, ShortEscape(code[0]), 2);
        out := out + [ShortEscape(code[0])];
        i := i + 2;
        continue;
      }
      var width := Width(code);
      var digits, base, skip;
      if width > 0 {
        digits, base, skip := Slice(field, i + 2, i + 2 + width), 16, 2 + width;
        SliceFrom(field, i, 2, 2 + width);
      } else {
        digits, base, skip := Slice(field, i + 1, i + 4), 8, 4;
        SliceFrom(field, i, 1, 4);
      }
      var v := CodeOf(digits, base);
      if v.Overflow? {
        LastTurn(field, i, out);
        return Overflow;
      }
      if v.Refused? || |digits| != skip - (if width > 0 then 2 else 1) {
        LastTurn(field, i, out);
        return Refused;
      }
      Turn(field, i, out, v.value, skip);
      out := out + [v.value];
      i := i + skip;
    }
    NothingLeft(field[i..], out);
    return Read(out);
  }

  lemma {:induction false} NothingLeft(s: string, out: seq<nat>)
    requires s == ""
    ensures Prepend(out, Unquoted(s)) == Read(out)
  {
    assert out + [] == out;
  }

  lemma {:induction false} EmptyPrepend(r: Reading<seq<nat>>)
    ensures Prepend([], r) == r
  {
    if r.Read? {
      assert [] + r.value == r.value;
    }
  }

  // --- the printers it undoes ---

  /** The ways to spell one code point in a field. */
  datatype Spelling =
    | Raw(c: char)
    | Short(letter: char)
    | Hex(code: char, digits: string)
    | Octal(digits: string)

  ghost predicate WellSpelt(p: Spelling) {
    match p
    case Raw(c) => c != '\\'
    case Short(l) => ShortEscape(l) >= 0
    case Hex(code, digits) => Width([code]) > 0 && |digits| == Width([code]) && CodeOf(digits, 16).Read?
    case Octal(digits) => |digits| == 3 && CodeOf(digits, 8).Read?
  }

  /** Plain digits of the right number are a spelling of their value: always in octal, and in hex up to the last code
      point. */
  lemma {:induction false} PlainSpelling(p: Spelling)
    requires (p.Hex? && Width([p.code]) > 0 && |p.digits| == Width([p.code]) && IsNumeral(p.digits, 16))
             || (p.Octal? && |p.digits| == 3 && IsNumeral(p.digits, 8))
    ensures p.Hex? ==> (WellSpelt(p) <==> ValueOf(p.digits, 16) < 0x110000)
    ensures p.Octal? ==> WellSpelt(p)
    ensures WellSpelt(p) ==> CodePoint(p) == ValueOf(p.digits, if p.Hex? then 16 else 8)
  {
    hide IntOf, ValueOf;
    NumeralReads(p.digits, if p.Hex? then 16 else 8);
    if p.Octal? {
      OctalBelow(p.digits);
    }
  }

  /** The nine one-letter escapes, and no others. */
  lemma {:induction false} ShortSpellings(k: nat, c: char)
    requires k < 9
    ensures var p := Short("abfnrtv\\\""[k]);
            WellSpelt(p) && CodePoint(p) == [7, 8, 12, 10, 13, 9, 11, 92, 34][k]
    ensures WellSpelt(Short(c)) <==> c in "abfnrtv\\\""
  {
  }

  /** Two plain hex digits after `x`, four after `u` and eight after `U` spell the character of that number. */
  lemma {:induction false} NumberSpellings(code: char, digits: string)
    requires IsNumeral(digits, 16) && ValueOf(digits, 16) < 0x110000
    requires (code == 'x' && |digits| == 2) || (code == 'u' && |digits| == 4) || (code == 'U' && |digits| == 8)
    ensures WellSpelt(Hex(code, digits)) && CodePoint(Hex(code, digits)) == ValueOf(digits, 16)
  {
    hide IntOf, ValueOf;
    NumeralReads(digits, 16);
  }

  function SpellingText(p: Spelling): (s: string)
    ensures s != ""
  {
    match p
    case Raw(c) => [c]
    case Short(l) => ['\\', l]
    case Hex(code, digits) => ['\\', code] + digits
    case Octal(digits) => ['\\'] + digits
  }

  ghost function CodePoint(p: Spelling): nat
    requires WellSpelt(p)
  {
    match p
    case Raw(c) => c as nat
    case Short(l) => ShortEscape(l)
    case Hex(_, digits) => CodeOf(digits, 16).value
    case Octal(digits) => CodeOf(digits, 8).value
  }

  function FieldText(ps: seq<Spelling>): string {
    if ps == [] then "" else SpellingText(ps[0]) + FieldText(ps[1..])
  }

  ghost function CodePoints(ps: seq<Spelling>): (r: seq<nat>)
    requires forall i :: 0 <= i < |ps| ==> WellSpelt(ps[i])
    ensures |r| == |ps| && forall i :: 0 <= i < |ps| ==> r[i] == CodePoint(ps[i])
  {
    seq(|ps|, i requires 0 <= i < |ps| => CodePoint(ps[i]))
  }

  /** The first character of an octal escape is no other escape's letter. */
  lemma {:induction false} OctalBegins(digits: string)
    requires |digits| == 3 && CodeOf(digits, 8).Read?
    ensures ShortEscape(digits[0]) < 0 && Width([digits[0]]) == 0
  {
    hide IntOf;
    IntBegins(digits, 8);
  }

  lemma {:induction false} SpellingReads(p: Spelling, t: string)
    requires WellSpelt(p)
    ensures Head(SpellingText(p) + t) == Read((CodePoint(p), |SpellingText(p)|))
  {
    hide CodeOf;
    var s := SpellingText(p) + t;
    match p {
      case Raw(_) =>
      case Short(l) =>
        assert Slice(s, 1, 2) == [l];
      case Hex(code, digits) =>
        assert Slice(s, 1, 2) == [code] && Slice(s, 2, 2 + Width([code])) == digits;
      case Octal(digits) =>
        OctalBegins(digits);
        assert Slice(s, 1, 2) == [digits[0]] && Slice(s, 1, 4) == digits;
    }
  }

  /** Any mix of spellings of a character sequence unquotes to that sequence. */
  lemma {:induction false} UnquoteUndoes(ps: seq<Spelling>)
    requires forall i :: 0 <= i < |ps| ==> WellSpelt(ps[i])
    ensures Unquoted(FieldText(ps)) == Read(CodePoints(ps))
    decreases |ps|
  {
    hide WellSpelt, CodePoint, SpellingText, Head;
    if ps != [] {
      var s := FieldText(ps);
      UnquoteUndoes(ps[1..]);
      SpellingReads(ps[0], FieldText(ps[1..]));
      assert s[|SpellingText(ps[0])|..] == FieldText(ps[1..]);
      assert CodePoints(ps) == [CodePoint(ps[0])] + CodePoints(ps[1..]);
    }
  }

  /** After any accepted text, an eight-digit escape of 2147483648 or more ends the reading with an OverflowError. */
  lemma {:induction false} LargeEscapeOverflows(ps: seq<Spelling>, digits: string, rest: string)
    requires forall i :: 0 <= i < |ps| ==> WellSpelt(ps[i])
    requires |digits| == 8 && IsNumeral(digits, 16) && ValueOf(digits, 16) >= 0x80000000
    ensures Unquoted(FieldText(ps) + ("\\U" + digits + rest)) == Overflow
    decreases |ps|
  {
    hide WellSpelt, CodePoint, SpellingText, IntOf, ValueOf;
    var tail := "\\U" + digits + rest;
    if ps == [] {
      NumeralReads(digits, 16);
      assert FieldText([]) + tail == tail;
      assert Slice(tail, 1, 2) == "U" && Slice(tail, 2, 10) == digits;
    } else {
      var s := FieldText(ps) + tail;
      SpellingReads(ps[0], FieldText(ps[1..]) + tail);
      assert s == SpellingText(ps[0]) + (FieldText(ps[1..]) + tail);
      assert s[|SpellingText(ps[0])|..] == FieldText(ps[1..]) + tail;
      LargeEscapeOverflows(ps[1..], digits, rest);
    }
  }

  /** And nothing else is accepted: an unquoted field is some mix of well-formed spellings. */
  lemma {:induction false} UnquotedIsSpelt(s: string) returns (ps: seq<Spelling>)
    requires Unquoted(s).Read?
    ensures forall i :: 0 <= i < |ps| ==> WellSpelt(ps[i])
    ensures FieldText(ps) == s && CodePoints(ps) == Unquoted(s).value
    decreases |s|
  {
    hide WellSpelt, CodePoint, SpellingText, Head;
    ps := [];
    if s != "" {
      var p := HeadIsSpelt(s);
      var n := Head(s).value.1;
      var tail := UnquotedIsSpelt(s[n..]);
      ps := [p] + tail;
      SpeltAppend(p, tail);
      assert s == s[..n] + s[n..];
    }
  }

  lemma {:induction false} SpeltAppend(p: Spelling, tail: seq<Spelling>)
    requires WellSpelt(p) && forall i :: 0 <= i < |tail| ==> WellSpelt(tail[i])
    ensures forall i :: 0 <= i < |[p] + tail| ==> WellSpelt(([p] + tail)[i])
    ensures FieldText([p] + tail) == SpellingText(p) + FieldText(tail)
    ensures CodePoints([p] + tail) == [CodePoint(p)] + CodePoints(tail)
  {
    hide WellSpelt, CodePoint, SpellingText;
    assert ([p] + tail)[1..] == tail;
  }

  lemma {:induction false} HeadIsSpelt(s: string) returns (p: Spelling)
    requires s != "" && Head(s).Read?
    ensures WellSpelt(p) && SpellingText(p) == s[..Head(s).value.1] && CodePoint(p) == Head(s).value.0
  {
    hide CodeOf;
    var code := Slice(s, 1, 2);
    if s[0] != '\\' {
      p := Raw(s[0]);
    } else if code != "" && ShortEscape(code[0]) >= 0 {
      p := Short(code[0]);
    } else if Width(code) > 0 {
      p := Hex(code[0], Slice(s, 2, 2 + Width(code)));
      assert code == [code[0]];
    } else {
      p := Octal(Slice(s, 1, 4));
    }
  }

  // --- `_parse_dat_result` ---

  type Span = (int, int)

  /** Field 4 of a line; `Crash` is the IndexError of `field[0]` on an empty field. */
  datatype Outcome = Crash | NoMatch | Rejected | Unreadable | Spans(span: Span, groups: seq<Span>)

  /** `s.find(c)`. */
  function Find(s: string, c: char): (i: int)
    ensures -1 <= i < |s|
    ensures i >= 0 ==> s[i] == c && forall j :: 0 <= j < i ==> s[j] != c
    ensures i < 0 ==> forall j :: 0 <= j < |s| ==> s[j] != c
  {
    if s == "" then -1
    else if s[0] == c then 0
    else
      var i := Find(s[1..], c);
      if i < 0 then -1 else 1 + i
  }

  /** `-1` for `?`, else what `int` reads. */
  function TokenValue(token: string): Option<int> {
    if token == "?" then Some(-1) else IntOf(token, 10)
  }

  lemma {:induction false} DigitsAreNumeral(s: string)
    requires s != "" && AllDigits(s)
    ensures PyInt.IsNumeral(s, 10)
  {
  }

  lemma {:induction false} DigitsValue(s: string)
    requires AllDigits(s)
    ensures ValueOf(s, 10) == Value(s)
    decreases |s|
  {
    if s != "" {
      DigitsValue(s[..|s| - 1]);
    }
  }

  function PrependInts(out: seq<int>, r: Option<seq<int>>): Option<seq<int>> {
    match r
    case None => None
    case Some(more) => Some(out + more)
  }

  /** One turn of the loop: the value read and what is left. */
  function Token(s: string, opening: bool): (r: Option<(int, string)>)
    requires s != ""
    ensures r.Some? ==> |r.value.1| < |s|
  {
    if opening && s[0] != '(' then None
    else
      var t := if opening then s[1..] else s;
      var stop := Find(t, if opening then ',' else ')');
      if stop <= 0 then None
      else
        match TokenValue(t[..stop])
        case None => None
        case Some(v) => Some((v, t[stop + 1..]))
  }

  /** The values of the match array; `opening` when the next one opens a span. */
  function ArrayValues(s: string, opening: bool): Option<seq<int>>
    decreases |s|
  {
    if s == "" then if opening then Some([]) else None
    else
      match Token(s, opening)
      case None => None
      case Some((v, rest)) => PrependInts([v], ArrayValues(rest, !opening))
  }

  function Pairs(values: seq<int>): (r: seq<Span>)
    requires |values| % 2 == 0
    ensures |r| == |values| / 2
    ensures forall k :: 0 <= k < |r| ==> r[k] == (values[2 * k], values[2 * k + 1])
  {
    seq(|values| / 2, k requires 0 <= k < |values| / 2 => (values[2 * k], values[2 * k + 1]))
  }

  lemma {:induction false} ArrayParity(s: string, opening: bool)
    ensures ArrayValues(s, opening).Some? ==>
              && |ArrayValues(s, opening).value| % 2 == (if opening then 0 else 1)
              && (s != "" ==> ArrayValues(s, opening).value != [])
    decreases |s|
  {
    hide Token;
    if s != "" && Token(s, opening).Some? {
      ArrayParity(Token(s, opening).value.1, !opening);
    }
  }

  /** The outcome of field 4, as a function of the array it spells. */
  function ResultOf(field: string): Outcome {
    if field == "" then Crash
    else if field == "NOMATCH" then NoMatch
    else if 'A' <= field[0] <= 'Z' then Rejected
    else
      match ArrayValues(field, true)
      case None => Unreadable
      case Some(values) =>
        ArrayParity(field, true);
        Spans(Pairs(values)[0], Pairs(values)[1..])
  }

  /** The loop over the match array: None where it gives up. */
  method ReadArray(field: string) returns (r: Option<seq<int>>)
    ensures r == ArrayValues(field, true)
  {
    hide Find, TokenValue, ArrayValues, PrependInts;
    var values: seq<int>, rest := [], field;
    ghost var opening := true;
    EmptyPrependInts(ArrayValues(field, true));
    while rest != ""
      invariant opening == (|values| % 2 == 0)
      invariant ArrayValues(field, true) == PrependInts(values, ArrayValues(rest, opening))
      decreases |rest|
    {
      ghost var before := rest;
      ArrayTurn(values, rest, opening);
      var end := ')';
      if |values| % 2 == 0 {
        if rest[0] != '(' {
          return None;
        }
        rest, end := rest[1..], ',';
      }
      var stop := Find(rest, end);
      if stop <= 0 {
        return None;
      }
      var token := rest[..stop];
      rest := rest[stop + 1..];
      var v := TokenValue(token);
      if v == None {
        return None;
      }
      assert Token(before, opening) == Some((v.value, rest));
      values, opening := values + [v.value], !opening;
    }
    ArrayEnd(values, rest, opening);
    if |values| % 2 != 0 {
      return None;
    }
    return Some(values);
  }

  /** `_parse_dat_result`. */
  method ParseResult(field: string) returns (r: Outcome)
    ensures r == ResultOf(field)
  {
    hide ArrayValues;
    if field == "NOMATCH" {
      return NoMatch;
    }
    if field == "" {
      return Crash;
    }
    if 'A' <= field[0] <= 'Z' {
      return Rejected;
    }
    var values := ReadArray(field);
    if values == None {
      return Unreadable;
    }
    ArrayParity(field, true);
    var pairs := Pairs(values.value);
    return Spans(pairs[0], pairs[1..]);
  }

  lemma {:induction false} EmptyPrependInts(r: Option<seq<int>>)
    ensures PrependInts([], r) == r
  {
    if r.Some? {
      assert [] + r.value == r.value;
    }
  }

  lemma {:induction false} ArrayTurn(values: seq<int>, rest: string, opening: bool)
    requires rest != ""
    ensures Token(rest, opening) == None ==> PrependInts(values, ArrayValues(rest, opening)) == None
    ensures Token(rest, opening).Some? ==>
              PrependInts(values, ArrayValues(rest, opening))
              == PrependInts(values + [Token(rest, opening).value.0],
                             ArrayValues(Token(rest, opening).value.1, !opening))
  {
    hide Token;
    if Token(rest, opening).Some? {
      var (v, t) := Token(rest, opening).value;
      var more := ArrayValues(t, !opening);
      if more.Some? {
        assert values + ([v] + more.value) == values + [v] + more.value;
      }
    }
  }

  lemma {:induction false} ArrayEnd(values: seq<int>, rest: string, opening: bool)
    requires rest == ""
    ensures PrependInts(values, ArrayValues(rest, opening)) == if opening then Some(values) else None
  {
    assert values + [] == values;
  }

  /** A match array as it may be written: each offset is some text that `int` reads, or `?`. */
  type Tokens = seq<(string, string)>

  ghost predicate AreTokens(tokens: Tokens) {
    forall i :: 0 <= i < |tokens| ==>
      && ',' !in tokens[i].0 && TokenValue(tokens[i].0).Some?
      && ')' !in tokens[i].1 && TokenValue(tokens[i].1).Some?
  }

  function ArrayText(tokens: Tokens): string {
    if tokens == [] then "" else "(" + tokens[0].0 + "," + (tokens[0].1 + ")" + ArrayText(tokens[1..]))
  }

  function TokenValues(tokens: Tokens): seq<int>
    requires AreTokens(tokens)
  {
    if tokens == [] then []
    else
      assert AreTokens(tokens[1..]);
      [TokenValue(tokens[0].0).value, TokenValue(tokens[0].1).value] + TokenValues(tokens[1..])
  }

  lemma {:induction false} TokenEnds(token: string, c: char, t: string)
    requires c !in token && token != ""
    ensures var s := token + [c] + t; Find(s, c) == |token| && s[..|token|] == token && s[|token| + 1..] == t
  {
    var s := token + [c] + t;
    assert s[|token|] == c && forall j :: 0 <= j < |token| ==> s[j] == token[j];
  }

  lemma {:induction false} TokenNonEmpty(token: string)
    ensures TokenValue(token).Some? ==> token != ""
  {
    if token == "" {
      assert TrimFront(token) == "" && TrimBack("") == "";
    }
  }

  lemma {:induction false} TokenReads(token: string, opening: bool, t: string)
    requires TokenValue(token).Some? && (if opening then ',' else ')') !in token
    ensures opening ==> Token("(" + token + "," + t, true) == Some((TokenValue(token).value, t))
    ensures !opening ==> Token(token + ")" + t, false) == Some((TokenValue(token).value, t))
  {
    hide TokenValue, Find;
    TokenNonEmpty(token);
    TokenEnds(token, if opening then ',' else ')', t);
    assert ("(" + token + "," + t)[1..] == token + [','] + t;
  }

  lemma {:induction false} PairReads(a: string, b: string, tail: string)
    requires ',' !in a && TokenValue(a).Some? && ')' !in b && TokenValue(b).Some? && ArrayValues(tail, true).Some?
    ensures ArrayValues("(" + a + "," + (b + ")" + tail), true)
            == Some([TokenValue(a).value, TokenValue(b).value] + ArrayValues(tail, true).value)
  {
    hide TokenValue, Token;
    var second := b + ")" + tail;
    TokenReads(a, true, second);
    TokenReads(b, false, tail);
    assert |second| > 0;
    var v, w, more := TokenValue(a).value, TokenValue(b).value, ArrayValues(tail, true).value;
    assert ArrayValues(second, false) == PrependInts([w], ArrayValues(tail, true));
    assert [v] + ([w] + more) == [v, w] + more;
  }

  /** Such an array is read as its values. */
  lemma {:induction false} TokensRead(tokens: Tokens)
    requires AreTokens(tokens)
    ensures ArrayValues(ArrayText(tokens), true) == Some(TokenValues(tokens))
    decreases |tokens|
  {
    hide TokenValue, ArrayValues;
    if tokens == [] {
      EmptyArray();
    } else {
      var (a, b) := tokens[0];
      TokensRead(tokens[1..]);
      PairReads(a, b, ArrayText(tokens[1..]));
    }
  }

  lemma {:induction false} TokenIsText(s: string, opening: bool) returns (token: string)
    requires s != "" && Token(s, opening).Some?
    ensures TokenValue(token).Some? && (if opening then ',' else ')') !in token
    ensures s == (if opening then "(" + token + "," else token + ")") + Token(s, opening).value.1
  {
    hide TokenValue;
    var t := if opening then s[1..] else s;
    var c := if opening then ',' else ')';
    token := t[..Find(t, c)];
    assert t == token + [c] + t[Find(t, c) + 1..];
    assert c !in token;
  }

  /** And nothing else is read. */
  lemma {:induction false} ArrayIsTokens(s: string) returns (tokens: Tokens)
    requires ArrayValues(s, true).Some?
    ensures AreTokens(tokens) && s == ArrayText(tokens)
    decreases |s|
  {
    hide TokenValue, Token;
    tokens := [];
    if s != "" {
      var a := TokenIsText(s, true);
      var second := Token(s, true).value.1;
      assert ArrayValues(second, false).Some?;
      var b := TokenIsText(second, false);
      var tail := Token(second, false).value.1;
      var more := ArrayIsTokens(tail);
      tokens := [(a, b)] + more;
      assert tokens[1..] == more;
      assert s == "(" + a + "," + (b + ")" + tail);
    }
  }

  /** The printer of a span: `?` for -1. */
  function NumberText(v: int): string
    requires v >= -1
  {
    if v == -1 then "?" else Digits(v)
  }

  function SpansText(spans: seq<Span>): string
    requires forall i :: 0 <= i < |spans| ==> spans[i].0 >= -1 && spans[i].1 >= -1
  {
    if spans == [] then ""
    else "(" + NumberText(spans[0].0) + "," + NumberText(spans[0].1) + ")" + SpansText(spans[1..])
  }

  function Flat(spans: seq<Span>): (r: seq<int>)
    ensures |r| == 2 * |spans|
    ensures forall k :: 0 <= k < |spans| ==> r[2 * k] == spans[k].0 && r[2 * k + 1] == spans[k].1
  {
    if spans == [] then [] else [spans[0].0, spans[0].1] + Flat(spans[1..])
  }

  lemma {:induction false} NumberReads(v: int)
    requires v >= -1
    ensures var s := NumberText(v); TokenValue(s) == Some(v) && ',' !in s && ')' !in s
  {
    hide IntOf;
    if v >= 0 {
      ValueOfDigits(v);
      DigitsAreNumeral(Digits(v));
      NumeralReads(Digits(v), 10);
      DigitsValue(Digits(v));
      assert Digits(v) != "?" by { assert Decimal.IsDigit(Digits(v)[0]); }
    }
  }

  lemma {:induction false} EmptyArray()
    ensures ArrayValues("", true) == Some([])
  {
  }

  lemma {:induction false} SpansRead(spans: seq<Span>)
    requires forall i :: 0 <= i < |spans| ==> spans[i].0 >= -1 && spans[i].1 >= -1
    ensures ArrayValues(SpansText(spans), true) == Some(Flat(spans))
    decreases |spans|
  {
    hide NumberText, ArrayValues, TokenValue;
    if spans == [] {
      EmptyArray();
    } else {
      var (a, b) := spans[0];
      var tail := SpansText(spans[1..]);
      SpansRead(spans[1..]);
      NumberReads(a);
      NumberReads(b);
      PairReads(NumberText(a), NumberText(b), tail);
      assert SpansText(spans) == "(" + NumberText(a) + "," + (NumberText(b) + ")" + tail);
    }
  }

  lemma {:induction false} SpansOpen(spans: seq<Span>)
    requires spans != []
    requires forall i :: 0 <= i < |spans| ==> spans[i].0 >= -1 && spans[i].1 >= -1
    ensures SpansText(spans) != "" && SpansText(spans)[0] == '('
  {
    hide NumberText;
  }

  lemma {:induction false} FlatPairs(spans: seq<Span>)
    ensures Pairs(Flat(spans)) == spans
  {
    hide Flat;
    var pairs := Pairs(Flat(spans));
    assert forall k :: 0 <= k < |spans| ==> pairs[k] == spans[k];
  }

  /** A printed non-empty list of spans reads back as that list: the whole span, then the groups. */
  lemma {:induction false} ResultUndoes(spans: seq<Span>)
    requires spans != []
    requires forall i :: 0 <= i < |spans| ==> spans[i].0 >= -1 && spans[i].1 >= -1
    ensures ResultOf(SpansText(spans)) == Spans(spans[0], spans[1..])
  {
    hide SpansText, ArrayValues, Flat, Pairs;
    SpansRead(spans);
    FlatPairs(spans);
    SpansOpen(spans);
    assert SpansText(spans) != "NOMATCH";
  }
}
