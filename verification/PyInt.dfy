/** Python's `int(text, base)` for the bases 8, 10 and 16, on Latin-1 texts: blanks around the number, a sign, a base
    prefix and underscores between digits are taken too. */
module PyInt {

  datatype Option<T> = None | Some(value: T)

  predicate IsBlank(c: char) {
    '\t' <= c <= '\r' || c == ' ' || c as int == 0x85 || c as int == 0xA0
  }

  function DigitValue(c: char): int {
    if '0' <= c <= '9' then c as int - '0' as int
    else if 'a' <= c <= 'f' then c as int - 'a' as int + 10
    else if 'A' <= c <= 'F' then c as int - 'A' as int + 10
    else -1
  }

  predicate IsDigitOf(c: char, base: nat) {
    0 <= DigitValue(c) < base
  }

  function TrimFront(s: string): string {
    if s != "" && IsBlank(s[0]) then TrimFront(s[1..]) else s
  }

  function TrimBack(s: string): string {
    if s != "" && IsBlank(s[|s| - 1]) then TrimBack(s[..|s| - 1]) else s
  }

  predicate HasPrefix(s: string, base: nat) {
    |s| >= 2 && s[0] == '0'
    && ((base == 16 && (s[1] == 'x' || s[1] == 'X')) || (base == 8 && (s[1] == 'o' || s[1] == 'O')))
  }

  /** The digits after a base prefix, which one underscore may follow. */
  function Unprefixed(s: string, base: nat): string {
    if !HasPrefix(s, base) then s else if |s| > 2 && s[2] == '_' then s[3..] else s[2..]
  }

  /** Digits of the base with single underscores between them. */
  predicate IsDigits(s: string, base: nat) {
    s != "" && IsDigitOf(s[0], base)
    && (|s| == 1 || IsDigits(s[1..], base) || (s[1] == '_' && IsDigits(s[2..], base)))
  }

  function ValueOf(s: string, base: nat): nat {
    if s == "" then 0
    else
      var c, front := s[|s| - 1], ValueOf(s[..|s| - 1], base);
      if DigitValue(c) < 0 then front else base * front + DigitValue(c)
  }

  predicate IsSign(c: char) {
    c == '+' || c == '-'
  }

  function IntOf(s: string, base: nat): Option<int> {
    var t := TrimBack(TrimFront(s));
    var u := Unprefixed(if t != "" && IsSign(t[0]) then t[1..] else t, base);
    if !IsDigits(u, base) then None
    else
      var v: int := ValueOf(u, base);
      Some(if t[0] == '-' then -v else v)
  }

  // --- plain numerals ---

  predicate IsNumeral(s: string, base: nat) {
    s != "" && forall i :: 0 <= i < |s| ==> IsDigitOf(s[i], base)
  }

  lemma {:induction false} NumeralIsDigits(s: string, base: nat)
    requires IsNumeral(s, base)
    ensures IsDigits(s, base)
    decreases |s|
  {
    if |s| > 1 {
      NumeralIsDigits(s[1..], base);
    }
  }

  /** A numeral without any of that is read as its value. */
  lemma {:induction false} NumeralReads(s: string, base: nat)
    requires IsNumeral(s, base) && base <= 16
    ensures IntOf(s, base) == Some(ValueOf(s, base))
  {
    assert IsDigitOf(s[|s| - 1], base) && IsDigitOf(s[0], base);
    assert |s| >= 2 ==> IsDigitOf(s[1], base);
    NumeralIsDigits(s, base);
  }

  /** What an accepted text begins with: a blank, a sign or a digit. */
  lemma {:induction false} IntBegins(s: string, base: nat)
    requires s != "" && base <= 16 && IntOf(s, base).Some?
    ensures IsBlank(s[0]) || IsSign(s[0]) || IsDigitOf(s[0], base)
  {
    if !IsBlank(s[0]) {
      assert TrimFront(s) == s;
      TrimBackFront(s);
    }
  }

  lemma {:induction false} TrimBackFront(s: string)
    requires s != "" && !IsBlank(s[0])
    ensures var t := TrimBack(s); t != "" && t[0] == s[0]
    decreases |s|
  {
    if |s| > 1 {
      TrimBackFront(s[..|s| - 1]);
    }
  }

  // --- every text it takes ---

  function Number(digits: seq<nat>, base: nat): nat {
    if digits == [] then 0 else base * Number(digits[..|digits| - 1], base) + digits[|digits| - 1]
  }

  /** The digits, most significant first and in either case, with at most one underscore between two. */
  ghost predicate Writes(u: string, digits: seq<nat>, base: nat) {
    && u != "" && digits != [] && digits[0] < base <= 16
    && (u[0] == "0123456789abcdef"[digits[0]] || u[0] == "0123456789ABCDEF"[digits[0]])
    && (if |digits| == 1 then |u| == 1
        else Writes(u[1..], digits[1..], base) || (|u| > 1 && u[1] == '_' && Writes(u[2..], digits[1..], base)))
  }

  lemma {:induction false} DigitWritten(c: char, d: nat)
    requires d < 16 && (c == "0123456789abcdef"[d] || c == "0123456789ABCDEF"[d])
    ensures DigitValue(c) == d
  {
  }

  lemma {:induction false} DigitOf(c: char)
    ensures DigitValue(c) < 16
    ensures DigitValue(c) >= 0 ==>
              c == "0123456789abcdef"[DigitValue(c)] || c == "0123456789ABCDEF"[DigitValue(c)]
  {
  }

  function Power(base: nat, n: nat): nat {
    if n == 0 then 1 else base * Power(base, n - 1)
  }

  /** A digit in front counts for the power of the base that the digits behind it leave. */
  lemma {:induction false} NumberFront(d: nat, more: seq<nat>, base: nat)
    ensures Number([d] + more, base) == d * Power(base, |more|) + Number(more, base)
    decreases |more|
  {
    var digits := [d] + more;
    if more == [] {
      assert digits[..0] == [] && Number([], base) == 0;
    } else {
      NumberFront(d, more[..|more| - 1], base);
      assert digits[..|digits| - 1] == [d] + more[..|more| - 1];
      Distribute(base, d, Power(base, |more| - 1), Number(more[..|more| - 1], base));
    }
  }

  lemma {:induction false} Distribute(base: nat, d: nat, p: nat, n: nat)
    ensures base * (d * p + n) == d * (base * p) + base * n
  {
  }

  function DigitCount(u: string): nat {
    if u == "" then 0 else DigitCount(u[..|u| - 1]) + if DigitValue(u[|u| - 1]) < 0 then 0 else 1
  }

  lemma {:induction false} ValueFront(c: char, more: string, base: nat)
    ensures DigitValue(c) < 0 ==> ValueOf([c] + more, base) == ValueOf(more, base)
    ensures DigitValue(c) >= 0 ==>
              ValueOf([c] + more, base) == DigitValue(c) * Power(base, DigitCount(more)) + ValueOf(more, base)
    ensures DigitCount([c] + more) == DigitCount(more) + if DigitValue(c) < 0 then 0 else 1
    decreases |more|
  {
    hide DigitValue;
    var u := [c] + more;
    if more == "" {
      assert u[..0] == "" && ValueOf("", base) == 0 && DigitCount("") == 0;
    } else {
      var front := more[..|more| - 1];
      ValueFront(c, front, base);
      assert u[..|u| - 1] == [c] + front && u[|u| - 1] == more[|more| - 1];
      if DigitValue(c) >= 0 {
        Distribute(base, DigitValue(c), Power(base, DigitCount(front)), ValueOf(front, base));
      }
    }
  }

  lemma {:induction false} WrittenReads(u: string, digits: seq<nat>, base: nat)
    requires Writes(u, digits, base)
    ensures IsDigits(u, base) && ValueOf(u, base) == Number(digits, base) && DigitCount(u) == |digits|
    decreases |u|
  {
    hide DigitValue, ValueOf, Number, DigitCount;
    var d, more := digits[0], digits[1..];
    DigitWritten(u[0], d);
    NumberFront(d, more, base);
    ValueFront(u[0], u[1..], base);
    assert digits == [d] + more && u == [u[0]] + u[1..];
    if |digits| == 1 {
      NoDigits(base);
    } else if Writes(u[1..], more, base) {
      WrittenReads(u[1..], more, base);
    } else {
      WrittenReads(u[2..], more, base);
      UnderscoreNoDigit();
      ValueFront('_', u[2..], base);
      assert u[1..] == ['_'] + u[2..];
    }
  }

  lemma {:induction false} NoDigits(base: nat)
    ensures Number([], base) == 0 && ValueOf("", base) == 0 && DigitCount("") == 0
  {
  }

  lemma {:induction false} UnderscoreNoDigit()
    ensures DigitValue('_') < 0
  {
  }

  lemma {:induction false} DigitsAreWritten(u: string, base: nat) returns (digits: seq<nat>)
    requires IsDigits(u, base) && base <= 16
    ensures Writes(u, digits, base)
    decreases |u|
  {
    hide DigitValue;
    DigitOf(u[0]);
    digits := [DigitValue(u[0])];
    if |u| > 1 {
      var more := DigitsAreWritten(if IsDigits(u[1..], base) then u[1..] else u[2..], base);
      digits := digits + more;
      assert digits[1..] == more;
    }
  }

  ghost predicate AllBlank(s: string) {
    forall i :: 0 <= i < |s| ==> IsBlank(s[i])
  }

  ghost predicate IsPrefixOf(prefix: string, base: nat) {
    || prefix == ""
    || (base == 16 && prefix in ["0x", "0X", "0x_", "0X_"])
    || (base == 8 && prefix in ["0o", "0O", "0o_", "0O_"])
  }

  /** Blanks, a sign, a prefix of the base, digits, blanks. */
  ghost predicate IsInt(s: string, base: nat, before: string, sign: string, prefix: string, u: string, after: string) {
    && AllBlank(before) && AllBlank(after) && sign in ["", "+", "-"] && IsPrefixOf(prefix, base)
    && s == before + sign + prefix + u + after
  }

  lemma {:induction false} TrimmedFront(before: string, s: string)
    requires AllBlank(before) && s != "" && !IsBlank(s[0])
    ensures TrimFront(before + s) == s
    decreases |before|
  {
    if before == "" {
      assert before + s == s;
    } else {
      assert (before + s)[0] == before[0] && (before + s)[1..] == before[1..] + s;
      TrimmedFront(before[1..], s);
    }
  }

  lemma {:induction false} TrimmedBack(s: string, after: string)
    requires AllBlank(after) && s != "" && !IsBlank(s[|s| - 1])
    ensures TrimBack(s + after) == s
    decreases |after|
  {
    var t := s + after;
    if after == "" {
      assert t == s;
    } else {
      assert t[|t| - 1] == after[|after| - 1] && t[..|t| - 1] == s + after[..|after| - 1];
      TrimmedBack(s, after[..|after| - 1]);
    }
  }

  /** Digits begin and end with a digit, and a prefix of the base is no beginning of them. */
  lemma {:induction false} DigitEnds(u: string, base: nat)
    requires IsDigits(u, base)
    ensures IsDigitOf(u[0], base) && IsDigitOf(u[|u| - 1], base)
    ensures |u| > 1 ==> u[1] == '_' || IsDigitOf(u[1], base)
    decreases |u|
  {
    if |u| > 1 {
      DigitEnds(if IsDigits(u[1..], base) then u[1..] else u[2..], base);
    }
  }

  lemma {:induction false} PrefixTaken(prefix: string, u: string, base: nat)
    requires base <= 16 && IsPrefixOf(prefix, base)
    requires u != "" && IsDigitOf(u[0], base) && (|u| > 1 ==> u[1] == '_' || IsDigitOf(u[1], base))
    ensures Unprefixed(prefix + u, base) == u
  {
    var s := prefix + u;
    if prefix == "" {
      assert s == u;
      assert !HasPrefix(u, base);
    } else {
      assert s[|prefix|..] == u && s[|prefix|] == u[0];
      assert s[0] == prefix[0] && s[1] == prefix[1] && (|prefix| == 3 ==> s[2] == prefix[2]);
      HasPrefixHere(prefix, s, base);
    }
  }

  lemma {:induction false} HasPrefixHere(prefix: string, s: string, base: nat)
    requires IsPrefixOf(prefix, base) && prefix != "" && |s| > |prefix|
    requires s[0] == prefix[0] && s[1] == prefix[1] && (|prefix| == 3 ==> s[2] == prefix[2])
    ensures HasPrefix(s, base) && 2 <= |prefix| <= 3 && (|prefix| == 3 ==> s[2] == '_')
  {
  }

  function Signed(sign: string, n: int): int {
    if sign == "-" then -n else n
  }

  /** Every such text is read, as the number its digits make. */
  lemma {:induction false} IntReads(s: string, base: nat, before: string, sign: string, prefix: string, u: string,
                                    after: string, digits: seq<nat>)
    requires base <= 16 && u != "" && Writes(u, digits, base)
    requires IsInt(s, base, before, sign, prefix, u, after)
    ensures IntOf(s, base) == Some(Signed(sign, Number(digits, base)))
  {
    hide Writes, DigitValue, Number, ValueOf, IsDigits, Unprefixed, IsPrefixOf;
    WrittenReads(u, digits, base);
    DigitEnds(u, base);
    PrefixTaken(prefix, u, base);
    var t := sign + prefix + u;
    NotBlank(t, sign, prefix, u, base);
    TrimmedFront(before, t + after);
    TrimmedBack(t, after);
    assert s == before + (t + after);
    assert sign != "" ==> t[0] == sign[0] && t[1..] == prefix + u;
    assert sign == "" ==> t == prefix + u;
  }

  lemma {:induction false} NotBlank(t: string, sign: string, prefix: string, u: string, base: nat)
    requires t == sign + prefix + u && sign in ["", "+", "-"] && IsPrefixOf(prefix, base) && u != ""
    requires IsDigitOf(u[0], base) && IsDigitOf(u[|u| - 1], base)
    ensures t != "" && !IsBlank(t[0]) && !IsBlank(t[|t| - 1])
    ensures sign == "" ==> !IsSign(t[0])
  {
    assert t[|t| - 1] == u[|u| - 1];
    assert t[0] == if sign != "" then sign[0] else if prefix != "" then prefix[0] else u[0];
  }

  lemma {:induction false} TrimFrontParts(s: string) returns (before: string)
    ensures AllBlank(before) && s == before + TrimFront(s)
    decreases |s|
  {
    before := "";
    if s != "" && IsBlank(s[0]) {
      var more := TrimFrontParts(s[1..]);
      before := [s[0]] + more;
    }
  }

  lemma {:induction false} TrimBackParts(s: string) returns (after: string)
    ensures AllBlank(after) && s == TrimBack(s) + after
    decreases |s|
  {
    after := "";
    if s != "" && IsBlank(s[|s| - 1]) {
      var more := TrimBackParts(s[..|s| - 1]);
      after := more + [s[|s| - 1]];
    }
  }

  lemma {:induction false} PrefixParts(s: string, base: nat) returns (prefix: string)
    ensures IsPrefixOf(prefix, base) && s == prefix + Unprefixed(s, base)
  {
    prefix := s[..|s| - |Unprefixed(s, base)|];
    if HasPrefix(s, base) {
      assert prefix[0] == s[0] && prefix[1] == s[1];
      assert |prefix| == 2 ==> prefix == [s[0], s[1]];
      assert |prefix| == 3 ==> prefix == [s[0], s[1], s[2]];
    }
  }

  lemma {:induction false} SignPart(t: string) returns (sign: string)
    ensures sign in ["", "+", "-"] && t == sign + if t != "" && IsSign(t[0]) then t[1..] else t
  {
    sign := if t != "" && IsSign(t[0]) then [t[0]] else "";
  }

  lemma {:induction false} Joined(before: string, sign: string, prefix: string, u: string, after: string,
                                  rest: string, t: string)
    requires rest == prefix + u && t == sign + rest
    ensures before + (t + after) == before + sign + prefix + u + after
  {
    assert before + sign + prefix + u == before + t;
  }

  /** And no other text is. */
  lemma {:induction false} ReadIsInt(s: string, base: nat)
      returns (before: string, sign: string, prefix: string, u: string, after: string, digits: seq<nat>)
    requires IntOf(s, base).Some? && base <= 16
    ensures IsInt(s, base, before, sign, prefix, u, after) && Writes(u, digits, base)
  {
    hide TrimFront, TrimBack, Unprefixed, IsPrefixOf, AllBlank, Writes, IsDigits;
    before := TrimFrontParts(s);
    after := TrimBackParts(TrimFront(s));
    var t := TrimBack(TrimFront(s));
    sign := SignPart(t);
    var rest := if t != "" && IsSign(t[0]) then t[1..] else t;
    prefix := PrefixParts(rest, base);
    u := Unprefixed(rest, base);
    digits := DigitsAreWritten(u, base);
    Joined(before, sign, prefix, u, after, rest, t);
  }

  // --- how large a short octal text is ---

  lemma {:induction false} TrimmedShorter(s: string)
    ensures |TrimFront(s)| <= |s| && |TrimBack(s)| <= |s|
    decreases |s|
  {
    if s != "" {
      TrimmedShorter(s[1..]);
      TrimmedShorter(s[..|s| - 1]);
    }
  }

  lemma {:induction false} DigitsBelow(s: string, base: nat)
    requires IsDigits(s, base)
    ensures forall i :: 0 <= i < |s| ==> DigitValue(s[i]) < base
    decreases |s|
  {
    if |s| > 1 {
      if IsDigits(s[1..], base) {
        DigitsBelow(s[1..], base);
        assert forall i :: 1 <= i < |s| ==> s[i] == s[1..][i - 1];
      } else {
        DigitsBelow(s[2..], base);
        assert forall i :: 2 <= i < |s| ==> s[i] == s[2..][i - 2];
      }
    }
  }

  function Power8(n: nat): nat {
    if n == 0 then 1 else 8 * Power8(n - 1)
  }

  lemma {:induction false} ValueBelow(s: string)
    requires forall i :: 0 <= i < |s| ==> DigitValue(s[i]) < 8
    ensures ValueOf(s, 8) < Power8(|s|)
    decreases |s|
  {
    if s != "" {
      ValueBelow(s[..|s| - 1]);
    }
  }

  lemma {:induction false} PowerGrows(m: nat, n: nat)
    requires m <= n
    ensures Power8(m) <= Power8(n)
    decreases n
  {
    if m < n {
      PowerGrows(m, n - 1);
    }
  }

  /** Three characters give at most 511. */
  lemma {:induction false} OctalBelow(s: string)
    requires |s| <= 3 && IntOf(s, 8).Some?
    ensures IntOf(s, 8).value < 512
  {
    TrimmedShorter(s);
    TrimmedShorter(TrimFront(s));
    var t := TrimBack(TrimFront(s));
    var u := Unprefixed(if t != "" && IsSign(t[0]) then t[1..] else t, 8);
    DigitsBelow(u, 8);
    ValueBelow(u);
    PowerGrows(|u|, 3);
    assert Power8(3) == 8 * Power8(2) == 64 * Power8(1) == 512;
  }
}
