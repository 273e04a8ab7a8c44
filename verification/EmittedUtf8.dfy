/** When the texts that include/sciforge/bench.hpp emits are well-formed UTF-8: exactly when the strings and the
    pre-rendered pieces in them are. Nothing the emitter adds is above 0x7F, so every text can be cut there. */
module EmittedUtf8 {
  import opened Json
  import opened JsonLaws
  import opened Utf8Text

  /** The first byte below 0x80, or the length. */
  function FirstAscii(s: string): (k: nat)
    ensures k <= |s| && (k < |s| ==> s[k] as int < 0x80)
    ensures forall i :: 0 <= i < k ==> s[i] as int >= 0x80
  {
    if s == "" || s[0] as int < 0x80 then 0 else 1 + FirstAscii(s[1..])
  }

  lemma {:induction false} EscapedAscii(c: char)
    requires c as int < 0x80
    ensures IsAscii(EscapedChar(c)) && EscapedChar(c) != ""
  {
    if c as int < 0x20 {
      assert HEX[c as int / 16] as int < 0x80 && HEX[c as int % 16] as int < 0x80;
    }
  }

  /** Bytes from 0x80 on are not escaped. */
  lemma {:induction false} EscapedHigh(a: string, b: string)
    requires forall i :: 0 <= i < |a| ==> a[i] as int >= 0x80
    ensures Escaped(a + b) == a + Escaped(b)
    decreases |a|
  {
    hide EscapedChar;
    if a == "" {
      assert a + b == b;
    } else {
      var c, rest := a[0], a[1..];
      assert (a + b)[1..] == rest + b && (a + b)[0] == c;
      EscapedHigh(rest, b);
      HighIsItself(c);
      assert [c] + (rest + Escaped(b)) == ([c] + rest) + Escaped(b);
    }
  }

  lemma {:induction false} HighIsItself(c: char)
    requires c as int >= 0x80
    ensures EscapedChar(c) == [c]
  {
  }

  /** An escaped text, cut at its first byte below 0x80. */
  lemma {:induction false} EscapedCut(a: string, c: char, b: string)
    requires forall i :: 0 <= i < |a| ==> a[i] as int >= 0x80
    requires EscapedChar(c) != ""
    ensures Escaped(a + [c] + b) == a + [EscapedChar(c)[0]] + (EscapedChar(c)[1..] + Escaped(b))
  {
    hide EscapedChar;
    var e := EscapedChar(c);
    assert a + [c] + b == a + ([c] + b);
    EscapedHigh(a, [c] + b);
    assert ([c] + b)[0] == c && ([c] + b)[1..] == b;
    assert e == [e[0]] + e[1..];
    assert a + ([e[0]] + e[1..] + Escaped(b)) == a + [e[0]] + (e[1..] + Escaped(b));
  }

  lemma {:induction false} EscapedWellFormed(s: string)
    ensures WellFormed(Escaped(s)) <==> WellFormed(s)
    decreases |s|
  {
    hide WellFormed, EscapedChar, Escaped;
    var k := FirstAscii(s);
    if k == |s| {
      EscapedHigh(s, "");
      assert s + "" == s && s + Escaped("") == s by { NothingEscaped(); }
    } else {
      var a, c, b := s[..k], s[k], s[k + 1..];
      assert s == a + [c] + b;
      EscapedAscii(c);
      EscapedCut(a, c, b);
      var e := EscapedChar(c);
      Separated(a, e[0], e[1..] + Escaped(b));
      AsciiFront(e[1..], Escaped(b));
      EscapedWellFormed(b);
      Separated(a, c, b);
    }
  }

  lemma {:induction false} NothingEscaped()
    ensures Escaped("") == ""
  {
  }

  /** A text between two bytes below 0x80. */
  lemma {:induction false} Enclosed(c: char, s: string, d: char)
    requires c as int < 0x80 && d as int < 0x80
    ensures WellFormed([c] + s + [d]) <==> WellFormed(s)
  {
    hide WellFormed;
    assert [c] + s + [d] == [c] + (s + [d]) && s + [d] == s + [d] + "";
    AsciiFront([c], s + [d]);
    Separated(s, d, "");
    AsciiIsWellFormed("");
  }

  lemma {:induction false} QuotedWellFormed(s: string)
    ensures WellFormed(Quoted(s)) <==> WellFormed(s)
  {
    hide WellFormed, Escaped;
    EscapedWellFormed(s);
    Enclosed('"', Escaped(s), '"');
  }

  ghost predicate AllWellFormed(items: seq<string>) {
    forall i :: 0 <= i < |items| ==> WellFormed(items[i])
  }

  lemma {:induction false} JoinWellFormed(items: seq<string>)
    ensures WellFormed(Join(items)) <==> AllWellFormed(items)
    decreases |items|
  {
    hide WellFormed;
    if items == [] {
      AsciiIsWellFormed("");
    } else if |items| > 1 {
      JoinWellFormed(items[1..]);
      Separated(items[0], ',', Join(items[1..]));
      assert AllWellFormed(items) <==> WellFormed(items[0]) && AllWellFormed(items[1..]) by { AllRest(items); }
    }
  }

  lemma {:induction false} AllRest(items: seq<string>)
    requires items != []
    ensures AllWellFormed(items) <==> WellFormed(items[0]) && AllWellFormed(items[1..])
  {
    hide WellFormed;
    assert forall i :: 1 <= i < |items| ==> items[i] == items[1..][i - 1];
  }

  lemma {:induction false} ArrayWellFormed(items: seq<string>)
    ensures WellFormed(ArrayText(items)) <==> AllWellFormed(items)
  {
    hide WellFormed, Join;
    JoinWellFormed(items);
    Enclosed('[', Join(items), ']');
  }

  ghost predicate FieldsWellFormed(fields: seq<Field>) {
    forall i :: 0 <= i < |fields| ==> WellFormed(fields[i].0) && WellFormed(fields[i].1)
  }

  lemma {:induction false} ObjectWellFormed(fields: seq<Field>)
    ensures WellFormed(ObjectText(fields)) <==> FieldsWellFormed(fields)
  {
    hide WellFormed, Join, Quoted;
    var texts := MemberTexts(fields);
    JoinWellFormed(texts);
    Enclosed('{', Join(texts), '}');
    forall i | 0 <= i < |fields| ensures WellFormed(texts[i]) <==> WellFormed(fields[i].0) && WellFormed(fields[i].1) {
      QuotedWellFormed(fields[i].0);
      Separated(Quoted(fields[i].0), ':', fields[i].1);
    }
  }

  lemma {:induction false} LexemeWellFormed(s: string)
    requires IsLexeme(s)
    ensures WellFormed(s)
  {
    hide WellFormed, IsNumber;
    if IsNumber(s) {
      NumberChars(s);
    }
    AsciiIsWellFormed(s);
  }
}
