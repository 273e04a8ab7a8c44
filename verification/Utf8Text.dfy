/** Well-formed UTF-8 (section 4 of RFC 3629), over texts with one char a byte, as the emitter writes and a file opened
    as UTF-8 is read. A text is well-formed exactly when it encodes something; and a well-formed text can be cut at any
    byte below 0x80, which is how the pieces of an emitted run are told apart. */
module Utf8Text {
  import Utf8

  predicate Between(c: char, low: int, high: int) {
    low <= c as int <= high
  }

  predicate IsTail(c: char) {
    Between(c, 0x80, 0xBF)
  }

  /** The second byte that may follow a lead byte of three or four. */
  predicate SecondFits(lead: char, c: char) {
    if lead as int == 0xE0 then Between(c, 0xA0, 0xBF)
    else if lead as int == 0xED then Between(c, 0x80, 0x9F)
    else if lead as int == 0xF0 then Between(c, 0x90, 0xBF)
    else if lead as int == 0xF4 then Between(c, 0x80, 0x8F)
    else IsTail(c)
  }

  /** How many bytes a lead byte announces; 0 for a byte that leads nothing. */
  function Announced(lead: char): nat {
    if Between(lead, 0x00, 0x7F) then 1
    else if Between(lead, 0xC2, 0xDF) then 2
    else if Between(lead, 0xE0, 0xEF) then 3
    else if Between(lead, 0xF0, 0xF4) then 4
    else 0
  }

  /** The bytes of the character at the head of `s`; 0 when there is none. */
  function HeadLength(s: string): (n: nat)
    requires s != ""
    ensures n <= |s| && n <= 4 && (n > 0 ==> n == Announced(s[0]))
    ensures n == 1 <==> s[0] as int < 0x80
    ensures forall i :: 1 <= i < n ==> IsTail(s[i])
  {
    var n := Announced(s[0]);
    if n == 0 || n > |s| then 0
    else if n >= 2 && !SecondFits(s[0], s[1]) then 0
    else if n >= 3 && !IsTail(s[2]) then 0
    else if n == 4 && !IsTail(s[3]) then 0
    else n
  }

  predicate WellFormed(s: string) {
    s == "" || (HeadLength(s) > 0 && WellFormed(s[HeadLength(s)..]))
  }

  // --- cutting at a byte below 0x80 ---

  /** The head of `a` is the head of any text that goes on with a byte below 0x80. */
  lemma {:induction false} HeadBefore(a: string, c: char, b: string)
    requires a != "" && c as int < 0x80
    ensures HeadLength(a + [c] + b) == HeadLength(a)
  {
    var s := a + [c] + b;
    assert s[0] == a[0] && s[|a|] == c;
    assert forall i :: 0 <= i < |a| ==> s[i] == a[i];
  }

  lemma {:induction false} Separated(a: string, c: char, b: string)
    requires c as int < 0x80
    ensures WellFormed(a + [c] + b) <==> WellFormed(a) && WellFormed(b)
    decreases |a|
  {
    var s := a + [c] + b;
    if a == "" {
      assert s[0] == c && s[1..] == b;
    } else {
      HeadBefore(a, c, b);
      var n := HeadLength(a);
      if n > 0 {
        assert s[n..] == a[n..] + [c] + b;
        Separated(a[n..], c, b);
      }
    }
  }

  predicate IsAscii(s: string) {
    forall i :: 0 <= i < |s| ==> s[i] as int < 0x80
  }

  lemma {:induction false} AsciiFront(a: string, b: string)
    requires IsAscii(a)
    ensures WellFormed(a + b) <==> WellFormed(b)
    decreases |a|
  {
    if a == "" {
      assert a + b == b;
    } else {
      assert (a + b)[0] == a[0] && (a + b)[1..] == a[1..] + b;
      AsciiFront(a[1..], b);
    }
  }

  lemma {:induction false} AsciiIsWellFormed(s: string)
    requires IsAscii(s)
    ensures WellFormed(s)
  {
    AsciiFront(s, "");
    assert s + "" == s;
  }

  // --- what is well-formed ---

  function BytesOf(bytes: seq<Utf8.Byte>): (r: string)
    ensures |r| == |bytes| && forall i :: 0 <= i < |r| ==> r[i] == bytes[i] as char
  {
    seq(|bytes|, i requires 0 <= i < |bytes| => bytes[i] as char)
  }

  lemma {:induction false} EncodedHead(c: char, rest: string)
    ensures var bytes := BytesOf(Utf8.Encode(c as int)); HeadLength(bytes + rest) == |bytes|
  {
    var n := c as int;
    var bytes := BytesOf(Utf8.Encode(n));
    assert forall i :: 0 <= i < |bytes| ==> (bytes + rest)[i] == bytes[i];
  }

  lemma {:induction false} EncodedFront(c: char, text: string)
    ensures BytesOf(Utf8.EncodeText([c] + text)) == BytesOf(Utf8.Encode(c as int)) + BytesOf(Utf8.EncodeText(text))
  {
    Utf8.EncodeAppend([c], text);
    assert [c][..0] == "" && Utf8.EncodeText("") == [];
    assert Utf8.EncodeText([c]) == Utf8.Encode(c as int);
  }

  /** Every encoded text is well-formed. */
  lemma {:induction false} EncodedIsWellFormed(text: string)
    ensures WellFormed(BytesOf(Utf8.EncodeText(text)))
    decreases |text|
  {
    if text != "" {
      var c, rest := text[0], text[1..];
      assert text == [c] + rest;
      EncodedFront(c, rest);
      EncodedHead(c, BytesOf(Utf8.EncodeText(rest)));
      var bytes := BytesOf(Utf8.Encode(c as int));
      assert (bytes + BytesOf(Utf8.EncodeText(rest)))[|bytes|..] == BytesOf(Utf8.EncodeText(rest));
      EncodedIsWellFormed(rest);
    }
  }

  /** The code point of two, three and four bytes encodes as those bytes. */
  lemma {:induction false} TwoBytes(x: nat, y: nat)
    requires 2 <= x < 32 && y < 64
    ensures Utf8.Encode(64 * x + y) == [0xC0 + x, 0x80 + y]
  {
  }

  lemma {:induction false} ThreeBytes(x: nat, y: nat, z: nat)
    requires x < 16 && y < 64 && z < 64 && (x == 0 ==> y >= 32)
    ensures Utf8.Encode(4096 * x + 64 * y + z) == [0xE0 + x, 0x80 + y, 0x80 + z]
  {
    var c := 4096 * x + 64 * y + z;
    assert c / 64 == 64 * x + y;
    assert c / 4096 == x && c / 64 % 64 == y && c % 64 == z;
  }

  lemma {:induction false} FourBytes(x: nat, y: nat, z: nat, w: nat)
    requires x <= 4 && y < 64 && z < 64 && w < 64 && (x == 0 ==> y >= 16) && (x == 4 ==> y < 16)
    ensures var c := 262144 * x + 4096 * y + 64 * z + w;
            c < 0x110000 && Utf8.Encode(c) == [0xF0 + x, 0x80 + y, 0x80 + z, 0x80 + w]
  {
    var c := 262144 * x + 4096 * y + 64 * z + w;
    assert c / 64 == 4096 * x + 64 * y + z && c / 4096 == 64 * x + y;
    assert c / 262144 == x && c / 4096 % 64 == y && c / 64 % 64 == z && c % 64 == w;
  }

  lemma {:induction false} DecodedHead(s: string) returns (c: char)
    requires s != "" && HeadLength(s) > 0
    ensures BytesOf(Utf8.Encode(c as int)) == s[..HeadLength(s)]
  {
    hide Utf8.Encode;
    var n := HeadLength(s);
    var b0 := s[0] as int;
    if n == 1 {
      c := s[0];
      OneByte(s[0]);
    } else {
      var y := s[1] as int - 0x80;
      if n == 2 {
        TwoBytes(b0 - 0xC0, y);
        c := (64 * (b0 - 0xC0) + y) as char;
      } else {
        var z := s[2] as int - 0x80;
        if n == 3 {
          ThreeBytes(b0 - 0xE0, y, z);
          c := (4096 * (b0 - 0xE0) + 64 * y + z) as char;
        } else {
          var w := s[3] as int - 0x80;
          FourBytes(b0 - 0xF0, y, z, w);
          c := (262144 * (b0 - 0xF0) + 4096 * y + 64 * z + w) as char;
        }
      }
    }
  }

  lemma {:induction false} OneByte(c: char)
    requires c as int < 0x80
    ensures Utf8.Encode(c as int) == [c as int]
  {
  }

  /** And every well-formed text encodes one. */
  lemma {:induction false} Decoded(s: string) returns (text: string)
    requires WellFormed(s)
    ensures BytesOf(Utf8.EncodeText(text)) == s
    decreases |s|
  {
    if s == "" {
      text := "";
    } else {
      var n := HeadLength(s);
      var c := DecodedHead(s);
      var rest := Decoded(s[n..]);
      text := [c] + rest;
      EncodedFront(c, rest);
      assert s == s[..n] + s[n..];
    }
  }
}
