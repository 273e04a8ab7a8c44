/** UTF-8 (section 3 of RFC 3629), and the byte offsets of python/sciforge/corpus/runner.py. */
module Utf8 {

  type Byte = b: nat | b < 256

  /** The bytes of one code point. */
  function Encode(c: nat): (r: seq<Byte>)
    requires c < 0x110000
    ensures 1 <= |r| <= 4
    ensures !IsContinuation(r[0]) && forall i :: 1 <= i < |r| ==> IsContinuation(r[i])
  {
    if c < 0x80 then [c]
    else if c < 0x800 then [0xC0 + c / 64, 0x80 + c % 64]
    else if c < 0x10000 then [0xE0 + c / 4096, 0x80 + c / 64 % 64, 0x80 + c % 64]
    else [0xF0 + c / 262144, 0x80 + c / 4096 % 64, 0x80 + c / 64 % 64, 0x80 + c % 64]
  }

  predicate IsContinuation(b: Byte) {
    0x80 <= b < 0xC0
  }

  /** Six more bits, those of a continuation byte. */
  function More(high: int, b: Byte): int {
    high * 0x40 + b as int % 0x40
  }

  /** The encoding of RFC 3629, read the other way: the first byte says how many bytes there are, the bits behind the
      marks are the code point's, and no shorter encoding would do. */
  lemma {:induction false} EncodeExactly(c: nat)
    requires c < 0x110000
    ensures var r := Encode(c);
            && (|r| == 1 <==> c < 0x80) && (|r| == 2 <==> 0x80 <= c < 0x800)
            && (|r| == 3 <==> 0x800 <= c < 0x10000) && (|r| == 4 <==> 0x10000 <= c)
            && (forall i :: 1 <= i < |r| ==> 0x80 <= r[i] < 0xC0)
            && (|r| == 1 ==> c == r[0])
            && (|r| == 2 ==> 0xC0 <= r[0] < 0xE0 && c == More(r[0] as int - 0xC0, r[1]))
            && (|r| == 3 ==> 0xE0 <= r[0] < 0xF0 && c == More(More(r[0] as int - 0xE0, r[1]), r[2]))
            && (|r| == 4 ==> 0xF0 <= r[0] < 0xF8 && c == More(More(More(r[0] as int - 0xF0, r[1]), r[2]), r[3]))
  {
    SixBits(c);
    SixBits(c / 64);
    SixBits(c / 4096);
    Shifted(c);
  }

  lemma {:induction false} SixBits(c: nat)
    ensures (0x80 + c % 64) % 0x40 == c % 64
  {
  }

  lemma {:induction false} Shifted(c: nat)
    ensures c == c / 64 * 64 + c % 64 && c / 64 == c / 4096 * 64 + c / 64 % 64
    ensures c / 4096 == c / 262144 * 64 + c / 4096 % 64
  {
  }

  /** `text.encode("utf-8")`; a Dafny char is a code point that is no surrogate, as the encoder demands. */
  function EncodeText(text: string): seq<Byte> {
    if text == "" then [] else EncodeText(text[..|text| - 1]) + Encode(text[|text| - 1] as int)
  }

  lemma {:induction false} EncodeAppend(a: string, b: string)
    ensures EncodeText(a + b) == EncodeText(a) + EncodeText(b)
    decreases |b|
  {
    hide Encode;
    if b == "" {
      assert a + b == a;
    } else {
      EncodeAppend(a, b[..|b| - 1]);
      var s := a + b;
      assert s[..|s| - 1] == a + b[..|b| - 1] && s[|s| - 1] == b[|b| - 1];
      assert EncodeText(s) == EncodeText(a) + EncodeText(b[..|b| - 1]) + Encode(b[|b| - 1] as int);
    }
  }

  /** The byte at which character `i` starts. */
  function Start(text: string, i: nat): nat
    requires i <= |text|
  {
    |EncodeText(text[..i])|
  }

  lemma {:induction false} StartStep(text: string, i: nat)
    requires i < |text|
    ensures Start(text, i + 1) == Start(text, i) + |Encode(text[i] as int)|
  {
    assert text[..i + 1][..i] == text[..i];
  }

  lemma {:induction false} PrefixBytes(text: string, i: nat)
    requires i <= |text|
    ensures Start(text, i) <= |EncodeText(text)| && EncodeText(text)[..Start(text, i)] == EncodeText(text[..i])
  {
    EncodeAppend(text[..i], text[i..]);
    assert text[..i] + text[i..] == text;
  }

  /** A byte offset that is the end of the text or does not stand on a continuation byte. */
  predicate IsBoundary(text: string, b: int) {
    var bytes := EncodeText(text);
    b == |bytes| || (0 <= b < |bytes| && !IsContinuation(bytes[b]))
  }

  /** The boundaries are the starts of characters and the end, and no other offset. */
  lemma {:induction false} BoundaryIsStart(text: string, b: int) returns (i: int)
    ensures if IsBoundary(text, b) then 0 <= i <= |text| && Start(text, i) == b
            else forall j :: 0 <= j <= |text| ==> Start(text, j) != b
    decreases |text|
  {
    var bytes := EncodeText(text);
    assert text[..|text|] == text;
    if b == |bytes| {
      i := |text|;
    } else if text == "" {
      i := 0;
    } else {
      var head, last := text[..|text| - 1], Encode(text[|text| - 1] as int);
      var n := |EncodeText(head)|;
      assert forall j :: 0 <= j < |text| ==> text[..j] == head[..j];
      assert head[..|head|] == head;
      i := BoundaryIsStart(head, b);
      assert 0 <= b < n ==> bytes[b] == EncodeText(head)[b];
      assert n <= b < |bytes| ==> bytes[b] == last[b - n];
      if !IsBoundary(text, b) {
        assert b != n;
        assert !IsBoundary(head, b);
        forall j | 0 <= j <= |text| ensures Start(text, j) != b {
          if j < |text| {
            assert Start(text, j) == Start(head, j);
          }
        }
      } else {
        assert IsBoundary(head, b);
        assert Start(text, i) == Start(head, i);
      }
    }
  }

  /** The keys of `offsets` are exactly the boundaries, each with the number of characters before it. */
  ghost predicate IsOffsetsOf(text: string, offsets: map<int, nat>) {
    && (forall b :: b in offsets <==> IsBoundary(text, b))
    && (forall b :: b in offsets ==> offsets[b] <= |text| && Start(text, offsets[b]) == b)
  }

  /** `_char_offsets`. */
  method CharOffsets(text: string) returns (offsets: map<int, nat>)
    ensures IsOffsetsOf(text, offsets)
  {
    hide IsBoundary, Encode, Start;
    offsets := map[];
    var byte := 0;
    assert Start(text, 0) == 0 by { assert text[..0] == ""; StartsAtZero(text); }
    for index := 0 to |text|
      invariant byte == Start(text, index)
      invariant forall i :: 0 <= i < index ==> Start(text, i) in offsets
      invariant forall b :: b in offsets ==> offsets[b] < index && Start(text, offsets[b]) == b
    {
      StartStep(text, index);
      offsets := offsets[byte := index];
      byte := byte + |Encode(text[index] as int)|;
    }
    offsets := offsets[byte := |text|];
    forall b ensures b in offsets <==> IsBoundary(text, b) {
      var i := BoundaryIsStart(text, b);
    }
  }

  lemma {:induction false} StartsAtZero(text: string)
    ensures Start(text, 0) == 0
  {
  }

  /** Between two boundaries the bytes are the encoding of the characters between. */
  lemma {:induction false} SliceMatches(text: string, i: nat, j: nat)
    requires i <= j <= |text|
    ensures Start(text, i) <= Start(text, j) <= |EncodeText(text)|
    ensures EncodeText(text)[Start(text, i)..Start(text, j)] == EncodeText(text[i..j])
  {
    hide EncodeText;
    PrefixBytes(text, j);
    EncodeAppend(text[..i], text[i..j]);
    assert text[..i] + text[i..j] == text[..j];
    var upTo, from := EncodeText(text[..j]), EncodeText(text[..i]);
    assert upTo[|from|..] == EncodeText(text[i..j]);
  }

  lemma {:induction false} StartMonotone(text: string, i: nat, j: nat)
    requires i < j <= |text|
    ensures Start(text, i) < Start(text, j)
    decreases j - i
  {
    StartStep(text, j - 1);
    if i < j - 1 {
      StartMonotone(text, i, j - 1);
    }
  }

  // --- `_rust_match` ---

  /** A span of a rust-regex entry: null, `[]` (a group that took no part), or two byte offsets. */
  datatype RustSpan = Absent | Unset | Ends(start: int, end: int)

  /** `[s, e]`, or the list of the spans of group 0 and the others. */
  datatype RustMatch = Flat(start: int, end: int) | Nested(spans: seq<RustSpan>)

  /** A span of the observable: `[-1, -1]`, `[]`, or two character indices. */
  datatype CharSpan = Minus | Empty | At(start: nat, end: nat)

  /** What the reader gives; `Crash` is the IndexError on an entry without spans. */
  datatype Normalised = Splits | Crash | Match(span: CharSpan, groups: seq<CharSpan>)

  datatype Option<T> = None | Some(value: T)

  function Spans(m: RustMatch): seq<RustSpan> {
    match m
    case Flat(s, e) => [Ends(s, e)]
    case Nested(spans) => spans
  }

  function ReadSpan(p: RustSpan, offsets: map<int, nat>): Option<CharSpan> {
    match p
    case Absent => Some(Minus)
    case Unset => Some(Empty)
    case Ends(s, e) => if s in offsets && e in offsets then Some(At(offsets[s], offsets[e])) else None
  }

  function RustMatchOf(m: RustMatch, offsets: map<int, nat>): Normalised {
    var pairs := Spans(m);
    if exists i :: 0 <= i < |pairs| && ReadSpan(pairs[i], offsets) == None then Splits
    else if pairs == [] then Crash
    else
      var spans := seq(|pairs|, i requires 0 <= i < |pairs| =>
                         match ReadSpan(pairs[i], offsets) case Some(s) => s case None => Minus);
      Match(spans[0], spans[1..])
  }

  ghost predicate OnBoundaries(text: string, p: RustSpan) {
    p.Ends? ==> IsBoundary(text, p.start) && IsBoundary(text, p.end)
  }

  /** `c` reads `p`: absent and unset spans as they are, the others as the characters whose bytes they delimit. */
  ghost predicate Selects(text: string, p: RustSpan, c: CharSpan) {
    match p
    case Absent => c == Minus
    case Unset => c == Empty
    case Ends(s, e) =>
      && c.At? && c.start <= |text| && c.end <= |text|
      && s == Start(text, c.start) && e == Start(text, c.end)
      && (s <= e ==>
          c.start <= c.end && e <= |EncodeText(text)| && EncodeText(text)[s..e] == EncodeText(text[c.start..c.end]))
  }

  lemma {:induction false} SpanSelects(text: string, offsets: map<int, nat>, p: RustSpan)
    requires IsOffsetsOf(text, offsets)
    ensures ReadSpan(p, offsets) == None <==> !OnBoundaries(text, p)
    ensures OnBoundaries(text, p) ==> Selects(text, p, ReadSpan(p, offsets).value)
  {
    hide EncodeText, IsBoundary, Start;
    if p.Ends? && OnBoundaries(text, p) {
      var i, j := offsets[p.start], offsets[p.end];
      if p.start <= p.end {
        if i > j {
          StartMonotone(text, j, i);
        } else {
          SliceMatches(text, i, j);
        }
      }
    }
  }

  /** A rust match is refused exactly when a span that took part starts or ends inside a code point; otherwise
      every span keeps selecting the same text. */
  lemma {:induction false} RustMatchSound(text: string, offsets: map<int, nat>, m: RustMatch)
    requires IsOffsetsOf(text, offsets)
    ensures RustMatchOf(m, offsets) == Splits <==>
            exists i :: 0 <= i < |Spans(m)| && !OnBoundaries(text, Spans(m)[i])
    ensures RustMatchOf(m, offsets) == Crash <==> Spans(m) == []
    ensures RustMatchOf(m, offsets).Match? ==>
              && |RustMatchOf(m, offsets).groups| == |Spans(m)| - 1
              && Selects(text, Spans(m)[0], RustMatchOf(m, offsets).span)
              && forall i :: 1 <= i < |Spans(m)| ==> Selects(text, Spans(m)[i], RustMatchOf(m, offsets).groups[i - 1])
  {
    hide IsOffsetsOf, OnBoundaries, Selects;
    var pairs := Spans(m);
    forall i | 0 <= i < |pairs|
      ensures ReadSpan(pairs[i], offsets) == None <==> !OnBoundaries(text, pairs[i])
      ensures OnBoundaries(text, pairs[i]) ==> Selects(text, pairs[i], ReadSpan(pairs[i], offsets).value)
    {
      SpanSelects(text, offsets, pairs[i]);
    }
  }
}
