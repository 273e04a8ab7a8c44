/** The checkout scanner and the verdict of tools/check-pins.sh. */
module Pins {
  import Decimal

  datatype Option<T> = None | Some(value: T)

  // --- what the patterns match ---

  predicate IsSpace(c: char) {
    c == ' ' || '\t' <= c <= '\r'
  }

  predicate IsQuote(c: char) {
    c == '"' || c == '\''
  }

  predicate IsDigit(c: char) {
    '0' <= c <= '9'
  }

  predicate At(s: string, i: nat, t: string) {
    i + |t| <= |s| && s[i..i + |t|] == t
  }

  function SkipSpaces(s: string, i: nat): (k: nat)
    requires i <= |s|
    ensures i <= k <= |s| && (k < |s| ==> !IsSpace(s[k])) && forall j :: i <= j < k ==> IsSpace(s[j])
    decreases |s| - i
  {
    if i < |s| && IsSpace(s[i]) then SkipSpaces(s, i + 1) else i
  }

  function SkipQuote(s: string, i: nat): nat {
    if i < |s| && IsQuote(s[i]) then i + 1 else i
  }

  /** A line that starts a step: indentation, a dash, a blank. */
  predicate IsItem(line: string) {
    var k := SkipSpaces(line, 0);
    k + 1 < |line| && line[k] == '-' && IsSpace(line[k + 1])
  }

  const REPOSITORY := "repository:"
  const SCIFORGE := "RECHE23/sciforge"
  const REF := "ref:"

  predicate NamesAt(line: string, i: nat) {
    At(line, i, REPOSITORY)
    && var j := SkipQuote(line, SkipSpaces(line, i + |REPOSITORY|));
    At(line, j, SCIFORGE)
    && var k := SkipQuote(line, j + |SCIFORGE|);
    k == |line| || IsSpace(line[k])
  }

  /** The line says `repository: RECHE23/sciforge`, quoted or not. */
  predicate Names(line: string) {
    exists i :: 0 <= i < |line| && NamesAt(line, i)
  }

  predicate IsRef(line: string) {
    At(line, SkipSpaces(line, 0), REF)
  }

  function DropQuotes(s: string): string {
    if s == "" then "" else (if IsQuote(s[0]) then "" else [s[0]]) + DropQuotes(s[1..])
  }

  function UntilSpace(s: string): string {
    if s == "" || IsSpace(s[0]) then "" else [s[0]] + UntilSpace(s[1..])
  }

  /** The value of a `ref:` line. */
  function RefOf(line: string): string
    requires IsRef(line)
  {
    UntilSpace(DropQuotes(line[SkipSpaces(line, SkipSpaces(line, 0) + |REF|)..]))
  }

  /** The parts of `s` between the dots. */
  function Fields(s: string): (r: seq<string>)
    ensures |r| >= 1
  {
    if s == "" then [""]
    else
      var rest := Fields(s[1..]);
      if s[0] == '.' then [""] + rest else [[s[0]] + rest[0]] + rest[1..]
  }

  predicate IsNumber(s: string) {
    s != "" && forall i :: 0 <= i < |s| ==> IsDigit(s[i])
  }

  predicate IsVersion(s: string) {
    s != "" && s[0] == 'v'
    && var f := Fields(s[1..]);
    |f| == 3 && IsNumber(f[0]) && IsNumber(f[1]) && IsNumber(f[2])
  }

  // --- a value may be quoted ---

  /** A value in the file: as it is, or between one kind of quotes. */
  predicate IsQuoting(q: string) {
    q == "" || q == "\"" || q == "'"
  }

  predicate Blank(s: string) {
    forall i :: 0 <= i < |s| ==> IsSpace(s[i])
  }

  predicate Plain(s: string) {
    forall i :: 0 <= i < |s| ==> !IsSpace(s[i]) && !IsQuote(s[i])
  }

  predicate Ends(tail: string) {
    tail == "" || IsSpace(tail[0])
  }

  lemma {:induction false} SkipsBlank(a: string, b: string, c: string)
    requires Blank(b) && (c == "" || !IsSpace(c[0]))
    ensures SkipSpaces(a + b + c, |a|) == |a| + |b|
  {
    var s := a + b + c;
    var k := SkipSpaces(s, |a|);
    assert forall i :: |a| <= i < |a| + |b| ==> s[i] == b[i - |a|];
    assert c != "" ==> s[|a| + |b|] == c[0];
  }

  lemma {:induction false} DropQuotesAppend(a: string, b: string)
    ensures DropQuotes(a + b) == DropQuotes(a) + DropQuotes(b)
    decreases |a|
  {
    if a == "" {
      assert a + b == b;
    } else {
      assert (a + b)[1..] == a[1..] + b;
      DropQuotesAppend(a[1..], b);
    }
  }

  lemma {:induction false} DropQuotesPlain(s: string)
    requires Plain(s)
    ensures DropQuotes(s) == s
    decreases |s|
  {
    if s != "" {
      DropQuotesPlain(s[1..]);
    }
  }

  lemma {:induction false} DropQuotesEnds(tail: string)
    requires Ends(tail)
    ensures Ends(DropQuotes(tail))
  {
  }

  lemma {:induction false} UntilSpacePlain(s: string, tail: string)
    requires Plain(s) && Ends(tail)
    ensures UntilSpace(s + tail) == s
    decreases |s|
  {
    if s == "" {
      assert s + tail == tail;
    } else {
      assert (s + tail)[1..] == s[1..] + tail;
      UntilSpacePlain(s[1..], tail);
    }
  }

  lemma {:induction false} Middle(a: string, b: string, c: string)
    ensures At(a + b + c, |a|, b) && (a + b + c)[|a| + |b|..] == c && |a + b + c| == |a| + |b| + |c|
  {
    assert (a + b + c)[|a|..|a| + |b|] == b;
  }

  lemma {:induction false} DropQuoting(q: string)
    requires IsQuoting(q)
    ensures DropQuotes(q) == ""
  {
    assert q != "" ==> q[1..] == "" && DropQuotes(q[1..]) == "";
  }

  lemma {:induction false} ValueRead(q: string, v: string, tail: string)
    requires IsQuoting(q) && Plain(v) && Ends(tail)
    ensures UntilSpace(DropQuotes(q + v + q + tail)) == v
  {
    hide IsQuoting, Plain, Ends, DropQuotes, UntilSpace;
    DropQuotesAppend(q + v + q, tail);
    DropQuotesAppend(q + v, q);
    DropQuotesAppend(q, v);
    DropQuoting(q);
    DropQuotesPlain(v);
    DropQuotesEnds(tail);
    UntilSpacePlain(v, DropQuotes(tail));
    assert "" + v + "" + DropQuotes(tail) == v + DropQuotes(tail);
  }

  /** The value of a ref line is read whatever its indentation, its quotes and what follows a blank after it. */
  lemma {:induction false} RefRead(indent: string, gap: string, q: string, v: string, tail: string)
    requires Blank(indent) && Blank(gap) && IsQuoting(q) && Plain(v) && v != "" && Ends(tail)
    ensures var line := indent + REF + gap + (q + v + q + tail);
            IsRef(line) && RefOf(line) == v
  {
    hide Plain, Ends, Blank, At, IsQuoting, DropQuotes, UntilSpace, SkipSpaces, IsSpace;
    var value := q + v + q + tail;
    var line := indent + REF + gap + value;
    Assoc(indent, REF, gap, value);
    RefStarts(gap + value);
    SkipsBlank("", indent, REF + (gap + value));
    assert "" + indent == indent;
    Middle(indent, REF, gap + value);
    Assoc(q, v, q, tail);
    PlainStart(q, v, q + tail);
    SkipsBlank(indent + REF, gap, value);
    Middle(indent + REF, gap, value);
    ValueRead(q, v, tail);
  }

  lemma {:induction false} Assoc(a: string, b: string, c: string, d: string)
    ensures a + b + c + d == a + b + (c + d) && a + b + c + d == a + (b + (c + d))
  {
  }

  lemma {:induction false} RefStarts(s: string)
    ensures REF + s != "" && !IsSpace((REF + s)[0])
  {
  }

  lemma {:induction false} PlainStart(q: string, v: string, tail: string)
    requires IsQuoting(q) && Plain(v) && v != ""
    ensures (q + v + tail) != "" && !IsSpace((q + v + tail)[0])
  {
    assert (q + v + tail)[0] == if q == "" then v[0] else q[0];
  }

  lemma {:induction false} QuoteSkipped(a: string, q: string, b: string)
    requires IsQuoting(q) && (q == "" ==> b == "" || !IsQuote(b[0]))
    ensures SkipQuote(a + q + b, |a|) == |a| + |q|
  {
    assert b != "" ==> (a + q + b)[|a| + |q|] == b[0];
    assert q != "" ==> (a + q + b)[|a|] == q[0];
  }

  /** A repository line is recognised whatever stands in front of it, its quotes, and what follows a blank. */
  lemma {:induction false} NameRead(front: string, gap: string, q: string, r: string, tail: string)
    requires Blank(gap) && IsQuoting(q) && IsQuoting(r) && Ends(tail)
    ensures Names(front + REPOSITORY + gap + (q + SCIFORGE + r + tail))
  {
    hide Blank, At, IsQuoting, Ends, SkipSpaces, SkipQuote, IsSpace, IsQuote, Names;
    var value := q + SCIFORGE + r + tail;
    var line := front + REPOSITORY + gap + value;
    var a := front + REPOSITORY + gap;
    NameParts(a, q, r, tail);
    Assoc(front, REPOSITORY, gap, value);
    Middle(front, REPOSITORY, gap + value);
    SciforgeStarts(q, r + tail);
    Assoc(q, SCIFORGE, r, tail);
    SkipsBlank(front + REPOSITORY, gap, value);
    QuoteSkipped(a, q, SCIFORGE + (r + tail));
    Middle(a + q, SCIFORGE, r + tail);
    TailStarts(tail);
    QuoteSkipped(a + q + SCIFORGE, r, tail);
    TailAt(a + q + SCIFORGE + r, tail);
    NamesHere(line, |front|, |a|, |a| + |q|, |a| + |q| + |SCIFORGE| + |r|);
  }

  lemma {:induction false} NameParts(a: string, q: string, r: string, tail: string)
    ensures var line := a + (q + SCIFORGE + r + tail);
            && line == a + q + (SCIFORGE + (r + tail))
            && line == (a + q) + SCIFORGE + (r + tail)
            && line == (a + q + SCIFORGE) + r + tail
            && line == (a + q + SCIFORGE + r) + tail
            && |a + q + SCIFORGE + r| == |a| + |q| + |SCIFORGE| + |r|
  {
  }

  lemma {:induction false} NamesHere(line: string, i: nat, v: nat, j: nat, k: nat)
    requires i < |line| && At(line, i, REPOSITORY) && SkipSpaces(line, i + |REPOSITORY|) == v && SkipQuote(line, v) == j
    requires At(line, j, SCIFORGE) && SkipQuote(line, j + |SCIFORGE|) == k
             && (k == |line| || (k < |line| && IsSpace(line[k])))
    ensures Names(line)
  {
    hide SkipSpaces, SkipQuote, IsSpace, At;
    assert NamesAt(line, i);
  }

  lemma {:induction false} SciforgeStarts(q: string, tail: string)
    requires IsQuoting(q)
    ensures var s := q + SCIFORGE + tail; s != "" && !IsSpace(s[0])
    ensures SCIFORGE + tail != "" && !IsQuote((SCIFORGE + tail)[0])
  {
    assert (q + SCIFORGE + tail)[0] == if q == "" then 'R' else q[0];
  }

  lemma {:induction false} TailStarts(tail: string)
    requires Ends(tail)
    ensures tail == "" || !IsQuote(tail[0])
  {
  }

  lemma {:induction false} TailAt(b: string, tail: string)
    requires Ends(tail)
    ensures |b| == |b + tail| || IsSpace((b + tail)[|b|])
  {
  }

  // --- the patterns match nothing else ---

  /** A step starts exactly at a line that is blanks, a dash and a blank. */
  lemma {:induction false} ItemExactly(line: string, indent: string, c: char, rest: string)
    ensures Blank(indent) && IsSpace(c) ==> IsItem(indent + "-" + [c] + rest)
    ensures IsItem(line) ==>
              exists k :: 0 <= k < |line| - 1 && Blank(line[..k]) && line[k] == '-' && IsSpace(line[k + 1])
  {
    var l := indent + "-" + [c] + rest;
    if Blank(indent) && IsSpace(c) {
      SkipsBlank("", indent, "-" + [c] + rest);
      assert "" + indent + ("-" + [c] + rest) == l;
      assert l[|indent|] == '-' && l[|indent| + 1] == c;
    }
    var k := SkipSpaces(line, 0);
    assert Blank(line[..k]);
  }

  /** A line is a ref line exactly when it is blanks, then `ref:`. */
  lemma {:induction false} RefLineExactly(line: string, indent: string, rest: string)
    ensures Blank(indent) ==> IsRef(indent + REF + rest)
    ensures IsRef(line) ==> exists k :: 0 <= k <= |line| - |REF| && Blank(line[..k]) && line[k..k + |REF|] == REF
  {
    if Blank(indent) {
      SkipsBlank("", indent, REF + rest);
      assert "" + indent + (REF + rest) == indent + REF + rest;
      assert (indent + REF + rest)[|indent|..|indent| + |REF|] == REF;
    }
    var k := SkipSpaces(line, 0);
    assert Blank(line[..k]);
  }

  predicate NoBlank(s: string) {
    forall i :: 0 <= i < |s| ==> !IsSpace(s[i])
  }

  lemma {:induction false} UntilSpaceWord(word: string, tail: string)
    requires NoBlank(word) && Ends(tail)
    ensures UntilSpace(word + tail) == word
    decreases |word|
  {
    if word == "" {
      assert word + tail == tail;
    } else {
      assert (word + tail)[1..] == word[1..] + tail;
      UntilSpaceWord(word[1..], tail);
    }
  }

  lemma {:induction false} DropQuotesNoBlank(s: string)
    requires NoBlank(s)
    ensures NoBlank(DropQuotes(s))
    decreases |s|
  {
    if s != "" {
      DropQuotesNoBlank(s[1..]);
    }
  }

  /** The value of any ref line is its first word, without the quotes in it; none for a line without a word. */
  lemma {:induction false} RefOfExactly(indent: string, gap: string, word: string, tail: string)
    requires Blank(indent) && Blank(gap) && NoBlank(word) && (if word == "" then tail == "" else Ends(tail))
    ensures var line := indent + REF + gap + (word + tail); IsRef(line) && RefOf(line) == DropQuotes(word)
  {
    hide Ends, Blank, At, DropQuotes, UntilSpace, SkipSpaces, IsSpace;
    var value := word + tail;
    Assoc(indent, REF, gap, value);
    RefStarts(gap + value);
    SkipsBlank("", indent, REF + (gap + value));
    assert "" + indent == indent;
    Middle(indent, REF, gap + value);
    SkipsBlank(indent + REF, gap, value);
    Middle(indent + REF, gap, value);
    EndsAlways(word, tail);
    DropQuotesAppend(word, tail);
    DropQuotesNoBlank(word);
    DropQuotesEnds(tail);
    UntilSpaceWord(DropQuotes(word), DropQuotes(tail));
  }

  lemma {:induction false} EndsAlways(word: string, tail: string)
    requires if word == "" then tail == "" else Ends(tail)
    ensures Ends(tail)
  {
  }

  /** Every ref line has a first word, which may be empty. */
  lemma {:induction false} RefLineParts(line: string)
      returns (indent: string, gap: string, word: string, tail: string)
    requires IsRef(line)
    ensures line == indent + REF + gap + (word + tail)
    ensures Blank(indent) && Blank(gap) && NoBlank(word) && if word == "" then tail == "" else Ends(tail)
  {
    hide IsSpace;
    var k := SkipSpaces(line, 0);
    var v := k + |REF|;
    indent := line[..k];
    gap := BlankPart(line, v);
    var value := line[v + |gap|..];
    word, tail := FirstWord(value);
    assert line == indent + line[k..] && line[k..] == REF + line[v..];
    Assoc(indent, REF, gap, value);
  }

  lemma {:induction false} FirstWord(s: string) returns (word: string, tail: string)
    requires s == "" || !IsSpace(s[0])
    ensures s == word + tail && NoBlank(word) && if word == "" then tail == "" else Ends(tail)
    decreases |s|
  {
    if s == "" || |s| == 1 || IsSpace(s[1]) {
      word := if s == "" then "" else [s[0]];
      tail := if s == "" then "" else s[1..];
    } else {
      word, tail := FirstWord(s[1..]);
      word := [s[0]] + word;
    }
  }

  /** A line names SciForge exactly when it holds `repository:`, blanks, at most one quote, the name, at most one quote,
      and then ends or goes on with a blank. */
  lemma {:induction false} NamesExactly(line: string)
      returns (front: string, gap: string, q: string, r: string, tail: string)
    requires Names(line)
    ensures line == front + REPOSITORY + gap + (q + SCIFORGE + r + tail)
    ensures Blank(gap) && IsQuoting(q) && IsQuoting(r) && Ends(tail)
  {
    hide At, IsSpace, IsQuote, SkipSpaces, SkipQuote, Blank, IsQuoting, Ends, NamesAt;
    var i :| 0 <= i < |line| && NamesAt(line, i);
    AtPlace(line, i);
    var v := i + |REPOSITORY|;
    gap := BlankPart(line, v);
    q := QuotePart(line, v + |gap|);
    var j := v + |gap| + |q|;
    var rest := line[j + |SCIFORGE|..];
    r := QuotePart(line, j + |SCIFORGE|);
    front, tail := line[..i], rest[|r|..];
    assert line == front + line[i..];
    NamePieces(line, front, gap, q, r, tail, line[v..], line[v + |gap|..]);
  }

  lemma {:induction false} AtPlace(line: string, i: nat)
    requires i < |line| && NamesAt(line, i)
    ensures var v := i + |REPOSITORY|;
            && v <= |line| && line[i..] == REPOSITORY + line[v..]
            && var j := SkipQuote(line, SkipSpaces(line, v));
               && j + |SCIFORGE| <= |line| && line[j..] == SCIFORGE + line[j + |SCIFORGE|..]
               && var k := SkipQuote(line, j + |SCIFORGE|); k <= |line| && Ends(line[k..])
  {
    hide IsSpace, IsQuote, SkipSpaces;
  }

  lemma {:induction false} BlankPart(line: string, i: nat) returns (gap: string)
    requires i <= |line|
    ensures Blank(gap) && i + |gap| == SkipSpaces(line, i) && line[i..] == gap + line[i + |gap|..]
  {
    gap := line[i..SkipSpaces(line, i)];
  }

  lemma {:induction false} QuotePart(line: string, i: nat) returns (q: string)
    requires i <= |line|
    ensures IsQuoting(q) && i + |q| == SkipQuote(line, i) <= |line| && line[i..] == q + line[i + |q|..]
  {
    q := line[i..SkipQuote(line, i)];
    assert q != "" ==> q == [line[i]];
  }

  lemma {:induction false} NamePieces(line: string, front: string, gap: string, q: string, r: string, tail: string,
                                      v: string, w: string)
    requires line == front + (REPOSITORY + v) && v == gap + w && w == q + (SCIFORGE + (r + tail))
    ensures line == front + REPOSITORY + gap + (q + SCIFORGE + r + tail)
  {
    assert q + (SCIFORGE + (r + tail)) == q + SCIFORGE + r + tail;
    assert front + REPOSITORY + (gap + w) == front + REPOSITORY + gap + w;
  }

  // --- one record a step ---

  /** Lines are numbered from 1. A reference that pins no version is at its ref's line, or, with no ref, at the
      repository's. */
  datatype Record = Pinned(version: string, line: nat) | Unpinned(ref: string, line: nat)

  /** The first list item from `i` on, or the end. */
  function NextItem(lines: seq<string>, i: nat): (k: nat)
    requires i <= |lines|
    ensures i <= k <= |lines| && (k < |lines| ==> IsItem(lines[k])) && forall j :: i <= j < k ==> !IsItem(lines[j])
    decreases |lines| - i
  {
    if i == |lines| || IsItem(lines[i]) then i else NextItem(lines, i + 1)
  }

  /** The last line from `a` to `b` that names SciForge. */
  function LastName(lines: seq<string>, a: nat, b: nat): (k: Option<nat>)
    requires a <= b <= |lines|
    ensures k.Some? ==> a <= k.value < b && Names(lines[k.value]) && forall i :: k.value < i < b ==> !Names(lines[i])
    ensures k.None? ==> forall i :: a <= i < b ==> !Names(lines[i])
    decreases b
  {
    if a == b then None else if Names(lines[b - 1]) then Some(b - 1) else LastName(lines, a, b - 1)
  }

  function LastRef(lines: seq<string>, a: nat, b: nat): (k: Option<nat>)
    requires a <= b <= |lines|
    ensures k.Some? ==> a <= k.value < b && IsRef(lines[k.value]) && forall i :: k.value < i < b ==> !IsRef(lines[i])
    ensures k.None? ==> forall i :: a <= i < b ==> !IsRef(lines[i])
    decreases b
  {
    if a == b then None else if IsRef(lines[b - 1]) then Some(b - 1) else LastRef(lines, a, b - 1)
  }

  function RecordAt(ref: string, refLine: nat, nameLine: nat): Record {
    if IsVersion(ref) then Pinned(ref, refLine)
    else if ref == "" then Unpinned("", nameLine)
    else Unpinned(ref, refLine)
  }

  /** What a step says: nothing unless it names SciForge, else one record with its own last ref. */
  function StepRecord(lines: seq<string>, a: nat, b: nat): seq<Record>
    requires a <= b <= |lines|
  {
    match LastName(lines, a, b)
    case None => []
    case Some(name) =>
      match LastRef(lines, a, b)
      case None => [RecordAt("", 0, name + 1)]
      case Some(ref) => [RecordAt(RefOf(lines[ref]), ref + 1, name + 1)]
  }

  function RecordsFrom(lines: seq<string>, a: nat): seq<Record>
    requires a <= |lines|
    decreases |lines| - a
  {
    if a == |lines| then []
    else StepRecord(lines, a, NextItem(lines, a + 1)) + RecordsFrom(lines, NextItem(lines, a + 1))
  }

  function Records(lines: seq<string>): seq<Record> {
    RecordsFrom(lines, 0)
  }

  /** `flush`, on the four variables of the scanner. */
  function Flushed(repo: bool, repoLine: nat, ref: string, refLine: nat): seq<Record> {
    if repo then [RecordAt(ref, refLine, repoLine)] else []
  }

  /** The four variables say what the lines from `a` to `b` hold. */
  ghost predicate Tracks(lines: seq<string>, a: nat, b: nat, repo: bool, repoLine: nat, ref: string, refLine: nat) {
    && a <= b <= |lines|
    && repo == LastName(lines, a, b).Some? && (repo ==> repoLine == LastName(lines, a, b).value + 1)
    && (match LastRef(lines, a, b)
        case None => ref == "" && refLine == 0
        case Some(k) => ref == RefOf(lines[k]) && refLine == k + 1)
  }

  lemma {:induction false} FlushIsStepRecord(lines: seq<string>, a: nat, b: nat, repo: bool, repoLine: nat, ref: string,
                                             refLine: nat)
    requires Tracks(lines, a, b, repo, repoLine, ref, refLine)
    ensures Flushed(repo, repoLine, ref, refLine) == StepRecord(lines, a, b)
  {
  }

  /** The scanner has read `i` lines; the open step began at `a`, and `out` holds the records of the steps before. */
  ghost predicate Scanned(lines: seq<string>, i: nat, a: nat, out: seq<Record>) {
    && a <= i <= |lines| && (i > 0 ==> a < i <= NextItem(lines, a + 1))
    && Records(lines) == out + RecordsFrom(lines, a)
  }

  /** The one-pass scanner emits what the steps say. */
  method ScanCheckouts(lines: seq<string>) returns (out: seq<Record>)
    ensures out == Records(lines)
  {
    hide IsItem, Names, IsRef, RefOf, StepRecord, Tracks, Scanned, Flushed, Records;
    out := [];
    var repo, repoLine, ref, refLine := false, 0, "", 0;
    ghost var a := 0;
    TracksNothing(lines, 0);
    ScanStarts(lines);
    for i := 0 to |lines|
      invariant a <= i && Tracks(lines, a, i, repo, repoLine, ref, refLine)
      invariant Scanned(lines, i, a, out)
    {
      if IsItem(lines[i]) {
        FlushIsStepRecord(lines, a, i, repo, repoLine, ref, refLine);
        ScannedItem(lines, i, a, out);
        out := out + Flushed(repo, repoLine, ref, refLine);
        repo, repoLine, ref, refLine := false, 0, "", 0;
        a := i;
        TracksNothing(lines, i);
      }
      ScannedLine(lines, i, a, out);
      TracksLine(lines, a, i, repo, repoLine, ref, refLine);
      if Names(lines[i]) {
        repo, repoLine := true, i + 1;
      }
      if IsRef(lines[i]) {
        ref, refLine := RefOf(lines[i]), i + 1;
      }
    }
    FlushIsStepRecord(lines, a, |lines|, repo, repoLine, ref, refLine);
    ScannedAll(lines, a, out);
    out := out + Flushed(repo, repoLine, ref, refLine);
  }

  lemma {:induction false} ScanStarts(lines: seq<string>)
    ensures Scanned(lines, 0, 0, [])
  {
    assert Records(lines) == [] + RecordsFrom(lines, 0);
  }

  lemma {:induction false} ScannedItem(lines: seq<string>, i: nat, a: nat, out: seq<Record>)
    requires i < |lines| && a <= i && Scanned(lines, i, a, out) && IsItem(lines[i])
    ensures Records(lines) == out + StepRecord(lines, a, i) + RecordsFrom(lines, i)
    ensures ItemOpens(lines, i, i, out + StepRecord(lines, a, i))
  {
    hide StepRecord, IsItem, Records;
    if a < i {
      NextItemIs(lines, a + 1, i);
      assert RecordsFrom(lines, a) == StepRecord(lines, a, i) + RecordsFrom(lines, i);
      assert out + RecordsFrom(lines, a) == out + StepRecord(lines, a, i) + RecordsFrom(lines, i);
    } else {
      EmptyStep(lines, a);
      assert out + [] == out;
    }
  }

  /** The step that line `i` belongs to begins at `a`. */
  ghost predicate ItemOpens(lines: seq<string>, i: nat, a: nat, out: seq<Record>) {
    && a == i < |lines| && IsItem(lines[i]) && Records(lines) == out + RecordsFrom(lines, a)
  }

  lemma {:induction false} ScannedLine(lines: seq<string>, i: nat, a: nat, out: seq<Record>)
    requires i < |lines| && a <= i
    requires ItemOpens(lines, i, a, out) || (Scanned(lines, i, a, out) && !IsItem(lines[i]))
    ensures Scanned(lines, i + 1, a, out)
  {
    hide Records, RecordsFrom, IsItem;
    if a < i {
      NextItemBeyond(lines, a + 1, i);
    }
  }

  lemma {:induction false} ScannedAll(lines: seq<string>, a: nat, out: seq<Record>)
    requires a <= |lines| && Scanned(lines, |lines|, a, out)
    ensures Records(lines) == out + StepRecord(lines, a, |lines|)
  {
    hide StepRecord, IsItem;
    if a == |lines| {
      EmptyStep(lines, a);
    } else {
      assert RecordsFrom(lines, |lines|) == [];
      assert StepRecord(lines, a, |lines|) + [] == StepRecord(lines, a, |lines|);
    }
  }

  lemma {:induction false} EmptyStep(lines: seq<string>, a: nat)
    requires a <= |lines|
    ensures StepRecord(lines, a, a) == []
  {
  }

  lemma {:induction false} TracksNothing(lines: seq<string>, a: nat)
    requires a <= |lines|
    ensures Tracks(lines, a, a, false, 0, "", 0)
  {
  }

  lemma {:induction false} TracksLine(lines: seq<string>, a: nat, i: nat, repo: bool, repoLine: nat, ref: string,
                                      refLine: nat)
    requires i < |lines| && Tracks(lines, a, i, repo, repoLine, ref, refLine)
    ensures var n, r := Names(lines[i]), IsRef(lines[i]);
            Tracks(lines, a, i + 1, n || repo, if n then i + 1 else repoLine,
                   if r then RefOf(lines[i]) else ref, if r then i + 1 else refLine)
  {
    hide IsRef, Names, RefOf;
  }

  lemma {:induction false} NextItemIs(lines: seq<string>, k: nat, i: nat)
    requires k <= i < |lines| && i <= NextItem(lines, k) && IsItem(lines[i])
    ensures NextItem(lines, k) == i
  {
  }

  lemma {:induction false} NextItemBeyond(lines: seq<string>, k: nat, i: nat)
    requires k <= i < |lines| && i <= NextItem(lines, k) && !IsItem(lines[i])
    ensures i < NextItem(lines, k)
  {
  }

  // --- what the records mean ---

  /** A step of the file: from a list item, or the first line, to the next list item or the end. */
  ghost predicate IsStep(lines: seq<string>, a: nat, b: nat) {
    && a < b <= |lines|
    && (a == 0 || IsItem(lines[a])) && (b == |lines| || IsItem(lines[b]))
    && forall i :: a < i < b ==> !IsItem(lines[i])
  }

  ghost predicate StepNames(lines: seq<string>, a: nat, b: nat) {
    a <= b <= |lines| && exists i :: a <= i < b && Names(lines[i])
  }

  /** The steps that name SciForge, in order. */
  ghost function NamingSteps(lines: seq<string>, a: nat): seq<(nat, nat)>
    requires a <= |lines|
    decreases |lines| - a
  {
    if a == |lines| then []
    else
      var b := NextItem(lines, a + 1);
      (if StepNames(lines, a, b) then [(a, b)] else []) + NamingSteps(lines, b)
  }

  ghost predicate IsLastRef(lines: seq<string>, a: nat, b: nat, i: nat) {
    a <= i < b <= |lines| && IsRef(lines[i]) && forall j :: i < j < b ==> !IsRef(lines[j])
  }

  /** The record is that of the step from `a` to `b`: its ref is the last one of that very step. */
  ghost predicate RecordOfStep(lines: seq<string>, a: nat, b: nat, r: Record) {
    && StepNames(lines, a, b)
    && match r
       case Pinned(v, line) =>
         line > 0 && IsLastRef(lines, a, b, line - 1) && RefOf(lines[line - 1]) == v && IsVersion(v)
       case Unpinned(v, line) =>
         if v == "" then
           && a < line <= b && Names(lines[line - 1])
           && forall i: nat :: IsLastRef(lines, a, b, i) ==> RefOf(lines[i]) == ""
         else
           line > 0 && IsLastRef(lines, a, b, line - 1) && RefOf(lines[line - 1]) == v && !IsVersion(v)
  }

  lemma {:induction false} StepRecordMeans(lines: seq<string>, a: nat, b: nat)
    requires a <= b <= |lines|
    ensures StepNames(lines, a, b) ==>
            |StepRecord(lines, a, b)| == 1 && RecordOfStep(lines, a, b, StepRecord(lines, a, b)[0])
    ensures !StepNames(lines, a, b) ==> StepRecord(lines, a, b) == []
  {
    hide Names, IsRef, RefOf, IsVersion;
    var name, ref := LastName(lines, a, b), LastRef(lines, a, b);
    EmptyIsNoVersion();
    if name.Some? {
      assert Names(lines[name.value]);
      if ref.Some? {
        assert IsLastRef(lines, a, b, ref.value);
        assert forall i: nat :: IsLastRef(lines, a, b, i) ==> i == ref.value;
      } else {
        assert forall i: nat :: !IsLastRef(lines, a, b, i);
      }
    }
  }

  lemma {:induction false} EmptyIsNoVersion()
    ensures !IsVersion("")
  {
  }

  ghost predicate RecordsOfSteps(lines: seq<string>, steps: seq<(nat, nat)>, records: seq<Record>) {
    |records| == |steps| && forall k :: 0 <= k < |steps| ==> RecordOfStep(lines, steps[k].0, steps[k].1, records[k])
  }

  /** Exactly one record for each step that names SciForge, in order, and none for any other step. */
  lemma {:induction false} OneRecordAStep(lines: seq<string>, a: nat)
    requires a <= |lines|
    ensures RecordsOfSteps(lines, NamingSteps(lines, a), RecordsFrom(lines, a))
    decreases |lines| - a
  {
    hide RecordOfStep, StepNames, StepRecord, RecordsOfSteps;
    if a == |lines| {
      assert RecordsOfSteps(lines, [], []) by { NoSteps(lines); }
    } else {
      var b := NextItem(lines, a + 1);
      StepRecordMeans(lines, a, b);
      OneRecordAStep(lines, b);
      if StepNames(lines, a, b) {
        OneMoreStep(lines, a, b, StepRecord(lines, a, b)[0], NamingSteps(lines, b), RecordsFrom(lines, b));
        assert StepRecord(lines, a, b) == [StepRecord(lines, a, b)[0]];
      } else {
        assert [] + RecordsFrom(lines, b) == RecordsFrom(lines, b)
               && [] + NamingSteps(lines, b) == NamingSteps(lines, b);
      }
    }
  }

  lemma {:induction false} NoSteps(lines: seq<string>)
    ensures RecordsOfSteps(lines, [], [])
  {
  }

  lemma {:induction false} OneMoreStep(lines: seq<string>, a: nat, b: nat, r: Record, steps: seq<(nat, nat)>,
                                       records: seq<Record>)
    requires RecordOfStep(lines, a, b, r) && RecordsOfSteps(lines, steps, records)
    ensures RecordsOfSteps(lines, [(a, b)] + steps, [r] + records)
  {
    hide RecordOfStep;
  }

  /** The steps found are the steps of the file, all of them, in order. */
  lemma {:induction false} StepsAreSteps(lines: seq<string>, a: nat, i: nat, j: nat)
    requires a <= |lines| && (a == 0 || a == |lines| || IsItem(lines[a]))
    ensures (i, j) in NamingSteps(lines, a) <==> a <= i && IsStep(lines, i, j) && StepNames(lines, i, j)
    decreases |lines| - a
  {
    hide IsItem, Names, StepNames;
    if a < |lines| {
      var b := NextItem(lines, a + 1);
      StepsAreSteps(lines, b, i, j);
      assert IsStep(lines, a, b);
      assert a <= i && IsStep(lines, i, j) ==> i == a || i >= b;
      assert i == a && IsStep(lines, i, j) ==> j == b by { OneEnd(lines, a, b, j); }
    }
  }

  lemma {:induction false} OneEnd(lines: seq<string>, a: nat, b: nat, j: nat)
    requires IsStep(lines, a, b)
    ensures IsStep(lines, a, j) ==> j == b
  {
    hide IsItem;
  }

  // --- the verdict ---

  datatype Found = Pin(version: string) | NoVersion | Floor(version: string)

  datatype Verdict = UnpinnedFound | NoPins | Drift(count: nat) | FloorAbove(floor: string) | SiblingDiffers
      | Agrees(version: string)

  function NumberOf(s: string): nat {
    if s == "" || !IsDigit(s[|s| - 1]) then 0 else 10 * NumberOf(s[..|s| - 1]) + (s[|s| - 1] as int - '0' as int)
  }

  /** The value of a numeric sort key: the k-th field of a text of digits and dots, 0 if there is none. */
  function Key(s: string, k: nat): nat {
    if k < |Fields(s)| then NumberOf(Fields(s)[k]) else 0
  }

  predicate KeyLess(a: string, b: string) {
    || Key(a, 0) < Key(b, 0)
    || (Key(a, 0) == Key(b, 0) && Key(a, 1) < Key(b, 1))
    || (Key(a, 0) == Key(b, 0) && Key(a, 1) == Key(b, 1) && Key(a, 2) < Key(b, 2))
  }

  /** Byte order, the last resort of `sort`. */
  predicate ByteLess(a: string, b: string) {
    b != "" && (a == "" || a[0] < b[0] || (a[0] == b[0] && ByteLess(a[1..], b[1..])))
  }

  predicate SortsBefore(a: string, b: string) {
    KeyLess(a, b) || (!KeyLess(b, a) && ByteLess(a, b))
  }

  /** What the floor test refuses, as the pipeline computes it: the last line of the two, sorted. */
  predicate Above(floor: string, version: string) {
    var last := if SortsBefore(floor, version) then version else floor;
    floor != version && last == floor
  }

  lemma {:induction false} ByteLessTotal(a: string, b: string)
    ensures a != b ==> ByteLess(a, b) || ByteLess(b, a)
    ensures ByteLess(a, b) ==> a != b && !ByteLess(b, a)
    decreases |a|
  {
    if a != "" && b != "" {
      assert a == [a[0]] + a[1..] && b == [b[0]] + b[1..];
      ByteLessTotal(a[1..], b[1..]);
    }
  }

  /** A floor is refused exactly when its first three numbers are above the version's; at equal numbers, when it is a
      different text that sorts behind, as 1.2.0.0 does behind 1.2.0. */
  lemma {:induction false} AboveExactly(floor: string, version: string)
    ensures Above(floor, version) <==> KeyLess(version, floor) || (!KeyLess(floor, version) && ByteLess(version, floor))
  {
    hide Key, ByteLess;
    ByteLessTotal(floor, version);
  }

  lemma {:induction false} ByteLessPrefix(a: string, more: string)
    ensures ByteLess(a, a + more) <==> more != ""
    decreases |a|
  {
    if a == "" {
      assert a + more == more;
    } else {
      assert (a + more)[0] == a[0] && (a + more)[1..] == a[1..] + more;
      ByteLessPrefix(a[1..], more);
    }
  }

  /** A floor with the version's three numbers that is spelt with more behind the version is refused. */
  lemma {:induction false} LongerFloorAbove(floor: string, version: string)
    requires forall k :: 0 <= k < 3 ==> Key(floor, k) == Key(version, k)
    requires |version| < |floor| && floor[..|version|] == version
    ensures Above(floor, version)
  {
    hide Key, ByteLess;
    AboveExactly(floor, version);
    assert floor == version + floor[|version|..];
    ByteLessPrefix(version, floor[|version|..]);
  }

  lemma {:induction false} FieldsFront(c: char, s: string)
    ensures Fields([c] + s) == if c == '.' then [""] + Fields(s) else [[c] + Fields(s)[0]] + Fields(s)[1..]
  {
    assert ([c] + s)[0] == c && ([c] + s)[1..] == s;
  }

  lemma {:induction false} FieldsAppend(a: string, b: string)
    ensures Fields(a + "." + b) == Fields(a) + Fields(b)
    decreases |a|
  {
    hide Fields;
    if a == "" {
      assert a + "." + b == ['.'] + b;
      FieldsFront('.', b);
      NoFields();
    } else {
      var c, rest := a[0], a[1..];
      assert a == [c] + rest && a + "." + b == [c] + (rest + "." + b);
      FieldsFront(c, rest);
      FieldsFront(c, rest + "." + b);
      FieldsAppend(rest, b);
    }
  }

  lemma {:induction false} NoFields()
    ensures Fields("") == [""]
  {
  }

  /** So a fourth component is always refused, a zero too, which makes no other version. */
  lemma {:induction false} FourthComponentAbove(version: string, rest: string)
    requires |Fields(version)| == 3
    ensures Above(version + "." + rest, version)
  {
    hide Fields, Above, NumberOf;
    var floor := version + "." + rest;
    FieldsAppend(version, rest);
    assert floor[..|version|] == version;
    forall k | 0 <= k < 3 ensures Key(floor, k) == Key(version, k) {
      assert Fields(floor)[k] == Fields(version)[k];
    }
    LongerFloorAbove(floor, version);
  }

  lemma {:induction false} EqualFloorRefused()
    ensures Above("1.2.0" + "." + "0", "1.2.0") && Key("1.2.0" + "." + "0", 3) == 0
  {
    hide Above;
    assert "1.2.0" == "1" + "." + ("2" + "." + "0");
    FieldsAppend("1", "2" + "." + "0");
    FieldsAppend("2", "0");
    OneField('0');
    OneField('1');
    OneField('2');
    FieldsAppend("1.2.0", "0");
    FourthComponentAbove("1.2.0", "0");
    assert "0"[..0] == "";
  }

  lemma {:induction false} OneField(c: char)
    requires c != '.'
    ensures Fields([c]) == [[c]]
  {
    assert [c][1..] == "" && Fields("") == [""];
    assert [c] + "" == [c];
  }

  // --- versions as numbers ---

  /** The components of a version, with dots between them. */
  function Dotted(parts: seq<string>): string {
    if parts == [] then "" else if |parts| == 1 then parts[0] else parts[0] + "." + Dotted(parts[1..])
  }

  ghost predicate AreNumerals(parts: seq<string>) {
    parts != [] && forall k :: 0 <= k < |parts| ==> Decimal.AllDigits(parts[k])
  }

  lemma {:induction false} FieldsWhole(s: string)
    requires '.' !in s
    ensures Fields(s) == [s]
    decreases |s|
  {
    if s != "" {
      FieldsWhole(s[1..]);
      assert s == [s[0]] + s[1..];
    }
  }

  lemma {:induction false} FieldsDotted(parts: seq<string>)
    requires AreNumerals(parts)
    ensures Fields(Dotted(parts)) == parts
    decreases |parts|
  {
    hide Fields;
    assert '.' !in parts[0];
    FieldsWhole(parts[0]);
    if |parts| > 1 {
      FieldsDotted(parts[1..]);
      FieldsAppend(parts[0], Dotted(parts[1..]));
      assert parts == [parts[0]] + parts[1..];
    } else {
      assert parts == [parts[0]];
    }
  }

  lemma {:induction false} NumberIsValue(s: string)
    requires Decimal.AllDigits(s)
    ensures NumberOf(s) == Decimal.Value(s)
    decreases |s|
  {
    if s != "" {
      assert Decimal.IsDigit(s[|s| - 1]);
      NumberIsValue(s[..|s| - 1]);
    }
  }

  /** The number of a component, 0 for one that is empty or not there. */
  ghost function Component(parts: seq<string>, k: nat): nat
    requires AreNumerals(parts)
  {
    if k < |parts| then Decimal.Value(parts[k]) else 0
  }

  ghost predicate Greater(a: nat, b: nat, c: nat, x: nat, y: nat, z: nat) {
    a > x || (a == x && (b > y || (b == y && c > z)))
  }

  ghost predicate PartsGreater(f: seq<string>, v: seq<string>)
    requires AreNumerals(f) && AreNumerals(v)
  {
    Greater(Component(f, 0), Component(f, 1), Component(f, 2), Component(v, 0), Component(v, 1), Component(v, 2))
  }

  lemma {:induction false} KeyIsComponent(parts: seq<string>, k: nat)
    requires AreNumerals(parts)
    ensures Key(Dotted(parts), k) == Component(parts, k)
  {
    FieldsDotted(parts);
    if k < |parts| {
      NumberIsValue(parts[k]);
    }
  }

  /** Byte order: the first place where the two differ decides, and a text comes before its own continuations. */
  ghost predicate BehindAt(a: string, b: string, k: nat) {
    k <= |a| && k < |b| && a[..k] == b[..k] && (k == |a| || a[k] < b[k])
  }

  lemma {:induction false} ByteLessExactly(a: string, b: string)
    ensures ByteLess(a, b) <==> exists k: nat :: BehindAt(a, b, k)
    decreases |a|
  {
    if a == "" || b == "" || a[0] != b[0] {
      if ByteLess(a, b) {
        assert BehindAt(a, b, 0);
      }
      forall k: nat | BehindAt(a, b, k) ensures ByteLess(a, b) {
        BehindAgrees(a, b, k);
      }
    } else {
      ByteLessExactly(a[1..], b[1..]);
      if ByteLess(a, b) {
        var k: nat :| BehindAt(a[1..], b[1..], k);
        assert a[..k + 1] == [a[0]] + a[1..][..k] && b[..k + 1] == [b[0]] + b[1..][..k];
        assert BehindAt(a, b, k + 1);
      }
      forall k: nat | BehindAt(a, b, k) ensures ByteLess(a, b) {
        BehindNext(a, b, k);
      }
    }
  }

  lemma {:induction false} BehindAgrees(a: string, b: string, k: nat)
    requires BehindAt(a, b, k)
    ensures k > 0 ==> a != "" && a[0] == b[0]
  {
    assert k > 0 ==> a[0] == a[..k][0] && b[0] == b[..k][0];
  }

  lemma {:induction false} BehindNext(a: string, b: string, k: nat)
    requires a != "" && b != "" && a[0] == b[0] && BehindAt(a, b, k)
    ensures k > 0 && BehindAt(a[1..], b[1..], k - 1)
  {
    assert a[1..][..k - 1] == a[..k][1..] && b[1..][..k - 1] == b[..k][1..];
  }

  /** For texts of digits and dots, leading zeros and missing components included: the first three numbers decide, and
      at equal numbers the byte order of the texts does. */
  lemma {:induction false} AboveByNumbers(f: seq<string>, v: seq<string>)
    requires AreNumerals(f) && AreNumerals(v)
    ensures PartsGreater(f, v) ==> Above(Dotted(f), Dotted(v))
    ensures PartsGreater(v, f) ==> !Above(Dotted(f), Dotted(v))
    ensures !PartsGreater(f, v) && !PartsGreater(v, f) ==>
              (Above(Dotted(f), Dotted(v)) <==> exists k: nat :: BehindAt(Dotted(v), Dotted(f), k))
  {
    hide Key, ByteLess, Dotted, Component, BehindAt, Above;
    AboveExactly(Dotted(f), Dotted(v));
    ByteLessExactly(Dotted(v), Dotted(f));
    forall k | 0 <= k < 3
      ensures Key(Dotted(f), k) == Component(f, k) && Key(Dotted(v), k) == Component(v, k)
    {
      KeyIsComponent(f, k);
      KeyIsComponent(v, k);
    }
  }

  /** A version of three numbers. */
  function VersionText(a: nat, b: nat, c: nat): string {
    Decimal.Digits(a) + "." + Decimal.Digits(b) + "." + Decimal.Digits(c)
  }

  lemma {:induction false} VersionDotted(a: nat, b: nat, c: nat)
    ensures var parts := [Decimal.Digits(a), Decimal.Digits(b), Decimal.Digits(c)];
            && AreNumerals(parts) && VersionText(a, b, c) == Dotted(parts)
            && Component(parts, 0) == a && Component(parts, 1) == b && Component(parts, 2) == c
  {
    hide Decimal.Digits, Decimal.Value;
    var parts := [Decimal.Digits(a), Decimal.Digits(b), Decimal.Digits(c)];
    Decimal.ValueOfDigits(a);
    Decimal.ValueOfDigits(b);
    Decimal.ValueOfDigits(c);
    assert Dotted(parts[2..]) == parts[2];
    assert Dotted(parts[1..]) == parts[1] + "." + parts[2] by { assert parts[1..][1..] == parts[2..]; }
    assert parts[0] + "." + (parts[1] + "." + parts[2]) == parts[0] + "." + parts[1] + "." + parts[2];
  }

  /** Between versions of three numbers, a floor is above exactly when its numbers are greater. */
  lemma {:induction false} AboveIsGreater(a: nat, b: nat, c: nat, x: nat, y: nat, z: nat)
    ensures Above(VersionText(a, b, c), VersionText(x, y, z)) <==> Greater(a, b, c, x, y, z)
  {
    hide Above, Dotted, Component, BehindAt;
    VersionDotted(a, b, c);
    VersionDotted(x, y, z);
    var f := [Decimal.Digits(a), Decimal.Digits(b), Decimal.Digits(c)];
    var v := [Decimal.Digits(x), Decimal.Digits(y), Decimal.Digits(z)];
    AboveByNumbers(f, v);
    NotAboveItself(VersionText(x, y, z));
  }

  lemma {:induction false} NotAboveItself(version: string)
    ensures !Above(version, version)
  {
  }

  /** Exactly the texts of a `v` and three numbers, leading zeros allowed, are versions. */
  lemma {:induction false} VersionExactly(s: string) returns (a: string, b: string, c: string)
    requires IsVersion(s)
    ensures IsNumber(a) && IsNumber(b) && IsNumber(c) && s == "v" + (a + "." + b + "." + c)
  {
    var f := Fields(s[1..]);
    a, b, c := f[0], f[1], f[2];
    FieldsJoined(s[1..]);
    assert Dotted(f[1..]) == f[1] + "." + f[2] by { assert f[1..][1..] == [f[2]]; }
    assert a + "." + (b + "." + c) == a + "." + b + "." + c;
  }

  lemma {:induction false} FieldsJoined(s: string)
    ensures Dotted(Fields(s)) == s
    decreases |s|
  {
    if s != "" {
      FieldsJoined(s[1..]);
      var rest := Fields(s[1..]);
      assert s == [s[0]] + s[1..];
      if s[0] == '.' {
        assert Fields(s)[1..] == rest;
        assert [] + "." + s[1..] == s;
      } else {
        assert Fields(s)[1..] == rest[1..];
      }
    }
  }

  lemma {:induction false} NumbersAreVersion(a: string, b: string, c: string)
    requires IsNumber(a) && IsNumber(b) && IsNumber(c)
    ensures IsVersion("v" + (a + "." + b + "." + c))
  {
    hide Fields;
    FieldsWhole(a);
    FieldsWhole(b);
    FieldsWhole(c);
    FieldsAppend(a, b);
    FieldsAppend(a + "." + b, c);
    assert ("v" + (a + "." + b + "." + c))[1..] == a + "." + b + "." + c;
  }

  ghost predicate AllPinned(records: seq<Found>) {
    forall i :: 0 <= i < |records| ==> !records[i].NoVersion?
  }

  ghost predicate AllAt(records: seq<Found>, version: string) {
    forall i :: 0 <= i < |records| && records[i].Pin? ==> records[i].version == version
  }

  /** `${versions#v}`. */
  function Bare(version: string): string {
    if version != "" && version[0] == 'v' then version[1..] else version
  }

  ghost predicate NoneAbove(records: seq<Found>, version: string) {
    forall i :: 0 <= i < |records| && records[i].Floor? ==> !Above(records[i].version, Bare(version))
  }

  ghost predicate SomePin(records: seq<Found>) {
    exists i :: 0 <= i < |records| && records[i].Pin?
  }

  function Versions(records: seq<Found>): set<string> {
    set i | 0 <= i < |records| && records[i].Pin? :: records[i].version
  }

  ghost predicate OnlyVersion(records: seq<Found>, version: string) {
    SomePin(records) && AllAt(records, version)
  }

  ghost predicate AboveAt(records: seq<Found>, version: string, k: nat) {
    k < |records| && records[k].Floor? && Above(records[k].version, Bare(version))
  }

  ghost predicate FirstAbove(records: seq<Found>, version: string, k: nat) {
    AboveAt(records, version, k) && forall j: nat :: j < k ==> !AboveAt(records, version, j)
  }

  ghost predicate RefusesFloor(records: seq<Found>, floor: string) {
    exists v, k: nat :: OnlyVersion(records, v) && FirstAbove(records, v, k) && records[k].version == floor
  }

  ghost predicate Differs(records: seq<Found>, sibling: string -> bool) {
    exists v :: OnlyVersion(records, v) && NoneAbove(records, v) && !sibling(v)
  }

  /** When the check gives each verdict. */
  ghost predicate Judges(records: seq<Found>, sibling: string -> bool, verdict: Verdict) {
    && (verdict.UnpinnedFound? <==> !AllPinned(records))
    && (verdict.NoPins? <==> AllPinned(records) && !SomePin(records))
    && (forall n :: verdict == Drift(n) <==> AllPinned(records) && n == |Versions(records)| > 1)
    && (forall floor :: verdict == FloorAbove(floor) <==> AllPinned(records) && RefusesFloor(records, floor))
    && (verdict.SiblingDiffers? <==> AllPinned(records) && Differs(records, sibling))
    && (forall v :: verdict == Agrees(v) <==>
                AllPinned(records) && OnlyVersion(records, v) && NoneAbove(records, v) && sibling(v))
  }

  /** `check`: the verdict names a version exactly when every reference pins a version, it is the one version pinned,
      no floor is above it, and the sibling checkout is at it; and every other verdict has its own exact condition. */
  method Check(records: seq<Found>, sibling: string -> bool) returns (verdict: Verdict)
    ensures Judges(records, sibling, verdict)
  {
    hide Above, Bare, NoneAbove, Judges, AboveAt, FirstAbove, AllPinned, SomePin, AllAt;
    var pins: set<string> := {};
    var some := false;
    for i := 0 to |records|
      invariant forall j :: 0 <= j < i ==> !records[j].NoVersion?
      invariant pins == Versions(records[..i])
      invariant some <==> exists j :: 0 <= j < i && records[j].Pin?
    {
      VersionsStep(records, i);
      if records[i].NoVersion? {
        UnpinnedJudged(records, sibling, i);
        return UnpinnedFound;
      }
      if records[i].Pin? {
        pins, some := pins + {records[i].version}, true;
      }
    }
    assert records[..|records|] == records;
    assert AllPinned(records) by { AllPinnedIs(records); }
    assert some == SomePin(records) by { SomePinIs(records); }
    if !some {
      NoPinsJudged(records, sibling);
      return NoPins;
    }
    OneVersion(records);
    if |pins| > 1 {
      DriftJudged(records, sibling);
      return Drift(|pins|);
    }
    var version :| version in pins;
    for i := 0 to |records|
      invariant forall j: nat :: j < i ==> !AboveAt(records, version, j)
    {
      AboveAtIs(records, version, i);
      if records[i].Floor? && Above(records[i].version, Bare(version)) {
        FloorJudged(records, sibling, version, i);
        return FloorAbove(records[i].version);
      }
    }
    verdict := if sibling(version) then Agrees(version) else SiblingDiffers;
    AgreeJudged(records, sibling, version, verdict);
  }

  lemma {:induction false} AllPinnedIs(records: seq<Found>)
    ensures AllPinned(records) <==> forall j :: 0 <= j < |records| ==> !records[j].NoVersion?
  {
  }

  lemma {:induction false} SomePinIs(records: seq<Found>)
    ensures SomePin(records) <==> exists j :: 0 <= j < |records| && records[j].Pin?
  {
  }

  lemma {:induction false} AboveAtIs(records: seq<Found>, version: string, i: nat)
    requires i < |records|
    ensures AboveAt(records, version, i) <==> records[i].Floor? && Above(records[i].version, Bare(version))
  {
  }

  lemma {:induction false} UnpinnedJudged(records: seq<Found>, sibling: string -> bool, i: nat)
    requires i < |records| && records[i].NoVersion?
    ensures Judges(records, sibling, UnpinnedFound)
  {
  }

  lemma {:induction false} NoPinsJudged(records: seq<Found>, sibling: string -> bool)
    requires AllPinned(records) && !SomePin(records)
    ensures Judges(records, sibling, NoPins)
  {
    NoVersions(records);
  }

  lemma {:induction false} DriftJudged(records: seq<Found>, sibling: string -> bool)
    requires AllPinned(records) && SomePin(records) && |Versions(records)| > 1
    ensures Judges(records, sibling, Drift(|Versions(records)|))
  {
    hide Versions, AllAt, FirstAbove, NoneAbove;
    OneVersion(records);
    assert forall v :: AllAt(records, v) ==> |{v}| == 1 && Versions(records) == {v};
  }

  lemma {:induction false} OnlyOne(records: seq<Found>, version: string)
    requires SomePin(records) && version in Versions(records) && |Versions(records)| <= 1
    ensures |Versions(records)| == 1 && forall v :: OnlyVersion(records, v) <==> v == version
  {
    hide AllAt, SomePin, Versions;
    OneVersion(records);
    assert forall v :: {v} == {version} <==> v == version by { Singletons(version); }
  }

  lemma {:induction false} Singletons(version: string)
    ensures forall v :: {v} == {version} <==> v == version
  {
    forall v ensures {v} == {version} <==> v == version {
      assert v in {v};
    }
  }

  lemma {:induction false} NoneAboveIs(records: seq<Found>, version: string)
    ensures NoneAbove(records, version) <==> forall j: nat :: !AboveAt(records, version, j)
  {
    hide Above, Bare;
    if forall j: nat :: !AboveAt(records, version, j) {
      forall i | 0 <= i < |records| && records[i].Floor? ensures !Above(records[i].version, Bare(version)) {
        assert !AboveAt(records, version, i);
      }
    }
  }

  lemma {:induction false} FloorJudged(records: seq<Found>, sibling: string -> bool, version: string, k: nat)
    requires AllPinned(records) && SomePin(records) && version in Versions(records) && |Versions(records)| <= 1
    requires AboveAt(records, version, k) && forall j: nat :: j < k ==> !AboveAt(records, version, j)
    ensures Judges(records, sibling, FloorAbove(records[k].version))
  {
    hide Versions, AllAt, SomePin, AllPinned, NoneAbove, Above, Bare, OnlyVersion;
    OnlyOne(records, version);
    NoneAboveIs(records, version);
    assert FirstAbove(records, version, k);
    assert forall j: nat :: FirstAbove(records, version, j) ==> j == k;
    assert RefusesFloor(records, records[k].version);
  }

  lemma {:induction false} AgreeJudged(records: seq<Found>, sibling: string -> bool, version: string, verdict: Verdict)
    requires AllPinned(records) && SomePin(records) && version in Versions(records) && |Versions(records)| <= 1
    requires forall j: nat :: j < |records| ==> !AboveAt(records, version, j)
    requires verdict == if sibling(version) then Agrees(version) else SiblingDiffers
    ensures Judges(records, sibling, verdict)
  {
    hide Versions, AllAt, AllPinned, NoneAbove, Above, Bare, OnlyVersion;
    OnlyOne(records, version);
    assert forall j: nat :: !AboveAt(records, version, j);
    NoneAboveIs(records, version);
    assert forall floor :: !RefusesFloor(records, floor);
  }

  lemma {:induction false} VersionsStep(records: seq<Found>, i: nat)
    requires i < |records|
    ensures Versions(records[..i + 1])
            == Versions(records[..i]) + (if records[i].Pin? then {records[i].version} else {})
  {
    var s := records[..i + 1];
    assert forall j :: 0 <= j < i ==> s[j] == records[..i][j];
    assert s[i] == records[i];
  }

  lemma {:induction false} NoVersions(records: seq<Found>)
    requires !SomePin(records)
    ensures Versions(records) == {}
  {
  }

  /** There is at most one version exactly when all pins agree. */
  lemma {:induction false} OneVersion(records: seq<Found>)
    requires SomePin(records)
    ensures Versions(records) != {} && forall v :: AllAt(records, v) <==> Versions(records) == {v}
    ensures |Versions(records)| <= 1 ==> forall v :: v in Versions(records) ==> Versions(records) == {v}
  {
    var k :| 0 <= k < |records| && records[k].Pin?;
    var all := Versions(records);
    assert records[k].version in all;
    forall v ensures AllAt(records, v) <==> all == {v} {
      assert forall i :: 0 <= i < |records| && records[i].Pin? ==> records[i].version in all;
    }
    if |all| <= 1 {
      forall v | v in all ensures all == {v} {
        assert |all - {v}| == 0;
      }
    }
  }

  /** The records' floors are versions of three numbers, those of `floors` in order. */
  ghost predicate FloorsAre(records: seq<Found>, floors: seq<(nat, nat, nat)>) {
    && |floors| == |records|
    && forall i :: 0 <= i < |records| && records[i].Floor? ==>
        records[i].version == VersionText(floors[i].0, floors[i].1, floors[i].2)
  }

  ghost predicate NoneGreater(records: seq<Found>, floors: seq<(nat, nat, nat)>, x: nat, y: nat, z: nat)
    requires |floors| == |records|
  {
    forall i :: 0 <= i < |records| && records[i].Floor? ==> !Greater(floors[i].0, floors[i].1, floors[i].2, x, y, z)
  }

  /** The check on records whose floors and pins are versions of three numbers: it agrees exactly when all pin one
      version, no floor has greater numbers, and the sibling is at it. */
  lemma {:induction false} AgreesOnNumbers(records: seq<Found>, floors: seq<(nat, nat, nat)>, x: nat, y: nat, z: nat,
                                           sibling: string -> bool, verdict: Verdict)
    requires Judges(records, sibling, verdict) && FloorsAre(records, floors)
    ensures var v := "v" + VersionText(x, y, z);
            verdict == Agrees(v) <==>
                AllPinned(records) && OnlyVersion(records, v) && NoneGreater(records, floors, x, y, z) && sibling(v)
    ensures var v := "v" + VersionText(x, y, z);
            AllPinned(records) && OnlyVersion(records, v) ==>
              (verdict.FloorAbove? <==> !NoneGreater(records, floors, x, y, z))
  {
    hide Above, VersionText, AllPinned, OnlyVersion;
    var v := "v" + VersionText(x, y, z);
    assert Bare(v) == VersionText(x, y, z);
    forall i | 0 <= i < |records| && records[i].Floor?
      ensures Above(records[i].version, Bare(v)) <==> Greater(floors[i].0, floors[i].1, floors[i].2, x, y, z)
    {
      AboveIsGreater(floors[i].0, floors[i].1, floors[i].2, x, y, z);
    }
    NoneAboveGreater(records, floors, x, y, z);
    if AllPinned(records) && OnlyVersion(records, v) {
      FloorRefused(records, sibling, v, verdict);
    }
  }

  lemma {:induction false} NoneAboveGreater(records: seq<Found>, floors: seq<(nat, nat, nat)>, x: nat, y: nat, z: nat)
    requires FloorsAre(records, floors)
    requires forall i :: 0 <= i < |records| && records[i].Floor? ==>
               (Above(records[i].version, Bare("v" + VersionText(x, y, z))) <==>
                   Greater(floors[i].0, floors[i].1, floors[i].2, x, y, z))
    ensures NoneAbove(records, "v" + VersionText(x, y, z)) <==> NoneGreater(records, floors, x, y, z)
  {
    hide Above, VersionText, Bare, Greater;
  }

  lemma {:induction false} FloorRefused(records: seq<Found>, sibling: string -> bool, v: string, verdict: Verdict)
    requires Judges(records, sibling, verdict) && AllPinned(records) && OnlyVersion(records, v)
    ensures verdict.FloorAbove? <==> !NoneAbove(records, v)
  {
    hide Above, Bare, AboveAt, NoneAbove;
    NoneAboveIs(records, v);
    var i :| 0 <= i < |records| && records[i].Pin?;
    assert forall w :: OnlyVersion(records, w) ==> w == records[i].version;
    if !NoneAbove(records, v) {
      var j: nat :| AboveAt(records, v, j);
      var k := FirstAboveUpTo(records, v, j);
      assert RefusesFloor(records, records[k].version);
    }
  }

  lemma {:induction false} FirstAboveUpTo(records: seq<Found>, v: string, j: nat) returns (k: nat)
    requires AboveAt(records, v, j)
    ensures FirstAbove(records, v, k) && k < |records| && records[k].Floor?
    decreases j
  {
    hide Above, Bare;
    if i: nat :| i < j && AboveAt(records, v, i) {
      k := FirstAboveUpTo(records, v, i);
    } else {
      k := j;
    }
  }
}
