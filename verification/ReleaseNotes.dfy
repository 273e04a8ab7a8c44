/** The notes file of a release, by lines: the emptiness guard, the filing and the extraction of tools/release.sh. */
module ReleaseNotes {

  const UNRELEASED := "## Unreleased"

  predicate StartsWith(s: string, prefix: string) {
    |prefix| <= |s| && s[..|prefix|] == prefix
  }

  /** What awk matches with `/^## /`. */
  predicate IsHeading(line: string) {
    StartsWith(line, "## ")
  }

  function VersionPrefix(version: string): string {
    "## " + version + " "
  }

  predicate IsVersionHeading(line: string, version: string) {
    StartsWith(line, VersionPrefix(version))
  }

  function Heading(version: string, date: string): string {
    "## " + version + " — " + date
  }

  /** awk's NF is not zero: the line holds something but blanks. */
  predicate HasField(line: string) {
    exists i :: 0 <= i < |line| && line[i] != ' ' && line[i] != '\t'
  }

  /** What the two tests say: a text begins with what it continues, itself included, and a line holds something unless
      all of it is blanks and tabs. */
  lemma {:induction false} LinesTested(prefix: string, rest: string, line: string)
    ensures StartsWith(prefix + rest, prefix)
    ensures StartsWith(line, prefix) ==> line == prefix + line[|prefix|..]
    ensures HasField(line) <==> !forall c :: c in line ==> c == ' ' || c == '\t'
  {
    assert (prefix + rest)[..|prefix|] == prefix;
    if HasField(line) {
      var i :| 0 <= i < |line| && line[i] != ' ' && line[i] != '\t';
      assert line[i] in line;
    }
  }

  // --- the three programs, over the lines still to read ---

  function GuardFrom(lines: seq<string>, inside: bool): bool
    decreases |lines|
  {
    if lines == [] then false
    else if lines[0] == UNRELEASED then GuardFrom(lines[1..], true)
    else if inside && IsHeading(lines[0]) then false
    else if inside && HasField(lines[0]) then true
    else GuardFrom(lines[1..], inside)
  }

  function Guard(lines: seq<string>): bool {
    GuardFrom(lines, false)
  }

  function FiledLine(line: string, version: string, date: string): seq<string> {
    if line == UNRELEASED then [line, "", Heading(version, date)] else [line]
  }

  function Filed(lines: seq<string>, version: string, date: string): seq<string> {
    if lines == [] then []
    else Filed(lines[..|lines| - 1], version, date) + FiledLine(lines[|lines| - 1], version, date)
  }

  function ExtractFrom(lines: seq<string>, version: string, inside: bool): seq<string>
    decreases |lines|
  {
    if lines == [] then []
    else if IsVersionHeading(lines[0], version) then [lines[0]] + ExtractFrom(lines[1..], version, true)
    else if inside && IsHeading(lines[0]) then []
    else (if inside then [lines[0]] else []) + ExtractFrom(lines[1..], version, inside)
  }

  function Extract(lines: seq<string>, version: string): seq<string> {
    ExtractFrom(lines, version, false)
  }

  method HasFieldOf(line: string) returns (r: bool)
    ensures r == HasField(line)
  {
    for i := 0 to |line|
      invariant forall j :: 0 <= j < i ==> line[j] == ' ' || line[j] == '\t'
    {
      if line[i] != ' ' && line[i] != '\t' {
        return true;
      }
    }
    return false;
  }

  method CheckNotes(lines: seq<string>) returns (accepted: bool)
    ensures accepted == Guard(lines)
  {
    var inside := false;
    for i := 0 to |lines|
      invariant Guard(lines) == GuardFrom(lines[i..], inside)
    {
      assert lines[i..][0] == lines[i] && lines[i..][1..] == lines[i + 1..];
      if lines[i] == UNRELEASED {
        inside := true;
        continue;
      }
      if inside && IsHeading(lines[i]) {
        return false;
      }
      var field := HasFieldOf(lines[i]);
      if inside && field {
        return true;
      }
    }
    return false;
  }

  method FileNotes(lines: seq<string>, version: string, date: string) returns (out: seq<string>)
    ensures out == Filed(lines, version, date)
  {
    out := [];
    for i := 0 to |lines|
      invariant out == Filed(lines[..i], version, date)
    {
      assert lines[..i + 1][..i] == lines[..i];
      if lines[i] == UNRELEASED {
        out := out + [lines[i], "", "## " + version + " — " + date];
      } else {
        out := out + [lines[i]];
      }
    }
    assert lines[..|lines|] == lines;
  }

  method ExtractNotes(lines: seq<string>, version: string) returns (out: seq<string>)
    ensures out == Extract(lines, version)
  {
    hide StartsWith, VersionPrefix;
    var inside := false;
    out := [];
    for i := 0 to |lines|
      invariant Extract(lines, version) == out + ExtractFrom(lines[i..], version, inside)
    {
      assert lines[i..][0] == lines[i] && lines[i..][1..] == lines[i + 1..];
      if IsVersionHeading(lines[i], version) {
        inside := true;
        out := out + [lines[i]];
        continue;
      }
      if inside && IsHeading(lines[i]) {
        return;
      }
      if inside {
        out := out + [lines[i]];
      }
    }
  }

  // --- headings ---

  predicate NoSpace(s: string) {
    forall i :: 0 <= i < |s| ==> s[i] != ' '
  }

  lemma {:induction false} HeadingAt(version: string, date: string)
    ensures var h := Heading(version, date);
            && IsHeading(h) && h != UNRELEASED && IsVersionHeading(h, version)
            && h[..3] == "## " && h[3..3 + |version|] == version && h[3 + |version|] == ' '
  {
    var h := Heading(version, date);
    assert h == VersionPrefix(version) + ("— " + date);
    assert h[..3] == "## ";
    assert h[3 + |version|] == ' ' && h[3 + |version| + 1] == '—';
    assert forall i :: 3 <= i < |UNRELEASED| ==> UNRELEASED[i] != ' ';
  }

  /** Only a version's own heading is read as its heading: 2026.1.1 is not mistaken for 2026.1.10. */
  lemma {:induction false} HeadingsDistinct(version: string, other: string, date: string)
    requires NoSpace(version) && NoSpace(other)
    ensures IsVersionHeading(Heading(other, date), version) <==> version == other
  {
    HeadingAt(other, date);
    var h, p := Heading(other, date), VersionPrefix(version);
    assert p[3..3 + |version|] == version && p[3 + |version|] == ' ';
    forall j | 3 <= j < 3 + |other| ensures h[j] != ' ' {
      assert h[j] == h[3..3 + |other|][j - 3];
    }
    if IsVersionHeading(h, version) {
      assert h[..|p|][3 + |version|] == ' ' && h[..|p|][3..3 + |version|] == version;
      forall j | 3 <= j < 3 + |version| ensures h[j] != ' ' {
        assert h[j] == h[..|p|][3..3 + |version|][j - 3];
      }
      assert h[3 + |version|] == ' ' && h[3 + |other|] == ' ';
      assert |version| == |other|;
      assert h[..|p|][3..3 + |version|] == h[3..3 + |version|];
    }
  }

  lemma {:induction false} UnreleasedIsNoVersion(version: string)
    ensures !IsVersionHeading(UNRELEASED, version) && IsHeading(UNRELEASED) && !IsVersionHeading("", version)
  {
    var p := VersionPrefix(version);
    assert p[|p| - 1] == ' ' && |p| >= 4;
    assert forall i :: 3 <= i < |UNRELEASED| ==> UNRELEASED[i] != ' ';
    assert |p| <= |UNRELEASED| ==> UNRELEASED[..|p|][|p| - 1] != ' ';
  }

  lemma {:induction false} VersionHeadingIsHeading(line: string, version: string)
    ensures IsVersionHeading(line, version) ==> IsHeading(line)
  {
    var p := VersionPrefix(version);
    assert p[..3] == "## ";
    assert |p| <= |line| ==> line[..|p|][..3] == line[..3];
  }

  lemma {:induction false} BlankLine()
    ensures !IsHeading("") && !HasField("") && "" != UNRELEASED
  {
  }

  // --- filing ---

  function Marks(lines: seq<string>): nat {
    if lines == [] then 0 else Marks(lines[..|lines| - 1]) + if lines[|lines| - 1] == UNRELEASED then 1 else 0
  }

  /** Where a line goes: two lines are added after each mark in front of it. */
  function Position(lines: seq<string>, k: nat): nat
    requires k <= |lines|
  {
    k + 2 * Marks(lines[..k])
  }

  lemma {:induction false} FiledLength(lines: seq<string>, version: string, date: string)
    ensures |Filed(lines, version, date)| == |lines| + 2 * Marks(lines)
    decreases |lines|
  {
    hide Heading;
    if lines != [] {
      FiledLength(lines[..|lines| - 1], version, date);
    }
  }

  lemma {:induction false} FiledLineIs(line: string, version: string, date: string)
    ensures FiledLine(line, version, date) == if line == UNRELEASED then [line, "", Heading(version, date)] else [line]
  {
  }

  /** Filing keeps every line, in order, and adds a blank line and the heading after the mark, nothing else. */
  lemma {:induction false} FilingKeepsLine(lines: seq<string>, k: nat, version: string, date: string)
    requires k < |lines|
    ensures var out, i := Filed(lines, version, date), Position(lines, k);
            && |out| == |lines| + 2 * Marks(lines)
            && i < |out| && out[i] == lines[k]
            && (lines[k] == UNRELEASED ==> i + 2 < |out| && out[i + 1] == "" && out[i + 2] == Heading(version, date))
    decreases |lines|
  {
    hide Heading, FiledLine;
    FiledLineIs(lines[|lines| - 1], version, date);
    var n := |lines| - 1;
    FiledLength(lines, version, date);
    FiledLength(lines[..n], version, date);
    if k < n {
      assert lines[..k] == lines[..n][..k];
      FilingKeepsLine(lines[..n], k, version, date);
    }
  }

  lemma {:induction false} FiledAppend(a: seq<string>, b: seq<string>, version: string, date: string)
    ensures Filed(a + b, version, date) == Filed(a, version, date) + Filed(b, version, date)
    decreases |b|
  {
    hide Heading, FiledLine;
    if b == [] {
      assert a + b == a;
    } else {
      var n := |b| - 1;
      assert (a + b)[..|a| + n] == a + b[..n];
      FiledAppend(a, b[..n], version, date);
    }
  }

  lemma {:induction false} FiledMark(version: string, date: string)
    ensures Filed([UNRELEASED], version, date) == [UNRELEASED, "", Heading(version, date)]
  {
    assert [UNRELEASED][..0] == [] && Filed([], version, date) == [];
  }

  predicate NoMark(lines: seq<string>) {
    UNRELEASED !in lines
  }

  lemma {:induction false} FiledNothing(lines: seq<string>, version: string, date: string)
    requires NoMark(lines)
    ensures Filed(lines, version, date) == lines
    decreases |lines|
  {
    hide Heading, FiledLine;
    if lines != [] {
      var n := |lines| - 1;
      FiledNothing(lines[..n], version, date);
      FiledLineIs(lines[n], version, date);
      assert lines[n] in lines && lines[..n] + [lines[n]] == lines;
    }
  }

  /** A file with one mark: the lines before it, the entries up to the next heading, and the rest. */
  ghost predicate OneMark(pre: seq<string>, body: seq<string>, rest: seq<string>) {
    && NoMark(pre) && NoMark(rest)
    && (forall i :: 0 <= i < |body| ==> !IsHeading(body[i]))
    && (rest == [] || IsHeading(rest[0]))
  }

  function Notes(pre: seq<string>, body: seq<string>, rest: seq<string>): seq<string> {
    pre + [UNRELEASED] + body + rest
  }

  lemma {:induction false} FiledNotes(pre: seq<string>, body: seq<string>, rest: seq<string>, version: string,
                                      date: string)
    requires OneMark(pre, body, rest)
    ensures Filed(Notes(pre, body, rest), version, date) == pre + [UNRELEASED, "", Heading(version, date)] + body + rest
  {
    hide Heading, StartsWith, IsHeading, Filed, IsVersionHeading;
    UnreleasedIsNoVersion(version);
    FiledNothing(pre, version, date);
    assert NoMark(body + rest);
    FiledNothing(body + rest, version, date);
    FiledMark(version, date);
    assert Notes(pre, body, rest) == (pre + [UNRELEASED]) + (body + rest);
    FiledAppend(pre + [UNRELEASED], body + rest, version, date);
    FiledAppend(pre, [UNRELEASED], version, date);
  }

  // --- extraction ---

  lemma {:induction false} ExtractSkips(a: seq<string>, b: seq<string>, version: string)
    requires forall i :: 0 <= i < |a| ==> !IsVersionHeading(a[i], version)
    ensures ExtractFrom(a + b, version, false) == ExtractFrom(b, version, false)
    decreases |a|
  {
    if a == [] {
      assert a + b == b;
    } else {
      assert (a + b)[1..] == a[1..] + b;
      ExtractSkips(a[1..], b, version);
    }
  }

  lemma {:induction false} ExtractTakes(a: seq<string>, b: seq<string>, version: string)
    requires forall i :: 0 <= i < |a| ==> !IsHeading(a[i])
    ensures ExtractFrom(a + b, version, true) == a + ExtractFrom(b, version, true)
    decreases |a|
  {
    if a == [] {
      assert a + b == b;
    } else {
      assert (a + b)[1..] == a[1..] + b;
      VersionHeadingIsHeading(a[0], version);
      ExtractTakes(a[1..], b, version);
    }
  }

  /** With no heading of the version in front of the mark, what is extracted: the new heading, the former entries, and
      the next section if it is headed by the version itself. */
  lemma {:induction false} EntriesExtracted(pre: seq<string>, body: seq<string>, rest: seq<string>, version: string,
                                            date: string)
    requires OneMark(pre, body, rest)
    requires forall i :: 0 <= i < |pre| ==> !IsVersionHeading(pre[i], version)
    ensures Extract(Filed(Notes(pre, body, rest), version, date), version)
            == [Heading(version, date)]
               + if rest != [] && IsVersionHeading(rest[0], version)
                 then body + ([rest[0]] + ExtractFrom(rest[1..], version, true))
                 else body
  {
    var h := Heading(version, date);
    FiledNotes(pre, body, rest, version, date);
    HeadingAt(version, date);
    UnreleasedIsNoVersion(version);
    var out := pre + [UNRELEASED, ""] + ([h] + (body + rest));
    assert pre + [UNRELEASED, "", h] + body + rest == out;
    ExtractSkips(pre + [UNRELEASED, ""], [h] + (body + rest), version);
    assert ([h] + (body + rest))[1..] == body + rest;
    ExtractTakes(body, rest, version);
    assert Extract(out, version) == [h] + (body + ExtractFrom(rest, version, true));
    assert body + [] == body;
  }

  /** The extractor gives the new heading and exactly the former entries, if and only if the section that follows is
      not headed by the version itself. */
  lemma {:induction false} ExtractsEntries(pre: seq<string>, body: seq<string>, rest: seq<string>, version: string,
                                           date: string)
    requires OneMark(pre, body, rest)
    requires forall i :: 0 <= i < |pre| ==> !IsVersionHeading(pre[i], version)
    ensures Extract(Filed(Notes(pre, body, rest), version, date), version) == [Heading(version, date)] + body
            <==> rest == [] || !IsVersionHeading(rest[0], version)
  {
    hide OneMark, IsVersionHeading, Notes, Heading, Filed, Extract;
    EntriesExtracted(pre, body, rest, version, date);
  }

  // --- the annotation of the tag ---

  /** What `$(...)` leaves of an output: no blank lines at its end. */
  function Stripped(lines: seq<string>): seq<string> {
    if lines == [] || lines[|lines| - 1] != "" then lines else Stripped(lines[..|lines| - 1])
  }

  lemma {:induction false} StrippedBehind(a: seq<string>, x: string, b: seq<string>)
    requires x != ""
    ensures Stripped(a + [x] + b) == a + [x] + Stripped(b)
    decreases |b|
  {
    if b == [] {
      assert a + [x] + b == a + [x] && a + [x] + Stripped(b) == a + [x];
    } else {
      var n := |b| - 1;
      assert (a + [x] + b)[..|a| + 1 + n] == a + [x] + b[..n];
      StrippedBehind(a, x, b[..n]);
    }
  }

  /** The annotation of the release's tags is the new heading and the former entries, less blank lines at their end,
      under the same condition. */
  lemma {:induction false} AnnotationIsEntries(pre: seq<string>, body: seq<string>, rest: seq<string>, version: string,
                                               date: string)
    requires OneMark(pre, body, rest)
    requires forall i :: 0 <= i < |pre| ==> !IsVersionHeading(pre[i], version)
    ensures Stripped(Extract(Filed(Notes(pre, body, rest), version, date), version))
            == [Heading(version, date)] + Stripped(body)
            <==> rest == [] || !IsVersionHeading(rest[0], version)
  {
    hide OneMark, IsVersionHeading, Notes, Heading, Filed, Extract, Stripped;
    var h := Heading(version, date);
    EntriesExtracted(pre, body, rest, version, date);
    HeadingAt(version, date);
    VersionNotBlank(h, version);
    StrippedBehind([], h, body);
    assert [] + [h] + body == [h] + body && [] + [h] + Stripped(body) == [h] + Stripped(body);
    if rest != [] && IsVersionHeading(rest[0], version) {
      var more := ExtractFrom(rest[1..], version, true);
      VersionNotBlank(rest[0], version);
      assert [h] + (body + ([rest[0]] + more)) == ([h] + body) + [rest[0]] + more;
      StrippedBehind([h] + body, rest[0], more);
      StrippedShorter(body);
    }
  }

  lemma {:induction false} VersionNotBlank(line: string, version: string)
    ensures IsVersionHeading(line, version) ==> line != ""
  {
  }

  lemma {:induction false} StrippedShorter(lines: seq<string>)
    ensures |Stripped(lines)| <= |lines|
    decreases |lines|
  {
    if lines != [] {
      StrippedShorter(lines[..|lines| - 1]);
    }
  }

  /** A heading of the version in front of the mark shadows the release: what is extracted does not depend on it. */
  lemma {:induction false} EarlierHeadingShadows(pre: seq<string>, tail: seq<string>, k: nat, version: string)
    requires k < |pre| && IsVersionHeading(pre[k], version)
    ensures Extract(pre + [UNRELEASED] + tail, version) == Extract(pre + [UNRELEASED], version)
  {
    UnreleasedIsNoVersion(version);
    assert pre + [UNRELEASED] + tail == pre + ([UNRELEASED] + tail);
    ShadowFrom(pre, tail, k, version, false);
  }

  lemma {:induction false} ShadowFrom(pre: seq<string>, tail: seq<string>, k: int, version: string, inside: bool)
    requires k < |pre| && (inside || (0 <= k && IsVersionHeading(pre[k], version)))
    ensures ExtractFrom(pre + ([UNRELEASED] + tail), version, inside)
            == ExtractFrom(pre + [UNRELEASED], version, inside)
    decreases |pre|
  {
    UnreleasedIsNoVersion(version);
    if pre == [] {
      assert pre + ([UNRELEASED] + tail) == [UNRELEASED] + tail && pre + [UNRELEASED] == [UNRELEASED];
    } else {
      assert (pre + ([UNRELEASED] + tail))[1..] == pre[1..] + ([UNRELEASED] + tail);
      assert (pre + [UNRELEASED])[1..] == pre[1..] + [UNRELEASED];
      if IsVersionHeading(pre[0], version) {
        ShadowFrom(pre[1..], tail, -1, version, true);
      } else {
        ShadowFrom(pre[1..], tail, k - 1, version, inside);
      }
    }
  }

  // --- the guard ---

  lemma {:induction false} GuardSkips(a: seq<string>, b: seq<string>)
    requires NoMark(a)
    ensures GuardFrom(a + b, false) == GuardFrom(b, false)
    decreases |a|
  {
    if a == [] {
      assert a + b == b;
    } else {
      assert (a + b)[1..] == a[1..] + b;
      GuardSkips(a[1..], b);
    }
  }

  predicate SomeField(lines: seq<string>) {
    exists i :: 0 <= i < |lines| && HasField(lines[i])
  }

  lemma {:induction false} GuardReads(body: seq<string>, rest: seq<string>)
    requires forall i :: 0 <= i < |body| ==> !IsHeading(body[i])
    requires rest == [] || (IsHeading(rest[0]) && rest[0] != UNRELEASED)
    ensures GuardFrom(body + rest, true) <==> SomeField(body)
    decreases |body|
  {
    if body == [] {
      assert body + rest == rest;
    } else {
      assert (body + rest)[1..] == body[1..] + rest;
      UnreleasedIsNoVersion("");
      GuardReads(body[1..], rest);
      assert SomeField(body) <==> HasField(body[0]) || SomeField(body[1..]) by {
        if SomeField(body[1..]) {
          var i :| 0 <= i < |body[1..]| && HasField(body[1..][i]);
          assert HasField(body[i + 1]);
        }
        if SomeField(body) && !HasField(body[0]) {
          var i :| 0 <= i < |body| && HasField(body[i]);
          assert HasField(body[1..][i - 1]);
        }
      }
    }
  }

  /** The guard accepts a file with one mark exactly when its entries hold more than blanks. */
  lemma {:induction false} GuardAccepts(pre: seq<string>, body: seq<string>, rest: seq<string>)
    requires OneMark(pre, body, rest)
    ensures Guard(Notes(pre, body, rest)) <==> SomeField(body)
  {
    assert Notes(pre, body, rest) == pre + ([UNRELEASED] + (body + rest));
    GuardSkips(pre, [UNRELEASED] + (body + rest));
    assert ([UNRELEASED] + (body + rest))[1..] == body + rest;
    GuardReads(body, rest);
  }

  function FirstMark(lines: seq<string>): nat {
    if lines == [] || lines[0] == UNRELEASED then 0 else 1 + FirstMark(lines[1..])
  }

  lemma {:induction false} FirstMarkIs(lines: seq<string>)
    ensures var k := FirstMark(lines); k <= |lines| && NoMark(lines[..k]) && (k < |lines| ==> lines[k] == UNRELEASED)
    decreases |lines|
  {
    if lines != [] && lines[0] != UNRELEASED {
      FirstMarkIs(lines[1..]);
      var k := FirstMark(lines[1..]);
      assert lines[..k + 1] == [lines[0]] + lines[1..][..k];
    }
  }

  /** Line `k` is an entry of a section that starts in front of the lines: it holds something, and no heading but the
      mark again comes up to it. */
  ghost predicate EntryAt(lines: seq<string>, k: nat) {
    && k < |lines| && HasField(lines[k]) && lines[k] != UNRELEASED
    && forall j :: 0 <= j <= k ==> lines[j] == UNRELEASED || !IsHeading(lines[j])
  }

  lemma {:induction false} GuardInside(lines: seq<string>)
    ensures GuardFrom(lines, true) <==> exists k: nat :: EntryAt(lines, k)
    decreases |lines|
  {
    hide IsHeading, HasField;
    if lines != [] {
      var rest := lines[1..];
      GuardInside(rest);
      var passes := lines[0] == UNRELEASED || (!IsHeading(lines[0]) && !HasField(lines[0]));
      if lines[0] != UNRELEASED && !IsHeading(lines[0]) && HasField(lines[0]) {
        assert EntryAt(lines, 0);
      }
      if passes && exists k: nat :: EntryAt(rest, k) {
        var k: nat :| EntryAt(rest, k);
        assert lines[k + 1] == rest[k] && forall j :: 1 <= j <= k + 1 ==> lines[j] == rest[j - 1];
        assert EntryAt(lines, k + 1);
      }
      if passes && exists k: nat :: EntryAt(lines, k) {
        var k: nat :| EntryAt(lines, k);
        assert k > 0 && rest[k - 1] == lines[k] && forall j :: 0 <= j <= k - 1 ==> rest[j] == lines[j + 1];
        assert EntryAt(rest, k - 1);
      }
    }
  }

  ghost predicate HasEntry(lines: seq<string>) {
    exists k: nat :: EntryAt(lines, k)
  }

  /** The first mark of the file is at `m`, and its section has an entry. */
  ghost predicate HoldsEntries(lines: seq<string>, m: nat) {
    m < |lines| && lines[m] == UNRELEASED && NoMark(lines[..m]) && HasEntry(lines[m + 1..])
  }

  lemma {:induction false} FirstMarkOnly(lines: seq<string>, i: nat)
    requires i < |lines| && lines[i] == UNRELEASED && NoMark(lines[..i])
    ensures FirstMark(lines) == i
    decreases |lines|
  {
    if i > 0 {
      assert lines[0] == lines[..i][0] && lines[1..][..i - 1] == lines[..i][1..];
      FirstMarkOnly(lines[1..], i - 1);
    }
  }

  /** The guard accepts any file exactly when the section of its first mark holds more than blanks. */
  lemma {:induction false} GuardExactly(lines: seq<string>)
    ensures Guard(lines) <==> exists m: nat :: HoldsEntries(lines, m)
  {
    hide EntryAt;
    var m := FirstMark(lines);
    FirstMarkIs(lines);
    var rest := lines[m..];
    assert lines == lines[..m] + rest;
    GuardSkips(lines[..m], rest);
    forall i: nat | HoldsEntries(lines, i) ensures i == m {
      FirstMarkOnly(lines, i);
    }
    if m < |lines| {
      assert rest[0] == UNRELEASED && rest[1..] == lines[m + 1..];
      GuardInside(rest[1..]);
      assert HoldsEntries(lines, m) <==> GuardFrom(rest[1..], true);
    }
  }

  lemma {:induction false} EmptySectionRefused(h: string, tail: seq<string>)
    requires IsHeading(h) && h != UNRELEASED
    ensures !GuardFrom([UNRELEASED, "", h] + tail, false)
  {
    hide IsHeading, HasField;
    var rest := [UNRELEASED, "", h] + tail;
    BlankLine();
    assert ([h] + tail)[0] == h && !GuardFrom([h] + tail, true);
    assert rest[1..] == ["", h] + tail && rest[1..][1..] == [h] + tail;
    assert !GuardFrom(rest[1..], true);
  }

  /** Once filed, any file at all is refused: its section is empty now, or was never there. */
  lemma {:induction false} FiledIsRefused(lines: seq<string>, version: string, date: string)
    ensures !Guard(Filed(lines, version, date))
  {
    hide Heading, HasField, StartsWith, IsHeading, Filed;
    var k, h := FirstMark(lines), Heading(version, date);
    FirstMarkIs(lines);
    var pre := lines[..k];
    FiledNothing(pre, version, date);
    if k == |lines| {
      assert pre == lines && lines + [] == lines;
      GuardSkips(lines, []);
    } else {
      var tail := Filed(lines[k + 1..], version, date);
      assert lines == pre + ([UNRELEASED] + lines[k + 1..]);
      FiledAppend(pre, [UNRELEASED] + lines[k + 1..], version, date);
      FiledAppend([UNRELEASED], lines[k + 1..], version, date);
      FiledMark(version, date);
      var rest := [UNRELEASED, "", h] + tail;
      assert Filed(lines, version, date) == pre + rest;
      GuardSkips(pre, rest);
      HeadingAt(version, date);
      EmptySectionRefused(h, tail);
    }
  }
}
