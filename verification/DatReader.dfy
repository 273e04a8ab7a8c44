/** `load_cases_dat` of python/sciforge/corpus/runner.py over the lines of a file. */
module DatReader {
  import opened DatFields
  import opened PyInt

  /** A pattern or an input: code points, since an escape may spell any of them. */
  type Text = seq<nat>

  datatype Case = Case(pattern: Text, input: Text, expected: Outcome, icase: bool)

  datatype Loaded = IndexError | OverflowError | Loaded(cases: seq<Case>, filtered: nat)

  function Codes(s: string): (r: Text)
    ensures |r| == |s| && forall i :: 0 <= i < |r| ==> r[i] == s[i] as nat
  {
    seq(|s|, i requires 0 <= i < |s| => s[i] as nat)
  }

  // --- the fields of a line ---

  /** `[part for part in line.split("\t") if part]`, with `part` the field being read. */
  function FieldsFrom(line: string, part: string): seq<string> {
    if line == "" then if part == "" then [] else [part]
    else if line[0] == '\t' then (if part == "" then [] else [part]) + FieldsFrom(line[1..], "")
    else FieldsFrom(line[1..], part + [line[0]])
  }

  function Fields(line: string): (r: seq<string>)
    ensures forall i :: 0 <= i < |r| ==> r[i] != ""
  {
    PartsNonEmpty(line, "");
    FieldsFrom(line, "")
  }

  lemma {:induction false} PartsNonEmpty(line: string, part: string)
    ensures forall i :: 0 <= i < |FieldsFrom(line, part)| ==> FieldsFrom(line, part)[i] != ""
    decreases |line|
  {
    if line != "" {
      if line[0] == '\t' {
        PartsNonEmpty(line[1..], "");
      } else {
        PartsNonEmpty(line[1..], part + [line[0]]);
      }
    }
  }

  predicate IsControl(c: char) { c == '?' || c == '&' || c == '|' || c == ';' || c == '{' || c == '}' }

  predicate IsUntested(c: char) { c == 'C' || c == 'N' || c == 'T' || '0' <= c <= '9' }

  /** The flags a line runs with, or None when it is not a test. */
  function FlagsOf(first: string): Option<string>
    requires first != ""
  {
    if IsControl(first[0]) then if |first| > 1 then Some(first[1..]) else None
    else if first[0] == ':' then
      var colon := Find(first[1..], ':');
      if colon < 0 then None else Some(first[1..][colon + 1..])
    else if IsUntested(first[0]) then None
    else Some(first)
  }

  function Unnull(part: string): string {
    if part == "NULL" then "" else part
  }

  /** What a line is: no test at all, a test counted as filtered before its pattern is recorded, one whose escapes end
      the load with an OverflowError, or a test with its own pattern (before `SAME` is resolved), its input and its
      outcome field. */
  datatype Line = Skipped | Dropped | Overflown | Test(flags: string, own: Text, input: Text, outcome: string)

  function Classify(line: string): Line {
    var fields := Fields(line);
    if line == "" || line[0] == '#' || fields == [] then Skipped
    else
      match FlagsOf(fields[0])
      case None => Skipped
      case Some(flags) =>
        if |fields| < 4 || "NIL" in fields then Dropped
        else
          var pattern, text, outcome := Unnull(fields[1]), Unnull(fields[2]), Unnull(fields[3]);
          if '$' in flags then
            match (Unquoted(pattern), Unquoted(text))
            case (Read(p), Read(t)) => Test(flags, p, t, outcome)
            case (Overflow, _) => Overflown
            case (_, Overflow) => Overflown
            case _ => Dropped
          else Test(flags, Codes(pattern), Codes(text), outcome)
  }

  // --- what the file means, line by line ---

  const SAME: Text := Codes("SAME")

  /** The pattern of the nearest line before `i` that recorded one of its own; empty when there is none. */
  function Nearest(lines: seq<string>, i: nat): Text
    requires i <= |lines|
  {
    if i == 0 then []
    else
      var l := Classify(lines[i - 1]);
      if l.Test? && l.own != SAME then l.own else Nearest(lines, i - 1)
  }

  function Pattern(lines: seq<string>, i: nat): Text
    requires i < |lines| && Classify(lines[i]).Test?
  {
    var own := Classify(lines[i]).own;
    if own == SAME then Nearest(lines, i) else own
  }

  predicate IsMode(c: char) { c == 'E' || c == 'L' }

  function Modes(flags: string): seq<char> {
    if flags == "" then []
    else Modes(flags[..|flags| - 1]) + if IsMode(flags[|flags| - 1]) then [flags[|flags| - 1]] else []
  }

  predicate IsMeta(c: nat) {
    c == '\\' as nat || c == '.' as nat || c == '+' as nat || c == '*' as nat || c == '?' as nat
    || c == '(' as nat || c == ')' as nat || c == '|' as nat || c == '[' as nat || c == ']' as nat
    || c == '{' as nat || c == '}' as nat || c == '^' as nat || c == '$' as nat
  }

  /** The literal mode: every metacharacter escaped. */
  function Literal(pattern: Text): Text {
    if pattern == [] then []
    else Literal(pattern[..|pattern| - 1])
         + if IsMeta(pattern[|pattern| - 1]) then ['\\' as nat, pattern[|pattern| - 1]] else [pattern[|pattern| - 1]]
  }

  function CaseOf(pattern: Text, input: Text, expected: Outcome, icase: bool, mode: char): Case {
    Case(if mode == 'E' then pattern else Literal(pattern), input, expected, icase)
  }

  function CasesFor(pattern: Text, input: Text, expected: Outcome, icase: bool, modes: seq<char>): (r: seq<Case>)
    ensures |r| == |modes|
    ensures forall k :: 0 <= k < |r| ==> r[k] == CaseOf(pattern, input, expected, icase, modes[k])
  {
    seq(|modes|, k requires 0 <= k < |modes| => CaseOf(pattern, input, expected, icase, modes[k]))
  }

  /** Whether a test yields cases rather than one filtered count. */
  predicate Runs(l: Line) {
    l.Test? && ResultOf(l.outcome) != Unreadable && Modes(l.flags) != []
  }

  function CasesOf(lines: seq<string>, i: nat): seq<Case>
    requires i < |lines|
  {
    var l := Classify(lines[i]);
    if Runs(l) then CasesFor(Pattern(lines, i), l.input, ResultOf(l.outcome), 'i' in l.flags, Modes(l.flags)) else []
  }

  function FilteredOf(line: string): nat {
    var l := Classify(line);
    if l.Dropped? || (l.Test? && !Runs(l)) then 1 else 0
  }

  function AllCases(lines: seq<string>, n: nat): seq<Case>
    requires n <= |lines|
  {
    if n == 0 then [] else AllCases(lines, n - 1) + CasesOf(lines, n - 1)
  }

  function AllFiltered(lines: seq<string>, n: nat): nat
    requires n <= |lines|
  {
    if n == 0 then 0 else AllFiltered(lines, n - 1) + FilteredOf(lines[n - 1])
  }

  /** A line that stops the whole load: a test whose outcome field is `NULL`, hence empty, or one with an escape whose
      code is no C int. */
  predicate Fatal(line: string) {
    var l := Classify(line);
    l.Overflown? || (l.Test? && l.outcome == "")
  }

  ghost predicate FirstFatal(lines: seq<string>, k: nat) {
    k < |lines| && Fatal(lines[k]) && forall j :: 0 <= j < k ==> !Fatal(lines[j])
  }

  // --- the reader ---

  method ReadFields(line: string) returns (fields: seq<string>)
    ensures fields == Fields(line)
  {
    fields := [];
    var part := "";
    for k := 0 to |line|
      invariant FieldsFrom(line, "") == fields + FieldsFrom(line[k..], part)
    {
      assert line[k..][1..] == line[k + 1..];
      if line[k] == '\t' {
        if part != "" {
          fields := fields + [part];
        }
        part := "";
      } else {
        part := part + [line[k]];
      }
    }
    assert line[|line|..] == "";
    if part != "" {
      fields := fields + [part];
    }
  }

  method Quote(pattern: Text) returns (source: Text)
    ensures source == Literal(pattern)
  {
    source := [];
    for k := 0 to |pattern|
      invariant source == Literal(pattern[..k])
    {
      assert pattern[..k + 1][..k] == pattern[..k];
      source := source + if IsMeta(pattern[k]) then ['\\' as nat, pattern[k]] else [pattern[k]];
    }
    assert pattern[..|pattern|] == pattern;
  }

  method ReadModes(flags: string) returns (modes: seq<char>)
    ensures modes == Modes(flags)
  {
    modes := [];
    for k := 0 to |flags|
      invariant modes == Modes(flags[..k])
    {
      assert flags[..k + 1][..k] == flags[..k];
      modes := modes + if IsMode(flags[k]) then [flags[k]] else [];
    }
    assert flags[..|flags|] == flags;
  }

  /** The part of the loop body before `SAME`: the control characters, the field count and the escapes. */
  method ReadLine(line: string) returns (l: Line)
    ensures l == Classify(line)
  {
    hide Unquoted, Find, Codes;
    if line == "" || line[0] == '#' {
      return Skipped;
    }
    var fields := ReadFields(line);
    if fields == [] {
      return Skipped;
    }
    var flags := fields[0];
    if IsControl(flags[0]) {
      flags := flags[1..];
      if flags == "" {
        return Skipped;
      }
    } else if flags[0] == ':' {
      var colon := Find(flags[1..], ':');
      if colon < 0 {
        return Skipped;
      }
      flags := flags[1..][colon + 1..];
    } else if IsUntested(flags[0]) {
      return Skipped;
    }
    if |fields| < 4 || "NIL" in fields {
      return Dropped;
    }
    var pattern, text, outcome := Unnull(fields[1]), Unnull(fields[2]), Unnull(fields[3]);
    if '$' in flags {
      var p := Unquote(pattern);
      var t := Unquote(text);
      if p.Overflow? || t.Overflow? {
        return Overflown;
      }
      if p.Refused? || t.Refused? {
        return Dropped;
      }
      return Test(flags, p.value, t.value, outcome);
    }
    return Test(flags, Codes(pattern), Codes(text), outcome);
  }

  method MakeCases(pattern: Text, input: Text, expected: Outcome, icase: bool,
                   modes: seq<char>) returns (cases: seq<Case>)
    ensures cases == CasesFor(pattern, input, expected, icase, modes)
  {
    cases := [];
    for k := 0 to |modes|
      invariant cases == CasesFor(pattern, input, expected, icase, modes[..k])
    {
      var source := pattern;
      if modes[k] != 'E' {
        source := Quote(pattern);
      }
      cases := cases + [Case(source, input, expected, icase)];
      assert CasesFor(pattern, input, expected, icase, modes[..k + 1])
          == CasesFor(pattern, input, expected, icase, modes[..k])
              + [CaseOf(pattern, input, expected, icase, modes[k])];
    }
    assert modes[..|modes|] == modes;
  }

  /** `load_cases_dat(..., with_filtered=True)`. It fails if and only if some line is fatal, and then as the first such
      line does: with OverflowError on an escape, with IndexError on a `NULL` outcome. Otherwise its cases and its
      count are those of the lines. */
  method LoadCases(lines: seq<string>) returns (r: Loaded)
    ensures r.OverflowError? <==> exists k: nat :: FirstFatal(lines, k) && Classify(lines[k]).Overflown?
    ensures r.IndexError? <==> exists k: nat :: FirstFatal(lines, k) && Classify(lines[k]).Test?
    ensures r.Loaded? <==> forall k :: 0 <= k < |lines| ==> !Fatal(lines[k])
    ensures r.Loaded? ==> r.cases == AllCases(lines, |lines|) && r.filtered == AllFiltered(lines, |lines|)
  {
    hide Classify, ResultOf, Modes, CasesFor, AllCases, AllFiltered, Nearest, FirstFatal;
    var cases: seq<Case>, filtered, last := [], 0, [];
    NothingRead(lines);
    for i := 0 to |lines|
      invariant cases == AllCases(lines, i) && filtered == AllFiltered(lines, i)
      invariant last == Nearest(lines, i)
      invariant forall j :: 0 <= j < i ==> !Fatal(lines[j])
    {
      LineRead(lines, i);
      var l := ReadLine(lines[i]);
      if l.Skipped? {
        continue;
      }
      if l.Overflown? {
        OneFirst(lines, i);
        return OverflowError;
      }
      if l.Dropped? {
        filtered := filtered + 1;
        continue;
      }
      var pattern := l.own;
      if pattern == SAME {
        pattern := last;
      }
      NearestIsNotSame(lines, i);
      last := pattern;
      var expected := ParseResult(l.outcome);
      CrashesOnEmpty(l.outcome);
      if expected == Crash {
        OneFirst(lines, i);
        return IndexError;
      }
      var modes := ReadModes(l.flags);
      if expected == Unreadable || modes == [] {
        filtered := filtered + 1;
        continue;
      }
      var more := MakeCases(pattern, l.input, expected, 'i' in l.flags, modes);
      cases := cases + more;
    }
    NoneFirst(lines);
    return Loaded(cases, filtered);
  }

  lemma {:induction false} NothingRead(lines: seq<string>)
    ensures AllCases(lines, 0) == [] && AllFiltered(lines, 0) == 0 && Nearest(lines, 0) == []
  {
  }

  /** What one line adds. */
  lemma {:induction false} LineRead(lines: seq<string>, i: nat)
    requires i < |lines|
    ensures AllCases(lines, i + 1) == AllCases(lines, i) + CasesOf(lines, i)
    ensures AllFiltered(lines, i + 1) == AllFiltered(lines, i) + FilteredOf(lines[i])
    ensures var l := Classify(lines[i]);
            Nearest(lines, i + 1) == if l.Test? && l.own != SAME then l.own else Nearest(lines, i)
  {
    hide Classify, CasesOf, FilteredOf;
  }

  lemma {:induction false} OneFirst(lines: seq<string>, i: nat)
    requires i < |lines| && Fatal(lines[i]) && forall j :: 0 <= j < i ==> !Fatal(lines[j])
    ensures forall k: nat :: FirstFatal(lines, k) <==> k == i
  {
    hide Fatal;
  }

  lemma {:induction false} NoneFirst(lines: seq<string>)
    requires forall j :: 0 <= j < |lines| ==> !Fatal(lines[j])
    ensures forall k: nat :: !FirstFatal(lines, k)
  {
    hide Fatal;
  }

  // --- the accounting ---

  lemma {:induction false} CrashesOnEmpty(field: string)
    ensures ResultOf(field) == Crash <==> field == ""
  {
    hide ArrayValues;
  }

  /** The remembered pattern is never itself `SAME`. */
  lemma {:induction false} NearestIsNotSame(lines: seq<string>, i: nat)
    requires i <= |lines|
    ensures Nearest(lines, i) != SAME
    decreases i
  {
    hide Classify;
    if i > 0 {
      NearestIsNotSame(lines, i - 1);
    } else {
      assert |SAME| == 4;
    }
  }

  /** `SAME` resolves to the nearest earlier line that recorded a pattern, whatever lies between. */
  lemma {:induction false} SameResolves(lines: seq<string>, j: nat, i: nat)
    requires j < i <= |lines| && Classify(lines[j]).Test? && Classify(lines[j]).own != SAME
    requires forall k :: j < k < i && Classify(lines[k]).Test? ==> Classify(lines[k]).own == SAME
    ensures Nearest(lines, i) == Classify(lines[j]).own
    decreases i
  {
    hide Classify;
    if j < i - 1 {
      SameResolves(lines, j, i - 1);
    }
  }

  function ModeCount(flags: string): nat {
    if flags == "" then 0 else ModeCount(flags[..|flags| - 1]) + if IsMode(flags[|flags| - 1]) then 1 else 0
  }

  lemma {:induction false} ModesCounted(flags: string)
    ensures |Modes(flags)| == ModeCount(flags)
    decreases |flags|
  {
    if flags != "" {
      ModesCounted(flags[..|flags| - 1]);
    }
  }

  /** A line reaching the field-count check yields one case per `E` or `L` of its flags, or one filtered count. */
  lemma {:induction false} LineAccounted(lines: seq<string>, i: nat)
    requires i < |lines|
    ensures var l := Classify(lines[i]);
            && (l.Skipped? || l.Overflown? ==> CasesOf(lines, i) == [] && FilteredOf(lines[i]) == 0)
            && (l.Dropped? || l.Test? ==>
                  (CasesOf(lines, i) == [] && FilteredOf(lines[i]) == 1)
                  || (l.Test? && |CasesOf(lines, i)| == ModeCount(l.flags) > 0 && FilteredOf(lines[i]) == 0))
  {
    hide Classify, ResultOf, Modes, CasesFor;
    var l := Classify(lines[i]);
    if l.Test? {
      ModesCounted(l.flags);
    }
  }

  ghost predicate IsField(part: string) {
    part != "" && forall i :: 0 <= i < |part| ==> part[i] != '\t'
  }

  function Tabbed(parts: seq<string>): string {
    if parts == [] then "" else if |parts| == 1 then parts[0] else parts[0] + "\t" + Tabbed(parts[1..])
  }

  lemma {:induction false} FieldEnds(begun: string, part: string, rest: string)
    requires forall i :: 0 <= i < |part| ==> part[i] != '\t'
    requires begun + part != "" && (rest == "" || rest[0] == '\t')
    ensures FieldsFrom(part + rest, begun) == [begun + part] + if rest == "" then [] else FieldsFrom(rest[1..], "")
    decreases |part|
  {
    if part == "" {
      assert part + rest == rest && begun + part == begun;
    } else {
      assert (part + rest)[1..] == part[1..] + rest;
      assert begun + [part[0]] + part[1..] == begun + part;
      FieldEnds(begun + [part[0]], part[1..], rest);
    }
  }

  /** Fields joined by single tabs are split back. */
  lemma {:induction false} TabbedFields(parts: seq<string>)
    requires forall i :: 0 <= i < |parts| ==> IsField(parts[i])
    ensures Fields(Tabbed(parts)) == parts
    decreases |parts|
  {
    hide FieldsFrom;
    if parts == [] {
      NoFields();
    } else {
      TabbedFields(parts[1..]);
      var rest := if |parts| == 1 then "" else "\t" + Tabbed(parts[1..]);
      FieldEnds("", parts[0], rest);
      assert Tabbed(parts) == parts[0] + rest && "" + parts[0] == parts[0];
      assert parts == [parts[0]] + parts[1..];
      if |parts| > 1 {
        assert rest[1..] == Tabbed(parts[1..]);
      }
    }
  }

  lemma {:induction false} NoFields()
    ensures FieldsFrom("", "") == []
  {
  }

  lemma {:induction false} TabbedStart(parts: seq<string>)
    requires parts != [] && parts[0] != ""
    ensures Tabbed(parts) != "" && Tabbed(parts)[0] == parts[0][0]
  {
  }

  // --- the literal mode ---

  /** Reading a literal back: a backslash stands for the character after it. */
  function Unliteral(source: Text): Text {
    if source == [] then []
    else if source[0] == '\\' as nat && |source| > 1 then [source[1]] + Unliteral(source[2..])
    else [source[0]] + Unliteral(source[1..])
  }

  lemma {:induction false} LiteralFront(c: nat, rest: Text)
    ensures Literal([c] + rest) == (if IsMeta(c) then ['\\' as nat, c] else [c]) + Literal(rest)
    decreases |rest|
  {
    if rest == [] {
      assert [c] + rest == [c] && [c][..0] == [];
    } else {
      LiteralFront(c, rest[..|rest| - 1]);
      var s := [c] + rest;
      assert s[..|s| - 1] == [c] + rest[..|rest| - 1] && s[|s| - 1] == rest[|rest| - 1];
    }
  }

  /** Literal quoting un-escapes to the pattern. */
  lemma {:induction false} LiteralUndone(pattern: Text)
    ensures Unliteral(Literal(pattern)) == pattern
    decreases |pattern|
  {
    hide Literal;
    if pattern == [] {
      assert Literal([]) == [] by { EmptyLiteral(); }
    } else {
      var c, rest := pattern[0], pattern[1..];
      LiteralUndone(rest);
      LiteralFront(c, rest);
      assert pattern == [c] + rest;
      var s := Literal(pattern);
      if IsMeta(c) {
        assert s[2..] == Literal(rest) && s[0] == '\\' as nat && s[1] == c;
      } else {
        assert s[1..] == Literal(rest) && s[0] == c;
      }
    }
  }

  lemma {:induction false} EmptyLiteral()
    ensures Literal([]) == []
  {
  }
}
