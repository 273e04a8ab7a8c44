/** What a line of a Fowler `.dat` file adds to the load, read off the line as it is written: which field is the
    pattern and which the input, one case per `E` or `L`, what `SAME` stands for, and which lines add nothing. */
module DatLaws {
  import opened DatFields
  import opened DatReader
  import opened PyInt

  // --- the fields of a line ---

  lemma {:induction false} PartsSplit(a: string, b: string, part: string)
    ensures FieldsFrom(a + "\t" + b, part) == FieldsFrom(a, part) + FieldsFrom(b, "")
    decreases |a|
  {
    var line := a + "\t" + b;
    if a == "" {
      assert line[0] == '\t' && line[1..] == b;
    } else {
      assert line[0] == a[0] && line[1..] == a[1..] + "\t" + b;
      PartsSplit(a[1..], b, if a[0] == '\t' then "" else part + [a[0]]);
    }
  }

  /** Fields are separated by tabs, and a run of tabs separates as one does: with the fields of a text that holds no
      tab, this says what the fields of any line are. */
  lemma {:induction false} FieldsSplit(a: string, b: string)
    ensures Fields(a + "\t" + b) == Fields(a) + Fields(b)
    ensures '\t' !in a ==> Fields(a) == if a == "" then [] else [a]
  {
    PartsSplit(a, b, "");
    if '\t' !in a && a != "" {
      FieldEnds("", a, "");
      assert a + "" == a && "" + a == a;
    }
  }

  // --- a row as it is written ---

  datatype FlagForm = Plain | Control(c: char) | Commented(text: string)

  function FlagField(form: FlagForm, flags: string): string {
    match form
    case Plain => flags
    case Control(c) => [c] + flags
    case Commented(text) => ":" + text + ":" + flags
  }

  ghost predicate FlagsFit(form: FlagForm, flags: string) {
    && '\t' !in FlagField(form, flags)
    && match form
       case Plain => flags != "" && flags[0] !in "#:?&|;{}CNT0123456789"
       case Control(c) => c in "?&|;{}" && flags != ""
       case Commented(text) => ':' !in text
  }

  /** An empty field is written `NULL`. */
  function Nulled(text: string): string {
    if text == "" then "NULL" else text
  }

  ghost predicate CanBeField(text: string) {
    '\t' !in text && text != "NULL" && text != "NIL"
  }

  ghost predicate CanBeComments(comments: seq<string>) {
    forall i :: 0 <= i < |comments| ==> comments[i] != "" && '\t' !in comments[i] && comments[i] != "NIL"
  }

  ghost predicate IsRow(line: string, form: FlagForm, flags: string, pattern: string, input: string, outcome: string,
                        comments: seq<string>)
  {
    && FlagsFit(form, flags) && CanBeField(pattern) && CanBeField(input) && CanBeField(outcome)
    && CanBeComments(comments)
    && line == Tabbed([FlagField(form, flags), Nulled(pattern), Nulled(input), Nulled(outcome)] + comments)
  }

  /** A match array that `int` reads offset by offset. */
  ghost predicate IsArray(outcome: string, tokens: Tokens) {
    tokens != [] && AreTokens(tokens) && outcome == ArrayText(tokens)
  }

  /** What an outcome field says: an upper-case word is an error other than `NOMATCH`, and a match array gives the
      whole span and the groups. */
  ghost predicate Prints(outcome: string, expected: Outcome) {
    match expected
    case Crash => outcome == ""
    case NoMatch => outcome == "NOMATCH"
    case Rejected => outcome != "" && 'A' <= outcome[0] <= 'Z' && outcome != "NOMATCH"
    case Spans(span, groups) =>
      exists tokens :: IsArray(outcome, tokens) && TokenValues(tokens) == Flat([span] + groups)
    case Unreadable =>
      outcome != "" && !('A' <= outcome[0] <= 'Z') && forall tokens :: !IsArray(outcome, tokens)
  }

  /** One case for each `E` or `L`, in order: the pattern as it is for `E`, quoted for `L`. */
  function PerMode(flags: string, pattern: Text, input: Text, expected: Outcome, icase: bool): seq<Case> {
    if flags == "" then []
    else (if flags[0] == 'E' then [Case(pattern, input, expected, icase)]
          else if flags[0] == 'L' then [Case(Literal(pattern), input, expected, icase)]
          else [])
         + PerMode(flags[1..], pattern, input, expected, icase)
  }

  ghost predicate Yields(flags: string, expected: Outcome) {
    !expected.Unreadable? && ('E' in flags || 'L' in flags)
  }

  /** What a row runs: nothing when its outcome cannot be read. */
  function CasesIn(flags: string, pattern: Text, input: Text, expected: Outcome): seq<Case> {
    if expected.Unreadable? then [] else PerMode(flags, pattern, input, expected, 'i' in flags)
  }

  /** Line `i` lets the load go on, adds these cases and this count, and leaves this pattern for `SAME`. */
  ghost predicate Adds(lines: seq<string>, i: nat, cases: seq<Case>, filtered: nat, last: Text)
    requires i < |lines|
  {
    && !Fatal(lines[i])
    && AllCases(lines, i + 1) == AllCases(lines, i) + cases
    && AllFiltered(lines, i + 1) == AllFiltered(lines, i) + filtered
    && Nearest(lines, i + 1) == last
  }

  // --- what its fields are read as ---

  lemma {:induction false} FlagsRead(form: FlagForm, flags: string)
    requires FlagsFit(form, flags)
    ensures FlagField(form, flags) != "" && FlagField(form, flags)[0] != '#' && FlagField(form, flags) != "NIL"
    ensures FlagsOf(FlagField(form, flags)) == Some(flags)
  {
    hide Find;
    var first := FlagField(form, flags);
    if form.Commented? {
      var rest := first[1..];
      assert rest == form.text + ":" + flags;
      assert rest[|form.text|] == ':';
      assert forall j :: 0 <= j < |form.text| ==> rest[j] == form.text[j];
      assert rest[|form.text| + 1..] == flags;
    } else if form.Control? {
      assert first[1..] == flags;
    }
  }

  lemma {:induction false} RowFields(line: string, form: FlagForm, flags: string, pattern: string, input: string,
                                     outcome: string, comments: seq<string>)
    requires IsRow(line, form, flags, pattern, input, outcome, comments)
    ensures line != "" && line[0] != '#' && "NIL" !in Fields(line)
    ensures Fields(line) == [FlagField(form, flags), Nulled(pattern), Nulled(input), Nulled(outcome)] + comments
  {
    hide Tabbed, Fields, FlagField, FlagsOf;
    var parts := [FlagField(form, flags), Nulled(pattern), Nulled(input), Nulled(outcome)] + comments;
    FlagsRead(form, flags);
    TabbedFields(parts);
    TabbedStart(parts);
  }

  lemma {:induction false} RowRead(line: string, form: FlagForm, flags: string, pattern: string, input: string,
                                   outcome: string, comments: seq<string>)
    requires IsRow(line, form, flags, pattern, input, outcome, comments)
    ensures Classify(line) ==
            if '$' !in flags then Test(flags, Codes(pattern), Codes(input), outcome)
            else if Unquoted(pattern).Overflow? then Overflown
            else if Unquoted(pattern).Read? && Unquoted(input).Read?
              then Test(flags, Unquoted(pattern).value, Unquoted(input).value, outcome)
            else if Unquoted(input).Overflow? then Overflown else Dropped
  {
    hide Tabbed, Fields, FlagField, FlagsOf, Unquoted, Codes;
    RowFields(line, form, flags, pattern, input, outcome, comments);
    FlagsRead(form, flags);
  }

  lemma {:induction false} ArrayReads(outcome: string, tokens: Tokens)
    requires IsArray(outcome, tokens)
    ensures outcome != "" && outcome[0] == '(' && TokenValues(tokens) != []
    ensures ResultOf(outcome).Spans?
    ensures var r := ResultOf(outcome); Flat([r.span] + r.groups) == TokenValues(tokens)
  {
    hide ArrayValues, AreTokens, TokenValue;
    TokensRead(tokens);
    ArrayParity(outcome, true);
    PairsFlat(TokenValues(tokens));
    var r, pairs := ResultOf(outcome), Pairs(TokenValues(tokens));
    assert [pairs[0]] + pairs[1..] == pairs;
  }

  lemma {:induction false} PairsFlat(values: seq<int>)
    requires |values| % 2 == 0
    ensures Flat(Pairs(values)) == values
  {
    hide Flat;
    var pairs := Pairs(values);
    forall k | 0 <= k < |values| ensures Flat(pairs)[k] == values[k] {
      assert pairs[k / 2] == (values[2 * (k / 2)], values[2 * (k / 2) + 1]);
      assert k == 2 * (k / 2) || k == 2 * (k / 2) + 1;
    }
  }

  lemma {:induction false} FlatInjective(a: seq<Span>, b: seq<Span>)
    requires Flat(a) == Flat(b)
    ensures a == b
  {
    hide Flat;
    assert forall k :: 0 <= k < |a| ==> a[k].0 == Flat(a)[2 * k] && a[k].1 == Flat(a)[2 * k + 1];
    assert forall k :: 0 <= k < |b| ==> b[k].0 == Flat(b)[2 * k] && b[k].1 == Flat(b)[2 * k + 1];
  }

  /** Every outcome field says one thing, and the reader reads it. */
  lemma {:induction false} OutcomeExactly(outcome: string, expected: Outcome)
    ensures ResultOf(outcome) == expected <==> Prints(outcome, expected)
  {
    hide ArrayValues, Flat, ArrayText, AreTokens, TokenValues, Pairs;
    forall tokens | IsArray(outcome, tokens)
      ensures outcome != "" && outcome[0] == '(' && ResultOf(outcome).Spans?
      ensures var r := ResultOf(outcome); Flat([r.span] + r.groups) == TokenValues(tokens)
    {
      ArrayReads(outcome, tokens);
    }
    if ResultOf(outcome).Spans? {
      var tokens := ArrayIsTokens(outcome);
      assert IsArray(outcome, tokens) by { EmptyText(); }
    }
    if expected.Spans? {
      SpansExactly(outcome, expected);
    }
  }

  lemma {:induction false} SpansExactly(outcome: string, expected: Outcome)
    requires expected.Spans? && forall tokens :: IsArray(outcome, tokens) ==>
               var r := ResultOf(outcome); r.Spans? && Flat([r.span] + r.groups) == TokenValues(tokens)
    requires ResultOf(outcome).Spans? ==> exists tokens :: IsArray(outcome, tokens)
    ensures ResultOf(outcome) == expected <==> Prints(outcome, expected)
  {
    hide ResultOf, Flat, IsArray;
    var r := ResultOf(outcome);
    if Prints(outcome, expected) {
      FlatInjective([r.span] + r.groups, [expected.span] + expected.groups);
      assert r.groups == ([r.span] + r.groups)[1..] && expected.groups == ([expected.span] + expected.groups)[1..];
      assert r.span == ([r.span] + r.groups)[0] && expected.span == ([expected.span] + expected.groups)[0];
    }
  }

  lemma {:induction false} EmptyText()
    ensures ArrayText([]) == ""
  {
  }

  lemma {:induction false} OutcomeRead(outcome: string, expected: Outcome)
    requires outcome != "" && Prints(outcome, expected)
    ensures ResultOf(outcome) == expected && !expected.Crash?
  {
    hide ResultOf;
    OutcomeExactly(outcome, expected);
  }

  lemma {:induction false} ModesFront(c: char, rest: string)
    ensures Modes([c] + rest) == (if IsMode(c) then [c] else []) + Modes(rest)
    decreases |rest|
  {
    var s := [c] + rest;
    if rest == "" {
      assert s[..0] == "" && Modes("") == [];
    } else {
      ModesFront(c, rest[..|rest| - 1]);
      assert s[..|s| - 1] == [c] + rest[..|rest| - 1] && s[|s| - 1] == rest[|rest| - 1];
    }
  }

  lemma {:induction false} CasesForFront(pattern: Text, input: Text, expected: Outcome, icase: bool, m: char,
                                         modes: seq<char>)
    ensures CasesFor(pattern, input, expected, icase, [m] + modes)
            == [CaseOf(pattern, input, expected, icase, m)] + CasesFor(pattern, input, expected, icase, modes)
  {
    hide CaseOf;
  }

  lemma {:induction false} ModesPerMode(flags: string, pattern: Text, input: Text, expected: Outcome, icase: bool)
    ensures CasesFor(pattern, input, expected, icase, Modes(flags)) == PerMode(flags, pattern, input, expected, icase)
    decreases |flags|
  {
    hide Literal, CasesFor, Modes;
    if flags == "" {
      NoModes(pattern, input, expected, icase);
    } else {
      var c, rest := flags[0], flags[1..];
      ModesPerMode(rest, pattern, input, expected, icase);
      ModesFront(c, rest);
      assert flags == [c] + rest && [] + Modes(rest) == Modes(rest);
      if IsMode(c) {
        CasesForFront(pattern, input, expected, icase, c, Modes(rest));
      }
    }
  }

  lemma {:induction false} NoModes(pattern: Text, input: Text, expected: Outcome, icase: bool)
    ensures CasesFor(pattern, input, expected, icase, Modes("")) == []
  {
  }

  lemma {:induction false} ModesIn(flags: string)
    ensures Modes(flags) == [] <==> 'E' !in flags && 'L' !in flags
    decreases |flags|
  {
    if flags != "" {
      ModesIn(flags[..|flags| - 1]);
      assert flags == flags[..|flags| - 1] + [flags[|flags| - 1]];
    }
  }

  lemma {:induction false} TestAdds(lines: seq<string>, i: nat, flags: string, own: Text, input: Text, outcome: string,
                                    expected: Outcome)
    requires i < |lines| && Classify(lines[i]) == Test(flags, own, input, outcome)
    requires outcome != "" && Prints(outcome, expected)
    ensures var pattern := if own == Codes("SAME") then Nearest(lines, i) else own;
            Adds(lines, i, CasesIn(flags, pattern, input, expected),
                 if Yields(flags, expected) then 0 else 1, pattern)
  {
    hide Classify, ResultOf, Modes, CasesFor, AllCases, AllFiltered, Nearest, Prints, PerMode;
    var pattern := if own == Codes("SAME") then Nearest(lines, i) else own;
    LineRead(lines, i);
    OutcomeRead(outcome, expected);
    ModesPerMode(flags, pattern, input, expected, 'i' in flags);
    ModesIn(flags);
    NoCases(pattern, input, expected, 'i' in flags);
  }

  lemma {:induction false} NoCases(pattern: Text, input: Text, expected: Outcome, icase: bool)
    ensures CasesFor(pattern, input, expected, icase, []) == []
  {
  }

  // --- the laws ---

  /** A row without `$`: the second field is the pattern, the third the input, both as they are written. It gives one
      case per `E` or `L`, without regard to case exactly when `i` is in its flags, and one filtered count when there
      is no such mode. */
  lemma {:induction false} PlainRow(lines: seq<string>, i: nat, form: FlagForm, flags: string, pattern: string,
                                    input: string, outcome: string, expected: Outcome, comments: seq<string>)
    requires i < |lines| && IsRow(lines[i], form, flags, pattern, input, outcome, comments)
    requires '$' !in flags && pattern != "SAME" && outcome != "" && Prints(outcome, expected)
    ensures Adds(lines, i, CasesIn(flags, Codes(pattern), Codes(input), expected),
                 if Yields(flags, expected) then 0 else 1, Codes(pattern))
  {
    hide IsRow, Prints, PerMode, Adds, Classify, Nearest;
    RowRead(lines[i], form, flags, pattern, input, outcome, comments);
    CodesInjective(pattern, "SAME");
    TestAdds(lines, i, flags, Codes(pattern), Codes(input), outcome, expected);
  }

  /** A row with `$`: pattern and input are the texts their spellings stand for, `SAME` too when it is spelt. */
  lemma {:induction false} EscapedRow(lines: seq<string>, i: nat, form: FlagForm, flags: string, pattern: seq<Spelling>,
                                      input: seq<Spelling>, outcome: string, expected: Outcome, comments: seq<string>)
    requires forall k :: 0 <= k < |pattern| ==> WellSpelt(pattern[k])
    requires forall k :: 0 <= k < |input| ==> WellSpelt(input[k])
    requires i < |lines|
    requires IsRow(lines[i], form, flags, FieldText(pattern), FieldText(input), outcome, comments)
    requires '$' in flags && outcome != "" && Prints(outcome, expected)
    ensures var own := if CodePoints(pattern) == Codes("SAME") then Nearest(lines, i) else CodePoints(pattern);
            Adds(lines, i, CasesIn(flags, own, CodePoints(input), expected),
                 if Yields(flags, expected) then 0 else 1, own)
  {
    hide IsRow, Prints, PerMode, Adds, Classify, Nearest, FieldText, CodePoints, WellSpelt;
    RowRead(lines[i], form, flags, FieldText(pattern), FieldText(input), outcome, comments);
    UnquoteUndoes(pattern);
    UnquoteUndoes(input);
    TestAdds(lines, i, flags, CodePoints(pattern), CodePoints(input), outcome, expected);
  }

  /** A row whose pattern is `SAME` runs the pattern left by the lines before it, and leaves it as it is. */
  lemma {:induction false} SameRow(lines: seq<string>, i: nat, form: FlagForm, flags: string, input: string,
                                   outcome: string, expected: Outcome, comments: seq<string>)
    requires i < |lines| && IsRow(lines[i], form, flags, "SAME", input, outcome, comments)
    requires '$' !in flags && outcome != "" && Prints(outcome, expected)
    ensures Adds(lines, i, CasesIn(flags, Nearest(lines, i), Codes(input), expected),
                 if Yields(flags, expected) then 0 else 1, Nearest(lines, i))
  {
    hide IsRow, Prints, PerMode, Adds, Classify, Nearest;
    RowRead(lines[i], form, flags, "SAME", input, outcome, comments);
    TestAdds(lines, i, flags, Codes("SAME"), Codes(input), outcome, expected);
  }

  lemma {:induction false} CodesInjective(a: string, b: string)
    ensures Codes(a) == Codes(b) ==> a == b
  {
    if Codes(a) == Codes(b) {
      assert forall i :: 0 <= i < |a| ==> Codes(a)[i] == a[i] as nat && Codes(b)[i] == b[i] as nat;
    }
  }

  /** The other family of lines that end the load: any test whose fields can be read and whose outcome is empty,
      hence written `NULL`. */
  lemma {:induction false} NullOutcomeIsFatal(line: string, form: FlagForm, flags: string, pattern: string,
                                              input: string, comments: seq<string>)
    requires IsRow(line, form, flags, pattern, input, "", comments)
    requires '$' in flags ==> Unquoted(pattern).Read? && Unquoted(input).Read?
    ensures Fatal(line) && Classify(line).Test?
  {
    hide IsRow, Classify, Unquoted;
    RowRead(line, form, flags, pattern, input, "", comments);
  }

  /** A row with `$` of which a field cannot be unquoted: counted as filtered, or the end of the load. */
  lemma {:induction false} UnreadRow(lines: seq<string>, i: nat, form: FlagForm, flags: string, pattern: string,
                                     input: string, outcome: string, comments: seq<string>)
    requires i < |lines| && IsRow(lines[i], form, flags, pattern, input, outcome, comments) && '$' in flags
    ensures Unquoted(pattern).Overflow? || Unquoted(input).Overflow? ==>
              Fatal(lines[i]) && Classify(lines[i]).Overflown?
    ensures !Unquoted(pattern).Overflow? && !Unquoted(input).Overflow?
            && (Unquoted(pattern).Refused? || Unquoted(input).Refused?) ==>
              Adds(lines, i, [], 1, Nearest(lines, i))
  {
    hide IsRow, Classify, Nearest, Unquoted, AllCases, AllFiltered;
    RowRead(lines[i], form, flags, pattern, input, outcome, comments);
    LineRead(lines, i);
  }

  /** Lines that are no test add nothing: empty ones, those that begin with `#`, those of tabs alone, and those whose
      first field begins with `C`, `N`, `T` or a digit, is a control character alone, or opens a comment without
      closing it. */
  lemma {:induction false} NoTest(lines: seq<string>, i: nat)
    requires i < |lines|
    requires var line := lines[i];
             || line == "" || line[0] == '#' || Fields(line) == []
             || Fields(line)[0][0] in "CNT0123456789"
             || (Fields(line)[0][0] in "?&|;{}" && |Fields(line)[0]| == 1)
             || (Fields(line)[0][0] == ':' && ':' !in Fields(line)[0][1..])
    ensures Adds(lines, i, [], 0, Nearest(lines, i))
  {
    hide Nearest, Unquoted, Fields, Find, AllCases, AllFiltered;
    LineRead(lines, i);
  }

  /** A test with fewer than four fields, or with a field `NIL`, is counted as filtered and leaves `SAME` alone. */
  lemma {:induction false} ShortRow(lines: seq<string>, i: nat, form: FlagForm, flags: string, rest: seq<string>)
    requires i < |lines| && FlagsFit(form, flags) && Fields(lines[i]) == [FlagField(form, flags)] + rest
    requires lines[i] != "" && lines[i][0] != '#'
    requires |rest| < 3 || "NIL" in rest
    ensures Adds(lines, i, [], 1, Nearest(lines, i))
  {
    hide Nearest, Unquoted, Fields, FlagsOf, FlagField, AllCases, AllFiltered;
    FlagsRead(form, flags);
    LineRead(lines, i);
    assert Fields(lines[i])[0] == FlagField(form, flags) && Fields(lines[i])[1..] == rest;
  }

  lemma {:induction false} LiteralAppend(pattern: Text, more: Text)
    ensures Literal(pattern + more) == Literal(pattern) + Literal(more)
    decreases |more|
  {
    hide IsMeta;
    if more == [] {
      assert pattern + more == pattern && Literal([]) == [];
    } else {
      var front, last := more[..|more| - 1], more[|more| - 1];
      LiteralAppend(pattern, front);
      var s := pattern + more;
      assert s[..|s| - 1] == pattern + front && s[|s| - 1] == last;
    }
  }

  /** The literal mode puts a backslash in front of each of the fourteen metacharacters and of nothing else. */
  lemma {:induction false} LiteralEscapes(pattern: Text, c: char, more: Text)
    ensures Literal([]) == []
    ensures var escaped := if c in "\\.+*?()|[]{}^$" then ['\\' as nat, c as nat] else [c as nat];
            Literal(pattern + [c as nat] + more) == Literal(pattern) + escaped + Literal(more)
  {
    hide Literal;
    EmptyLiteral();
    LiteralAppend(pattern + [c as nat], more);
    LiteralAppend(pattern, [c as nat]);
    LiteralFront(c as nat, []);
    assert [c as nat] + [] == [c as nat];
  }
}
