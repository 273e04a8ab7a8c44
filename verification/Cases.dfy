/** The exhaustive case space: `enumerate_cases` and `as_cases` of python/sciforge/corpus/exhaustive.py. */
module Cases {
  import opened Order
  import PatternParser
  import PatternCount
  import Inputs
  import Corpus

  /** Patterns in text order, and under each its inputs by (length, text). */
  predicate CaseLess(a: (string, string), b: (string, string)) {
    LexLess(a.0, b.0) || (a.0 == b.0 && ShortLexLess(a.1, b.1))
  }

  function CrossWith(pattern: string, inputs: seq<string>): (r: seq<(string, string)>)
    ensures |r| == |inputs| && forall i :: 0 <= i < |inputs| ==> r[i] == (pattern, inputs[i])
  {
    seq(|inputs|, i requires 0 <= i < |inputs| => (pattern, inputs[i]))
  }

  function Cross(patterns: seq<string>, inputs: seq<string>): seq<(string, string)> {
    if patterns == [] then []
    else Cross(patterns[..|patterns| - 1], inputs) + CrossWith(patterns[|patterns| - 1], inputs)
  }

  lemma {:induction false} CrossCount(patterns: seq<string>, inputs: seq<string>)
    ensures |Cross(patterns, inputs)| == |patterns| * |inputs|
    decreases |patterns|
  {
    if patterns != [] {
      var n := |patterns| - 1;
      CrossCount(patterns[..n], inputs);
      assert (n + 1) * |inputs| == n * |inputs| + |inputs|;
    }
  }

  lemma {:induction false} CrossHolds(patterns: seq<string>, inputs: seq<string>, c: (string, string))
    ensures c in Cross(patterns, inputs) <==> c.0 in patterns && c.1 in inputs
    decreases |patterns|
  {
    if patterns != [] {
      var n := |patterns| - 1;
      CrossHolds(patterns[..n], inputs, c);
      var row := CrossWith(patterns[n], inputs);
      assert c in row <==> c.0 == patterns[n] && c.1 in inputs by {
        if c.0 == patterns[n] && c.1 in inputs {
          var i :| 0 <= i < |inputs| && inputs[i] == c.1;
          assert row[i] == c;
        }
      }
      assert patterns == patterns[..n] + [patterns[n]];
    }
  }

  lemma {:induction false} CrossIncreasing(patterns: seq<string>, inputs: seq<string>)
    requires Increasing(LexLess, patterns) && Increasing(ShortLexLess, inputs)
    ensures Increasing(CaseLess, Cross(patterns, inputs))
    decreases |patterns|
  {
    hide LexLess, ShortLexLess;
    if patterns != [] {
      var n := |patterns| - 1;
      var front, row := Cross(patterns[..n], inputs), CrossWith(patterns[n], inputs);
      CrossIncreasing(patterns[..n], inputs);
      forall i | 0 <= i < |front| ensures LexLess(front[i].0, patterns[n]) {
        assert front[i] in front;
        CrossHolds(patterns[..n], inputs, front[i]);
      }
      forall i, j | 0 <= i < j < |front + row| ensures CaseLess((front + row)[i], (front + row)[j]) {
        if i < |front| && j < |front| {
          assert CaseLess(front[i], front[j]);
        } else if i >= |front| {
          assert ShortLexLess(inputs[i - |front|], inputs[j - |front|]);
        }
      }
    }
  }

  /** The two loops of `enumerate_cases`. */
  method CrossProduct(patterns: seq<string>, inputs: seq<string>) returns (r: seq<(string, string)>)
    ensures r == Cross(patterns, inputs)
  {
    r := [];
    for i := 0 to |patterns|
      invariant r == Cross(patterns[..i], inputs)
    {
      ghost var front := r;
      for j := 0 to |inputs|
        invariant r == front + CrossWith(patterns[i], inputs)[..j]
      {
        r := r + [(patterns[i], inputs[j])];
      }
      assert patterns[..i + 1][..i] == patterns[..i];
    }
    assert patterns[..|patterns|] == patterns;
  }

  /** `enumerate_cases`: every pattern with every input, once, in order, and as many as the two counts multiply to. */
  method EnumerateCases(k: int, n: nat, alphabet: string, extra: string, tier: int) returns (r: seq<(string, string)>)
    ensures Increasing(CaseLess, r)
    ensures forall c :: c in r <==>
              PatternCount.IsPattern(PatternCount.SourceGrammar(alphabet, tier), k, c.0)
              && Inputs.IsInput(n, alphabet, extra, c.1)
    ensures PatternParser.Plainness(alphabet) && Distinct(alphabet) && alphabet != ""
            && Inputs.Foreign(n, alphabet, extra) ==>
              |r| == PatternCount.PatternsUpTo(PatternCount.SourceGrammar(alphabet, tier), k)
                     * Inputs.CountInputs(n, alphabet, extra)
  {
    hide LexLess, ShortLexLess, CaseLess, Increasing, Distinct, Cross, PatternCount.IsPattern, Inputs.IsInput,
         PatternParser.Plainness,
         Inputs.Foreign, PatternCount.PatternsUpTo, Inputs.CountInputs;
    var patterns := PatternCount.EnumeratePatterns(PatternCount.SourceGrammar(alphabet, tier), k);
    var inputs := Inputs.EnumerateInputs(n, alphabet, extra);
    r := CrossProduct(patterns, inputs);
    CrossIncreasing(patterns, inputs);
    CrossCount(patterns, inputs);
    forall c: (string, string)
      ensures c in r <==>
              PatternCount.IsPattern(PatternCount.SourceGrammar(alphabet, tier), k, c.0)
              && Inputs.IsInput(n, alphabet, extra, c.1)
    {
      CrossHolds(patterns, inputs, c);
    }
  }

  lemma {:induction false} CaseIsStrictTotal()
    ensures StrictTotal(CaseLess)
  {
    hide LexLess, ShortLexLess;
    LexIsStrictTotal();
    ShortLexIsStrictTotal();
  }

  /** The postcondition determines the list of cases. */
  lemma {:induction false} CasesDetermined(a: seq<(string, string)>, b: seq<(string, string)>)
    requires Increasing(CaseLess, a) && Increasing(CaseLess, b) && forall c :: c in a <==> c in b
    ensures a == b
  {
    hide CaseLess;
    CaseIsStrictTotal();
    assert Elements(a) == Elements(b);
    IncreasingUnique(CaseLess, a, b);
  }

  /** `as_cases`, for one case: nothing is stored, nothing overridden. */
  function AsCase(c: (string, string)): Corpus.Case {
    Corpus.Case(c.0, c.1, [], Corpus.Null, "", Corpus.None)
  }

  /** In the exhaustive mode nothing is out of contract or excluded: the engine passes exactly where it agrees with the
      freshly run oracle and did not raise, and any other difference is a bug or a recognised divergence. */
  lemma {:induction false} ExhaustiveStatus(c: (string, string), m: Corpus.Manifest, engine: Corpus.Driver,
                                            oracle: Corpus.Driver,
                                            recognise: Corpus.Option<Corpus.Recogniser>)
    requires m.oracle != "real_only"
    ensures match Corpus.RunCase(AsCase(c), m, engine, oracle, recognise)
            case Stopped(_) => Corpus.StopsAt(AsCase(c), m, engine, oracle, recognise)
            case Done(r) =>
              && (r.status == Corpus.Pass <==> r.realResult == r.oracleResult && !Corpus.Raised(r.realResult))
              && r.status != Corpus.OutOfContract && r.status != Corpus.ExcludedByDesign
              && (Corpus.Raised(r.realResult) ==> r.status == Corpus.Bug)
              && (recognise.None? && r.status != Corpus.Pass ==> r.status == Corpus.Bug)
  {
  }
}
