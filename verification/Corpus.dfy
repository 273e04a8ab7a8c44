/** The classification rules of python/sciforge/corpus/schema.py and the loop of `run_corpus`. */
module Corpus {

  datatype Option<T> = None | Some(value: T)

  type Span = seq<int>

  /** An observable or a stored expectation: Python's None, a word such as "error", a dictionary, or the list of a
      `finditer`. A match has a span and groups; a driver that raised has an exception name alone. */
  datatype Obs =
    | Null
    | Word(text: string)
    | Dict(span: Option<Span>, groups: Option<seq<Span>>, exception: Option<string>)
    | List(items: seq<Obs>)

  datatype Status = Pass | Bug | IntentionalDivergence | OutOfContract | ExcludedByDesign

  function Groups(o: Obs): seq<Span>
    requires o.Dict?
  {
    if o.groups.Some? then o.groups.value else []
  }

  /** `expectation_holds`. */
  predicate Holds(expected: Obs, observed: Obs) {
    match (expected, observed)
    case (Dict(_, _, _), Dict(_, _, _)) =>
      expected.span == observed.span && Groups(expected) <= Groups(observed)
    case (List(es), List(os)) =>
      |es| == |os| && forall i :: 0 <= i < |es| ==> Holds(es[i], os[i])
    case _ => expected == observed
  }

  lemma {:induction false} HoldsReflexive(o: Obs)
    ensures Holds(o, o)
    decreases o
  {
    if o.List? {
      forall i | 0 <= i < |o.items| ensures Holds(o.items[i], o.items[i]) {
        HoldsReflexive(o.items[i]);
      }
    }
  }

  lemma {:induction false} HoldsTransitive(a: Obs, b: Obs, c: Obs)
    requires Holds(a, b) && Holds(b, c)
    ensures Holds(a, c)
    decreases a
  {
    if a.List? && b.List? && c.List? {
      forall i | 0 <= i < |a.items| ensures Holds(a.items[i], c.items[i]) {
        HoldsTransitive(a.items[i], b.items[i], c.items[i]);
      }
    }
  }

  // --- classification ---

  const ORACLE_SEMANTICS: map<string, string> := map[
    "python_re" := "leftmost-first",
    "std_regex" := "leftmost-first",
    "reference_tokenize" := "maximal-munch",
    "real_only" := "leftmost-first"
  ]

  predicate Raised(o: Obs) {
    o.Dict? && o.exception.Some?
  }

  predicate ForeignSemantics(semantics: string, oracle: string) {
    oracle !in ORACLE_SEMANTICS || semantics != ORACLE_SEMANTICS[oracle]
  }

  /** `classify`; an absent link is the empty one. */
  function Classify(real_: Obs, oracleResult: Obs, expected: Obs, semantics: string, oracle: string, needs: string,
                    link: string): Status {
    if needs != "" then ExcludedByDesign
    else if Raised(real_) then Bug
    else if ForeignSemantics(semantics, oracle) && expected != Null && !Holds(expected, oracleResult)
            && (real_ == oracleResult || Holds(expected, real_)) then OutOfContract
    else if (if oracle == "real_only" then Holds(oracleResult, real_) else real_ == oracleResult) then Pass
    else if link != "" then IntentionalDivergence
    else Bug
  }

  // --- running a corpus ---

  datatype Override = Override(status: Status, link: string)

  datatype Case = Case(pattern: string, input: string, flags: seq<string>, expected: Obs, needs: string,
                       override: Option<Override>)

  datatype Manifest = Manifest(semantics: string, oracle: string, api: string)

  /** What a driver does with a case. */
  datatype Answer = Gives(obs: Obs) | Raises(name: string)

  type Driver = (Case, string) -> Answer

  /** What `divergence_of` gives: a link or none, or the exception it raises. */
  datatype Recognised = Link(link: Option<string>) | Fails(error: string)

  type Recogniser = (Obs, Obs, Case) -> Recognised

  datatype CaseResult = CaseResult(status: Status, pattern: string, realResult: Obs, oracleResult: Obs)

  function Observe(driver: Driver, c: Case, api: string): Obs {
    match driver(c, api)
    case Gives(o) => o
    case Raises(name) => Dict(None, None, Some(name))
  }

  function OracleResult(c: Case, m: Manifest, oracle: Driver): Obs {
    if m.oracle == "real_only" then c.expected else Observe(oracle, c, m.api)
  }

  /** A status or a link that the case itself declares; then the recogniser is not asked. */
  predicate Declares(c: Case) {
    c.override.Some?
  }

  function DeclaredLink(c: Case): Option<string> {
    if c.override.Some? && c.override.value.status == IntentionalDivergence then Some(c.override.value.link) else None
  }

  function LinkOf(c: Case, real_: Obs, oracleResult: Obs, recognise: Option<Recogniser>): Recognised {
    var declared := DeclaredLink(c);
    if declared == None && recognise.Some? then recognise.value(real_, oracleResult, c) else Link(declared)
  }

  /** What becomes of one case: its result, or an exception that ends the run. */
  datatype CaseRun = Done(result: CaseResult) | Stopped(error: string)

  function RunCase(c: Case, m: Manifest, engine: Driver, oracle: Driver, recognise: Option<Recogniser>): CaseRun {
    var real_, oracleResult := Observe(engine, c, m.api), OracleResult(c, m, oracle);
    if c.override.Some? && c.override.value.status != IntentionalDivergence then
      Done(CaseResult(c.override.value.status, c.pattern, real_, oracleResult))
    else
      match LinkOf(c, real_, oracleResult, recognise)
      case Fails(error) => Stopped(error)
      case Link(link) =>
        var status := Classify(real_, oracleResult, c.expected, m.semantics, m.oracle, c.needs,
                               if link.Some? then link.value else "");
        Done(CaseResult(status, c.pattern, real_, oracleResult))
  }

  /** The recogniser fails on the case, which declares nothing itself. */
  predicate StopsAt(c: Case, m: Manifest, engine: Driver, oracle: Driver, recognise: Option<Recogniser>) {
    !Declares(c) && recognise.Some? && recognise.value(Observe(engine, c, m.api), OracleResult(c, m, oracle), c).Fails?
  }

  datatype Report = Report(results: seq<CaseResult>) | Ended(error: string)

  /** The run ends at case `k`: no case before it stops it. */
  ghost predicate EndsAt(cases: seq<Case>, m: Manifest, engine: Driver, oracle: Driver, recognise: Option<Recogniser>,
                         k: nat) {
    && k < |cases| && StopsAt(cases[k], m, engine, oracle, recognise)
    && forall i :: 0 <= i < k ==> !StopsAt(cases[i], m, engine, oracle, recognise)
  }

  lemma {:induction false} StopsExactly(c: Case, m: Manifest, engine: Driver, oracle: Driver,
                                        recognise: Option<Recogniser>)
    ensures RunCase(c, m, engine, oracle, recognise).Stopped? <==> StopsAt(c, m, engine, oracle, recognise)
    ensures StopsAt(c, m, engine, oracle, recognise) ==>
              RunCase(c, m, engine, oracle, recognise).error
              == recognise.value(Observe(engine, c, m.api), OracleResult(c, m, oracle), c).error
  {
    hide Classify, Observe;
  }

  /** `run_corpus`: one result a case, in order, whatever the drivers raise; but it ends, without a report, exactly at
      the first case without a status or link of its own on which the recogniser fails, with what that raised. */
  method RunCorpus(cases: seq<Case>, m: Manifest, engine: Driver, oracle: Driver, recognise: Option<Recogniser>)
    returns (report: Report)
    ensures report.Report? <==> forall i :: 0 <= i < |cases| ==> !StopsAt(cases[i], m, engine, oracle, recognise)
    ensures report.Report? ==>
              && |report.results| == |cases|
              && forall i :: 0 <= i < |cases| ==>
                  RunCase(cases[i], m, engine, oracle, recognise) == Done(report.results[i])
    ensures report.Ended? ==>
              exists k: nat :: EndsAt(cases, m, engine, oracle, recognise, k)
                          && RunCase(cases[k], m, engine, oracle, recognise) == Stopped(report.error)
  {
    hide Observe, Classify;
    var results := [];
    for i := 0 to |cases|
      invariant |results| == i
      invariant forall k :: 0 <= k < i ==> !StopsAt(cases[k], m, engine, oracle, recognise)
      invariant forall k :: 0 <= k < i ==> RunCase(cases[k], m, engine, oracle, recognise) == Done(results[k])
    {
      var c := cases[i];
      StopsExactly(c, m, engine, oracle, recognise);
      var realResult := Observe(engine, c, m.api);
      var oracleResult := c.expected;
      if m.oracle != "real_only" {
        oracleResult := Observe(oracle, c, m.api);
      }
      var status;
      if c.override.Some? && c.override.value.status != IntentionalDivergence {
        status := c.override.value.status;
      } else {
        var link := DeclaredLink(c);
        if link == None && recognise.Some? {
          var recognised := recognise.value(realResult, oracleResult, c);
          if recognised.Fails? {
            assert EndsAt(cases, m, engine, oracle, recognise, i);
            return Ended(recognised.error);
          }
          link := recognised.link;
        }
        status := Classify(realResult, oracleResult, c.expected, m.semantics, m.oracle, c.needs,
                           if link.Some? then link.value else "");
      }
      results := results + [CaseResult(status, c.pattern, realResult, oracleResult)];
    }
    return Report(results);
  }

  // --- the status of a case that was run ---

  /** The semantics an oracle has of its own; a case of any other semantics is under a foreign rule. */
  lemma {:induction false} ForeignExactly(semantics: string, oracle: string)
    ensures !ForeignSemantics(semantics, oracle) <==>
              || (oracle in ["python_re", "std_regex", "real_only"] && semantics == "leftmost-first")
              || (oracle == "reference_tokenize" && semantics == "maximal-munch")
  {
  }

  /** A link that explains a difference: the case's own, or what the recogniser gives when it has none. */
  predicate Explained(c: Case, result: CaseResult, recognise: Option<Recogniser>) {
    if c.override.Some? then c.override.value.link != ""
    else
      recognise.Some?
      && match recognise.value(result.realResult, result.oracleResult, c)
         case Link(Some(link)) => link != ""
         case _ => false
  }

  /** The case is decided by what engine, oracle and row say: it declares no status and needs nothing excluded. */
  predicate Open(c: Case) {
    c.needs == "" && (c.override.None? || c.override.value.status == IntentionalDivergence)
  }

  /** What a result reports: what the engine gave, or the name of what it raised, and the same of the oracle, for which
      the stored row stands under `real_only`. */
  lemma {:induction false} ResultsReported(c: Case, m: Manifest, engine: Driver, oracle: Driver,
                                           recognise: Option<Recogniser>, result: CaseResult)
    requires RunCase(c, m, engine, oracle, recognise) == Done(result)
    ensures result.pattern == c.pattern
    ensures forall o :: engine(c, m.api) == Gives(o) ==> result.realResult == o
    ensures forall name :: engine(c, m.api) == Raises(name) ==> result.realResult == Dict(None, None, Some(name))
    ensures m.oracle == "real_only" ==> result.oracleResult == c.expected
    ensures forall o :: m.oracle != "real_only" && oracle(c, m.api) == Gives(o) ==> result.oracleResult == o
    ensures forall name :: m.oracle != "real_only" && oracle(c, m.api) == Raises(name) ==>
                        result.oracleResult == Dict(None, None, Some(name))
  {
    hide Classify;
  }

  /** A status that the case declares, or a capability it needs, comes first. */
  lemma {:induction false} DeclaredStatus(c: Case, m: Manifest, engine: Driver, oracle: Driver,
                                          recognise: Option<Recogniser>, result: CaseResult)
    requires RunCase(c, m, engine, oracle, recognise) == Done(result) && !Open(c)
    ensures result.status == if c.override.Some? && c.override.value.status != IntentionalDivergence
                             then c.override.value.status else ExcludedByDesign
  {
  }

  /** An engine that raised is a bug, and one that meets neither the oracle nor the row is a bug or explained. */
  lemma {:induction false} DisagreeingStatus(c: Case, m: Manifest, engine: Driver, oracle: Driver,
                                             recognise: Option<Recogniser>, result: CaseResult)
    requires RunCase(c, m, engine, oracle, recognise) == Done(result) && Open(c)
    ensures Raised(result.realResult) ==> result.status == Bug
    ensures !Raised(result.realResult) && result.realResult != result.oracleResult
            && !Holds(c.expected, result.realResult) ==>
              result.status == if Explained(c, result, recognise) then IntentionalDivergence else Bug
  {
    hide Observe;
  }

  /** An engine that agrees with the oracle passes, unless the row is of foreign semantics and the oracle itself does
      not meet it. */
  lemma {:induction false} AgreeingStatus(c: Case, m: Manifest, engine: Driver, oracle: Driver,
                                          recognise: Option<Recogniser>, result: CaseResult)
    requires RunCase(c, m, engine, oracle, recognise) == Done(result) && Open(c)
    requires !Raised(result.realResult) && result.realResult == result.oracleResult
    ensures result.status == Pass || result.status == OutOfContract
    ensures result.status == OutOfContract <==>
              && ForeignSemantics(m.semantics, m.oracle) && c.expected != Null
              && !Holds(c.expected, result.oracleResult)
  {
    hide Observe;
    HoldsReflexive(result.realResult);
  }

  /** An engine that meets the row but not the oracle: out of contract when the row is of foreign semantics and the
      oracle does not meet it either; a pass when the row is the authority; otherwise a bug or explained. */
  lemma {:induction false} RowAgreeingStatus(c: Case, m: Manifest, engine: Driver, oracle: Driver,
                                             recognise: Option<Recogniser>, result: CaseResult)
    requires RunCase(c, m, engine, oracle, recognise) == Done(result) && Open(c)
    requires !Raised(result.realResult) && result.realResult != result.oracleResult
    requires Holds(c.expected, result.realResult)
    ensures result.status ==
            if m.oracle == "real_only" then Pass
            else if ForeignSemantics(m.semantics, m.oracle) && c.expected != Null
                    && !Holds(c.expected, result.oracleResult) then OutOfContract
            else if Explained(c, result, recognise) then IntentionalDivergence
            else Bug
  {
    hide Observe;
    HoldsReflexive(c.expected);
  }

  /** Under `real_only` a case is out of contract exactly when its own override says so, whatever semantics the
      manifest declares. */
  lemma {:induction false} RealOnlyInContract(c: Case, m: Manifest, engine: Driver, oracle: Driver,
                                              recognise: Option<Recogniser>)
    requires m.oracle == "real_only"
    ensures var r := RunCase(c, m, engine, oracle, recognise);
            r.Done? && r.result.status == OutOfContract <==>
                c.override.Some? && c.override.value.status == OutOfContract
  {
    HoldsReflexive(c.expected);
  }

  // --- stating fewer groups ---

  /** `less` is `more` with some trailing group spans left unstated, match by match. */
  ghost predicate Fewer(less: Obs, more: Obs) {
    match (less, more)
    case (Dict(_, _, _), Dict(_, _, _)) =>
      less.span == more.span && less.exception == more.exception && Groups(less) <= Groups(more)
    case (List(ls), List(ms)) =>
      |ls| == |ms| && forall i :: 0 <= i < |ls| ==> Fewer(ls[i], ms[i])
    case _ => less == more
  }

  lemma {:induction false} FewerHolds(less: Obs, more: Obs)
    requires Fewer(less, more)
    ensures Holds(less, more)
    decreases less
  {
    if less.List? && more.List? {
      forall i | 0 <= i < |less.items| ensures Holds(less.items[i], more.items[i]) {
        FewerHolds(less.items[i], more.items[i]);
      }
    }
  }

  ghost predicate NoneRaised(o: Obs) {
    match o
    case Dict(_, _, exception) => exception.None?
    case List(items) => forall i :: 0 <= i < |items| ==> NoneRaised(items[i])
    case _ => true
  }

  /** Between observables of drivers that did not raise, meeting an expectation is exactly that: what the row states
      is there, and the row may leave trailing groups unstated. */
  lemma {:induction false} HoldsExactly(expected: Obs, observed: Obs)
    requires NoneRaised(expected) && NoneRaised(observed)
    ensures Holds(expected, observed) <==> Fewer(expected, observed)
    decreases expected
  {
    if expected.List? && observed.List? && |expected.items| == |observed.items| {
      forall i | 0 <= i < |expected.items|
        ensures Holds(expected.items[i], observed.items[i]) <==> Fewer(expected.items[i], observed.items[i])
      {
        HoldsExactly(expected.items[i], observed.items[i]);
      }
    }
  }

  /** A row that passes under `real_only` still passes when it states fewer groups. */
  lemma {:induction false} FewerStillPasses(real_: Obs, less: Obs, more: Obs, semantics: string, needs: string,
                                            link: string)
    requires Fewer(less, more)
    requires Classify(real_, more, more, semantics, "real_only", needs, link) == Pass
    ensures Classify(real_, less, less, semantics, "real_only", needs, link) == Pass
  {
    FewerHolds(less, more);
    HoldsReflexive(less);
    HoldsReflexive(more);
    HoldsTransitive(less, more, real_);
  }

  /** A row whose expectation the oracle meets stays in contract when it states fewer groups. */
  lemma {:induction false} FewerInContract(real_: Obs, oracleResult: Obs, less: Obs, more: Obs, semantics: string,
                                           oracle: string, needs: string, link: string)
    requires Fewer(less, more) && Holds(more, oracleResult)
    ensures Classify(real_, oracleResult, less, semantics, oracle, needs, link) != OutOfContract
  {
    FewerHolds(less, more);
    HoldsTransitive(less, more, oracleResult);
  }

  /** For a row the oracle does not meet, stating fewer groups moves it out of contract exactly when the engine meets
      the shorter row and the oracle still does not, under foreign semantics. */
  lemma {:induction false} FewerLeavesContract(real_: Obs, oracleResult: Obs, less: Obs, more: Obs, semantics: string,
                                               oracle: string, link: string)
    requires Fewer(less, more) && !Raised(real_)
    requires Classify(real_, oracleResult, more, semantics, oracle, "", link) != OutOfContract
    ensures Classify(real_, oracleResult, less, semantics, oracle, "", link) == OutOfContract <==>
            ForeignSemantics(semantics, oracle) && less != Null && !Holds(less, oracleResult) && Holds(less, real_)
  {
    FewerHolds(less, more);
    if Holds(more, oracleResult) {
      HoldsTransitive(less, more, oracleResult);
    }
  }

  /** That does happen: a bug whose second group alone disagreed becomes out of contract once the group is unstated. */
  lemma {:induction false} FewerCanLeaveContract()
    ensures var real_ := Dict(Some([0, 2]), Some([[0, 1], [1, 2]]), None);
            var oracleResult := Dict(Some([0, 1]), Some([[0, 1], [1, 1]]), None);
            var more := Dict(Some([0, 2]), Some([[0, 1], [2, 2]]), None);
            var less := Dict(Some([0, 2]), Some([[0, 1]]), None);
            && Fewer(less, more)
            && Classify(real_, oracleResult, more, "posix", "python_re", "", "") == Bug
            && Classify(real_, oracleResult, less, "posix", "python_re", "", "") == OutOfContract
  {
    assert [[0, 1], [1, 2]][1] != [[0, 1], [2, 2]][1] by {
      assert [1, 2][0] != [2, 2][0];
    }
    assert [0, 2][1] != [0, 1][1];
    assert [[0, 1]] <= [[0, 1], [1, 2]] && [[0, 1]] <= [[0, 1], [2, 2]];
  }

  /** A driver of the engine that raised is a bug, whatever the oracle did, unless the pattern was excluded. */
  lemma {:induction false} CrashIsBug(c: Case, m: Manifest, engine: Driver, oracle: Driver,
                                      recognise: Option<Recogniser>)
    requires engine(c, m.api).Raises? && c.override == None
    ensures match RunCase(c, m, engine, oracle, recognise)
            case Done(result) => result.status == if c.needs != "" then ExcludedByDesign else Bug
            case Stopped(_) => StopsAt(c, m, engine, oracle, recognise)
  {
  }

  // --- the empty-iteration captures ---

  /** What the recogniser answers: a boolean; the KeyError of a dictionary without span or groups; or the IndexError of
      a group without two ends, such as the `[]` of a rust row whose group took no part. */
  datatype Test = Is(b: bool) | KeyError | IndexError

  /** The two groups agree, or the oracle's is zero-width. */
  predicate Mild(r: Span, o: Span) {
    r == o || (|o| >= 2 && o[0] == o[1])
  }

  ghost predicate MildUpTo(rs: seq<Span>, os: seq<Span>, k: nat)
    requires k <= |rs| == |os|
  {
    forall i :: 0 <= i < k ==> Mild(rs[i], os[i])
  }

  ghost predicate SameSpans(r: Obs, o: Obs) {
    && r.Dict? && o.Dict? && r.span.Some? && r.span == o.span
    && r.groups.Some? && o.groups.Some? && |r.groups.value| == |o.groups.value|
  }

  /** Two matches with the same spans whose groups differ, and only where the oracle's is zero-width. */
  ghost predicate EmptyIteration(r: Obs, o: Obs) {
    SameSpans(r, o) && r.groups != o.groups && MildUpTo(r.groups.value, o.groups.value, |r.groups.value|)
  }

  /** The recogniser looks up a key that is not there. */
  predicate Missing(r: Obs, o: Obs) {
    r.Dict? && o.Dict? && (r.span.None? || o.span.None? || (r.span == o.span && (r.groups.None? || o.groups.None?)))
  }

  ghost predicate ShortAt(rs: seq<Span>, os: seq<Span>, k: nat)
    requires |rs| == |os|
  {
    k < |rs| && rs[k] != os[k] && |os[k]| < 2 && MildUpTo(rs, os, k)
  }

  /** The recogniser looks up an end that a group of the oracle has not. */
  ghost predicate TooShort(r: Obs, o: Obs) {
    SameSpans(r, o) && exists k: nat :: ShortAt(r.groups.value, o.groups.value, k)
  }

  /** The answer of the inner test `one`. */
  ghost predicate OneAnswer(t: Test, r: Obs, o: Obs) {
    && (t == KeyError <==> Missing(r, o))
    && (t == IndexError <==> TooShort(r, o))
    && (t == Is(true) <==> EmptyIteration(r, o))
  }

  /** On two matches of groups with two ends each no key and no end is missing, and the test is true exactly when the
      spans are equal, as many groups are there, some group differs, and the oracle's is empty wherever one does. */
  lemma {:induction false} EmptyIterationExactly(r: Obs, o: Obs, p: Span, q: Span, rs: seq<Span>, os: seq<Span>)
    requires r.Dict? && r.span == Some(p) && r.groups == Some(rs)
    requires o.Dict? && o.span == Some(q) && o.groups == Some(os)
    requires forall i :: 0 <= i < |os| ==> |os[i]| == 2
    ensures !Missing(r, o) && !TooShort(r, o)
    ensures EmptyIteration(r, o) <==>
            && p == q && |rs| == |os| && (exists i :: 0 <= i < |rs| && rs[i] != os[i])
            && forall i :: 0 <= i < |rs| ==> rs[i] == os[i] || os[i][0] == os[i][1]
  {
    if |rs| == |os| && forall i :: 0 <= i < |rs| ==> rs[i] == os[i] {
      assert rs == os;
    }
  }

  /** The inner test `one` of `is_empty_iteration_capture`. */
  method OneMatch(r: Obs, o: Obs) returns (t: Test)
    ensures t == KeyError <==> Missing(r, o)
    ensures t == IndexError <==> TooShort(r, o)
    ensures t == Is(true) <==> EmptyIteration(r, o)
  {
    if !r.Dict? || !o.Dict? {
      return Is(false);
    }
    if r.span.None? || o.span.None? {
      return KeyError;
    }
    if r.span != o.span {
      return Is(false);
    }
    if r.groups.None? || o.groups.None? {
      return KeyError;
    }
    var rs, os := r.groups.value, o.groups.value;
    if |rs| != |os| {
      return Is(false);
    }
    var differ := false;
    for i := 0 to |rs|
      invariant MildUpTo(rs, os, i)
      invariant forall k: nat :: ShortAt(rs, os, k) ==> k >= i
      invariant differ <==> rs[..i] != os[..i]
    {
      assert rs[..i + 1] == rs[..i] + [rs[i]] && os[..i + 1] == os[..i] + [os[i]];
      if rs[i] != os[i] {
        differ := true;
        if |os[i]| < 2 {
          assert ShortAt(rs, os, i);
          return IndexError;
        }
        if os[i][0] != os[i][1] {
          assert !Mild(rs[i], os[i]);
          return Is(false);
        }
      }
    }
    assert rs[..|rs|] == rs && os[..|os|] == os;
    return Is(differ);
  }

  /** The first `k` pairs of two finditer lists are equal or differ by an empty iteration. */
  ghost predicate AlikeUpTo(rs: seq<Obs>, os: seq<Obs>, k: nat)
    requires k <= |rs| == |os|
  {
    forall i :: 0 <= i < k ==> rs[i] == os[i] || EmptyIteration(rs[i], os[i])
  }

  /** The pair at `k` decides: those in front of it do not. */
  ghost predicate DecidedAt(rs: seq<Obs>, os: seq<Obs>, k: nat) {
    k < |rs| == |os| && rs[k] != os[k] && AlikeUpTo(rs, os, k)
  }

  ghost predicate MissingAt(rs: seq<Obs>, os: seq<Obs>, k: nat) {
    DecidedAt(rs, os, k) && Missing(rs[k], os[k])
  }

  ghost predicate TooShortAt(rs: seq<Obs>, os: seq<Obs>, k: nat) {
    DecidedAt(rs, os, k) && TooShort(rs[k], os[k])
  }

  ghost predicate ListAnswer(t: Test, rs: seq<Obs>, os: seq<Obs>) {
    && (t == KeyError <==> exists k: nat :: MissingAt(rs, os, k))
    && (t == IndexError <==> exists k: nat :: TooShortAt(rs, os, k))
    && (t == Is(true) <==> |rs| == |os| && rs != os && AlikeUpTo(rs, os, |rs|))
  }

  /** The answer of `is_empty_iteration_capture`: each exception, and true, exactly when. */
  ghost predicate CaptureAnswer(t: Test, r: Obs, o: Obs) {
    if r.List? && o.List? then ListAnswer(t, r.items, o.items)
    else if r.List? || o.List? then t == Is(false)
    else OneAnswer(t, r, o)
  }

  /** `is_empty_iteration_capture`. */
  method IsEmptyIterationCapture(r: Obs, o: Obs) returns (t: Test)
    ensures CaptureAnswer(t, r, o)
  {
    if r.List? || o.List? {
      if !(r.List? && o.List?) {
        return Is(false);
      }
      t := ListCapture(r.items, o.items);
      return;
    }
    t := OneMatch(r, o);
  }

  method ListCapture(rs: seq<Obs>, os: seq<Obs>) returns (t: Test)
    ensures ListAnswer(t, rs, os)
  {
    hide Missing, TooShort, EmptyIteration;
    if |rs| != |os| {
      return Is(false);
    }
    var differ := false;
    for i := 0 to |rs|
      invariant AlikeUpTo(rs, os, i)
      invariant forall k: nat :: MissingAt(rs, os, k) || TooShortAt(rs, os, k) ==> k >= i
      invariant differ <==> rs[..i] != os[..i]
    {
      assert rs[..i + 1] == rs[..i] + [rs[i]] && os[..i + 1] == os[..i] + [os[i]];
      if rs[i] == os[i] {
        continue;
      }
      var one := OneMatch(rs[i], os[i]);
      assert one != Is(true) ==> forall k: nat :: k > i ==> !DecidedAt(rs, os, k);
      if one == KeyError {
        assert MissingAt(rs, os, i);
        return KeyError;
      }
      if one == IndexError {
        assert TooShortAt(rs, os, i);
        return IndexError;
      }
      if one == Is(false) {
        return Is(false);
      }
      differ := true;
    }
    assert rs[..|rs|] == rs && os[..|os|] == os;
    return Is(differ);
  }

  /** A recogniser that a consumer builds on the test: it fails where the test does. */
  ghost predicate BuiltOnCapture(recognise: Recogniser) {
    forall r, o, c :: FailsWithCapture(recognise, r, o, c)
  }

  ghost predicate FailsWithCapture(recognise: Recogniser, r: Obs, o: Obs, c: Case) {
    exists t :: CaptureAnswer(t, r, o) && (recognise(r, o, c).Fails? <==> !t.Is?)
  }

  /** Unless both are finditer lists, the test fails exactly when a key or an end of a match is missing. */
  lemma {:induction false} CaptureFails(recognise: Recogniser, r: Obs, o: Obs, c: Case)
    requires BuiltOnCapture(recognise) && !(r.List? && o.List?)
    ensures recognise(r, o, c).Fails? <==> Missing(r, o) || TooShort(r, o)
  {
    hide MildUpTo, ShortAt, EmptyIteration;
    assert FailsWithCapture(recognise, r, o, c);
    var t :| CaptureAnswer(t, r, o) && (recognise(r, o, c).Fails? <==> !t.Is?);
  }

  /** A driver's exception is no observable the recogniser can take: an engine that raises where the oracle matches, or
      raises too, ends the run that was to go on. */
  lemma {:induction false} CrashEndsRun(c: Case, m: Manifest, engine: Driver, oracle: Driver, recognise: Recogniser)
    requires BuiltOnCapture(recognise) && engine(c, m.api).Raises? && !Declares(c)
    ensures RunCase(c, m, engine, oracle, Some(recognise)).Stopped? <==> OracleResult(c, m, oracle).Dict?
  {
    hide OracleResult, EmptyIteration, Classify, BuiltOnCapture, ShortAt;
    StopsExactly(c, m, engine, oracle, Some(recognise));
    var name := engine(c, m.api).name;
    CaptureFails(recognise, Dict(None, None, Some(name)), OracleResult(c, m, oracle), c);
  }

  /** The `[]` that a rust row writes for a group that took no part ends the run too: against an engine that reports
      -1 for both ends, the test looks up the first end of an empty list. */
  lemma {:induction false} UnsetGroupEndsRun(c: Case, m: Manifest, engine: Driver, oracle: Driver,
                                             recognise: Recogniser,
                                             span: Span)
    requires BuiltOnCapture(recognise) && m.oracle == "real_only" && !Declares(c)
    requires c.expected == List([Dict(Some(span), Some([[]]), None)])
    requires engine(c, m.api) == Gives(List([Dict(Some(span), Some([[-1, -1]]), None)]))
    ensures RunCase(c, m, engine, oracle, Some(recognise)).Stopped?
  {
    hide EmptyIteration, Classify;
    StopsExactly(c, m, engine, oracle, Some(recognise));
    var unset: Span := [];
    var rs, os := [Dict(Some(span), Some([[-1, -1]]), None)], [Dict(Some(span), Some([unset]), None)];
    assert [[-1, -1]][0] != [unset][0];
    assert ShortAt(rs[0].groups.value, os[0].groups.value, 0);
    assert TooShort(rs[0], os[0]) && rs[0].groups.value != os[0].groups.value;
    assert TooShortAt(rs, os, 0);
    assert FailsWithCapture(recognise, List(rs), List(os), c);
    var t :| CaptureAnswer(t, List(rs), List(os)) && (recognise(List(rs), List(os), c).Fails? <==> !t.Is?);
  }

  // --- the tally ---

  function Total(tally: map<Status, nat>): nat
    requires forall s: Status :: s in tally
  {
    tally[Pass] + tally[Bug] + tally[IntentionalDivergence] + tally[OutOfContract] + tally[ExcludedByDesign]
  }

  function Occurrences(results: seq<CaseResult>, s: Status): nat {
    if results == [] then 0
    else Occurrences(results[..|results| - 1], s) + if results[|results| - 1].status == s then 1 else 0
  }

  /** `CorpusReport.counts`: every status has its number of cases, and the five sum to the number of cases. */
  method Counts(results: seq<CaseResult>) returns (tally: map<Status, nat>)
    ensures forall s: Status :: s in tally && tally[s] == Occurrences(results, s)
    ensures Total(tally) == |results|
  {
    tally := map[Pass := 0, Bug := 0, IntentionalDivergence := 0, OutOfContract := 0, ExcludedByDesign := 0];
    assert results[..0] == [];
    forall s: Status ensures s in tally && tally[s] == 0 == Occurrences(results[..0], s) {
      match s
      case Pass => case Bug => case IntentionalDivergence => case OutOfContract => case ExcludedByDesign =>
    }
    for i := 0 to |results|
      invariant forall s: Status :: s in tally && tally[s] == Occurrences(results[..i], s)
      invariant Total(tally) == i
    {
      assert results[..i + 1][..i] == results[..i];
      var s := results[i].status;
      tally := tally[s := tally[s] + 1];
    }
    assert results[..|results|] == results;
  }
}
