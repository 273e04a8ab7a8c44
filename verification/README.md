# SciForge: verified models

Dafny models of the parts of SciForge whose promises span more than one function, with proofs of those promises. Every
theorem is about all inputs, all runs or all reachable states of its model. `dafny verify dfyconfig.toml` checks the
project.

| files | what they model |
|---|---|
| `Patterns`, `Enumerator`, `EnumeratorLaws`, `PatternParser`, `PatternCount`, `Inputs`, `Cases` | the exhaustive enumerator of `python/sciforge/corpus/exhaustive.py`: its grammar as trees, its generators over texts and over trees, a parser that inverts the printer, the counting recurrence, the inputs and the case space |
| `Json`, `JsonLaws`, `Utf8Text`, `EmittedUtf8`, `BenchSchema` | the emitter of `include/sciforge/bench.hpp` over bytes, a reader of RFC 8259 texts as Python's `json` reads them, when the emitted bytes are UTF-8, and `python/sciforge/bench/schema.py` on top |
| `Utf8`, `PyInt`, `DatFields`, `DatReader`, `DatLaws`, `Corpus` | the readers of `python/sciforge/corpus/runner.py` and the classifier of `python/sciforge/corpus/schema.py` |
| `KwSpec`, `ModuleTable`, `ClassTables`, `Factories`, `Convert` | the binding substrate under `include/sciforge/binding/`: keyword specifications over imports, the module's method table, the per-type tables, the factory of a type over imports, and the container casters on a heap of reference counts |
| `Gate` | the lock and the verdict of `tools/run-gate.sh` as interleaved steps of any number of processes |
| `ReleaseNotes`, `ReleaseRun` | the notes rewrite of `tools/release.sh`, and its run as a transaction over tree, index, tags and remote |
| `Pins` | the checkout scanner and the verdict of `tools/check-pins.sh` |
| `Stats` | the medians, quartiles and bootstrap bounds of `python/sciforge/bench/stats.py` over the reals |
| `Order`, `Decimal` | orders on strings and sorted sets; decimal integers as text |

Code that updates state is a method or a class here; each is proved equal to a specification function, and the theorems
are lemmas about those functions. In modules with a state machine (`KwSpec`, `ModuleTable`, `ClassTables`, `Gate`,
`ReleaseRun`) a run is a sequence of events of any length.

## Where the code does not do what it, or its documentation, says

The models follow the code. Each point has a lemma with the failing case and, where the property can be saved, the exact
condition.

- `load_cases_dat` ends with an IndexError on a test whose outcome is written `NULL`, and with an OverflowError on an escape of 2147483648 or more; exactly when is `DatReader.LoadCases` (`DatLaws.NullOutcomeIsFatal`, `DatFields.LargeEscapeOverflows`).
- `is_empty_iteration_capture` raises KeyError on the exception observable of a driver that raised, and IndexError on the `[]` of a rust row's unset group, so as a `divergence_of` callback it ends the run that was to go on (`Corpus.CrashEndsRun`, `Corpus.UnsetGroupEndsRun`; exactly where a run ends is `Corpus.RunCorpus`).
- Stating fewer groups can move a `bug` out of contract (`Corpus.FewerCanLeaveContract`; the exact condition is `Corpus.FewerLeavesContract`).
- `count_inputs` is exact if and only if `extra` is empty, holds a foreign letter or is longer than `n` (`Inputs.EnumerateInputs`).
- The emitter writes any bytes, and `load_run` refuses a file that is not UTF-8. A domain field named like an attribute breaks the round trip too. These two conditions are exact (`BenchSchema.RunRoundTrip`, `BenchSchema.EmittedRunRoundTrip`).
- A `push_back` that throws in `add_arg` after the default was made loses that reference (`KwSpec.ThrowLoses`; how many a run loses is `KwSpec.ReferencesBalance`).
- The terminator row of the module's method table is pushed outside the block that catches (`ModuleTable.EscapesExactly`), and that static table is cleared and refilled under the functions of earlier imports: they stay valid if and only if each import fits the buffer and writes their rows as they were (`ModuleTable.ImportKeepsFunctions`, `ModuleTable.LongerBlockDangles`).
- Two `class_` builders at once, the first failing to create its type, leave a live type with a terminator in front of its methods (`ClassTables.OverlapHidesMethods`, counted exactly by `ClassTables.TerminatorsCounted`). A `def` that throws does not stop the destructor from creating the type without that method and those after it, which later imports then reuse (`ClassTables.FailedDefSticks`).
- A default of `def_init` that cannot be made fails its import but not the type: later imports succeed, and every call that leaves the argument out fails (`Factories.MissingForever`, `Factories.LaterImportSucceeds`).
- A container caster that fails gives back the PyObject* references it had converted and strands the others; the heap is as before if and only if none was converted first (`Convert.FailureKeepsHeap`).
- The trap of `run-gate.sh` removes the lock on INT and TERM without ending the script, which breaks exclusion (`Gate.SignalBreaksExclusion`); a tree changed and changed back passes (`Gate.UndoneChangePasses`). Its snapshots are HEAD and `git status`, which print no contents, so a file that was already modified or untracked may be rewritten while the gate runs and it still passes (`Gate.UnseenChangePasses`; exactly which writes are not seen is `Gate.WriteSeenExactly`, and from a clean tree every change is, `Gate.CleanTreeSeen`).
- A commit that fails leaves the release staged: `restore` takes tracked files from the index (`ReleaseRun.FailedCommitStaysStaged`). The restored tree is HEAD exactly if no file is tracked as `<notes>.tmp` and the bump left nothing new outside RELEASE_FILES (`ReleaseRun.TreeRestoredExactly`). Tags that match the month's glob without being its versions shift the numbering (`ReleaseRun.NumberExactlyWhen`).
- The trap of `release.sh` does not end the script either: a signal between the filing and the bump cuts a release without its notes (`ReleaseRun.UnfiledRelease`); at any other moment every commit still holds the whole release (`ReleaseRun.SignalledCommit`).
- The notes extractor runs on into a following section of the same version, and is shadowed by an earlier one (`ReleaseNotes.ExtractsEntries`, `ReleaseNotes.EarlierHeadingShadows`).
- A floor equal in its three numbers but spelt longer is refused as above the pin (`Pins.EqualFloorRefused`, `Pins.LongerFloorAbove`; exactly when is `Pins.AboveByNumbers`).
- `_percentile_bounds` can return bounds that cross (`Stats.BoundsCanCross`; exactly when is `Stats.BoundsOrderedExactly`).

## Assumptions

- Gates: process ids are not reused; the check of a dead holder and the reclaim of its lock are one step, and no gate is sent INT or TERM. The last two are `Gate.Assumed`, and a lemma shows each is needed.
- Releases: a bump changes the working tree only, the other make targets leave it alone; path entries hold no glob characters; ignored files do not exist.
- Bindings: the interpreter lock is held, so a C++ call is one step; a constant object (True, a cached integer) is never freed.
- Emitter: what `json_number` prints is a JSON number, `NaN`, `Infinity` or `-Infinity`.

## Model

| member | source | states |
|---|---|---|
| `Patterns.EmptiesStep` | python/sciforge/corpus/exhaustive.py:68-77 | the declarative rule on empty branches (the last branch is non-empty, or empty right after a non-empty one) is what the three yields of `_alts` build branch by branch |
| `PatternParser.AltParses` | python/sciforge/corpus/exhaustive.py:27-77 | the parser returns the tree whose text it is given, in any context that ends an alternation |
| `PatternParser.Unambiguous` | python/sciforge/corpus/exhaustive.py:27-77 | over letters that are no metacharacters, two trees of the grammar with one text are one tree |
| `EnumeratorLaws.AtomTreesExact` | python/sciforge/corpus/exhaustive.py:27-36 | the atoms enumerated are those of the grammar within the budget, and no others |
| `EnumeratorLaws.ElemTreesExact` | python/sciforge/corpus/exhaustive.py:39-49 | likewise elements; an anchor is never quantified |
| `EnumeratorLaws.ChainTreesExact` | python/sciforge/corpus/exhaustive.py:52-58 | likewise sequences, of 1 to the cap's elements |
| `EnumeratorLaws.AltTreesExact` | python/sciforge/corpus/exhaustive.py:61-77 | likewise alternations, of 1 to the cap's branches, empty branches only where the tier allows |
| `EnumeratorLaws.AltsRefine` | python/sciforge/corpus/exhaustive.py:61-77 | the text generators yield, in order, the printed forms and costs of the trees |
| `EnumeratorLaws.AltTreesDistinct` | python/sciforge/corpus/exhaustive.py:61-77 | over distinct letters no tree is yielded twice |
| `PatternCount.AltsCounted` | python/sciforge/corpus/exhaustive.py:61-77 | `_alts` yields as many items of each size as the counting recurrence says, at every budget |
| `PatternCount.YieldsPatterns` | python/sciforge/corpus/exhaustive.py:80-89 | the texts yielded are the patterns of the grammar of cost at most k |
| `PatternCount.YieldsDistinct` | python/sciforge/corpus/exhaustive.py:86-88 | no text is yielded twice, so `seen` drops nothing |
| `PatternCount.EnumeratePatterns` | python/sciforge/corpus/exhaustive.py:80-89 | the list is increasing, holds exactly the patterns, and has the length of the recurrence |
| `PatternCount.PatternsDetermined` | python/sciforge/corpus/exhaustive.py:80-89 | that determines the list, so two runs are identical |
| `PatternCount.PatternsGrow` | python/sciforge/corpus/exhaustive.py:80-89 | tier 1 is included in tier 2 and a budget in every larger one |
| `PatternCount.PinnedCounts` | python/sciforge/corpus/exhaustive.py:80-89 | 78 and 870 patterns at k = 2 and 3 |
| `PatternCount.EveryConstruct` | python/sciforge/corpus/exhaustive.py:18-77 | a pattern with every construct of tier 1, letter by letter, is a pattern at 15 constructs and at no fewer |
| `Inputs.ClosedForm` | python/sciforge/corpus/exhaustive.py:109-118 | the quotient in `count_inputs` is exact and is the geometric series, for one letter too |
| `Inputs.NotForeignCollides` | python/sciforge/corpus/exhaustive.py:101-106 | an `extra` of alphabet letters that is short enough always collides |
| `Inputs.EnumerateInputs` | python/sciforge/corpus/exhaustive.py:92-106 | strictly increasing by (length, text), exactly the inputs; as many as `count_inputs` says if and only if `extra` cannot collide |
| `Inputs.InputsDetermined` | python/sciforge/corpus/exhaustive.py:92-106 | and that determines the list of inputs |
| `Cases.EnumerateCases` | python/sciforge/corpus/exhaustive.py:121-127 | every pattern with every input once, in order, and the product of the two counts |
| `Cases.CasesDetermined` | python/sciforge/corpus/exhaustive.py:121-127 | and that determines the list of cases |
| `Cases.ExhaustiveStatus` | python/sciforge/corpus/exhaustive.py:130-139 | an exhaustive case is never out of contract nor excluded, passes exactly where engine and oracle agree, and a crash is a bug, unless the recogniser ends the run |
| `Json.JsonString` | include/sciforge/bench.hpp:146-176 | the loop appends the escape of each byte between quotes |
| `Json.JsonJoin` | include/sciforge/bench.hpp:209-219 | the items, with one comma between neighbours |
| `Json.JsonArray` | include/sciforge/bench.hpp:222-230 | the bracketed list of the numbers' lexemes |
| `Json.JsonObject` | include/sciforge/bench.hpp:233-241 | the braced list of quoted keys and their values |
| `JsonLaws.QuotedReads` | include/sciforge/bench.hpp:146-176 | the string written for any bytes reads back, under sections 2 and 7 of RFC 8259, as those bytes |
| `JsonLaws.IntegerReads` | include/sciforge/bench.hpp:199-206 | an integer is written exactly: a JSON number whose digits have its value |
| `JsonLaws.ArrayReads` | include/sciforge/bench.hpp:222-230 | an array of readable texts reads back as the list of their values |
| `JsonLaws.ObjectReads` | include/sciforge/bench.hpp:233-241 | an object of readable texts reads back as the dictionary of its pairs, a repeated key keeping its last value |
| `JsonLaws.EmbeddedText` | include/sciforge/bench.hpp:232-241 | a pre-rendered JSON text keeps its value wherever it is embedded |
| `JsonLaws.PiecesRead` | include/sciforge/bench.hpp:146-176 | the reader takes a string of any mix of raw characters, the eight short escapes and `\u` units and surrogate pairs as section 7 of RFC 8259 has it; this pins what the emitted escapes mean |
| `JsonLaws.WordsRead` | include/sciforge/bench.hpp:232-241 | `true`, `false` and `null` read as themselves, alone, in an array and in an object |
| `Utf8Text.EncodedIsWellFormed` | python/sciforge/bench/schema.py:79-82 | the bytes of any text are well-formed UTF-8 (section 4 of RFC 3629) |
| `Utf8Text.Decoded` | python/sciforge/bench/schema.py:79-82 | and well-formed bytes are those of some text |
| `EmittedUtf8.EscapedWellFormed` | include/sciforge/bench.hpp:146-176 | escaping a string neither makes nor breaks well-formed UTF-8 |
| `EmittedUtf8.ObjectWellFormed` | include/sciforge/bench.hpp:232-241 | an emitted object is well-formed exactly when its keys and values are |
| `BenchSchema.CaseToJson` | python/sciforge/bench/schema.py:44-49 | the dictionary built step by step, domain fields last |
| `BenchSchema.CaseRoundTrip` | python/sciforge/bench/schema.py:44-59 | a case is read back exactly when no domain field takes an attribute's name |
| `BenchSchema.RunRoundTrip` | python/sciforge/bench/schema.py:62-70 | `run_from_json(run_to_json(r))` is `r` exactly under that condition on every case |
| `BenchSchema.EmitCase` | include/sciforge/bench.hpp:253-270 | the object of name, unit, samples, the result if there is one, then the domain fields |
| `BenchSchema.EmitRun` | include/sciforge/bench.hpp:278-285 | the object of meta and cases |
| `BenchSchema.EmittedCaseRoundTrip` | include/sciforge/bench.hpp:253-270 | the text of an emitted case is JSON, and the Python reader gets the case back exactly when no domain key takes an attribute's name |
| `BenchSchema.DomainFieldKept` | include/sciforge/bench.hpp:266-268 | a domain field is read with its own value when no later one has its key |
| `BenchSchema.NoOtherDomainField` | include/sciforge/bench.hpp:266-268 | and no other field is read |
| `BenchSchema.EmittedRunRoundTrip` | include/sciforge/bench.hpp:278-285 | `load_run` of the emitted file gives back meta and every case exactly when every string, key and pre-rendered piece is UTF-8 and no domain key takes an attribute's name; it refuses the file as undecodable exactly when some piece is not UTF-8 |
| `BenchSchema.EmittedRunReads` | include/sciforge/bench.hpp:278-285 | before decoding: the bytes parse whatever the strings hold, and give the run back under the condition on the keys |
| `Utf8.EncodeExactly` | python/sciforge/corpus/runner.py:153-161 | the bytes of a code point by section 3 of RFC 3629, read the other way: the first byte says how many, the bits behind the marks are the code point's, and no shorter encoding would do |
| `Utf8.BoundaryIsStart` | python/sciforge/corpus/runner.py:153-161 | an offset is no continuation byte, or is the end, exactly when a character starts there |
| `Utf8.CharOffsets` | python/sciforge/corpus/runner.py:153-161 | the keys are exactly those boundaries, each with the number of characters in front of it |
| `Utf8.SliceMatches` | python/sciforge/corpus/runner.py:153-161 | between two boundaries the bytes are the encoding of the characters between |
| `Utf8.RustMatchSound` | python/sciforge/corpus/runner.py:164-179 | a match is refused exactly when a span that took part splits a code point; else every span selects the same text |
| `DatFields.Unquote` | python/sciforge/corpus/runner.py:230-254 | the index loop computes the field's reading, which advances at every turn; digits are what `int` takes, and a code that is no C int is an OverflowError |
| `DatFields.UnquoteUndoes` | python/sciforge/corpus/runner.py:230-254 | any mix of raw, short, hex, Unicode and octal spellings of a text unquotes to it |
| `DatFields.PlainSpelling` | python/sciforge/corpus/runner.py:245-253 | plain digits of the right number spell their value: always in octal, in hex up to the last code point |
| `DatFields.ShortSpellings` | python/sciforge/corpus/runner.py:226-245 | exactly nine letters are short escapes, each with its character |
| `DatFields.NumberSpellings` | python/sciforge/corpus/runner.py:246-253 | two hex digits after `x`, four after `u`, eight after `U` spell the character of that number |
| `DatFields.LargeEscapeOverflows` | python/sciforge/corpus/runner.py:245-250 | after any accepted text, an eight-digit escape of 2147483648 or more ends the reading with OverflowError |
| `PyInt.NumeralReads` | python/sciforge/corpus/runner.py:248 | a numeral without blanks, sign, prefix or underscores is read by `int` as its value |
| `PyInt.IntReads` | python/sciforge/corpus/runner.py:248 | blanks, a sign, a prefix of the base, digits of either case with single underscores between them, and blanks are read as the number of the digits |
| `PyInt.ReadIsInt` | python/sciforge/corpus/runner.py:248 | and no other text is read |
| `DatFields.UnquotedIsSpelt` | python/sciforge/corpus/runner.py:230-254 | and a field that unquotes is some such mix, its digits as lenient as `int` |
| `DatFields.ParseResult` | python/sciforge/corpus/runner.py:257-284 | the loop reads the match array that the field spells |
| `DatFields.ResultUndoes` | python/sciforge/corpus/runner.py:257-284 | a printed non-empty list of spans, `?` for -1, reads back as its first span and the groups |
| `DatLaws.OutcomeExactly` | python/sciforge/corpus/runner.py:257-284 | every outcome field says one thing: `NOMATCH`, an error for another upper-case word, the spans of a match array of texts that `int` reads, or nothing readable; and that is what is read |
| `DatReader.LoadCases` | python/sciforge/corpus/runner.py:304-348 | the load fails exactly when some line is fatal, as the first such line does: IndexError on a `NULL` outcome, OverflowError on an escape; otherwise its cases and its filtered count are those of the lines |
| `DatLaws.PlainRow` | python/sciforge/corpus/runner.py:311-347 | a row as it is written, with any of the flag forms, `NULL` for an empty field and any comments, without `$`: the second field is the pattern, the third the input, as they are; one case per `E` or `L` in order, the pattern quoted for `L`, with the outcome's spans, and icase exactly when `i` is in its flags; one filtered count when it has no such mode or no readable outcome |
| `DatLaws.EscapedRow` | python/sciforge/corpus/runner.py:328-347 | the same with `$`: pattern and input are the texts their spellings stand for |
| `DatLaws.SameRow` | python/sciforge/corpus/runner.py:334-347 | a row whose pattern is `SAME` runs the pattern left by the lines before it, and leaves it |
| `DatLaws.UnreadRow` | python/sciforge/corpus/runner.py:328-333 | a row with `$` of which a field cannot be unquoted is counted as filtered, or ends the load with OverflowError |
| `DatLaws.NoTest` | python/sciforge/corpus/runner.py:306-323 | comments, blank lines, `C`, `N`, `T` and digit lines, a control character alone and an unclosed comment add nothing and leave `SAME` alone |
| `DatLaws.ShortRow` | python/sciforge/corpus/runner.py:324-326 | a test with fewer than four fields, or with `NIL`, is counted as filtered and leaves `SAME` alone |
| `DatLaws.FieldsSplit` | python/sciforge/corpus/runner.py:310 | fields are separated by tabs, and a run of tabs separates as one does |
| `DatLaws.LiteralEscapes` | python/sciforge/corpus/runner.py:343-345 | the literal mode puts a backslash in front of each of the fourteen metacharacters and of nothing else |
| `DatReader.LineAccounted` | python/sciforge/corpus/runner.py:324-347 | a line reaching the field count yields one case per `E` or `L`, or one filtered count, never both |
| `DatReader.SameResolves` | python/sciforge/corpus/runner.py:334-336 | `SAME` is the pattern of the nearest earlier line that recorded one |
| `DatReader.NearestIsNotSame` | python/sciforge/corpus/runner.py:334-336 | the remembered pattern is never `SAME` |
| `DatReader.TabbedFields` | python/sciforge/corpus/runner.py:310 | fields joined by tabs are split back |
| `DatLaws.NullOutcomeIsFatal` | python/sciforge/corpus/runner.py:327-337 | every test line whose fields can be read and whose outcome is `NULL` stops the load |
| `DatReader.LiteralUndone` | python/sciforge/corpus/runner.py:343-345 | the literal mode's quoting un-escapes to the pattern |
| `Corpus.HoldsReflexive` | python/sciforge/corpus/schema.py:134-144 | every observable meets itself |
| `Corpus.HoldsTransitive` | python/sciforge/corpus/schema.py:134-144 | meeting an expectation is transitive |
| `Corpus.HoldsExactly` | python/sciforge/corpus/schema.py:134-144 | between observables of drivers that did not raise, meeting a row is exactly that: the row leaves trailing groups unstated, match by match, and nothing else differs |
| `Corpus.RunCorpus` | python/sciforge/corpus/runner.py:103-122 | one result per case, in order, whatever the drivers raise; the run ends without a report exactly at the first case without a status or link of its own on which `divergence_of` raises |
| `Corpus.ResultsReported` | python/sciforge/corpus/runner.py:103-122 | a result holds what the engine gave or the name of what it raised, and the same of the oracle, for which the stored row stands under `real_only` |
| `Corpus.DeclaredStatus` | python/sciforge/corpus/runner.py:111-113 | a status that the case declares comes first, then a capability it needs |
| `Corpus.AgreeingStatus` | python/sciforge/corpus/schema.py:184-194 | an engine that agrees with the oracle passes, or is out of contract exactly when the row is of foreign semantics and the oracle does not meet it |
| `Corpus.RowAgreeingStatus` | python/sciforge/corpus/schema.py:184-198 | one that meets the row but not the oracle: a pass under `real_only`; out of contract when the row is of foreign semantics and the oracle does not meet it; else divergence exactly when a link is given, else a bug |
| `Corpus.DisagreeingStatus` | python/sciforge/corpus/schema.py:176-200 | one that meets neither: an intentional divergence exactly when a link is given, else a bug; one that raised is a bug |
| `Corpus.ForeignExactly` | python/sciforge/corpus/schema.py:184 | the one semantics that is not foreign to each oracle |
| `Corpus.RealOnlyInContract` | python/sciforge/corpus/schema.py:184-188 | under `real_only` a case is out of contract exactly when its own override says so |
| `Corpus.FewerHolds` | python/sciforge/corpus/schema.py:134-144 | a row that states fewer groups is met by the row that states more |
| `Corpus.FewerStillPasses` | python/sciforge/corpus/schema.py:189-194 | a `real_only` pass survives stating fewer groups |
| `Corpus.FewerInContract` | python/sciforge/corpus/schema.py:184-188 | a row the oracle meets stays in contract when it states fewer groups |
| `Corpus.FewerLeavesContract` | python/sciforge/corpus/schema.py:184-188 | exactly when stating fewer groups moves another row out of contract |
| `Corpus.FewerCanLeaveContract` | python/sciforge/corpus/schema.py:184-188 | a row for which it does |
| `Corpus.CrashIsBug` | python/sciforge/corpus/schema.py:175-178 | an engine that raised is a bug, whatever the oracle did, unless the pattern is excluded or the recogniser ends the run |
| `Corpus.OneMatch` | python/sciforge/corpus/schema.py:209-223 | true exactly for equal spans whose groups differ only where the oracle's is zero-width; KeyError exactly on a missing key it reaches; IndexError exactly on a differing group without two ends it reaches |
| `Corpus.EmptyIterationExactly` | python/sciforge/corpus/schema.py:209-223 | on two matches whose groups have two ends: true exactly for equal spans, as many groups, some group that differs, and an empty one of the oracle's wherever one does; and no key or end is missing |
| `Corpus.IsEmptyIterationCapture` | python/sciforge/corpus/schema.py:202-238 | the same over lists, element by element, up to the first that decides |
| `Corpus.CrashEndsRun` | python/sciforge/corpus/schema.py:202-238 | with a recogniser built on the test, an engine that raises ends the run exactly when the oracle matches or raises too |
| `Corpus.UnsetGroupEndsRun` | python/sciforge/corpus/runner.py:171-172 | and so does a rust row's `[]` for a group that took no part, against -1 for both ends |
| `Corpus.Counts` | python/sciforge/corpus/schema.py:265-270 | every status has its number of results, and the five sum to the number of cases |
| `KwSpec.KwSpecObject.Claim` | include/sciforge/binding/dispatch.hpp:187-201 | refused, unchanged, exactly in the epoch of its last claim; else emptied, every owned default released |
| `KwSpec.KwSpecObject.AddRequired` | include/sciforge/binding/dispatch.hpp:221-227 | the three fields grow by a name, an `O` and a null default |
| `KwSpec.KwSpecObject.AddOptional` | include/sciforge/binding/dispatch.hpp:231-242 | the same with the default's slot, the bar in front of the first |
| `KwSpec.KwSpecObject.Close` | include/sciforge/binding/dispatch.hpp:318-325 | the null name and `:name` |
| `KwSpec.RunConserves` | include/sciforge/binding/dispatch.hpp:187-242 | every import keeps the ownership invariant: slots hold live references, one slot each |
| `KwSpec.ReferencesBalance` | include/sciforge/binding/dispatch.hpp:187-242 | over every sequence of imports, created minus released are the references in slots plus one for each import whose block reaches a throwing default; they are the non-null slots if and only if there is no such import |
| `KwSpec.BlockLoses` | include/sciforge/binding/dispatch.hpp:232-242 | a block throws exactly when a registration that is the first of its function holds a throwing default, and then loses exactly one reference |
| `KwSpec.ThrowLoses` | include/sciforge/binding/dispatch.hpp:231-242 | an import that loses one |
| `KwSpec.RequiredBeforeOptional` | include/sciforge/binding/dispatch.hpp:206-219 | true exactly when some prefix has no default and the rest all have one |
| `KwSpec.SpecShape` | include/sciforge/binding/dispatch.hpp:305-327 | a claimed specification has its names and a null, one `O` a parameter with the bar at the first default, and null defaults exactly at required parameters or failed allocations |
| `KwSpec.SecondRegistrationFails` | include/sciforge/binding/dispatch.hpp:190-194 | behind any block that registered the function before, another registration of it leaves the block's specifications, counts and references as they were and sets the error |
| `KwSpec.ImportSucceedsExactly` | include/sciforge/binding/module.hpp:119-137 | in any reachable world an import succeeds if and only if it starts, its block does not throw, registers each function once and makes every default, and the functions can be added |
| `KwSpec.ImportReady` | include/sciforge/binding/module.hpp:120-137 | after a successful import each function was registered once, and each registration has its own complete specification |
| `KwSpec.FillDefaults` | include/sciforge/binding/dispatch.hpp:285-292 | the in-place loop fills exactly the absent slots, and fails exactly on a null default |
| `KwSpec.CallsAreServed` | include/sciforge/binding/dispatch.hpp:271-292 | after a successful import no accepted call meets a null default |
| `ModuleTable.ModuleStatics.PyInit` | include/sciforge/binding/module.hpp:104-138 | the import, exit by exit: table, epoch, functions and module reference |
| `ModuleTable.ImportKeepsFunctions` | include/sciforge/binding/module.hpp:115-137 | without memory failures, an import leaves the rows of all earlier functions valid and unchanged if and only if it fits the buffer and writes those rows as they were |
| `ModuleTable.FunctionsStayIntact` | include/sciforge/binding/module.hpp:115-137 | over any number of imports of one block, failed ones included, every function keeps its row |
| `ModuleTable.LongerBlockDangles` | include/sciforge/binding/module.hpp:115-137 | an import that registers one row more leaves the first function dangling |
| `ModuleTable.OutcomeExactly` | include/sciforge/binding/module.hpp:104-137 | how an import ends, from its rows and the cells of the buffer alone |
| `ModuleTable.ReferencesCounted` | include/sciforge/binding/module.hpp:104-137 | over any number of imports, the module references are one for each import that returned or that an exception cut short: every failed one releases its own |
| `ModuleTable.FunctionsOfReturned` | include/sciforge/binding/module.hpp:133-137 | every function belongs to an import that returned its module |
| `ModuleTable.EscapesExactly` | include/sciforge/binding/module.hpp:132 | an exception crosses `PyInit` exactly when all before has succeeded, the rows fill the buffer and there is no memory for another; never when they leave a cell free |
| `ClassTables.ClassBuilder.constructor` | include/sciforge/binding/class.hpp:317-331 | clears name and tables unless the type is registered |
| `ClassTables.ClassBuilder.Def` | include/sciforge/binding/class.hpp:341-350 | one row more, or nothing when the type is registered or memory runs out |
| `ClassTables.ClassBuilder.DefPropRo` | include/sciforge/binding/class.hpp:352-366 | the same for the getset table |
| `ClassTables.ClassBuilder.Finish` | include/sciforge/binding/class.hpp:452-511 | runs once: reuse, or terminators, creation, registration and rollback |
| `ClassTables.ClassBuilder.FillSlots` | include/sciforge/binding/class.hpp:478-500 | the slots of the hooks given, in order |
| `ClassTables.SlotArrayFits` | include/sciforge/binding/class.hpp:476-500 | at most nine slots, ended by the terminator and nowhere else: the two tables' and those of the hooks given, each once, and no other |
| `ClassTables.StepKeeps` | include/sciforge/binding/class.hpp:317-511 | every step of any builder keeps the table invariant |
| `ClassTables.LiveTablesIntact` | include/sciforge/binding/class.hpp:317-511 | over every run a live type is the registered one, the tables are exactly what it captured, terminated, and its slots lead to them |
| `ClassTables.UntouchedSinceCapture` | include/sciforge/binding/class.hpp:320-326 | between a type's creation and any moment it is live, neither table was written or moved |
| `ClassTables.WritesCount` | include/sciforge/binding/class.hpp:327-413 | the write counter behind that statement misses no change |
| `ClassTables.RegisteredForever` | include/sciforge/binding/class.hpp:460-466 | a registered type is never unregistered, rebuilt or changed |
| `ClassTables.RollbackDrops` | include/sciforge/binding/class.hpp:506-510 | a failed module add leaves nothing registered and the new type dead |
| `ClassTables.ModulesCounted` | include/sciforge/binding/class.hpp:460-511 | over every run a type has one reference for each module it was put in and that is still there |
| `ClassTables.RefsCounted` | include/sciforge/binding/class.hpp:460-511 | and all its references balance: two when it is made and added, one for each module it is reused in, those taken, less those given back |
| `ClassTables.TerminatorsCounted` | include/sciforge/binding/class.hpp:467-475 | a method or getset table's terminators are its own and one per failed finish that reached it since it was cleared |
| `ClassTables.OverlapHidesMethods` | include/sciforge/binding/class.hpp:467-503 | two builders at once can leave a terminator in front of the methods |
| `ClassTables.OneBuilder` | include/sciforge/binding/class.hpp:310-511 | one builder's statement makes the type of its links up to the first whose push threw: its name, its methods and its properties in order, the slots of its hooks, registered, with one reference of its own and one of the module's, whatever earlier builders left |
| `ClassTables.FailedDefSticks` | include/sciforge/binding/class.hpp:336-450 | a method or property whose push threw, and every link after it, hooks included, is missing from the type in every later import |
| `Factories.FactoryAsCreated` | include/sciforge/binding/class.hpp:424-448 | over any number of imports a live constructible type has the factory specification of the import that made it, complete if and only if no default failed to allocate in that import |
| `Factories.MissingForever` | include/sciforge/binding/class.hpp:433-435 | so a default that failed then is missing in every later import |
| `Factories.LaterImportSucceeds` | include/sciforge/binding/class.hpp:433-435 | while those imports succeed |
| `Factories.ImportSucceedsExactly` | include/sciforge/binding/class.hpp:317-511 | an import with a `class_` statement succeeds if and only if it starts, each registration is the first of its function and makes its defaults, no link of a first statement throws, the type gets into the module, the block does not throw and the functions can be added |
| `Factories.TypeAsStated` | include/sciforge/binding/class.hpp:310-511 | the type that an import's statement makes: its links up to the first that throws, `def_init` among them, constructible exactly when `def_init` was reached and did not throw |
| `Convert.PyHeap.Decref` | include/sciforge/binding/convert.hpp:281-284 | the last reference frees the object and gives back its items, last first |
| `Convert.PyHeap.ToPython` | include/sciforge/binding/convert.hpp:263-331 | the heap after any conversion: the result tree added, or the references given back |
| `Convert.PyHeap.ToContainer` | include/sciforge/binding/convert.hpp:263-331 | the same for a vector or tuple, items in order, released when one fails |
| `Convert.ReleaseUndoes` | include/sciforge/binding/convert.hpp:281-284 | releasing a converted tree leaves the heap as before, less the references that were handed over |
| `Convert.FailureGivesBack` | include/sciforge/binding/convert.hpp:271-285 | a conversion succeeds exactly when nothing in the value stops it, and a failure gives back exactly the references in front of the first stop |
| `Convert.FailureKeepsHeap` | include/sciforge/binding/convert.hpp:271-285 | a failure leaves the heap as it was if and only if no reference was handed over in front of it |
| `Convert.OnlyLeavesAreNull` | include/sciforge/binding/convert.hpp:275-278 | a null element becomes an exception, so no container answers null |
| `Convert.ConvertedMirrors` | include/sciforge/binding/convert.hpp:263-331 | the result has the shape of the value |
| `Convert.ResultOwnedOnce` | include/sciforge/binding/convert.hpp:263-331 | a success adds exactly the result: old cells unchanged, every new object with one reference, its parent's or the caller's |
| `Convert.ResultStored` | include/sciforge/binding/convert.hpp:263-331 | after a success the heap holds the converted value: each new object with exactly its items, in order |
| `Convert.SharesCounted` | include/sciforge/binding/convert.hpp:263-331 | an existing object has one reference more for each place that shares it |
| `Gate.AtMostOneInside` | tools/run-gate.sh:31-82 | in every assumed interleaving, deaths anywhere included, at most one live gate is past acquisition, and the lock bears its pid |
| `Gate.StepExcludes` | tools/run-gate.sh:31-82 | every assumed step of any gate keeps the exclusion invariant |
| `Gate.LockChanges` | tools/run-gate.sh:33-47 | the lock is only made when free, recorded by its maker, removed by its holder, or reclaimed from a dead one |
| `Gate.RefusedTouchesNothing` | tools/run-gate.sh:39-44 | a refused gate never touches the lock |
| `Gate.RefusalJustified` | tools/run-gate.sh:33-44 | in every assumed run a gate is refused exactly at its look at a lock that another live gate holds, that has no pid, or that was just given up; never by a recorded dead holder, nor at the `mkdir` after a removal |
| `Gate.UnrecordedForever` | tools/run-gate.sh:35-42 | a lock left without a pid is never taken over |
| `Gate.DeadHolderReclaimed` | tools/run-gate.sh:34-38 | the lock of a dead recorded holder can always be reclaimed |
| `Gate.SignalBreaksExclusion` | tools/run-gate.sh:47 | a signal past the trap lets a second gate in |
| `Gate.SplitReclaimBreaksExclusion` | tools/run-gate.sh:34-38 | two interleaved reclaims let both gates in |
| `Gate.VerdictSound` | tools/run-gate.sh:53-82 | in any interleaving, steps run in order up to the first failure, and the status is 0 exactly when all passed and the snapshots are equal |
| `Gate.JudgedExactly` | tools/run-gate.sh:53-82 | from the events of any possible run: a gate that snapshots at event i and ends at event j has status 0 if and only if the trees that the changes up to i and up to j leave print the same and every step was made between them and passed; the status then stays |
| `Gate.StepsAsLaunched` | tools/run-gate.sh:53-60 | and the steps are those the gate was started with |
| `Gate.PrintedExactly` | tools/run-gate.sh:49-52 | two trees print the same exactly at one commit and with the same status letters at every path |
| `Gate.CleanTreeSeen` | tools/run-gate.sh:49-77 | a gate that begins on a clean tree sees every change that is there at its end |
| `Gate.WriteSeenExactly` | tools/run-gate.sh:49-77 | exactly which write to a file is not seen: one that leaves its content, keeps it different from the index, or is to an untracked file |
| `Gate.UnseenChangePasses` | tools/run-gate.sh:49-77 | so a gate can end with status 0 on another tree than it began on |
| `Gate.UndoneChangePasses` | tools/run-gate.sh:49-77 | a change passes when the next one, before the end, makes the tree print as it did |
| `Gate.RunSteps` | tools/run-gate.sh:55-82 | the loop's summary and status |
| `ReleaseNotes.CheckNotes` | tools/release.sh:112-113 | the guard's scan |
| `ReleaseNotes.FileNotes` | tools/release.sh:125-126 | the rewrite's scan |
| `ReleaseNotes.ExtractNotes` | tools/release.sh:148 | the extractor's scan |
| `ReleaseNotes.FilingKeepsLine` | tools/release.sh:125-126 | every line is kept, in order; a blank line and the heading are added after each mark, nothing else |
| `ReleaseNotes.HeadingsDistinct` | tools/release.sh:148 | a version's heading is recognised, and no other version's |
| `ReleaseNotes.LinesTested` | tools/release.sh:112-148 | a text begins with what it continues, itself included, and a line holds something unless all of it is blanks and tabs |
| `ReleaseNotes.GuardAccepts` | tools/release.sh:112-113 | the guard accepts exactly when the entries hold more than blanks |
| `ReleaseNotes.GuardExactly` | tools/release.sh:112-113 | it accepts exactly when some line is the first mark and a line that is not blank stands between it and the next heading of a version |
| `ReleaseNotes.FiledIsRefused` | tools/release.sh:112-126 | once filed, any file is refused |
| `ReleaseNotes.ExtractsEntries` | tools/release.sh:125-148 | the extractor gives the new heading and exactly the former entries, if and only if the next section is not the version's own |
| `ReleaseNotes.AnnotationIsEntries` | tools/release.sh:145-150 | under the same condition the annotation is the heading and the entries, less blank lines at their end |
| `ReleaseNotes.EarlierHeadingShadows` | tools/release.sh:148 | an earlier heading of the version makes the extraction independent of the release |
| `ReleaseRun.IsAllowed` | tools/release.sh:129-138 | the notes, a listed file, or a file under a listed directory |
| `ReleaseRun.JudgeWorkflow` | tools/release.sh:74-91 | passes exactly when green on HEAD, or not run there and green on the newest commit it ran on with only skipped paths since |
| `ReleaseRun.Repository.Restore` | tools/release.sh:116-121 | the three commands together |
| `ReleaseRun.Repository.Prelude` | tools/release.sh:49-113 | the refusals, in order |
| `ReleaseRun.PastTrapExactly` | tools/release.sh:49-113 | on the inputs: a run is past the trap exactly when a bump is named, the notes exist, HEAD is on main, HEAD, index and tree are the same, every workflow is green, the tags were fetched and the prechecks pass unless skipped, the version's tag is new and the entries hold more than blanks; otherwise it stops at the first of these that is not so |
| `ReleaseRun.Repository.Object` | tools/release.sh:127-163 | the checks on the bumped tree, in order |
| `ReleaseRun.ChecksExactly` | tools/release.sh:127-163 | on the inputs: the checks let a run through exactly when the bump succeeds and changes only what it may, the annotation is not blank, the extra tags can be named and are new, and it is no dry run; otherwise it ends as the first of these that is not so |
| `ReleaseRun.BlankExactly` | tools/release.sh:150 | an annotation is blank exactly when all its lines are white space |
| `ReleaseRun.Repository.Publish` | tools/release.sh:169-174 | the tags made up to the first failure, then the push |
| `ReleaseRun.Repository.Release` | tools/release.sh:49-174 | the whole run is the composition of its stages |
| `ReleaseRun.ReleasedExactly` | tools/release.sh:49-174 | on the inputs: exactly when a run releases, and what it then leaves: the bumped tree as HEAD, one commit, its tags, pushed together |
| `ReleaseRun.ExitBeforeAdd` | tools/release.sh:49-163 | no commit, tag or push and nothing staged before `git add` |
| `ReleaseRun.TreeRestored` | tools/release.sh:116-163 | tracked files equal HEAD and no new file is left under RELEASE_FILES |
| `ReleaseRun.TreeRestoredExactly` | tools/release.sh:116-163 | exactly when the whole tree is HEAD again |
| `ReleaseRun.CommittedPaths` | tools/release.sh:139-168 | every committed path is the notes or an allowed entry, the commit is the whole bump, and the tree is clean after it |
| `ReleaseRun.FailedCommitStaysStaged` | tools/release.sh:116-121 | a failed commit leaves the release staged |
| `ReleaseRun.NoSignals` | tools/release.sh:115-174 | the run with signals is the run when none comes |
| `ReleaseRun.SignalledCommit` | tools/release.sh:115-171 | with signals at any moment behind the trap, a commit is still the whole of what the bump made, of allowed paths; it holds the filed notes unless a signal came between filing and bump; none is made after a signal between the bump and `git add` |
| `ReleaseRun.UnfiledRelease` | tools/release.sh:122-127 | a signal between filing and bump gives the run of a bump that starts from HEAD: a release without its notes |
| `ReleaseRun.TagsAfter` | tools/release.sh:105-171 | no run removes a tag; one that cuts a version cuts a new one |
| `ReleaseRun.NoReuse` | tools/release.sh:105-110 | over any runs no version is cut twice, or was there before |
| `ReleaseRun.MonthsDistinct` | tools/release.sh:108 | a version's tag matches its own month's glob only |
| `ReleaseRun.NumberedInOrder` | tools/release.sh:105-110 | a month's releases are numbered 0, 1, 2, … from an empty month, whatever comes between |
| `ReleaseRun.NumberExactlyWhen` | tools/release.sh:108-109 | the next number is the count of the month's versions exactly when no other tag matches the month |
| `Pins.ItemExactly` | tools/check-pins.sh:65 | a step starts exactly at a line of blanks, a dash and a blank |
| `Pins.RefLineExactly` | tools/check-pins.sh:67 | a ref line is exactly one of blanks and then `ref:` |
| `Pins.RefOfExactly` | tools/check-pins.sh:67-70 | the value of any ref line is its first word, without the quotes in it |
| `Pins.RefLineParts` | tools/check-pins.sh:67-70 | and every ref line has one |
| `Pins.RefRead` | tools/check-pins.sh:67-70 | a ref's value is read whatever its indentation, quotes and trailing text |
| `Pins.NameRead` | tools/check-pins.sh:66 | a repository line is recognised whatever surrounds it |
| `Pins.NamesExactly` | tools/check-pins.sh:66 | and no other line is |
| `Pins.NumbersAreVersion` | tools/check-pins.sh:58 | a `v` and three numbers is a version |
| `Pins.VersionExactly` | tools/check-pins.sh:58 | and nothing else is |
| `Pins.ScanCheckouts` | tools/check-pins.sh:56-72 | the one-pass scanner emits what the steps say |
| `Pins.OneRecordAStep` | tools/check-pins.sh:56-72 | one record per step that names SciForge, with that step's last ref, and no other |
| `Pins.StepsAreSteps` | tools/check-pins.sh:53-65 | those steps are the file's: from a list item, or the first line, to the next |
| `Pins.Check` | tools/check-pins.sh:93-129 | each verdict exactly when: no version pinned somewhere; no pins; so many versions; the first floor above the one version; the sibling not at it; agreement |
| `Pins.AboveExactly` | tools/check-pins.sh:117-124 | a floor is refused exactly when its three numbers are above the version's, or equal and its text sorts behind |
| `Pins.AboveByNumbers` | tools/check-pins.sh:117-124 | for floors and versions of digits and dots, leading zeros and missing components included: the first three numbers decide, and at equal numbers the byte order of the texts |
| `Pins.AboveIsGreater` | tools/check-pins.sh:117-124 | between printed versions of three numbers a floor is above exactly when its numbers are lexicographically greater |
| `Pins.AgreesOnNumbers` | tools/check-pins.sh:93-129 | the verdict on such records: agreement exactly when all pin the version, no floor is greater and the sibling is at it, and a refused floor exactly when one is greater |
| `Pins.LongerFloorAbove` | tools/check-pins.sh:117-124 | a floor with the version's three numbers, spelt with more behind the version, is refused |
| `Pins.FourthComponentAbove` | tools/check-pins.sh:117-124 | so any fourth component is, a zero too |
| `Pins.EqualFloorRefused` | tools/check-pins.sh:117-124 | 1.2.0.0 above 1.2.0 |
| `Stats.SummaryOrdered` | python/sciforge/bench/stats.py:20-39 | minimum, quartiles, median and maximum stand in order, for any samples |
| `Stats.SummaryOfMultiset` | python/sciforge/bench/stats.py:20-29 | the summary does not depend on the order of the samples |
| `Stats.SummaryByRank` | python/sciforge/bench/stats.py:20-39 | the median is the middle one of all samples by rank, or the mean of the middle two; the quartiles are those of the lower and upper half, the middle one of an odd number in neither |
| `Stats.RankDetermined` | python/sciforge/bench/stats.py:20-39 | and a rank has one value |
| `Stats.NeverClamped` | python/sciforge/bench/stats.py:61-71 | for a level in [0, 1] no index is clamped, and as many values lie below the lower bound as above the upper |
| `Stats.BoundsOrdered` | python/sciforge/bench/stats.py:65-71 | the indices are ordered when level * count is at least 2 |
| `Stats.BoundsOrderedExactly` | python/sciforge/bench/stats.py:65-71 | exactly when they are ordered |
| `Stats.BoundsCanCross` | python/sciforge/bench/stats.py:65-71 | three values at level 0 cross |
| `Stats.RatioCi` | python/sciforge/bench/stats.py:74-92 | the two loops of draws and the bounds, with every error |
| `Stats.EveryResample` | python/sciforge/bench/stats.py:85-89 | the resamples are independent of each other: for any choice of indices one generator draws exactly those, and the replicates are the ratios of their medians |
| `Stats.RatioEnclosed` | python/sciforge/bench/stats.py:74-92 | for positive samples and any draws the interval and the point lie between the extreme ratios, in order |

## Left out

- Stats.RatioEnclosed: the arithmetic is over the reals, without floating-point rounding; draws are any in-range indices.
- BenchSchema.RunRoundTrip: a run, case, meta or samples of another shape than the schema's, which Python's `dict` and `list` refuse or convert, is one error here.
- BenchSchema.EmittedRunRoundTrip: numbers are kept as their lexemes, so what `%.6g` rounds away is not modelled; a pre-rendered piece with an escaped lone surrogate, which `json` accepts, is outside its premise.
- DatFields.Unquote: texts are Latin-1, the reader's default encoding, so `int` is not modelled on other scripts' digits and blanks; the OverflowError is that of interpreters whose `chr` takes a C int.
- DatFields.ParseResult: likewise Latin-1, and the limit on the number of decimal digits `int` reads is not modelled.
- Utf8.RustMatchSound: the TOML file around a match, and the filters on its other keys, are not modelled.
- KwSpec.ReferencesBalance: the epoch does not wrap around; `push_back` of names and the growth of the format are taken not to throw.
- ModuleTable.ImportKeepsFunctions: the module's dictionary and the life of module objects are not modelled, so a function is kept even when its module is gone.
- ClassTables.LiveTablesIntact: one wrapped type at a time; instances and their dealloc, `init_once` and the wrappers' bodies are not modelled. A type that only the garbage collector can still reach counts as dead.
- Convert.PyHeap.ToPython: the scalar casters, `from_python`, and finalisers that run during a release are not modelled.
- Gate.AtMostOneInside: removing a lock by hand, reuse of process ids and a second build directory are not modelled; times in the summary are left out.
- Gate.PrintedExactly: renames that `git status` detects are a deletion and an addition here, and an untracked directory, which it prints as one line, is its files.
- Gate.VerdictSound: the usage error (status 2) and a build directory that cannot be made are left out.
- ReleaseRun.TreeRestored: glob characters in RELEASE_FILES, ignored files and quoted path names of `git status` are not modelled; the failure of the notes rewrite leaves its temporary file whole; without signals, which `ReleaseRun.SignalledCommit` adds.
- ReleaseRun.SignalledCommit: a signal takes effect between two commands of the script, as bash delivers it; a signal that also kills the command in hand is that command's failure. No file is tracked under the name of the temporary notes.
- Factories.FactoryAsCreated: the factory is registered by its type alone.
- ReleaseRun.JudgeWorkflow: the globs of RELEASE_CI_IGNORED are an oracle per commit; the 100 commits looked back at are the given history.
- Pins.ScanCheckouts: a step is what the script takes for one, so a list inside a step ends it; the reusable-workflow, `sciforge-ref`, CMake and floor patterns are given as records, and the sibling checkout is an oracle.
- Pins.AboveExactly: a floor is digits and dots; `sort` falls back on byte order.
- `bootstrap_ci`, `geomean_ci` and `hierarchical_geomean_ci`: the same draws and bounds with other statistics; the box plot and the ECDF draw text.
- `calibrate`, `batch_time`, `collect`: they measure wall time.
- Manifest and TOML loading, the Go and rust-regex readers, report files: plain key lookups.
- The C++ test framework, `strings.hpp`, `compare.py`, CMake and packaging: easy members only.
