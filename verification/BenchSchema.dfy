/** python/sciforge/bench/schema.py, and what it reads of the runs include/sciforge/bench.hpp emits. */
module BenchSchema {
  import opened Json
  import opened JsonLaws
  import Utf8Text
  import EmittedUtf8

  /** A measured case. A missing `result` and a null one are both Python's None. */
  datatype Case = Case(name: Json, unit: Json, samples: seq<Json>, result: Json, extra: map<string, Json>)
  datatype Run = Run(meta: map<string, Json>, cases: seq<Case>)

  /** What a reader of the schema gives: a value, or the exception it raises. */
  datatype Loaded<T> = Loaded(value: T) | KeyError(key: string) | OtherShape | UnicodeDecodeError | JSONDecodeError

  predicate IsCaseKey(key: string) {
    key == "name" || key == "unit" || key == "samples" || key == "result"
  }

  function ToDict(c: Case): map<string, Json> {
    var base := map["name" := c.name, "unit" := c.unit, "samples" := JArray(c.samples)];
    (if c.result != JNull then base["result" := c.result] else base) + c.extra
  }

  /** `_case_to_json`. */
  method CaseToJson(c: Case) returns (obj: map<string, Json>)
    ensures obj == ToDict(c)
  {
    obj := map["name" := c.name, "unit" := c.unit, "samples" := JArray(c.samples)];
    if c.result != JNull {
      obj := obj["result" := c.result];
    }
    obj := obj + c.extra;
  }

  /** `_case_from_json`. */
  function CaseFromJson(j: Json): Loaded<Case> {
    if !j.JObject? then OtherShape
    else
      var data := j.fields;
      var extra := map key | key in data && !IsCaseKey(key) :: data[key];
      if "name" !in data then KeyError("name")
      else if "unit" !in data then KeyError("unit")
      else if "samples" !in data then KeyError("samples")
      else if !data["samples"].JArray? then OtherShape
      else Loaded(Case(data["name"], data["unit"], data["samples"].items,
                       if "result" in data then data["result"] else JNull, extra))
  }

  function CasesFromJson(js: seq<Json>): (r: Loaded<seq<Case>>)
    ensures r.Loaded? ==> |r.value| == |js|
  {
    if js == [] then Loaded([])
    else
      match CaseFromJson(js[0])
      case KeyError(k) => KeyError(k)
      case OtherShape => OtherShape
      case Loaded(c) =>
        match CasesFromJson(js[1..])
        case KeyError(k) => KeyError(k)
        case OtherShape => OtherShape
        case Loaded(cs) => Loaded([c] + cs)
  }

  /** `run_to_json`. */
  function RunToJson(run: Run): Json {
    JObject(map["meta" := JObject(run.meta),
                "cases" := JArray(seq(|run.cases|, i requires 0 <= i < |run.cases| => JObject(ToDict(run.cases[i]))))])
  }

  /** `run_from_json`. */
  function RunFromJson(j: Json): Loaded<Run> {
    if !j.JObject? then OtherShape
    else
      var meta := if "meta" in j.fields then j.fields["meta"] else JObject(map[]);
      var cases := if "cases" in j.fields then j.fields["cases"] else JArray([]);
      if !meta.JObject? || !cases.JArray? then OtherShape
      else
        match CasesFromJson(cases.items)
        case KeyError(k) => KeyError(k)
        case OtherShape => OtherShape
        case Loaded(cs) => Loaded(Run(meta.fields, cs))
  }

  // --- the Python pair ---

  /** `load_run` on the bytes of a file, which is opened as UTF-8. */
  function LoadRun(text: string): Loaded<Run> {
    if !Utf8Text.WellFormed(text) then UnicodeDecodeError
    else
      match ReadText(text)
      case None => JSONDecodeError
      case Some(j) => RunFromJson(j)
  }

  /** The condition on the domain fields: none takes the name of an attribute. */
  ghost predicate NoCaseKey(extra: map<string, Json>) {
    forall key :: key in extra ==> !IsCaseKey(key)
  }

  lemma {:induction false} CaseRoundTrip(c: Case)
    ensures CaseFromJson(JObject(ToDict(c))) == Loaded(c) <==> NoCaseKey(c.extra)
  {
    var data := ToDict(c);
    var extra := map key | key in data && !IsCaseKey(key) :: data[key];
    if NoCaseKey(c.extra) {
      assert extra == c.extra;
    } else {
      var key :| key in c.extra && IsCaseKey(key);
      assert key !in extra;
    }
  }

  lemma {:induction false} CasesRead(js: seq<Json>, cs: seq<Case>)
    requires |js| == |cs|
    ensures CasesFromJson(js) == Loaded(cs) <==> forall i :: 0 <= i < |js| ==> CaseFromJson(js[i]) == Loaded(cs[i])
    decreases |js|
  {
    hide CaseFromJson;
    if js != [] {
      CasesRead(js[1..], cs[1..]);
      assert cs == [cs[0]] + cs[1..];
      assert forall i :: 1 <= i < |js| ==> js[i] == js[1..][i - 1] && cs[i] == cs[1..][i - 1];
      assert forall i :: 0 <= i < |js| - 1 ==> js[1..][i] == js[i + 1] && cs[1..][i] == cs[i + 1];
      var r := CasesFromJson(js);
      if r == Loaded(cs) {
        assert r.value[0] == cs[0] && r.value[1..] == cs[1..];
      }
    }
  }

  /** `run_from_json(run_to_json(run))` is `run` exactly when no domain field takes an attribute's name. */
  lemma {:induction false} RunRoundTrip(run: Run)
    ensures RunFromJson(RunToJson(run)) == Loaded(run) <==>
            forall i :: 0 <= i < |run.cases| ==> NoCaseKey(run.cases[i].extra)
  {
    hide CaseFromJson, CasesFromJson, ToDict, NoCaseKey;
    var js := seq(|run.cases|, i requires 0 <= i < |run.cases| => JObject(ToDict(run.cases[i])));
    assert RunToJson(run).fields["cases"] == JArray(js);
    CasesRead(js, run.cases);
    forall i | 0 <= i < |run.cases|
      ensures CaseFromJson(js[i]) == Loaded(run.cases[i]) <==> NoCaseKey(run.cases[i].extra)
    {
      CaseRoundTrip(run.cases[i]);
    }
  }

  // --- the C++ emitter ---

  /** The arguments of `emit_case`: the samples as `json_number` spells them, domain values and result pre-rendered. */
  datatype Measured = Measured(name: string, unit: string, samples: seq<string>, domain: seq<Field>, result: string)

  function CaseFields(m: Measured): seq<Field> {
    [("name", Quoted(m.name)), ("unit", Quoted(m.unit)), ("samples", ArrayText(m.samples))]
    + (if m.result != "" then [("result", m.result)] else [])
    + m.domain
  }

  method EmitCase(m: Measured) returns (out: string)
    ensures out == ObjectText(CaseFields(m))
  {
    var name := JsonString(m.name);
    var unit := JsonString(m.unit);
    var samples := JsonArray(m.samples);
    var fields: seq<Field> := [("name", name)];
    fields := fields + [("unit", unit)];
    fields := fields + [("samples", samples)];
    if m.result != "" {
      fields := fields + [("result", m.result)];
    }
    ghost var head := fields;
    for i := 0 to |m.domain|
      invariant fields == head + m.domain[..i]
    {
      fields := fields + [m.domain[i]];
    }
    assert m.domain[..|m.domain|] == m.domain;
    assert fields == CaseFields(m);
    out := JsonObject(fields);
  }

  function RunFields(meta: string, cases: seq<string>): seq<Field> {
    [("meta", meta), ("cases", ArrayText(cases))]
  }

  method EmitRun(meta: string, cases: seq<string>) returns (out: string)
    ensures out == ObjectText(RunFields(meta, cases))
  {
    var joined := JsonJoin(cases);
    out := JsonObject([("meta", meta), ("cases", "[" + joined + "]")]);
  }

  /** The pre-rendered pieces are JSON, and the samples are number lexemes. */
  ghost predicate Rendered(m: Measured) {
    && (forall i :: 0 <= i < |m.samples| ==> IsLexeme(m.samples[i]))
    && (forall i :: 0 <= i < |m.domain| ==> ReadText(m.domain[i].1).Some?)
    && (m.result != "" ==> ReadText(m.result).Some?)
  }

  ghost function DomainValues(m: Measured): (r: seq<Json>)
    requires Rendered(m)
    ensures FieldsRead(m.domain, r)
  {
    seq(|m.domain|, i requires 0 <= i < |m.domain| => ReadText(m.domain[i].1).value)
  }

  function Numbers(lexemes: seq<string>): (r: seq<Json>)
    ensures |r| == |lexemes| && forall i :: 0 <= i < |r| ==> r[i] == JNumber(lexemes[i])
  {
    seq(|lexemes|, i requires 0 <= i < |lexemes| => JNumber(lexemes[i]))
  }

  /** The case `m` describes: what a reader of the emitted text should see. */
  ghost function Described(m: Measured): Case
    requires Rendered(m)
  {
    Case(JString(m.name), JString(m.unit), Numbers(m.samples),
         if m.result != "" then ReadText(m.result).value else JNull,
         Filled(map[], Keys(m.domain), DomainValues(m)))
  }

  lemma {:induction false} FilledAfter(seen: map<string, Json>, keys: seq<string>, values: seq<Json>)
    requires |keys| == |values|
    ensures Filled(seen, keys, values) == seen + Filled(map[], keys, values)
    decreases |keys|
  {
    if keys != [] {
      var one := map[keys[0] := values[0]];
      FilledAfter(seen[keys[0] := values[0]], keys[1..], values[1..]);
      FilledAfter(one, keys[1..], values[1..]);
      assert Filled(map[], keys, values) == Filled(one, keys[1..], values[1..]);
      assert seen[keys[0] := values[0]] == seen + one;
      assert (seen + one) + Filled(map[], keys[1..], values[1..])
             == seen + (one + Filled(map[], keys[1..], values[1..]));
    }
  }

  lemma {:induction false} FilledSplit(seen: map<string, Json>, k1: seq<string>, v1: seq<Json>, k2: seq<string>,
                                       v2: seq<Json>)
    requires |k1| == |v1| && |k2| == |v2|
    ensures Filled(seen, k1 + k2, v1 + v2) == Filled(Filled(seen, k1, v1), k2, v2)
    decreases |k1|
  {
    if k1 == [] {
      assert k1 + k2 == k2 && v1 + v2 == v2;
    } else {
      assert (k1 + k2)[1..] == k1[1..] + k2 && (v1 + v2)[1..] == v1[1..] + v2;
      FilledSplit(seen[k1[0] := v1[0]], k1[1..], v1[1..], k2, v2);
    }
  }

  /** Distinct domain keys each keep their own value. */
  lemma {:induction false} FilledKeeps(keys: seq<string>, values: seq<Json>, i: nat)
    requires |keys| == |values| && i < |keys|
    requires forall j :: i < j < |keys| ==> keys[j] != keys[i]
    ensures keys[i] in Filled(map[], keys, values) && Filled(map[], keys, values)[keys[i]] == values[i]
    decreases |keys|
  {
    var one := map[keys[0] := values[0]];
    assert Filled(map[], keys, values) == Filled(one, keys[1..], values[1..]);
    FilledAfter(one, keys[1..], values[1..]);
    if i == 0 {
      FilledAbsent(keys[1..], values[1..], keys[0]);
    } else {
      FilledKeeps(keys[1..], values[1..], i - 1);
    }
  }

  lemma {:induction false} FilledAbsent(keys: seq<string>, values: seq<Json>, key: string)
    requires |keys| == |values| && forall j :: 0 <= j < |keys| ==> keys[j] != key
    ensures key !in Filled(map[], keys, values)
    decreases |keys|
  {
    if keys != [] {
      var one := map[keys[0] := values[0]];
      FilledAfter(one, keys[1..], values[1..]);
      FilledAbsent(keys[1..], values[1..], key);
    }
  }

  /** The dictionary a reader of the emitted case sees. A result rendered as `null` is a key here, where Python's
      writer leaves it out. */
  ghost function EmittedDict(m: Measured): map<string, Json>
    requires Rendered(m)
  {
    var c := Described(m);
    var base := map["name" := c.name, "unit" := c.unit, "samples" := JArray(c.samples)];
    (if m.result != "" then base["result" := c.result] else base) + c.extra
  }

  lemma {:induction false} EmittedCaseReads(m: Measured)
    requires Rendered(m)
    ensures ReadText(ObjectText(CaseFields(m))) == Some(JObject(EmittedDict(m)))
  {
    hide ReadText, Quoted, ArrayText, ObjectText;
    var head: seq<Field> := [("name", Quoted(m.name)), ("unit", Quoted(m.unit)), ("samples", ArrayText(m.samples))];
    var headValues := [JString(m.name), JString(m.unit), JArray(Numbers(m.samples))];
    var tail: seq<Field> := if m.result != "" then [("result", m.result)] else [];
    var tailValues := if m.result != "" then [ReadText(m.result).value] else [];
    QuotedReads(m.name);
    QuotedReads(m.unit);
    forall i | 0 <= i < |m.samples| ensures ReadText(m.samples[i]) == Some(Numbers(m.samples)[i]) {
      LexemeReads(m.samples[i]);
    }
    ArrayReads(m.samples, Numbers(m.samples));
    var fields, values := CaseFields(m), headValues + tailValues + DomainValues(m);
    assert FieldsRead(fields, values);
    ObjectReads(fields, values);
    assert Keys(fields) == Keys(head + tail) + Keys(m.domain);
    FilledSplit(map[], Keys(head + tail), headValues + tailValues, Keys(m.domain), DomainValues(m));
    HeadFilled(m);
    assert Keys(head + tail) == ["name", "unit", "samples"] + if m.result != "" then ["result"] else [];
    FilledAfter(Filled(map[], Keys(head + tail), headValues + tailValues), Keys(m.domain), DomainValues(m));
  }

  lemma {:induction false} HeadFilled(m: Measured)
    requires Rendered(m)
    ensures var base := map["name" := JString(m.name), "unit" := JString(m.unit),
            "samples" := JArray(Numbers(m.samples))];
            Filled(map[], ["name", "unit", "samples"] + (if m.result != "" then ["result"] else []),
                   [JString(m.name), JString(m.unit), JArray(Numbers(m.samples))]
                   + (if m.result != "" then [ReadText(m.result).value] else []))
            == if m.result != "" then base["result" := ReadText(m.result).value] else base
  {
    hide ReadText, Numbers;
    var n, u, s := JString(m.name), JString(m.unit), JArray(Numbers(m.samples));
    var k3, v3 := ["name", "unit", "samples"], [n, u, s];
    assert k3[1..] == ["unit", "samples"] && v3[1..] == [u, s];
    assert ["unit", "samples"][1..] == ["samples"] && [u, s][1..] == [s];
    assert ["samples"][1..] == [] && [s][1..] == [];
    var base := map["name" := n, "unit" := u, "samples" := s];
    assert Filled(map[], k3, v3) == Filled(map["name" := n], ["unit", "samples"], [u, s])
        == Filled(map["name" := n, "unit" := u], ["samples"], [s]) == base;
    if m.result != "" {
      var r := ReadText(m.result).value;
      FilledSplit(map[], k3, v3, ["result"], [r]);
      assert ["result"][1..] == [] && [r][1..] == [];
    } else {
      assert k3 + [] == k3 && v3 + [] == v3;
    }
  }

  lemma {:induction false} EmittedDictReads(m: Measured)
    requires Rendered(m)
    ensures CaseFromJson(JObject(EmittedDict(m))) == Loaded(Described(m)) <==> NoCaseKey(Described(m).extra)
  {
    hide Filled, Numbers;
    var c, data := Described(m), EmittedDict(m);
    var extra := map key | key in data && !IsCaseKey(key) :: data[key];
    if NoCaseKey(c.extra) {
      assert extra == c.extra;
    } else {
      var key :| key in c.extra && IsCaseKey(key);
      assert key !in extra;
    }
  }

  /** The text of an emitted case is JSON, and reading it back gives the described case exactly when no domain key
      takes an attribute's name. */
  lemma {:induction false} EmittedCaseRoundTrip(m: Measured)
    requires Rendered(m)
    ensures var read := ReadText(ObjectText(CaseFields(m)));
            read.Some? && (CaseFromJson(read.value) == Loaded(Described(m)) <==> NoCaseKey(Described(m).extra))
  {
    hide ReadText, ObjectText, CaseFields, Described, EmittedDict, CaseFromJson, NoCaseKey;
    EmittedCaseReads(m);
    EmittedDictReads(m);
  }

  /** Each domain field is read with its own value when no later one has its key. */
  lemma {:induction false} DomainFieldKept(m: Measured, i: nat)
    requires Rendered(m) && i < |m.domain|
    requires forall j :: i < j < |m.domain| ==> m.domain[j].0 != m.domain[i].0
    ensures var extra, key := Described(m).extra, m.domain[i].0;
            key in extra && ReadText(m.domain[i].1) == Some(extra[key])
  {
    hide ReadText, Filled;
    var keys := Keys(m.domain);
    FilledKeeps(keys, DomainValues(m), i);
  }

  /** And no other field is read. */
  lemma {:induction false} NoOtherDomainField(m: Measured, key: string)
    requires Rendered(m)
    ensures key in Described(m).extra ==> exists i :: 0 <= i < |m.domain| && m.domain[i].0 == key
  {
    hide ReadText, Filled;
    if forall i :: 0 <= i < |m.domain| ==> m.domain[i].0 != key {
      FilledAbsent(Keys(m.domain), DomainValues(m), key);
    }
  }

  ghost function CaseTexts(ms: seq<Measured>): (r: seq<string>)
    ensures |r| == |ms| && forall i :: 0 <= i < |r| ==> r[i] == ObjectText(CaseFields(ms[i]))
  {
    seq(|ms|, i requires 0 <= i < |ms| => ObjectText(CaseFields(ms[i])))
  }

  ghost function DescribedAll(ms: seq<Measured>): (r: seq<Case>)
    requires forall i :: 0 <= i < |ms| ==> Rendered(ms[i])
    ensures |r| == |ms| && forall i :: 0 <= i < |r| ==> r[i] == Described(ms[i])
  {
    seq(|ms|, i requires 0 <= i < |ms| => Described(ms[i]))
  }

  /** The strings and pre-rendered pieces of a case are well-formed UTF-8. */
  ghost predicate Textual(m: Measured) {
    && Utf8Text.WellFormed(m.name) && Utf8Text.WellFormed(m.unit) && Utf8Text.WellFormed(m.result)
    && EmittedUtf8.FieldsWellFormed(m.domain)
  }

  lemma {:induction false} CaseWellFormed(m: Measured)
    requires Rendered(m)
    ensures Utf8Text.WellFormed(ObjectText(CaseFields(m))) <==> Textual(m)
  {
    hide Utf8Text.WellFormed, Quoted, ArrayText, ObjectText, ReadText, IsLexeme;
    var fields := CaseFields(m);
    EmittedUtf8.ObjectWellFormed(fields);
    EmittedUtf8.QuotedWellFormed(m.name);
    EmittedUtf8.QuotedWellFormed(m.unit);
    forall i | 0 <= i < |m.samples| ensures Utf8Text.WellFormed(m.samples[i]) {
      EmittedUtf8.LexemeWellFormed(m.samples[i]);
    }
    EmittedUtf8.ArrayWellFormed(m.samples);
    KeysWellFormed();
    Utf8Text.AsciiIsWellFormed("");
    var head := if m.result != "" then 4 else 3;
    assert fields[0] == ("name", Quoted(m.name)) && fields[1] == ("unit", Quoted(m.unit));
    assert fields[2] == ("samples", ArrayText(m.samples)) && (m.result != "" ==> fields[3] == ("result", m.result));
    assert forall i :: 0 <= i < |m.domain| ==> fields[head + i] == m.domain[i];
    assert forall i :: head <= i < |fields| ==> fields[i] == m.domain[i - head];
  }

  lemma {:induction false} KeysWellFormed()
    ensures forall key :: IsCaseKey(key) || key == "meta" || key == "cases" ==> Utf8Text.WellFormed(key)
  {
    forall key | IsCaseKey(key) || key == "meta" || key == "cases" ensures Utf8Text.WellFormed(key) {
      Utf8Text.AsciiIsWellFormed(key);
    }
  }

  lemma {:induction false} RunWellFormed(meta: string, ms: seq<Measured>)
    requires forall i :: 0 <= i < |ms| ==> Rendered(ms[i])
    ensures Utf8Text.WellFormed(ObjectText(RunFields(meta, CaseTexts(ms)))) <==>
            Utf8Text.WellFormed(meta) && forall i :: 0 <= i < |ms| ==> Textual(ms[i])
  {
    hide Utf8Text.WellFormed, ArrayText, ObjectText, Rendered, Textual, CaseFields;
    var texts := CaseTexts(ms);
    var fields := RunFields(meta, texts);
    EmittedUtf8.ObjectWellFormed(fields);
    EmittedUtf8.ArrayWellFormed(texts);
    KeysWellFormed();
    forall i | 0 <= i < |ms| ensures Utf8Text.WellFormed(texts[i]) <==> Textual(ms[i]) {
      CaseWellFormed(ms[i]);
    }
    assert fields[0] == ("meta", meta) && fields[1] == ("cases", ArrayText(texts));
  }

  /** The file of `emit_run`, given to `load_run`, is the run the emitter was given: its meta, and every case's name,
      unit, samples, result and domain fields. It is so exactly when the names, units, keys and pre-rendered pieces are
      UTF-8, without which the file is refused, and no domain key takes an attribute's name. */
  lemma {:induction false} EmittedRunRoundTrip(meta: string, ms: seq<Measured>)
    requires ReadText(meta).Some? && ReadText(meta).value.JObject?
    requires forall i :: 0 <= i < |ms| ==> Rendered(ms[i])
    ensures var text := ObjectText(RunFields(meta, CaseTexts(ms)));
            var textual := Utf8Text.WellFormed(meta) && forall i :: 0 <= i < |ms| ==> Textual(ms[i]);
            && (LoadRun(text) == UnicodeDecodeError <==> !textual)
            && (LoadRun(text) == Loaded(Run(ReadText(meta).value.fields, DescribedAll(ms)))
                <==> textual && forall i :: 0 <= i < |ms| ==> NoCaseKey(Described(ms[i]).extra))
  {
    hide ReadText, ObjectText, RunFields, CaseTexts, DescribedAll, Described, RunFromJson, NoCaseKey, Rendered, Textual;
    hide Utf8Text.WellFormed;
    RunWellFormed(meta, ms);
    EmittedRunReads(meta, ms);
    NeverUndecodable(ReadText(ObjectText(RunFields(meta, CaseTexts(ms)))).value);
  }

  lemma {:induction false} NeverUndecodable(j: Json)
    ensures RunFromJson(j) != UnicodeDecodeError
  {
    if j.JObject? && "cases" in j.fields && j.fields["cases"].JArray? {
      CasesDecodable(j.fields["cases"].items);
    }
  }

  lemma {:induction false} CasesDecodable(js: seq<Json>)
    ensures CasesFromJson(js) != UnicodeDecodeError
    decreases |js|
  {
    if js != [] {
      CasesDecodable(js[1..]);
    }
  }

  /** The text parses, whatever bytes its strings hold, and the reader of the schema gives the run back exactly when no
      domain key takes an attribute's name. */
  lemma {:induction false} EmittedRunReads(meta: string, ms: seq<Measured>)
    requires ReadText(meta).Some? && ReadText(meta).value.JObject?
    requires forall i :: 0 <= i < |ms| ==> Rendered(ms[i])
    ensures var text := ObjectText(RunFields(meta, CaseTexts(ms)));
            && ReadText(text).Some?
            && (RunFromJson(ReadText(text).value) == Loaded(Run(ReadText(meta).value.fields, DescribedAll(ms)))
                <==> forall i :: 0 <= i < |ms| ==> NoCaseKey(Described(ms[i]).extra))
  {
    hide ReadText, ObjectText, ArrayText, CaseFields, Described, EmittedDict, CaseFromJson, NoCaseKey, Rendered,
         CasesFromJson;
    var texts := CaseTexts(ms);
    var js := seq(|ms|, i requires 0 <= i < |ms| => JObject(EmittedDict(ms[i])));
    forall i | 0 <= i < |ms| ensures ReadText(texts[i]) == Some(js[i]) {
      EmittedCaseReads(ms[i]);
    }
    ArrayReads(texts, js);
    var m := ReadText(meta).value;
    var fields, values := RunFields(meta, texts), [m, JArray(js)];
    ObjectReads(fields, values);
    assert Keys(fields) == ["meta", "cases"];
    TwoFilled("meta", m, "cases", JArray(js));
    CasesRead(js, DescribedAll(ms));
    forall i | 0 <= i < |ms|
      ensures CaseFromJson(js[i]) == Loaded(Described(ms[i])) <==> NoCaseKey(Described(ms[i]).extra)
    {
      EmittedDictReads(ms[i]);
    }
  }

  lemma {:induction false} TwoFilled(k1: string, v1: Json, k2: string, v2: Json)
    ensures Filled(map[], [k1, k2], [v1, v2]) == map[k1 := v1][k2 := v2]
  {
    var empty: map<string, Json> := map[];
    assert [k1, k2][1..] == [k2] && [v1, v2][1..] == [v2];
    assert [k2][1..] == [] && [v2][1..] == [];
    assert Filled(empty, [k1, k2], [v1, v2]) == Filled(empty[k1 := v1], [k2], [v2]);
    assert Filled(empty[k1 := v1], [k2], [v2]) == Filled(empty[k1 := v1][k2 := v2], [], []);
  }
}
