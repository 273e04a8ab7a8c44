/** The factory of a constructible type, over imports: `def_init` and `finish` of include/sciforge/binding/class.hpp on
    the keyword specifications of include/sciforge/binding/dispatch.hpp. */
module Factories {
  import K = KwSpec
  import C = ClassTables

  /** The statement that builds the type: its links in front of `def_init` and behind it, the factory's registration,
      and what `finish` meets. */
  datatype Statement = Statement(name: string, methodsAt: C.Addr, getsetsAt: C.Addr, front: seq<C.Item>,
                                 factory: K.Def, back: seq<C.Item>, o: C.Outcome)

  /** One import: its other registrations in front of the statement and behind it. */
  datatype Import = Import(starts: bool, before: seq<K.Def>, statement: Statement, after: seq<K.Def>, blockThrows: bool,
                           functionsAdded: bool)

  /** The specifications, the statics of the type, and for each type object the registration its import gave
      `def_init`. */
  datatype World = World(kw: K.World, statics: C.Statics, made: seq<K.Def>)

  const START := World(K.START, C.EMPTY, [])

  predicate Throws(items: seq<C.Item>) {
    exists i :: 0 <= i < |items| && C.ThrowsAt(items[i])
  }

  function WithItem(s: C.Statics, i: C.Item): C.Statics {
    match i
    case Method(name, g) => C.WithMethod(s, name, g)
    case Property(name, g) => C.WithProperty(s, name, g)
    case Gives(_) => s
  }

  function WithItems(s: C.Statics, items: seq<C.Item>): C.Statics
    decreases |items|
  {
    if items == [] then s else WithItems(WithItem(s, items[0]), items[1..])
  }

  /** What the chain leaves of the specifications, the links it got to, whether `def_init` set its slot, and whether the
      chain threw. */
  function Chained(w: K.World, inert: bool, s: Statement): (K.World, seq<C.Item>, bool, bool) {
    if inert then (w, s.front + s.back, false, false)
    else if Throws(s.front) then (w, C.Reached(s.front), false, true)
    else
      var (w', thrown) := K.Register(w, s.factory);
      (w', s.front + if thrown then [] else C.Reached(s.back), !thrown, thrown || Throws(s.back))
  }

  /** Only `def_init` makes a type constructible. */
  function HooksOf(items: seq<C.Item>, init: bool): C.Hooks {
    C.HooksGiven(items).(init := init)
  }

  /** `finish` leaves an error unless the type is in the module. */
  predicate FinishFails(s: C.Statics, o: C.Outcome) {
    if s.classType.Some? then !o.added else o.methods.Throws? || o.getsets.Throws? || !o.created || !o.added
  }

  /** The statement, to the end of its destructor. */
  function Stated(w: World, s: Statement): (World, bool) {
    var inert := w.statics.classType.Some?;
    var (kw, items, init, thrown) := Chained(w.kw, inert, s);
    var built := WithItems(C.Constructed(w.statics, s.name, s.methodsAt, s.getsetsAt), items);
    var statics := C.Finished(built, HooksOf(items, init), s.o);
    var made := if |statics.types| > |w.made| then w.made + [s.factory] else w.made;
    (World(kw.(error := kw.error || FinishFails(built, s.o)), statics, made), thrown)
  }

  /** One `PyInit`, and whether it returns the module. */
  function RunImport(w: World, i: Import): (World, bool) {
    if !i.starts then (w, false)
    else
      var (kw1, thrown1) := K.RegisterAll(w.kw.(epoch := w.kw.epoch + 1, error := false), i.before);
      if thrown1 then (w.(kw := kw1), false)
      else
        var (w2, thrown2) := Stated(w.(kw := kw1), i.statement);
        if thrown2 then (w2, false)
        else
          var (kw3, thrown3) := K.RegisterAll(w2.kw, i.after);
          (w2.(kw := kw3), !thrown3 && !i.blockThrows && !kw3.error && i.functionsAdded)
  }

  function Run(w: World, imports: seq<Import>): World
    decreases |imports|
  {
    if imports == [] then w else Run(RunImport(w, imports[0]).0, imports[1..])
  }

  /** The factory is registered by its type alone, with the required parameters first, as `def_init` asserts. */
  ghost predicate OwnFactory(i: Import, f: string) {
    && i.statement.factory.func == f && K.RequiredFirst(i.statement.factory.args)
    && (forall d :: d in i.before + i.after ==> d.func != f)
  }

  /** What the registration `d` leaves of its function: null defaults at required parameters and failed allocations. */
  ghost predicate Shaped(s: K.Spec, d: K.Def) {
    && s.kwlist == K.Names(d.args) + [K.None]
    && s.format == K.Marked(K.RequiredCount(d.args), |d.args|) + ":" + d.name
    && K.SlotsMatch(d.args, s.defaults)
  }

  /** Every parameter that may be left out has its default. */
  ghost predicate Complete(s: K.Spec, d: K.Def) {
    |s.defaults| == |d.args| && forall k :: 0 <= k < |d.args| && d.args[k].Optional? ==> s.defaults[k] != K.None
  }

  predicate Constructible(w: World) {
    && w.statics.classType.Some? && w.statics.classType.value < |w.statics.types|
    && w.statics.types[w.statics.classType.value].instantiable
  }

  /** The factory of the live type has the shape that the import which made the type gave it. */
  ghost predicate Inv(w: World, f: string) {
    && C.Inv(w.statics) && |w.made| == |w.statics.types|
    && K.EpochsPast(w.kw)
    && (Constructible(w) ==>
          Shaped(K.SpecOf(w.kw, f), w.made[w.statics.classType.value])
              && K.NothingThrown(w.made[w.statics.classType.value].args))
  }

  lemma {:induction false} BlockKeeps(w: K.World, defs: seq<K.Def>, f: string)
    requires forall d :: d in defs ==> d.func != f
    ensures K.SpecOf(K.RegisterAll(w, defs).0, f) == K.SpecOf(w, f)
    decreases |defs|
  {
    hide K.Register, K.SpecOf;
    if defs != [] {
      K.OthersKept(w, defs[0], f);
      BlockKeeps(K.Register(w, defs[0]).0, defs[1..], f);
    }
  }

  lemma {:induction false} ItemsKeep(s: C.Statics, items: seq<C.Item>)
    ensures var s' := WithItems(s, items);
            && s' == s.(methods := s'.methods, getsets := s'.getsets) && (s.classType.Some? ==> s' == s)
            && (C.Inv(s) ==> C.Inv(s'))
    decreases |items|
  {
    hide C.SlotsFit;
    if items != [] {
      ItemsKeep(WithItem(s, items[0]), items[1..]);
    }
  }

  lemma {:induction false} FinishedMakes(s: C.Statics, hooks: C.Hooks, o: C.Outcome)
    requires C.Inv(s)
    ensures var s' := C.Finished(s, hooks, o);
            && C.Inv(s')
            && (s.classType.Some? ==>
                  && s'.classType == s.classType && |s'.types| == |s.types|
                  && s'.types[s.classType.value].instantiable == s.types[s.classType.value].instantiable)
            && |s.types| <= |s'.types| <= |s.types| + 1
            && (s.classType.None? && s'.classType.Some? ==>
                  s'.classType.value == |s.types| && |s'.types| == |s.types| + 1
                      && s'.types[|s.types|].instantiable == hooks.init)
  {
    hide C.SlotsOf, C.SlotsFit, C.AllSlotsFit;
    C.FinishedKeeps(s, hooks, o);
  }

  lemma {:induction false} ArgsThrow(w: K.World, f: string, args: seq<K.Arg>)
    ensures K.AddArgs(w, f, args).1 <==> !K.NothingThrown(args)
    decreases |args|
  {
    if args != [] {
      var (w', thrown) := K.AddArg(w, f, args[0]);
      assert K.NothingThrown(args) <==> !thrown && K.NothingThrown(args[1..]);
      if !thrown {
        ArgsThrow(w', f, args[1..]);
      }
    }
  }

  /** A `def_init` that does not throw gives the factory its shape. */
  lemma {:induction false} RegisterShapes(w: K.World, d: K.Def)
    requires K.SpecOf(w, d.func).epoch < w.epoch && K.RequiredFirst(d.args) && K.EpochsPast(w)
    ensures var (w', thrown) := K.Register(w, d);
            && K.EpochsPast(w') && w'.epoch == w.epoch
            && (!thrown ==> Shaped(K.SpecOf(w', d.func), d) && K.NothingThrown(d.args))
  {
    hide K.AddArgs, K.NothingThrown, K.RequiredFirst, K.SlotsMatch, K.Names, K.Marked;
    K.RegisterAllEpochs(w, [d]);
    assert [d][1..] == [] && forall w' :: K.RegisterAll(w', []) == (w', false);
    ArgsThrow(K.Claim(w, d.func), d.func, d.args);
    if K.NothingThrown(d.args) {
      K.SpecShape(w, d);
    }
  }

  lemma {:induction false} StatedKeeps(w: World, s: Statement, f: string)
    requires Inv(w, f) && s.factory.func == f && K.RequiredFirst(s.factory.args)
    requires K.SpecOf(w.kw, f).epoch < w.kw.epoch
    ensures Inv(Stated(w, s).0, f)
    ensures Constructible(w) ==> SameFactory(w, Stated(w, s).0, f)
  {
    hide C.Finished, C.Inv, K.Register, Shaped, K.NothingThrown, K.RequiredFirst, Throws, WithItems, FinishFails,
         K.SpecOf, C.HooksGiven;
    var inert := w.statics.classType.Some?;
    var (kw, items, init, _) := Chained(w.kw, inert, s);
    var constructed := C.Constructed(w.statics, s.name, s.methodsAt, s.getsetsAt);
    ConstructedKeeps(w.statics, s);
    ItemsKeep(constructed, items);
    FinishedMakes(WithItems(constructed, items), HooksOf(items, init), s.o);
    RegisterShapes(w.kw, s.factory);
    ErrorAside(kw, kw.error || FinishFails(WithItems(constructed, items), s.o));
    ClassIn(w.statics);
  }

  lemma {:induction false} ClassIn(s: C.Statics)
    requires C.Inv(s)
    ensures s.classType.Some? ==> s.classType.value < |s.types|
  {
  }

  lemma {:induction false} ConstructedKeeps(s: C.Statics, st: Statement)
    requires C.Inv(s)
    ensures var s' := C.Constructed(s, st.name, st.methodsAt, st.getsetsAt);
            C.Inv(s') && s'.classType == s.classType && s'.types == s.types && (s.classType.Some? ==> s' == s)
  {
  }

  lemma {:induction false} ErrorAside(w: K.World, error: bool)
    ensures K.EpochsPast(w) ==> K.EpochsPast(w.(error := error))
    ensures forall f :: K.SpecOf(w.(error := error), f) == K.SpecOf(w, f)
  {
    assert forall f :: K.SpecOf(w.(error := error), f) == K.SpecOf(w, f);
  }

  /** The live type and its factory are the same in both worlds. */
  ghost predicate SameFactory(w: World, w': World, f: string) {
    && w'.statics.classType == w.statics.classType && w.made <= w'.made
    && K.SpecOf(w'.kw, f) == K.SpecOf(w.kw, f) && (Constructible(w) ==> Constructible(w'))
  }

  lemma {:induction false} ImportKeeps(w: World, i: Import, f: string)
    requires Inv(w, f) && OwnFactory(i, f)
    ensures Inv(RunImport(w, i).0, f)
    ensures Constructible(w) ==> SameFactory(w, RunImport(w, i).0, f)
  {
    hide Stated, K.RegisterAll, C.Inv, Shaped, K.NothingThrown, K.SpecOf, K.EpochsPast;
    if i.starts {
      var w1 := w.kw.(epoch := w.kw.epoch + 1, error := false);
      NewEpoch(w.kw, f);
      K.RegisterAllEpochs(w1, i.before);
      BlockKeeps(w1, i.before, f);
      var (kw1, thrown) := K.RegisterAll(w1, i.before);
      var w2 := w.(kw := kw1);
      if !thrown {
        StatedKeeps(w2, i.statement, f);
        var (w3, _) := Stated(w2, i.statement);
        K.RegisterAllEpochs(w3.kw, i.after);
        BlockKeeps(w3.kw, i.after, f);
      }
    }
  }

  lemma {:induction false} NewEpoch(w: K.World, f: string)
    requires K.EpochsPast(w)
    ensures var w' := w.(epoch := w.epoch + 1, error := false);
            K.EpochsPast(w') && K.SpecOf(w', f) == K.SpecOf(w, f) && K.SpecOf(w', f).epoch < w'.epoch
  {
    K.NextEpoch(w);
  }

  lemma {:induction false} RunKeeps(w: World, imports: seq<Import>, f: string)
    requires Inv(w, f) && forall i :: i in imports ==> OwnFactory(i, f)
    ensures Inv(Run(w, imports), f)
    ensures Constructible(w) ==> SameFactory(w, Run(w, imports), f)
    decreases |imports|
  {
    hide Inv, RunImport, OwnFactory, K.SpecOf, Constructible;
    if imports != [] {
      ImportKeeps(w, imports[0], f);
      RunKeeps(RunImport(w, imports[0]).0, imports[1..], f);
    }
  }

  lemma {:induction false} ShapedComplete(s: K.Spec, d: K.Def)
    requires Shaped(s, d) && K.NothingThrown(d.args)
    ensures Complete(s, d) <==> !K.SomeFailed(d.args)
  {
    hide K.Names, K.Marked;
  }

  /** Over any number of imports: a live constructible type has the factory specification of the import that made it,
      and it is complete if and only if no default failed to allocate in that import. */
  lemma {:induction false} FactoryAsCreated(imports: seq<Import>, f: string)
    requires forall i :: i in imports ==> OwnFactory(i, f)
    ensures var w := Run(START, imports);
            Constructible(w) ==>
              && w.statics.classType.value < |w.made|
              && var d, s := w.made[w.statics.classType.value], K.SpecOf(w.kw, f);
                 Shaped(s, d) && (Complete(s, d) <==> !K.SomeFailed(d.args))
  {
    hide Shaped, Complete, K.NothingThrown, K.SomeFailed, OwnFactory, Run, K.SpecOf, K.EpochsPast;
    var w := Run(START, imports);
    K.StartConserves();
    RunKeeps(START, imports, f);
    if Constructible(w) {
      ShapedComplete(K.SpecOf(w.kw, f), w.made[w.statics.classType.value]);
    }
  }

  /** So a default that failed then is missing in every later import: nothing changes the factory of a live type. */
  lemma {:induction false} MissingForever(imports: seq<Import>, later: seq<Import>, f: string)
    requires forall i :: i in imports + later ==> OwnFactory(i, f)
    requires Constructible(Run(START, imports))
    ensures var w, w' := Run(START, imports), Run(Run(START, imports), later);
            && Constructible(w') && w'.statics.classType == w.statics.classType
            && w.statics.classType.value < |w.made| <= |w'.made|
            && var d := w'.made[w.statics.classType.value];
               d == w.made[w.statics.classType.value]
               && (K.SomeFailed(d.args) ==> !Complete(K.SpecOf(w'.kw, f), d))
  {
    hide OwnFactory, Run, Complete, K.SomeFailed, K.SpecOf, Shaped, K.EpochsPast, K.NothingThrown;
    assert forall i :: i in imports ==> i in imports + later;
    assert forall i :: i in later ==> i in imports + later;
    var w := Run(START, imports);
    K.StartConserves();
    RunKeeps(START, imports, f);
    RunKeeps(w, later, f);
    FactoryAsCreated(imports, f);
  }

  /** And such an import succeeds: with the type registered, its statement registers no default that could fail. */
  lemma {:induction false} LaterImportSucceeds(w: World, i: Import)
    requires w.statics.classType.Some? && i.before == [] && i.after == []
    ensures RunImport(w, i).1 <==> i.starts && i.statement.o.added && !i.blockThrows && i.functionsAdded
  {
    hide C.Finished;
    var s := i.statement;
    ItemsKeep(C.Constructed(w.statics, s.name, s.methodsAt, s.getsetsAt), s.front + s.back);
  }

  // --- which imports succeed ---

  predicate Good(r: (K.World, bool)) {
    !r.1 && !r.0.error
  }

  lemma {:induction false} GoodAppend(w: K.World, a: seq<K.Def>, b: seq<K.Def>)
    ensures Good(K.RegisterAll(w, a + b)) <==>
            Good(K.RegisterAll(w, a)) && Good(K.RegisterAll(K.RegisterAll(w, a).0, b))
    decreases |a|
  {
    hide K.Register;
    if a == [] {
      assert a + b == b;
      if w.error {
        K.ErrorStays(w, b);
      }
    } else {
      assert (a + b)[0] == a[0] && (a + b)[1..] == a[1..] + b;
      GoodAppend(K.Register(w, a[0]).0, a[1..], b);
    }
  }

  /** The registrations of an import, when none throws: the factory's only while the type is not registered. */
  function Registrations(w: World, i: Import): seq<K.Def> {
    i.before + (if w.statics.classType.Some? then [] else [i.statement.factory]) + i.after
  }

  /** What the statement leaves of the specifications: the factory registered, and the error of a failed finish. */
  lemma {:induction false} StatedGood(w: World, s: Statement)
    ensures var (w', thrown) := Stated(w, s);
            var inert := w.statics.classType.Some?;
            var r := K.RegisterAll(w.kw, if inert then [] else [s.factory]);
            && (!thrown && !w'.kw.error <==>
                  Good(r) && !FinishFails(w.statics, s.o) && (inert || (!Throws(s.front) && !Throws(s.back))))
            && (!thrown && !w'.kw.error ==> w'.kw == r.0)
  {
    hide C.Finished, K.Register, Throws, WithItems, C.Reached;
    var inert := w.statics.classType.Some?;
    var (kw, items, _, thrown) := Chained(w.kw, inert, s);
    ItemsKeep(C.Constructed(w.statics, s.name, s.methodsAt, s.getsetsAt), items);
    assert [s.factory][1..] == [];
    OneRegistered(w.kw, s.factory);
  }

  lemma {:induction false} OneRegistered(w: K.World, d: K.Def)
    ensures K.RegisterAll(w, []) == (w, false) && K.RegisterAll(w, [d]) == K.Register(w, d)
  {
    hide K.Register;
    assert [d][1..] == [];
  }

  /** An import succeeds if and only if it starts, each registration is the first of its function and makes all its
      defaults, no link of the chain throws while the type is not registered, the type gets into the module, the block
      does not throw, and the functions can be added. */
  lemma {:induction false} ImportSucceedsExactly(w: World, i: Import)
    requires K.EpochsPast(w.kw)
    ensures RunImport(w, i).1 <==>
            && i.starts && !i.blockThrows && i.functionsAdded
            && K.CleanBlock(Registrations(w, i), {}) && !FinishFails(w.statics, i.statement.o)
            && (w.statics.classType.Some? || (!Throws(i.statement.front) && !Throws(i.statement.back)))
  {
    hide Stated, K.RegisterAll, K.CleanBlock, FinishFails, Throws, K.SpecOf, K.EpochsPast;
    var w1 := w.kw.(epoch := w.kw.epoch + 1, error := false);
    K.NothingClaimed(w.kw);
    K.BlockOutcome(w1, Registrations(w, i));
    var middle := if w.statics.classType.Some? then [] else [i.statement.factory];
    GoodAppend(w1, i.before + middle, i.after);
    GoodAppend(w1, i.before, middle);
    var (kw1, thrown1) := K.RegisterAll(w1, i.before);
    if kw1.error {
      StatedError(w.(kw := kw1), i.statement);
    }
    StatedGood(w.(kw := kw1), i.statement);
    var (w2, thrown2) := Stated(w.(kw := kw1), i.statement);
    if w2.kw.error {
      K.ErrorStays(w2.kw, i.after);
    }
    AppendedWorld(w1, i.before, middle);
  }

  lemma {:induction false} StatedError(w: World, s: Statement)
    requires w.kw.error
    ensures Stated(w, s).0.kw.error
  {
    hide C.Finished, WithItems, Throws, C.Reached;
    K.ErrorStays(w.kw, [s.factory]);
    OneRegistered(w.kw, s.factory);
  }

  lemma {:induction false} AppendedWorld(w: K.World, a: seq<K.Def>, b: seq<K.Def>)
    ensures !K.RegisterAll(w, a).1 ==> K.RegisterAll(w, a + b) == K.RegisterAll(K.RegisterAll(w, a).0, b)
    decreases |a|
  {
    hide K.Register;
    if a == [] {
      assert a + b == b;
    } else {
      assert (a + b)[0] == a[0] && (a + b)[1..] == a[1..] + b;
      AppendedWorld(K.Register(w, a[0]).0, a[1..], b);
    }
  }

  // --- the type itself ---

  /** The tables have grown by the rows of the links, and nothing else has changed. */
  ghost predicate Grown(s: C.Statics, s': C.Statics, items: seq<C.Item>) {
    && s' == s.(methods := s'.methods, getsets := s'.getsets)
    && s'.methods.rows == s.methods.rows + C.MethodRows(items)
    && s'.getsets.rows == s.getsets.rows + C.PropertyRows(items)
  }

  lemma {:induction false} GrownNext(s: C.Statics, s1: C.Statics, s2: C.Statics, i: C.Item, rest: seq<C.Item>)
    requires Grown(s, s1, [i]) && Grown(s1, s2, rest)
    ensures Grown(s, s2, [i] + rest)
  {
    hide C.MethodRows, C.PropertyRows;
    C.RowsFront(i, rest);
    C.RowsFront(i, []);
    assert [i] + [] == [i];
    assert s1.methods.rows + C.MethodRows(rest) == s.methods.rows + C.MethodRows([i] + rest);
    assert s1.getsets.rows + C.PropertyRows(rest) == s.getsets.rows + C.PropertyRows([i] + rest);
  }

  lemma {:induction false} ItemGrows(s: C.Statics, i: C.Item)
    requires s.classType.None?
    ensures C.ThrowsAt(i) ==> WithItem(s, i) == s
    ensures !C.ThrowsAt(i) ==> Grown(s, WithItem(s, i), [i])
  {
    assert [i][1..] == [];
  }

  lemma {:induction false} ItemsGrow(s: C.Statics, items: seq<C.Item>)
    requires s.classType.None?
    ensures Grown(s, WithItems(s, C.Reached(items)), C.Kept(items))
    decreases |items|
  {
    hide Grown, WithItem, C.ThrowsAt;
    NothingGrows(s);
    if items != [] {
      var i, rest := items[0], items[1..];
      ItemGrows(s, i);
      if C.ThrowsAt(i) {
        assert C.Reached(items)[1..] == [];
        assert WithItems(WithItem(s, i), []) == s;
      } else {
        NoneKept(s, i);
        ItemsGrow(WithItem(s, i), rest);
        assert C.Reached(items)[1..] == C.Reached(rest);
        GrownNext(s, WithItem(s, i), WithItems(s, C.Reached(items)), i, C.Kept(rest));
      }
    }
  }

  lemma {:induction false} NoneKept(s: C.Statics, i: C.Item)
    requires s.classType.None?
    ensures WithItem(s, i).classType.None?
  {
  }

  lemma {:induction false} NothingGrows(s: C.Statics)
    ensures Grown(s, s, [])
  {
  }

  lemma {:induction false} HooksReached(items: seq<C.Item>)
    ensures C.HooksGiven(C.Reached(items)) == C.HooksGiven(C.Kept(items))
    decreases |items|
  {
    hide C.HooksGiven;
    if items != [] {
      C.RowsFront(items[0], []);
      C.RowsFront(items[0], C.Reached(items[1..]));
      C.RowsFront(items[0], C.Kept(items[1..]));
      assert [items[0]] + [] == [items[0]];
      if !C.ThrowsAt(items[0]) {
        HooksReached(items[1..]);
      }
    }
  }

  lemma {:induction false} ReachedFront(i: C.Item, rest: seq<C.Item>)
    ensures C.Reached([i] + rest) == [i] + if C.ThrowsAt(i) then [] else C.Reached(rest)
  {
    assert ([i] + rest)[1..] == rest;
  }

  lemma {:induction false} ReachedPast(front: seq<C.Item>, back: seq<C.Item>)
    requires !Throws(front)
    ensures C.Reached(front + back) == front + C.Reached(back)
    decreases |front|
  {
    hide Throws, C.ThrowsAt, C.Reached;
    if front == [] {
      assert front + back == back && front + C.Reached(back) == C.Reached(back);
    } else {
      var i, rest := front[0], front[1..];
      assert front == [i] + rest;
      ThrowsFront(front);
      ReachedPast(rest, back);
      ReachedFront(i, rest + back);
      assert [i] + rest + back == [i] + (rest + back);
      assert [i] + (rest + C.Reached(back)) == [i] + rest + C.Reached(back);
    }
  }

  lemma {:induction false} ReachedStops(front: seq<C.Item>, back: seq<C.Item>)
    requires Throws(front)
    ensures C.Reached(front + back) == C.Reached(front)
    decreases |front|
  {
    hide Throws, C.ThrowsAt;
    NoThrows();
    ThrowsFront(front);
    assert (front + back)[1..] == front[1..] + back && (front + back)[0] == front[0];
    if !C.ThrowsAt(front[0]) {
      ReachedStops(front[1..], back);
    }
  }

  lemma {:induction false} NoThrows()
    ensures !Throws([])
  {
  }

  lemma {:induction false} ThrowsFront(front: seq<C.Item>)
    requires front != []
    ensures Throws(front) <==> C.ThrowsAt(front[0]) || Throws(front[1..])
  {
    hide C.ThrowsAt;
    assert forall i :: 0 < i < |front| ==> front[i] == front[1..][i - 1];
  }

  /** The links of the chain, of which a `def_init` that throws is the last one reached. */
  function LinksOf(s: Statement, factoryThrows: bool): seq<C.Item> {
    if factoryThrows && !Throws(s.front) then s.front else s.front + s.back
  }

  lemma {:induction false} ChainReaches(w: World, s: Statement)
    ensures var thrown := K.Register(w.kw, s.factory).1;
            var chain := Chained(w.kw, false, s);
            chain.1 == C.Reached(LinksOf(s, thrown)) && chain.2 == (!Throws(s.front) && !thrown)
  {
    hide C.Reached, K.Register, Throws;
    if Throws(s.front) {
      ReachedStops(s.front, s.back);
    } else {
      ReachedPast(s.front, s.back);
      ReachedPast(s.front, []);
      assert s.front + [] == s.front && C.Reached([]) == [] by { ReachesNothing(); }
    }
  }

  lemma {:induction false} ReachesNothing()
    ensures C.Reached([]) == []
  {
  }

  /** The type that a statement makes: its links up to the first that throws, `def_init` among them, constructible
      exactly when `def_init` was reached and did not throw. */
  lemma {:induction false} TypeAsStated(w: World, s: Statement)
    requires w.statics.classType.None? && !FinishFails(w.statics, s.o)
    ensures var kept := C.Kept(LinksOf(s, K.Register(w.kw, s.factory).1));
            var init := !Throws(s.front) && !K.Register(w.kw, s.factory).1;
            var s' := Stated(w, s).0.statics;
            && s'.classType == C.Some(|w.statics.types|) && |s'.types| == |w.statics.types| + 1
            && var t := s'.types[|w.statics.types|];
               && t.name == s.name && t.methods.rows == C.MethodRows(kept) + [C.Null]
               && t.getsets.rows == C.PropertyRows(kept) + [C.Null]
               && C.SlotsGiven(t, C.HooksGiven(kept).(init := init)) && t.own && t.modules == 1
  {
    hide C.MethodRows, C.PropertyRows, C.HooksGiven, C.Kept, C.Reached, C.SlotsOf, K.Register, Throws, WithItems;
    var thrown := K.Register(w.kw, s.factory).1;
    var links := LinksOf(s, thrown);
    ChainReaches(w, s);
    var constructed := C.Constructed(w.statics, s.name, s.methodsAt, s.getsetsAt);
    ItemsGrow(constructed, links);
    HooksReached(links);
    assert [] + C.MethodRows(C.Kept(links)) == C.MethodRows(C.Kept(links));
    assert [] + C.PropertyRows(C.Kept(links)) == C.PropertyRows(C.Kept(links));
  }
}
