/** Keyword specifications that persist across imports: include/sciforge/binding/dispatch.hpp and the `PyInit`
    sequence of include/sciforge/binding/module.hpp. */
module KwSpec {

  datatype Option<T> = None | Some(value: T)

  /** An owned reference to a default object, numbered in the order of creation. */
  type Ref = nat

  /** `kw_spec`: a null slot of `kwlist` or `defaults` is None. */
  datatype Spec = Spec(kwlist: seq<Option<string>>, format: string, defaults: seq<Option<Ref>>, optionalStarted: bool,
                       epoch: nat)

  const EMPTY := Spec([], "", [], false, 0)

  /** What becomes of a default at registration: it is made; its allocation fails with MemoryError; or it is made
      and the `push_back` that would store it throws. */
  datatype Alloc = Made | Failed | Thrown

  datatype Arg = Required(name: string) | Optional(name: string, alloc: Alloc)

  // --- the updates of one specification ---

  function WithRequired(s: Spec, name: string): Spec {
    s.(kwlist := s.kwlist + [Some(name)], format := s.format + "O", defaults := s.defaults + [None])
  }

  /** The part of `add_arg` for a default that precedes the evaluation of `default_object`. */
  function WithOptionalName(s: Spec, name: string): Spec {
    s.(kwlist := s.kwlist + [Some(name)],
       format := s.format + (if s.optionalStarted then "" else "|") + "O",
       optionalStarted := true)
  }

  function WithDefault(s: Spec, slot: Option<Ref>): Spec {
    s.(defaults := s.defaults + [slot])
  }

  function Closed(s: Spec, name: string): Spec {
    s.(kwlist := s.kwlist + [None], format := s.format + ":" + name)
  }

  function NonNull(slots: seq<Option<Ref>>): nat {
    if slots == [] then 0 else (if slots[0].Some? then 1 else 0) + NonNull(slots[1..])
  }

  function Held(slots: seq<Option<Ref>>): set<Ref> {
    set i | 0 <= i < |slots| && slots[i].Some? :: slots[i].value
  }

  /** The static object behind `kw_spec_for<Func>()`. */
  class KwSpecObject {
    var kwlist: seq<Option<string>>
    var format: string
    var defaults: seq<Option<Ref>>
    var optionalStarted: bool
    var epoch: nat

    ghost function State(): Spec
      reads this
    {
      Spec(kwlist, format, defaults, optionalStarted, epoch)
    }

    constructor ()
      ensures State() == EMPTY
    {
      kwlist, format, defaults, optionalStarted, epoch := [], "", [], false, 0;
    }

    /** `claim_kw_spec`: `released` counts the references given back. */
    method Claim(registrationEpoch: nat) returns (claimed: bool, released: nat)
      modifies this
      ensures claimed <==> !(old(epoch) != 0 && old(epoch) == registrationEpoch)
      ensures !claimed ==> State() == old(State()) && released == 0
      ensures claimed ==> State() == EMPTY.(epoch := registrationEpoch) && released == NonNull(old(defaults))
    {
      released := 0;
      if epoch != 0 && epoch == registrationEpoch {
        return false, 0;
      }
      for i := 0 to |defaults|
        invariant State() == old(State())
        invariant released + NonNull(defaults[i..]) == NonNull(defaults)
      {
        assert defaults[i..][1..] == defaults[i + 1..];
        if defaults[i].Some? {
          released := released + 1;
        }
      }
      kwlist, format, defaults, optionalStarted := [], "", [], false;
      epoch := registrationEpoch;
      claimed := true;
    }

    method AddRequired(name: string)
      modifies this
      ensures State() == WithRequired(old(State()), name)
    {
      kwlist := kwlist + [Some(name)];
      format := format + "O";
      defaults := defaults + [None];
    }

    method AddOptional(name: string, slot: Option<Ref>)
      modifies this
      ensures State() == WithDefault(WithOptionalName(old(State()), name), slot)
    {
      if !optionalStarted {
        format := format + "|";
        optionalStarted := true;
      } else {
        assert format + "" == format;
      }
      kwlist := kwlist + [Some(name)];
      format := format + "O";
      defaults := defaults + [slot];
    }

    method Close(name: string)
      modifies this
      ensures State() == Closed(old(State()), name)
    {
      kwlist := kwlist + [None];
      format := format + ":";
      format := format + name;
    }
  }

  // --- the whole substrate: every specification, the epoch, and the references ---

  /** `live` are the references created and not released; `lost` those no slot holds any more. */
  datatype World = World(epoch: nat, specs: map<string, Spec>, created: nat, released: nat, live: set<Ref>,
                         lost: set<Ref>, error: bool)

  const START := World(0, map[], 0, 0, {}, {}, false)

  function SpecOf(w: World, f: string): Spec {
    if f in w.specs then w.specs[f] else EMPTY
  }

  function Put(w: World, f: string, s: Spec): World {
    w.(specs := w.specs[f := s])
  }

  predicate Refuses(w: World, f: string) {
    SpecOf(w, f).epoch != 0 && SpecOf(w, f).epoch == w.epoch
  }

  function Claim(w: World, f: string): World
    requires !Refuses(w, f)
  {
    var old_ := SpecOf(w, f).defaults;
    Put(w, f, EMPTY.(epoch := w.epoch)).(live := w.live - Held(old_), released := w.released + NonNull(old_))
  }

  /** `add_arg`; the flag is raised when it throws. */
  function AddArg(w: World, f: string, a: Arg): (World, bool) {
    match a
    case Required(name) => (Put(w, f, WithRequired(SpecOf(w, f), name)), false)
    case Optional(name, alloc) =>
      var s := WithOptionalName(SpecOf(w, f), name);
      match alloc
      case Made =>
        (Put(w, f, WithDefault(s, Some(w.created))).(created := w.created + 1, live := w.live + {w.created}), false)
      case Failed => (Put(w, f, WithDefault(s, None)).(error := true), false)
      case Thrown =>
        (Put(w, f, s).(created := w.created + 1, live := w.live + {w.created}, lost := w.lost + {w.created}), true)
  }

  function AddArgs(w: World, f: string, args: seq<Arg>): (World, bool)
    decreases |args|
  {
    if args == [] then (w, false)
    else
      var (w', thrown) := AddArg(w, f, args[0]);
      if thrown then (w', true) else AddArgs(w', f, args[1..])
  }

  datatype Def = Def(func: string, name: string, args: seq<Arg>)

  /** The keyword overload of `def`, or a `def_init` whose type is not registered yet. */
  function Register(w: World, d: Def): (World, bool) {
    if Refuses(w, d.func) then (w.(error := true), false)
    else
      var (w', thrown) := AddArgs(Claim(w, d.func), d.func, d.args);
      if thrown then (w', true) else (Put(w', d.func, Closed(SpecOf(w', d.func), d.name)), false)
  }

  function RegisterAll(w: World, defs: seq<Def>): (World, bool)
    decreases |defs|
  {
    if defs == [] then (w, false)
    else
      var (w', thrown) := Register(w, defs[0]);
      if thrown then (w', true) else RegisterAll(w', defs[1..])
  }

  /** One `PyInit`: whether the module and its error type are made, the registrations, whether the block throws
      after them, and whether the functions can be added. */
  datatype Import = Import(starts: bool, defs: seq<Def>, blockThrows: bool, functionsAdded: bool)

  function RunImport(w: World, i: Import): (World, bool) {
    if !i.starts then (w, false)
    else
      var (w', thrown) := RegisterAll(w.(epoch := w.epoch + 1, error := false), i.defs);
      (w', !thrown && !i.blockThrows && !w'.error && i.functionsAdded)
  }

  function Run(w: World, imports: seq<Import>): World
    decreases |imports|
  {
    if imports == [] then w else Run(RunImport(w, imports[0]).0, imports[1..])
  }

  // --- references are conserved ---

  ghost predicate HeldAt(w: World, f: string, i: int, r: Ref) {
    f in w.specs && 0 <= i < |w.specs[f].defaults| && w.specs[f].defaults[i] == Some(r)
  }

  /** A slot holds a live reference that is not lost, and no other slot holds it. */
  ghost predicate SlotsOwn(w: World) {
    && (forall f, i, r :: HeldAt(w, f, i, r) ==> r in w.live && r !in w.lost)
    && (forall f, i, g, j, r :: HeldAt(w, f, i, r) && HeldAt(w, g, j, r) ==> f == g && i == j)
  }

  /** A live reference is lost or in a slot. */
  ghost predicate LiveFound(w: World) {
    forall r :: r in w.live ==> r in w.lost || exists f, i :: HeldAt(w, f, i, r)
  }

  /** What was created is live or was released, once. */
  ghost predicate Counted(w: World) {
    && (forall r :: r in w.live ==> r < w.created)
    && w.lost <= w.live
    && |w.live| + w.released == w.created
  }

  ghost predicate Conserved(w: World) {
    SlotsOwn(w) && LiveFound(w) && Counted(w)
  }

  lemma {:induction false} HeldCount(slots: seq<Option<Ref>>)
    requires forall i, j :: 0 <= i < j < |slots| && slots[i].Some? ==> slots[i] != slots[j]
    ensures |Held(slots)| == NonNull(slots)
    decreases |slots|
  {
    if slots != [] {
      HeldCount(slots[1..]);
      var own := if slots[0].Some? then {slots[0].value} else {};
      forall r | r in Held(slots) ensures r in own + Held(slots[1..]) {
        var i :| 0 <= i < |slots| && slots[i].Some? && slots[i].value == r;
        if i > 0 {
          assert slots[1..][i - 1] == slots[i];
        }
      }
      forall r | r in own + Held(slots[1..]) ensures r in Held(slots) {
        if r in Held(slots[1..]) {
          var i :| 0 <= i < |slots[1..]| && slots[1..][i].Some? && slots[1..][i].value == r;
          assert slots[i + 1] == slots[1..][i];
        }
      }
      assert Held(slots) == own + Held(slots[1..]);
      assert own !! Held(slots[1..]);
    }
  }

  /** A claim empties the slots of `f` and no others. */
  lemma {:induction false} ClaimSlots(w: World, f: string)
    requires !Refuses(w, f)
    ensures forall g, i, r :: HeldAt(Claim(w, f), g, i, r) <==> HeldAt(w, g, i, r) && g != f
    ensures forall i: int, r: Ref :: HeldAt(w, f, i, r) <==>
            0 <= i < |SpecOf(w, f).defaults| && SpecOf(w, f).defaults[i] == Some(r)
  {
  }

  lemma {:induction false} HeldElement(slots: seq<Option<Ref>>, r: Ref)
    ensures r in Held(slots) <==> exists i :: 0 <= i < |slots| && slots[i] == Some(r)
  {
  }

  lemma {:induction false} ClaimConserves(w: World, f: string)
    requires Conserved(w) && !Refuses(w, f)
    ensures Conserved(Claim(w, f))
  {
    hide HeldAt, SpecOf, Held, NonNull, Refuses, SlotsOwn, LiveFound, Counted, Claim;
    ClaimedSlots(w, f);
    ClaimCounts(w, f);
    ClaimOwns(w, f);
    ClaimFinds(w, f);
  }

  /** The slots of one function hold as many live references as there are non-null ones. */
  lemma {:induction false} ClaimedSlots(w: World, f: string)
    requires SlotsOwn(w) && !Refuses(w, f)
    ensures var slots := SpecOf(w, f).defaults;
            |Held(slots)| == NonNull(slots) && forall r :: r in Held(slots) ==> r in w.live && r !in w.lost
  {
    hide HeldAt, SpecOf, Held, NonNull, Refuses;
    var slots := SpecOf(w, f).defaults;
    ClaimSlots(w, f);
    forall i, j | 0 <= i < j < |slots| && slots[i].Some? ensures slots[i] != slots[j] {
      assert HeldAt(w, f, i, slots[i].value);
    }
    HeldCount(slots);
    forall r | r in Held(slots) ensures r in w.live && r !in w.lost {
      HeldElement(slots, r);
      var i :| 0 <= i < |slots| && slots[i] == Some(r);
      assert HeldAt(w, f, i, r);
    }
  }

  lemma {:induction false} ClaimOwns(w: World, f: string)
    requires SlotsOwn(w) && !Refuses(w, f)
    ensures SlotsOwn(Claim(w, f))
  {
    hide HeldAt, SpecOf, Held, NonNull, Refuses;
    var slots := SpecOf(w, f).defaults;
    ClaimSlots(w, f);
    forall g, i, r | HeldAt(Claim(w, f), g, i, r) ensures r in Claim(w, f).live && r !in w.lost {
      HeldElement(slots, r);
      assert HeldAt(w, g, i, r) && g != f;
      assert forall j :: 0 <= j < |slots| && slots[j] == Some(r) ==> HeldAt(w, f, j, r);
    }
  }

  lemma {:induction false} ClaimFinds(w: World, f: string)
    requires LiveFound(w) && !Refuses(w, f)
    ensures LiveFound(Claim(w, f))
  {
    hide HeldAt, SpecOf, Held, NonNull, Refuses;
    var w', slots := Claim(w, f), SpecOf(w, f).defaults;
    ClaimSlots(w, f);
    forall r | r in w'.live && r !in w'.lost ensures exists g, i :: HeldAt(w', g, i, r) {
      HeldElement(slots, r);
      var g, i :| HeldAt(w, g, i, r);
      assert HeldAt(w', g, i, r);
    }
  }

  lemma {:induction false} ClaimCounts(w: World, f: string)
    requires Counted(w) && !Refuses(w, f)
    requires var slots := SpecOf(w, f).defaults;
             |Held(slots)| == NonNull(slots) && forall r :: r in Held(slots) ==> r in w.live && r !in w.lost
    ensures Counted(Claim(w, f))
  {
    hide HeldAt, SpecOf, Held, NonNull, Refuses;
    var held := Held(SpecOf(w, f).defaults);
    assert |w.live - held| == |w.live| - |held| by { assert w.live == (w.live - held) + held; }
  }

  /** What one `add_arg` does to the slots. */
  lemma {:induction false} SlotsAfterAdd(w: World, f: string, a: Arg, g: string, i: int, r: Ref)
    ensures HeldAt(AddArg(w, f, a).0, g, i, r) <==>
            HeldAt(w, g, i, r)
            || (a.Optional? && a.alloc == Made && g == f && i == |SpecOf(w, f).defaults| && r == w.created)
  {
  }

  lemma {:induction false} CountersAfterAdd(w: World, f: string, a: Arg)
    ensures var w', owns := AddArg(w, f, a).0, a.Optional? && a.alloc != Failed;
            && w'.live == (if owns then w.live + {w.created} else w.live)
            && w'.lost == (if owns && a.alloc == Thrown then w.lost + {w.created} else w.lost)
            && w'.created == (if owns then w.created + 1 else w.created)
            && w'.released == w.released
  {
  }

  lemma {:induction false} AddArgConserves(w: World, f: string, a: Arg)
    requires Conserved(w)
    ensures Conserved(AddArg(w, f, a).0)
  {
    hide HeldAt, Put, SpecOf, AddArg, LiveFound, SlotsOwn;
    CountersAfterAdd(w, f, a);
    assert w.created !in w.live;
    AddArgOwns(w, f, a);
    AddArgFinds(w, f, a);
  }

  lemma {:induction false} AddArgOwns(w: World, f: string, a: Arg)
    requires SlotsOwn(w) && w.created !in w.live && w.lost <= w.live
    ensures SlotsOwn(AddArg(w, f, a).0)
  {
    hide HeldAt, Put, SpecOf, AddArg;
    var w', n, made := AddArg(w, f, a).0, |SpecOf(w, f).defaults|, a.Optional? && a.alloc == Made;
    CountersAfterAdd(w, f, a);
    forall g, i, r
      ensures HeldAt(w', g, i, r) <==> HeldAt(w, g, i, r) || (made && g == f && i == n && r == w.created)
    {
      SlotsAfterAdd(w, f, a, g, i, r);
    }
  }

  lemma {:induction false} AddArgFinds(w: World, f: string, a: Arg)
    requires LiveFound(w)
    ensures LiveFound(AddArg(w, f, a).0)
  {
    hide HeldAt, Put, SpecOf, AddArg;
    var w', n := AddArg(w, f, a).0, |SpecOf(w, f).defaults|;
    CountersAfterAdd(w, f, a);
    forall r | r in w'.live && r !in w'.lost ensures exists g, i :: HeldAt(w', g, i, r) {
      if r in w.live {
        var g, i :| HeldAt(w, g, i, r);
        SlotsAfterAdd(w, f, a, g, i, r);
      } else {
        SlotsAfterAdd(w, f, a, f, n, r);
      }
    }
  }

  lemma {:induction false} AddArgsConserve(w: World, f: string, args: seq<Arg>)
    requires Conserved(w)
    ensures Conserved(AddArgs(w, f, args).0)
    decreases |args|
  {
    hide Conserved, AddArg;
    if args != [] {
      AddArgConserves(w, f, args[0]);
      AddArgsConserve(AddArg(w, f, args[0]).0, f, args[1..]);
    }
  }

  lemma {:induction false} CloseConserves(w: World, f: string, name: string)
    requires Conserved(w)
    ensures Conserved(Put(w, f, Closed(SpecOf(w, f), name)))
  {
    var w' := Put(w, f, Closed(SpecOf(w, f), name));
    assert forall g, i, r :: HeldAt(w', g, i, r) <==> HeldAt(w, g, i, r);
  }

  lemma {:induction false} FlagConserves(w: World, epoch: nat, error: bool)
    requires Conserved(w)
    ensures Conserved(w.(epoch := epoch, error := error))
  {
    var w' := w.(epoch := epoch, error := error);
    assert forall g, i, r :: HeldAt(w', g, i, r) <==> HeldAt(w, g, i, r);
  }

  lemma {:induction false} RegisterAllConserves(w: World, defs: seq<Def>)
    requires Conserved(w)
    ensures Conserved(RegisterAll(w, defs).0)
    decreases |defs|
  {
    hide Conserved, Claim, AddArgs, Put, Refuses;
    if defs != [] {
      var d := defs[0];
      if Refuses(w, d.func) {
        FlagConserves(w, w.epoch, true);
      } else {
        ClaimConserves(w, d.func);
        AddArgsConserve(Claim(w, d.func), d.func, d.args);
        CloseConserves(AddArgs(Claim(w, d.func), d.func, d.args).0, d.func, d.name);
      }
      RegisterAllConserves(Register(w, d).0, defs[1..]);
    }
  }

  lemma {:induction false} RunConserves(w: World, imports: seq<Import>)
    requires Conserved(w)
    ensures Conserved(Run(w, imports))
    decreases |imports|
  {
    hide Conserved, RegisterAll;
    if imports != [] {
      var i := imports[0];
      if i.starts {
        FlagConserves(w, w.epoch + 1, false);
        RegisterAllConserves(w.(epoch := w.epoch + 1, error := false), i.defs);
      }
      RunConserves(RunImport(w, i).0, imports[1..]);
    }
  }

  ghost predicate NothingThrown(args: seq<Arg>) {
    forall i :: 0 <= i < |args| ==> !(args[i].Optional? && args[i].alloc == Thrown)
  }

  /** Registering arguments throws exactly when one of them does, and then loses exactly one reference. */
  lemma {:induction false} AddArgsLose(w: World, f: string, args: seq<Arg>)
    requires forall r :: r in w.lost ==> r < w.created
    ensures var (w', thrown) := AddArgs(w, f, args);
            && (thrown <==> !NothingThrown(args))
            && (forall r :: r in w'.lost ==> r < w'.created)
            && |w'.lost| == |w.lost| + if thrown then 1 else 0
    decreases |args|
  {
    if args != [] {
      var (w', thrown) := AddArg(w, f, args[0]);
      assert NothingThrown(args) <==> !thrown && NothingThrown(args[1..]);
      if !thrown {
        AddArgsLose(w', f, args[1..]);
      }
    }
  }

  /** The functions that have claimed their specification in the import under way. */
  function Claimed(w: World): set<string> {
    set f | f in w.specs && Refuses(w, f)
  }

  lemma {:induction false} RegisterClaims(w: World, d: Def)
    requires w.epoch > 0
    ensures Claimed(Register(w, d).0) == Claimed(w) + {d.func} && Register(w, d).0.epoch == w.epoch
  {
    hide AddArgs;
    var w' := Register(w, d).0;
    if !Refuses(w, d.func) {
      ArgsKeep(Claim(w, d.func), d.func, d.args);
    }
    forall g ensures g in Claimed(w') <==> g in Claimed(w) || g == d.func {
      if g != d.func {
        OthersKept(w, d, g);
      }
    }
  }

  /** The block throws at its `k`-th registration: some default of it does, and the function is not refused. */
  ghost predicate ThrowsAt(defs: seq<Def>, claimed: set<string>, k: nat) {
    && k < |defs| && !NothingThrown(defs[k].args)
    && defs[k].func !in claimed && forall j :: 0 <= j < k ==> defs[j].func != defs[k].func
  }

  /** A block throws exactly when a registration that is the first of its function holds a default that throws, and
      then it loses exactly one reference. */
  lemma {:induction false} BlockLoses(w: World, defs: seq<Def>)
    requires w.epoch > 0 && forall r :: r in w.lost ==> r < w.created
    ensures var (w', thrown) := RegisterAll(w, defs);
            && (thrown <==> exists k: nat :: ThrowsAt(defs, Claimed(w), k))
            && (forall r :: r in w'.lost ==> r < w'.created)
            && |w'.lost| == |w.lost| + if thrown then 1 else 0
    decreases |defs|
  {
    hide AddArgs, NothingThrown, Claimed;
    if defs != [] {
      var d := defs[0];
      var (w', thrown) := Register(w, d);
      RegisterClaims(w, d);
      InClaimed(w, d.func);
      if !Refuses(w, d.func) {
        AddArgsLose(Claim(w, d.func), d.func, d.args);
      }
      if thrown {
        assert ThrowsAt(defs, Claimed(w), 0);
      } else {
        BlockLoses(w', defs[1..]);
        ThrowsLater(defs, Claimed(w));
      }
    }
  }

  lemma {:induction false} InClaimed(w: World, f: string)
    ensures f in Claimed(w) <==> Refuses(w, f)
  {
  }

  lemma {:induction false} ThrowsLater(defs: seq<Def>, claimed: set<string>)
    requires defs != [] && !ThrowsAt(defs, claimed, 0)
    ensures (exists k: nat :: ThrowsAt(defs, claimed, k)) <==>
            exists k: nat :: ThrowsAt(defs[1..], claimed + {defs[0].func}, k)
  {
    if k: nat :| ThrowsAt(defs, claimed, k) {
      assert k > 0 && defs[k] == defs[1..][k - 1];
      assert ThrowsAt(defs[1..], claimed + {defs[0].func}, k - 1);
    }
    if k: nat :| ThrowsAt(defs[1..], claimed + {defs[0].func}, k) {
      assert defs[k + 1] == defs[1..][k];
      assert forall j :: 0 < j < k + 1 ==> defs[j] == defs[1..][j - 1];
      assert ThrowsAt(defs, claimed, k + 1);
    }
  }

  /** No specification was claimed in an epoch to come. */
  ghost predicate EpochsPast(w: World) {
    forall f :: SpecOf(w, f).epoch <= w.epoch
  }

  lemma {:induction false} RegisterAllEpochs(w: World, defs: seq<Def>)
    requires EpochsPast(w)
    ensures EpochsPast(RegisterAll(w, defs).0) && RegisterAll(w, defs).0.epoch == w.epoch
    decreases |defs|
  {
    hide AddArgs;
    if defs != [] {
      var d, w' := defs[0], Register(w, defs[0]).0;
      if !Refuses(w, d.func) {
        ArgsKeep(Claim(w, d.func), d.func, d.args);
      }
      forall g ensures SpecOf(w', g).epoch <= w'.epoch {
        if g != d.func {
          OthersKept(w, d, g);
        }
      }
      RegisterAllEpochs(w', defs[1..]);
    }
  }

  /** The world in which an import runs its block: no function has claimed its specification. */
  lemma {:induction false} NothingClaimed(w: World)
    requires EpochsPast(w)
    ensures Claimed(w.(epoch := w.epoch + 1, error := false)) == {}
  {
    var w' := w.(epoch := w.epoch + 1, error := false);
    assert forall f :: SpecOf(w', f) == SpecOf(w, f);
  }

  /** An import whose block loses a reference. */
  ghost predicate Losing(i: Import) {
    i.starts && exists k: nat :: ThrowsAt(i.defs, {}, k)
  }

  ghost function LosingImports(imports: seq<Import>): nat {
    if imports == [] then 0 else (if Losing(imports[0]) then 1 else 0) + LosingImports(imports[1..])
  }

  lemma {:induction false} RunLoses(w: World, imports: seq<Import>)
    requires EpochsPast(w) && forall r :: r in w.lost ==> r < w.created
    ensures |Run(w, imports).lost| == |w.lost| + LosingImports(imports)
    decreases |imports|
  {
    hide RegisterAll, EpochsPast;
    if imports != [] {
      var i, w1 := imports[0], w.(epoch := w.epoch + 1, error := false);
      if i.starts {
        NothingClaimed(w);
        BlockLoses(w1, i.defs);
        NextEpoch(w);
        RegisterAllEpochs(w1, i.defs);
      }
      RunLoses(RunImport(w, i).0, imports[1..]);
    }
  }

  lemma {:induction false} NextEpoch(w: World)
    requires EpochsPast(w)
    ensures EpochsPast(w.(epoch := w.epoch + 1, error := false))
  {
    var w' := w.(epoch := w.epoch + 1, error := false);
    assert forall f :: SpecOf(w', f) == SpecOf(w, f);
  }

  ghost function AllHeld(w: World): set<Ref> {
    set f, i | f in w.specs && 0 <= i < |w.specs[f].defaults| && w.specs[f].defaults[i].Some? ::
        w.specs[f].defaults[i].value
  }

  lemma {:induction false} LiveIsHeld(w: World)
    requires Conserved(w)
    ensures w.live == AllHeld(w) + w.lost && AllHeld(w) !! w.lost
  {
    forall r | r in w.live ensures r in AllHeld(w) + w.lost {
      if r !in w.lost {
        var f, i :| HeldAt(w, f, i, r);
        assert w.specs[f].defaults[i].value == r;
      }
    }
    forall r | r in AllHeld(w) ensures r in w.live && r !in w.lost {
      var f, i :| f in w.specs && 0 <= i < |w.specs[f].defaults| && w.specs[f].defaults[i].Some?
          && w.specs[f].defaults[i].value == r;
      assert HeldAt(w, f, i, r);
    }
  }

  /** Over every sequence of imports, repeats and failures included, the references created minus those released are
      exactly those the slots hold, one slot each, plus those lost: one for each import whose block reaches a default
      whose `push_back` throws. So they are the non-null slots if and only if there is no such import. */
  lemma {:induction false} ReferencesBalance(imports: seq<Import>)
    ensures var w := Run(START, imports);
            && w.live == AllHeld(w) + w.lost
            && AllHeld(w) !! w.lost
            && (forall f, i, g, j, r :: HeldAt(w, f, i, r) && HeldAt(w, g, j, r) ==> f == g && i == j)
            && w.created - w.released == |AllHeld(w)| + LosingImports(imports)
            && (w.created - w.released == |AllHeld(w)| <==> forall k :: 0 <= k < |imports| ==> !Losing(imports[k]))
  {
    hide Run, HeldAt, AllHeld, Losing;
    StartConserves();
    var w := Run(START, imports);
    RunConserves(START, imports);
    LiveIsHeld(w);
    RunLoses(START, imports);
    assert |w.live| == |AllHeld(w)| + |w.lost|;
    LosingNone(imports);
  }

  lemma {:induction false} LosingNone(imports: seq<Import>)
    ensures LosingImports(imports) == 0 <==> forall k :: 0 <= k < |imports| ==> !Losing(imports[k])
    decreases |imports|
  {
    hide Losing;
    if imports != [] {
      LosingNone(imports[1..]);
      assert forall k :: 1 <= k < |imports| ==> imports[k] == imports[1..][k - 1];
    }
  }

  lemma {:induction false} StartConserves()
    ensures Conserved(START) && EpochsPast(START)
  {
  }

  /** Such a throw does lose a reference: one import is enough. */
  lemma {:induction false} ThrowLoses()
    ensures var w := Run(START, [Import(true, [Def("f", "f", [Optional("x", Thrown)])], false, true)]);
            |w.lost| == 1 && w.created - w.released == |AllHeld(w)| + 1
  {
    hide Run, AllHeld;
    var d := Def("f", "f", [Optional("x", Thrown)]);
    var i := Import(true, [d], false, true);
    assert d.args[0].alloc == Thrown;
    assert ThrowsAt(i.defs, {}, 0);
    assert [i][1..] == [] && LosingImports([i]) == 1;
    StartConserves();
    RunLoses(START, [i]);
    ReferencesBalance([i]);
  }

  // --- the shape of a claimed specification ---

  function Os(n: nat): string {
    if n == 0 then "" else Os(n - 1) + "O"
  }

  function RequiredCount(args: seq<Arg>): (k: nat)
    ensures k <= |args|
  {
    if args == [] || args[0].Optional? then 0 else 1 + RequiredCount(args[1..])
  }

  function Flags(args: seq<Arg>): (r: seq<bool>)
    ensures |r| == |args| && forall i :: 0 <= i < |args| ==> r[i] == args[i].Optional?
  {
    seq(|args|, i requires 0 <= i < |args| => args[i].Optional?)
  }

  /** `k` parameters without a default, then only parameters with one. */
  ghost predicate SplitAt(defaulted: seq<bool>, k: nat) {
    k <= |defaulted| && forall i :: 0 <= i < |defaulted| ==> (defaulted[i] <==> i >= k)
  }

  /** The static assertion of `def`: no required parameter after an optional one. */
  ghost predicate RequiredFirst(args: seq<Arg>) {
    exists k :: SplitAt(Flags(args), k)
  }

  /** `required_before_optional`, over the flags of the specs. */
  method RequiredBeforeOptional(defaulted: seq<bool>) returns (ok: bool)
    ensures ok <==> exists k :: SplitAt(defaulted, k)
  {
    var seenOptional := false;
    ghost var first := |defaulted|;
    for n := 0 to |defaulted|
      invariant !seenOptional ==> first == |defaulted| && forall i :: 0 <= i < n ==> !defaulted[i]
      invariant seenOptional ==> 0 <= first < n && forall i :: 0 <= i < n ==> (!defaulted[i] <==> i < first)
    {
      if !defaulted[n] && seenOptional {
        assert defaulted[first];
        return false;
      }
      if defaulted[n] && !seenOptional {
        first := n;
      }
      seenOptional := seenOptional || defaulted[n];
    }
    assert SplitAt(defaulted, first);
    return true;
  }

  function Names(args: seq<Arg>): (r: seq<Option<string>>)
    ensures |r| == |args| && forall i :: 0 <= i < |args| ==> r[i] == Some(args[i].name)
  {
    seq(|args|, i requires 0 <= i < |args| => Some(args[i].name))
  }

  /** The format after `k` required and `n - k` optional parameters. */
  function Marked(k: nat, n: nat): string
    requires k <= n
  {
    if k == n then Os(n) else Os(k) + "|" + Os(n - k)
  }

  ghost predicate SlotsMatch(args: seq<Arg>, slots: seq<Option<Ref>>) {
    |slots| == |args| && forall i :: 0 <= i < |args| ==>
        (slots[i] == None <==> args[i].Required? || args[i].alloc == Failed)
  }

  /** What `n` of the `args` have put into the specification of `f`. */
  ghost predicate Filled(s: Spec, args: seq<Arg>, n: nat, k: nat, epoch: nat) {
    && n <= |args| && k <= |args|
    && s.kwlist == Names(args[..n])
    && s.format == (if n <= k then Os(n) else Marked(k, n))
    && s.optionalStarted == (n > k)
    && SlotsMatch(args[..n], s.defaults)
    && s.epoch == epoch
  }

  lemma {:induction false} FilledStep(w: World, f: string, args: seq<Arg>, n: nat, k: nat)
    requires n < |args| && k <= |args| && Filled(SpecOf(w, f), args, n, k, w.epoch)
    requires SplitAt(Flags(args), k)
    requires !(args[n].Optional? && args[n].alloc == Thrown)
    ensures var (w', thrown) := AddArg(w, f, args[n]);
            !thrown && w'.epoch == w.epoch && Filled(SpecOf(w', f), args, n + 1, k, w.epoch)
  {
    hide Os, Marked, SlotsMatch;
    var s, s' := SpecOf(w, f), SpecOf(AddArg(w, f, args[n]).0, f);
    assert Flags(args)[n] == args[n].Optional?;
    assert args[..n + 1] == args[..n] + [args[n]];
    assert s'.kwlist == Names(args[..n + 1]);
    MarkedStep(k, n);
    assert s.format + "" == s.format;
    assert s.format + "|" + "O" == s.format + "|O" && s.format + ("" + "O") == s.format + "O";
    LengthOfSlots(args[..n], s.defaults);
    var slot := if args[n].Required? || args[n].alloc == Failed then None else Some(w.created);
    assert s'.defaults == s.defaults + [slot];
    SlotsStep(args[..n], s.defaults, args[n], slot);
  }

  lemma {:induction false} LengthOfSlots(args: seq<Arg>, slots: seq<Option<Ref>>)
    requires SlotsMatch(args, slots)
    ensures |slots| == |args|
  {
  }

  lemma {:induction false} SlotsStep(args: seq<Arg>, slots: seq<Option<Ref>>, a: Arg, slot: Option<Ref>)
    requires SlotsMatch(args, slots) && (slot == None <==> a.Required? || a.alloc == Failed)
    ensures SlotsMatch(args + [a], slots + [slot])
  {
  }

  /** The format grows by `O`, with the bar in front of the first default. */
  lemma {:induction false} MarkedStep(k: nat, n: nat)
    ensures n < k ==> Os(n) + "O" == Os(n + 1)
    ensures n == k ==> Os(k) + "|O" == Marked(k, n + 1)
    ensures n > k ==> Marked(k, n) + "O" == Marked(k, n + 1)
  {
    if n == k {
      assert Os(1) == Os(0) + "O" == "O";
      assert Os(k) + "|" + "O" == Os(k) + "|O";
    } else if n > k {
      assert Os(k) + "|" + Os(n - k) + "O" == Os(k) + "|" + (Os(n - k) + "O");
    }
  }

  lemma {:induction false} FilledArgs(w: World, f: string, args: seq<Arg>, n: nat, k: nat)
    requires n <= |args| && k <= |args| && Filled(SpecOf(w, f), args, n, k, w.epoch)
    requires SplitAt(Flags(args), k)
    requires NothingThrown(args)
    ensures var (w', thrown) := AddArgs(w, f, args[n..]);
            !thrown && w'.epoch == w.epoch && Filled(SpecOf(w', f), args, |args|, k, w.epoch)
    decreases |args| - n
  {
    hide Filled, AddArg;
    if n < |args| {
      FilledStep(w, f, args, n, k);
      FilledArgs(AddArg(w, f, args[n]).0, f, args, n + 1, k);
      assert args[n..][0] == args[n] && args[n..][1..] == args[n + 1..];
    }
  }

  /** A claimed and closed specification: the names and a null, one `O` a parameter with `|` exactly at the first
      default, the name, and null defaults exactly at the required parameters (barring allocation failure). */
  lemma {:induction false} SpecShape(w: World, d: Def)
    requires !Refuses(w, d.func) && RequiredFirst(d.args) && NothingThrown(d.args)
    ensures var (w', thrown) := Register(w, d);
            var s := SpecOf(w', d.func);
            && !thrown
            && s.kwlist == Names(d.args) + [None]
            && s.format == Marked(RequiredCount(d.args), |d.args|) + ":" + d.name
            && SlotsMatch(d.args, s.defaults)
            && s.epoch == w.epoch
  {
    hide AddArgs;
    var k :| SplitAt(Flags(d.args), k);
    CountRequired(d.args, k);
    var w1 := Claim(w, d.func);
    assert Filled(SpecOf(w1, d.func), d.args, 0, k, w.epoch);
    assert d.args[0..] == d.args && d.args[..|d.args|] == d.args;
    FilledArgs(w1, d.func, d.args, 0, k);
  }

  lemma {:induction false} CountRequired(args: seq<Arg>, k: nat)
    requires SplitAt(Flags(args), k)
    ensures RequiredCount(args) == k
    decreases |args|
  {
    if args != [] {
      assert Flags(args)[0] == args[0].Optional?;
    }
    if k > 0 {
      assert Flags(args[1..]) == Flags(args)[1..];
      CountRequired(args[1..], k - 1);
    }
  }

  // --- one registration an import ---

  /** A function registered earlier in the block, whatever it registered with, is refused: the block has then done what
      it had done before, and set the error. */
  lemma {:induction false} SecondRegistrationFails(w: World, defs: seq<Def>, d: Def)
    requires w.epoch > 0 && exists k :: 0 <= k < |defs| && defs[k].func == d.func
    ensures var before, after := RegisterAll(w, defs), RegisterAll(w, defs + [d]);
            after == if before.1 then before else (before.0.(error := true), false)
  {
    hide Claimed;
    BlockClaims(w, defs);
    InClaimed(RegisterAll(w, defs).0, d.func);
    RegisterOneMore(w, defs, d);
  }

  lemma {:induction false} RegisterOneMore(w: World, defs: seq<Def>, d: Def)
    ensures var before := RegisterAll(w, defs);
            RegisterAll(w, defs + [d]) == if before.1 then before else Register(before.0, d)
    decreases |defs|
  {
    hide Register;
    if defs == [] {
      assert defs + [d] == [d] && [d][1..] == [];
      var (w', thrown) := Register(w, d);
      assert !thrown ==> RegisterAll(w', []) == (w', false);
    } else {
      assert (defs + [d])[0] == defs[0] && (defs + [d])[1..] == defs[1..] + [d];
      RegisterOneMore(Register(w, defs[0]).0, defs[1..], d);
    }
  }

  /** A block that ends claims the specification of each of its functions. */
  lemma {:induction false} BlockClaims(w: World, defs: seq<Def>)
    requires w.epoch > 0
    ensures var (w', thrown) := RegisterAll(w, defs);
            && w'.epoch == w.epoch && Claimed(w) <= Claimed(w')
            && (!thrown ==> forall k :: 0 <= k < |defs| ==> defs[k].func in Claimed(w'))
    decreases |defs|
  {
    hide Register, Claimed;
    if defs != [] {
      RegisterClaims(w, defs[0]);
      BlockClaims(Register(w, defs[0]).0, defs[1..]);
    }
  }

  ghost predicate AllMade(args: seq<Arg>) {
    NothingThrown(args) && !SomeFailed(args)
  }

  /** A block of registrations that does nothing wrong. */
  ghost predicate CleanBlock(defs: seq<Def>, claimed: set<string>) {
    && (forall k :: 0 <= k < |defs| ==> AllMade(defs[k].args) && defs[k].func !in claimed)
    && forall j, k :: 0 <= j < k < |defs| ==> defs[j].func != defs[k].func
  }

  lemma {:induction false} CleanRest(defs: seq<Def>, claimed: set<string>)
    requires defs != []
    ensures CleanBlock(defs, claimed) <==>
            && AllMade(defs[0].args) && defs[0].func !in claimed && CleanBlock(defs[1..], claimed + {defs[0].func})
  {
    hide AllMade;
    var rest := defs[1..];
    assert forall k :: 1 <= k < |defs| ==> defs[k] == rest[k - 1];
    if CleanBlock(rest, claimed + {defs[0].func}) {
      forall k | 1 <= k < |defs| ensures AllMade(defs[k].args) && defs[k].func !in claimed
          && defs[k].func != defs[0].func {
        assert AllMade(rest[k - 1].args);
      }
    }
  }

  lemma {:induction false} RegisterClean(w: World, d: Def)
    ensures var (w', thrown) := Register(w, d);
            !thrown && !w'.error <==> !w.error && !Refuses(w, d.func) && AllMade(d.args)
  {
    hide AddArgs, NothingThrown, SomeFailed;
    if !Refuses(w, d.func) {
      ArgsClean(Claim(w, d.func), d.func, d.args);
    }
  }

  lemma {:induction false} ArgsClean(w: World, f: string, args: seq<Arg>)
    ensures var (w', thrown) := AddArgs(w, f, args);
            !thrown && !w'.error <==> !w.error && AllMade(args)
    decreases |args|
  {
    if args != [] {
      var (w', thrown) := AddArg(w, f, args[0]);
      assert AllMade(args) <==>
             !(args[0].Optional? && args[0].alloc != Made) && AllMade(args[1..]) by { MadeRest(args); }
      if !thrown {
        ArgsClean(w', f, args[1..]);
      }
    }
  }

  lemma {:induction false} MadeRest(args: seq<Arg>)
    requires args != []
    ensures AllMade(args) <==> !(args[0].Optional? && args[0].alloc != Made) && AllMade(args[1..])
  {
    assert forall k :: 1 <= k < |args| ==> args[k] == args[1..][k - 1];
  }

  lemma {:induction false} BlockOutcome(w: World, defs: seq<Def>)
    requires w.epoch > 0
    ensures var (w', thrown) := RegisterAll(w, defs);
            !thrown && !w'.error <==> !w.error && CleanBlock(defs, Claimed(w))
    decreases |defs|
  {
    hide Register, Claimed, CleanBlock, AllMade;
    if defs == [] {
      assert CleanBlock([], Claimed(w)) by { NothingUnclean(Claimed(w)); }
    } else {
      RegisterClean(w, defs[0]);
      InClaimed(w, defs[0].func);
      CleanRest(defs, Claimed(w));
      RegisterClaims(w, defs[0]);
      var (w', thrown) := Register(w, defs[0]);
      if !thrown {
        BlockOutcome(w', defs[1..]);
      }
    }
  }

  lemma {:induction false} NothingUnclean(claimed: set<string>)
    ensures CleanBlock([], claimed)
  {
  }

  /** In any reachable world an import succeeds if and only if it starts, its block throws nothing, registers each
      function once, and makes every default, and the functions can be added. So a function registered twice, like a
      default that could not be made, always fails the import. */
  lemma {:induction false} ImportSucceedsExactly(imports: seq<Import>, i: Import)
    ensures RunImport(Run(START, imports), i).1 <==>
            i.starts && !i.blockThrows && i.functionsAdded && CleanBlock(i.defs, {})
  {
    hide Run, RegisterAll, CleanBlock, EpochsPast;
    StartConserves();
    var w := Run(START, imports);
    RunEpochs(START, imports);
    NothingClaimed(w);
    BlockOutcome(w.(epoch := w.epoch + 1, error := false), i.defs);
  }

  lemma {:induction false} RunEpochs(w: World, imports: seq<Import>)
    requires EpochsPast(w)
    ensures EpochsPast(Run(w, imports))
    decreases |imports|
  {
    hide EpochsPast, RegisterAll;
    if imports != [] {
      NextEpoch(w);
      RegisterAllEpochs(w.(epoch := w.epoch + 1, error := false), imports[0].defs);
      RunEpochs(RunImport(w, imports[0]).0, imports[1..]);
    }
  }

  lemma {:induction false} ErrorStays(w: World, defs: seq<Def>)
    requires w.error
    ensures RegisterAll(w, defs).0.error
    decreases |defs|
  {
    if defs != [] {
      if !Refuses(w, defs[0].func) {
        ArgsKeep(Claim(w, defs[0].func), defs[0].func, defs[0].args);
      }
      ErrorStays(Register(w, defs[0]).0, defs[1..]);
    }
  }

  /** Registering arguments keeps the error, the epoch, and every specification's claim. */
  lemma {:induction false} ArgsKeep(w: World, f: string, args: seq<Arg>)
    ensures w.error ==> AddArgs(w, f, args).0.error
    ensures AddArgs(w, f, args).0.epoch == w.epoch
    ensures SpecOf(AddArgs(w, f, args).0, f).epoch == SpecOf(w, f).epoch
    ensures forall g :: g != f ==> SpecOf(AddArgs(w, f, args).0, g) == SpecOf(w, g)
    decreases |args|
  {
    if args != [] {
      ArgsKeep(AddArg(w, f, args[0]).0, f, args[1..]);
    }
  }

  ghost predicate SomeFailed(args: seq<Arg>) {
    exists i :: 0 <= i < |args| && args[i].Optional? && args[i].alloc == Failed
  }

  lemma {:induction false} FailedAllocSets(w: World, f: string, args: seq<Arg>)
    requires NothingThrown(args) && SomeFailed(args)
    ensures AddArgs(w, f, args).0.error
    decreases |args|
  {
    var w' := AddArg(w, f, args[0]).0;
    if args[0].Optional? && args[0].alloc == Failed {
      ArgsKeep(w', f, args[1..]);
    } else {
      var i :| 0 <= i < |args| && args[i].Optional? && args[i].alloc == Failed;
      assert args[1..][i - 1] == args[i];
      FailedAllocSets(w', f, args[1..]);
    }
  }

  ghost predicate ValidDef(d: Def) {
    d.args != [] && RequiredFirst(d.args) && NothingThrown(d.args)
  }

  /** The specification a successful import leaves for a registration. */
  ghost predicate Ready(s: Spec, d: Def, epoch: nat) {
    && s.kwlist == Names(d.args) + [None]
    && s.format == Marked(RequiredCount(d.args), |d.args|) + ":" + d.name
    && |s.defaults| == |d.args|
    && (forall i :: 0 <= i < |d.args| ==> (s.defaults[i] == None <==> d.args[i].Required?))
    && s.epoch == epoch
  }

  lemma {:induction false} RegistrationsReady(w: World, defs: seq<Def>, done: seq<Def>)
    requires w.epoch > 0
    requires forall d :: d in defs + done ==> ValidDef(d)
    requires forall d :: d in done ==> Ready(SpecOf(w, d.func), d, w.epoch)
    requires !RegisterAll(w, defs).0.error
    ensures var w' := RegisterAll(w, defs).0;
            w'.epoch == w.epoch && forall d :: d in defs + done ==> Ready(SpecOf(w', d.func), d, w.epoch)
    decreases |defs|
  {
    hide Ready, ValidDef, Put, AddArgs;
    if defs != [] {
      var d := defs[0];
      var w' := Register(w, d).0;
      OneReady(w, defs, done);
      assert forall e :: e in defs + done <==> e in defs[1..] + (done + [d]);
      RegistrationsReady(w', defs[1..], done + [d]);
    }
  }

  /** Registering `d` leaves the specifications of the other functions alone. */
  lemma {:induction false} OthersKept(w: World, d: Def, g: string)
    requires g != d.func
    ensures SpecOf(Register(w, d).0, g) == SpecOf(w, g)
  {
    hide AddArgs;
    if !Refuses(w, d.func) {
      var c := Claim(w, d.func);
      ArgsKeep(c, d.func, d.args);
      assert SpecOf(c, g) == SpecOf(w, g);
      assert SpecOf(AddArgs(c, d.func, d.args).0, g) == SpecOf(c, g);
    }
  }

  /** A registration either leaves a complete specification, or the import's error. */
  lemma {:induction false} ReadyOrError(w: World, d: Def)
    requires w.epoch > 0 && ValidDef(d)
    ensures var (w', thrown) := Register(w, d);
            && !thrown && w'.epoch == w.epoch
            && (w'.error || (!Refuses(w, d.func) && Ready(SpecOf(w', d.func), d, w.epoch)))
  {
    hide AddArgs, NothingThrown, RequiredFirst;
    if !Refuses(w, d.func) {
      SpecShape(w, d);
      ArgsKeep(Claim(w, d.func), d.func, d.args);
      if SomeFailed(d.args) {
        FailedAllocSets(Claim(w, d.func), d.func, d.args);
      }
    }
  }

  lemma {:induction false} OneReady(w: World, defs: seq<Def>, done: seq<Def>)
    requires defs != [] && w.epoch > 0 && ValidDef(defs[0])
    requires forall d :: d in done ==> Ready(SpecOf(w, d.func), d, w.epoch)
    requires !RegisterAll(w, defs).0.error
    ensures var (w', thrown) := Register(w, defs[0]);
            && !thrown && w'.epoch == w.epoch && !RegisterAll(w', defs[1..]).0.error
            && forall d :: d in done + [defs[0]] ==> Ready(SpecOf(w', d.func), d, w.epoch)
  {
    hide Register, ValidDef, SpecOf;
    var d := defs[0];
    var (w', thrown) := Register(w, d);
    ReadyOrError(w, d);
    if w'.error {
      ErrorStays(w', defs[1..]);
    }
    forall e | e in done ensures Ready(SpecOf(w', e.func), e, w.epoch) {
      assert Ready(SpecOf(w, e.func), e, w.epoch);
      if e.func != d.func {
        OthersKept(w, d, e.func);
      }
    }
  }

  /** After a successful import every registration of its block has its own complete specification, each optional
      parameter a default; and each function was registered once. */
  lemma {:induction false} ImportReady(w: World, i: Import)
    requires forall d :: d in i.defs ==> ValidDef(d)
    requires RunImport(w, i).1
    ensures forall d :: d in i.defs ==> Ready(SpecOf(RunImport(w, i).0, d.func), d, w.epoch + 1)
    ensures forall j, k :: 0 <= j < k < |i.defs| ==> i.defs[j].func != i.defs[k].func
  {
    hide Ready, ValidDef, RegisterAll, AllMade;
    var w1 := w.(epoch := w.epoch + 1, error := false);
    assert i.defs + [] == i.defs;
    RegistrationsReady(w1, i.defs, []);
    BlockOutcome(w1, i.defs);
  }

  // --- the call ---

  /** The loop of `call_wrapper_kw` over the parsed objects, in place: false is the MemoryError of a null default. */
  method FillDefaults(objs: array<Option<Ref>>, defaults: seq<Option<Ref>>) returns (ok: bool)
    requires objs.Length == |defaults|
    modifies objs
    ensures ok <==> forall i :: 0 <= i < objs.Length ==> old(objs[i]) != None || defaults[i] != None
    ensures ok ==> forall i :: 0 <= i < objs.Length ==>
                     objs[i] == if old(objs[i]) != None then old(objs[i]) else defaults[i]
  {
    for i := 0 to objs.Length
      invariant forall j :: 0 <= j < i ==>
                objs[j] == (if old(objs[j]) != None then old(objs[j]) else defaults[j]) != None
      invariant forall j :: i <= j < objs.Length ==> objs[j] == old(objs[j])
    {
      if objs[i] == None {
        objs[i] := defaults[i];
      }
      if objs[i] == None {
        return false;
      }
    }
    return true;
  }

  /** A call that PyArg accepts, every required argument given, finds a value for every parameter once its import has
      succeeded: the MemoryError branch is never taken. */
  lemma {:induction false} CallsAreServed(w: World, i: Import, d: Def, given: seq<Option<Ref>>)
    requires (forall e :: e in i.defs ==> ValidDef(e)) && RunImport(w, i).1 && d in i.defs
    requires |given| == |d.args| && forall k :: 0 <= k < |given| && d.args[k].Required? ==> given[k] != None
    ensures var defaults := SpecOf(RunImport(w, i).0, d.func).defaults;
            |defaults| == |given| && forall k :: 0 <= k < |given| ==> given[k] != None || defaults[k] != None
  {
    hide RunImport, ValidDef;
    ImportReady(w, i);
  }
}
