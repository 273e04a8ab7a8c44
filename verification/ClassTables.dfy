/** The `class_` builder and its tables, for one wrapped type: include/sciforge/binding/class.hpp. */
module ClassTables {

  datatype Option<T> = None | Some(value: T)

  type Addr = nat
  type TypeId = nat

  /** A row of `class_methods` or `class_getsets`; Null is the all-null row that CPython stops at. */
  datatype Row = Entry(name: string) | Null

  /** A `std::vector`: where its buffer is, what it holds, and how often it has been written. */
  datatype Table = Table(addr: Addr, rows: seq<Row>, writes: nat)

  /** What `push_back` meets: room, a move of the buffer, or no memory. */
  datatype Growth = Fits | Moves(to: Addr) | Throws

  function Push(t: Table, row: Row, g: Growth): Option<Table> {
    match g
    case Fits => Some(Table(t.addr, t.rows + [row], t.writes + 1))
    case Moves(to) => Some(Table(to, t.rows + [row], t.writes + 1))
    case Throws => None
  }

  function Cleared(t: Table, at: Addr): Table {
    Table(at, [], t.writes + 1)
  }

  ghost predicate EndsNull(t: Table) {
    t.rows != [] && t.rows[|t.rows| - 1] == Null
  }

  /** The optional slots a builder has been given. */
  datatype Hooks = Hooks(repr: bool, richcompare: bool, hash: bool, init: bool)

  const NO_HOOKS := Hooks(false, false, false, false)

  datatype Slot = Dealloc | Methods(addr: Addr) | Getset(addr: Addr) | Repr | Richcompare | Hash | New | Init | End

  function When(b: bool, s: seq<Slot>): seq<Slot> {
    if b then s else []
  }

  function SlotsOf(h: Hooks, methods: Addr, getsets: Addr): seq<Slot> {
    [Dealloc, Methods(methods), Getset(getsets)]
    + When(h.repr, [Repr]) + When(h.richcompare, [Richcompare]) + When(h.hash, [Hash])
    + When(h.init, [New, Init]) + [End]
  }

  /** A heap type: the tables as they were when their addresses were captured, and who refers to it — the static
      `class_type`, module attributes, anything else. */
  datatype TypeObject = TypeObject(name: string, methods: Table, getsets: Table, slots: seq<Slot>, instantiable: bool,
                                   own: bool, modules: nat, others: nat)

  function Refs(t: TypeObject): nat {
    (if t.own then 1 else 0) + t.modules + t.others
  }

  /** The statics of the wrapped type, and every type object made from them so far. */
  datatype Statics = Statics(classType: Option<TypeId>, name: string, methods: Table, getsets: Table,
                             types: seq<TypeObject>)

  const EMPTY := Statics(None, "", Table(0, [], 0), Table(0, [], 0), [])

  datatype Builder = Builder(finished: bool, hooks: Hooks)

  /** What the calls made by `finish` answer: the two terminator rows, PyType_FromSpec, PyModule_AddObjectRef. */
  datatype Outcome = Outcome(methods: Growth, getsets: Growth, created: bool, added: bool)

  // --- the operations on the statics ---

  function Constructed(s: Statics, name: string, methodsAt: Addr, getsetsAt: Addr): Statics {
    if s.classType.Some? then s
    else s.(name := name, methods := Cleared(s.methods, methodsAt), getsets := Cleared(s.getsets, getsetsAt))
  }

  function WithMethod(s: Statics, name: string, g: Growth): Statics {
    if s.classType.Some? then s
    else match Push(s.methods, Entry(name), g) case Some(t) => s.(methods := t) case None => s
  }

  function WithProperty(s: Statics, name: string, g: Growth): Statics {
    if s.classType.Some? then s
    else match Push(s.getsets, Entry(name), g) case Some(t) => s.(getsets := t) case None => s
  }

  /** The two terminators; the second is not reached when the first throws. */
  function Terminated(s: Statics, o: Outcome): (Statics, bool) {
    match Push(s.methods, Null, o.methods)
    case None => (s, false)
    case Some(m) =>
      match Push(s.getsets, Null, o.getsets)
      case None => (s.(methods := m), false)
      case Some(g) => (s.(methods := m, getsets := g), true)
  }

  function MadeType(s: Statics, h: Hooks, added: bool): TypeObject {
    TypeObject(s.name, s.methods, s.getsets, SlotsOf(h, s.methods.addr, s.getsets.addr), h.init,
               added, if added then 1 else 0, 0)
  }

  function Registered(s: Statics, h: Hooks, added: bool): Statics {
    s.(types := s.types + [MadeType(s, h, added)], classType := if added then Some(|s.types|) else None)
  }

  function Referred(s: Statics, t: TypeId): Statics
    requires t < |s.types|
  {
    s.(types := s.types[t := s.types[t].(modules := s.types[t].modules + 1)])
  }

  function Finished(s: Statics, h: Hooks, o: Outcome): Statics {
    if s.classType.Some? then
      if o.added && s.classType.value < |s.types| then Referred(s, s.classType.value) else s
    else
      var (s', complete) := Terminated(s, o);
      if !complete || !o.created then s' else Registered(s', h, o.added)
  }

  // --- the source's objects ---

  /** The function-local statics of the wrapped type. */
  class PerType {
    var classType: Option<TypeId>
    var name: string
    var methods: Table
    var getsets: Table
    var types: seq<TypeObject>

    ghost function View(): Statics
      reads this
    {
      Statics(classType, name, methods, getsets, types)
    }

    constructor ()
      ensures View() == EMPTY
    {
      classType, name, methods, getsets, types := None, "", Table(0, [], 0), Table(0, [], 0), [];
    }
  }

  class ClassBuilder {
    const statics: PerType
    var finished: bool
    var repr: bool
    var richcompare: bool
    var hash: bool
    var init: bool

    ghost function View(): Builder
      reads this
    {
      Builder(finished, Hooks(repr, richcompare, hash, init))
    }

    constructor (statics: PerType, name: string, methodsAt: Addr, getsetsAt: Addr)
      modifies statics
      ensures this.statics == statics
      ensures statics.View() == Constructed(old(statics.View()), name, methodsAt, getsetsAt)
      ensures View() == Builder(false, NO_HOOKS)
    {
      this.statics := statics;
      finished, repr, richcompare, hash, init := false, false, false, false, false;
      new;
      if statics.classType.None? {
        statics.name := name;
        statics.methods := Cleared(statics.methods, methodsAt);
        statics.getsets := Cleared(statics.getsets, getsetsAt);
      }
    }

    /** `def` and `raw`; the flag is raised when `push_back` throws. */
    method Def(name: string, g: Growth) returns (thrown: bool)
      modifies statics
      ensures statics.View() == WithMethod(old(statics.View()), name, g)
      ensures thrown <==> g.Throws? && old(statics.classType).None?
    {
      if statics.classType.Some? {
        return false;
      }
      match Push(statics.methods, Entry(name), g) {
        case None => return true;
        case Some(t) => statics.methods := t;
      }
      return false;
    }

    method DefPropRo(name: string, g: Growth) returns (thrown: bool)
      modifies statics
      ensures statics.View() == WithProperty(old(statics.View()), name, g)
      ensures thrown <==> g.Throws? && old(statics.classType).None?
    {
      if statics.classType.Some? {
        return false;
      }
      match Push(statics.getsets, Entry(name), g) {
        case None => return true;
        case Some(t) => statics.getsets := t;
      }
      return false;
    }

    /** `def_repr`, `def_richcompare`, `def_hash` and the last line of `def_init`. */
    method Hook(h: Hooks)
      modifies this
      ensures View() == Hooked(old(View()), h, statics.classType)
    {
      if statics.classType.None? {
        repr, richcompare, hash, init := repr || h.repr, richcompare || h.richcompare, hash || h.hash, init || h.init;
      }
    }

    /** `finish`, which the destructor runs. */
    method Finish(o: Outcome)
      requires statics.classType.Some? ==> statics.classType.value < |statics.types|
      modifies this, statics
      ensures View() == old(View()).(finished := true)
      ensures statics.View() == if old(finished) then old(statics.View())
              else Finished(old(statics.View()), View().hooks, o)
    {
      if finished {
        return;
      }
      finished := true;
      if statics.classType.Some? {
        if o.added {
          var t := statics.classType.value;
          statics.types := statics.types[t := statics.types[t].(modules := statics.types[t].modules + 1)];
        }
        return;
      }
      var complete := PushTerminators(o);
      if !complete {
        return;
      }
      var slots := FillSlots();
      if !o.created {
        return;
      }
      Register(slots, o.added);
    }

    /** The two all-null rows; false when a `push_back` throws. */
    method PushTerminators(o: Outcome) returns (complete: bool)
      modifies statics
      ensures (statics.View(), complete) == Terminated(old(statics.View()), o)
    {
      match Push(statics.methods, Null, o.methods) {
        case None => return false;
        case Some(m) => statics.methods := m;
      }
      match Push(statics.getsets, Null, o.getsets) {
        case None => return false;
        case Some(g) => statics.getsets := g;
      }
      return true;
    }

    method FillSlots() returns (slots: seq<Slot>)
      ensures slots == SlotsOf(View().hooks, statics.methods.addr, statics.getsets.addr)
    {
      slots := [Dealloc, Methods(statics.methods.addr), Getset(statics.getsets.addr)];
      ghost var s := slots;
      if repr { slots := slots + [Repr]; }
      assert slots == s + When(repr, [Repr]);
      s := slots;
      if richcompare { slots := slots + [Richcompare]; }
      assert slots == s + When(richcompare, [Richcompare]);
      s := slots;
      if hash { slots := slots + [Hash]; }
      assert slots == s + When(hash, [Hash]);
      s := slots;
      if init { slots := slots + [New, Init]; }
      assert slots == s + When(init, [New, Init]);
      slots := slots + [End];
    }

    /** The type is stored in `class_type`, then added to the module; a failed add clears it again. */
    method Register(slots: seq<Slot>, added: bool)
      requires slots == SlotsOf(View().hooks, statics.methods.addr, statics.getsets.addr)
      modifies statics
      ensures statics.View() == Registered(old(statics.View()), View().hooks, added)
    {
      var t := TypeObject(statics.name, statics.methods, statics.getsets, slots, init, true, 0, 0);
      statics.classType := Some(|statics.types|);
      if !added {
        t := t.(own := false);
        statics.classType := None;
      } else {
        t := t.(modules := 1);
      }
      statics.types := statics.types + [t];
    }
  }

  // --- every run of any number of builders ---

  function Hooked(b: Builder, h: Hooks, classType: Option<TypeId>): Builder {
    if classType.Some? then b
    else b.(hooks := Hooks(b.hooks.repr || h.repr, b.hooks.richcompare || h.richcompare,
                           b.hooks.hash || h.hash, b.hooks.init || h.init))
  }

  type BuilderId = nat

  datatype State = State(statics: Statics, builders: map<BuilderId, Builder>)

  const START := State(EMPTY, map[])

  /** Builder calls, and what the interpreter does with the references to a type. */
  datatype Event =
    | Construct(b: BuilderId, name: string, methodsAt: Addr, getsetsAt: Addr)
    | Def(b: BuilderId, method_: string, g: Growth)
    | DefPropRo(b: BuilderId, property: string, g: Growth)
    | Hook(b: BuilderId, hooks: Hooks)
    | Finish(b: BuilderId, o: Outcome)
    | ModuleGone(t: TypeId)
    | Take(t: TypeId)
    | Drop(t: TypeId)

  predicate Open(s: State, b: BuilderId) {
    b in s.builders && !s.builders[b].finished
  }

  /** Whether an event can happen: builders are used between construction and `finish`, references given back are
      held, and only a live type can be referred to. */
  predicate Enabled(s: State, e: Event) {
    match e
    case Construct(b, _, _, _) => b !in s.builders
    case Def(b, _, _) => Open(s, b)
    case DefPropRo(b, _, _) => Open(s, b)
    case Hook(b, _) => Open(s, b)
    case Finish(b, _) => Open(s, b)
    case ModuleGone(t) => t < |s.statics.types| && s.statics.types[t].modules > 0
    case Take(t) => t < |s.statics.types| && Refs(s.statics.types[t]) > 0
    case Drop(t) => t < |s.statics.types| && s.statics.types[t].others > 0
  }

  function Step(s: State, e: Event): State
    requires Enabled(s, e)
  {
    match e
    case Construct(b, name, m, g) => State(Constructed(s.statics, name, m, g),
        s.builders[b := Builder(false, NO_HOOKS)])
    case Def(b, name, g) => s.(statics := WithMethod(s.statics, name, g))
    case DefPropRo(b, name, g) => s.(statics := WithProperty(s.statics, name, g))
    case Hook(b, h) => s.(builders := s.builders[b := Hooked(s.builders[b], h, s.statics.classType)])
    case Finish(b, o) => State(Finished(s.statics, s.builders[b].hooks, o),
        s.builders[b := s.builders[b].(finished := true)])
    case ModuleGone(t) => s.(statics := Rereferenced(s.statics, t, -1, 0))
    case Take(t) => s.(statics := Rereferenced(s.statics, t, 0, 1))
    case Drop(t) => s.(statics := Rereferenced(s.statics, t, 0, -1))
  }

  function Rereferenced(s: Statics, t: TypeId, modules: int, others: int): Statics
    requires t < |s.types| && s.types[t].modules + modules >= 0 && s.types[t].others + others >= 0
  {
    var old_ := s.types[t];
    s.(types := s.types[t := old_.(modules := old_.modules + modules, others := old_.others + others)])
  }

  ghost predicate CanRun(s: State, events: seq<Event>)
    decreases |events|
  {
    events != [] ==> Enabled(s, events[0]) && CanRun(Step(s, events[0]), events[1..])
  }

  function Run(s: State, events: seq<Event>): State
    requires CanRun(s, events)
    decreases |events|
  {
    if events == [] then s else Run(Step(s, events[0]), events[1..])
  }

  predicate Live(s: State, t: TypeId) {
    t < |s.statics.types| && Refs(s.statics.types[t]) > 0
  }

  // --- what every step keeps ---

  /** The slots of a type are those of some hooks, and lead to its own tables. */
  ghost predicate SlotsFit(t: TypeObject) {
    exists h :: SlotsGiven(t, h)
  }

  ghost predicate SlotsGiven(t: TypeObject, h: Hooks) {
    t.slots == SlotsOf(h, t.methods.addr, t.getsets.addr) && t.instantiable == h.init
  }

  ghost predicate AllSlotsFit(s: Statics) {
    forall t: TypeId :: t < |s.types| ==> SlotsFit(s.types[t])
  }

  /** A live type is the registered one; the registered type keeps its own reference, and the tables are exactly
      what it captured. */
  ghost predicate Inv(s: Statics) {
    && AllSlotsFit(s)
    && (forall t: TypeId :: t < |s.types| && Refs(s.types[t]) > 0 ==> s.classType == Some(t))
    && (s.classType.Some? ==>
          && s.classType.value < |s.types| && s.types[s.classType.value].own
          && s.types[s.classType.value].methods == s.methods && s.types[s.classType.value].getsets == s.getsets
          && s.types[s.classType.value].name == s.name
          && EndsNull(s.methods) && EndsNull(s.getsets))
  }

  /** Only a type's reference counts change after it is made. */
  ghost predicate SameType(before: TypeObject, after: TypeObject) {
    && after.name == before.name && after.methods == before.methods && after.getsets == before.getsets
    && after.slots == before.slots && after.instantiable == before.instantiable
  }

  lemma {:induction false} SlotsStay(s: Statics, s': Statics)
    requires AllSlotsFit(s) && |s.types| <= |s'.types|
    requires forall t: TypeId :: t < |s.types| ==> SameType(s.types[t], s'.types[t])
    requires forall t: TypeId :: |s.types| <= t < |s'.types| ==> SlotsFit(s'.types[t])
    ensures AllSlotsFit(s')
  {
    hide SlotsOf;
    forall t: TypeId | t < |s.types| ensures SlotsFit(s'.types[t]) {
      assert SlotsFit(s.types[t]);
      var h :| SlotsGiven(s.types[t], h);
      assert SlotsGiven(s'.types[t], h);
    }
  }

  lemma {:induction false} MadeTypeFits(s: Statics, h: Hooks, added: bool)
    ensures SlotsFit(MadeType(s, h, added))
  {
    hide SlotsOf;
    assert SlotsGiven(MadeType(s, h, added), h);
  }

  lemma {:induction false} FinishedKeeps(s: Statics, h: Hooks, o: Outcome)
    requires Inv(s)
    ensures Inv(Finished(s, h, o))
  {
    hide SlotsOf, SlotsFit, AllSlotsFit;
    var s' := Finished(s, h, o);
    if s.classType.None? {
      MadeTypeFits(Terminated(s, o).0, h, o.added);
      assert forall t: TypeId :: t < |s.types| ==> s'.types[t] == s.types[t] && Refs(s'.types[t]) == 0;
    }
    SlotsStay(s, s');
  }

  lemma {:induction false} StepKeeps(s: State, e: Event)
    requires Inv(s.statics) && Enabled(s, e)
    ensures Inv(Step(s, e).statics)
  {
    hide Finished, AllSlotsFit, SlotsFit;
    if e.Finish? {
      FinishedKeeps(s.statics, s.builders[e.b].hooks, e.o);
    } else {
      SlotsStay(s.statics, Step(s, e).statics);
    }
  }

  lemma {:induction false} RunKeeps(s: State, events: seq<Event>)
    requires Inv(s.statics) && CanRun(s, events)
    ensures Inv(Run(s, events).statics)
    decreases |events|
  {
    hide Step, Enabled, Inv;
    if events != [] {
      StepKeeps(s, events[0]);
      RunKeeps(Step(s, events[0]), events[1..]);
    }
  }

  /** Over every run: a live type is the one registered type, and the tables stand at the addresses it captured,
      with the rows they had then, terminated. */
  lemma {:induction false} LiveTablesIntact(events: seq<Event>, t: TypeId)
    requires CanRun(START, events) && Live(Run(START, events), t)
    ensures var s := Run(START, events).statics;
            && s.classType == Some(t)
            && s.types[t].methods == s.methods && s.types[t].getsets == s.getsets && s.types[t].name == s.name
            && EndsNull(s.methods) && EndsNull(s.getsets)
            && (forall a :: Methods(a) in s.types[t].slots <==> a == s.methods.addr)
            && (forall a :: Getset(a) in s.types[t].slots <==> a == s.getsets.addr)
            && (Init in s.types[t].slots <==> s.types[t].instantiable)
  {
    hide SlotsOf;
    RunKeeps(START, events);
    var type_ := Run(START, events).statics.types[t];
    var h :| SlotsGiven(type_, h);
    SlotArrayFits(h, type_.methods.addr, type_.getsets.addr);
  }

  lemma {:induction false} StepCapture(s: State, e: Event, t: TypeId)
    requires Inv(s.statics) && Enabled(s, e) && t < |s.statics.types|
    ensures t < |Step(s, e).statics.types|
    ensures Step(s, e).statics.types[t].methods == s.statics.types[t].methods
    ensures Step(s, e).statics.types[t].getsets == s.statics.types[t].getsets
    ensures Live(Step(s, e), t) ==> Live(s, t)
  {
    hide SlotsOf;
  }

  /** Between the creation of a type and any later moment at which it is live, it has always been live and neither
      table has been written or moved: `writes` counts every change. */
  lemma {:induction false} UntouchedSinceCapture(s: State, events: seq<Event>, t: TypeId)
    requires Inv(s.statics) && CanRun(s, events)
    requires t < |s.statics.types| && Live(Run(s, events), t)
    ensures Live(s, t)
    ensures Run(s, events).statics.methods == s.statics.methods
    ensures Run(s, events).statics.getsets == s.statics.getsets
    decreases |events|
  {
    hide Step, Enabled;
    if events != [] {
      StepKeeps(s, events[0]);
      StepCapture(s, events[0], t);
      UntouchedSinceCapture(Step(s, events[0]), events[1..], t);
    }
  }

  /** `writes` only grows, and grows whenever rows or address change. */
  lemma {:induction false} WritesCount(s: State, e: Event)
    requires Enabled(s, e)
    ensures var s' := Step(s, e);
            && s'.statics.methods.writes >= s.statics.methods.writes
            && s'.statics.getsets.writes >= s.statics.getsets.writes
            && (s'.statics.methods.writes == s.statics.methods.writes ==> s'.statics.methods == s.statics.methods)
            && (s'.statics.getsets.writes == s.statics.getsets.writes ==> s'.statics.getsets == s.statics.getsets)
  {
    hide SlotsOf;
  }

  // --- a registered type stays ---

  lemma {:induction false} StepRegistered(s: State, e: Event)
    requires Inv(s.statics) && s.statics.classType.Some? && Enabled(s, e)
    ensures var s' := Step(s, e).statics;
            && s'.classType == s.statics.classType && |s'.types| == |s.statics.types|
            && s'.methods == s.statics.methods && s'.getsets == s.statics.getsets && s'.name == s.statics.name
  {
    hide SlotsOf, EndsNull;
  }

  /** Once a type is registered, no run unregisters it, changes its tables or makes another. */
  lemma {:induction false} RegisteredForever(s: State, events: seq<Event>)
    requires Inv(s.statics) && s.statics.classType.Some? && CanRun(s, events)
    ensures var s' := Run(s, events).statics;
            && s'.classType == s.statics.classType && |s'.types| == |s.statics.types|
            && s'.methods == s.statics.methods && s'.getsets == s.statics.getsets && s'.name == s.statics.name
    decreases |events|
  {
    hide Enabled, Step;
    if events != [] {
      StepKeeps(s, events[0]);
      StepRegistered(s, events[0]);
      RegisteredForever(Step(s, events[0]), events[1..]);
    }
  }

  /** A rolled-back module add leaves nothing registered, and the type it made is dead. */
  lemma {:induction false} RollbackDrops(s: Statics, h: Hooks, o: Outcome)
    requires Inv(s) && s.classType.None? && Terminated(s, o).1 && o.created && !o.added
    ensures var s' := Finished(s, h, o);
            && s'.classType == None && |s'.types| == |s.types| + 1
            && forall t: TypeId :: t < |s'.types| ==> Refs(s'.types[t]) == 0
  {
    hide SlotsOf;
    var s' := Finished(s, h, o);
    assert forall t: TypeId :: t < |s.types| ==> s'.types[t] == s.types[t];
  }

  // --- what a type is made of ---

  function One(b: bool): nat {
    if b then 1 else 0
  }

  /** The slot array of nine is never overrun, ends in its terminator and nowhere else, and holds the slots of the
      hooks that were given, the two tables', and no other: each once, as its length says. */
  lemma {:induction false} SlotArrayFits(h: Hooks, m: Addr, g: Addr)
    ensures var s := SlotsOf(h, m, g);
            && |s| <= 9 && (|s| == 9 <==> h == Hooks(true, true, true, true))
            && |s| == 4 + One(h.repr) + One(h.richcompare) + One(h.hash) + 2 * One(h.init)
            && (forall i :: 0 <= i < |s| ==> (s[i] == End <==> i == |s| - 1))
            && (forall a :: Methods(a) in s <==> a == m) && (forall a :: Getset(a) in s <==> a == g)
            && Dealloc in s && (Repr in s <==> h.repr) && (Richcompare in s <==> h.richcompare)
            && (Hash in s <==> h.hash) && (New in s <==> h.init) && (Init in s <==> h.init)
  {
    SlotEnd(h, m, g);
    SlotMembers(h, m, g);
  }

  lemma {:induction false} SlotEnd(h: Hooks, m: Addr, g: Addr)
    ensures var s := SlotsOf(h, m, g);
            && |s| == 4 + One(h.repr) + One(h.richcompare) + One(h.hash) + 2 * One(h.init)
            && (forall i :: 0 <= i < |s| ==> (s[i] == End <==> i == |s| - 1))
  {
  }

  lemma {:induction false} SlotMembers(h: Hooks, m: Addr, g: Addr)
    ensures forall x :: x in SlotsOf(h, m, g) <==>
              || x == Dealloc || x == Methods(m) || x == Getset(g) || x == End
              || (h.repr && x == Repr) || (h.richcompare && x == Richcompare) || (h.hash && x == Hash)
              || (h.init && (x == New || x == Init))
  {
    WhenMembers(h.repr, [Repr]);
    WhenMembers(h.richcompare, [Richcompare]);
    WhenMembers(h.hash, [Hash]);
    WhenMembers(h.init, [New, Init]);
  }

  lemma {:induction false} WhenMembers(b: bool, s: seq<Slot>)
    ensures forall x :: x in When(b, s) <==> b && x in s
  {
  }

  function Nulls(rows: seq<Row>): nat {
    if rows == [] then 0 else Nulls(rows[..|rows| - 1]) + (if rows[|rows| - 1] == Null then 1 else 0)
  }

  datatype Which = MethodTable | GetsetTable

  function RowsOf(s: Statics, which: Which): seq<Row> {
    if which.MethodTable? then s.methods.rows else s.getsets.rows
  }

  /** Whether a finish gets to push the table's terminator: the getset table's comes second. */
  predicate PushesNull(o: Outcome, which: Which) {
    !o.methods.Throws? && (which.GetsetTable? ==> !o.getsets.Throws?)
  }

  /** How many finishes have left a terminator in the table since it was last cleared, `n` to begin with. */
  ghost function Stale(s: State, events: seq<Event>, which: Which, n: nat): nat
    requires CanRun(s, events)
    decreases |events|
  {
    if events == [] then n else Stale(Step(s, events[0]), events[1..], which, StaleAfter(s, events[0], which, n))
  }

  ghost function StaleAfter(s: State, e: Event, which: Which, n: nat): nat
    requires Enabled(s, e)
  {
    if s.statics.classType.Some? then n
    else if e.Construct? then 0
    else if e.Finish? && PushesNull(e.o, which) && Step(s, e).statics.classType.None? then n + 1
    else n
  }

  lemma {:induction false} NullsPush(rows: seq<Row>, row: Row)
    ensures Nulls(rows + [row]) == Nulls(rows) + if row == Null then 1 else 0
  {
    assert (rows + [row])[..|rows|] == rows;
  }

  ghost predicate NullsAre(s: State, which: Which, n: nat) {
    Nulls(RowsOf(s.statics, which)) == n + if s.statics.classType.Some? then 1 else 0
  }

  /** The terminators in a table: those that failed finishes of other builders left since the table was last cleared,
      and the type's own. So a live type has an interior terminator exactly when that count is not zero. */
  lemma {:induction false} TerminatorsCounted(s: State, events: seq<Event>, which: Which, n: nat)
    requires CanRun(s, events) && NullsAre(s, which, n)
    ensures NullsAre(Run(s, events), which, Stale(s, events, which, n))
    decreases |events|
  {
    hide Step, Enabled, NullsAre, StaleAfter;
    if events != [] {
      TerminatorStep(s, events[0], which, n);
      TerminatorsCounted(Step(s, events[0]), events[1..], which, StaleAfter(s, events[0], which, n));
    }
  }

  lemma {:induction false} TerminatorStep(s: State, e: Event, which: Which, n: nat)
    requires Enabled(s, e) && NullsAre(s, which, n)
    ensures NullsAre(Step(s, e), which, StaleAfter(s, e, which, n))
  {
    hide SlotsOf, Nulls, Finished;
    var rows := RowsOf(s.statics, which);
    assert Nulls([]) == 0 by { NoNulls(); }
    match e {
      case Def(_, name, _) => NullsPush(rows, Entry(name));
      case DefPropRo(_, name, _) => NullsPush(rows, Entry(name));
      case Finish(b, o) =>
        NullsPush(rows, Null);
        FinishedRows(s.statics, s.builders[b].hooks, o, which);
      case _ =>
    }
  }

  lemma {:induction false} NoNulls()
    ensures Nulls([]) == 0
  {
  }

  lemma {:induction false} FinishedRows(s: Statics, h: Hooks, o: Outcome, which: Which)
    ensures var s', rows := Finished(s, h, o), RowsOf(s, which);
            && (s.classType.Some? ==> s'.classType == s.classType && RowsOf(s', which) == rows)
            && (s.classType.None? ==> RowsOf(s', which) == if PushesNull(o, which) then rows + [Null] else rows)
            && (!PushesNull(o, which) ==> s'.classType == s.classType)
  {
    hide SlotsOf;
  }

  /** Two builders at once, of which the first fails to create its type, do leave a live type with a terminator in
      front of its only method. */
  lemma {:induction false} OverlapHidesMethods(name: string)
    ensures var ok, failed := Outcome(Fits, Fits, true, true), Outcome(Fits, Fits, false, false);
            var events := [Construct(0, name, 0, 0), Construct(1, name, 0, 0), Finish(0, failed), Def(1, "area", Fits),
                Finish(1, ok)];
            && CanRun(START, events) && Live(Run(START, events), 0)
            && Run(START, events).statics.methods.rows == [Null, Entry("area"), Null]
  {
    hide SlotsOf;
    var ok, failed := Outcome(Fits, Fits, true, true), Outcome(Fits, Fits, false, false);
    var e1, e2, e3, e4, e5 := Construct(0, name, 0, 0), Construct(1, name, 0, 0), Finish(0, failed),
        Def(1, "area", Fits), Finish(1, ok);
    var s1 := Step(START, e1);
    var s2 := Step(s1, e2);
    var s3 := Step(s2, e3);
    var s4 := Step(s3, e4);
    var s5 := Step(s4, e5);
    Five(START, e1, e2, e3, e4, e5);
    assert s5.statics.methods.rows == [Null, Entry("area"), Null];
  }

  lemma {:induction false} Five(s: State, e1: Event, e2: Event, e3: Event, e4: Event, e5: Event)
    requires Enabled(s, e1) && Enabled(Step(s, e1), e2) && Enabled(Step(Step(s, e1), e2), e3)
    requires Enabled(Step(Step(Step(s, e1), e2), e3), e4) && Enabled(Step(Step(Step(Step(s, e1), e2), e3), e4), e5)
    ensures CanRun(s, [e1, e2, e3, e4, e5])
    ensures Run(s, [e1, e2, e3, e4, e5]) == Step(Step(Step(Step(Step(s, e1), e2), e3), e4), e5)
  {
    hide Step, Enabled;
    var s1 := Step(s, e1);
    var s2 := Step(s1, e2);
    var s3 := Step(s2, e3);
    var s4 := Step(s3, e4);
    RunOne(s4, e5);
    RunCons(s3, e4, [e5]);
    RunCons(s2, e3, [e4, e5]);
    RunCons(s1, e2, [e3, e4, e5]);
    RunCons(s, e1, [e2, e3, e4, e5]);
    assert [e4] + [e5] == [e4, e5] && [e3] + [e4, e5] == [e3, e4, e5];
    assert [e2] + [e3, e4, e5] == [e2, e3, e4, e5] && [e1] + [e2, e3, e4, e5] == [e1, e2, e3, e4, e5];
  }

  lemma {:induction false} RunOne(s: State, e: Event)
    requires Enabled(s, e)
    ensures CanRun(s, [e]) && Run(s, [e]) == Step(s, e)
  {
    hide Step, Enabled;
    assert [e][1..] == [];
    assert CanRun(Step(s, e), []) && Run(Step(s, e), []) == Step(s, e);
  }

  lemma {:induction false} RunCons(s: State, e: Event, rest: seq<Event>)
    requires Enabled(s, e) && CanRun(Step(s, e), rest)
    ensures CanRun(s, [e] + rest) && Run(s, [e] + rest) == Run(Step(s, e), rest)
  {
    hide Step, Enabled;
    assert ([e] + rest)[0] == e && ([e] + rest)[1..] == rest;
  }

  // --- whose references ---

  /** The finishes that put the type in a module, less the modules gone. */
  ghost function InModules(s: State, events: seq<Event>, t: TypeId): int
    requires CanRun(s, events)
    decreases |events|
  {
    if events == [] then 0
    else
      (if Adds(s, events[0], t) then 1 else if events[0] == ModuleGone(t) then -1 else 0)
      + InModules(Step(s, events[0]), events[1..], t)
  }

  /** The event is a finish that answers for type `t`, new or registered, and its add succeeds. */
  ghost predicate Adds(s: State, e: Event, t: TypeId) {
    && e.Finish? && e.o.added && e.b in s.builders
    && if s.statics.classType.Some? then s.statics.classType == Some(t)
       else t == |s.statics.types| && e.o.created && !e.o.methods.Throws? && !e.o.getsets.Throws?
  }

  function ModulesOf(s: State, t: TypeId): nat {
    if t < |s.statics.types| then s.statics.types[t].modules else 0
  }

  lemma {:induction false} StepModules(s: State, e: Event, t: TypeId)
    requires Inv(s.statics) && Enabled(s, e)
    ensures ModulesOf(Step(s, e), t)
            == ModulesOf(s, t) + if Adds(s, e, t) then 1 else if e == ModuleGone(t) then -1 else 0
  {
    hide SlotsOf;
  }

  /** Over every run a type has one reference for each module it was put in and that is still there. */
  lemma {:induction false} ModulesCounted(s: State, events: seq<Event>, t: TypeId)
    requires Inv(s.statics) && CanRun(s, events)
    ensures ModulesOf(Run(s, events), t) == ModulesOf(s, t) + InModules(s, events, t)
    decreases |events|
  {
    hide Step, Enabled, Adds, ModulesOf, Inv;
    if events != [] {
      StepKeeps(s, events[0]);
      StepModules(s, events[0], t);
      ModulesCounted(Step(s, events[0]), events[1..], t);
    }
  }

  /** What one event does to the references to a type: a finish that makes and adds it gives it two, its own and the
      module's; every other finish that adds it one. */
  ghost function RefsChange(s: State, e: Event, t: TypeId): int {
    (if Adds(s, e, t) then 1 + One(s.statics.classType.None?) else 0)
    + (if e == Take(t) then 1 else if e == Drop(t) || e == ModuleGone(t) then -1 else 0)
  }

  ghost function RefsChanges(s: State, events: seq<Event>, t: TypeId): int
    requires CanRun(s, events)
    decreases |events|
  {
    if events == [] then 0 else RefsChange(s, events[0], t) + RefsChanges(Step(s, events[0]), events[1..], t)
  }

  function RefsOf(s: State, t: TypeId): nat {
    if t < |s.statics.types| then Refs(s.statics.types[t]) else 0
  }

  lemma {:induction false} StepRefs(s: State, e: Event, t: TypeId)
    requires Inv(s.statics) && Enabled(s, e)
    ensures RefsOf(Step(s, e), t) == RefsOf(s, t) + RefsChange(s, e, t)
  {
    hide SlotsOf, SlotsFit, AllSlotsFit;
  }

  /** Over every run the references to a type balance. */
  lemma {:induction false} RefsCounted(s: State, events: seq<Event>, t: TypeId)
    requires Inv(s.statics) && CanRun(s, events)
    ensures RefsOf(Run(s, events), t) == RefsOf(s, t) + RefsChanges(s, events, t)
    decreases |events|
  {
    hide Step, Enabled, RefsChange, RefsOf, Inv;
    if events != [] {
      StepKeeps(s, events[0]);
      StepRefs(s, events[0], t);
      RefsCounted(Step(s, events[0]), events[1..], t);
    }
  }

  // --- one builder from construction to finish ---

  /** A link of the chain: a method, a property, or hooks. */
  datatype Item = Method(name: string, g: Growth) | Property(name: string, g: Growth) | Gives(hooks: Hooks)

  predicate ThrowsAt(i: Item) {
    !i.Gives? && i.g.Throws?
  }

  function EventOf(b: BuilderId, i: Item): Event {
    match i
    case Method(name, g) => Def(b, name, g)
    case Property(name, g) => DefPropRo(b, name, g)
    case Gives(hooks) => Hook(b, hooks)
  }

  function Links(b: BuilderId, items: seq<Item>): (r: seq<Event>)
    ensures |r| == |items| && forall i :: 0 <= i < |items| ==> r[i] == EventOf(b, items[i])
  {
    seq(|items|, i requires 0 <= i < |items| => EventOf(b, items[i]))
  }

  /** The links that a chained statement gets to: none follows one whose `push_back` throws. */
  function Reached(items: seq<Item>): seq<Item> {
    if items == [] then [] else [items[0]] + if ThrowsAt(items[0]) then [] else Reached(items[1..])
  }

  /** The index of the first link that throws, or their number. */
  function FirstThrow(items: seq<Item>): (k: nat)
    ensures k <= |items| && (k < |items| ==> ThrowsAt(items[k]))
    ensures forall i :: 0 <= i < k ==> !ThrowsAt(items[i])
  {
    if items == [] || ThrowsAt(items[0]) then 0 else 1 + FirstThrow(items[1..])
  }

  /** The links before the first that throws. */
  function Kept(items: seq<Item>): (r: seq<Item>)
    ensures r == items[..FirstThrow(items)]
  {
    if items == [] || ThrowsAt(items[0]) then [] else [items[0]] + Kept(items[1..])
  }

  function MethodRows(items: seq<Item>): seq<Row> {
    if items == [] then []
    else (if items[0].Method? then [Entry(items[0].name)] else []) + MethodRows(items[1..])
  }

  function PropertyRows(items: seq<Item>): seq<Row> {
    if items == [] then []
    else (if items[0].Property? then [Entry(items[0].name)] else []) + PropertyRows(items[1..])
  }

  function Either(a: Hooks, b: Hooks): Hooks {
    Hooks(a.repr || b.repr, a.richcompare || b.richcompare, a.hash || b.hash, a.init || b.init)
  }

  function HooksGiven(items: seq<Item>): Hooks {
    if items == [] then NO_HOOKS
    else Either(if items[0].Gives? then items[0].hooks else NO_HOOKS, HooksGiven(items[1..]))
  }

  /** What the chain leaves: the rows and the hooks of its links, and all else unchanged. */
  ghost predicate Chained(s: State, s': State, b: BuilderId, items: seq<Item>)
    requires b in s.builders
  {
    && b in s'.builders
    && s' == State(s.statics.(methods := s'.statics.methods, getsets := s'.statics.getsets),
                   s.builders[b := s.builders[b].(hooks := s'.builders[b].hooks)])
    && s'.statics.methods.rows == s.statics.methods.rows + MethodRows(items)
    && s'.statics.getsets.rows == s.statics.getsets.rows + PropertyRows(items)
    && s'.builders[b].hooks == Either(s.builders[b].hooks, HooksGiven(items))
  }

  lemma {:induction false} LinksRun(s: State, b: BuilderId, items: seq<Item>)
    requires s.statics.classType.None? && Open(s, b)
    ensures CanRun(s, Links(b, Reached(items)))
    ensures Chained(s, Run(s, Links(b, Reached(items))), b, Kept(items))
    decreases |items|
  {
    hide Enabled, Step, Chained;
    if items == [] {
      ChainedNothing(s, b);
    } else {
      var e := EventOf(b, items[0]);
      LinkStep(s, b, items[0]);
      if ThrowsAt(items[0]) {
        assert Links(b, Reached(items)) == [e];
        RunOne(s, e);
      } else {
        assert Links(b, Reached(items)) == [e] + Links(b, Reached(items[1..]));
        LinksRun(Step(s, e), b, items[1..]);
        RunCons(s, e, Links(b, Reached(items[1..])));
        ChainedNext(s, Step(s, e), Run(s, Links(b, Reached(items))), b, items[0], Kept(items[1..]));
      }
    }
  }

  lemma {:induction false} ChainedNothing(s: State, b: BuilderId)
    requires b in s.builders
    ensures Chained(s, s, b, [])
  {
    assert s.builders == s.builders[b := s.builders[b].(hooks := s.builders[b].hooks)];
  }

  lemma {:induction false} LinkStep(s: State, b: BuilderId, i: Item)
    requires s.statics.classType.None? && Open(s, b)
    ensures var e := EventOf(b, i);
            && Enabled(s, e) && Open(Step(s, e), b) && Step(s, e).statics.classType.None?
            && Chained(s, Step(s, e), b, if ThrowsAt(i) then [] else [i])
  {
    var s' := Step(s, EventOf(b, i));
    assert s'.builders == s.builders[b := s.builders[b].(hooks := s'.builders[b].hooks)];
    assert [i][1..] == [];
  }

  lemma {:induction false} RowsFront(i: Item, rest: seq<Item>)
    ensures MethodRows([i] + rest) == (if i.Method? then [Entry(i.name)] else []) + MethodRows(rest)
    ensures PropertyRows([i] + rest) == (if i.Property? then [Entry(i.name)] else []) + PropertyRows(rest)
    ensures HooksGiven([i] + rest) == Either(if i.Gives? then i.hooks else NO_HOOKS, HooksGiven(rest))
    ensures MethodRows([]) == [] && PropertyRows([]) == [] && HooksGiven([]) == NO_HOOKS
  {
    assert ([i] + rest)[1..] == rest;
  }

  lemma {:induction false} ChainedNext(s: State, s1: State, s2: State, b: BuilderId, i: Item, rest: seq<Item>)
    requires b in s.builders && Chained(s, s1, b, [i]) && Chained(s1, s2, b, rest)
    ensures Chained(s, s2, b, [i] + rest)
  {
    hide MethodRows, PropertyRows, HooksGiven;
    RowsFront(i, rest);
    RowsFront(i, []);
    assert [i] + [] == [i];
    assert s1.statics.methods.rows + MethodRows(rest) == s.statics.methods.rows + MethodRows([i] + rest);
    assert s1.statics.getsets.rows + PropertyRows(rest) == s.statics.getsets.rows + PropertyRows([i] + rest);
  }

  lemma {:induction false} RunAppend(s: State, e1: seq<Event>, e2: seq<Event>)
    requires CanRun(s, e1) && CanRun(Run(s, e1), e2)
    ensures CanRun(s, e1 + e2) && Run(s, e1 + e2) == Run(Run(s, e1), e2)
    decreases |e1|
  {
    hide Step, Enabled;
    if e1 == [] {
      assert e1 + e2 == e2;
    } else {
      assert (e1 + e2)[0] == e1[0] && (e1 + e2)[1..] == e1[1..] + e2;
      RunAppend(Step(s, e1[0]), e1[1..], e2);
    }
  }

  /** The events of one chained statement that builds a type. An exception leaves the chain, and the destructor runs
      `finish` all the same. */
  function Statement(b: BuilderId, name: string, m: Addr, g: Addr, items: seq<Item>, o: Outcome): seq<Event> {
    [Construct(b, name, m, g)] + Links(b, Reached(items)) + [Finish(b, o)]
  }

  /** The type as the links ask for it: its name, its methods and its properties in order with one terminator each, the
      slots of its hooks, and constructible exactly if they set `tp_init`. */
  ghost predicate BuiltAs(t: TypeObject, name: string, items: seq<Item>) {
    && t.name == name
    && t.methods.rows == MethodRows(items) + [Null] && t.getsets.rows == PropertyRows(items) + [Null]
    && SlotsGiven(t, HooksGiven(items))
  }

  /** Whatever earlier builders left, one statement makes the type of its links up to the first whose `push_back`
      threw, and registers it with a reference of its own and one of the module's. */
  lemma {:induction false} OneBuilder(s: State, b: BuilderId, name: string, m: Addr, g: Addr, items: seq<Item>,
                                      o: Outcome)
    requires s.statics.classType.None? && b !in s.builders
    requires !o.methods.Throws? && !o.getsets.Throws? && o.created && o.added
    ensures var events := Statement(b, name, m, g, items, o);
            && CanRun(s, events)
            && var s' := Run(s, events).statics;
               && s'.classType == Some(|s.statics.types|) && |s'.types| == |s.statics.types| + 1
               && var t := s'.types[|s.statics.types|];
                  && BuiltAs(t, name, Kept(items)) && t.own && t.modules == 1 && t.others == 0
                  && t.methods == s'.methods && t.getsets == s'.getsets
  {
    hide SlotsOf, Step, Enabled, MethodRows, PropertyRows, HooksGiven;
    var construct, links, finish := Construct(b, name, m, g), Links(b, Reached(items)), Finish(b, o);
    ConstructStep(s, b, name, m, g);
    var s1 := Step(s, construct);
    RunOne(s, construct);
    LinksRun(s1, b, items);
    RunAppend(s, [construct], links);
    var s2 := Run(s1, links);
    FinishStep(s2, b, o);
    RunOne(s2, finish);
    RunAppend(s, [construct] + links, [finish]);
    EitherNone(HooksGiven(Kept(items)));
    assert [] + MethodRows(Kept(items)) == MethodRows(Kept(items));
    assert [] + PropertyRows(Kept(items)) == PropertyRows(Kept(items));
  }

  lemma {:induction false} EitherNone(h: Hooks)
    ensures Either(NO_HOOKS, h) == h
  {
  }

  lemma {:induction false} ConstructStep(s: State, b: BuilderId, name: string, m: Addr, g: Addr)
    requires s.statics.classType.None? && b !in s.builders
    ensures var e := Construct(b, name, m, g);
            && Enabled(s, e) && Open(Step(s, e), b) && Step(s, e).builders[b] == Builder(false, NO_HOOKS)
            && var s' := Step(s, e).statics;
               && s'.classType.None? && s'.name == name && s'.types == s.statics.types
               && s'.methods.rows == [] && s'.getsets.rows == []
  {
  }

  lemma {:induction false} FinishStep(s: State, b: BuilderId, o: Outcome)
    requires s.statics.classType.None? && Open(s, b)
    requires !o.methods.Throws? && !o.getsets.Throws? && o.created && o.added
    ensures Enabled(s, Finish(b, o))
    ensures var s', h := Step(s, Finish(b, o)).statics, s.builders[b].hooks;
            && s'.classType == Some(|s.statics.types|) && |s'.types| == |s.statics.types| + 1
            && s'.methods.rows == s.statics.methods.rows + [Null]
            && s'.getsets.rows == s.statics.getsets.rows + [Null]
            && var t := s'.types[|s.statics.types|];
               && t.name == s.statics.name && t.methods == s'.methods && t.getsets == s'.getsets
               && SlotsGiven(t, h) && t.own && t.modules == 1 && t.others == 0
  {
    hide SlotsOf;
  }

  lemma {:induction false} StepKeepsType(s: State, e: Event, t: TypeId)
    requires Enabled(s, e) && t < |s.statics.types|
    ensures t < |Step(s, e).statics.types|
    ensures SameType(s.statics.types[t], Step(s, e).statics.types[t])
  {
    hide SlotsOf;
  }

  lemma {:induction false} RunKeepsType(s: State, events: seq<Event>, t: TypeId, name: string, items: seq<Item>)
    requires CanRun(s, events) && t < |s.statics.types| && BuiltAs(s.statics.types[t], name, items)
    ensures t < |Run(s, events).statics.types| && BuiltAs(Run(s, events).statics.types[t], name, items)
    decreases |events|
  {
    hide Step, Enabled, SlotsOf, MethodRows, PropertyRows, HooksGiven;
    if events != [] {
      StepKeepsType(s, events[0], t);
      RunKeepsType(Step(s, events[0]), events[1..], t, name, items);
    }
  }

  /** A link whose `push_back` threw, which fails that import, is missing from the type that every later import
      presents, and so is every link after it, hooks included: the later registrations are inert. */
  lemma {:induction false} FailedDefSticks(s: State, b: BuilderId, name: string, m: Addr, g: Addr, items: seq<Item>,
                                           o: Outcome, later: seq<Event>)
    requires s.statics.classType.None? && b !in s.builders && Inv(s.statics)
    requires !o.methods.Throws? && !o.getsets.Throws? && o.created && o.added
    requires var events := Statement(b, name, m, g, items, o);
             CanRun(s, events) && CanRun(Run(s, events), later)
    ensures var s', t := Run(Run(s, Statement(b, name, m, g, items, o)), later).statics, |s.statics.types|;
            && s'.classType == Some(t) && t < |s'.types|
            && BuiltAs(s'.types[t], name, items[..FirstThrow(items)])
  {
    hide BuiltAs;
    var events := Statement(b, name, m, g, items, o);
    OneBuilder(s, b, name, m, g, items, o);
    RunKeeps(s, events);
    RegisteredForever(Run(s, events), later);
    RunKeepsType(Run(s, events), later, |s.statics.types|, name, Kept(items));
  }
}
