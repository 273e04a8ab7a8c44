/** The gate lock and its verdict: tools/run-gate.sh. Any number of gates run in one build directory, each a process
    that may die between any two steps. Process ids are not reused. */
module Gate {

  datatype Option<T> = None | Some(value: T)

  type Pid = nat

  /** `.gate.lock`: the directory, and the pid file in it once it is written. */
  datatype Lock = Free | Held(pid: Option<Pid>)

  type Files = map<string, string>

  /** A work tree: its commit and the contents that the commit, the index and the working copy give each path. */
  datatype Tree = Tree(commit: string, head: Files, index: Files, work: Files)

  /** A letter of the porcelain status; an untracked file is one added to the working copy. */
  datatype Letter = Same | Added | Deleted | Modified

  function Compared(a: Files, b: Files, p: string): Letter {
    if p !in a then if p in b then Added else Same
    else if p !in b then Deleted
    else if a[p] == b[p] then Same
    else Modified
  }

  /** What `snapshot` prints: HEAD, and the two letters of each path that has one. */
  datatype Print = Print(commit: string, lines: map<string, (Letter, Letter)>)

  function Letters(t: Tree, p: string): (Letter, Letter) {
    (Compared(t.head, t.index, p), Compared(t.index, t.work, p))
  }

  function Printed(t: Tree): Print {
    Print(t.commit,
          map p | p in t.head.Keys + t.index.Keys + t.work.Keys && Letters(t, p) != (Same, Same) :: Letters(t, p))
  }

  /** One step as it went: its target, whether `make` succeeded, and the tree it saw. */
  datatype Ran = Ran(step: string, passed: bool, seen: Tree)

  /** Where a gate is in its script. Contending: its `mkdir` failed. Reclaiming: it has found the holder gone.
      Removed: it has removed that lock. Made: its lock directory exists, without a pid. Recorded: with its pid.
      Armed: its trap is set. Running: it has its first snapshot. */
  datatype Phase =
    | Start | Contending | Reclaiming | Removed
    | Made | Recorded | Armed | Running(before: Print, log: seq<Ran>)
    | Refused | Judged(code: nat, before: Print, log: seq<Ran>, after: Print) | Dead

  datatype Gate = Gate(steps: seq<string>, phase: Phase)

  datatype State = State(lock: Lock, gates: map<Pid, Gate>, tree: Tree)

  datatype Event =
    | Launch(g: Pid, steps: seq<string>)
    | Mkdir(g: Pid)
    | Look(g: Pid)
    | Remove(g: Pid)
    | Record(g: Pid)
    | Arm(g: Pid)
    | Snapshot(g: Pid)
    | Make(g: Pid, passed: bool)
    | Finish(g: Pid)
    | Die(g: Pid)
    | Signal(g: Pid)
    | Change(tree: Tree)

  predicate Live(p: Phase) {
    !p.Refused? && !p.Judged? && !p.Dead?
  }

  /** Past acquisition and not yet gone. */
  predicate Inside(p: Phase) {
    p.Made? || p.Recorded? || p.Armed? || p.Running?
  }

  predicate Is(s: State, g: Pid, p: Phase) {
    g in s.gates && s.gates[g].phase == p
  }

  /** The answer of `kill -0`. */
  predicate Alive(s: State, g: Pid) {
    g in s.gates && Live(s.gates[g].phase)
  }

  predicate Holds(s: State, g: Pid) {
    g in s.gates && Inside(s.gates[g].phase)
  }

  predicate AllPassed(log: seq<Ran>) {
    forall i :: 0 <= i < |log| ==> log[i].passed
  }

  /** The steps that have run are the first ones, and all but the last passed. */
  predicate InOrder(steps: seq<string>, log: seq<Ran>) {
    && |log| <= |steps|
    && (forall i :: 0 <= i < |log| ==> log[i].step == steps[i])
    && (forall i :: 0 <= i < |log| - 1 ==> log[i].passed)
  }

  /** The exit status at the end of the script. */
  function Verdict(passes: seq<bool>, before: Print, after: Print): nat {
    if after != before then 1 else if passes != [] && !passes[|passes| - 1] then 1 else 0
  }

  function Passes(log: seq<Ran>): (r: seq<bool>)
    ensures |r| == |log| && forall i :: 0 <= i < |r| ==> r[i] == log[i].passed
  {
    seq(|log|, i requires 0 <= i < |log| => log[i].passed)
  }

  predicate MayRun(steps: seq<string>, log: seq<Ran>) {
    |log| < |steps| && (log == [] || log[|log| - 1].passed)
  }

  predicate Enabled(s: State, e: Event) {
    match e
    case Launch(g, steps) => g !in s.gates && steps != []
    case Mkdir(g) => Is(s, g, Start) || Is(s, g, Removed)
    case Look(g) => Is(s, g, Contending)
    case Remove(g) => Is(s, g, Reclaiming)
    case Record(g) => Is(s, g, Made)
    case Arm(g) => Is(s, g, Recorded)
    case Snapshot(g) => Is(s, g, Armed)
    case Make(g, _) => g in s.gates && s.gates[g].phase.Running? && MayRun(s.gates[g].steps, s.gates[g].phase.log)
    case Finish(g) => g in s.gates && s.gates[g].phase.Running? && !MayRun(s.gates[g].steps, s.gates[g].phase.log)
    case Die(g) => Alive(s, g)
    case Signal(g) => g in s.gates && (s.gates[g].phase.Armed? || s.gates[g].phase.Running?)
    case Change(_) => true
  }

  function To(s: State, g: Pid, p: Phase): State
    requires g in s.gates
  {
    s.(gates := s.gates[g := s.gates[g].(phase := p)])
  }

  predicate HolderGone(s: State) {
    s.lock.Held? && s.lock.pid.Some? && !Alive(s, s.lock.pid.value)
  }

  /** One step. The signal trap removes the lock and the script goes on. */
  function Step(s: State, e: Event): State
    requires Enabled(s, e)
  {
    match e
    case Launch(g, steps) => s.(gates := s.gates[g := Gate(steps, Start)])
    case Mkdir(g) =>
      if s.lock.Free? then To(s, g, Made).(lock := Held(None))
      else To(s, g, if s.gates[g].phase.Start? then Contending else Refused)
    case Look(g) => To(s, g, if HolderGone(s) then Reclaiming else Refused)
    case Remove(g) => To(s, g, Removed).(lock := Free)
    case Record(g) => To(s, g, Recorded).(lock := if s.lock.Held? then Held(Some(g)) else Free)
    case Arm(g) => To(s, g, Armed)
    case Snapshot(g) => To(s, g, Running(Printed(s.tree), []))
    case Make(g, passed) =>
      var gate := s.gates[g];
      To(s, g, Running(gate.phase.before, gate.phase.log + [Ran(gate.steps[|gate.phase.log|], passed, s.tree)]))
    case Finish(g) =>
      var p := s.gates[g].phase;
      var after := Printed(s.tree);
      To(s, g, Judged(Verdict(Passes(p.log), p.before, after), p.before, p.log, after)).(lock := Free)
    case Die(g) => To(s, g, Dead)
    case Signal(_) => s.(lock := Free)
    case Change(tree) => s.(tree := tree)
  }

  /** The two assumptions: a gate that has found the holder gone reclaims its lock before anyone else moves, and no
      gate is sent INT or TERM. */
  predicate Assumed(s: State, e: Event) {
    && !e.Signal?
    && (e.Change? || forall h :: h in s.gates && (s.gates[h].phase.Reclaiming? || s.gates[h].phase.Removed?) ==>
        h == e.g)
  }

  ghost predicate Possible(s: State, events: seq<Event>)
    decreases |events|
  {
    events != [] ==> Enabled(s, events[0]) && Possible(Step(s, events[0]), events[1..])
  }

  function Run(s: State, events: seq<Event>): State
    requires Possible(s, events)
    decreases |events|
  {
    if events == [] then s else Run(Step(s, events[0]), events[1..])
  }

  ghost predicate AssumedAll(s: State, events: seq<Event>)
    requires Possible(s, events)
    decreases |events|
  {
    events != [] ==> Assumed(s, events[0]) && AssumedAll(Step(s, events[0]), events[1..])
  }

  predicate Initial(s: State) {
    s.lock == Free && s.gates == map[]
  }

  // --- mutual exclusion ---

  /** Gates inside hold the lock alone, and it bears their pid once they have recorded it. */
  ghost predicate Excludes(s: State) {
    && (forall g, h :: Holds(s, g) && Holds(s, h) ==> g == h)
    && (forall g :: Holds(s, g) ==> s.lock == Held(if s.gates[g].phase.Made? then None else Some(g)))
    && (forall g :: g in s.gates && s.gates[g].phase.Reclaiming? ==> HolderGone(s))
    && (forall g :: g in s.gates && s.gates[g].phase.Removed? ==> s.lock.Free?)
    && (s.lock.Held? && s.lock.pid.Some? ==> s.lock.pid.value in s.gates)
  }

  lemma {:induction false} HeldBefore(s: State, e: Event)
    requires Enabled(s, e)
    ensures forall g :: Holds(Step(s, e), g) ==> Holds(s, g) || (e == Mkdir(g) && s.lock == Free)
  {
    hide Printed, Verdict, MayRun;
  }

  lemma {:induction false} MkdirExcludes(s: State, g: Pid)
    requires Excludes(s) && Enabled(s, Mkdir(g)) && Assumed(s, Mkdir(g))
    ensures Excludes(Step(s, Mkdir(g)))
  {
    HeldBefore(s, Mkdir(g));
    assert s.lock == Free ==> forall h :: !Holds(s, h);
  }

  lemma {:induction false} ReclaimExcludes(s: State, e: Event)
    requires Excludes(s) && Enabled(s, e) && Assumed(s, e) && (e.Look? || e.Remove?)
    ensures Excludes(Step(s, e))
  {
    HeldBefore(s, e);
    assert forall h :: Holds(s, h) ==> Alive(s, h);
  }

  lemma {:induction false} RecordExcludes(s: State, g: Pid)
    requires Excludes(s) && Enabled(s, Record(g)) && Assumed(s, Record(g))
    ensures Excludes(Step(s, Record(g)))
  {
    HeldBefore(s, Record(g));
    assert Holds(s, g) && s.lock == Held(None);
    assert forall h :: Holds(s, h) ==> h == g;
  }

  lemma {:induction false} RunningExcludes(s: State, e: Event)
    requires Excludes(s) && Enabled(s, e) && (e.Arm? || e.Snapshot? || e.Make?)
    ensures Excludes(Step(s, e))
  {
    hide Printed, MayRun;
    HeldBefore(s, e);
    assert Holds(s, e.g);
  }

  lemma {:induction false} FinishExcludes(s: State, g: Pid)
    requires Excludes(s) && Enabled(s, Finish(g))
    ensures Excludes(Step(s, Finish(g)))
  {
    hide Printed, Verdict, MayRun;
    HeldBefore(s, Finish(g));
    assert Holds(s, g);
    assert forall h :: Holds(s, h) ==> h == g;
  }

  lemma {:induction false} OtherExcludes(s: State, e: Event)
    requires Excludes(s) && Enabled(s, e) && Assumed(s, e) && (e.Launch? || e.Die? || e.Change?)
    ensures Excludes(Step(s, e))
  {
    HeldBefore(s, e);
  }

  lemma {:induction false} StepExcludes(s: State, e: Event)
    requires Excludes(s) && Enabled(s, e) && Assumed(s, e)
    ensures Excludes(Step(s, e))
  {
    hide Excludes, Step, Enabled;
    match e {
      case Mkdir(g) => MkdirExcludes(s, g);
      case Look(_) => ReclaimExcludes(s, e);
      case Remove(_) => ReclaimExcludes(s, e);
      case Record(g) => RecordExcludes(s, g);
      case Arm(_) => RunningExcludes(s, e);
      case Snapshot(_) => RunningExcludes(s, e);
      case Make(_, _) => RunningExcludes(s, e);
      case Finish(g) => FinishExcludes(s, g);
      case _ => OtherExcludes(s, e);
    }
  }

  lemma {:induction false} RunExcludes(s: State, events: seq<Event>)
    requires Excludes(s) && Possible(s, events) && AssumedAll(s, events)
    ensures Excludes(Run(s, events))
    decreases |events|
  {
    hide Excludes, Step, Enabled, Assumed;
    if events != [] {
      StepExcludes(s, events[0]);
      RunExcludes(Step(s, events[0]), events[1..]);
    }
  }

  /** In every interleaving of any number of gates that may die anywhere, at most one live gate is past acquisition,
      and from its record on the lock bears its pid. */
  lemma {:induction false} AtMostOneInside(s: State, events: seq<Event>, g: Pid, h: Pid)
    requires Initial(s) && Possible(s, events) && AssumedAll(s, events)
    requires Holds(Run(s, events), g) && Holds(Run(s, events), h)
    ensures g == h
    ensures var s' := Run(s, events); s'.lock == Held(if s'.gates[g].phase.Made? then None else Some(g))
  {
    RunExcludes(s, events);
  }

  // --- who changes the lock ---

  /** The lock changes in four ways only: made by a gate that finds it free; given a pid by the gate that made it;
      removed by the gate whose pid it bears, at its end; removed by a gate reclaiming it from a holder that is gone. */
  lemma {:induction false} LockChanges(s: State, e: Event)
    requires Excludes(s) && Enabled(s, e) && Assumed(s, e) && Step(s, e).lock != s.lock
    ensures match Step(s, e).lock
            case Held(None) => s.lock == Free && e.Mkdir?
            case Held(Some(p)) => s.lock == Held(None) && e == Record(p)
            case Free => (e.Finish? && s.lock == Held(Some(e.g))) || (e.Remove? && HolderGone(s))
  {
  }

  /** A refused gate never touches the lock, at its refusal or after. */
  lemma {:induction false} RefusedTouchesNothing(s: State, e: Event)
    requires Enabled(s, e) && !e.Change?
    ensures e.g in s.gates ==> !s.gates[e.g].phase.Refused?
    ensures Is(Step(s, e), e.g, Refused) ==> Step(s, e).lock == s.lock
  {
  }

  /** A lock that bears a pid bears that of a gate that recorded it, and is still inside or has died. */
  ghost predicate BearsRecorder(s: State) {
    s.lock.Held? && s.lock.pid.Some? ==>
      && s.lock.pid.value in s.gates
      && var p := s.gates[s.lock.pid.value].phase;
      p.Recorded? || p.Armed? || p.Running? || p.Dead?
  }

  lemma {:induction false} StepRecorded(s: State, e: Event)
    requires Excludes(s) && BearsRecorder(s) && Enabled(s, e) && Assumed(s, e)
    ensures BearsRecorder(Step(s, e))
  {
  }

  lemma {:induction false} RunRecorded(s: State, events: seq<Event>)
    requires Excludes(s) && BearsRecorder(s) && Possible(s, events) && AssumedAll(s, events)
    ensures BearsRecorder(Run(s, events))
    decreases |events|
  {
    hide Excludes, BearsRecorder, Step, Enabled, Assumed;
    if events != [] {
      StepExcludes(s, events[0]);
      StepRecorded(s, events[0]);
      RunRecorded(Step(s, events[0]), events[1..]);
    }
  }

  /** Another gate is inside, with its pid on the lock; or the lock has no pid; or it has just been given up. */
  predicate Occupied(s: State, g: Pid) {
    s.lock.Free? || s.lock.pid.None? || (s.lock.pid.value != g && Holds(s, s.lock.pid.value))
  }

  /** In every assumed run a gate is refused only at its look at a lock that another live gate holds, that has no pid,
      or that was given up between its `mkdir` and its look; and it is then always refused. No recorded dead holder
      refuses anyone, and the `mkdir` after a removal never fails. */
  lemma {:induction false} RefusalJustified(s: State, events: seq<Event>, e: Event)
    requires Initial(s) && Possible(s, events) && AssumedAll(s, events) && !e.Change?
    requires Enabled(Run(s, events), e) && Assumed(Run(s, events), e)
    ensures Is(Step(Run(s, events), e), e.g, Refused) <==> e.Look? && Occupied(Run(s, events), e.g)
  {
    hide Run, Possible, AssumedAll;
    var s' := Run(s, events);
    RunExcludes(s, events);
    RunRecorded(s, events);
    if e.Look? && s'.lock.Held? && s'.lock.pid.Some? {
      assert Alive(s', s'.lock.pid.value) <==> Holds(s', s'.lock.pid.value);
      assert !Holds(s', e.g);
    }
  }

  /** A lock without a pid whose maker is gone stays as it is in every run. */
  lemma {:induction false} UnrecordedForever(s: State, events: seq<Event>)
    requires Excludes(s) && Possible(s, events) && AssumedAll(s, events)
    requires s.lock == Held(None) && forall g :: g in s.gates ==> !s.gates[g].phase.Made?
    ensures Run(s, events).lock == Held(None)
    decreases |events|
  {
    hide Excludes;
    if events != [] {
      StepExcludes(s, events[0]);
      UnrecordedStep(s, events[0]);
      UnrecordedForever(Step(s, events[0]), events[1..]);
    }
  }

  lemma {:induction false} UnrecordedStep(s: State, e: Event)
    requires Excludes(s) && Enabled(s, e) && Assumed(s, e)
    requires s.lock == Held(None) && forall g :: g in s.gates ==> !s.gates[g].phase.Made?
    ensures Step(s, e).lock == Held(None) && forall g :: g in Step(s, e).gates ==> !Step(s, e).gates[g].phase.Made?
  {
  }

  predicate Quiet(s: State) {
    forall h :: h in s.gates ==> !s.gates[h].phase.Reclaiming? && !s.gates[h].phase.Removed?
  }

  /** The lock of a recorded holder that is gone can always be reclaimed, by any gate that starts. */
  lemma {:induction false} DeadHolderReclaimed(s: State, g: Pid)
    requires Excludes(s) && Quiet(s) && HolderGone(s) && Is(s, g, Start)
    ensures var events := [Mkdir(g), Look(g), Remove(g), Mkdir(g)];
            && Possible(s, events) && AssumedAll(s, events)
            && Holds(Run(s, events), g) && Run(s, events).lock == Held(None)
  {
    hide Possible, Run, AssumedAll, InOrder;
    var s1 := Step(s, Mkdir(g));
    var s2 := Step(s1, Look(g));
    var s3 := Step(s2, Remove(g));
    Ended(Step(s3, Mkdir(g)));
    Chain(s3, Mkdir(g), [], [Mkdir(g)]);
    Chain(s2, Remove(g), [Mkdir(g)], [Remove(g), Mkdir(g)]);
    Chain(s1, Look(g), [Remove(g), Mkdir(g)], [Look(g), Remove(g), Mkdir(g)]);
    Chain(s, Mkdir(g), [Look(g), Remove(g), Mkdir(g)], [Mkdir(g), Look(g), Remove(g), Mkdir(g)]);
  }

  lemma {:induction false} Chain(s: State, e: Event, rest: seq<Event>, events: seq<Event>)
    requires events == [e] + rest
    requires Enabled(s, e) && Possible(Step(s, e), rest)
    ensures Possible(s, events) && Run(s, events) == Run(Step(s, e), rest)
    ensures Assumed(s, e) && AssumedAll(Step(s, e), rest) ==> AssumedAll(s, events)
  {
    hide Step, Enabled, Assumed;
    assert events[0] == e && events[1..] == rest;
  }

  lemma {:induction false} Ended(s: State)
    ensures Possible(s, []) && Run(s, []) == s && AssumedAll(s, [])
  {
  }

  // --- both assumptions are needed ---

  /** A gate that is signalled past its trap loses its lock and goes on: in any state, the next gets in beside it. */
  lemma {:induction false} SignalBreaksExclusion(s: State, g: Pid, h: Pid)
    requires Excludes(s) && Holds(s, g) && !s.gates[g].phase.Made? && !s.gates[g].phase.Recorded? && Is(s, h, Start)
    ensures Possible(s, [Signal(g), Mkdir(h)])
    ensures var s' := Run(s, [Signal(g), Mkdir(h)]); g != h && Holds(s', g) && Holds(s', h)
  {
    hide Possible, Run, AssumedAll, InOrder;
    var s1 := Step(s, Signal(g));
    Ended(Step(s1, Mkdir(h)));
    Chain(s1, Mkdir(h), [], [Mkdir(h)]);
    Chain(s, Signal(g), [Mkdir(h)], [Signal(g), Mkdir(h)]);
  }

  /** Two gates that both find the holder gone before either removes its lock can both get in. */
  lemma {:induction false} SplitReclaimBreaksExclusion(s: State, g: Pid, h: Pid)
    requires Excludes(s) && HolderGone(s) && Is(s, g, Contending) && Is(s, h, Contending) && g != h
    ensures var events := [Look(g), Look(h), Remove(g), Mkdir(g), Remove(h), Mkdir(h)];
            Possible(s, events) && Holds(Run(s, events), g) && Holds(Run(s, events), h)
  {
    hide Possible, Run, AssumedAll, InOrder;
    var s1 := Step(s, Look(g));
    BothReclaim(Step(s1, Look(h)), g, h);
    Chain(s1, Look(h), [Remove(g), Mkdir(g), Remove(h), Mkdir(h)], [Look(h), Remove(g), Mkdir(g), Remove(h), Mkdir(h)]);
    Chain(s, Look(g), [Look(h), Remove(g), Mkdir(g), Remove(h), Mkdir(h)],
        [Look(g), Look(h), Remove(g), Mkdir(g), Remove(h), Mkdir(h)]);
  }

  lemma {:induction false} BothReclaim(s: State, g: Pid, h: Pid)
    requires Is(s, g, Reclaiming) && Is(s, h, Reclaiming) && g != h
    ensures var events := [Remove(g), Mkdir(g), Remove(h), Mkdir(h)];
            Possible(s, events) && Holds(Run(s, events), g) && Holds(Run(s, events), h)
  {
    hide Possible, Run, AssumedAll, InOrder, Assumed, MayRun;
    var s1 := Step(s, Remove(g));
    var s2 := Step(s1, Mkdir(g));
    var s3 := Step(s2, Remove(h));
    Ended(Step(s3, Mkdir(h)));
    Chain(s3, Mkdir(h), [], [Mkdir(h)]);
    Chain(s2, Remove(h), [Mkdir(h)], [Remove(h), Mkdir(h)]);
    Chain(s1, Mkdir(g), [Remove(h), Mkdir(h)], [Mkdir(g), Remove(h), Mkdir(h)]);
    Chain(s, Remove(g), [Mkdir(g), Remove(h), Mkdir(h)], [Remove(g), Mkdir(g), Remove(h), Mkdir(h)]);
  }

  // --- the verdict ---

  /** What the phase of a gate says about its steps. */
  ghost predicate Sound(gate: Gate) {
    && gate.steps != []
    && (gate.phase.Running? ==> InOrder(gate.steps, gate.phase.log))
    && (gate.phase.Judged? ==>
          && InOrder(gate.steps, gate.phase.log)
          && gate.phase.code <= 1
          && (gate.phase.code == 0 <==>
                AllPassed(gate.phase.log) && |gate.phase.log| == |gate.steps| && gate.phase.before == gate.phase.after)
          && (AllPassed(gate.phase.log) || |gate.phase.log| == |gate.steps|
              || !gate.phase.log[|gate.phase.log| - 1].passed))
  }

  ghost predicate AllSound(s: State) {
    forall g :: g in s.gates ==> Sound(s.gates[g])
  }

  lemma {:induction false} FinishedSound(gate: Gate, after: Print)
    requires Sound(gate) && gate.phase.Running? && !MayRun(gate.steps, gate.phase.log)
    ensures var p := gate.phase;
            Sound(gate.(phase := Judged(Verdict(Passes(p.log), p.before, after), p.before, p.log, after)))
  {
  }

  lemma {:induction false} StepSound(s: State, e: Event)
    requires AllSound(s) && Enabled(s, e)
    ensures AllSound(Step(s, e))
  {
    if e.Finish? {
      FinishedSound(s.gates[e.g], Printed(s.tree));
    }
  }

  /** Whatever the other gates, deaths and signals: a gate that ends has run its steps in order, stopping at the first
      that fails, and its status is 0 exactly when every step passed and both snapshots are equal. */
  lemma {:induction false} VerdictSound(s: State, events: seq<Event>)
    requires AllSound(s) && Possible(s, events)
    ensures AllSound(Run(s, events))
    decreases |events|
  {
    hide AllSound, Step, Enabled;
    if events != [] {
      StepSound(s, events[0]);
      VerdictSound(Step(s, events[0]), events[1..]);
    }
  }

  // --- the verdict, read off the events ---

  /** What the last change has made of the tree. */
  function TreeAfter(tree: Tree, events: seq<Event>): Tree {
    if events == [] then tree
    else
      var e := events[|events| - 1];
      if e.Change? then e.tree else TreeAfter(tree, events[..|events| - 1])
  }

  /** The answers of `make` to the gate, in order. */
  function Makes(events: seq<Event>, g: Pid): seq<bool> {
    if events == [] then []
    else
      var e := events[|events| - 1];
      Makes(events[..|events| - 1], g) + if e.Make? && e.g == g then [e.passed] else []
  }

  /** A run is the run of its first `k` events, then of the others. */
  lemma {:induction false} RunSplit(s: State, events: seq<Event>, k: nat)
    requires Possible(s, events) && k <= |events|
    ensures Possible(s, events[..k]) && Possible(Run(s, events[..k]), events[k..])
    ensures Run(s, events) == Run(Run(s, events[..k]), events[k..])
    decreases |events|
  {
    hide Step, Enabled, Assumed, AssumedAll;
    if k == 0 {
      assert events[..0] == [] && events[0..] == events;
    } else {
      var e, rest := events[0], events[1..];
      RunSplit(Step(s, e), rest, k - 1);
      assert events[..k] == [e] + rest[..k - 1] && events[k..] == rest[k - 1..];
      Chain(s, e, rest[..k - 1], events[..k]);
    }
  }

  lemma {:induction false} RunLast(s: State, events: seq<Event>)
    requires Possible(s, events) && events != []
    ensures var n := |events| - 1;
            && Possible(s, events[..n]) && Enabled(Run(s, events[..n]), events[n])
            && Run(s, events) == Step(Run(s, events[..n]), events[n])
  {
    hide Step, Enabled;
    var n := |events| - 1;
    RunSplit(s, events, n);
    assert events[n..][0] == events[n] && events[n..][1..] == [];
    Ended(Step(Run(s, events[..n]), events[n]));
  }

  /** The tree of a state is what the events before have made of it. */
  lemma {:induction false} TreeFollows(s: State, events: seq<Event>)
    requires Possible(s, events)
    ensures Run(s, events).tree == TreeAfter(s.tree, events)
    decreases |events|
  {
    hide Run, Possible;
    if events == [] {
      Ended(s);
    } else {
      RunLast(s, events);
      TreeFollows(s, events[..|events| - 1]);
    }
  }

  predicate Over(s: State, g: Pid) {
    g in s.gates && !Live(s.gates[g].phase)
  }

  /** A gate that is over stays as it ended. */
  lemma {:induction false} OverStays(s: State, events: seq<Event>, g: Pid)
    requires Possible(s, events) && Over(s, g)
    ensures g in Run(s, events).gates && Run(s, events).gates[g] == s.gates[g]
    decreases |events|
  {
    hide Possible, Run;
    if events == [] {
      Ended(s);
    } else {
      RunLast(s, events);
      OverStays(s, events[..|events| - 1], g);
    }
  }

  predicate IsRunning(s: State, g: Pid) {
    g in s.gates && s.gates[g].phase.Running?
  }

  lemma {:induction false} RunningStep(s: State, e: Event, g: Pid)
    requires Enabled(s, e) && IsRunning(s, g)
    ensures IsRunning(Step(s, e), g) || Over(Step(s, e), g)
    ensures IsRunning(Step(s, e), g) ==>
              var was, now := s.gates[g], Step(s, e).gates[g];
              && now.steps == was.steps && now.phase.before == was.phase.before
              && Passes(now.phase.log) == Passes(was.phase.log) + if e.Make? && e.g == g then [e.passed] else []
  {
    if e.Make? && e.g == g {
      var was, now := s.gates[g], Step(s, e).gates[g];
      assert Passes(now.phase.log) == Passes(was.phase.log) + [e.passed];
    } else if IsRunning(Step(s, e), g) {
      assert Passes(s.gates[g].phase.log) + [] == Passes(s.gates[g].phase.log);
    }
  }

  /** While a gate runs it keeps its first snapshot and logs the answers of `make`. */
  lemma {:induction false} RunningLogs(s: State, events: seq<Event>, g: Pid)
    requires Possible(s, events) && IsRunning(s, g) && s.gates[g].phase.log == []
    ensures IsRunning(Run(s, events), g) || Over(Run(s, events), g)
    ensures IsRunning(Run(s, events), g) ==>
              var was, now := s.gates[g], Run(s, events).gates[g];
              && now.steps == was.steps && now.phase.before == was.phase.before
              && Passes(now.phase.log) == Makes(events, g)
    decreases |events|
  {
    hide Possible, Run, Step, Enabled, Passes;
    if events == [] {
      Ended(s);
      assert Passes([]) == [];
    } else {
      var n := |events| - 1;
      RunLast(s, events);
      RunningLogs(s, events[..n], g);
      if IsRunning(Run(s, events[..n]), g) {
        RunningStep(Run(s, events[..n]), events[n], g);
      } else {
        OverStep(Run(s, events[..n]), events[n], g);
      }
    }
  }

  lemma {:induction false} OverStep(s: State, e: Event, g: Pid)
    requires Enabled(s, e) && Over(s, g)
    ensures Over(Step(s, e), g)
  {
  }

  lemma {:induction false} FinishVerdict(s: State, g: Pid)
    requires Enabled(s, Finish(g)) && AllSound(s)
    ensures var gate, end := s.gates[g], Step(s, Finish(g)).gates[g].phase;
            && end.Judged?
            && (end.code == 0 <==>
                  && Printed(s.tree) == gate.phase.before && |gate.phase.log| == |gate.steps|
                  && forall i :: 0 <= i < |gate.phase.log| ==> gate.phase.log[i].passed)
            && end.code <= 1
  {
    StepSound(s, Finish(g));
    FinishedSound(s.gates[g], Printed(s.tree));
  }

  /** Every step the gate has was made between `i` and `j`, and passed. */
  ghost predicate AllMade(events: seq<Event>, g: Pid, i: nat, j: nat, steps: nat)
    requires i <= j <= |events|
  {
    var makes := Makes(events[i..j], g);
    |makes| == steps && forall k :: 0 <= k < |makes| ==> makes[k]
  }

  /** The status of a gate, from the events of any run: with its first snapshot at `i` and its end at `j`, it is 0 if
      and only if the trees that the changes up to either leave print the same and `make` passed for every step; and it
      stays. */
  lemma {:induction false} JudgedExactly(s: State, events: seq<Event>, g: Pid, i: nat, j: nat)
    requires AllSound(s) && Possible(s, events) && i < j < |events|
    requires events[i] == Snapshot(g) && events[j] == Finish(g)
    ensures g in Run(s, events).gates
    ensures var gate := Run(s, events).gates[g];
            && gate.phase.Judged? && gate.phase.code <= 1
            && (gate.phase.code == 0 <==>
                  && Printed(TreeAfter(s.tree, events[..i])) == Printed(TreeAfter(s.tree, events[..j]))
                  && AllMade(events, g, i, j, |gate.steps|))
  {
    hide AllSound, Possible, Run, TreeAfter, Makes, Passes, InOrder, Verdict, MayRun;
    RunSplit(s, events, j + 1);
    var upto := events[..j + 1];
    assert upto[..j] == events[..j] && upto[j] == events[j];
    RunLast(s, upto);
    var finishing := Run(s, events[..j]);
    assert IsRunning(finishing, g);
    RunSplit(s, events[..j], i + 1);
    var first := events[..j][..i + 1];
    assert first[..i] == events[..i] && first[i] == events[i];
    RunLast(s, first);
    var snapped := Run(s, first);
    assert IsRunning(snapped, g) && snapped.gates[g].phase.log == [];
    var between := events[..j][i + 1..];
    RunningLogs(snapped, between, g);
    TreeFollows(s, events[..i]);
    TreeFollows(s, events[..j]);
    assert [events[i]] + between == events[i..j];
    MakesFront(events[i], between, g);
    VerdictSound(s, events[..j]);
    FinishVerdict(finishing, g);
    PassesAll(finishing.gates[g].phase.log);
    OverStays(Run(s, upto), events[j + 1..], g);
  }

  /** And the steps are those the gate was started with. */
  lemma {:induction false} StepsAsLaunched(s: State, events: seq<Event>, g: Pid, steps: seq<string>, l: nat)
    requires Possible(s, events) && l < |events| && events[l] == Launch(g, steps)
    ensures g in Run(s, events).gates && Run(s, events).gates[g].steps == steps
  {
    hide Possible, Run;
    RunSplit(s, events, l + 1);
    var first := events[..l + 1];
    assert first[..l] == events[..l] && first[l] == events[l];
    RunLast(s, first);
    StepsStay(Run(s, first), events[l + 1..], g);
  }

  lemma {:induction false} StepsStay(s: State, events: seq<Event>, g: Pid)
    requires Possible(s, events) && g in s.gates
    ensures g in Run(s, events).gates && Run(s, events).gates[g].steps == s.gates[g].steps
    decreases |events|
  {
    hide Possible, Run;
    if events == [] {
      Ended(s);
    } else {
      RunLast(s, events);
      StepsStay(s, events[..|events| - 1], g);
    }
  }

  lemma {:induction false} PassesAll(log: seq<Ran>)
    ensures |Passes(log)| == |log|
    ensures (forall i :: 0 <= i < |log| ==> log[i].passed) <==> forall k :: 0 <= k < |Passes(log)| ==> Passes(log)[k]
  {
  }

  lemma {:induction false} MakesFront(e: Event, events: seq<Event>, g: Pid)
    requires !e.Make?
    ensures Makes([e] + events, g) == Makes(events, g)
    decreases |events|
  {
    var all, n := [e] + events, |events|;
    if n == 0 {
      assert all[..0] == [] && Makes(all, g) == [] + [];
    } else {
      assert all[..n] == [e] + events[..n - 1] && all[n] == events[n - 1];
      MakesFront(e, events[..n - 1], g);
    }
  }

  // --- what the snapshots see ---

  lemma {:induction false} LineOf(t: Tree, p: string)
    ensures Printed(t).commit == t.commit
    ensures p in Printed(t).lines <==> Letters(t, p) != (Same, Same)
    ensures p in Printed(t).lines ==> Printed(t).lines[p] == Letters(t, p)
  {
  }

  /** Two trees print the same exactly when they are at one commit and every path has the same letters. */
  lemma {:induction false} PrintedExactly(t: Tree, u: Tree)
    ensures Printed(t) == Printed(u) <==> t.commit == u.commit && forall p :: Letters(t, p) == Letters(u, p)
  {
    hide Letters, Printed;
    LineOf(t, "");
    LineOf(u, "");
    if Printed(t) == Printed(u) {
      forall p ensures Letters(t, p) == Letters(u, p) {
        LineOf(t, p);
        LineOf(u, p);
      }
    }
    if t.commit == u.commit && forall p :: Letters(t, p) == Letters(u, p) {
      forall p
        ensures p in Printed(t).lines <==> p in Printed(u).lines
        ensures p in Printed(t).lines && p in Printed(u).lines ==> Printed(t).lines[p] == Printed(u).lines[p]
      {
        LineOf(t, p);
        LineOf(u, p);
      }
      assert Printed(t).lines == Printed(u).lines;
    }
  }

  /** A tree that starts clean is the same tree when it prints the same: a commit has one content. */
  lemma {:induction false} CleanTreeSeen(t: Tree, u: Tree)
    requires t.head == t.index == t.work && (t.commit == u.commit ==> t.head == u.head)
    ensures Printed(t) == Printed(u) <==> t == u
  {
    PrintedExactly(t, u);
    if Printed(t) == Printed(u) {
      forall p ensures Compared(u.head, u.index, p) == Same == Compared(u.index, u.work, p) {
        assert Letters(t, p) == Letters(u, p);
      }
      SameFiles(u.head, u.index);
      SameFiles(u.index, u.work);
    }
  }

  lemma {:induction false} SameFiles(a: Files, b: Files)
    requires forall p :: Compared(a, b, p) == Same
    ensures a == b
  {
    forall p ensures (p in a <==> p in b) && (p in a && p in b ==> a[p] == b[p]) {
      assert Compared(a, b, p) == Same;
    }
  }

  /** A write is not seen exactly when it leaves the content as it is, or changes a file that differed from the index
      and still does, or one that is not tracked. */
  predicate Unseen(t: Tree, p: string, content: string) {
    && p in t.work
    && (p in t.index ==> (content == t.work[p] || (t.work[p] != t.index[p] && content != t.index[p])))
  }

  lemma {:induction false} WriteSeenExactly(t: Tree, p: string, content: string)
    ensures Printed(t.(work := t.work[p := content])) == Printed(t) <==> Unseen(t, p, content)
  {
    hide Compared, Printed;
    var u := t.(work := t.work[p := content]);
    PrintedExactly(u, t);
    UnseenLetter(t, p, content);
    assert Letters(u, p) == Letters(t, p) <==> Unseen(t, p, content);
    forall q | q != p ensures Letters(u, q) == Letters(t, q) {
      OtherLetter(t.index, t.work, p, content, q);
    }
  }

  lemma {:induction false} UnseenLetter(t: Tree, p: string, content: string)
    ensures Compared(t.index, t.work[p := content], p) == Compared(t.index, t.work, p) <==> Unseen(t, p, content)
  {
  }

  lemma {:induction false} OtherLetter(a: Files, b: Files, p: string, content: string, q: string)
    requires q != p
    ensures Compared(a, b[p := content], q) == Compared(a, b, q)
  {
  }

  /** Equal snapshots do not make a still tree: a change passes when the next one, before the end, makes the tree print
      as it did. */
  lemma {:induction false} UndoneChangePasses(s: State, g: Pid, other: Tree, last: Tree)
    requires Is(s, g, Armed) && |s.gates[g].steps| == 1 && Printed(last) == Printed(s.tree)
    ensures var events := [Snapshot(g), Change(other), Make(g, true), Change(last), Finish(g)];
            var shown := Printed(s.tree);
            && Possible(s, events)
            && Is(Run(s, events), g, Judged(0, shown, [Ran(s.gates[g].steps[0], true, other)], shown))
  {
    hide Possible, Run, AssumedAll, InOrder, Printed;
    var s1 := Step(s, Snapshot(g));
    OneStep(Step(s1, Change(other)), g, last);
    Chain(s1, Change(other), [Make(g, true), Change(last), Finish(g)],
        [Change(other), Make(g, true), Change(last), Finish(g)]);
    Chain(s, Snapshot(g), [Change(other), Make(g, true), Change(last), Finish(g)],
        [Snapshot(g), Change(other), Make(g, true), Change(last), Finish(g)]);
  }

  lemma {:induction false} OneStep(s: State, g: Pid, last: Tree)
    requires Is(s, g, Running(Printed(last), [])) && |s.gates[g].steps| == 1
    ensures var events := [Make(g, true), Change(last), Finish(g)];
            var shown := Printed(last);
            Possible(s, events)
                && Is(Run(s, events), g, Judged(0, shown, [Ran(s.gates[g].steps[0], true, s.tree)], shown))
  {
    hide Possible, Run, AssumedAll, InOrder, Assumed, Printed;
    var s1 := Step(s, Make(g, true));
    var s2 := Step(s1, Change(last));
    assert [] + [Ran(s.gates[g].steps[0], true, s.tree)] == [Ran(s.gates[g].steps[0], true, s.tree)];
    Ended(Step(s2, Finish(g)));
    Chain(s2, Finish(g), [], [Finish(g)]);
    Chain(s1, Change(last), [Finish(g)], [Change(last), Finish(g)]);
    Chain(s, Make(g, true), [Change(last), Finish(g)], [Make(g, true), Change(last), Finish(g)]);
  }

  predicate Succeeded(s: State, g: Pid) {
    g in s.gates && s.gates[g].phase.Judged? && s.gates[g].phase.code == 0
  }

  /** And not even the tree that the gate ends on need be the one it began on: a file that was modified or untracked
      may be written again. */
  lemma {:induction false} UnseenChangePasses(s: State, g: Pid, p: string, content: string)
    requires Is(s, g, Armed) && |s.gates[g].steps| == 1 && Unseen(s.tree, p, content)
    ensures var last := s.tree.(work := s.tree.work[p := content]);
            var events := [Snapshot(g), Change(last), Make(g, true), Change(last), Finish(g)];
            && Possible(s, events) && Run(s, events).tree == last && Succeeded(Run(s, events), g)
  {
    hide Possible, Run, TreeAfter, Printed;
    var last := s.tree.(work := s.tree.work[p := content]);
    var events := [Snapshot(g), Change(last), Make(g, true), Change(last), Finish(g)];
    WriteSeenExactly(s.tree, p, content);
    UndoneChangePasses(s, g, last, last);
    TreeFollows(s, events);
    TreeAfterChange(s.tree, events);
  }

  lemma {:induction false} TreeAfterChange(tree: Tree, events: seq<Event>)
    requires |events| >= 2 && events[|events| - 1].Finish? && events[|events| - 2].Change?
    ensures TreeAfter(tree, events) == events[|events| - 2].tree
  {
    assert events[..|events| - 1][|events| - 2] == events[|events| - 2];
  }

  // --- the loop over the steps ---

  /** The step loop and the verdict, over the answer of `make` for each target and the two snapshots. */
  method RunSteps(steps: seq<string>, passes: seq<bool>, before: Print,
                  after: Print) returns (summary: seq<(string, bool)>, code: nat)
    requires |passes| == |steps| > 0
    ensures |summary| <= |steps| && forall i :: 0 <= i < |summary| ==> summary[i] == (steps[i], passes[i])
    ensures forall i :: 0 <= i < |summary| - 1 ==> passes[i]
    ensures |summary| == |steps| || (summary != [] && !passes[|summary| - 1])
    ensures code ==
            Verdict(seq(|summary|, i requires 0 <= i < |summary| => summary[i].1), before, after)
    ensures code == 0 <==> before == after && forall i :: 0 <= i < |steps| ==> passes[i]
  {
    summary := [];
    var status := 0;
    for i := 0 to |steps|
      invariant |summary| == i && forall j :: 0 <= j < i ==> summary[j] == (steps[j], passes[j]) && passes[j]
      invariant status == 0
    {
      if passes[i] {
        summary := summary + [(steps[i], true)];
      } else {
        summary := summary + [(steps[i], false)];
        status := 1;
        break;
      }
    }
    if after != before {
      return summary, 1;
    }
    code := if status != 0 then 1 else 0;
  }
}
