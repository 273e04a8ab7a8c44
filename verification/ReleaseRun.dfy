/** One run of tools/release.sh as a transaction over the working tree, the index, the tags and the remote. The make
    targets and git itself are oracles; a bump changes the working tree only, every other target leaves it alone. */
module ReleaseRun {

  import Decimal
  import ReleaseNotes

  datatype Option<T> = None | Some(value: T)

  type Path = string
  type Lines = seq<string>
  type Tree = map<Path, Lines>

  /** RELEASE_*: `bodyTarget` and `extraTarget` say whether RELEASE_TAG_BODY and RELEASE_EXTRA_TAGS name a target. */
  datatype Config = Config(bumpNamed: bool, notes: Path, files: seq<Path>, bodyTarget: bool, extraTarget: bool,
                           skipPrecheck: bool, ignored: bool, dry: bool)

  /** A workflow's run on HEAD, and on the commits before it, newest first: its state, None if it cannot be read, and
      whether every path changed since that commit is one the workflow skips. */
  datatype Workflow = Workflow(onHead: Option<string>, history: seq<(Option<string>, bool)>)

  /** What the run meets. `filed` is false when the rewritten notes could not be moved into place. */
  datatype Oracles = Oracles(
    onMain: bool, workflows: seq<Workflow>, fetched: Option<set<string>>, prechecks: seq<bool>,
    year: nat, month: nat, date: string,
    filed: bool, bump: Tree -> Tree, bumpOk: bool, body: Option<Lines>, extra: Option<seq<string>>,
    addOk: bool, commitOk: bool, taggable: nat, pushOk: bool)

  datatype Repo = Repo(head: Tree, index: Tree, work: Tree, tags: set<string>, commits: seq<Tree>,
                       pushed: seq<seq<string>>)

  datatype Stage =
    | NoTarget | NoNotes | NotMain | Dirty | CiRed | FetchFailed | PrecheckFailed | TagExists | EmptyNotes
    | BumpFailed | Stray | NoBody | ExtraFailed | ExtraExists
    | AddFailed | CommitFailed | TagFailed | PushFailed

  datatype Exit = Died(stage: Stage) | DryRun | Released

  /** The exits in front of `git add`. */
  predicate BeforeAdd(e: Exit) {
    e.DryRun?
        || (e.Died? && !e.stage.AddFailed? && !e.stage.CommitFailed? && !e.stage.TagFailed? && !e.stage.PushFailed?)
  }

  // --- paths ---

  predicate EndsWithSlash(entry: Path) {
    entry != "" && entry[|entry| - 1] == '/'
  }

  /** `allowed`, for one entry. */
  predicate Lists(entry: Path, path: Path) {
    if EndsWithSlash(entry) then ReleaseNotes.StartsWith(path, entry) else path == entry
  }

  predicate Allowed(c: Config, path: Path) {
    exists i :: 0 <= i < |c.files| + 1 && Lists(([c.notes] + c.files)[i], path)
  }

  /** A git pathspec without glob characters: the path itself, or what lies under it. */
  predicate Selects(entry: Path, path: Path) {
    path == entry || ReleaseNotes.StartsWith(path, if EndsWithSlash(entry) then entry else entry + "/")
  }

  predicate SelectedBy(entries: seq<Path>, path: Path) {
    exists i :: 0 <= i < |entries| && Selects(entries[i], path)
  }

  /** `git clean -- $files`: no pathspec is the whole tree. */
  predicate Cleaned(c: Config, path: Path) {
    c.files == [] || SelectedBy(c.files, path)
  }

  function TmpOf(c: Config): Path {
    c.notes + ".tmp"
  }

  /** The paths `git status --porcelain` lists. */
  function Status(r: Repo): set<Path> {
    set p | p in r.head.Keys + r.index.Keys + r.work.Keys && !(At(r.work, p) == At(r.index, p) == At(r.head, p))
  }

  function At(t: Tree, p: Path): Option<Lines> {
    if p in t then Some(t[p]) else None
  }

  method IsAllowed(c: Config, path: Path) returns (r: bool)
    ensures r == Allowed(c, path)
  {
    var entries := [c.notes] + c.files;
    for i := 0 to |entries|
      invariant forall j :: 0 <= j < i ==> !Lists(entries[j], path)
    {
      if EndsWithSlash(entries[i]) {
        if ReleaseNotes.StartsWith(path, entries[i]) {
          return true;
        }
      } else if path == entries[i] {
        return true;
      }
    }
    return false;
  }

  function Strays(c: Config, paths: set<Path>): set<Path> {
    set p | p in paths && !Allowed(c, p)
  }

  method StrayPaths(c: Config, paths: set<Path>) returns (stray: set<Path>)
    ensures stray == Strays(c, paths)
  {
    stray := {};
    var rest := paths;
    while rest != {}
      invariant rest <= paths && stray == Strays(c, paths - rest)
      decreases rest
    {
      var p :| p in rest;
      var ok := IsAllowed(c, p);
      if !ok {
        stray := stray + {p};
      }
      rest := rest - {p};
    }
    assert paths - {} == paths;
  }

  // --- the CI judgement ---

  ghost predicate FirstRunAt(history: seq<(Option<string>, bool)>, k: nat) {
    && k < |history| && (forall j :: 0 <= j < k ==> history[j].0 == Some("not run"))
    && history[k].0.Some? && history[k].0 != Some("not run")
  }

  /** A workflow lets the release through: green on HEAD; or not run there, with paths it skips, and green on the
      newest commit it ran on, since which only such paths have changed. */
  ghost predicate Green(w: Workflow, ignored: bool) {
    || w.onHead == Some("success")
    || (w.onHead == Some("not run") && ignored
        && exists k: nat :: FirstRunAt(w.history, k) && w.history[k] == (Some("success"), true))
  }

  method JudgeWorkflow(w: Workflow, ignored: bool) returns (ok: bool)
    ensures ok <==> Green(w, ignored)
  {
    if w.onHead.None? {
      return false;
    }
    var state := w.onHead.value;
    if state == "not run" && ignored {
      for i := 0 to |w.history|
        invariant state == "not run"
        invariant forall j :: 0 <= j < i ==> w.history[j].0 == Some("not run")
        invariant forall k: nat :: FirstRunAt(w.history, k) ==> i <= k
      {
        var (earlier, skipped) := w.history[i];
        if earlier.None? {
          return false;
        }
        if earlier.value == "not run" {
          continue;
        }
        assert FirstRunAt(w.history, i);
        if skipped {
          state := earlier.value;
        }
        break;
      }
    }
    ok := state == "success";
  }

  ghost predicate AllGreen(ws: seq<Workflow>, ignored: bool) {
    forall i :: 0 <= i < |ws| ==> Green(ws[i], ignored)
  }

  method JudgeAll(ws: seq<Workflow>, ignored: bool) returns (ok: bool)
    ensures ok <==> AllGreen(ws, ignored)
  {
    for i := 0 to |ws|
      invariant forall j :: 0 <= j < i ==> Green(ws[j], ignored)
    {
      var green := JudgeWorkflow(ws[i], ignored);
      if !green {
        return false;
      }
    }
    return true;
  }

  // --- versions ---

  function MonthPrefix(year: nat, month: nat): string {
    "v" + Decimal.Digits(year) + "." + Decimal.Digits(month) + "."
  }

  /** `git tag -l "v$year.$month.*"`. */
  function MonthTags(tags: set<string>, year: nat, month: nat): set<string> {
    set t | t in tags && ReleaseNotes.StartsWith(t, MonthPrefix(year, month))
  }

  function VersionTag(year: nat, month: nat, patch: nat): string {
    MonthPrefix(year, month) + Decimal.Digits(patch)
  }

  function NextTag(tags: set<string>, o: Oracles): string {
    VersionTag(o.year, o.month, |MonthTags(tags, o.year, o.month)|)
  }

  function NextVersion(tags: set<string>, o: Oracles): string {
    NextTag(tags, o)[1..]
  }

  // --- the run, stage by stage ---

  function Fetched(r: Repo, c: Config, o: Oracles): (r': Repo)
    ensures r' == r.(tags := r'.tags) && r.tags <= r'.tags
  {
    if c.dry || o.fetched.None? then r else r.(tags := r.tags + o.fetched.value)
  }

  ghost predicate PrechecksPass(c: Config, o: Oracles) {
    c.dry || c.skipPrecheck || forall i :: 0 <= i < |o.prechecks| ==> o.prechecks[i]
  }

  /** The refusals in front of the restore trap. */
  ghost function Refusal(r: Repo, c: Config, o: Oracles): Option<Stage> {
    if !c.bumpNamed then Some(NoTarget)
    else if c.notes !in r.work then Some(NoNotes)
    else if !o.onMain then Some(NotMain)
    else if Status(r) != {} then Some(Dirty)
    else if !AllGreen(o.workflows, c.ignored) then Some(CiRed)
    else if !c.dry && o.fetched.None? then Some(FetchFailed)
    else if !PrechecksPass(c, o) then Some(PrecheckFailed)
    else if NextTag(Fetched(r, c, o).tags, o) in Fetched(r, c, o).tags then Some(TagExists)
    else if !ReleaseNotes.Guard(r.work[c.notes]) then Some(EmptyNotes)
    else None
  }

  /** The tags may have been fetched by the time a refusal comes. */
  ghost function Refused(r: Repo, c: Config, o: Oracles): Repo {
    match Refusal(r, c, o)
    case Some(PrecheckFailed) => Fetched(r, c, o)
    case Some(TagExists) => Fetched(r, c, o)
    case Some(EmptyNotes) => Fetched(r, c, o)
    case _ => r
  }

  function FiledTree(c: Config, o: Oracles, work: Tree, version: string): Tree
    requires c.notes in work
  {
    var filed := ReleaseNotes.Filed(work[c.notes], version, o.date);
    if o.filed then (work - {TmpOf(c)})[c.notes := filed] else work[TmpOf(c) := filed]
  }

  /** The tree after the filing and the bump; without a notes file the run was refused. */
  function Bumped(r: Repo, c: Config, o: Oracles): (r': Repo)
    ensures r' == r.(work := r'.work)
  {
    if c.notes in r.work then r.(work := o.bump(FiledTree(c, o, r.work, NextVersion(r.tags, o)))) else r
  }

  /** The annotation: what the target or the extractor prints, as `$(...)` takes it. */
  function TagBody(r: Repo, c: Config, o: Oracles): Option<Lines> {
    if c.bodyTarget then
      if o.body.Some? then Some(ReleaseNotes.Stripped(o.body.value)) else None
    else if c.notes in r.work then
      Some(ReleaseNotes.Stripped(ReleaseNotes.Extract(r.work[c.notes], NextVersion(r.tags, o))))
    else Some([])
  }

  predicate IsSpace(ch: char) {
    ch == ' ' || '\t' <= ch <= '\r'
  }

  predicate NotBlank(body: Lines) {
    exists i, j :: 0 <= i < |body| && 0 <= j < |body[i]| && !IsSpace(body[i][j])
  }

  /** An annotation is blank exactly when all its lines are white space. */
  lemma {:induction false} BlankExactly(body: Lines)
    ensures NotBlank(body) <==>
            !forall line, ch :: line in body && ch in line ==> ch in " \t\n\r" || ch as int == 11 || ch as int == 12
  {
    if !NotBlank(body) {
      forall line, ch | line in body && ch in line ensures IsSpace(ch) {
        var i :| 0 <= i < |body| && body[i] == line;
        var j :| 0 <= j < |line| && line[j] == ch;
      }
    } else {
      var i, j :| 0 <= i < |body| && 0 <= j < |body[i]| && !IsSpace(body[i][j]);
      assert body[i] in body && body[i][j] in body[i];
    }
  }

  function ExtraTags(c: Config, o: Oracles): Option<seq<string>> {
    if c.extraTarget then o.extra else Some([])
  }

  /** The checks on the bumped tree, and on the annotation. */
  function Objects(r: Repo, body: Option<Lines>, c: Config, o: Oracles): Option<Exit> {
    var extra := ExtraTags(c, o);
    if !o.bumpOk then Some(Died(BumpFailed))
    else if Strays(c, Status(r)) != {} then Some(Died(Stray))
    else if body.None? || !NotBlank(body.value) then Some(Died(NoBody))
    else if extra.None? then Some(Died(ExtraFailed))
    else if exists i :: 0 <= i < |extra.value| && extra.value[i] in r.tags then Some(Died(ExtraExists))
    else if c.dry then Some(DryRun)
    else None
  }

  function Objection(r: Repo, c: Config, o: Oracles): Option<Exit> {
    Objects(r, TagBody(r, c, o), c, o)
  }

  /** `restore`: tracked files as the index has them, no untracked file under RELEASE_FILES, no leftover notes. */
  function Restored(r: Repo, c: Config): (r': Repo)
    ensures r' == r.(work := r'.work)
  {
    r.(work := map p | p in r.work.Keys + r.index.Keys && p != TmpOf(c) && (p in r.index || !Cleaned(c, p)) ::
                 if p in r.index then r.index[p] else r.work[p])
  }

  /** `git add -A -- "$notes" $files`. */
  function Staged(r: Repo, c: Config): (r': Repo)
    ensures r' == r.(index := r'.index)
  {
    r.(index := map p | p in r.work.Keys + r.index.Keys
                        && (if SelectedBy([c.notes] + c.files, p) then p in r.work else p in r.index) ::
                  if SelectedBy([c.notes] + c.files, p) then r.work[p] else r.index[p])
  }

  function Committed(r: Repo): Repo {
    r.(head := r.index, commits := r.commits + [r.index])
  }

  /** How many tags are made, in order, until one exists already or cannot be made. */
  function TagsMade(tags: set<string>, wanted: seq<string>, taggable: nat): (n: nat)
    ensures n <= |wanted|
    decreases |wanted|
  {
    if wanted == [] || taggable == 0 || wanted[0] in tags then 0
    else 1 + TagsMade(tags + {wanted[0]}, wanted[1..], taggable - 1)
  }

  function Elements(s: seq<string>): set<string> {
    set i | 0 <= i < |s| :: s[i]
  }

  function Published(r: Repo, o: Oracles, wanted: seq<string>): (Repo, Exit) {
    var n := TagsMade(r.tags, wanted, o.taggable);
    var r' := r.(tags := r.tags + Elements(wanted[..n]));
    if n < |wanted| then (r', Died(TagFailed))
    else if !o.pushOk then (r', Died(PushFailed))
    else (r'.(pushed := r'.pushed + [wanted]), Released)
  }

  function Wanted(r: Repo, c: Config, o: Oracles): seq<string> {
    [NextTag(r.tags, o)] + match ExtraTags(c, o) case Some(e) => e case None => []
  }

  function Concluded(r: Repo, c: Config, o: Oracles): (Repo, Exit) {
    if !o.addOk then (Restored(r, c), Died(AddFailed))
    else
      var staged := Staged(r, c);
      if !o.commitOk || staged.index == staged.head then (Restored(staged, c), Died(CommitFailed))
      else Published(Committed(staged), o, Wanted(r, c, o))
  }

  ghost function Run(r: Repo, c: Config, o: Oracles): (Repo, Exit) {
    if Refusal(r, c, o).Some? then (Refused(r, c, o), Died(Refusal(r, c, o).value))
    else
      var r' := Bumped(Fetched(r, c, o), c, o);
      match Objection(r', c, o)
      case Some(exit) => (Restored(r', c), exit)
      case None => Concluded(r', c, o)
  }

  // --- the script ---

  method Count(tags: set<string>, prefix: string) returns (n: nat)
    ensures n == |set t | t in tags && ReleaseNotes.StartsWith(t, prefix)|
  {
    n := 0;
    var rest := tags;
    while rest != {}
      invariant rest <= tags
      invariant n == |set t | t in tags - rest && ReleaseNotes.StartsWith(t, prefix)|
      decreases rest
    {
      var t :| t in rest;
      ghost var before := set u | u in tags - rest && ReleaseNotes.StartsWith(u, prefix);
      rest := rest - {t};
      ghost var after := set u | u in tags - rest && ReleaseNotes.StartsWith(u, prefix);
      assert tags - rest == tags - (rest + {t}) + {t};
      assert t !in before;
      if ReleaseNotes.StartsWith(t, prefix) {
        assert after == before + {t};
        n := n + 1;
      } else {
        assert after == before;
      }
    }
    assert tags - {} == tags;
  }

  class Repository {
    var head: Tree
    var index: Tree
    var work: Tree
    var tags: set<string>
    var commits: seq<Tree>
    var pushed: seq<seq<string>>

    ghost function View(): Repo
      reads this
    {
      Repo(head, index, work, tags, commits, pushed)
    }

    constructor (head: Tree, tags: set<string>)
      ensures View() == Repo(head, head, head, tags, [], [])
    {
      this.head, index, work, this.tags, commits, pushed := head, head, head, tags, [], [];
    }

    method Restore(c: Config)
      modifies this`work
      ensures View() == Restored(old(View()), c)
    {
      work := map p | p in work.Keys + index.Keys :: if p in index then index[p] else work[p];
      work := map p | p in work && (p in index || !Cleaned(c, p)) :: work[p];
      work := work - {TmpOf(c)};
      assert work == Restored(old(View()), c).work;
    }

    /** Everything in front of the restore trap; the version when nothing refuses. */
    method Prelude(c: Config, o: Oracles) returns (refusal: Option<Stage>, tag: string)
      modifies this`tags
      ensures refusal == Refusal(old(View()), c, o)
      ensures refusal.Some? ==> View() == Refused(old(View()), c, o)
      ensures refusal.None? ==> View() == Fetched(old(View()), c, o) && tag == NextTag(tags, o)
    {
      tag := "";
      if !c.bumpNamed { return Some(NoTarget), tag; }
      if c.notes !in work { return Some(NoNotes), tag; }
      if !o.onMain { return Some(NotMain), tag; }
      if work != index || index != head {
        DirtyStatus(View());
        return Some(Dirty), tag;
      }
      var green := JudgeAll(o.workflows, c.ignored);
      if !green { return Some(CiRed), tag; }
      if !c.dry {
        if o.fetched.None? { return Some(FetchFailed), tag; }
        tags := tags + o.fetched.value;
      }
      if !c.dry && !c.skipPrecheck {
        for i := 0 to |o.prechecks|
          invariant forall j :: 0 <= j < i ==> o.prechecks[j]
        {
          if !o.prechecks[i] { return Some(PrecheckFailed), tag; }
        }
      }
      var patch := Count(tags, MonthPrefix(o.year, o.month));
      tag := VersionTag(o.year, o.month, patch);
      if tag in tags { return Some(TagExists), tag; }
      var accepted := ReleaseNotes.CheckNotes(work[c.notes]);
      if !accepted { return Some(EmptyNotes), tag; }
      refusal := None;
    }

    /** The filing of the notes and the bump. */
    method Edit(c: Config, o: Oracles, version: string)
      requires c.notes in work && version == NextVersion(tags, o)
      modifies this`work
      ensures View() == Bumped(old(View()), c, o)
    {
      var filed := ReleaseNotes.FileNotes(work[c.notes], version, o.date);
      if o.filed {
        work := (work - {TmpOf(c)})[c.notes := filed];
      } else {
        work := work[TmpOf(c) := filed];
      }
      work := o.bump(work);
    }

    method Object(c: Config, o: Oracles, version: string) returns (exit: Option<Exit>)
      requires version == NextVersion(tags, o)
      ensures exit == Objection(View(), c, o)
    {
      if !o.bumpOk { return Some(Died(BumpFailed)); }
      var stray := StrayPaths(c, Status(Repo(head, index, work, tags, commits, pushed)));
      if stray != {} { return Some(Died(Stray)); }
      var body: Option<Lines> := None;
      if c.bodyTarget {
        if o.body.Some? {
          body := Some(ReleaseNotes.Stripped(o.body.value));
        }
      } else if c.notes in work {
        var section := ReleaseNotes.ExtractNotes(work[c.notes], version);
        body := Some(ReleaseNotes.Stripped(section));
      } else {
        body := Some([]);
      }
      if body.None? || !NotBlank(body.value) { return Some(Died(NoBody)); }
      var extra := if c.extraTarget then o.extra else Some([]);
      if extra.None? { return Some(Died(ExtraFailed)); }
      for i := 0 to |extra.value|
        invariant forall j :: 0 <= j < i ==> extra.value[j] !in tags
      {
        if extra.value[i] in tags { return Some(Died(ExtraExists)); }
      }
      exit := if c.dry then Some(DryRun) else None;
    }

    /** The tags and the push. */
    method Publish(o: Oracles, wanted: seq<string>) returns (exit: Exit)
      modifies this`tags, this`pushed
      ensures (View(), exit) == Published(old(View()), o, wanted)
    {
      hide Elements, TagsMade;
      ghost var n := TagsMade(tags, wanted, o.taggable);
      NothingMade(tags, wanted);
      assert wanted[0..] == wanted && tags + Elements(wanted[..0]) == tags;
      for i := 0 to |wanted|
        invariant View() == old(View()).(tags := tags) && tags == old(tags) + Elements(wanted[..i])
        invariant i <= o.taggable && n == i + TagsMade(tags, wanted[i..], o.taggable - i)
      {
        TagsMadeStep(tags, wanted, i, o.taggable - i);
        if i >= o.taggable || wanted[i] in tags {
          return Died(TagFailed);
        }
        ElementsStep(wanted, i);
        tags := tags + {wanted[i]};
      }
      TagsMadeAll(tags, wanted, o.taggable - |wanted|);
      if !o.pushOk {
        return Died(PushFailed);
      }
      pushed := pushed + [wanted];
      return Released;
    }

    method Conclude(c: Config, o: Oracles, wanted: seq<string>) returns (exit: Exit)
      requires wanted == Wanted(View(), c, o)
      modifies this
      ensures (View(), exit) == Concluded(old(View()), c, o)
    {
      if !o.addOk {
        Restore(c);
        return Died(AddFailed);
      }
      var entries := [c.notes] + c.files;
      index := map p | p in work.Keys + index.Keys && (if SelectedBy(entries, p) then p in work else p in index) ::
                 if SelectedBy(entries, p) then work[p] else index[p];
      assert View() == Staged(old(View()), c);
      if !o.commitOk || index == head {
        Restore(c);
        return Died(CommitFailed);
      }
      head, commits := index, commits + [index];
      exit := Publish(o, wanted);
    }

    method Release(c: Config, o: Oracles) returns (exit: Exit)
      modifies this
      ensures (View(), exit) == Run(old(View()), c, o)
    {
      hide Objection, Concluded, Restored, Refused, Status, FiledTree;
      var refusal, tag := Prelude(c, o);
      if refusal.Some? {
        return Died(refusal.value);
      }
      Edit(c, o, tag[1..]);
      var objection := Object(c, o, tag[1..]);
      if objection.Some? {
        Restore(c);
        return objection.value;
      }
      var extra := if c.extraTarget then o.extra else Some([]);
      ExtraMade(View(), c, o);
      exit := Conclude(c, o, [tag] + extra.value);
    }
  }

  lemma {:induction false} NothingMade(tags: set<string>, wanted: seq<string>)
    ensures tags + Elements(wanted[..0]) == tags
  {
  }

  lemma {:induction false} TagsMadeStep(tags: set<string>, wanted: seq<string>, i: nat, taggable: nat)
    requires i < |wanted|
    ensures TagsMade(tags, wanted[i..], taggable)
            == if taggable == 0 || wanted[i] in tags then 0
                else 1 + TagsMade(tags + {wanted[i]}, wanted[i + 1..], taggable - 1)
  {
    assert wanted[i..][1..] == wanted[i + 1..];
  }

  lemma {:induction false} TagsMadeAll(tags: set<string>, wanted: seq<string>, taggable: nat)
    ensures TagsMade(tags, wanted[|wanted|..], taggable) == 0
  {
  }

  lemma {:induction false} ElementsStep(s: seq<string>, i: nat)
    requires i < |s|
    ensures Elements(s[..i + 1]) == Elements(s[..i]) + {s[i]}
  {
    assert forall j :: 0 <= j < i ==> s[..i + 1][j] == s[..i][j];
    assert s[..i + 1][i] == s[i];
  }

  lemma {:induction false} DirtyStatus(r: Repo)
    ensures Status(r) == {} <==> r.work == r.index == r.head
  {
    if Status(r) == {} {
      forall p ensures At(r.work, p) == At(r.index, p) == At(r.head, p) {
        assert p !in Status(r);
      }
      SameTree(r.work, r.index);
      SameTree(r.index, r.head);
    }
  }

  lemma {:induction false} SameTree(a: Tree, b: Tree)
    requires forall p :: At(a, p) == At(b, p)
    ensures a == b
  {
    forall p ensures p in a <==> p in b {
      assert At(a, p) == At(b, p);
    }
    forall p | p in a ensures a[p] == b[p] {
      assert At(a, p) == At(b, p);
    }
  }

  lemma {:induction false} ExtraMade(r: Repo, c: Config, o: Oracles)
    ensures Objection(r, c, o).None? ==> ExtraTags(c, o).Some?
  {
  }

  // --- what a run needs, on its inputs ---

  /** The tags a run counts: a dry run fetches none. */
  function KnownTags(r: Repo, c: Config, o: Oracles): set<string> {
    if c.dry || o.fetched.None? then r.tags else r.tags + o.fetched.value
  }

  /** The tag of the run's version: the month's tags counted. */
  function OwnTag(r: Repo, c: Config, o: Oracles): string {
    var month := "v" + Decimal.Digits(o.year) + "." + Decimal.Digits(o.month) + ".";
    month + Decimal.Digits(|set t | t in KnownTags(r, c, o) && ReleaseNotes.StartsWith(t, month)|)
  }

  /** What the script asks in front of its trap, in order: a bump is named, the notes exist, HEAD is on main, the tree
      is clean, every workflow is green, the tags were fetched and the prechecks pass, each unless it is skipped, the
      version's tag is new, and the section of the first mark in the notes holds more than blanks. */
  ghost function Guards(r: Repo, c: Config, o: Oracles): (g: seq<(bool, Stage)>)
    ensures |g| == 9
  {
    [(c.bumpNamed, NoTarget),
     (c.notes in r.work, NoNotes),
     (o.onMain, NotMain),
     (r.head == r.index == r.work, Dirty),
     (forall i :: 0 <= i < |o.workflows| ==> Green(o.workflows[i], c.ignored), CiRed),
     (c.dry || o.fetched.Some?, FetchFailed),
     (c.dry || c.skipPrecheck || forall i :: 0 <= i < |o.prechecks| ==> o.prechecks[i], PrecheckFailed),
     (OwnTag(r, c, o) !in KnownTags(r, c, o), TagExists),
     (c.notes in r.work && exists m: nat :: ReleaseNotes.HoldsEntries(r.work[c.notes], m), EmptyNotes)]
  }

  ghost predicate FirstFalse<T>(guards: seq<(bool, T)>, k: nat) {
    k < |guards| && !guards[k].0 && forall i :: 0 <= i < k ==> guards[i].0
  }

  ghost predicate AllTrue<T>(guards: seq<(bool, T)>) {
    forall i :: 0 <= i < |guards| ==> guards[i].0
  }

  /** The guards in the script's own terms. */
  lemma {:induction false} GuardsTested(r: Repo, c: Config, o: Oracles)
    ensures var g, fetched := Guards(r, c, o), Fetched(r, c, o);
            && g[3] == (Status(r) == {}, Dirty) && g[4] == (AllGreen(o.workflows, c.ignored), CiRed)
            && g[5] == (c.dry || o.fetched.Some?, FetchFailed) && g[6] == (PrechecksPass(c, o), PrecheckFailed)
            && g[7] == (NextTag(fetched.tags, o) !in fetched.tags, TagExists)
            && g[8] == (c.notes in r.work && ReleaseNotes.Guard(r.work[c.notes]), EmptyNotes)
  {
    hide Status, Green, ReleaseNotes.Guard, ReleaseNotes.HoldsEntries, ReleaseNotes.StartsWith, Decimal.Digits;
    DirtyStatus(r);
    if c.notes in r.work {
      ReleaseNotes.GuardExactly(r.work[c.notes]);
    }
  }

  /** A run gets past its trap exactly when it meets all of that, and is otherwise refused for the first it does not. */
  lemma {:induction false} PastTrapExactly(r: Repo, c: Config, o: Oracles)
    ensures Refusal(r, c, o).None? <==> AllTrue(Guards(r, c, o))
    ensures forall k: nat :: FirstFalse(Guards(r, c, o), k) ==> Refusal(r, c, o) == Some(Guards(r, c, o)[k].1)
  {
    hide Status, AllGreen, PrechecksPass, Fetched, NextTag, ReleaseNotes.Guard, Guards;
    GuardsTested(r, c, o);
    FirstGuards(r, c, o);
    var g := Guards(r, c, o);
    assert AllTrue(g) <==> g[0].0 && g[1].0 && g[2].0 && g[3].0 && g[4].0 && g[5].0 && g[6].0 && g[7].0 && g[8].0;
  }

  lemma {:induction false} FirstGuards(r: Repo, c: Config, o: Oracles)
    ensures var g := Guards(r, c, o);
            g[0] == (c.bumpNamed, NoTarget) && g[1] == (c.notes in r.work, NoNotes) && g[2] == (o.onMain, NotMain)
  {
    hide Green, ReleaseNotes.HoldsEntries, ReleaseNotes.StartsWith, Decimal.Digits, OwnTag, KnownTags;
  }

  /** The tree that a run which is not refused commits: what the bump makes of the filed notes. */
  function BumpedTree(r: Repo, c: Config, o: Oracles): Tree
    requires c.notes in r.work
  {
    var notes := ReleaseNotes.Filed(r.work[c.notes], OwnTag(r, c, o)[1..], o.date);
    o.bump(if o.filed then (r.work - {c.notes + ".tmp"})[c.notes := notes] else r.work[c.notes + ".tmp" := notes])
  }

  /** The path is the notes, a listed file, or a file under a listed directory. */
  ghost predicate MayChange(c: Config, p: Path) {
    var entries := [c.notes] + c.files;
    exists i :: 0 <= i < |entries|
                && if entries[i] != "" && entries[i][|entries[i]| - 1] == '/'
                   then |entries[i]| <= |p| && p[..|entries[i]|] == entries[i]
                   else p == entries[i]
  }

  /** What the annotation is made of: the target's output, or the version's section of the bumped notes. */
  function Annotation(r: Repo, c: Config, o: Oracles): Option<Lines>
    requires c.notes in r.work
  {
    var tree := BumpedTree(r, c, o);
    if c.bodyTarget then o.body
    else if c.notes in tree then Some(ReleaseNotes.Extract(tree[c.notes], OwnTag(r, c, o)[1..]))
    else None
  }

  ghost predicate Distinct(tags: seq<string>) {
    forall i, j :: 0 <= i < j < |tags| ==> tags[i] != tags[j]
  }

  lemma {:induction false} MayChangeIsAllowed(c: Config, p: Path)
    ensures MayChange(c, p) <==> Allowed(c, p)
  {
  }

  lemma {:induction false} StraysExactly(r: Repo, c: Config)
    requires r.index == r.head
    ensures Strays(c, Status(r)) == {} <==> forall p :: At(r.work, p) != At(r.head, p) ==> MayChange(c, p)
  {
    hide Allowed, MayChange;
    forall p ensures p in Strays(c, Status(r)) <==> At(r.work, p) != At(r.head, p) && !MayChange(c, p) {
      MayChangeIsAllowed(c, p);
      assert p in Status(r) <==> At(r.work, p) != At(r.head, p);
    }
  }

  /** Blank lines at the end of an output do not matter to whether it is blank. */
  lemma {:induction false} StrippedBlank(lines: Lines)
    ensures NotBlank(ReleaseNotes.Stripped(lines)) <==> NotBlank(lines)
    decreases |lines|
  {
    if lines != [] && lines[|lines| - 1] == "" {
      var front := lines[..|lines| - 1];
      StrippedBlank(front);
      assert NotBlank(front) <==> NotBlank(lines) by {
        assert forall i :: 0 <= i < |front| ==> front[i] == lines[i];
      }
    }
  }

  lemma {:induction false} AllTagsMade(tags: set<string>, wanted: seq<string>, taggable: nat)
    ensures TagsMade(tags, wanted, taggable) == |wanted| <==>
              && |wanted| <= taggable && Distinct(wanted) && forall i :: 0 <= i < |wanted| ==> wanted[i] !in tags
    decreases |wanted|
  {
    if wanted != [] && taggable > 0 && wanted[0] !in tags {
      var rest := wanted[1..];
      AllTagsMade(tags + {wanted[0]}, rest, taggable - 1);
      assert forall i :: 1 <= i < |wanted| ==> wanted[i] == rest[i - 1];
    }
  }

  /** What the script asks of the bumped tree, in order: the bump succeeds, it changes nothing but the notes and the
      allowed entries, the annotation is not blank, the extra tags can be named, none exists, and the run is no dry
      one. */
  ghost function Checks(r: Repo, c: Config, o: Oracles): (g: seq<(bool, Exit)>)
    requires c.notes in r.work
    ensures |g| == 6
  {
    [(o.bumpOk, Died(BumpFailed)),
     (forall p :: At(BumpedTree(r, c, o), p) != At(r.head, p) ==> MayChange(c, p), Died(Stray)),
     (Annotation(r, c, o).Some? && NotBlank(Annotation(r, c, o).value), Died(NoBody)),
     (c.extraTarget ==> o.extra.Some?, Died(ExtraFailed)),
     (c.extraTarget && o.extra.Some? ==>
        forall i :: 0 <= i < |o.extra.value| ==> o.extra.value[i] !in KnownTags(r, c, o), Died(ExtraExists)),
     (!c.dry, DryRun)]
  }

  /** The tags of a run: its version's, and those the target names. */
  function AllTags(r: Repo, c: Config, o: Oracles): seq<string> {
    [OwnTag(r, c, o)] + if c.extraTarget && o.extra.Some? then o.extra.value else []
  }

  lemma {:induction false} SameInputs(r: Repo, c: Config, o: Oracles)
    requires Refusal(r, c, o).None?
    ensures c.notes in r.work && r.work == r.index == r.head
    ensures var b := Bumped(Fetched(r, c, o), c, o);
            && b.work == BumpedTree(r, c, o) && b.index == b.head == r.head && b.tags == KnownTags(r, c, o)
            && b.commits == r.commits && b.pushed == r.pushed && Wanted(b, c, o) == AllTags(r, c, o)
  {
    hide AllGreen, Status, ReleaseNotes.Filed, ReleaseNotes.StartsWith, Decimal.Digits, ReleaseNotes.Guard;
    DirtyStatus(r);
    assert OwnTag(r, c, o) == NextTag(Fetched(r, c, o).tags, o);
  }

  /** The checks let a run through exactly when it meets all of that, and otherwise end it as the first it does not. */
  lemma {:induction false} ChecksExactly(r: Repo, c: Config, o: Oracles)
    requires Refusal(r, c, o).None?
    ensures c.notes in r.work
    ensures var objection := Objection(Bumped(Fetched(r, c, o), c, o), c, o);
            && (objection.None? <==> AllTrue(Checks(r, c, o)))
            && forall k: nat :: FirstFalse(Checks(r, c, o), k) ==> objection == Some(Checks(r, c, o)[k].1)
  {
    hide Refusal, Fetched, Bumped, BumpedTree, Status, Strays, MayChange, NotBlank, Wanted, AllTags;
    hide ReleaseNotes.Extract, KnownTags, OwnTag;
    SameInputs(r, c, o);
    var b := Bumped(Fetched(r, c, o), c, o);
    StraysExactly(b, c);
    OwnVersion(r, c, o, b);
    if c.bodyTarget {
      if o.body.Some? {
        StrippedBlank(o.body.value);
      }
    } else if c.notes in b.work {
      StrippedBlank(ReleaseNotes.Extract(b.work[c.notes], NextVersion(b.tags, o)));
    } else {
      assert !NotBlank([]) by { NothingIsBlank(); }
    }
    var g := Checks(r, c, o);
    assert AllTrue(g) <==> g[0].0 && g[1].0 && g[2].0 && g[3].0 && g[4].0 && g[5].0;
  }

  lemma {:induction false} NothingIsBlank()
    ensures !NotBlank([])
  {
  }

  lemma {:induction false} OwnVersion(r: Repo, c: Config, o: Oracles, b: Repo)
    requires b.tags == KnownTags(r, c, o)
    ensures NextTag(b.tags, o) == OwnTag(r, c, o) && NextVersion(b.tags, o) == OwnTag(r, c, o)[1..]
  {
    hide ReleaseNotes.StartsWith, Decimal.Digits;
  }

  /** A run releases exactly when it gets past its trap, the checks let it through, git adds and commits, what it
      commits is not HEAD as it is, its tags are new and no two of them the same, and all are made and pushed. It then
      leaves the bumped tree as HEAD, and its tags, pushed together. */
  lemma {:induction false} ReleasedExactly(r: Repo, c: Config, o: Oracles)
    ensures Run(r, c, o).1 == Released <==>
              && AllTrue(Guards(r, c, o)) && c.notes in r.work && AllTrue(Checks(r, c, o))
              && o.addOk && o.commitOk && BumpedTree(r, c, o) != r.head
              && |AllTags(r, c, o)| <= o.taggable && Distinct(AllTags(r, c, o))
              && (forall i :: 0 <= i < |AllTags(r, c, o)| ==> AllTags(r, c, o)[i] !in KnownTags(r, c, o))
              && o.pushOk
    ensures Run(r, c, o).1 == Released ==>
              var r' := Run(r, c, o).0;
              && c.notes in r.work && r'.head == r'.index == r'.work == BumpedTree(r, c, o)
              && r'.commits == r.commits + [r'.head] && r'.pushed == r.pushed + [AllTags(r, c, o)]
              && forall t :: t in r'.tags <==> t in KnownTags(r, c, o) || t in AllTags(r, c, o)
  {
    hide Refusal, Refused, Fetched, Bumped, BumpedTree, Objection, Restored, Staged, Wanted, AllTags, KnownTags, Checks;
    hide Distinct, TagsMade, Status, Strays, Guards, AllTrue;
    PastTrapExactly(r, c, o);
    if Refusal(r, c, o).None? {
      SameInputs(r, c, o);
      ChecksExactly(r, c, o);
      var b, wanted := Bumped(Fetched(r, c, o), c, o), AllTags(r, c, o);
      AllTagsMade(b.tags, wanted, o.taggable);
      assert wanted[..|wanted|] == wanted;
      ObjectionEnds(b, c, o);
      if Objection(b, c, o).None? {
        NoStray(b, c, o);
        StagedIsWork(b, c);
      }
    }
  }

  // --- exits before `git add` ---

  /** A run that exits before `git add` has made no commit, tag or push and has staged nothing; at most it fetched. */
  lemma {:induction false} ExitBeforeAdd(r: Repo, c: Config, o: Oracles)
    requires BeforeAdd(Run(r, c, o).1)
    ensures var r' := Run(r, c, o).0;
            && r'.head == r.head && r'.index == r.index && r'.commits == r.commits && r'.pushed == r.pushed
            && (r'.tags == r.tags || r'.tags == Fetched(r, c, o).tags)
            && (Refusal(r, c, o).Some? ==> r'.work == r.work)
  {
    hide AllGreen, Status, Objection, FiledTree, NextTag;
    NothingConcluded(Bumped(Fetched(r, c, o), c, o), c, o);
  }

  lemma {:induction false} NothingConcluded(r: Repo, c: Config, o: Oracles)
    ensures !BeforeAdd(Concluded(r, c, o).1)
  {
    hide Staged, Restored;
  }

  /** Past its trap, such a run leaves every tracked file as HEAD has it, and no new file under RELEASE_FILES. */
  lemma {:induction false} TreeRestored(r: Repo, c: Config, o: Oracles)
    requires BeforeAdd(Run(r, c, o).1) && Refusal(r, c, o).None?
    ensures var work := Run(r, c, o).0.work;
            && (forall p :: p in r.head && p != TmpOf(c) ==> p in work && work[p] == r.head[p])
            && (forall p :: p in work && Cleaned(c, p) ==> p in r.head)
  {
    CleanStart(r, c, o);
    NothingConcluded(Bumped(Fetched(r, c, o), c, o), c, o);
    hide AllGreen, Status, Objection, FiledTree, NextTag, Concluded;
  }

  lemma {:induction false} CleanStart(r: Repo, c: Config, o: Oracles)
    requires Refusal(r, c, o).None?
    ensures r.work == r.index == r.head && c.notes in r.head
    ensures NextTag(Fetched(r, c, o).tags, o) !in Fetched(r, c, o).tags
  {
    hide AllGreen;
    DirtyStatus(r);
  }

  /** The whole working tree is HEAD again if and only if no file is tracked under the name of the temporary notes and
      the bump left no new file outside RELEASE_FILES. */
  lemma {:induction false} TreeRestoredExactly(r: Repo, c: Config, o: Oracles)
    requires BeforeAdd(Run(r, c, o).1) && Refusal(r, c, o).None?
    ensures var bumped := Bumped(Fetched(r, c, o), c, o).work;
            Run(r, c, o).0.work == r.head <==>
              TmpOf(c) !in r.head && forall p :: p in bumped && p !in r.head && p != TmpOf(c) ==> Cleaned(c, p)
  {
    CleanStart(r, c, o);
    var b := Bumped(Fetched(r, c, o), c, o);
    NothingConcluded(b, c, o);
    hide AllGreen, Status, Objection, FiledTree, NextTag, Concluded, Cleaned;
    var work := Restored(b, c).work;
    assert Run(r, c, o).0.work == work;
    if TmpOf(c) !in r.head && forall p :: p in b.work && p !in r.head && p != TmpOf(c) ==> Cleaned(c, p) {
      assert forall p :: p in work <==> p in r.head;
    } else if TmpOf(c) in r.head {
      assert TmpOf(c) !in work;
    }
  }

  // --- what is committed ---

  lemma {:induction false} AllowedIsSelected(c: Config, p: Path)
    requires Allowed(c, p)
    ensures SelectedBy([c.notes] + c.files, p)
  {
    hide ReleaseNotes.StartsWith;
    var i :| 0 <= i < |c.files| + 1 && Lists(([c.notes] + c.files)[i], p);
    assert Selects(([c.notes] + c.files)[i], p);
  }

  /** Once nothing has strayed, staging takes every change of the bump. */
  lemma {:induction false} StagedIsWork(r: Repo, c: Config)
    requires r.index == r.head && Strays(c, Status(r)) == {}
    ensures Staged(r, c).index == r.work
    ensures forall p :: At(r.work, p) != At(r.head, p) ==> Allowed(c, p)
  {
    hide SelectedBy, Allowed;
    forall p | At(r.work, p) != At(r.head, p) ensures Allowed(c, p) && SelectedBy([c.notes] + c.files, p) {
      assert p in Status(r);
      assert p !in Strays(c, Status(r));
      AllowedIsSelected(c, p);
    }
    var index := Staged(r, c).index;
    forall p ensures At(index, p) == At(r.work, p) {
      if At(r.work, p) == At(r.head, p) {
        assert p in r.work <==> p in r.head;
      } else {
        assert SelectedBy([c.notes] + c.files, p);
      }
    }
    SameTree(index, r.work);
  }

  predicate PastCommit(e: Exit) {
    e.Released? || (e.Died? && (e.stage.TagFailed? || e.stage.PushFailed?))
  }

  lemma {:induction false} NoStray(r: Repo, c: Config, o: Oracles)
    requires Objection(r, c, o).None?
    ensures Strays(c, Status(r)) == {} && !c.dry
    ensures forall i :: 0 <= i < |ExtraTags(c, o).value| ==> ExtraTags(c, o).value[i] !in r.tags
  {
    hide Status, Strays;
  }

  lemma {:induction false} ObjectionEnds(r: Repo, c: Config, o: Oracles)
    ensures Objection(r, c, o).Some? ==> BeforeAdd(Objection(r, c, o).value)
  {
    hide Status, Strays;
  }

  lemma {:induction false} RefusalEnds(r: Repo, c: Config, o: Oracles)
    ensures Refusal(r, c, o).Some? ==> BeforeAdd(Died(Refusal(r, c, o).value))
  {
    hide AllGreen, Status;
  }

  /** A run that gets past `git add` was not refused and met no objection. */
  lemma {:induction false} Reached(r: Repo, c: Config, o: Oracles)
    requires !BeforeAdd(Run(r, c, o).1)
    ensures Refusal(r, c, o).None? && r.work == r.index == r.head && !c.dry
    ensures var b := Bumped(Fetched(r, c, o), c, o);
            Objection(b, c, o).None? && Staged(b, c).index == b.work && Run(r, c, o) == Concluded(b, c, o)
  {
    hide Refusal, AllGreen, Status, Objection, FiledTree, NextTag, Strays, Concluded, Staged, Restored;
    RefusalEnds(r, c, o);
    CleanStart(r, c, o);
    var b := Bumped(Fetched(r, c, o), c, o);
    ObjectionEnds(b, c, o);
    NoStray(b, c, o);
    StagedIsWork(b, c);
  }

  /** Every path committed is the notes or an allowed entry; the commit holds the whole bump, and the tree is clean. */
  lemma {:induction false} CommittedPaths(r: Repo, c: Config, o: Oracles)
    requires PastCommit(Run(r, c, o).1)
    ensures var r' := Run(r, c, o).0;
            && r'.commits == r.commits + [r'.head] && r'.head == r'.index == r'.work
            && r'.head == Bumped(Fetched(r, c, o), c, o).work
            && forall p :: At(r'.head, p) != At(r.head, p) ==> Allowed(c, p)
  {
    hide Refusal, Objection, FiledTree, NextTag, Strays, Staged, Status, Allowed, AllGreen, TagsMade, Elements;
    Reached(r, c, o);
    var b := Bumped(Fetched(r, c, o), c, o);
    NoStray(b, c, o);
    StagedIsWork(b, c);
  }

  /** A commit that fails leaves the release staged: the restore takes tracked files from the index, not from HEAD. So
      the tree is HEAD again, as far as it is tracked, only if there was nothing to commit. */
  lemma {:induction false} FailedCommitStaysStaged(r: Repo, c: Config, o: Oracles)
    requires Run(r, c, o).1 == Died(CommitFailed)
    ensures var (r', b) := (Run(r, c, o).0, Bumped(Fetched(r, c, o), c, o));
            && r'.head == r.head && r'.commits == r.commits && r'.index == b.work
            && (forall p :: p in b.work && p != TmpOf(c) ==> p in r'.work && r'.work[p] == b.work[p])
            && (r'.index == r.head <==> b.work == r.head)
  {
    hide Refusal, Objection, FiledTree, NextTag, Strays, Staged, Status, Allowed, AllGreen, TagsMade, Elements, Cleaned;
    Reached(r, c, o);
  }

  // --- version numbers ---

  /** The run has made its version's tag. */
  predicate CutsTag(o: Oracles, e: Exit) {
    PastCommit(e) && o.taggable > 0
  }

  /** The tags of a run that cuts one. */
  lemma {:induction false} PublishedTags(r: Repo, o: Oracles, wanted: seq<string>)
    requires wanted != []
    ensures var (r', e) := Published(r, o, wanted);
            && r.tags <= r'.tags <= r.tags + Elements(wanted) && PastCommit(e)
            && (o.taggable > 0 && wanted[0] !in r.tags ==> wanted[0] in r'.tags)
  {
    var n := TagsMade(r.tags, wanted, o.taggable);
    assert forall i :: 0 <= i < n ==> wanted[..n][i] == wanted[i];
    assert n > 0 ==> wanted[..n][0] in Elements(wanted[..n]);
  }

  /** No run removes a tag. One that cuts a version's tag cuts a new one; the others make none. */
  lemma {:induction false} TagsAfter(r: Repo, c: Config, o: Oracles)
    ensures var (r', e) := Run(r, c, o);
            var f := Fetched(r, c, o);
            && r.tags <= r'.tags
            && (!CutsTag(o, e) ==> r'.tags <= f.tags)
            && (CutsTag(o, e) ==>
                  && f.tags <= r'.tags <= f.tags + Elements(Wanted(f, c, o))
                  && NextTag(f.tags, o) !in f.tags && NextTag(f.tags, o) in r'.tags)
  {
    hide Refusal, Objection, FiledTree, NextTag, Strays, Staged, Restored, Status, Allowed, AllGreen, TagsMade,
         Elements, Bumped, Fetched, Published, Wanted;
    var e := Run(r, c, o).1;
    if BeforeAdd(e) {
      ExitBeforeAdd(r, c, o);
    } else {
      Reached(r, c, o);
      CleanStart(r, c, o);
      var f, b := Fetched(r, c, o), Bumped(Fetched(r, c, o), c, o);
      WantedFirst(b, c, o);
      WantedSame(b, f, c, o);
      if o.addOk && o.commitOk && Staged(b, c).index != b.head {
        PublishedTags(Committed(Staged(b, c)), o, Wanted(b, c, o));
        PublishedNone(Committed(Staged(b, c)), o, Wanted(b, c, o));
      }
    }
  }

  lemma {:induction false} WantedFirst(r: Repo, c: Config, o: Oracles)
    ensures Wanted(r, c, o) != [] && Wanted(r, c, o)[0] == NextTag(r.tags, o)
  {
    hide NextTag;
  }

  lemma {:induction false} WantedSame(r: Repo, r': Repo, c: Config, o: Oracles)
    requires r.tags == r'.tags
    ensures Wanted(r, c, o) == Wanted(r', c, o)
  {
    hide NextTag;
  }

  lemma {:induction false} PublishedNone(r: Repo, o: Oracles, wanted: seq<string>)
    ensures o.taggable == 0 ==> Published(r, o, wanted).0.tags == r.tags
  {
    assert wanted[..0] == [];
  }

  /** A run as it finds the repository: whatever was committed or edited since the last, the tags are those it left. */
  datatype Attempt = Attempt(head: Tree, index: Tree, work: Tree, c: Config, o: Oracles)

  function Found(r: Repo, a: Attempt): Repo {
    r.(head := a.head, index := a.index, work := a.work)
  }

  ghost function After(r: Repo, a: Attempt): Repo {
    Run(Found(r, a), a.c, a.o).0
  }

  ghost predicate Cuts(r: Repo, a: Attempt) {
    CutsTag(a.o, Run(Found(r, a), a.c, a.o).1)
  }

  ghost function CutTag(r: Repo, a: Attempt): string {
    NextTag(Fetched(Found(r, a), a.c, a.o).tags, a.o)
  }

  /** The version tags that a sequence of runs cuts. */
  ghost function AllCuts(r: Repo, runs: seq<Attempt>): seq<string>
    decreases |runs|
  {
    if runs == [] then []
    else (if Cuts(r, runs[0]) then [CutTag(r, runs[0])] else []) + AllCuts(After(r, runs[0]), runs[1..])
  }

  lemma {:induction false} AttemptTags(r: Repo, a: Attempt)
    ensures r.tags <= After(r, a).tags
    ensures Cuts(r, a) ==> CutTag(r, a) !in r.tags && CutTag(r, a) in After(r, a).tags
  {
    hide Run, NextTag, Fetched;
    TagsAfter(Found(r, a), a.c, a.o);
  }

  ghost predicate NoneIn(cuts: seq<string>, tags: set<string>) {
    forall i :: 0 <= i < |cuts| ==> cuts[i] !in tags
  }

  ghost predicate AllDifferent(cuts: seq<string>) {
    forall i, j :: 0 <= i < j < |cuts| ==> cuts[i] != cuts[j]
  }

  lemma {:induction false} OneMoreCut(tag: string, rest: seq<string>, tags: set<string>)
    requires NoneIn(rest, tags) && AllDifferent(rest) && tag in tags
    ensures AllDifferent([tag] + rest)
  {
  }

  lemma {:induction false} FewerTags(cuts: seq<string>, tags: set<string>, fewer: set<string>)
    requires NoneIn(cuts, tags) && fewer <= tags
    ensures NoneIn(cuts, fewer)
  {
  }

  /** No version is ever reused, whatever the tags and whatever fails. */
  lemma {:induction false} NoReuse(r: Repo, runs: seq<Attempt>)
    ensures NoneIn(AllCuts(r, runs), r.tags) && AllDifferent(AllCuts(r, runs))
    decreases |runs|
  {
    hide Cuts, CutTag, After, AllDifferent;
    if runs == [] {
      assert AllDifferent([]) by { NoCuts(); }
    } else {
      var a := runs[0];
      var rest := AllCuts(After(r, a), runs[1..]);
      AttemptTags(r, a);
      NoReuse(After(r, a), runs[1..]);
      FewerTags(rest, After(r, a).tags, r.tags);
      if Cuts(r, a) {
        OneMoreCut(CutTag(r, a), rest, After(r, a).tags);
      } else {
        assert [] + rest == rest;
      }
    }
  }

  lemma {:induction false} NoCuts()
    ensures AllDifferent([])
  {
  }

  // --- numbering ---

  predicate NoDot(s: string) {
    forall i :: 0 <= i < |s| ==> s[i] != '.'
  }

  /** Text is split at its first dot in one way. */
  lemma {:induction false} DotSplit(a: string, x: string, b: string, y: string)
    requires NoDot(a) && NoDot(b)
    ensures ReleaseNotes.StartsWith(b + "." + y, a + "." + x) <==> a == b && ReleaseNotes.StartsWith(y, x)
  {
    var s, p := b + "." + y, a + "." + x;
    assert s[|b|] == '.' && p[|a|] == '.' && s[..|b|] == b && p[..|a|] == a;
    assert s[|b| + 1..] == y && p[|a| + 1..] == x;
    assert forall i :: 0 <= i < |b| ==> s[i] == b[i];
    assert forall i :: 0 <= i < |a| ==> p[i] == a[i];
    if ReleaseNotes.StartsWith(s, p) {
      assert s[..|p|][|a|] == '.';
      assert forall i :: 0 <= i < |a| ==> s[..|p|][i] == p[i];
      assert |a| == |b|;
      assert s[..|p|][..|a|] == s[..|a|];
      assert s[..|p|][|a| + 1..] == s[|a| + 1..][..|x|];
    }
    if a == b && ReleaseNotes.StartsWith(y, x) {
      assert s[..|p|] == a + "." + y[..|x|];
    }
  }

  lemma {:induction false} DigitsNoDot(n: nat)
    ensures NoDot(Decimal.Digits(n))
  {
    assert forall i :: 0 <= i < |Decimal.Digits(n)| ==> Decimal.IsDigit(Decimal.Digits(n)[i]);
  }

  /** A version's tag is counted for its own month only: v2026.1.* does not count v2026.12.0. */
  lemma {:induction false} MonthsDistinct(year: nat, month: nat, year': nat, month': nat, patch: nat)
    ensures ReleaseNotes.StartsWith(VersionTag(year', month', patch), MonthPrefix(year, month)) <==>
            year == year' && month == month'
  {
    hide ReleaseNotes.StartsWith, Decimal.Digits;
    var y, m, y', m', k := Decimal.Digits(year), Decimal.Digits(month), Decimal.Digits(year'), Decimal.Digits(month'),
        Decimal.Digits(patch);
    DigitsNoDot(year);
    DigitsNoDot(month);
    DigitsNoDot(year');
    DigitsNoDot(month');
    DotSplit(m, "", m', k);
    DotSplit("v" + y, m + "." + "", "v" + y', m' + "." + k);
    assert MonthPrefix(year, month) == ("v" + y) + "." + (m + "." + "");
    assert VersionTag(year', month', patch) == ("v" + y') + "." + (m' + "." + k);
    assert ("v" + y)[1..] == y && ("v" + y')[1..] == y';
    assert ReleaseNotes.StartsWith(k, "") by { StartsWithNothing(k); }
    if y == y' {
      Decimal.DigitsInjective(year, year');
    }
    if m == m' {
      Decimal.DigitsInjective(month, month');
    }
  }

  lemma {:induction false} StartsWithNothing(s: string)
    ensures ReleaseNotes.StartsWith(s, "")
  {
  }

  function FirstTags(year: nat, month: nat, k: nat): set<string> {
    if k == 0 then {} else FirstTags(year, month, k - 1) + {VersionTag(year, month, k - 1)}
  }

  lemma {:induction false} FirstTagsCount(year: nat, month: nat, k: nat)
    ensures |FirstTags(year, month, k)| == k
    ensures forall t :: t in FirstTags(year, month, k) ==> ReleaseNotes.StartsWith(t, MonthPrefix(year, month))
    ensures forall i: nat :: i >= k ==> VersionTag(year, month, i) !in FirstTags(year, month, k)
  {
    hide ReleaseNotes.StartsWith, VersionTag, MonthPrefix;
    if k > 0 {
      FirstTagsCount(year, month, k - 1);
      MonthsDistinct(year, month, year, month, k - 1);
      forall i: nat | i >= k ensures VersionTag(year, month, i) != VersionTag(year, month, k - 1) {
        PatchesDistinct(year, month, i, k - 1);
      }
    }
  }

  lemma {:induction false} PatchesDistinct(year: nat, month: nat, i: nat, j: nat)
    requires i != j
    ensures VersionTag(year, month, i) != VersionTag(year, month, j)
  {
    var p := MonthPrefix(year, month);
    assert (p + Decimal.Digits(i))[|p|..] == Decimal.Digits(i) && (p + Decimal.Digits(j))[|p|..] == Decimal.Digits(j);
    if Decimal.Digits(i) == Decimal.Digits(j) {
      Decimal.DigitsInjective(i, j);
    }
  }

  /** With the month's first `k` versions tagged, the next is numbered `k` exactly when no other tag matches. */
  lemma {:induction false} NumberExactlyWhen(tags: set<string>, o: Oracles, k: nat)
    requires FirstTags(o.year, o.month, k) <= MonthTags(tags, o.year, o.month)
    ensures NextTag(tags, o) == VersionTag(o.year, o.month, k) <==>
            MonthTags(tags, o.year, o.month) == FirstTags(o.year, o.month, k)
  {
    hide MonthTags, VersionTag, FirstTags;
    var first, all := FirstTags(o.year, o.month, k), MonthTags(tags, o.year, o.month);
    FirstTagsCount(o.year, o.month, k);
    if |all| != k {
      PatchesDistinct(o.year, o.month, |all|, k);
    } else {
      SubsetSameSize(first, all);
    }
  }

  lemma {:induction false} SubsetSameSize(a: set<string>, b: set<string>)
    requires a <= b && |a| == |b|
    ensures a == b
  {
    assert |b - a| == |b| - |a| by { assert b == a + (b - a); }
  }

  /** The run brings no tag of the month but versions: none is fetched that is not here, none is cut beside them. */
  ghost predicate Plain(r: Repo, a: Attempt, year: nat, month: nat) {
    && (a.o.fetched.Some? ==> MonthTags(a.o.fetched.value, year, month) <= r.tags)
    && (var extra := ExtraTags(a.c, a.o);
        extra.Some? ==> forall i :: 0 <= i < |extra.value| ==>
            !ReleaseNotes.StartsWith(extra.value[i], MonthPrefix(year, month)))
  }

  ghost predicate AllPlain(r: Repo, runs: seq<Attempt>, year: nat, month: nat)
    decreases |runs|
  {
    runs != [] ==> Plain(r, runs[0], year, month) && AllPlain(After(r, runs[0]), runs[1..], year, month)
  }

  ghost predicate CutsIn(r: Repo, a: Attempt, year: nat, month: nat) {
    Cuts(r, a) && a.o.year == year && a.o.month == month
  }

  ghost function MonthCuts(r: Repo, runs: seq<Attempt>, year: nat, month: nat): seq<string>
    decreases |runs|
  {
    if runs == [] then []
    else
      (if CutsIn(r, runs[0], year, month) then [CutTag(r, runs[0])] else [])
      + MonthCuts(After(r, runs[0]), runs[1..], year, month)
  }

  lemma {:induction false} MonthStep(r: Repo, a: Attempt, year: nat, month: nat, k: nat)
    requires MonthTags(r.tags, year, month) == FirstTags(year, month, k) && Plain(r, a, year, month)
    ensures var n := if CutsIn(r, a, year, month) then k + 1 else k;
            MonthTags(After(r, a).tags, year, month) == FirstTags(year, month, n)
    ensures CutsIn(r, a, year, month) ==> CutTag(r, a) == VersionTag(year, month, k)
  {
    hide Run, ReleaseNotes.StartsWith, VersionTag, MonthPrefix, FirstTags, Elements;
    var found := Found(r, a);
    var f := Fetched(found, a.c, a.o);
    TagsAfter(found, a.c, a.o);
    assert MonthTags(f.tags, year, month) == MonthTags(r.tags, year, month);
    FirstTagsCount(year, month, k);
    MonthsDistinct(year, month, a.o.year, a.o.month, |MonthTags(f.tags, a.o.year, a.o.month)|);
    var wanted := Wanted(f, a.c, a.o);
    forall t | t in Elements(wanted) && ReleaseNotes.StartsWith(t, MonthPrefix(year, month))
      ensures t == NextTag(f.tags, a.o) && a.o.year == year && a.o.month == month
    {
      WantedElement(f, a, t);
    }
    NextFirst(year, month, k);
  }

  lemma {:induction false} NextFirst(year: nat, month: nat, k: nat)
    ensures FirstTags(year, month, k + 1) == FirstTags(year, month, k) + {VersionTag(year, month, k)}
  {
  }

  lemma {:induction false} WantedElement(f: Repo, a: Attempt, t: string)
    requires t in Elements(Wanted(f, a.c, a.o))
    ensures t == NextTag(f.tags, a.o)
            || (ExtraTags(a.c, a.o).Some? && exists i ::
                0 <= i < |ExtraTags(a.c, a.o).value| && ExtraTags(a.c, a.o).value[i] == t)
  {
    hide NextTag, ExtraTags;
    var wanted := Wanted(f, a.c, a.o);
    var i :| 0 <= i < |wanted| && wanted[i] == t;
    if i > 0 {
      assert ExtraTags(a.c, a.o).value[i - 1] == t;
    }
  }

  ghost predicate Consecutive(cuts: seq<string>, year: nat, month: nat, k: nat) {
    forall i :: 0 <= i < |cuts| ==> cuts[i] == VersionTag(year, month, k + i)
  }

  lemma {:induction false} OneMoreConsecutive(rest: seq<string>, year: nat, month: nat, k: nat)
    requires Consecutive(rest, year, month, k + 1)
    ensures Consecutive([VersionTag(year, month, k)] + rest, year, month, k)
  {
    hide VersionTag;
    var cuts := [VersionTag(year, month, k)] + rest;
    forall i | 0 <= i < |cuts| ensures cuts[i] == VersionTag(year, month, k + i) {
      if i > 0 {
        assert cuts[i] == rest[i - 1] == VersionTag(year, month, k + 1 + (i - 1));
      }
    }
  }

  /** From a month without tags (`k` is 0), its releases are numbered 0, 1, 2, …, whatever other months, failed runs
      and dry runs come between. */
  lemma {:induction false} NumberedInOrder(r: Repo, runs: seq<Attempt>, year: nat, month: nat, k: nat)
    requires MonthTags(r.tags, year, month) == FirstTags(year, month, k) && AllPlain(r, runs, year, month)
    ensures Consecutive(MonthCuts(r, runs, year, month), year, month, k)
    decreases |runs|
  {
    hide CutsIn, CutTag, After, Plain, VersionTag, FirstTags, MonthTags;
    if runs != [] {
      var a := runs[0];
      var rest := MonthCuts(After(r, a), runs[1..], year, month);
      MonthStep(r, a, year, month, k);
      if CutsIn(r, a, year, month) {
        NumberedInOrder(After(r, a), runs[1..], year, month, k + 1);
        OneMoreConsecutive(rest, year, month, k);
      } else {
        NumberedInOrder(After(r, a), runs[1..], year, month, k);
        assert [] + rest == rest;
      }
    }
  }

  // --- signals ---

  /** Where a signal can come once the restore trap is set: bash runs the trap when the command in hand is done, and
      goes on with the next: `AtBump` is just before the bump, and so on. */
  datatype Moment = AtBump | AtChecks | AtBody | AtAdd | AtCommit | AtTags

  function Trapped(r: Repo, c: Config, signals: set<Moment>, m: Moment): (r': Repo)
    ensures r' == r.(work := r'.work)
  {
    if m in signals then Restored(r, c) else r
  }

  function ConcludedSignalled(r: Repo, c: Config, o: Oracles, signals: set<Moment>): (Repo, Exit) {
    if !o.addOk then (Restored(r, c), Died(AddFailed))
    else
      var staged := Trapped(Staged(r, c), c, signals, AtCommit);
      if !o.commitOk || staged.index == staged.head then (Restored(staged, c), Died(CommitFailed))
      else Published(Trapped(Committed(staged), c, signals, AtTags), o, Wanted(r, c, o))
  }

  /** The tree when the checks begin. */
  function BumpedSignalled(r: Repo, c: Config, o: Oracles, signals: set<Moment>): (r': Repo)
    ensures r' == r.(work := r'.work)
  {
    if c.notes !in r.work then r
    else
      var filed := Trapped(r.(work := FiledTree(c, o, r.work, NextVersion(r.tags, o))), c, signals, AtBump);
      Trapped(filed.(work := o.bump(filed.work)), c, signals, AtChecks)
  }

  /** `Run`, with signals at any of the moments. */
  ghost function RunSignalled(r: Repo, c: Config, o: Oracles, signals: set<Moment>): (Repo, Exit) {
    if Refusal(r, c, o).Some? then (Refused(r, c, o), Died(Refusal(r, c, o).value))
    else
      var checked := BumpedSignalled(Fetched(r, c, o), c, o, signals);
      var judged := Trapped(checked, c, signals, AtBody);
      match Objects(checked, TagBody(judged, c, o), c, o)
      case Some(exit) => (Restored(judged, c), exit)
      case None => ConcludedSignalled(Trapped(judged, c, signals, AtAdd), c, o, signals)
  }

  lemma {:induction false} NoSignals(r: Repo, c: Config, o: Oracles)
    ensures RunSignalled(r, c, o, {}) == Run(r, c, o)
  {
    hide Refusal, Refused, Objects, FiledTree, NextTag, Staged, Restored, Published, Wanted;
  }

  /** A restored tree that nothing has strayed from is HEAD. */
  lemma {:induction false} RestoredIsHead(r: Repo, c: Config)
    requires r.index == r.head && TmpOf(c) !in r.head && c.notes in r.head && !EndsWithSlash(c.notes)
    requires Strays(c, Status(r)) == {} || Strays(c, Status(Restored(r, c))) == {}
    ensures Restored(r, c).work == r.head
  {
    hide Allowed, Cleaned, Status;
    var work := Restored(r, c).work;
    forall p | p in work ensures p in r.head {
      if p !in r.head {
        Untracked(r, p);
        Untracked(Restored(r, c), p);
        assert p in Status(r) && p in Status(Restored(r, c));
        assert Allowed(c, p) by { assert p !in Strays(c, Status(r)) || p !in Strays(c, Status(Restored(r, c))); }
        AllowedIsCleaned(c, p);
      }
    }
    SameWork(work, r.head);
  }

  lemma {:induction false} SameWork(a: Tree, b: Tree)
    requires (forall p :: p in a <==> p in b) && forall p :: p in a && p in b ==> a[p] == b[p]
    ensures a == b
  {
  }

  lemma {:induction false} Untracked(r: Repo, p: Path)
    requires r.index == r.head && p !in r.head
    ensures p in r.work ==> p in Status(r)
  {
  }

  lemma {:induction false} AllowedIsCleaned(c: Config, p: Path)
    requires Allowed(c, p) && p != c.notes && !EndsWithSlash(c.notes)
    ensures Cleaned(c, p)
  {
    hide ReleaseNotes.StartsWith;
    var entries := [c.notes] + c.files;
    var i :| 0 <= i < |entries| && Lists(entries[i], p);
    if i > 0 {
      assert entries[i] == c.files[i - 1] && Selects(c.files[i - 1], p);
    }
  }

  lemma {:induction false} StagedHead(r: Repo, c: Config)
    requires r.work == r.index == r.head
    ensures Staged(r, c).index == r.head
  {
    hide SelectedBy;
    SameWork(Staged(r, c).index, r.head);
  }

  /** Nothing is committed of a restored tree. */
  lemma {:induction false} NothingToCommit(r: Repo, c: Config, o: Oracles, signals: set<Moment>)
    requires r.work == r.index == r.head
    ensures !PastCommit(ConcludedSignalled(r, c, o, signals).1)
  {
    hide Restored, Published, Wanted, Staged;
    StagedHead(r, c);
  }

  lemma {:induction false} CommitsIndex(r: Repo, c: Config, o: Oracles, signals: set<Moment>)
    requires PastCommit(ConcludedSignalled(r, c, o, signals).1)
    ensures var r' := ConcludedSignalled(r, c, o, signals).0;
            r'.head == r'.index == Staged(r, c).index && r'.commits == r.commits + [r'.head]
  {
    hide Restored, Wanted, Staged, TagsMade, Elements;
  }

  /** The tree that the bump is given: the filed notes, or HEAD when the trap has run after the filing. */
  function BumpInput(r: Repo, c: Config, o: Oracles, signals: set<Moment>): Tree
    requires c.notes in r.work
  {
    if AtBump in signals then r.head else FiledTree(c, o, r.work, NextVersion(r.tags, o))
  }

  lemma {:induction false} FiledRestored(r: Repo, c: Config, o: Oracles)
    requires r.work == r.index == r.head && c.notes in r.head && TmpOf(c) !in r.head
    ensures Restored(r.(work := FiledTree(c, o, r.work, NextVersion(r.tags, o))), c).work == r.head
  {
    hide Cleaned;
    SameWork(Restored(r.(work := FiledTree(c, o, r.work, NextVersion(r.tags, o))), c).work, r.head);
  }

  /** With signals at any of the moments, a commit is still only made of what the bump made, complete and of allowed
      paths; it holds the filed notes unless the signal came between the filing and the bump. After any signal between
      the bump and `git add` nothing is committed, since nothing is left to commit. */
  lemma {:induction false} SignalledCommit(r: Repo, c: Config, o: Oracles, signals: set<Moment>)
    requires PastCommit(RunSignalled(r, c, o, signals).1)
    requires TmpOf(c) !in r.head && !EndsWithSlash(c.notes)
    ensures AtChecks !in signals && AtBody !in signals && AtAdd !in signals && c.notes in r.work
    ensures var r' := RunSignalled(r, c, o, signals).0;
            && r'.commits == r.commits + [r'.head]
            && r'.head == o.bump(BumpInput(Fetched(r, c, o), c, o, signals))
            && forall p :: At(r'.head, p) != At(r.head, p) ==> Allowed(c, p)
  {
    hide AllGreen, Status, FiledTree, NextTag, Strays, Staged, Restored, Objects, ConcludedSignalled, Allowed, TagBody,
         BumpInput;
    hide Refusal, BumpedSignalled, Trapped, Fetched;
    RefusalEnds(r, c, o);
    CleanStart(r, c, o);
    var f := Fetched(r, c, o);
    var checked := BumpedSignalled(f, c, o, signals);
    var judged := Trapped(checked, c, signals, AtBody);
    var taken := Trapped(judged, c, signals, AtAdd);
    ObjectsEnd(checked, TagBody(judged, c, o), c, o);
    TakenTree(f, c, o, signals);
    if taken.work == r.head {
      NothingToCommit(taken, c, o, signals);
    }
    CommitsIndex(taken, c, o, signals);
    StagedIsWork(taken, c);
  }

  lemma {:induction false} ObjectsEnd(r: Repo, body: Option<Lines>, c: Config, o: Oracles)
    ensures match Objects(r, body, c, o)
            case Some(exit) => BeforeAdd(exit)
            case None => Strays(c, Status(r)) == {}
  {
    hide Status, Strays;
  }

  /** What `git add` is given: HEAD after a signal behind the bump, else what the bump made. */
  lemma {:induction false} TakenTree(f: Repo, c: Config, o: Oracles, signals: set<Moment>)
    requires f.work == f.index == f.head && c.notes in f.head && TmpOf(c) !in f.head && !EndsWithSlash(c.notes)
    requires Strays(c, Status(BumpedSignalled(f, c, o, signals))) == {}
    ensures var checked := BumpedSignalled(f, c, o, signals);
            var taken := Trapped(Trapped(checked, c, signals, AtBody), c, signals, AtAdd);
            && taken.index == taken.head == f.head && taken.tags == f.tags && taken.commits == f.commits
            && Strays(c, Status(taken)) == {}
            && if AtChecks in signals || AtBody in signals || AtAdd in signals then taken.work == f.head
               else taken.work == o.bump(BumpInput(f, c, o, signals))
  {
    hide Status, FiledTree, NextTag, Strays, Restored;
    FiledRestored(f, c, o);
    var checked := BumpedSignalled(f, c, o, signals);
    var judged := Trapped(checked, c, signals, AtBody);
    var filed := Trapped(f.(work := FiledTree(c, o, f.work, NextVersion(f.tags, o))), c, signals, AtBump);
    assert filed.work == BumpInput(f, c, o, signals);
    var bumped := filed.(work := o.bump(filed.work));
    HeadHasNoStray(f, c);
    if AtChecks in signals {
      RestoredIsHead(bumped, c);
      assert checked == f;
    }
    if AtBody in signals {
      RestoredIsHead(checked, c);
      assert judged == f;
    }
    if AtAdd in signals {
      RestoredIsHead(judged, c);
    }
  }

  lemma {:induction false} HeadHasNoStray(r: Repo, c: Config)
    requires r.work == r.index == r.head
    ensures Strays(c, Status(r)) == {}
  {
    DirtyStatus(r);
  }

  /** A signal between the filing and the bump gives the run of a bump that starts from HEAD: the release is cut
      without its notes, unless the bump or the annotation, empty then without a target for it, stops it. */
  lemma {:induction false} UnfiledRelease(r: Repo, c: Config, o: Oracles)
    requires TmpOf(c) !in r.head
    ensures RunSignalled(r, c, o, {AtBump}) == Run(r, c, o.(bump := _ => o.bump(r.head)))
  {
    hide AllGreen, Status, FiledTree, Strays, Staged, Restored, Objects, Published, MonthTags;
    var o' := o.(bump := _ => o.bump(r.head));
    SameRefusal(r, c, o, o');
    if Refusal(r, c, o).None? {
      CleanStart(r, c, o);
      var f := Fetched(r, c, o);
      FiledRestored(f, c, o);
      assert BumpedSignalled(f, c, o, {AtBump}) == Bumped(f, c, o');
      SameChecks(Bumped(f, c, o'), c, o, o');
    }
  }

  lemma {:induction false} SameRefusal(r: Repo, c: Config, o: Oracles, o': Oracles)
    requires o' == o.(bump := o'.bump)
    ensures Refusal(r, c, o') == Refusal(r, c, o) && Refused(r, c, o') == Refused(r, c, o)
            && Fetched(r, c, o') == Fetched(r, c, o)
  {
    hide AllGreen, Status, MonthTags;
  }

  lemma {:induction false} SameChecks(r: Repo, c: Config, o: Oracles, o': Oracles)
    requires o' == o.(bump := o'.bump)
    ensures TagBody(r, c, o') == TagBody(r, c, o) && forall body :: Objects(r, body, c, o') == Objects(r, body, c, o)
    ensures ConcludedSignalled(r, c, o, {AtBump}) == Concluded(r, c, o')
  {
    hide Status, Strays, MonthTags, Restored, Staged, TagsMade;
  }
}
