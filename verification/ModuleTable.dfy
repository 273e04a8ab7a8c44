/** The static method table of a module and the exits of its `PyInit`: include/sciforge/binding/module.hpp. */
module ModuleTable {

  datatype Option<T> = None | Some(value: T)

  datatype Row = Entry(name: string) | Null

  /** What `push_back` meets when the buffer is full: no memory, or a new buffer with some cells to spare. */
  datatype Growth = Throws | Grows(spare: seq<Row>)

  /** The table: how many buffers it has had, the cells of this one, and how many are in use. `clear` keeps the
      buffer; a move frees it. */
  datatype Table = Table(buffer: nat, cells: seq<Row>, size: nat)

  predicate Fits(t: Table) {
    t.size <= |t.cells|
  }

  /** A function object: the cell it points at, and what stood there when it was made. */
  datatype Function = Function(buffer: nat, index: nat, row: Row)

  /** The pointer is valid and the row is still the function's own. */
  predicate Intact(t: Table, f: Function) {
    f.buffer == t.buffer && f.index < |t.cells| && t.cells[f.index] == f.row
  }

  function Push(t: Table, row: Row, g: Growth): Option<Table>
    requires Fits(t)
  {
    if t.size < |t.cells| then Some(t.(cells := t.cells[t.size := row], size := t.size + 1))
    else match g
      case Throws => None
      case Grows(spare) => Some(Table(t.buffer + 1, t.cells + [row] + spare, t.size + 1))
  }

  /** The pushes of a registration block, up to the first that throws. */
  function PushAll(t: Table, rows: seq<(Row, Growth)>): (r: (Table, bool))
    requires Fits(t)
    ensures Fits(r.0)
    decreases |rows|
  {
    if rows == [] then (t, false)
    else
      match Push(t, rows[0].0, rows[0].1)
      case None => (t, true)
      case Some(t') => PushAll(t', rows[1..])
  }

  /** One import: whether the module and its error type are made, the rows pushed, whether the block throws or leaves
      an error set, the terminator's growth, and whether the functions can be added. */
  datatype Import = Import(moduleMade: bool, errorMade: bool, rows: seq<(Row, Growth)>, blockThrows: bool,
                           errorSet: bool,
                           last: Growth, added: bool)

  /** How `PyInit` ends; Escaped is an exception that crosses it. */
  datatype Outcome = Returned | Failed | Escaped

  /** `references` counts the module objects that `PyInit` holds or has handed out. */
  datatype World = World(table: Table, functions: set<Function>, epoch: nat, references: nat)

  const START := World(Table(0, [], 0), {}, 0, 0)

  function Captured(t: Table): set<Function>
    requires Fits(t)
  {
    set i: nat | i < t.size && t.cells[i] != Null :: Function(t.buffer, i, t.cells[i])
  }

  function Cleared(t: Table): Table {
    t.(size := 0)
  }

  /** The table once the import is over, and the outcome. */
  function TableAfter(t: Table, i: Import): (r: (Table, Outcome))
    requires Fits(t)
    ensures Fits(r.0)
  {
    if !i.moduleMade || !i.errorMade then (t, Failed)
    else
      var (t', thrown) := PushAll(Cleared(t), i.rows);
      if thrown || i.blockThrows || i.errorSet then (t', Failed)
      else
        match Push(t', Null, i.last)
        case None => (t', Escaped)
        case Some(done) => (done, if i.added then Returned else Failed)
  }

  function Init(w: World, i: Import): (World, Outcome)
    requires Fits(w.table)
  {
    var (t, o) := TableAfter(w.table, i);
    (World(t,
           if o.Returned? then w.functions + Captured(t) else w.functions,
           if i.moduleMade && i.errorMade then w.epoch + 1 else w.epoch,
           if o.Failed? then w.references else w.references + 1), o)
  }

  /** The statics of one extension module. */
  class ModuleStatics {
    var table: Table
    var functions: set<Function>
    var epoch: nat
    var references: nat

    ghost function View(): World
      reads this
    {
      World(table, functions, epoch, references)
    }

    constructor ()
      ensures View() == START
    {
      table, functions, epoch, references := Table(0, [], 0), {}, 0, 0;
    }

    /** `PyInit_<module>`: every exit but the last releases the module. */
    method PyInit(i: Import) returns (o: Outcome)
      requires Fits(table)
      modifies this
      ensures Fits(table) && (View(), o) == Init(old(View()), i)
    {
      if !i.moduleMade {
        return Failed;
      }
      references := references + 1;
      if !i.errorMade {
        references := references - 1;
        return Failed;
      }
      table := Cleared(table);
      epoch := epoch + 1;
      var thrown := false;
      ghost var all := PushAll(table, i.rows);
      for k := 0 to |i.rows|
        invariant Fits(table) && !thrown
                  && View() == old(View()).(table := table, epoch := epoch, references := references)
        invariant epoch == old(epoch) + 1 && references == old(references) + 1
        invariant PushAll(table, i.rows[k..]) == all
      {
        assert i.rows[k..][0] == i.rows[k] && i.rows[k..][1..] == i.rows[k + 1..];
        match Push(table, i.rows[k].0, i.rows[k].1) {
          case None =>
            thrown := true;
            break;
          case Some(t) => table := t;
        }
      }
      if thrown || i.blockThrows {
        references := references - 1;
        return Failed;
      }
      if i.errorSet {
        references := references - 1;
        return Failed;
      }
      match Push(table, Null, i.last) {
        case None => return Escaped;
        case Some(t) => table := t;
      }
      if !i.added {
        references := references - 1;
        return Failed;
      }
      functions := functions + Captured(table);
      return Returned;
    }
  }

  // --- the rows of live functions ---

  ghost predicate AllIntact(w: World) {
    forall f :: f in w.functions ==> Intact(w.table, f)
  }

  /** The rows that an import writes into the table, the terminator included when it is reached. */
  function Pushed(i: Import): seq<Row> {
    if !i.moduleMade || !i.errorMade then []
    else Rows(i.rows) + if i.blockThrows || i.errorSet then [] else [Null]
  }

  function Rows(rows: seq<(Row, Growth)>): (r: seq<Row>)
    ensures |r| == |rows| && forall k :: 0 <= k < |rows| ==> r[k] == rows[k].0
  {
    seq(|rows|, k requires 0 <= k < |rows| => rows[k].0)
  }

  /** A run of pushes that fits overwrites the cells from `size` on, one by one. */
  lemma {:induction false} PushAllFits(t: Table, rows: seq<(Row, Growth)>)
    requires Fits(t) && t.size + |rows| <= |t.cells|
    ensures var (t', thrown) := PushAll(t, rows);
            && !thrown && t'.buffer == t.buffer && t'.size == t.size + |rows| && |t'.cells| == |t.cells|
            && forall k :: 0 <= k < |t.cells| ==>
                 t'.cells[k] == if t.size <= k < t.size + |rows| then rows[k - t.size].0 else t.cells[k]
    decreases |rows|
  {
    if rows != [] {
      PushAllFits(Push(t, rows[0].0, rows[0].1).value, rows[1..]);
    }
  }

  /** Pushes never take back a buffer: one that does not fit, and is not refused, moves the table for good. */
  lemma {:induction false} PushAllBuffer(t: Table, rows: seq<(Row, Growth)>)
    requires Fits(t)
    ensures var (t', thrown) := PushAll(t, rows);
            && t'.buffer >= t.buffer
            && (t'.buffer == t.buffer ==> |t'.cells| == |t.cells|)
            && (!thrown ==> t'.size == t.size + |rows|)
            && (!thrown && t.size + |rows| > |t.cells| ==> t'.buffer > t.buffer)
    decreases |rows|
  {
    if rows != [] {
      var p := Push(t, rows[0].0, rows[0].1);
      if p.Some? {
        PushAllBuffer(p.value, rows[1..]);
      }
    }
  }

  /** What an import that fits leaves in the table. */
  lemma {:induction false} ImportFits(t: Table, i: Import)
    requires Fits(t) && |Pushed(i)| <= |t.cells|
    ensures var (t', o) := TableAfter(t, i);
            && o != Escaped && t'.buffer == t.buffer && |t'.cells| == |t.cells|
            && (forall k :: 0 <= k < |t.cells| ==>
                t'.cells[k] == (if k < |Pushed(i)| then Pushed(i)[k] else t.cells[k]))
            && (o.Returned? ==> t'.size == |Pushed(i)|)
  {
    if i.moduleMade && i.errorMade {
      PushAllFits(Cleared(t), i.rows);
    }
  }

  /** The functions of earlier imports keep valid rows of their own through an import, unless it runs out of memory, if
      and only if it fits the buffer and writes each of their rows as it was. */
  lemma {:induction false} ImportKeepsFunctions(w: World, i: Import)
    requires Fits(w.table) && AllIntact(w) && w.functions != {} && NoThrow(i)
    ensures (forall f :: f in w.functions ==> Intact(Init(w, i).0.table, f)) <==>
              |Pushed(i)| <= |w.table.cells| && forall f :: f in w.functions && f.index < |Pushed(i)| ==>
                  Pushed(i)[f.index] == f.row
  {
    hide PushAll;
    var t' := TableAfter(w.table, i).0;
    if |Pushed(i)| <= |w.table.cells| {
      ImportFits(w.table, i);
    } else {
      PushAllBuffer(Cleared(w.table), i.rows);
      PushAllNoThrow(Cleared(w.table), i.rows);
      assert t'.buffer > w.table.buffer;
      var f :| f in w.functions;
      assert !Intact(t', f);
    }
  }

  ghost predicate NoThrow(i: Import) {
    i.last.Grows? && forall k :: 0 <= k < |i.rows| ==> i.rows[k].1.Grows?
  }

  lemma {:induction false} PushAllNoThrow(t: Table, rows: seq<(Row, Growth)>)
    requires Fits(t) && forall k :: 0 <= k < |rows| ==> rows[k].1.Grows?
    ensures !PushAll(t, rows).1
    decreases |rows|
  {
    if rows != [] {
      PushAllNoThrow(Push(t, rows[0].0, rows[0].1).value, rows[1..]);
    }
  }

  // --- the same block at every import ---

  /** Every import runs the block that registers `all`, to its end or to a point where it throws. */
  ghost predicate SameBlock(i: Import, all: seq<Row>) {
    && Null !in all && Rows(i.rows) <= all
    && (!i.blockThrows && !i.errorSet ==> Rows(i.rows) == all)
  }

  /** Once functions exist, the buffer holds the whole block and its terminator, and they point into it. */
  ghost predicate Settled(w: World, all: seq<Row>) {
    && Fits(w.table)
    && (w.functions != {} ==> |w.table.cells| > |all| && w.table.cells[..|all|] == all)
    && forall f :: f in w.functions ==> f.buffer == w.table.buffer && f.index < |all| && f.row == all[f.index]
  }

  lemma {:induction false} SettledIntact(w: World, all: seq<Row>)
    requires Settled(w, all)
    ensures AllIntact(w)
  {
    forall f | f in w.functions ensures Intact(w.table, f) {
      assert w.table.cells[..|all|][f.index] == w.table.cells[f.index];
    }
  }

  lemma {:induction false} InitSettles(w: World, i: Import, all: seq<Row>)
    requires Settled(w, all) && SameBlock(i, all)
    ensures Settled(Init(w, i).0, all)
  {
    if w.functions != {} {
      InitAgain(w, i, all);
    } else {
      InitFirst(w, i, all);
    }
  }

  lemma {:induction false} InitAgain(w: World, i: Import, all: seq<Row>)
    requires Settled(w, all) && SameBlock(i, all) && w.functions != {}
    ensures Settled(Init(w, i).0, all)
  {
    hide PushAll;
    ImportFits(w.table, i);
    var t, t' := w.table, TableAfter(w.table, i).0;
    forall k | 0 <= k < |all| ensures t'.cells[k] == all[k] {
      assert t.cells[..|all|][k] == t.cells[k];
    }
    assert t'.cells[..|all|] == all;
  }

  lemma {:induction false} InitFirst(w: World, i: Import, all: seq<Row>)
    requires Settled(w, all) && SameBlock(i, all) && w.functions == {}
    ensures Settled(Init(w, i).0, all)
  {
    hide PushAll;
    if TableAfter(w.table, i).1.Returned? {
      PushAllHolds(Cleared(w.table), i.rows);
      var t := PushAll(Cleared(w.table), i.rows).0;
      assert w.table.cells[..0] + Rows(i.rows) == all;
      var t' := TableAfter(w.table, i).0;
      assert t'.cells[..|all|] == t.cells[..|all|];
    }
  }

  lemma {:induction false} PushAllHolds(t: Table, rows: seq<(Row, Growth)>)
    requires Fits(t)
    ensures var (t', thrown) := PushAll(t, rows);
            !thrown ==> t'.size == t.size + |rows| && t'.cells[..t'.size] == t.cells[..t.size] + Rows(rows)
    decreases |rows|
  {
    hide Rows, Push;
    if rows == [] {
      assert Rows(rows) == [];
    } else {
      var row := rows[0].0;
      var p := Push(t, row, rows[0].1);
      PushHolds(t, row, rows[0].1);
      if p.Some? {
        var used, rest := t.cells[..t.size], Rows(rows[1..]);
        PushAllHolds(p.value, rows[1..]);
        assert (used + [row]) + rest == used + ([row] + rest);
        assert [row] + rest == Rows(rows);
      }
    }
  }

  lemma {:induction false} PushHolds(t: Table, row: Row, g: Growth)
    requires Fits(t)
    ensures var p := Push(t, row, g);
            p.Some? ==>
              && p.value.size == t.size + 1 && Fits(p.value)
              && p.value.cells[..p.value.size] == t.cells[..t.size] + [row]
  {
  }

  function RunImports(w: World, imports: seq<Import>): World
    requires Fits(w.table)
    decreases |imports|
  {
    if imports == [] then w else RunImports(Init(w, imports[0]).0, imports[1..])
  }

  /** Over any number of imports of the same block, failed ones included, every function ever made points at its own,
      unchanged row. */
  lemma {:induction false} FunctionsStayIntact(w: World, imports: seq<Import>, all: seq<Row>)
    requires Settled(w, all) && forall i :: i in imports ==> SameBlock(i, all)
    ensures AllIntact(RunImports(w, imports))
    decreases |imports|
  {
    hide Init, SameBlock, AllIntact;
    if imports == [] {
      SettledIntact(w, all);
    } else {
      InitSettles(w, imports[0], all);
      FunctionsStayIntact(Init(w, imports[0]).0, imports[1..], all);
    }
  }

  /** A block that registers more on a later import leaves the functions of the first dangling. */
  lemma {:induction false} LongerBlockDangles(row: Row, more: Row)
    requires row != Null
    ensures var first := Import(true, true, [(row, Grows([]))], false, false, Grows([]), true);
            var second := Import(true, true, [(row, Grows([])), (more, Grows([]))], false, false, Grows([]), true);
            var w := Init(START, first).0;
            Function(2, 0, row) in w.functions && AllIntact(w) && !Intact(Init(w, second).0.table, Function(2, 0, row))
  {
    var first := Import(true, true, [(row, Grows([]))], false, false, Grows([]), true);
    var second := Import(true, true, [(row, Grows([])), (more, Grows([]))], false, false, Grows([]), true);
    var t1 := Table(1, [row], 1);
    assert [] + [row] + [] == [row] && [row] + [Null] + [] == [row, Null];
    assert first.rows[1..] == [] && PushAll(t1, []) == (t1, false);
    assert PushAll(Table(0, [], 0), first.rows) == (t1, false);
    var w := Init(START, first).0;
    assert w.table == Table(2, [row, Null], 2);
    forall f | f in Captured(w.table) ensures f == Function(2, 0, row) {
      assert f.index == 0 by { assert w.table.cells[1] == Null; }
    }
    var zero: nat := 0;
    assert zero < w.table.size && w.table.cells[zero] != Null;
    assert Function(2, 0, row) in Captured(w.table);
    PushAllBuffer(Cleared(w.table), second.rows);
    PushAllNoThrow(Cleared(w.table), second.rows);
  }

  // --- exits ---

  /** The cells of the buffer after `k` rows have been pushed into a cleared one of `cells`. */
  function Capacity(cells: nat, rows: seq<(Row, Growth)>, k: nat): nat
    requires k <= |rows|
  {
    if k == 0 then cells
    else
      var before := Capacity(cells, rows, k - 1);
      if k - 1 < before then before
      else match rows[k - 1].1
        case Throws => before
        case Grows(spare) => k + |spare|
  }

  /** The push of row `k` finds the buffer full and no memory for another. */
  ghost predicate RunsOut(cells: nat, rows: seq<(Row, Growth)>, k: nat) {
    k < |rows| && k >= Capacity(cells, rows, k) && rows[k].1.Throws?
  }

  ghost predicate SomeRunsOut(cells: nat, rows: seq<(Row, Growth)>, k: nat) {
    exists j: nat :: j >= k && RunsOut(cells, rows, j)
  }

  lemma {:induction false} PushAllExactly(t: Table, cells: nat, rows: seq<(Row, Growth)>, k: nat)
    requires Fits(t) && k <= |rows| && t.size == k && |t.cells| == Capacity(cells, rows, k)
    ensures var (t', thrown) := PushAll(t, rows[k..]);
            && (thrown <==> SomeRunsOut(cells, rows, k))
            && (!thrown ==> t'.size == |rows| && |t'.cells| == Capacity(cells, rows, |rows|))
    decreases |rows| - k
  {
    if k < |rows| {
      var p := Push(t, rows[k].0, rows[k].1);
      assert rows[k..][0] == rows[k] && rows[k..][1..] == rows[k + 1..];
      if p.None? {
        assert RunsOut(cells, rows, k);
      } else {
        assert !RunsOut(cells, rows, k);
        PushAllExactly(p.value, cells, rows, k + 1);
      }
    }
  }

  /** How an import of this block ends, from the rows and the cells there are. */
  ghost function OutcomeFor(cells: nat, i: Import): Outcome {
    if !i.moduleMade || !i.errorMade || SomeRunsOut(cells, i.rows, 0) || i.blockThrows || i.errorSet then Failed
    else if Capacity(cells, i.rows, |i.rows|) <= |i.rows| && i.last == Throws then Escaped
    else if i.added then Returned
    else Failed
  }

  lemma {:induction false} OutcomeExactly(w: World, i: Import)
    requires Fits(w.table)
    ensures Init(w, i).1 == OutcomeFor(|w.table.cells|, i)
  {
    hide PushAll, SomeRunsOut, Capacity;
    assert Capacity(|w.table.cells|, i.rows, 0) == |w.table.cells| by { NoPush(|w.table.cells|, i.rows); }
    PushAllExactly(Cleared(w.table), |w.table.cells|, i.rows, 0);
    assert i.rows[0..] == i.rows;
  }

  lemma {:induction false} NoPush(cells: nat, rows: seq<(Row, Growth)>)
    ensures Capacity(cells, rows, 0) == cells
  {
  }

  /** The terminator is pushed outside the block that catches: an import ends with an exception crossing `PyInit`
      exactly when everything before has succeeded, the rows fill the buffer, and there is no memory for another. So
      none does whose rows leave a cell of the last buffer free. */
  lemma {:induction false} EscapesExactly(w: World, i: Import)
    requires Fits(w.table)
    ensures Init(w, i).1 == Escaped <==>
              && i.moduleMade && i.errorMade && !SomeRunsOut(|w.table.cells|, i.rows, 0) && !i.blockThrows
                  && !i.errorSet
              && i.last == Throws && Capacity(|w.table.cells|, i.rows, |i.rows|) == |i.rows|
    ensures |i.rows| < |w.table.cells| ==> Init(w, i).1 != Escaped
  {
    hide PushAll, SomeRunsOut, Init;
    OutcomeExactly(w, i);
    CapacityHolds(|w.table.cells|, i.rows, |i.rows|);
  }

  lemma {:induction false} CapacityHolds(cells: nat, rows: seq<(Row, Growth)>, k: nat)
    requires k <= |rows|
    ensures Capacity(cells, rows, k) >= cells
    ensures !SomeRunsOut(cells, rows, 0) ==> Capacity(cells, rows, k) >= k
    decreases k
  {
    if k > 0 {
      CapacityHolds(cells, rows, k - 1);
      assert Capacity(cells, rows, k) < k ==> RunsOut(cells, rows, k - 1);
    }
  }

  /** The imports, of any number in a row, that do not end as failed. */
  ghost function KeptModules(w: World, imports: seq<Import>): nat
    requires Fits(w.table)
    decreases |imports|
  {
    if imports == [] then 0
    else
      (if OutcomeFor(|w.table.cells|, imports[0]).Failed? then 0 else 1)
      + KeptModules(Init(w, imports[0]).0, imports[1..])
  }

  /** Over any number of imports the references to modules are one for each import that returned its module, and one
      for each that an exception cut short before it could release it: every failed import releases its own. */
  lemma {:induction false} ReferencesCounted(w: World, imports: seq<Import>)
    requires Fits(w.table)
    ensures RunImports(w, imports).references == w.references + KeptModules(w, imports)
    decreases |imports|
  {
    hide OutcomeFor, TableAfter;
    if imports != [] {
      OutcomeExactly(w, imports[0]);
      ReferencesCounted(Init(w, imports[0]).0, imports[1..]);
    }
  }

  /** Every function belongs to an import that returned its module. */
  lemma {:induction false} FunctionsOfReturned(w: World, imports: seq<Import>)
    requires Fits(w.table)
    requires forall k :: 0 <= k < |imports| ==>
             OutcomeFor(|RunImports(w, imports[..k]).table.cells|, imports[k]) != Returned
    ensures RunImports(w, imports).functions == w.functions
    decreases |imports|
  {
    hide OutcomeFor, TableAfter;
    if imports != [] {
      OutcomeExactly(w, imports[0]);
      var w', rest := Init(w, imports[0]).0, imports[1..];
      assert imports[..0] == [];
      forall k | 0 <= k < |rest| ensures OutcomeFor(|RunImports(w', rest[..k]).table.cells|, rest[k]) != Returned {
        assert imports[..k + 1][0] == imports[0] && imports[..k + 1][1..] == rest[..k];
        assert RunImports(w, imports[..k + 1]) == RunImports(w', rest[..k]);
        assert OutcomeFor(|RunImports(w, imports[..k + 1]).table.cells|, imports[k + 1]) != Returned;
      }
      FunctionsOfReturned(w', rest);
    }
  }
}
