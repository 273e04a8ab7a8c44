/** The container casters and the references they move: include/sciforge/binding/convert.hpp. CPython is a heap of
    reference counts. `AddTree` is the heap with a result in it, `Release` is `Py_DECREF`, and the main lemma is that a
    release undoes a conversion; the casters themselves are the methods of `PyHeap`, at the end. New objects are
    numbered in order of creation, so every address of a conversion is known beforehand. */
module Convert {

  datatype Option<T> = None | Some(value: T)

  type Addr = nat

  /** A CPython object: its reference count and, for a list or tuple, the references its slots own. A permanent object
      (True, None, a cached integer) outlives every release. */
  datatype Cell = Cell(refs: int, permanent: bool, slots: seq<Option<Addr>>)

  type Heap = map<Addr, Cell>

  // --- references given back ---

  function Incref(h: Heap, a: Addr): Heap {
    if a in h then h[a := h[a].(refs := h[a].refs + 1)] else h
  }

  /** `Py_DECREF`: the last reference frees the object and gives back its items, last slot first. */
  function Release(h: Heap, a: Addr): (r: Heap)
    ensures r.Keys <= h.Keys
    decreases h.Keys, 0
  {
    if a !in h then h
    else if h[a].permanent || h[a].refs > 1 then h[a := h[a].(refs := h[a].refs - 1)]
    else
      assert a in h.Keys && a !in (h - {a}).Keys;
      ReleaseSlots(h - {a}, h[a].slots)
  }

  function ReleaseSlots(h: Heap, slots: seq<Option<Addr>>): (r: Heap)
    ensures r.Keys <= h.Keys
    decreases h.Keys, |slots|
  {
    if slots == [] then h
    else
      var last := slots[|slots| - 1];
      ReleaseSlots(if last.Some? then Release(h, last.value) else h, slots[..|slots| - 1])
  }

  function ReleaseEach(h: Heap, addrs: seq<Addr>): Heap
    decreases |addrs|
  {
    if addrs == [] then h else ReleaseEach(Release(h, addrs[0]), addrs[1..])
  }

  // --- values and their conversions ---

  /** A C++ value to convert: a scalar that becomes a new object, one whose object exists (with a new reference to it),
      a PyObject* that hands over a reference it owns or is null, a caster that returns null or throws, a vector or a
      tuple of values; `made` says whether the container itself can be made. */
  datatype Value =
    | Scalar
    | Constant(a: Addr)
    | Passed(object: Option<Addr>)
    | NullResult
    | Throwing
    | Vector(made: bool, items: seq<Value>)
    | Tuple(made: bool, items: seq<Value>)

  /** The objects a conversion returns: a new one that owns its kids, or an existing one. */
  datatype PyTree = Fresh(a: Addr, kids: seq<PyTree>) | Shared(a: Addr) | Given(a: Addr)

  function Size(t: PyTree): nat {
    match t
    case Fresh(_, kids) => 1 + Sizes(kids)
    case _ => 0
  }

  function Sizes(ts: seq<PyTree>): nat {
    if ts == [] then 0 else Sizes(ts[..|ts| - 1]) + Size(ts[|ts| - 1])
  }

  function Roots(ts: seq<PyTree>): (r: seq<Option<Addr>>)
    ensures |r| == |ts| && forall i :: 0 <= i < |ts| ==> r[i] == Some(ts[i].a)
  {
    seq(|ts|, i requires 0 <= i < |ts| => Some(ts[i].a))
  }

  /** The heap with the tree in it. */
  function AddTree(h: Heap, t: PyTree): Heap
    decreases t
  {
    match t
    case Given(_) => h
    case Shared(a) => Incref(h, a)
    case Fresh(p, kids) => AddTrees(h, kids)[p := Cell(1, false, Roots(kids))]
  }

  function AddTrees(h: Heap, ts: seq<PyTree>): Heap
    decreases ts
  {
    if ts == [] then h else AddTree(AddTrees(h, ts[..|ts| - 1]), ts[|ts| - 1])
  }

  /** The handed-over references in a tree, in the order a release gives them back. */
  function Givens(t: PyTree): seq<Addr> {
    match t
    case Given(a) => [a]
    case Shared(_) => []
    case Fresh(_, kids) => GivensAll(kids)
  }

  function GivensAll(ts: seq<PyTree>): seq<Addr> {
    if ts == [] then [] else Givens(ts[|ts| - 1]) + GivensAll(ts[..|ts| - 1])
  }

  /** How a conversion ends: an object, null, or an exception after giving back some handed-over references. */
  datatype Conversion = Built(t: PyTree) | Null | Raised(gaveBack: seq<Addr>)

  datatype Items = Kids(ts: seq<PyTree>) | Stopped(gaveBack: seq<Addr>)

  /** The conversion of a value when `n` is the next free address. */
  function Converted(v: Value, n: Addr): Conversion {
    match v
    case Scalar => Built(Fresh(n, []))
    case Constant(a) => Built(Shared(a))
    case Passed(None) => Raised([])
    case Passed(Some(a)) => Built(Given(a))
    case NullResult => Null
    case Throwing => Raised([])
    case Vector(made, items) => Contained(made, n, ConvertedItems(items, n + 1))
    case Tuple(made, items) => Contained(made, n, ConvertedItems(items, n + 1))
  }

  function Contained(made: bool, n: Addr, items: Items): Conversion {
    if !made then Raised([])
    else match items
      case Kids(ts) => Built(Fresh(n, ts))
      case Stopped(back) => Raised(back)
  }

  function ConvertedItems(items: seq<Value>, n: Addr): Items {
    if items == [] then Kids([])
    else
      match ConvertedItems(items[..|items| - 1], n)
      case Stopped(back) => Stopped(back)
      case Kids(ts) => WithItem(ts, Converted(items[|items| - 1], n + Sizes(ts)))
  }

  function WithItem(ts: seq<PyTree>, c: Conversion): Items {
    match c
    case Built(t) => Kids(ts + [t])
    case Null => Stopped(GivensAll(ts))
    case Raised(back) => Stopped(back + GivensAll(ts))
  }

  // --- where the objects of a conversion lie ---

  /** Every address of the heap, and every address a slot holds, is below `n`. */
  ghost predicate Below(h: Heap, n: Addr) {
    && (forall a :: a in h ==> a < n)
    && (forall a, i :: a in h && 0 <= i < |h[a].slots| && h[a].slots[i].Some? ==> h[a].slots[i].value < n)
  }

  ghost predicate Permanent(h: Heap, a: Addr) {
    a in h && h[a].permanent
  }

  /** The constants of a value are permanent objects of the heap, and what it hands over lies below `base`. */
  ghost predicate Legal(h: Heap, base: Addr, v: Value) {
    match v
    case Constant(a) => Permanent(h, a)
    case Passed(Some(a)) => a < base
    case Vector(_, items) => forall i :: 0 <= i < |items| ==> Legal(h, base, items[i])
    case Tuple(_, items) => forall i :: 0 <= i < |items| ==> Legal(h, base, items[i])
    case _ => true
  }

  /** The new objects of a tree are numbered from `n`, parent first, in order; the others are old. */
  ghost predicate Placed(h: Heap, base: Addr, t: PyTree, n: Addr) {
    match t
    case Given(a) => a < base
    case Shared(a) => Permanent(h, a)
    case Fresh(p, kids) => p == n && PlacedAll(h, base, kids, n + 1)
  }

  ghost predicate PlacedAll(h: Heap, base: Addr, ts: seq<PyTree>, n: Addr) {
    ts != [] ==>
      && PlacedAll(h, base, ts[..|ts| - 1], n)
      && Placed(h, base, ts[|ts| - 1], n + Sizes(ts[..|ts| - 1]))
  }

  lemma {:induction false} ConvertedPlaced(h: Heap, base: Addr, v: Value, n: Addr)
    requires Legal(h, base, v)
    ensures Converted(v, n).Built? ==> Placed(h, base, Converted(v, n).t, n)
    decreases v, 0
  {
    match v {
      case Vector(_, items) => ItemsPlaced(h, base, items, n + 1);
      case Tuple(_, items) => ItemsPlaced(h, base, items, n + 1);
      case _ =>
    }
  }

  lemma {:induction false} PlacedNext(h: Heap, base: Addr, ts: seq<PyTree>, t: PyTree, n: Addr)
    requires PlacedAll(h, base, ts, n) && Placed(h, base, t, n + Sizes(ts))
    ensures PlacedAll(h, base, ts + [t], n)
  {
    assert (ts + [t])[..|ts|] == ts;
  }

  lemma {:induction false} ItemsPlaced(h: Heap, base: Addr, items: seq<Value>, n: Addr)
    requires forall i :: 0 <= i < |items| ==> Legal(h, base, items[i])
    ensures ConvertedItems(items, n).Kids? ==> PlacedAll(h, base, ConvertedItems(items, n).ts, n)
    decreases items
  {
    hide Placed, Legal, Sizes, GivensAll, Converted;
    if items != [] {
      var front, last := items[..|items| - 1], items[|items| - 1];
      ItemsPlaced(h, base, front, n);
      if ConvertedItems(front, n).Kids? {
        var ts := ConvertedItems(front, n).ts;
        var c := Converted(last, n + Sizes(ts));
        ConvertedPlaced(h, base, last, n + Sizes(ts));
        if c.Built? {
          PlacedNext(h, base, ts, c.t, n);
        }
      }
    }
  }

  // --- a release commutes with unrelated objects ---

  ghost predicate Unreferenced(h: Heap, p: Addr) {
    p !in h && forall a, i :: a in h && 0 <= i < |h[a].slots| ==> h[a].slots[i] != Some(p)
  }

  /** An object nothing refers to is untouched by a release, and does not change it. */
  lemma {:induction false} ReleaseFrame(h: Heap, b: Addr, p: Addr, c: Cell)
    requires Unreferenced(h, p) && b != p
    ensures Release(h[p := c], b) == Release(h, b)[p := c]
    ensures Unreferenced(Release(h, b), p)
    decreases h.Keys, 0
  {
    if b in h && !(h[b].permanent || h[b].refs > 1) {
      assert h[p := c] - {b} == (h - {b})[p := c];
      assert b in h.Keys && b !in (h - {b}).Keys;
      SlotsFrame(h - {b}, h[b].slots, p, c);
    } else if b in h {
      var b' := h[b].(refs := h[b].refs - 1);
      assert h[p := c][b := b'] == h[b := b'][p := c];
    }
  }

  lemma {:induction false} SlotsFrame(h: Heap, slots: seq<Option<Addr>>, p: Addr, c: Cell)
    requires Unreferenced(h, p) && forall i :: 0 <= i < |slots| ==> slots[i] != Some(p)
    ensures ReleaseSlots(h[p := c], slots) == ReleaseSlots(h, slots)[p := c]
    ensures Unreferenced(ReleaseSlots(h, slots), p)
    decreases h.Keys, |slots|
  {
    hide Unreferenced;
    if slots != [] {
      var last := slots[|slots| - 1];
      var h' := if last.Some? then Release(h, last.value) else h;
      if last.Some? {
        ReleaseFrame(h, last.value, p, c);
      }
      SlotsFrame(h', slots[..|slots| - 1], p, c);
    }
  }

  /** A reference more to a permanent object is untouched by a release. */
  lemma {:induction false} ReleaseIncref(h: Heap, b: Addr, a: Addr)
    requires Permanent(h, a)
    ensures Release(Incref(h, a), b) == Incref(Release(h, b), a)
    ensures Permanent(Release(h, b), a)
    decreases h.Keys, 0
  {
    if b in h && !(h[b].permanent || h[b].refs > 1) {
      assert Incref(h, a) - {b} == Incref(h - {b}, a);
      assert b in h.Keys && b !in (h - {b}).Keys;
      SlotsIncref(h - {b}, h[b].slots, a);
    }
  }

  lemma {:induction false} SlotsIncref(h: Heap, slots: seq<Option<Addr>>, a: Addr)
    requires Permanent(h, a)
    ensures ReleaseSlots(Incref(h, a), slots) == Incref(ReleaseSlots(h, slots), a)
    ensures Permanent(ReleaseSlots(h, slots), a)
    decreases h.Keys, |slots|
  {
    hide Permanent, Incref;
    if slots != [] {
      var last := slots[|slots| - 1];
      var h' := if last.Some? then Release(h, last.value) else h;
      if last.Some? {
        ReleaseIncref(h, last.value, a);
      }
      SlotsIncref(h', slots[..|slots| - 1], a);
    }
  }

  lemma {:induction false} ReleaseBelow(h: Heap, b: Addr, n: Addr)
    requires Below(h, n)
    ensures Below(Release(h, b), n)
    decreases h.Keys, 0
  {
    if b in h && !(h[b].permanent || h[b].refs > 1) {
      assert b in h.Keys && b !in (h - {b}).Keys;
      SlotsBelow(h - {b}, h[b].slots, n);
    }
  }

  lemma {:induction false} SlotsBelow(h: Heap, slots: seq<Option<Addr>>, n: Addr)
    requires Below(h, n)
    ensures Below(ReleaseSlots(h, slots), n)
    decreases h.Keys, |slots|
  {
    hide Below;
    if slots != [] {
      var last := slots[|slots| - 1];
      if last.Some? {
        ReleaseBelow(h, last.value, n);
      }
      SlotsBelow(if last.Some? then Release(h, last.value) else h, slots[..|slots| - 1], n);
    }
  }

  // --- a tree added to a heap ---

  ghost predicate SamePermanents(h: Heap, h': Heap) {
    forall a :: Permanent(h, a) ==> Permanent(h', a)
  }

  lemma {:induction false} PlacedStays(h: Heap, h': Heap, base: Addr, t: PyTree, n: Addr)
    requires SamePermanents(h, h') && Placed(h, base, t, n)
    ensures Placed(h', base, t, n)
    decreases t, 0
  {
    match t {
      case Fresh(_, kids) => PlacedAllStays(h, h', base, kids, n + 1);
      case _ =>
    }
  }

  lemma {:induction false} PlacedAllStays(h: Heap, h': Heap, base: Addr, ts: seq<PyTree>, n: Addr)
    requires SamePermanents(h, h') && PlacedAll(h, base, ts, n)
    ensures PlacedAll(h', base, ts, n)
    decreases ts
  {
    hide SamePermanents, Placed;
    if ts != [] {
      PlacedAllStays(h, h', base, ts[..|ts| - 1], n);
      PlacedStays(h, h', base, ts[|ts| - 1], n + Sizes(ts[..|ts| - 1]));
    }
  }

  /** Adding a tree fills exactly the addresses it was placed at and keeps the permanent objects. */
  lemma {:induction false} AddTreeBelow(h: Heap, base: Addr, t: PyTree, n: Addr)
    requires Below(h, n) && base <= n && Placed(h, base, t, n)
    ensures Below(AddTree(h, t), n + Size(t)) && SamePermanents(h, AddTree(h, t))
    ensures t.a < n + Size(t)
    decreases t, 0
  {
    match t {
      case Fresh(p, kids) =>
        BelowMore(h, n, n + 1);
        AddTreesBelow(h, base, kids, n + 1);
        RootsBelow(h, base, kids, n + 1);
        AddCellBelow(AddTrees(h, kids), p, Cell(1, false, Roots(kids)), n + Size(t));
        assert p !in h;
      case Shared(a) =>
      case Given(a) =>
    }
  }

  lemma {:induction false} BelowMore(h: Heap, n: Addr, m: Addr)
    requires Below(h, n) && n <= m
    ensures Below(h, m)
  {
  }

  lemma {:induction false} AddCellBelow(h: Heap, p: Addr, c: Cell, n: Addr)
    requires Below(h, n) && p < n && forall i :: 0 <= i < |c.slots| && c.slots[i].Some? ==> c.slots[i].value < n
    ensures Below(h[p := c], n)
  {
  }

  lemma {:induction false} AddTreesBelow(h: Heap, base: Addr, ts: seq<PyTree>, n: Addr)
    requires Below(h, n) && base <= n && PlacedAll(h, base, ts, n)
    ensures Below(AddTrees(h, ts), n + Sizes(ts)) && SamePermanents(h, AddTrees(h, ts))
    decreases ts
  {
    hide Below, Placed;
    if ts != [] {
      var front, last := ts[..|ts| - 1], ts[|ts| - 1];
      AddTreesBelow(h, base, front, n);
      PlacedStays(h, AddTrees(h, front), base, last, n + Sizes(front));
      AddTreeBelow(AddTrees(h, front), base, last, n + Sizes(front));
    }
  }

  lemma {:induction false} RootsBelow(h: Heap, base: Addr, ts: seq<PyTree>, n: Addr)
    requires Below(h, n) && base <= n && PlacedAll(h, base, ts, n)
    ensures forall i :: 0 <= i < |ts| ==>
            ts[i].a < n + Sizes(ts) && (ts[i].a < base || Permanent(h, ts[i].a) || ts[i].a >= n)
    decreases ts
  {
    if ts != [] {
      var front, last := ts[..|ts| - 1], ts[|ts| - 1];
      RootsBelow(h, base, front, n);
      assert last.a < n + Sizes(ts) && (last.a < base || Permanent(h, last.a) || last.a >= n);
      assert forall i :: 0 <= i < |front| ==> ts[i] == front[i];
    }
  }

  // --- a release undoes a conversion ---

  lemma {:induction false} AddTreeAvoids(h: Heap, base: Addr, t: PyTree, n: Addr, p: Addr)
    requires Below(h, n) && base <= p < n && Placed(h, base, t, n) && Unreferenced(h, p)
    ensures Unreferenced(AddTree(h, t), p)
    decreases t, 0
  {
    match t {
      case Fresh(q, kids) =>
        BelowMore(h, n, n + 1);
        AddTreesAvoid(h, base, kids, n + 1, p);
        RootsBelow(h, base, kids, n + 1);
        CellAvoids(AddTrees(h, kids), q, Cell(1, false, Roots(kids)), p);
      case _ =>
    }
  }

  lemma {:induction false} CellAvoids(h: Heap, q: Addr, c: Cell, p: Addr)
    requires Unreferenced(h, p) && p != q && forall i :: 0 <= i < |c.slots| ==> c.slots[i] != Some(p)
    ensures Unreferenced(h[q := c], p)
  {
  }

  lemma {:induction false} AddTreesAvoid(h: Heap, base: Addr, ts: seq<PyTree>, n: Addr, p: Addr)
    requires Below(h, n) && base <= p < n && PlacedAll(h, base, ts, n) && Unreferenced(h, p)
    ensures Unreferenced(AddTrees(h, ts), p)
    decreases ts
  {
    hide Below, Placed, Unreferenced, SamePermanents;
    if ts != [] {
      var front, last := ts[..|ts| - 1], ts[|ts| - 1];
      AddTreesAvoid(h, base, front, n, p);
      AddTreesBelow(h, base, front, n);
      PlacedStays(h, AddTrees(h, front), base, last, n + Sizes(front));
      AddTreeAvoids(AddTrees(h, front), base, last, n + Sizes(front), p);
    }
  }

  /** A tree added beside an unrelated object. */
  lemma {:induction false} AddTreeFrame(h: Heap, base: Addr, t: PyTree, n: Addr, p: Addr, c: Cell)
    requires Below(h, n) && base <= p < n && Placed(h, base, t, n) && Unreferenced(h, p)
    ensures AddTree(h[p := c], t) == AddTree(h, t)[p := c]
    decreases t, 0
  {
    match t {
      case Fresh(q, kids) =>
        BelowMore(h, n, n + 1);
        AddTreesFrame(h, base, kids, n + 1, p, c);
      case _ =>
    }
  }

  lemma {:induction false} AddTreesFrame(h: Heap, base: Addr, ts: seq<PyTree>, n: Addr, p: Addr, c: Cell)
    requires Below(h, n) && base <= p < n && PlacedAll(h, base, ts, n) && Unreferenced(h, p)
    ensures AddTrees(h[p := c], ts) == AddTrees(h, ts)[p := c]
    decreases ts
  {
    hide Placed, Below, Unreferenced, SamePermanents;
    if ts != [] {
      var front, last := ts[..|ts| - 1], ts[|ts| - 1];
      AddTreesFrame(h, base, front, n, p, c);
      AddTreesBelow(h, base, front, n);
      AddTreesAvoid(h, base, front, n, p);
      PlacedStays(h, AddTrees(h, front), base, last, n + Sizes(front));
      AddTreeFrame(AddTrees(h, front), base, last, n + Sizes(front), p, c);
    }
  }

  /** A release of an older reference commutes with adding a tree. */
  lemma {:induction false} TreeReleased(h: Heap, base: Addr, t: PyTree, n: Addr, b: Addr)
    requires Below(h, n) && b < base <= n && Placed(h, base, t, n)
    ensures Release(AddTree(h, t), b) == AddTree(Release(h, b), t)
    decreases t, 0
  {
    match t {
      case Fresh(p, kids) =>
        BelowMore(h, n, n + 1);
        TreesReleased(h, base, kids, n + 1, b);
        AddTreesAvoid(h, base, kids, n + 1, p);
        ReleaseFrame(AddTrees(h, kids), b, p, Cell(1, false, Roots(kids)));
      case Shared(a) => ReleaseIncref(h, b, a);
      case Given(a) =>
    }
  }

  lemma {:induction false} TreesReleased(h: Heap, base: Addr, ts: seq<PyTree>, n: Addr, b: Addr)
    requires Below(h, n) && b < base <= n && PlacedAll(h, base, ts, n)
    ensures Release(AddTrees(h, ts), b) == AddTrees(Release(h, b), ts)
    decreases ts
  {
    hide Placed, Below, SamePermanents;
    if ts != [] {
      var front, last := ts[..|ts| - 1], ts[|ts| - 1];
      TreesReleased(h, base, front, n, b);
      AddTreesBelow(h, base, front, n);
      PlacedStays(h, AddTrees(h, front), base, last, n + Sizes(front));
      TreeReleased(AddTrees(h, front), base, last, n + Sizes(front), b);
    }
  }

  ghost predicate AllBelow(addrs: seq<Addr>, base: Addr) {
    forall i :: 0 <= i < |addrs| ==> addrs[i] < base
  }

  lemma {:induction false} ReleasedBelow(h: Heap, addrs: seq<Addr>, n: Addr)
    requires Below(h, n)
    ensures Below(ReleaseEach(h, addrs), n) && SamePermanents(h, ReleaseEach(h, addrs))
    decreases |addrs|
  {
    hide Below, Permanent;
    if addrs != [] {
      ReleaseBelow(h, addrs[0], n);
      forall a | Permanent(h, a) ensures Permanent(Release(h, addrs[0]), a) {
        ReleaseIncref(h, addrs[0], a);
      }
      ReleasedBelow(Release(h, addrs[0]), addrs[1..], n);
    }
  }

  lemma {:induction false} EachReleased(h: Heap, base: Addr, ts: seq<PyTree>, n: Addr, addrs: seq<Addr>)
    requires Below(h, n) && base <= n && PlacedAll(h, base, ts, n) && AllBelow(addrs, base)
    ensures ReleaseEach(AddTrees(h, ts), addrs) == AddTrees(ReleaseEach(h, addrs), ts)
    decreases |addrs|
  {
    hide Below, SamePermanents, PlacedAll, Placed;
    if addrs != [] {
      TreesReleased(h, base, ts, n, addrs[0]);
      ReleasedBelow(h, [addrs[0]], n);
      assert ReleaseEach(h, [addrs[0]]) == Release(h, addrs[0]) by { assert [addrs[0]][1..] == []; }
      PlacedAllStays(h, Release(h, addrs[0]), base, ts, n);
      EachReleased(Release(h, addrs[0]), base, ts, n, addrs[1..]);
    }
  }

  lemma {:induction false} EachFrame(h: Heap, addrs: seq<Addr>, p: Addr, c: Cell)
    requires Unreferenced(h, p) && AllBelow(addrs, p)
    ensures ReleaseEach(h[p := c], addrs) == ReleaseEach(h, addrs)[p := c]
    ensures Unreferenced(ReleaseEach(h, addrs), p)
    decreases |addrs|
  {
    hide Unreferenced;
    if addrs != [] {
      ReleaseFrame(h, addrs[0], p, c);
      EachFrame(Release(h, addrs[0]), addrs[1..], p, c);
    }
  }

  lemma {:induction false} EachAppend(h: Heap, a: seq<Addr>, b: seq<Addr>)
    ensures ReleaseEach(h, a + b) == ReleaseEach(ReleaseEach(h, a), b)
    decreases |a|
  {
    if a == [] {
      assert a + b == b;
    } else {
      assert (a + b)[0] == a[0] && (a + b)[1..] == a[1..] + b;
      EachAppend(Release(h, a[0]), a[1..], b);
    }
  }

  lemma {:induction false} GivensBelow(h: Heap, base: Addr, t: PyTree, n: Addr)
    requires Placed(h, base, t, n)
    ensures AllBelow(Givens(t), base)
    decreases t, 0
  {
    match t {
      case Fresh(_, kids) => GivensAllBelow(h, base, kids, n + 1);
      case _ =>
    }
  }

  lemma {:induction false} GivensAllBelow(h: Heap, base: Addr, ts: seq<PyTree>, n: Addr)
    requires PlacedAll(h, base, ts, n)
    ensures AllBelow(GivensAll(ts), base)
    decreases ts
  {
    if ts != [] {
      GivensAllBelow(h, base, ts[..|ts| - 1], n);
      GivensBelow(h, base, ts[|ts| - 1], n + Sizes(ts[..|ts| - 1]));
    }
  }

  /** Releasing a tree just added leaves the heap as it was, less the references that were handed over. */
  lemma {:induction false} ReleaseUndoes(h: Heap, base: Addr, t: PyTree, n: Addr)
    requires Below(h, n) && base <= n && Placed(h, base, t, n)
    ensures Release(AddTree(h, t), t.a) == ReleaseEach(h, Givens(t))
    decreases t, 0
  {
    match t {
      case Fresh(p, kids) =>
        BelowMore(h, n, n + 1);
        AddTreesAvoid(h, base, kids, n + 1, p);
        CellReleased(AddTrees(h, kids), p, Roots(kids));
        ReleaseAllUndoes(h, base, kids, n + 1);
      case Shared(a) => assert Incref(h, a)[a := h[a]] == h;
      case Given(a) => assert [a][1..] == [];
    }
  }

  lemma {:induction false} CellReleased(h: Heap, p: Addr, slots: seq<Option<Addr>>)
    requires p !in h
    ensures Release(h[p := Cell(1, false, slots)], p) == ReleaseSlots(h, slots)
  {
    assert h[p := Cell(1, false, slots)] - {p} == h;
  }

  lemma {:induction false} ReleaseAllUndoes(h: Heap, base: Addr, ts: seq<PyTree>, n: Addr)
    requires Below(h, n) && base <= n && PlacedAll(h, base, ts, n)
    ensures ReleaseSlots(AddTrees(h, ts), Roots(ts)) == ReleaseEach(h, GivensAll(ts))
    decreases ts
  {
    hide Placed, Below, SamePermanents;
    if ts != [] {
      var front, last := ts[..|ts| - 1], ts[|ts| - 1];
      var m := n + Sizes(front);
      var given := Givens(last);
      AddTreesBelow(h, base, front, n);
      PlacedStays(h, AddTrees(h, front), base, last, m);
      ReleaseUndoes(AddTrees(h, front), base, last, m);
      GivensBelow(h, base, last, m);
      EachReleased(h, base, front, n, given);
      ReleasedBelow(h, given, n);
      PlacedAllStays(h, ReleaseEach(h, given), base, front, n);
      ReleaseAllUndoes(ReleaseEach(h, given), base, front, n);
      EachAppend(h, given, GivensAll(front));
      assert Roots(ts)[..|ts| - 1] == Roots(front);
    }
  }

  // --- which references a failure gives back ---

  /** A leaf that hands over a reference, or a point at which the conversion stops. */
  datatype Leaf = Reference(a: Addr) | Stop

  /** The handed-over references and stops of a value, left to right. */
  function Trace(v: Value): seq<Leaf> {
    match v
    case Scalar => []
    case Constant(_) => []
    case Passed(None) => [Stop]
    case Passed(Some(a)) => [Reference(a)]
    case NullResult => [Stop]
    case Throwing => [Stop]
    case Vector(made, items) => if made then TraceAll(items) else [Stop]
    case Tuple(made, items) => if made then TraceAll(items) else [Stop]
  }

  function TraceAll(items: seq<Value>): seq<Leaf> {
    if items == [] then [] else TraceAll(items[..|items| - 1]) + Trace(items[|items| - 1])
  }

  /** The references in front of the first stop, last first. */
  function Backwards(s: seq<Leaf>): seq<Addr> {
    if s == [] || s[0].Stop? then [] else Backwards(s[1..]) + [s[0].a]
  }

  lemma {:induction false} BackwardsAppend(a: seq<Leaf>, b: seq<Leaf>)
    ensures Backwards(a + b) == if Stop in a then Backwards(a) else Backwards(b) + Backwards(a)
    decreases |a|
  {
    if a == [] {
      assert a + b == b;
    } else {
      assert (a + b)[0] == a[0] && (a + b)[1..] == a[1..] + b;
      BackwardsAppend(a[1..], b);
      assert a[0].Reference? ==> (Stop in a <==> Stop in a[1..]);
    }
  }

  function GivenBack(c: Conversion): seq<Addr> {
    if c.Raised? then c.gaveBack else []
  }

  /** A conversion succeeds exactly when nothing in the value stops it; a failure has given back exactly the
      references in front of the first stop. */
  lemma {:induction false} FailureGivesBack(v: Value, n: Addr)
    ensures Converted(v, n).Built? <==> Stop !in Trace(v)
    ensures Converted(v, n).Built? ==> Givens(Converted(v, n).t) == Backwards(Trace(v))
    ensures !Converted(v, n).Built? ==> GivenBack(Converted(v, n)) == Backwards(Trace(v))
    decreases v, 0
  {
    match v {
      case Vector(_, items) => ItemsGiveBack(items, n + 1);
      case Tuple(_, items) => ItemsGiveBack(items, n + 1);
      case Passed(Some(a)) => assert [Reference(a)][1..] == [];
      case _ =>
    }
  }

  lemma {:induction false} ItemsGiveBack(items: seq<Value>, n: Addr)
    ensures ConvertedItems(items, n).Kids? <==> Stop !in TraceAll(items)
    ensures match ConvertedItems(items, n)
            case Kids(ts) => GivensAll(ts) == Backwards(TraceAll(items))
            case Stopped(back) => back == Backwards(TraceAll(items))
    decreases items
  {
    hide Trace, Givens, Backwards, Sizes, GivensAll, Converted;
    Empties();
    if items != [] {
      var front, last := items[..|items| - 1], items[|items| - 1];
      ItemsGiveBack(front, n);
      BackwardsAppend(TraceAll(front), Trace(last));
      if ConvertedItems(front, n).Kids? {
        var ts := ConvertedItems(front, n).ts;
        FailureGivesBack(last, n + Sizes(ts));
        WithItemGivens(ts, Converted(last, n + Sizes(ts)));
      }
    }
  }

  lemma {:induction false} Empties()
    ensures GivensAll([]) == [] && Backwards([]) == []
  {
  }

  lemma {:induction false} WithItemGivens(ts: seq<PyTree>, c: Conversion)
    ensures match WithItem(ts, c)
            case Kids(ts') => c.Built? && GivensAll(ts') == Givens(c.t) + GivensAll(ts)
            case Stopped(back) => !c.Built? && back == GivenBack(c) + GivensAll(ts)
  {
    if c.Built? {
      assert (ts + [c.t])[..|ts|] == ts;
    } else {
      assert [] + GivensAll(ts) == GivensAll(ts);
    }
  }

  /** No container caster answers null: a null element becomes an exception. */
  lemma {:induction false} OnlyLeavesAreNull(v: Value, n: Addr)
    ensures Converted(v, n).Null? <==> v.NullResult?
  {
  }

  /** The result has the shape of the value. */
  ghost predicate Mirrors(v: Value, t: PyTree) {
    match v
    case Scalar => t.Fresh? && t.kids == []
    case Constant(a) => t == Shared(a)
    case Passed(Some(a)) => t == Given(a)
    case Vector(_, items) => t.Fresh? && |t.kids| == |items| && forall i :: 0 <= i < |items| ==>
        Mirrors(items[i], t.kids[i])
    case Tuple(_, items) => t.Fresh? && |t.kids| == |items| && forall i :: 0 <= i < |items| ==>
        Mirrors(items[i], t.kids[i])
    case _ => false
  }

  lemma {:induction false} ConvertedMirrors(v: Value, n: Addr)
    ensures Converted(v, n).Built? ==> Mirrors(v, Converted(v, n).t)
    decreases v, 0
  {
    match v {
      case Vector(_, items) => ItemsMirror(items, n + 1);
      case Tuple(_, items) => ItemsMirror(items, n + 1);
      case _ =>
    }
  }

  lemma {:induction false} ItemsMirror(items: seq<Value>, n: Addr)
    ensures ConvertedItems(items, n).Kids? ==>
              var ts := ConvertedItems(items, n).ts;
              |ts| == |items| && forall i :: 0 <= i < |items| ==> Mirrors(items[i], ts[i])
    decreases items
  {
    hide Mirrors, Converted;
    if items != [] {
      var front, last := items[..|items| - 1], items[|items| - 1];
      ItemsMirror(front, n);
      if ConvertedItems(front, n).Kids? {
        ConvertedMirrors(last, n + Sizes(ConvertedItems(front, n).ts));
        assert forall i :: 0 <= i < |front| ==> items[i] == front[i];
      }
    }
  }

  // --- the casters ---

  function Nones(k: nat): (r: seq<Option<Addr>>)
    ensures |r| == k && forall i :: 0 <= i < k ==> r[i] == None
  {
    seq(k, _ => None)
  }

  datatype Outcome = Object(a: Addr) | NullObject | Exception

  lemma {:induction false} LegalStays(h: Heap, h': Heap, base: Addr, v: Value)
    requires SamePermanents(h, h') && Legal(h, base, v)
    ensures Legal(h', base, v)
  {
    match v {
      case Vector(_, items) =>
        forall i | 0 <= i < |items| ensures Legal(h', base, items[i]) { LegalStays(h, h', base, items[i]); }
      case Tuple(_, items) =>
        forall i | 0 <= i < |items| ensures Legal(h', base, items[i]) { LegalStays(h, h', base, items[i]); }
      case _ =>
    }
  }

  lemma {:induction false} BackBelow(h: Heap, base: Addr, v: Value)
    requires Legal(h, base, v)
    ensures forall i :: 0 <= i < |Trace(v)| && Trace(v)[i].Reference? ==> Trace(v)[i].a < base
    decreases v, 0
  {
    match v {
      case Vector(_, items) => BackAllBelow(h, base, items);
      case Tuple(_, items) => BackAllBelow(h, base, items);
      case _ =>
    }
  }

  lemma {:induction false} BackAllBelow(h: Heap, base: Addr, items: seq<Value>)
    requires forall i :: 0 <= i < |items| ==> Legal(h, base, items[i])
    ensures forall i :: 0 <= i < |TraceAll(items)| && TraceAll(items)[i].Reference? ==> TraceAll(items)[i].a < base
    decreases items
  {
    hide Legal, Trace;
    if items != [] {
      BackAllBelow(h, base, items[..|items| - 1]);
      BackBelow(h, base, items[|items| - 1]);
    }
  }

  lemma {:induction false} BackwardsBelow(s: seq<Leaf>, base: Addr)
    requires forall i :: 0 <= i < |s| && s[i].Reference? ==> s[i].a < base
    ensures AllBelow(Backwards(s), base)
    decreases |s|
  {
    if s != [] && s[0].Reference? {
      BackwardsBelow(s[1..], base);
    }
  }

  /** How a conversion leaves the heap `h` whose next free address was `n`. */
  ghost predicate Ends(c: Conversion, r: Outcome, h: Heap, n: Addr, h': Heap, n': Addr) {
    match c
    case Built(t) => r == Object(t.a) && h' == AddTree(h, t) && n' == n + Size(t)
    case Null => r == NullObject && h' == h && n' == n
    case Raised(back) => r == Exception && h' == ReleaseEach(h, back) && n' >= n
  }

  /** Inside a container caster: the heap and the container at `n` after `i` items have become the trees `ts`. */
  ghost predicate Partly(h: Heap, n: Addr, base: Addr, items: seq<Value>, i: nat, ts: seq<PyTree>, cells: Heap,
                         next: Addr) {
    && Below(h, n) && base <= n && (forall j :: 0 <= j < |items| ==> Legal(h, base, items[j]))
    && i <= |items| && ConvertedItems(items[..i], n + 1) == Kids(ts) && |ts| == i
    && PlacedAll(h, base, ts, n + 1) && next == n + 1 + Sizes(ts)
    && cells == AddTrees(h, ts)[n := Cell(1, false, Roots(ts) + Nones(|items| - i))]
  }

  lemma {:induction false} PartlyLegal(h: Heap, n: Addr, base: Addr, items: seq<Value>, i: nat, ts: seq<PyTree>,
                                       cells: Heap, next: Addr)
    requires Partly(h, n, base, items, i, ts, cells, next)
    ensures Below(cells, next) && Unreferenced(AddTrees(h, ts), n) && SamePermanents(h, cells)
    ensures Below(AddTrees(h, ts), next) && SamePermanents(h, AddTrees(h, ts))
  {
    hide Legal;
    BelowMore(h, n, n + 1);
    AddTreesBelow(h, base, ts, n + 1);
    RootsBelow(h, base, ts, n + 1);
    AddTreesAvoid(h, base, ts, n + 1, n);
    AddCellBelow(AddTrees(h, ts), n, Cell(1, false, Roots(ts) + Nones(|items| - i)), next);
  }

  lemma {:induction false} SlotsWithNones(h: Heap, slots: seq<Option<Addr>>, k: nat)
    ensures ReleaseSlots(h, slots + Nones(k)) == ReleaseSlots(h, slots)
    decreases k
  {
    if k == 0 {
      assert slots + Nones(0) == slots;
    } else {
      assert (slots + Nones(k))[..|slots| + k - 1] == slots + Nones(k - 1);
      SlotsWithNones(h, slots, k - 1);
    }
  }

  lemma {:induction false} StoppedStays(items: seq<Value>, i: nat, n: Addr)
    requires i <= |items| && ConvertedItems(items[..i], n).Stopped?
    ensures ConvertedItems(items, n) == ConvertedItems(items[..i], n)
    decreases |items|
  {
    if i < |items| {
      assert items[..|items| - 1][..i] == items[..i];
      StoppedStays(items[..|items| - 1], i, n);
    } else {
      assert items[..i] == items;
    }
  }

  ghost predicate IsContainer(v: Value, items: seq<Value>) {
    v == Vector(true, items) || v == Tuple(true, items)
  }

  /** When an item fails, releasing the container leaves the heap as the whole conversion must. */
  lemma {:induction false} PartlyFails(v: Value, h: Heap, n: Addr, base: Addr, items: seq<Value>, i: nat,
                                       ts: seq<PyTree>, cells: Heap, next: Addr,
                                       r: Outcome, cells': Heap, next': Addr)
    requires IsContainer(v, items) && Partly(h, n, base, items, i, ts, cells, next) && i < |items|
    requires Ends(Converted(items[i], next), r, cells, next, cells', next') && !r.Object?
    ensures Ends(Converted(v, n), Exception, h, n, Release(cells', n), next') && Below(Release(cells', n), next')
  {
    hide Legal, Below, PlacedAll, SamePermanents, Unreferenced, AllBelow, Release, ReleaseEach, AddTrees, Sizes, Roots,
         GivensAll,
         Converted, Ends, IsContainer, GivenBack;
    var back := GivenBack(Converted(items[i], next));
    PartlyLegal(h, n, base, items, i, ts, cells, next);
    ItemFailed(h, base, items[i], next, r, cells, cells', next');
    ItemStops(items, i, n + 1, ts);
    ContainerReleased(h, n, base, ts, back, |items| - i);
    ContainerStopped(v, h, n, items, back + GivensAll(ts), next');
    BelowMore(Release(cells', n), n, next');
  }

  lemma {:induction false} ItemFailed(h: Heap, base: Addr, v: Value, n: Addr, r: Outcome, cells: Heap, cells': Heap,
                                      n': Addr)
    requires Ends(Converted(v, n), r, cells, n, cells', n') && !r.Object? && Legal(h, base, v)
    ensures !Converted(v, n).Built? && cells' == ReleaseEach(cells, GivenBack(Converted(v, n))) && n' >= n
    ensures AllBelow(GivenBack(Converted(v, n)), base)
  {
    hide Legal, Trace, Converted;
    FailureGivesBack(v, n);
    BackBelow(h, base, v);
    BackwardsBelow(Trace(v), base);
  }

  lemma {:induction false} ContainerStopped(v: Value, h: Heap, n: Addr, items: seq<Value>, back: seq<Addr>, n': Addr)
    requires IsContainer(v, items) && ConvertedItems(items, n + 1) == Stopped(back) && n' >= n
    ensures Ends(Converted(v, n), Exception, h, n, ReleaseEach(h, back), n')
  {
    hide ReleaseEach;
  }

  lemma {:induction false} ItemStops(items: seq<Value>, i: nat, n: Addr, ts: seq<PyTree>)
    requires i < |items| && ConvertedItems(items[..i], n) == Kids(ts) && !Converted(items[i], n + Sizes(ts)).Built?
    ensures ConvertedItems(items, n) == Stopped(GivenBack(Converted(items[i], n + Sizes(ts))) + GivensAll(ts))
  {
    hide Converted, Sizes, GivensAll;
    var c := Converted(items[i], n + Sizes(ts));
    assert items[..i + 1][..i] == items[..i];
    WithItemGivens(ts, c);
    StoppedStays(items, i + 1, n);
  }

  lemma {:induction false} ContainerReleased(h: Heap, n: Addr, base: Addr, ts: seq<PyTree>, back: seq<Addr>, k: nat)
    requires Below(h, n) && base <= n && PlacedAll(h, base, ts, n + 1) && AllBelow(back, base)
    requires Unreferenced(AddTrees(h, ts), n)
    ensures var h' := Release(ReleaseEach(AddTrees(h, ts)[n := Cell(1, false, Roots(ts) + Nones(k))], back), n);
            h' == ReleaseEach(h, back + GivensAll(ts)) && Below(h', n)
  {
    hide Below, PlacedAll, SamePermanents, Unreferenced, AllBelow, Release, ReleaseEach, ReleaseSlots, AddTrees,
         GivensAll, Roots, Nones;
    var trees, slots := AddTrees(h, ts), Roots(ts) + Nones(k);
    AllBelowMore(back, base, n);
    EachFrame(trees, back, n, Cell(1, false, slots));
    BelowMore(h, n, n + 1);
    EachReleased(h, base, ts, n + 1, back);
    ReleasedBelow(h, back, n);
    ReleasedBelow(h, back + GivensAll(ts), n);
    UnreferencedOut(ReleaseEach(trees, back), n);
    CellReleased(ReleaseEach(trees, back), n, slots);
    SlotsWithNones(ReleaseEach(trees, back), Roots(ts), k);
    BelowMore(ReleaseEach(h, back), n, n + 1);
    PlacedAllStays(h, ReleaseEach(h, back), base, ts, n + 1);
    ReleaseAllUndoes(ReleaseEach(h, back), base, ts, n + 1);
    EachAppend(h, back, GivensAll(ts));
  }

  lemma {:induction false} UnreferencedOut(h: Heap, p: Addr)
    requires Unreferenced(h, p)
    ensures p !in h
  {
  }

  lemma {:induction false} AllBelowMore(addrs: seq<Addr>, base: Addr, n: Addr)
    requires AllBelow(addrs, base) && base <= n
    ensures AllBelow(addrs, n)
  {
  }

  /** When an item is built, it can take its slot. */
  lemma {:induction false} PartlyBuilt(h: Heap, n: Addr, base: Addr, items: seq<Value>, i: nat, ts: seq<PyTree>,
                                       cells: Heap, next: Addr,
                                       r: Outcome, cells': Heap, next': Addr)
    requires Partly(h, n, base, items, i, ts, cells, next) && i < |items|
    requires Ends(Converted(items[i], next), r, cells, next, cells', next') && r.Object?
    ensures n in cells' && cells'[n] == Cell(1, false, Roots(ts) + Nones(|items| - i))
            && Converted(items[i], next).Built?
    ensures Partly(h, n, base, items, i + 1, ts + [Converted(items[i], next).t],
                   cells'[n := Cell(1, false, cells'[n].slots[i := Some(r.a)])], next')
  {
    hide Below, Legal, Placed, PlacedAll, SamePermanents, Unreferenced, Permanent, Converted, ConvertedItems,
         ReleaseEach;
    var t := Converted(items[i], next).t;
    var slots := Roots(ts) + Nones(|items| - i);
    PartlyLegal(h, n, base, items, i, ts, cells, next);
    ItemBuilt(h, base, items, i, n + 1, ts);
    PlacedStays(h, AddTrees(h, ts), base, t, next);
    AddTreeFrame(AddTrees(h, ts), base, t, next, n, Cell(1, false, slots));
    TreesNext(h, ts, t);
    assert slots[i := Some(t.a)] == Roots(ts + [t]) + Nones(|items| - i - 1);
  }

  lemma {:induction false} TreesNext(h: Heap, ts: seq<PyTree>, t: PyTree)
    ensures AddTrees(h, ts + [t]) == AddTree(AddTrees(h, ts), t) && Sizes(ts + [t]) == Sizes(ts) + Size(t)
  {
    hide AddTree;
    assert (ts + [t])[..|ts|] == ts;
  }

  lemma {:induction false} ItemBuilt(h: Heap, base: Addr, items: seq<Value>, i: nat, n: Addr, ts: seq<PyTree>)
    requires i < |items| && Legal(h, base, items[i]) && PlacedAll(h, base, ts, n)
    requires ConvertedItems(items[..i], n) == Kids(ts) && Converted(items[i], n + Sizes(ts)).Built?
    ensures var t := Converted(items[i], n + Sizes(ts)).t;
            && ConvertedItems(items[..i + 1], n) == Kids(ts + [t])
            && Placed(h, base, t, n + Sizes(ts)) && PlacedAll(h, base, ts + [t], n)
  {
    hide Legal, Placed, PlacedAll, Converted, Sizes;
    assert items[..i + 1][..i] == items[..i];
    ConvertedPlaced(h, base, items[i], n + Sizes(ts));
    PlacedNext(h, base, ts, Converted(items[i], n + Sizes(ts)).t, n);
  }

  lemma {:induction false} PartlyStarts(v: Value, h: Heap, n: Addr, base: Addr, items: seq<Value>)
    requires IsContainer(v, items) && Below(h, n) && base <= n && Legal(h, base, v)
    ensures Partly(h, n, base, items, 0, [], h[n := Cell(1, false, Nones(|items|))], n + 1)
  {
    assert Roots([]) + Nones(|items|) == Nones(|items|);
    assert items[..0] == [];
  }

  lemma {:induction false} PartlyDone(v: Value, h: Heap, n: Addr, base: Addr, items: seq<Value>, ts: seq<PyTree>,
                                      cells: Heap, next: Addr)
    requires IsContainer(v, items) && Partly(h, n, base, items, |items|, ts, cells, next)
    ensures Ends(Converted(v, n), Object(n), h, n, cells, next) && Below(cells, next)
  {
    hide Legal, Below, PlacedAll;
    PartlyLegal(h, n, base, items, |items|, ts, cells, next);
    assert items[..|items|] == items && Roots(ts) + Nones(0) == Roots(ts);
  }

  lemma {:induction false} PartlyItem(h: Heap, n: Addr, base: Addr, items: seq<Value>, i: nat, ts: seq<PyTree>,
                                      cells: Heap, next: Addr)
    requires Partly(h, n, base, items, i, ts, cells, next) && i < |items|
    ensures Below(cells, next) && base <= next && |ts| == i && Legal(cells, base, items[i])
  {
    PartlyLegal(h, n, base, items, i, ts, cells, next);
    LegalStays(h, cells, base, items[i]);
  }

  lemma {:induction false} SlotIsNull(ts: seq<PyTree>, n: nat, i: nat)
    requires i == |ts| < n
    ensures (Roots(ts) + Nones(n - i))[i] == None
  {
  }

  lemma {:induction false} NotMade(v: Value, h: Heap, n: Addr)
    requires (v.Vector? || v.Tuple?) && !v.made
    ensures Ends(Converted(v, n), Exception, h, n, h, n)
  {
  }

  class PyHeap {
    var cells: Heap
    var next: Addr

    ghost predicate Valid()
      reads this
    {
      Below(cells, next)
    }

    constructor ()
      ensures Valid() && cells == map[]
    {
      cells, next := map[], 0;
    }

    /** `PyList_New`, `PyTuple_New`, or a scalar's object: one reference, empty slots. */
    method New(size: nat) returns (p: Addr)
      modifies this
      ensures p == old(next) && next == p + 1 && cells == old(cells)[p := Cell(1, false, Nones(size))]
    {
      p := next;
      cells := cells[p := Cell(1, false, Nones(size))];
      next := next + 1;
    }

    /** `PyList_SetItem`, `PyTuple_SetItem` into a slot that is still null: the slot takes the reference over. */
    method SetItem(p: Addr, i: nat, a: Addr)
      requires p in cells && i < |cells[p].slots| && cells[p].slots[i] == None
      modifies this
      ensures next == old(next)
      ensures cells == old(cells)[p := old(cells)[p].(slots := old(cells)[p].slots[i := Some(a)])]
    {
      cells := cells[p := cells[p].(slots := cells[p].slots[i := Some(a)])];
    }

    method Decref(a: Addr)
      modifies this
      ensures next == old(next) && cells == Release(old(cells), a)
      decreases cells.Keys
    {
      if a !in cells {
        return;
      }
      if cells[a].permanent || cells[a].refs > 1 {
        cells := cells[a := cells[a].(refs := cells[a].refs - 1)];
        return;
      }
      var slots := cells[a].slots;
      ghost var all := cells.Keys;
      cells := cells - {a};
      ghost var freed := cells;
      assert a in all && a !in freed.Keys;
      var i := |slots|;
      assert slots[..i] == slots;
      while i > 0
        invariant 0 <= i <= |slots| && next == old(next)
        invariant cells.Keys <= freed.Keys
        invariant ReleaseSlots(cells, slots[..i]) == ReleaseSlots(freed, slots)
      {
        i := i - 1;
        assert slots[..i + 1][..i] == slots[..i];
        if slots[i].Some? {
          Decref(slots[i].value);
        }
      }
    }

    /** `caster<T>::to_python`. `base` is where the addresses of the conversion begin. */
    method ToPython(v: Value, ghost base: Addr) returns (r: Outcome)
      requires Valid() && base <= next && Legal(cells, base, v)
      modifies this
      ensures Valid() && Ends(Converted(v, old(next)), r, old(cells), old(next), cells, next)
      decreases v, 1
    {
      match v {
        case Scalar =>
          var p := New(0);
          r := Object(p);
          assert Nones(0) == Roots([]);
        case Constant(a) =>
          cells := cells[a := cells[a].(refs := cells[a].refs + 1)];
          r := Object(a);
        case Passed(None) => r := Exception;
        case Passed(Some(a)) => r := Object(a);
        case NullResult => r := NullObject;
        case Throwing => r := Exception;
        case Vector(made, items) => r := ToContainer(v, made, items, base);
        case Tuple(made, items) => r := ToContainer(v, made, items, base);
      }
    }

    /** The vector and the tuple caster: make the container, set its items in order, and release it when one fails. */
    method ToContainer(ghost v: Value, made: bool, items: seq<Value>, ghost base: Addr) returns (r: Outcome)
      requires v == Vector(made, items) || v == Tuple(made, items)
      requires Valid() && base <= next && Legal(cells, base, v)
      modifies this
      ensures Valid() && Ends(Converted(v, old(next)), r, old(cells), old(next), cells, next)
      decreases v, 0
    {
      hide Below, Legal, Ends, Partly, Converted, ConvertedItems, AddTree, AddTrees, Sizes, Release, ReleaseSlots,
           Placed, SamePermanents;
      if !made {
        NotMade(v, cells, next);
        return Exception;
      }
      ghost var h, n := cells, next;
      ghost var ts: seq<PyTree> := [];
      PartlyStarts(v, h, n, base, items);
      var p := New(|items|);
      for i := 0 to |items|
        invariant Partly(h, n, base, items, i, ts, cells, next)
      {
        PartlyItem(h, n, base, items, i, ts, cells, next);
        ghost var h', n' := cells, next;
        var element := ToPython(items[i], base);
        if !element.Object? {
          PartlyFails(v, h, n, base, items, i, ts, h', n', element, cells, next);
          Decref(p);
          return Exception;
        }
        PartlyBuilt(h, n, base, items, i, ts, h', n', element, cells, next);
        SlotIsNull(ts, |items|, i);
        SetItem(p, i, element.a);
        ts := ts + [Converted(items[i], n').t];
      }
      PartlyDone(v, h, n, base, items, ts, cells, next);
      return Object(p);
    }
  }

  // --- what a failure costs ---

  ghost predicate Shrunk(h: Heap, h': Heap) {
    forall x :: x in h' ==> x in h && h'[x].refs <= h[x].refs
  }

  lemma {:induction false} ReleaseShrinks(h: Heap, a: Addr)
    ensures Shrunk(h, Release(h, a))
    ensures a in h ==> a !in Release(h, a) || Release(h, a)[a].refs < h[a].refs
    decreases h.Keys, 0
  {
    if a in h && !(h[a].permanent || h[a].refs > 1) {
      assert a in h.Keys && a !in (h - {a}).Keys;
      SlotsShrink(h - {a}, h[a].slots);
    }
  }

  lemma {:induction false} SlotsShrink(h: Heap, slots: seq<Option<Addr>>)
    ensures Shrunk(h, ReleaseSlots(h, slots))
    decreases h.Keys, |slots|
  {
    if slots != [] {
      var last := slots[|slots| - 1];
      if last.Some? {
        ReleaseShrinks(h, last.value);
      }
      SlotsShrink(if last.Some? then Release(h, last.value) else h, slots[..|slots| - 1]);
    }
  }

  lemma {:induction false} EachShrinks(h: Heap, addrs: seq<Addr>)
    ensures Shrunk(h, ReleaseEach(h, addrs))
    decreases |addrs|
  {
    if addrs != [] {
      ReleaseShrinks(h, addrs[0]);
      EachShrinks(Release(h, addrs[0]), addrs[1..]);
    }
  }

  /** A failing conversion leaves the heap exactly as it was if and only if no reference was handed over in front of
      the point of failure. In particular it does for every value without a PyObject* in it. */
  lemma {:induction false} FailureKeepsHeap(v: Value, h: Heap, n: Addr)
    requires !Converted(v, n).Built?
    requires forall i :: 0 <= i < |Trace(v)| && Trace(v)[i].Reference? ==> Trace(v)[i].a in h
    ensures ReleaseEach(h, GivenBack(Converted(v, n))) == h <==> Trace(v) != [] && Trace(v)[0].Stop?
  {
    hide Trace, Converted, Release;
    FailureGivesBack(v, n);
    var back := Backwards(Trace(v));
    assert Trace(v) != [];
    if Trace(v)[0].Reference? {
      var a := Trace(v)[0].a;
      BackwardsEnds(Trace(v));
      var h' := ReleaseEach(h, back[..|back| - 1]);
      EachAppend(h, back[..|back| - 1], [a]);
      assert back == back[..|back| - 1] + [a];
      EachShrinks(h, back[..|back| - 1]);
      assert [a][1..] == [];
      assert ReleaseEach(Release(h', a), []) == Release(h', a);
      ReleaseShrinks(h', a);
      assert a in Release(h', a) ==> Release(h', a)[a].refs < h[a].refs;
    }
  }

  lemma {:induction false} BackwardsEnds(s: seq<Leaf>)
    requires s != [] && s[0].Reference?
    ensures var b := Backwards(s); b != [] && b[|b| - 1] == s[0].a
  {
  }

  // --- every new object is owned once ---

  ghost predicate SlotAt(h: Heap, q: Addr, i: int, x: Addr) {
    q in h && 0 <= i < |h[q].slots| && h[q].slots[i] == Some(x)
  }

  ghost predicate InSlot(h: Heap, x: Addr) {
    exists q: Addr, i: int :: SlotAt(h, q, i, x)
  }

  /** `h'` is `h` with new cells at addresses from `n` to `m` and more references to permanent objects. */
  ghost predicate Grown(h: Heap, h': Heap, base: Addr, n: Addr, m: Addr) {
    && (forall a :: a in h ==> a in h' && h'[a].slots == h[a].slots && (h[a].permanent || h'[a] == h[a]))
    && (forall a :: a in h' && a !in h ==> n <= a < m && !h'[a].permanent)
    && (forall q: Addr, i: int, x: Addr :: SlotAt(h', q, i, x) && q !in h ==> x < base || Permanent(h, x) || n <= x < m)
  }

  /** From `n` to `m` every address holds an object with one reference. That reference is the caller's for the roots,
      and the only slot's for any other. */
  ghost predicate OwnedOnce(h: Heap, roots: seq<PyTree>, n: Addr, m: Addr) {
    && (forall x: Addr :: n <= x < m ==> x in h && h[x].refs == 1 && !h[x].permanent)
    && (forall q: Addr, i: int, x: Addr :: n <= x && SlotAt(h, q, i, x) ==> !IsRoot(roots, x))
    && (forall q: Addr, i: int, q': Addr, i': int, x: Addr :: n <= x && SlotAt(h, q, i, x) && SlotAt(h, q', i', x) ==>
        q == q' && i == i')
    && (forall x: Addr :: n <= x < m ==> IsRoot(roots, x) || InSlot(h, x))
    && (forall j, k :: 0 <= j < k < |roots| && n <= roots[j].a ==> roots[j].a != roots[k].a)
  }

  ghost predicate IsRoot(roots: seq<PyTree>, x: Addr) {
    exists k :: 0 <= k < |roots| && roots[k].a == x
  }

  /** A successful conversion adds to the heap exactly its result: the older cells are unchanged but for the counts of
      permanent objects, and each new object is owned once, by its parent or, the root, by the caller. */
  lemma {:induction false} ResultOwnedOnce(h: Heap, base: Addr, t: PyTree, n: Addr)
    requires Below(h, n) && base <= n && Placed(h, base, t, n)
    ensures Grown(h, AddTree(h, t), base, n, n + Size(t))
    ensures OwnedOnce(AddTree(h, t), [t], n, n + Size(t))
    decreases t, 1
  {
    match t {
      case Fresh(p, kids) =>
        ParentPlaced(h, base, t, n);
      case Shared(a) => LeafOwned(h, base, t, n);
      case Given(a) => LeafOwned(h, base, t, n);
    }
  }

  lemma {:induction false} LeafOwned(h: Heap, base: Addr, t: PyTree, n: Addr)
    requires Below(h, n) && base <= n && Placed(h, base, t, n) && !t.Fresh?
    ensures Grown(h, AddTree(h, t), base, n, n) && OwnedOnce(AddTree(h, t), [t], n, n)
  {
    var h' := AddTree(h, t);
    assert forall q: Addr, i: int, x: Addr :: SlotAt(h', q, i, x) ==> SlotAt(h, q, i, x) && x < n;
  }

  lemma {:induction false} ParentPlaced(h: Heap, base: Addr, t: PyTree, n: Addr)
    requires Below(h, n) && base <= n && Placed(h, base, t, n) && t.Fresh?
    ensures Grown(h, AddTree(h, t), base, n, n + Size(t)) && OwnedOnce(AddTree(h, t), [t], n, n + Size(t))
    decreases t, 0
  {
    hide Below, Grown, OwnedOnce, PlacedAll, Unreferenced, AddTrees, Permanent;
    var kids := t.kids;
    BelowMore(h, n, n + 1);
    ResultsOwnedOnce(h, base, kids, n + 1);
    KidsAvoidParent(h, base, kids, n);
    RootsBelow(h, base, kids, n + 1);
    ParentOwns(h, AddTrees(h, kids), base, kids, n, n + Size(t));
    assert t == Fresh(n, kids);
  }

  lemma {:induction false} KidsAvoidParent(h: Heap, base: Addr, kids: seq<PyTree>, n: Addr)
    requires Below(h, n) && base <= n && PlacedAll(h, base, kids, n + 1)
    ensures Unreferenced(AddTrees(h, kids), n)
  {
    BelowMore(h, n, n + 1);
    AddTreesAvoid(h, base, kids, n + 1, n);
  }

  lemma {:induction false} ParentOwns(h: Heap, h1: Heap, base: Addr, kids: seq<PyTree>, n: Addr, m: Addr)
    requires Below(h, n) && base <= n < m && Grown(h, h1, base, n + 1, m) && OwnedOnce(h1, kids, n + 1, m)
             && Unreferenced(h1, n)
    requires forall i :: 0 <= i < |kids| ==>
             kids[i].a < m && (kids[i].a < base || Permanent(h, kids[i].a) || kids[i].a > n)
    ensures var h' := h1[n := Cell(1, false, Roots(kids))];
            Grown(h, h', base, n, m) && OwnedOnce(h', [Fresh(n, kids)], n, m)
  {
    var h' := h1[n := Cell(1, false, Roots(kids))];
    var root := [Fresh(n, kids)];
    forall q: Addr, i: int, x: Addr
      ensures SlotAt(h', q, i, x) <==> SlotAt(h1, q, i, x) || (q == n && 0 <= i < |kids| && kids[i].a == x)
    {
    }
    assert forall x: Addr :: IsRoot(root, x) <==> x == n by { assert root[0].a == n; }
    forall x: Addr | n <= x < m ensures IsRoot(root, x) || InSlot(h', x) {
      if x != n {
        if IsRoot(kids, x) {
          var k :| 0 <= k < |kids| && kids[k].a == x;
          assert SlotAt(h', n, k, x);
        } else {
          var q: Addr, i: int :| SlotAt(h1, q, i, x);
          assert SlotAt(h', q, i, x);
        }
      }
    }
  }

  lemma {:induction false} ResultsOwnedOnce(h: Heap, base: Addr, ts: seq<PyTree>, n: Addr)
    requires Below(h, n) && base <= n && PlacedAll(h, base, ts, n)
    ensures Grown(h, AddTrees(h, ts), base, n, n + Sizes(ts))
    ensures OwnedOnce(AddTrees(h, ts), ts, n, n + Sizes(ts))
    decreases ts
  {
    hide Placed, SamePermanents, Below, Permanent, Grown, OwnedOnce, AddTree, Size;
    if ts == [] {
      NothingGrown(h, base, n);
    } else {
      var front, last := ts[..|ts| - 1], ts[|ts| - 1];
      var h1, m := AddTrees(h, front), n + Sizes(front);
      ResultsOwnedOnce(h, base, front, n);
      AddTreesBelow(h, base, front, n);
      RootsBelow(h, base, front, n);
      PlacedStays(h, h1, base, last, m);
      ResultOwnedOnce(h1, base, last, m);
      RootBelow(h1, base, last, m);
      SiblingsOwn(h, h1, AddTree(h1, last), base, front, last, n, m, m + Size(last));
      assert front + [last] == ts && n + Sizes(ts) == m + Size(last);
    }
  }

  lemma {:induction false} NothingGrown(h: Heap, base: Addr, n: Addr)
    requires Below(h, n)
    ensures Grown(h, h, base, n, n) && OwnedOnce(h, [], n, n)
  {
  }

  lemma {:induction false} RootBelow(h: Heap, base: Addr, t: PyTree, n: Addr)
    requires Below(h, n) && base <= n && Placed(h, base, t, n)
    ensures t.a < base || Permanent(h, t.a) || n <= t.a
  {
  }

  lemma {:induction false} SiblingsOwn(h: Heap, h1: Heap, h2: Heap, base: Addr, front: seq<PyTree>, last: PyTree,
                                       n: Addr, m: Addr, k: Addr)
    requires Below(h, n) && Below(h1, m) && base <= n <= m <= k
    requires Grown(h, h1, base, n, m) && OwnedOnce(h1, front, n, m)
    requires Grown(h1, h2, base, m, k) && OwnedOnce(h2, [last], m, k)
    requires forall i :: 0 <= i < |front| ==>
             front[i].a < m && (front[i].a < base || Permanent(h, front[i].a) || n <= front[i].a)
    requires last.a < base || Permanent(h1, last.a) || m <= last.a
    ensures Grown(h, h2, base, n, k) && OwnedOnce(h2, front + [last], n, k)
  {
    hide Below;
    PermanentsOld(h, h1, base, n, m);
    GrownMore(h, h1, h2, base, n, m, k);
    forall q: Addr, i: int, x: Addr | SlotAt(h2, q, i, x) && n <= x < m ensures SlotAt(h1, q, i, x) {
    }
    forall q: Addr, i: int, x: Addr | SlotAt(h1, q, i, x) ensures SlotAt(h2, q, i, x) {
    }
    var roots := front + [last];
    assert forall x: Addr :: IsRoot([last], x) <==> x == last.a by { assert [last][0] == last; }
    assert forall x: Addr :: IsRoot(roots, x) <==> IsRoot(front, x) || x == last.a by {
      assert roots[|front|] == last;
      assert forall i :: 0 <= i < |front| ==> roots[i] == front[i];
    }
    forall x: Addr | n <= x < k ensures IsRoot(roots, x) || InSlot(h2, x) {
      if x < m && !IsRoot(front, x) {
        var q: Addr, i: int :| SlotAt(h1, q, i, x);
        assert SlotAt(h2, q, i, x);
      }
    }
  }

  lemma {:induction false} GrownMore(h: Heap, h1: Heap, h2: Heap, base: Addr, n: Addr, m: Addr, k: Addr)
    requires Grown(h, h1, base, n, m) && Grown(h1, h2, base, m, k) && n <= m <= k
    requires forall x: Addr :: Permanent(h1, x) ==> Permanent(h, x)
    ensures Grown(h, h2, base, n, k)
  {
    forall q: Addr, i: int, x: Addr | SlotAt(h2, q, i, x) && q !in h ensures x < base || Permanent(h, x) || n <= x < k {
      assert q in h1 ==> SlotAt(h1, q, i, x);
    }
  }

  lemma {:induction false} PermanentsOld(h: Heap, h1: Heap, base: Addr, n: Addr, m: Addr)
    requires Below(h, n) && Grown(h, h1, base, n, m)
    ensures forall x: Addr :: Permanent(h1, x) ==> Permanent(h, x) && x < n
  {
  }

  // --- the result as it stands in the heap ---

  /** Every new object of the tree holds exactly its kids, in order. */
  ghost predicate Stored(h: Heap, t: PyTree) {
    match t
    case Fresh(p, kids) =>
      && p in h && |h[p].slots| == |kids|
      && forall i :: 0 <= i < |kids| ==> h[p].slots[i] == Some(kids[i].a) && Stored(h, kids[i])
    case _ => true
  }

  ghost predicate SlotsKept(h: Heap, h': Heap) {
    forall a :: a in h ==> a in h' && h'[a].slots == h[a].slots
  }

  lemma {:induction false} StoredStays(h: Heap, h': Heap, t: PyTree)
    requires Stored(h, t) && SlotsKept(h, h')
    ensures Stored(h', t)
    decreases t
  {
    if t.Fresh? {
      forall i | 0 <= i < |t.kids| ensures Stored(h', t.kids[i]) {
        StoredStays(h, h', t.kids[i]);
      }
    }
  }

  /** After a conversion the heap holds the converted value: the tree's objects, each with its kids in its slots. */
  lemma {:induction false} ResultStored(h: Heap, base: Addr, t: PyTree, n: Addr)
    requires Below(h, n) && base <= n && Placed(h, base, t, n)
    ensures Stored(AddTree(h, t), t)
    decreases t, 1
  {
    if t.Fresh? {
      BelowMore(h, n, n + 1);
      ResultsStored(h, base, t.kids, n + 1);
      KidsAvoidParent(h, base, t.kids, n);
      var h1, h' := AddTrees(h, t.kids), AddTree(h, t);
      assert SlotsKept(h1, h');
      forall i | 0 <= i < |t.kids| ensures Stored(h', t.kids[i]) {
        StoredStays(h1, h', t.kids[i]);
      }
    }
  }

  lemma {:induction false} ResultsStored(h: Heap, base: Addr, ts: seq<PyTree>, n: Addr)
    requires Below(h, n) && base <= n && PlacedAll(h, base, ts, n)
    ensures forall i :: 0 <= i < |ts| ==> Stored(AddTrees(h, ts), ts[i])
    decreases ts
  {
    hide Placed, SamePermanents, Below, Permanent, Stored, OwnedOnce;
    if ts != [] {
      var front, last := ts[..|ts| - 1], ts[|ts| - 1];
      var h1, m := AddTrees(h, front), n + Sizes(front);
      ResultsStored(h, base, front, n);
      AddTreesBelow(h, base, front, n);
      PlacedStays(h, h1, base, last, m);
      ResultStored(h1, base, last, m);
      ResultOwnedOnce(h1, base, last, m);
      var h2 := AddTree(h1, last);
      assert SlotsKept(h1, h2);
      forall i | 0 <= i < |front| ensures Stored(h2, ts[i]) {
        assert ts[i] == front[i];
        StoredStays(h1, h2, ts[i]);
      }
    }
  }

  /** How often a tree refers to an existing object with a new reference. */
  function Shares(t: PyTree, a: Addr): nat {
    match t
    case Shared(b) => if a == b then 1 else 0
    case Given(_) => 0
    case Fresh(_, kids) => SharesAll(kids, a)
  }

  function SharesAll(ts: seq<PyTree>, a: Addr): nat {
    if ts == [] then 0 else SharesAll(ts[..|ts| - 1], a) + Shares(ts[|ts| - 1], a)
  }

  /** And an existing object has one reference more for each place that shares it. */
  lemma {:induction false} SharesCounted(h: Heap, base: Addr, t: PyTree, n: Addr, a: Addr)
    requires Below(h, n) && base <= n && Placed(h, base, t, n) && a in h
    ensures a in AddTree(h, t) && AddTree(h, t)[a].refs == h[a].refs + Shares(t, a)
    decreases t, 1
  {
    if t.Fresh? {
      BelowMore(h, n, n + 1);
      SharesAllCounted(h, base, t.kids, n + 1, a);
    }
  }

  lemma {:induction false} SharesAllCounted(h: Heap, base: Addr, ts: seq<PyTree>, n: Addr, a: Addr)
    requires Below(h, n) && base <= n && PlacedAll(h, base, ts, n) && a in h
    ensures a in AddTrees(h, ts) && AddTrees(h, ts)[a].refs == h[a].refs + SharesAll(ts, a)
    decreases ts
  {
    hide Placed, SamePermanents, Below, Permanent;
    if ts != [] {
      var front, last := ts[..|ts| - 1], ts[|ts| - 1];
      var h1, m := AddTrees(h, front), n + Sizes(front);
      SharesAllCounted(h, base, front, n, a);
      AddTreesBelow(h, base, front, n);
      PlacedStays(h, h1, base, last, m);
      SharesCounted(h1, base, last, m, a);
    }
  }
}
