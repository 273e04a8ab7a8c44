/** The four generators of python/sciforge/corpus/exhaustive.py, as the lists they yield. A loop over a generator is a
    recursion over its list, and the body of one turn a function of its own. The mutual recursion ends because the
    budget falls, or the budget stays and the rank of the function falls: atoms, elements, sequences, alternations. The
    lemmas about them are in EnumeratorLaws, and those that count in PatternCount. */
module Enumerator {
  import opened Patterns

  /** A yielded `(string, size)` pair. */
  datatype Item = Item(text: string, size: int)

  ghost predicate Sized(items: seq<Item>, budget: int) {
    forall i :: 0 <= i < |items| ==> 1 <= items[i].size <= budget
  }

  function Positive(budget: int): nat {
    if budget < 0 then 0 else budget
  }

  function Wrapped(before: string, after: string, cost: nat, items: seq<Item>): (r: seq<Item>)
    ensures |r| == |items|
    ensures forall i :: 0 <= i < |items| ==> r[i] == Item(before + items[i].text + after, cost + items[i].size)
  {
    seq(|items|, i requires 0 <= i < |items| => Item(before + items[i].text + after, cost + items[i].size))
  }

  function LeafItems(alphabet: string): (r: seq<Item>)
    ensures |r| == |alphabet| + 3 && Sized(r, 1)
  {
    seq(|alphabet|, i requires 0 <= i < |alphabet| => Item([alphabet[i]], 1))
    + [Item(".", 1), Item("[" + alphabet + "]", 1), Item("[^" + alphabet + "]", 1)]
  }

  function AtomItems(g: Grammar, budget: int): (r: seq<Item>)
    ensures Sized(r, budget)
    decreases Positive(budget), 0, 0
  {
    if budget < 1 then []
    else LeafItems(g.alphabet)
         + if budget >= 2 then Wrapped("(", ")", 1, AltItems(g, budget - 1, g.maxBranches)) else []
  }

  /** The yields for one atom: the atom, then its quantified forms where the budget allows. */
  function QuantItems(a: Item, budget: int): (r: seq<Item>)
    requires 1 <= a.size <= budget
    ensures Sized(r, budget)
  {
    [a] + if a.size + 1 <= budget
          then seq(3, i requires 0 <= i < 3 => Item(a.text + [QUANTS[i]], a.size + 1)) else []
  }

  function WithQuants(atoms: seq<Item>, budget: int): (r: seq<Item>)
    requires Sized(atoms, budget)
    ensures Sized(r, budget)
  {
    if atoms == [] then [] else QuantItems(atoms[0], budget) + WithQuants(atoms[1..], budget)
  }

  function ElementItems(g: Grammar, budget: int): (r: seq<Item>)
    ensures Sized(r, budget)
    decreases Positive(budget), 1, 0
  {
    if budget < 1 then [] else [Item("^", 1), Item("$", 1)] + WithQuants(AtomItems(g, budget), budget)
  }

  function SeqItems(g: Grammar, budget: int, depth: Cap): (r: seq<Item>)
    ensures Sized(r, budget)
    decreases Positive(budget), 3, 0
  {
    SeqItemsFrom(g, ElementItems(g, budget), budget, depth)
  }

  function SeqItemsFrom(g: Grammar, elements: seq<Item>, budget: int, depth: Cap): (r: seq<Item>)
    requires Sized(elements, budget)
    ensures Sized(r, budget)
    decreases Positive(budget), 2, |elements|
  {
    if elements == [] then []
    else SeqItemsWith(g, elements[0], budget, depth) + SeqItemsFrom(g, elements[1..], budget, depth)
  }

  /** The yields of one turn of the loop of `_seqs`. */
  function SeqItemsWith(g: Grammar, e: Item, budget: int, depth: Cap): (r: seq<Item>)
    requires 1 <= e.size <= budget
    ensures Sized(r, budget)
    decreases Positive(budget), 1, 0
  {
    [e] + if depth > 1 then Wrapped(e.text, "", e.size, SeqItems(g, budget - e.size, depth - 1)) else []
  }

  function AltItems(g: Grammar, budget: int, branches: Cap): (r: seq<Item>)
    ensures Sized(r, budget)
    decreases Positive(budget), 5, 0
  {
    AltItemsFrom(g, SeqItems(g, budget, g.maxSeq), budget, branches)
    + if g.emptyBranches && branches > 1 && budget >= 1
      then Wrapped("|", "", 1, AltItems(g, budget - 1, branches - 1)) else []
  }

  function AltItemsFrom(g: Grammar, sequences: seq<Item>, budget: int, branches: Cap): (r: seq<Item>)
    requires Sized(sequences, budget)
    ensures Sized(r, budget)
    decreases Positive(budget), 4, |sequences|
  {
    if sequences == [] then []
    else AltItemsWith(g, sequences[0], budget, branches) + AltItemsFrom(g, sequences[1..], budget, branches)
  }

  /** The yields of one turn of the loop of `_alts`. */
  function AltItemsWith(g: Grammar, s: Item, budget: int, branches: Cap): (r: seq<Item>)
    requires 1 <= s.size <= budget
    ensures Sized(r, budget)
    decreases Positive(budget), 3, 0
  {
    [s] + if branches > 1 && s.size + 1 <= budget
          then Wrapped(s.text + "|", "", s.size + 1, AltItems(g, budget - s.size - 1, branches - 1))
               + if g.emptyBranches then [Item(s.text + "|", s.size + 1)] else []
          else []
  }
}

/** The same enumeration over trees: what the text generators yield is exactly its image. */
module TreeEnumerator {
  import opened Patterns
  import opened Enumerator
  import opened Order

  function Map<S, T>(f: S -> T, s: seq<S>): (r: seq<T>)
    ensures |r| == |s| && forall i :: 0 <= i < |s| ==> r[i] == f(s[i])
  {
    seq(|s|, i requires 0 <= i < |s| => f(s[i]))
  }

  function Plains(ls: seq<Leaf>): seq<Atom> { Map((l: Leaf) => Plain(l), ls) }

  function Groups(xs: seq<Alt>): seq<Atom> { Map((x: Alt) => Group(x), xs) }

  function Anchors(): seq<Elem> { Map((m: char) => Anchor(m), ANCHORS) }

  function Repeats(a: Atom): seq<Elem> { Map((q: char) => Repeat(a, q), QUANTS) }

  function Linked(e: Elem, cs: seq<Chain>): seq<Chain> { Map((c: Chain) => Link(e, c), cs) }

  function Barred(c: Chain, xs: seq<Alt>): seq<Alt> { Map((x: Alt) => Bar(c, x), xs) }

  function Leaves(alphabet: string): seq<Leaf> {
    seq(|alphabet|, i requires 0 <= i < |alphabet| => Letter(alphabet[i])) + [AnyChar, InClass, NotInClass]
  }

  function AtomTrees(g: Grammar, budget: int): (r: seq<Atom>)
    ensures forall i :: 0 <= i < |r| ==> 1 <= AtomCost(r[i]) <= budget
    decreases Positive(budget), 0, 0
  {
    if budget < 1 then []
    else Plains(Leaves(g.alphabet))
         + if budget >= 2 then Groups(AltTrees(g, budget - 1, g.maxBranches)) else []
  }

  function QuantTrees(atoms: seq<Atom>, budget: int): (r: seq<Elem>)
    requires forall i :: 0 <= i < |atoms| ==> 1 <= AtomCost(atoms[i]) <= budget
    ensures forall i :: 0 <= i < |r| ==> 1 <= ElemCost(r[i]) <= budget
  {
    if atoms == [] then [] else QuantTreesWith(atoms[0], budget) + QuantTrees(atoms[1..], budget)
  }

  function QuantTreesWith(a: Atom, budget: int): (r: seq<Elem>)
    requires 1 <= AtomCost(a) <= budget
    ensures forall i :: 0 <= i < |r| ==> 1 <= ElemCost(r[i]) <= budget
  {
    [Once(a)] + if AtomCost(a) + 1 <= budget then Repeats(a) else []
  }

  function ElemTrees(g: Grammar, budget: int): (r: seq<Elem>)
    ensures forall i :: 0 <= i < |r| ==> 1 <= ElemCost(r[i]) <= budget
    decreases Positive(budget), 1, 0
  {
    if budget < 1 then [] else Anchors() + QuantTrees(AtomTrees(g, budget), budget)
  }

  function ChainTrees(g: Grammar, budget: int, depth: Cap): (r: seq<Chain>)
    ensures forall i :: 0 <= i < |r| ==> 1 <= ChainCost(r[i]) <= budget
    decreases Positive(budget), 3, 0
  {
    ChainTreesFrom(g, ElemTrees(g, budget), budget, depth)
  }

  function ChainTreesFrom(g: Grammar, elements: seq<Elem>, budget: int, depth: Cap): (r: seq<Chain>)
    requires forall i :: 0 <= i < |elements| ==> 1 <= ElemCost(elements[i]) <= budget
    ensures forall i :: 0 <= i < |r| ==> 1 <= ChainCost(r[i]) <= budget
    decreases Positive(budget), 2, |elements|
  {
    if elements == [] then []
    else
      var e := elements[0];
      ChainTreesWith(g, e, budget, depth) + ChainTreesFrom(g, elements[1..], budget, depth)
  }

  /** The chains that start with `e`. */
  function ChainTreesWith(g: Grammar, e: Elem, budget: int, depth: Cap): (r: seq<Chain>)
    requires 1 <= ElemCost(e) <= budget
    ensures forall i :: 0 <= i < |r| ==> 1 <= ChainCost(r[i]) <= budget
    decreases Positive(budget), 1, 0
  {
    [Link(e, End)]
    + if depth > 1 then Linked(e, ChainTrees(g, budget - ElemCost(e), depth - 1)) else []
  }

  function AltTrees(g: Grammar, budget: int, branches: Cap): (r: seq<Alt>)
    ensures forall i :: 0 <= i < |r| ==> 1 <= AltCost(r[i]) <= budget
    decreases Positive(budget), 5, 0
  {
    AltTreesFrom(g, ChainTrees(g, budget, g.maxSeq), budget, branches)
    + if g.emptyBranches && branches > 1 && budget >= 1
      then Barred(End, AltTrees(g, budget - 1, branches - 1)) else []
  }

  function AltTreesFrom(g: Grammar, chains: seq<Chain>, budget: int, branches: Cap): (r: seq<Alt>)
    requires forall i :: 0 <= i < |chains| ==> 1 <= ChainCost(chains[i]) <= budget
    ensures forall i :: 0 <= i < |r| ==> 1 <= AltCost(r[i]) <= budget
    decreases Positive(budget), 4, |chains|
  {
    if chains == [] then []
    else AltTreesWith(g, chains[0], budget, branches) + AltTreesFrom(g, chains[1..], budget, branches)
  }

  /** The alternations whose first branch is the non-empty `c`. */
  function AltTreesWith(g: Grammar, c: Chain, budget: int, branches: Cap): (r: seq<Alt>)
    requires 1 <= ChainCost(c) <= budget
    ensures forall i :: 0 <= i < |r| ==> 1 <= AltCost(r[i]) <= budget
    decreases Positive(budget), 3, 0
  {
    [Only(c)]
    + if branches > 1 && ChainCost(c) + 1 <= budget
      then Barred(c, AltTrees(g, budget - ChainCost(c) - 1, branches - 1))
           + if g.emptyBranches then [Bar(c, Only(End))] else []
      else []
  }
}
