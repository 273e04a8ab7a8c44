/** The pattern grammar of python/sciforge/corpus/exhaustive.py: trees, their cost and their text. */
module Patterns {

  type Cap = c: nat | c >= 1 witness 1

  /** The alphabet, the two caps `_MAX_SEQ` and `_MAX_BRANCHES`, and whether the tier allows empty branches. */
  datatype Grammar = Grammar(alphabet: string, maxSeq: Cap, maxBranches: Cap, emptyBranches: bool)

  datatype Leaf = Letter(c: char) | AnyChar | InClass | NotInClass
  datatype Atom = Plain(leaf: Leaf) | Group(inner: Alt)
  datatype Elem = Anchor(mark: char) | Once(atom: Atom) | Repeat(atom: Atom, quant: char)
  /** A branch: a possibly empty chain of elements. */
  datatype Chain = End | Link(first: Elem, rest: Chain)
  datatype Alt = Only(branch: Chain) | Bar(branch: Chain, others: Alt)

  const QUANTS := ['*', '+', '?']
  const ANCHORS := ['^', '$']

  predicate IsQuant(c: char) { c == '*' || c == '+' || c == '?' }

  predicate IsAnchor(c: char) { c == '^' || c == '$' }

  // --- cost: one construct per leaf, anchor, quantifier, pair of parentheses and bar ---

  function AtomCost(a: Atom): nat {
    match a
    case Plain(_) => 1
    case Group(x) => 1 + AltCost(x)
  }

  function ElemCost(e: Elem): nat {
    match e
    case Anchor(_) => 1
    case Once(a) => AtomCost(a)
    case Repeat(a, _) => AtomCost(a) + 1
  }

  function ChainCost(c: Chain): nat {
    match c
    case End => 0
    case Link(e, r) => ElemCost(e) + ChainCost(r)
  }

  function AltCost(x: Alt): nat {
    match x
    case Only(b) => ChainCost(b)
    case Bar(b, r) => ChainCost(b) + 1 + AltCost(r)
  }

  // --- membership in the grammar, stated on the list of branches ---

  function Length(c: Chain): nat {
    match c
    case End => 0
    case Link(_, r) => 1 + Length(r)
  }

  function Branches(x: Alt): (bs: seq<Chain>)
    ensures |bs| >= 1
  {
    match x
    case Only(b) => [b]
    case Bar(b, r) => [b] + Branches(r)
  }

  /** Tier 1 has no empty branch; tier 2 has the lists whose last branch is non-empty, or is empty and
      directly preceded by a non-empty one. */
  ghost predicate EmptiesAllowed(emptyBranches: bool, bs: seq<Chain>)
    requires bs != []
  {
    var last := |bs| - 1;
    if emptyBranches then bs[last] != End || (last >= 1 && bs[last - 1] != End)
    else forall i :: 0 <= i <= last ==> bs[i] != End
  }

  ghost predicate AtomIn(g: Grammar, a: Atom)
    decreases a, 0
  {
    match a
    case Plain(Letter(c)) => c in g.alphabet
    case Plain(_) => true
    case Group(x) => AltIn(g, g.maxBranches, x)
  }

  ghost predicate ElemIn(g: Grammar, e: Elem)
    decreases e, 0
  {
    match e
    case Anchor(m) => IsAnchor(m)
    case Once(a) => AtomIn(g, a)
    case Repeat(a, q) => IsQuant(q) && AtomIn(g, a)
  }

  ghost predicate ChainIn(g: Grammar, c: Chain)
    decreases c, 0
  {
    match c
    case End => true
    case Link(e, r) => ElemIn(g, e) && ChainIn(g, r)
  }

  ghost predicate BranchesIn(g: Grammar, x: Alt)
    decreases x, 0
  {
    match x
    case Only(b) => Length(b) <= g.maxSeq && ChainIn(g, b)
    case Bar(b, r) => Length(b) <= g.maxSeq && ChainIn(g, b) && BranchesIn(g, r)
  }

  /** `x` is an alternation of the grammar with at most `cap` branches. */
  ghost predicate AltIn(g: Grammar, cap: Cap, x: Alt)
    decreases x, 1
  {
    BranchesIn(g, x) && |Branches(x)| <= cap && EmptiesAllowed(g.emptyBranches, Branches(x))
  }

  /** What adding a branch in front does to the empty-branch rule: the shape of the generator's yields. */
  lemma {:induction false} EmptiesStep(emptyBranches: bool, b: Chain, r: Alt)
    ensures EmptiesAllowed(emptyBranches, Branches(Bar(b, r))) <==>
            if emptyBranches then (b != End && r == Only(End)) || EmptiesAllowed(emptyBranches, Branches(r))
            else b != End && EmptiesAllowed(emptyBranches, Branches(r))
  {
    var bs, rs := Branches(Bar(b, r)), Branches(r);
    assert bs == [b] + rs;
    if emptyBranches {
      if r.Bar? {
        assert |rs| >= 2;
        assert bs[|bs| - 1] == rs[|rs| - 1] && bs[|bs| - 2] == rs[|rs| - 2];
      }
    } else {
      assert bs[0] == b && forall i :: 0 <= i < |rs| ==> rs[i] == bs[i + 1];
      assert forall i :: 1 <= i < |bs| ==> bs[i] == rs[i - 1];
    }
  }

  // --- text ---

  function LeafText(alphabet: string, l: Leaf): string {
    match l
    case Letter(c) => [c]
    case AnyChar => "."
    case InClass => "[" + alphabet + "]"
    case NotInClass => "[^" + alphabet + "]"
  }

  function AtomText(alphabet: string, a: Atom): string {
    match a
    case Plain(l) => LeafText(alphabet, l)
    case Group(x) => "(" + AltText(alphabet, x) + ")"
  }

  function ElemText(alphabet: string, e: Elem): string {
    match e
    case Anchor(m) => [m]
    case Once(a) => AtomText(alphabet, a)
    case Repeat(a, q) => AtomText(alphabet, a) + [q]
  }

  function ChainText(alphabet: string, c: Chain): string {
    match c
    case End => ""
    case Link(e, r) => ElemText(alphabet, e) + ChainText(alphabet, r)
  }

  function AltText(alphabet: string, x: Alt): string {
    match x
    case Only(b) => ChainText(alphabet, b)
    case Bar(b, r) => ChainText(alphabet, b) + "|" + AltText(alphabet, r)
  }
}
