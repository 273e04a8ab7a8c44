/** What the enumeration contains, that it repeats nothing, and how large it is. */
module EnumeratorLaws {
  import opened Order
  import opened Patterns
  import opened PatternParser
  import opened Enumerator
  import opened TreeEnumerator

  // --- completeness and soundness: the trees enumerated are the trees of the grammar ---

  lemma {:induction false} AtomTreesExact(g: Grammar, budget: int, a: Atom)
    ensures a in AtomTrees(g, budget) <==> AtomIn(g, a) && AtomCost(a) <= budget
    decreases a, 0
  {
    if budget >= 1 {
      match a {
        case Plain(l) =>
          assert l in Leaves(g.alphabet) <==> AtomIn(g, a) by {
            if l.Letter? && l.c in g.alphabet {
              var i :| 0 <= i < |g.alphabet| && g.alphabet[i] == l.c;
              assert Leaves(g.alphabet)[i] == l;
            }
            if !l.Letter? {
              assert l in [AnyChar, InClass, NotInClass];
            }
          }
          assert l in Leaves(g.alphabet) <==> a in Plains(Leaves(g.alphabet));
        case Group(x) =>
          if budget >= 2 {
            AltTreesExact(g, budget - 1, g.maxBranches, x);
          }
          assert forall l :: l in Plains(Leaves(g.alphabet)) ==> l.Plain?;
          AltCostPositive(g, g.maxBranches, x);
      }
    } else {
      AtomCostPositive(g, a);
    }
  }

  lemma {:induction false} AtomCostPositive(g: Grammar, a: Atom)
    ensures AtomCost(a) >= 1
  {
  }

  lemma {:induction false} AltCostPositive(g: Grammar, cap: Cap, x: Alt)
    ensures AltIn(g, cap, x) ==> AltCost(x) >= 1
  {
    if AltIn(g, cap, x) && x.Only? {
      assert Branches(x)[0] == x.branch;
      assert x.branch.Link?;
      ElemCostPositive(x.branch.first);
    }
  }

  lemma {:induction false} ElemCostPositive(e: Elem)
    ensures ElemCost(e) >= 1
  {
  }

  lemma {:induction false} QuantTreesExact(atoms: seq<Atom>, budget: int, e: Elem)
    requires forall i :: 0 <= i < |atoms| ==> 1 <= AtomCost(atoms[i]) <= budget
    ensures e in QuantTrees(atoms, budget) <==>
            !e.Anchor? && e.atom in atoms && (e.Repeat? ==> IsQuant(e.quant)) && ElemCost(e) <= budget
    decreases |atoms|
  {
    if atoms != [] {
      QuantTreesExact(atoms[1..], budget, e);
      var a := atoms[0];
      assert atoms == [a] + atoms[1..];
      assert QUANTS[0] == '*' && QUANTS[1] == '+' && QUANTS[2] == '?';
      assert e in Repeats(a) <==> e.Repeat? && e.atom == a && IsQuant(e.quant) by {
        var m := Repeats(a);
        assert m == [m[0], m[1], m[2]];
      }
    }
  }

  lemma {:induction false} ElemTreesExact(g: Grammar, budget: int, e: Elem)
    ensures e in ElemTrees(g, budget) <==> ElemIn(g, e) && ElemCost(e) <= budget
    decreases e, 0
  {
    ElemCostPositive(e);
    if budget >= 1 {
      QuantTreesExact(AtomTrees(g, budget), budget, e);
      var m := Anchors();
      assert m == [m[0], m[1]];
      if !e.Anchor? {
        AtomTreesExact(g, budget, e.atom);
      }
    }
  }

  lemma {:induction false} ChainTreesFromExact(g: Grammar, es: seq<Elem>, budget: int, depth: Cap, c: Chain)
    requires forall i :: 0 <= i < |es| ==> 1 <= ElemCost(es[i]) <= budget
    ensures c in ChainTreesFrom(g, es, budget, depth) <==>
            c.Link? && c.first in es
            && (c.rest == End || (depth > 1 && c.rest in ChainTrees(g, budget - ElemCost(c.first), depth - 1)))
    decreases |es|
  {
    hide ChainTrees, ElemCost;
    if es != [] {
      ChainTreesFromExact(g, es[1..], budget, depth, c);
      assert es == [es[0]] + es[1..];
    }
  }

  lemma {:induction false} ChainTreesExact(g: Grammar, budget: int, depth: Cap, c: Chain)
    ensures c in ChainTrees(g, budget, depth) <==>
            c != End && ChainIn(g, c) && Length(c) <= depth && ChainCost(c) <= budget
    decreases c, 0
  {
    hide AtomTrees, ElemTrees, ChainTreesWith, ChainTreesFrom, ElemIn;
    ChainTreesFromExact(g, ElemTrees(g, budget), budget, depth, c);
    match c {
      case End =>
      case Link(e, r) =>
        ElemTreesExact(g, budget, e);
        if r == End {
          assert ChainIn(g, r) && Length(r) == 0 && ChainCost(r) == 0;
        } else if depth > 1 {
          ChainTreesExact(g, budget - ElemCost(e), depth - 1, r);
        } else {
          assert Length(r) >= 1;
        }
    }
  }

  lemma {:induction false} AltTreesFromExact(g: Grammar, cs: seq<Chain>, budget: int, branches: Cap, x: Alt)
    requires forall i :: 0 <= i < |cs| ==> 1 <= ChainCost(cs[i]) <= budget
    ensures x in AltTreesFrom(g, cs, budget, branches) <==>
            x.branch in cs
            && (x.Bar? ==> branches > 1 && ChainCost(x.branch) + 1 <= budget
                           && (x.others in AltTrees(g, budget - ChainCost(x.branch) - 1, branches - 1)
                               || (g.emptyBranches && x.others == Only(End))))
    decreases |cs|
  {
    hide AltTrees, ChainCost;
    if cs != [] {
      AltTreesFromExact(g, cs[1..], budget, branches, x);
      assert cs == [cs[0]] + cs[1..];
    }
  }

  lemma {:induction false} AltTreesSplit(g: Grammar, budget: int, branches: Cap, x: Alt)
    ensures x in AltTrees(g, budget, branches) <==>
            x in AltTreesFrom(g, ChainTrees(g, budget, g.maxSeq), budget, branches)
            || (g.emptyBranches && branches > 1 && budget >= 1 && x.Bar? && x.branch == End
                && x.others in AltTrees(g, budget - 1, branches - 1))
  {
  }

  lemma {:induction false} OnlyExact(g: Grammar, budget: int, branches: Cap, b: Chain)
    ensures Only(b) in AltTrees(g, budget, branches) <==> AltIn(g, branches, Only(b)) && AltCost(Only(b)) <= budget
    decreases b, 1
  {
    hide AltTreesFrom, ChainTrees, AltTrees, ElemIn;
    AltTreesSplit(g, budget, branches, Only(b));
    AltTreesFromExact(g, ChainTrees(g, budget, g.maxSeq), budget, branches, Only(b));
    ChainTreesExact(g, budget, g.maxSeq, b);
    var bs := Branches(Only(b));
    assert |bs| == 1 && bs[0] == b;
  }

  lemma {:induction false} BarIn(g: Grammar, branches: Cap, b: Chain, r: Alt)
    ensures AltIn(g, branches, Bar(b, r)) <==>
            Length(b) <= g.maxSeq && ChainIn(g, b) && branches > 1
            && if b == End then g.emptyBranches && AltIn(g, branches - 1, r)
               else AltIn(g, branches - 1, r) || (g.emptyBranches && r == Only(End))
  {
    EmptiesStep(g.emptyBranches, b, r);
    assert |Branches(Bar(b, r))| == 1 + |Branches(r)|;
    assert |Branches(Only(End))| == 1 && BranchesIn(g, Only(End));
  }

  /** Every alternation of the grammar within the budget is enumerated, and nothing else. */
  lemma {:induction false} AltTreesExact(g: Grammar, budget: int, branches: Cap, x: Alt)
    ensures x in AltTrees(g, budget, branches) <==> AltIn(g, branches, x) && AltCost(x) <= budget
    decreases x, 1
  {
    hide AltTreesFrom, ChainTrees, ElemIn, AltTrees, AltIn;
    match x {
      case Only(b) => OnlyExact(g, budget, branches, b);
      case Bar(b, r) =>
        AltTreesSplit(g, budget, branches, x);
        AltTreesFromExact(g, ChainTrees(g, budget, g.maxSeq), budget, branches, x);
        ChainTreesExact(g, budget, g.maxSeq, b);
        BarIn(g, branches, b, r);
        assert ChainCost(End) == 0 && AltCost(Only(End)) == 0;
        if branches > 1 {
          AltTreesExact(g, budget - ChainCost(b) - 1, branches - 1, r);
        }
    }
  }

  // --- the text generators yield the image of the tree generators, in the same order ---

  function AtomItem(alphabet: string): Atom -> Item {
    (a: Atom) => Item(AtomText(alphabet, a), AtomCost(a))
  }

  function ElemItem(alphabet: string): Elem -> Item {
    (e: Elem) => Item(ElemText(alphabet, e), ElemCost(e))
  }

  function ChainItem(alphabet: string): Chain -> Item {
    (c: Chain) => Item(ChainText(alphabet, c), ChainCost(c))
  }

  function AltItem(alphabet: string): Alt -> Item {
    (x: Alt) => Item(AltText(alphabet, x), AltCost(x))
  }

  lemma {:induction false} MapAppend<S, T>(f: S -> T, a: seq<S>, b: seq<S>)
    ensures Map(f, a + b) == Map(f, a) + Map(f, b)
  {
  }

  lemma {:induction false} AtomsRefine(g: Grammar, budget: int)
    ensures AtomItems(g, budget) == Map(AtomItem(g.alphabet), AtomTrees(g, budget))
    decreases Positive(budget), 0, 0
  {
    hide AltItems, AltTrees;
    if budget >= 1 {
      var f := AtomItem(g.alphabet);
      var leaves := Plains(Leaves(g.alphabet));
      assert LeafItems(g.alphabet) == Map(f, leaves);
      if budget >= 2 {
        AltsRefine(g, budget - 1, g.maxBranches);
        var xs := AltTrees(g, budget - 1, g.maxBranches);
        var groups := Groups(xs);
        assert Wrapped("(", ")", 1, Map(AltItem(g.alphabet), xs)) == Map(f, groups);
        MapAppend(f, leaves, groups);
      } else {
        assert leaves + [] == leaves && LeafItems(g.alphabet) + [] == LeafItems(g.alphabet);
      }
    }
  }

  lemma {:induction false} QuantsRefine(alphabet: string, atoms: seq<Atom>, budget: int)
    requires forall i :: 0 <= i < |atoms| ==> 1 <= AtomCost(atoms[i]) <= budget
    ensures WithQuants(Map(AtomItem(alphabet), atoms), budget) == Map(ElemItem(alphabet), QuantTrees(atoms, budget))
    decreases |atoms|
  {
    if atoms != [] {
      var items := Map(AtomItem(alphabet), atoms);
      QuantsRefine(alphabet, atoms[1..], budget);
      assert items[1..] == Map(AtomItem(alphabet), atoms[1..]);
      QuantsWithRefine(alphabet, atoms[0], budget);
      MapAppend(ElemItem(alphabet), QuantTreesWith(atoms[0], budget), QuantTrees(atoms[1..], budget));
    }
  }

  lemma {:induction false} QuantsWithRefine(alphabet: string, a: Atom, budget: int)
    requires 1 <= AtomCost(a) <= budget
    ensures QuantItems(AtomItem(alphabet)(a), budget) == Map(ElemItem(alphabet), QuantTreesWith(a, budget))
  {
    var f := ElemItem(alphabet);
    assert Map(f, [Once(a)]) == [AtomItem(alphabet)(a)];
    MapAppend(f, [Once(a)], Repeats(a));
  }

  lemma {:induction false} ElemsRefine(g: Grammar, budget: int)
    ensures ElementItems(g, budget) == Map(ElemItem(g.alphabet), ElemTrees(g, budget))
    decreases Positive(budget), 1, 0
  {
    if budget >= 1 {
      var f := ElemItem(g.alphabet);
      AtomsRefine(g, budget);
      QuantsRefine(g.alphabet, AtomTrees(g, budget), budget);
      var anchors := Anchors();
      MapAppend(f, anchors, QuantTrees(AtomTrees(g, budget), budget));
      assert Map(f, anchors) == [Item("^", 1), Item("$", 1)];
    }
  }

  lemma {:induction false} ChainsRefine(g: Grammar, budget: int, depth: Cap)
    ensures SeqItems(g, budget, depth) == Map(ChainItem(g.alphabet), ChainTrees(g, budget, depth))
    decreases Positive(budget), 3, 0
  {
    ElemsRefine(g, budget);
    ChainsFromRefine(g, ElemTrees(g, budget), budget, depth);
  }

  lemma {:induction false} ChainsFromRefine(g: Grammar, es: seq<Elem>, budget: int, depth: Cap)
    requires forall i :: 0 <= i < |es| ==> 1 <= ElemCost(es[i]) <= budget
    ensures SeqItemsFrom(g, Map(ElemItem(g.alphabet), es), budget, depth)
            == Map(ChainItem(g.alphabet), ChainTreesFrom(g, es, budget, depth))
    decreases Positive(budget), 2, |es|
  {
    hide SeqItems, SeqItemsWith, ChainTrees, ChainTreesWith, ChainText, ElemText;
    if es != [] {
      var f, items := ChainItem(g.alphabet), Map(ElemItem(g.alphabet), es);
      ChainsFromRefine(g, es[1..], budget, depth);
      assert items[1..] == Map(ElemItem(g.alphabet), es[1..]);
      MapAppend(f, ChainTreesWith(g, es[0], budget, depth), ChainTreesFrom(g, es[1..], budget, depth));
      ChainsWithRefine(g, es[0], budget, depth);
    }
  }

  lemma {:induction false} ChainsWithRefine(g: Grammar, e: Elem, budget: int, depth: Cap)
    requires 1 <= ElemCost(e) <= budget
    ensures SeqItemsWith(g, ElemItem(g.alphabet)(e), budget, depth)
            == Map(ChainItem(g.alphabet), ChainTreesWith(g, e, budget, depth))
    decreases Positive(budget), 1, 0
  {
    var f, item := ChainItem(g.alphabet), ElemItem(g.alphabet)(e);
    assert ChainText(g.alphabet, Link(e, End)) == ElemText(g.alphabet, e) + "" == ElemText(g.alphabet, e);
    assert ChainCost(Link(e, End)) == ElemCost(e) + ChainCost(End);
    assert Map(f, [Link(e, End)]) == [item];
    if depth > 1 {
      ChainsRefine(g, budget - ElemCost(e), depth - 1);
      var rests := ChainTrees(g, budget - ElemCost(e), depth - 1);
      MapAppend(f, [Link(e, End)], Linked(e, rests));
      LinksRefine(g, e, rests);
    } else {
      assert [Link(e, End)] + [] == [Link(e, End)] && [item] + [] == [item];
    }
  }

  lemma {:induction false} LinksRefine(g: Grammar, e: Elem, rests: seq<Chain>)
    ensures Map(ChainItem(g.alphabet), Linked(e, rests))
            == Wrapped(ElemText(g.alphabet, e), "", ElemCost(e), Map(ChainItem(g.alphabet), rests))
  {
    var f, text := ChainItem(g.alphabet), ElemText(g.alphabet, e);
    var w := Wrapped(text, "", ElemCost(e), Map(f, rests));
    forall i | 0 <= i < |rests| ensures w[i] == Map(f, Linked(e, rests))[i] {
      assert text + Map(f, rests)[i].text + "" == text + Map(f, rests)[i].text;
    }
  }

  lemma {:induction false} AltsRefine(g: Grammar, budget: int, branches: Cap)
    ensures AltItems(g, budget, branches) == Map(AltItem(g.alphabet), AltTrees(g, budget, branches))
    decreases Positive(budget), 5, 0
  {
    hide AltItemsFrom, AltTreesFrom, ChainTrees, SeqItems;
    var f, cs := AltItem(g.alphabet), ChainTrees(g, budget, g.maxSeq);
    ChainsRefine(g, budget, g.maxSeq);
    AltsFromRefine(g, cs, budget, branches);
    if g.emptyBranches && branches > 1 && budget >= 1 {
      AltsRefine(g, budget - 1, branches - 1);
      var xs := AltTrees(g, budget - 1, branches - 1);
      var barred := Barred(End, xs);
      MapAppend(f, AltTreesFrom(g, cs, budget, branches), barred);
      BarsRefine(g, End, xs);
      assert ChainText(g.alphabet, End) + "|" == "|" && ChainCost(End) + 1 == 1;
    } else {
      MapAppend(f, AltTreesFrom(g, cs, budget, branches), []);
    }
  }

  lemma {:induction false} BarsRefine(g: Grammar, c: Chain, xs: seq<Alt>)
    ensures Map(AltItem(g.alphabet), Barred(c, xs))
            == Wrapped(ChainText(g.alphabet, c) + "|", "", ChainCost(c) + 1, Map(AltItem(g.alphabet), xs))
  {
    var f, before := AltItem(g.alphabet), ChainText(g.alphabet, c) + "|";
    var w := Wrapped(before, "", ChainCost(c) + 1, Map(f, xs));
    forall i | 0 <= i < |xs| ensures w[i] == Map(f, Barred(c, xs))[i] {
      assert before + Map(f, xs)[i].text + "" == before + Map(f, xs)[i].text;
    }
  }

  lemma {:induction false} AltsFromRefine(g: Grammar, cs: seq<Chain>, budget: int, branches: Cap)
    requires forall i :: 0 <= i < |cs| ==> 1 <= ChainCost(cs[i]) <= budget
    ensures AltItemsFrom(g, Map(ChainItem(g.alphabet), cs), budget, branches)
            == Map(AltItem(g.alphabet), AltTreesFrom(g, cs, budget, branches))
    decreases Positive(budget), 4, |cs|
  {
    hide AltItems, AltItemsWith, AltTrees, AltTreesWith, AltText, ChainText, AltCost, ChainCost;
    if cs != [] {
      var f, c, items := AltItem(g.alphabet), cs[0], Map(ChainItem(g.alphabet), cs);
      AltsFromRefine(g, cs[1..], budget, branches);
      assert items[1..] == Map(ChainItem(g.alphabet), cs[1..]);
      MapAppend(f, AltTreesWith(g, c, budget, branches), AltTreesFrom(g, cs[1..], budget, branches));
      AltsWithRefine(g, c, budget, branches);
    }
  }

  /** The items of `c` alone and of `c` with an empty last branch. */
  lemma {:induction false} SingleItems(alphabet: string, c: Chain)
    ensures ChainItem(alphabet)(c) == Item(ChainText(alphabet, c), ChainCost(c))
    ensures AltItem(alphabet)(Only(c)) == ChainItem(alphabet)(c)
    ensures AltItem(alphabet)(Bar(c, Only(End))) == Item(ChainText(alphabet, c) + "|", ChainCost(c) + 1)
  {
    assert AltText(alphabet, Only(End)) == "" && AltCost(Only(End)) == 0;
    assert ChainText(alphabet, c) + "|" + "" == ChainText(alphabet, c) + "|";
  }

  lemma {:induction false} AltsWithRefine(g: Grammar, c: Chain, budget: int, branches: Cap)
    requires 1 <= ChainCost(c) <= budget
    ensures AltItemsWith(g, ChainItem(g.alphabet)(c), budget, branches)
            == Map(AltItem(g.alphabet), AltTreesWith(g, c, budget, branches))
    decreases Positive(budget), 3, 0
  {
    hide AltItems, AltTrees, Barred, AltItem, ChainItem;
    var f, s := AltItem(g.alphabet), ChainItem(g.alphabet)(c);
    SingleItems(g.alphabet, c);
    assert Map(f, [Only(c)]) == [s];
    if branches > 1 && ChainCost(c) + 1 <= budget {
      AltsRefine(g, budget - ChainCost(c) - 1, branches - 1);
      var xs := AltTrees(g, budget - ChainCost(c) - 1, branches - 1);
      var barred := Barred(c, xs);
      BarsRefine(g, c, xs);
      var last := if g.emptyBranches then [Bar(c, Only(End))] else [];
      assert Map(f, last) == if g.emptyBranches then [Item(s.text + "|", s.size + 1)] else [];
      MapAppend(f, barred, last);
      MapAppend(f, [Only(c)], barred + last);
    } else {
      assert [Only(c)] + [] == [Only(c)] && [s] + [] == [s];
    }
  }

  // --- nothing is enumerated twice ---

  lemma {:induction false} AtomTreesDistinct(g: Grammar, budget: int)
    requires Distinct(g.alphabet)
    ensures Distinct(AtomTrees(g, budget))
    decreases Positive(budget), 0, 0
  {
    if budget >= 1 {
      var leaves := Plains(Leaves(g.alphabet));
      assert Distinct(leaves);
      if budget >= 2 {
        AltTreesDistinct(g, budget - 1, g.maxBranches);
        DistinctAppend(leaves, Groups(AltTrees(g, budget - 1, g.maxBranches)));
      } else {
        assert leaves + [] == leaves;
      }
    }
  }

  lemma {:induction false} QuantTreesDistinct(atoms: seq<Atom>, budget: int)
    requires forall i :: 0 <= i < |atoms| ==> 1 <= AtomCost(atoms[i]) <= budget
    requires Distinct(atoms)
    ensures Distinct(QuantTrees(atoms, budget))
    decreases |atoms|
  {
    if atoms != [] {
      var a, tail := atoms[0], QuantTrees(atoms[1..], budget);
      QuantTreesDistinct(atoms[1..], budget);
      var own := QuantTreesWith(a, budget);
      assert QUANTS[0] == '*' && QUANTS[1] == '+' && QUANTS[2] == '?';
      assert Distinct(own);
      forall e | e in own ensures e !in tail {
        QuantTreesExact(atoms[1..], budget, e);
      }
      DistinctAppend(own, tail);
    }
  }

  lemma {:induction false} ElemTreesDistinct(g: Grammar, budget: int)
    requires Distinct(g.alphabet)
    ensures Distinct(ElemTrees(g, budget))
    decreases Positive(budget), 1, 0
  {
    if budget >= 1 {
      var anchors, others := Anchors(), QuantTrees(AtomTrees(g, budget), budget);
      AtomTreesDistinct(g, budget);
      QuantTreesDistinct(AtomTrees(g, budget), budget);
      assert anchors == [Anchor('^'), Anchor('$')];
      forall e | e in anchors ensures e !in others {
        QuantTreesExact(AtomTrees(g, budget), budget, e);
      }
      DistinctAppend(anchors, others);
    }
  }

  lemma {:induction false} ChainTreesDistinct(g: Grammar, budget: int, depth: Cap)
    requires Distinct(g.alphabet)
    ensures Distinct(ChainTrees(g, budget, depth))
    decreases Positive(budget), 3, 0
  {
    ElemTreesDistinct(g, budget);
    ChainTreesFromDistinct(g, ElemTrees(g, budget), budget, depth);
  }

  lemma {:induction false} ChainTreesFromDistinct(g: Grammar, es: seq<Elem>, budget: int, depth: Cap)
    requires Distinct(g.alphabet) && Distinct(es)
    requires forall i :: 0 <= i < |es| ==> 1 <= ElemCost(es[i]) <= budget
    ensures Distinct(ChainTreesFrom(g, es, budget, depth))
    decreases Positive(budget), 2, |es|
  {
    if es != [] {
      var e := es[0];
      var own, tail := ChainTreesWith(g, e, budget, depth), ChainTreesFrom(g, es[1..], budget, depth);
      ChainTreesFromDistinct(g, es[1..], budget, depth);
      if depth > 1 {
        ChainTreesDistinct(g, budget - ElemCost(e), depth - 1);
        var longer := Linked(e, ChainTrees(g, budget - ElemCost(e), depth - 1));
        assert forall c :: c in longer ==> c.Link? && ChainCost(c.rest) >= 1;
        DistinctAppend([Link(e, End)], longer);
      }
      forall c | c in own ensures c !in tail {
        ChainTreesFromExact(g, es[1..], budget, depth, c);
      }
      DistinctAppend(own, tail);
    }
  }

  lemma {:induction false} AltTreesDistinct(g: Grammar, budget: int, branches: Cap)
    requires Distinct(g.alphabet)
    ensures Distinct(AltTrees(g, budget, branches))
    decreases Positive(budget), 5, 0
  {
    hide AltTreesFrom, ChainTrees;
    var cs := ChainTrees(g, budget, g.maxSeq);
    var full := AltTreesFrom(g, cs, budget, branches);
    ChainTreesDistinct(g, budget, g.maxSeq);
    AltTreesFromDistinct(g, cs, budget, branches);
    if g.emptyBranches && branches > 1 && budget >= 1 {
      AltTreesDistinct(g, budget - 1, branches - 1);
      forall x | x in full ensures x.branch != End {
        AltTreesFromExact(g, cs, budget, branches, x);
        ChainTreesExact(g, budget, g.maxSeq, x.branch);
      }
      DistinctAppend(full, Barred(End, AltTrees(g, budget - 1, branches - 1)));
    } else {
      assert full + [] == full;
    }
  }

  lemma {:induction false} AltTreesFromDistinct(g: Grammar, cs: seq<Chain>, budget: int, branches: Cap)
    requires Distinct(g.alphabet) && Distinct(cs)
    requires forall i :: 0 <= i < |cs| ==> 1 <= ChainCost(cs[i]) <= budget
    ensures Distinct(AltTreesFrom(g, cs, budget, branches))
    decreases Positive(budget), 4, |cs|
  {
    if cs != [] {
      var c := cs[0];
      var own, tail := AltTreesWith(g, c, budget, branches), AltTreesFrom(g, cs[1..], budget, branches);
      AltTreesFromDistinct(g, cs[1..], budget, branches);
      AltTreesWithDistinct(g, c, budget, branches);
      forall x | x in own ensures x !in tail {
        AltTreesFromExact(g, cs[1..], budget, branches, x);
      }
      DistinctAppend(own, tail);
    }
  }

  lemma {:induction false} AltTreesWithDistinct(g: Grammar, c: Chain, budget: int, branches: Cap)
    requires Distinct(g.alphabet) && 1 <= ChainCost(c) <= budget
    ensures Distinct(AltTreesWith(g, c, budget, branches))
    ensures forall x :: x in AltTreesWith(g, c, budget, branches) ==> x.branch == c
    decreases Positive(budget), 3, 0
  {
    if branches > 1 && ChainCost(c) + 1 <= budget {
      var inner := AltTrees(g, budget - ChainCost(c) - 1, branches - 1);
      AltTreesDistinct(g, budget - ChainCost(c) - 1, branches - 1);
      var barred := Barred(c, inner);
      assert forall x :: x in barred ==> x.Bar? && x.branch == c && AltCost(x.others) >= 1;
      var last := if g.emptyBranches then [Bar(c, Only(End))] else [];
      assert AltCost(Only(End)) == 0;
      DistinctAppend(barred, last);
      DistinctAppend([Only(c)], barred + last);
    }
  }
}
