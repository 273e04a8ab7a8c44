/** How many patterns there are of each size, and `enumerate_patterns` itself. */
module PatternCount {
  import opened Order
  import opened Patterns
  import opened PatternParser
  import opened Enumerator
  import opened TreeEnumerator
  import opened EnumeratorLaws

  // --- the counting recurrence: trees of size exactly s ---

  function AtomsOf(g: Grammar, s: int): nat
    decreases Positive(s), 0, 0
  {
    if s < 1 then 0 else if s == 1 then |g.alphabet| + 3 else AltsOf(g, s - 1, g.maxBranches)
  }

  function ElemsOf(g: Grammar, s: int): nat
    decreases Positive(s), 1, 0
  {
    if s < 1 then 0 else (if s == 1 then 2 else 0) + AtomsOf(g, s) + 3 * AtomsOf(g, s - 1)
  }

  function ChainsOf(g: Grammar, s: int, depth: Cap): nat
    decreases Positive(s), 3, 0
  {
    if s < 1 then 0 else ElemsOf(g, s) + if depth > 1 then ChainSum(g, s, depth, 1) else 0
  }

  /** Chains of size `s` of two elements or more, by the size `i` of their first element. */
  function ChainSum(g: Grammar, s: int, depth: Cap, i: int): nat
    requires depth > 1 && i >= 1
    decreases Positive(s), 2, s - i
  {
    if i >= s then 0 else ElemsOf(g, i) * ChainsOf(g, s - i, depth - 1) + ChainSum(g, s, depth, i + 1)
  }

  function AltsOf(g: Grammar, s: int, branches: Cap): nat
    decreases Positive(s), 5, 0
  {
    if s < 1 then 0
    else ChainsOf(g, s, g.maxSeq)
         + if branches > 1
           then AltSum(g, s, branches, 1)
                + if g.emptyBranches then ChainsOf(g, s - 1, g.maxSeq) + AltsOf(g, s - 1, branches - 1) else 0
           else 0
  }

  /** Alternations of size `s` of two branches or more, by the size `i` of their non-empty first branch. */
  function AltSum(g: Grammar, s: int, branches: Cap, i: int): nat
    requires branches > 1 && i >= 1
    decreases Positive(s), 4, s - i
  {
    if i >= s - 1 then 0
    else ChainsOf(g, i, g.maxSeq) * AltsOf(g, s - 1 - i, branches - 1) + AltSum(g, s, branches, i + 1)
  }

  function PatternsUpTo(g: Grammar, k: int): nat
    decreases Positive(k)
  {
    if k < 1 then 0 else AltsOf(g, k, g.maxBranches) + PatternsUpTo(g, k - 1)
  }

  // --- tallies of a yielded list ---

  function Tally(items: seq<Item>, s: int): nat {
    if items == [] then 0 else (if items[0].size == s then 1 else 0) + Tally(items[1..], s)
  }

  function Weigh(items: seq<Item>, f: int -> nat): nat {
    if items == [] then 0 else f(items[0].size) + Weigh(items[1..], f)
  }

  function Convolve(items: seq<Item>, f: int -> nat, lo: int, hi: int): nat
    decreases hi - lo
  {
    if lo >= hi then 0 else Tally(items, lo) * f(lo) + Convolve(items, f, lo + 1, hi)
  }

  lemma {:induction false} TallyAppend(a: seq<Item>, b: seq<Item>, s: int)
    ensures Tally(a + b, s) == Tally(a, s) + Tally(b, s)
    decreases |a|
  {
    if a == [] {
      assert a + b == b;
    } else {
      TallyAppend(a[1..], b, s);
      assert (a + b)[1..] == a[1..] + b;
    }
  }

  lemma {:induction false} TallyWrapped(before: string, after: string, cost: nat, items: seq<Item>, s: int)
    ensures Tally(Wrapped(before, after, cost, items), s) == Tally(items, s - cost)
    decreases |items|
  {
    if items != [] {
      TallyWrapped(before, after, cost, items[1..], s);
      assert Wrapped(before, after, cost, items)[1..] == Wrapped(before, after, cost, items[1..]);
    }
  }

  lemma {:induction false} TallyOutside(items: seq<Item>, budget: int, s: int)
    requires Sized(items, budget) && (s < 1 || s > budget)
    ensures Tally(items, s) == 0
    decreases |items|
  {
    if items != [] {
      TallyOutside(items[1..], budget, s);
    }
  }

  lemma {:induction false} ConvolveStep(items: seq<Item>, f: int -> nat, lo: int, hi: int)
    requires items != []
    ensures Convolve(items, f, lo, hi) ==
            Convolve(items[1..], f, lo, hi) + if lo <= items[0].size < hi then f(items[0].size) else 0
    decreases hi - lo
  {
    if lo < hi {
      ConvolveStep(items, f, lo + 1, hi);
      var t, one := Tally(items[1..], lo), if items[0].size == lo then 1 else 0;
      assert (one + t) * f(lo) == one * f(lo) + t * f(lo);
    }
  }

  /** A sum over the items of a function of their size, regrouped by size. */
  lemma {:induction false} Regroup(items: seq<Item>, f: int -> nat, hi: int)
    requires forall i :: 0 <= i < |items| ==> items[i].size >= 1
    requires forall i :: i >= hi ==> f(i) == 0
    ensures Weigh(items, f) == Convolve(items, f, 1, hi)
    decreases |items|
  {
    if items == [] {
      ConvolveEmpty(f, 1, hi);
    } else {
      Regroup(items[1..], f, hi);
      ConvolveStep(items, f, 1, hi);
    }
  }

  lemma {:induction false} ConvolveEmpty(f: int -> nat, lo: int, hi: int)
    ensures Convolve([], f, lo, hi) == 0
    decreases hi - lo
  {
    if lo < hi {
      ConvolveEmpty(f, lo + 1, hi);
    }
  }

  // --- the lists have the tallies of the recurrence ---

  lemma {:induction false} LeavesCounted(alphabet: string, s: int)
    ensures Tally(LeafItems(alphabet), s) == if s == 1 then |alphabet| + 3 else 0
  {
    OnesCounted(LeafItems(alphabet), s);
  }

  lemma {:induction false} OnesCounted(items: seq<Item>, s: int)
    requires Sized(items, 1)
    ensures Tally(items, s) == if s == 1 then |items| else 0
    decreases |items|
  {
    if items != [] {
      OnesCounted(items[1..], s);
    }
  }

  lemma {:induction false} AtomsCounted(g: Grammar, budget: int, s: int)
    requires s <= budget
    ensures Tally(AtomItems(g, budget), s) == AtomsOf(g, s)
    decreases Positive(budget), 0, 0
  {
    hide AltItems, AltsOf;
    if budget >= 1 {
      LeavesCounted(g.alphabet, s);
      if budget >= 2 {
        var inner := AltItems(g, budget - 1, g.maxBranches);
        AltsCounted(g, budget - 1, g.maxBranches, s - 1);
        TallyWrapped("(", ")", 1, inner, s);
        TallyAppend(LeafItems(g.alphabet), Wrapped("(", ")", 1, inner), s);
        if s <= 1 {
          TallyOutside(inner, budget - 1, s - 1);
        }
      } else {
        assert LeafItems(g.alphabet) + [] == LeafItems(g.alphabet);
      }
    }
  }

  lemma {:induction false} QuantsCounted(atoms: seq<Item>, budget: int, s: int)
    requires Sized(atoms, budget) && s <= budget
    ensures Tally(WithQuants(atoms, budget), s) == Tally(atoms, s) + 3 * Tally(atoms, s - 1)
    decreases |atoms|
  {
    if atoms != [] {
      var a, own := atoms[0], QuantItems(atoms[0], budget);
      QuantsCounted(atoms[1..], budget, s);
      TallyAppend(own, WithQuants(atoms[1..], budget), s);
      if a.size + 1 <= budget {
        assert own[1..][1..] == own[2..] && own[2..][1..] == own[3..] && own[3..][1..] == [];
        assert Tally(own[3..], s) == if a.size == s - 1 then 1 else 0;
        assert Tally(own[2..], s) == if a.size == s - 1 then 2 else 0;
      } else {
        assert own == [a] && a.size == budget;
      }
    }
  }

  lemma {:induction false} ElemsCounted(g: Grammar, budget: int, s: int)
    requires s <= budget
    ensures Tally(ElementItems(g, budget), s) == ElemsOf(g, s)
    decreases Positive(budget), 1, 0
  {
    hide AtomItems, AtomsOf;
    if budget >= 1 {
      var anchors := [Item("^", 1), Item("$", 1)];
      AtomsCounted(g, budget, s);
      AtomsCounted(g, budget, s - 1);
      QuantsCounted(AtomItems(g, budget), budget, s);
      OnesCounted(anchors, s);
      TallyAppend(anchors, WithQuants(AtomItems(g, budget), budget), s);
      if s < 1 {
        TallyOutside(AtomItems(g, budget), budget, s);
        TallyOutside(AtomItems(g, budget), budget, s - 1);
      }
    }
  }

  lemma {:induction false} ChainsCounted(g: Grammar, budget: int, depth: Cap, s: int)
    requires s <= budget
    ensures Tally(SeqItems(g, budget, depth), s) == ChainsOf(g, s, depth)
    decreases Positive(budget), 3, 0
  {
    hide ElementItems, ElemsOf, SeqItemsFrom;
    var es := ElementItems(g, budget);
    if s < 1 {
      TallyOutside(SeqItems(g, budget, depth), budget, s);
    } else {
      ElemsCounted(g, budget, s);
      var f := (i: int) => if depth > 1 && i < s then ChainsOf(g, s - i, depth - 1) else 0;
      ChainsFromCounted(g, es, budget, depth, s, f);
      Regroup(es, f, s);
      if depth > 1 {
        ChainSumCounted(g, budget, depth, s, 1, f);
      } else {
        ConvolveZero(es, f, 1, s);
      }
    }
  }

  lemma {:induction false} ConvolveZero(items: seq<Item>, f: int -> nat, lo: int, hi: int)
    requires forall i :: f(i) == 0
    ensures Convolve(items, f, lo, hi) == 0
    decreases hi - lo
  {
    if lo < hi {
      ConvolveZero(items, f, lo + 1, hi);
    }
  }

  lemma {:induction false} ChainSumCounted(g: Grammar, budget: int, depth: Cap, s: int, i: int, f: int -> nat)
    requires depth > 1 && 1 <= i && s <= budget
    requires forall j :: 1 <= j < s ==> f(j) == ChainsOf(g, s - j, depth - 1)
    ensures Convolve(ElementItems(g, budget), f, i, s) == ChainSum(g, s, depth, i)
    decreases Positive(budget), 2, Positive(s - i)
  {
    hide ElementItems, ElemsOf, ChainsOf;
    if i < s {
      ElemsCounted(g, budget, i);
      ChainSumCounted(g, budget, depth, s, i + 1, f);
    }
  }

  lemma {:induction false} ChainsFromCounted(g: Grammar, es: seq<Item>, budget: int, depth: Cap, s: int, f: int -> nat)
    requires Sized(es, budget) && 1 <= s <= budget
    requires forall i :: f(i) == if depth > 1 && i < s then ChainsOf(g, s - i, depth - 1) else 0
    ensures Tally(SeqItemsFrom(g, es, budget, depth), s) == Tally(es, s) + Weigh(es, f)
    decreases Positive(budget), 2, |es|
  {
    hide SeqItems, SeqItemsWith, ChainsOf;
    if es != [] {
      ChainsFromCounted(g, es[1..], budget, depth, s, f);
      ChainsWithCounted(g, es[0], budget, depth, s, f);
      TallyAppend(SeqItemsWith(g, es[0], budget, depth), SeqItemsFrom(g, es[1..], budget, depth), s);
    }
  }

  lemma {:induction false} ChainsWithCounted(g: Grammar, e: Item, budget: int, depth: Cap, s: int, f: int -> nat)
    requires 1 <= e.size <= budget && 1 <= s <= budget
    requires forall i :: f(i) == if depth > 1 && i < s then ChainsOf(g, s - i, depth - 1) else 0
    ensures Tally(SeqItemsWith(g, e, budget, depth), s) == (if e.size == s then 1 else 0) + f(e.size)
    decreases Positive(budget), 1, 0
  {
    hide SeqItems, ChainsOf;
    assert Tally([e], s) == if e.size == s then 1 else 0;
    if depth > 1 {
      var tails := SeqItems(g, budget - e.size, depth - 1);
      TallyWrapped(e.text, "", e.size, tails, s);
      if e.size < s {
        ChainsCounted(g, budget - e.size, depth - 1, s - e.size);
      } else {
        TallyOutside(tails, budget - e.size, s - e.size);
      }
      TallyAppend([e], Wrapped(e.text, "", e.size, tails), s);
    } else {
      assert [e] + [] == [e];
    }
  }

  lemma {:induction false} Unfolded(g: Grammar, budget: int, branches: Cap, s: int)
    ensures AltItems(g, budget, branches)
            == AltItemsFrom(g, SeqItems(g, budget, g.maxSeq), budget, branches)
               + if g.emptyBranches && branches > 1 && budget >= 1
                 then Wrapped("|", "", 1, AltItems(g, budget - 1, branches - 1)) else []
    ensures s < 1 ==> AltsOf(g, s, branches) == 0
    ensures s >= 1 ==>
              AltsOf(g, s, branches)
              == ChainsOf(g, s, g.maxSeq)
                 + if branches > 1
                   then AltSum(g, s, branches, 1)
                        + if g.emptyBranches then ChainsOf(g, s - 1, g.maxSeq) + AltsOf(g, s - 1, branches - 1) else 0
                   else 0
  {
    hide AltItemsFrom, SeqItems, ChainsOf, AltSum;
  }

  lemma {:induction false} AltsCounted(g: Grammar, budget: int, branches: Cap, s: int)
    requires s <= budget
    ensures Tally(AltItems(g, budget, branches), s) == AltsOf(g, s, branches)
    decreases Positive(budget), 5, 0
  {
    hide AltItems, AltItemsFrom, SeqItems, ChainsOf, AltsOf, AltSum, Tally, Wrapped;
    Unfolded(g, budget, branches, s);
    if s < 1 {
      TallyOutside(AltItems(g, budget, branches), budget, s);
    } else {
      var full := AltItemsFrom(g, SeqItems(g, budget, g.maxSeq), budget, branches);
      NonEmptyFirstCounted(g, budget, branches, s);
      if g.emptyBranches && branches > 1 {
        var inner := AltItems(g, budget - 1, branches - 1);
        AltsCounted(g, budget - 1, branches - 1, s - 1);
        TallyWrapped("|", "", 1, inner, s);
        TallyAppend(full, Wrapped("|", "", 1, inner), s);
      } else {
        assert full + [] == full;
      }
    }
  }

  /** The alternations whose first branch is not empty. */
  lemma {:induction false} NonEmptyFirstCounted(g: Grammar, budget: int, branches: Cap, s: int)
    requires 1 <= s <= budget
    ensures Tally(AltItemsFrom(g, SeqItems(g, budget, g.maxSeq), budget, branches), s)
            == ChainsOf(g, s, g.maxSeq)
               + if branches > 1
                 then AltSum(g, s, branches, 1) + if g.emptyBranches then ChainsOf(g, s - 1, g.maxSeq) else 0
                 else 0
    decreases Positive(budget), 4, Positive(s)
  {
    hide AltItems, AltItemsFrom, SeqItems, ChainsOf, AltsOf, AltSum, Tally, Weigh, Convolve;
    var cs := SeqItems(g, budget, g.maxSeq);
    var f := (i: int) => if branches > 1 && i < s - 1 then AltsOf(g, s - 1 - i, branches - 1) else 0;
    ChainsCounted(g, budget, g.maxSeq, s);
    ChainsCounted(g, budget, g.maxSeq, s - 1);
    AltsFromCounted(g, cs, budget, branches, s, f);
    Regroup(cs, f, s - 1);
    if branches > 1 {
      AltSumCounted(g, budget, branches, s, 1, f);
    } else {
      ConvolveZero(cs, f, 1, s - 1);
    }
  }

  lemma {:induction false} AltSumCounted(g: Grammar, budget: int, branches: Cap, s: int, i: int, f: int -> nat)
    requires branches > 1 && 1 <= i && s <= budget
    requires forall j :: 1 <= j < s - 1 ==> f(j) == AltsOf(g, s - 1 - j, branches - 1)
    ensures Convolve(SeqItems(g, budget, g.maxSeq), f, i, s - 1) == AltSum(g, s, branches, i)
    decreases Positive(budget), 3, Positive(s - i)
  {
    hide SeqItems, ChainsOf, AltsOf;
    if i < s - 1 {
      ChainsCounted(g, budget, g.maxSeq, i);
      AltSumCounted(g, budget, branches, s, i + 1, f);
    }
  }

  lemma {:induction false} AltsFromCounted(g: Grammar, cs: seq<Item>, budget: int, branches: Cap, s: int, f: int -> nat)
    requires Sized(cs, budget) && 1 <= s <= budget
    requires forall i :: f(i) == if branches > 1 && i < s - 1 then AltsOf(g, s - 1 - i, branches - 1) else 0
    ensures Tally(AltItemsFrom(g, cs, budget, branches), s)
            == Tally(cs, s) + Weigh(cs, f) + if branches > 1 && g.emptyBranches then Tally(cs, s - 1) else 0
    decreases Positive(budget), 3, |cs| + 1
  {
    hide AltItems, AltItemsWith, AltsOf;
    if cs != [] {
      AltsFromCounted(g, cs[1..], budget, branches, s, f);
      AltsWithCounted(g, cs[0], budget, branches, s, f);
      TallyAppend(AltItemsWith(g, cs[0], budget, branches), AltItemsFrom(g, cs[1..], budget, branches), s);
    }
  }

  lemma {:induction false} AltsWithCounted(g: Grammar, c: Item, budget: int, branches: Cap, s: int, f: int -> nat)
    requires 1 <= c.size <= budget && 1 <= s <= budget
    requires forall i :: f(i) == if branches > 1 && i < s - 1 then AltsOf(g, s - 1 - i, branches - 1) else 0
    ensures Tally(AltItemsWith(g, c, budget, branches), s)
            == (if c.size == s then 1 else 0) + f(c.size)
               + if branches > 1 && g.emptyBranches && c.size == s - 1 then 1 else 0
    decreases Positive(budget), 3, 0
  {
    hide AltItems, AltsOf, Wrapped;
    assert Tally([c], s) == if c.size == s then 1 else 0;
    if branches > 1 && c.size + 1 <= budget {
      var barred := Wrapped(c.text + "|", "", c.size + 1, AltItems(g, budget - c.size - 1, branches - 1));
      BarredCounted(g, c, budget, branches, s);
      var last := if g.emptyBranches then [Item(c.text + "|", c.size + 1)] else [];
      assert Tally(last, s) == if g.emptyBranches && c.size == s - 1 then 1 else 0;
      TallyAppend(barred, last, s);
      TallyAppend([c], barred + last, s);
    } else {
      assert [c] + [] == [c];
    }
  }

  lemma {:induction false} BarredCounted(g: Grammar, c: Item, budget: int, branches: Cap, s: int)
    requires branches > 1 && 1 <= c.size < budget && 1 <= s <= budget
    ensures Tally(Wrapped(c.text + "|", "", c.size + 1, AltItems(g, budget - c.size - 1, branches - 1)), s)
            == if c.size < s - 1 then AltsOf(g, s - 1 - c.size, branches - 1) else 0
    decreases Positive(budget), 2, 0
  {
    hide AltItems, AltsOf;
    var inner := AltItems(g, budget - c.size - 1, branches - 1);
    TallyWrapped(c.text + "|", "", c.size + 1, inner, s);
    if c.size < s - 1 {
      AltsCounted(g, budget - c.size - 1, branches - 1, s - 1 - c.size);
    } else {
      TallyOutside(inner, budget - c.size - 1, s - 1 - c.size);
    }
  }

  // --- enumerate_patterns ---

  const MAX_BRANCHES: Cap := 3
  const MAX_SEQ: Cap := 4

  function SourceGrammar(alphabet: string, tier: int): Grammar {
    Grammar(alphabet, MAX_SEQ, MAX_BRANCHES, tier >= 2)
  }

  ghost predicate IsPattern(g: Grammar, k: int, text: string) {
    exists x :: AltIn(g, g.maxBranches, x) && AltCost(x) <= k && AltText(g.alphabet, x) == text
  }

  function Texts(items: seq<Item>): (r: seq<string>)
    ensures |r| == |items| && forall i :: 0 <= i < |items| ==> r[i] == items[i].text
  {
    seq(|items|, i requires 0 <= i < |items| => items[i].text)
  }

  /** The texts yielded are the patterns of the grammar within the budget. */
  lemma {:induction false} YieldsPatterns(g: Grammar, k: int, text: string)
    ensures text in Texts(AltItems(g, k, g.maxBranches)) <==> IsPattern(g, k, text)
  {
    hide AltItems, AltTrees, AltIn, AltText, AltCost;
    var items, trees := AltItems(g, k, g.maxBranches), AltTrees(g, k, g.maxBranches);
    AltsRefine(g, k, g.maxBranches);
    if text in Texts(items) {
      var i :| 0 <= i < |items| && items[i].text == text;
      assert trees[i] in trees;
      AltTreesExact(g, k, g.maxBranches, trees[i]);
    }
    if IsPattern(g, k, text) {
      var x :| AltIn(g, g.maxBranches, x) && AltCost(x) <= k && AltText(g.alphabet, x) == text;
      AltTreesExact(g, k, g.maxBranches, x);
      var i :| 0 <= i < |trees| && trees[i] == x;
      assert Texts(items)[i] == text;
    }
  }

  /** No text is yielded twice: the `seen` set of `enumerate_patterns` never drops anything. */
  lemma {:induction false} YieldsDistinct(g: Grammar, k: int)
    requires Plainness(g.alphabet) && Distinct(g.alphabet)
    ensures Distinct(Texts(AltItems(g, k, g.maxBranches)))
  {
    hide AltItems, AltTrees, AltText, AltCost, BranchesIn, Plainness;
    var texts, trees := Texts(AltItems(g, k, g.maxBranches)), AltTrees(g, k, g.maxBranches);
    AltsRefine(g, k, g.maxBranches);
    AltTreesDistinct(g, k, g.maxBranches);
    forall i, j | 0 <= i < j < |texts| ensures texts[i] != texts[j] {
      assert trees[i] in trees && trees[j] in trees;
      AltTreesExact(g, k, g.maxBranches, trees[i]);
      AltTreesExact(g, k, g.maxBranches, trees[j]);
      if texts[i] == texts[j] {
        Unambiguous(g, trees[i], trees[j]);
      }
    }
  }

  lemma {:induction false} SizedNonEmpty(items: seq<Item>, n: int)
    requires Sized(items, n)
    ensures items != [] ==> n >= 1
  {
    if items != [] {
      var size := items[0].size;
      assert 1 <= size <= n;
    }
  }

  lemma {:induction false} AllCounted(items: seq<Item>, g: Grammar, k: int, n: int)
    requires Sized(items, n) && n <= k
    requires forall s :: 1 <= s <= n ==> Tally(items, s) == AltsOf(g, s, g.maxBranches)
    ensures |items| == PatternsUpTo(g, n)
    decreases Positive(n)
  {
    hide AltsOf;
    if n < 1 {
      SizedNonEmpty(items, n);
    } else {
      var smaller := Below(items, n);
      BelowTallies(items, n);
      assert forall s :: 1 <= s <= n - 1 ==> Tally(smaller, s) == AltsOf(g, s, g.maxBranches);
      AllCounted(smaller, g, k, n - 1);
    }
  }

  function Below(items: seq<Item>, n: int): (r: seq<Item>) {
    if items == [] then [] else (if items[0].size < n then [items[0]] else []) + Below(items[1..], n)
  }

  lemma {:induction false} BelowTallies(items: seq<Item>, n: int)
    requires Sized(items, n)
    ensures Sized(Below(items, n), n - 1)
    ensures forall s :: s < n ==> Tally(Below(items, n), s) == Tally(items, s)
    ensures |items| == |Below(items, n)| + Tally(items, n)
    decreases |items|
  {
    if items != [] {
      BelowTallies(items[1..], n);
      var own := if items[0].size < n then [items[0]] else [];
      forall s | s < n ensures Tally(Below(items, n), s) == Tally(items, s) {
        TallyAppend(own, Below(items[1..], n), s);
      }
    }
  }

  /** `enumerate_patterns`: sorted, without repetition, exactly the patterns of the grammar, and as many as the
      recurrence says when no letter is repeated or is a metacharacter. */
  method EnumeratePatterns(g: Grammar, k: int) returns (r: seq<string>)
    ensures Increasing(LexLess, r)
    ensures forall text :: text in r <==> IsPattern(g, k, text)
    ensures Plainness(g.alphabet) && Distinct(g.alphabet) ==> |r| == PatternsUpTo(g, k)
  {
    hide AltItems, IsPattern, Plainness, PatternsUpTo, AltsOf, LexLess;
    var items := AltItems(g, k, g.maxBranches);
    ghost var texts := Texts(items);
    var seen: set<string> := {};
    for i := 0 to |items|
      invariant seen == Elements(texts[..i])
    {
      seen := seen + {items[i].text};
      assert texts[..i + 1] == texts[..i] + [texts[i]];
    }
    assert texts[..|items|] == texts;
    LexIsStrictTotal();
    r := SortedSet(LexLess, seen);
    forall text ensures text in r <==> IsPattern(g, k, text) {
      YieldsPatterns(g, k, text);
      assert text in r <==> text in Elements(r);
      assert text in texts <==> text in Elements(texts);
    }
    if Plainness(g.alphabet) && Distinct(g.alphabet) {
      YieldsDistinct(g, k);
      DistinctCount(texts);
      forall s | 1 <= s <= k ensures Tally(items, s) == AltsOf(g, s, g.maxBranches) {
        AltsCounted(g, k, g.maxBranches, s);
      }
      AllCounted(items, g, k, k);
    }
  }

  // --- inclusions ---

  lemma {:induction false} TierGrows(g: Grammar, x: Alt)
    requires BranchesIn(g, x)
    ensures BranchesIn(g.(emptyBranches := true), x)
    decreases x, 0
  {
    match x {
      case Only(b) => ChainTierGrows(g, b);
      case Bar(b, r) => ChainTierGrows(g, b); TierGrows(g, r);
    }
  }

  lemma {:induction false} ChainTierGrows(g: Grammar, c: Chain)
    requires ChainIn(g, c)
    ensures ChainIn(g.(emptyBranches := true), c)
    decreases c, 0
  {
    match c {
      case End =>
      case Link(e, r) =>
        ChainTierGrows(g, r);
        match e {
          case Anchor(_) =>
          case Once(a) => AtomTierGrows(g, a);
          case Repeat(a, _) => AtomTierGrows(g, a);
        }
    }
  }

  lemma {:induction false} AtomTierGrows(g: Grammar, a: Atom)
    requires AtomIn(g, a)
    ensures AtomIn(g.(emptyBranches := true), a)
    decreases a, 0
  {
    if a.Group? {
      AltTierGrows(g, g.maxBranches, a.inner);
    }
  }

  lemma {:induction false} AltTierGrows(g: Grammar, cap: Cap, x: Alt)
    requires AltIn(g, cap, x)
    ensures AltIn(g.(emptyBranches := true), cap, x)
    decreases x, 1
  {
    TierGrows(g, x);
  }

  /** The postcondition determines the list: two runs give the same patterns in the same order. */
  lemma {:induction false} PatternsDetermined(g: Grammar, k: int, a: seq<string>, b: seq<string>)
    requires Increasing(LexLess, a) && forall text :: text in a <==> IsPattern(g, k, text)
    requires Increasing(LexLess, b) && forall text :: text in b <==> IsPattern(g, k, text)
    ensures a == b
  {
    hide IsPattern, LexLess;
    LexIsStrictTotal();
    assert Elements(a) == Elements(b);
    IncreasingUnique(LexLess, a, b);
  }

  /** Tier 1 is included in tier 2, and a budget in every larger one. */
  lemma {:induction false} PatternsGrow(alphabet: string, k: int, k': int, tier: int, tier': int, text: string)
    requires k <= k' && tier <= tier' && IsPattern(SourceGrammar(alphabet, tier), k, text)
    ensures IsPattern(SourceGrammar(alphabet, tier'), k', text)
  {
    var g := SourceGrammar(alphabet, tier);
    var x :| AltIn(g, g.maxBranches, x) && AltCost(x) <= k && AltText(alphabet, x) == text;
    AltTierGrows(g, g.maxBranches, x);
  }

  /** The two counts the repository's tests pin are values of the recurrence. */
  lemma {:induction false} PinnedCounts()
    ensures PatternsUpTo(SourceGrammar("ab", 1), 2) == 78
    ensures PatternsUpTo(SourceGrammar("ab", 1), 3) == 870
  {
    var g := SourceGrammar("ab", 1);
    assert AtomsOf(g, 1) == 5 && ElemsOf(g, 1) == 7;
    assert forall d: Cap :: ChainsOf(g, 1, d) == 7;
    assert forall b: Cap :: AltsOf(g, 1, b) == 7;
    assert AtomsOf(g, 2) == 7 && ElemsOf(g, 2) == 22;
    assert forall d: Cap :: d > 1 ==> ChainSum(g, 2, d, 1) == 49 by {
      assert forall d: Cap :: d > 1 ==> ChainSum(g, 2, d, 2) == 0;
    }
    assert forall d: Cap :: ChainsOf(g, 2, d) == if d > 1 then 71 else 22;
    assert forall b: Cap :: AltsOf(g, 2, b) == 71;
    assert AtomsOf(g, 3) == 71 && ElemsOf(g, 3) == 92;
    assert ChainSum(g, 3, 4, 2) == 22 * 7 + ChainSum(g, 3, 4, 3);
    assert ChainSum(g, 3, 4, 1) == 7 * 71 + 154;
    assert ChainsOf(g, 3, 4) == 743;
    assert AltSum(g, 3, 3, 1) == 49 by { assert AltSum(g, 3, 3, 2) == 0; }
    assert AltsOf(g, 3, 3) == 792;
  }

  /** A pattern with every construct of tier 1, as it is written: it takes 15 constructs, and no budget below. */
  lemma {:induction false} EveryConstruct(k: int)
    ensures IsPattern(SourceGrammar("ab", 1), k, "(a|b)*[ab]|^.a?|[^ab]+$") <==> k >= 15
  {
    hide AltText, AltIn, AltCost, BranchesIn, Plainness;
    var g, x := SourceGrammar("ab", 1), Sample();
    SampleText();
    SampleIn();
    assert Plainness(g.alphabet) by { NoMeta(); }
    forall y | AltIn(g, g.maxBranches, y) && AltText("ab", y) == AltText("ab", x) ensures y == x {
      InBranches(g, x);
      InBranches(g, y);
      Unambiguous(g, x, y);
    }
  }

  lemma {:induction false} NoMeta()
    ensures Plainness("ab")
  {
  }

  lemma {:induction false} InBranches(g: Grammar, x: Alt)
    requires AltIn(g, g.maxBranches, x)
    ensures BranchesIn(g, x)
  {
  }

  lemma {:induction false} InnerText()
    ensures AltText("ab", Inner()) == "a|b"
  {
  }

  lemma {:induction false} FirstText()
    ensures ChainText("ab", Sample().branch) == "(a|b)*[ab]"
  {
    hide AltText;
    InnerText();
    assert AtomText("ab", Group(Inner())) == "(a|b)";
    assert ChainText("ab", Link(Once(Plain(InClass)), End)) == "[ab]";
  }

  lemma {:induction false} ThirdText()
    ensures AltText("ab", Sample().others.others) == "[^ab]+$"
  {
    assert AtomText("ab", Plain(NotInClass)) == "[^ab]";
    assert ChainText("ab", Link(Anchor('$'), End)) == "$";
  }

  lemma {:induction false} SampleText()
    ensures AltText("ab", Sample()) == "(a|b)*[ab]|^.a?|[^ab]+$"
  {
    hide AltText, ChainText;
    FirstText();
    ThirdText();
    SecondText();
    AltTextBar("ab", Sample());
    AltTextBar("ab", Sample().others);
  }

  lemma {:induction false} SecondText()
    ensures ChainText("ab", Sample().others.branch) == "^.a?"
  {
  }

  lemma {:induction false} AltTextBar(alphabet: string, x: Alt)
    requires x.Bar?
    ensures AltText(alphabet, x) == ChainText(alphabet, x.branch) + "|" + AltText(alphabet, x.others)
  {
  }

  lemma {:induction false} SampleIn()
    ensures AltIn(SourceGrammar("ab", 1), MAX_BRANCHES, Sample()) && AltCost(Sample()) == 15
  {
    var g, x := SourceGrammar("ab", 1), Sample();
    assert AltCost(Inner()) == 3 && AltIn(g, MAX_BRANCHES, Inner());
    assert ChainCost(x.branch) == 6 && ChainIn(g, x.branch);
    assert ChainCost(x.others.branch) == 4 && ChainIn(g, x.others.branch);
    assert AltCost(x.others.others) == 3 && BranchesIn(g, x.others.others);
    assert Branches(x) == [x.branch, x.others.branch, x.others.others.branch];
  }

  function Inner(): Alt {
    Bar(Link(Once(Plain(Letter('a'))), End), Only(Link(Once(Plain(Letter('b'))), End)))
  }

  function Sample(): Alt {
    Bar(Link(Repeat(Group(Inner()), '*'), Link(Once(Plain(InClass)), End)),
        Bar(Link(Anchor('^'), Link(Once(Plain(AnyChar)), Link(Repeat(Plain(Letter('a')), '?'), End))),
            Only(Link(Repeat(Plain(NotInClass), '+'), Link(Anchor('$'), End)))))
  }
}
