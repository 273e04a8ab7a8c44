/** Strict orders, and what Python's `sorted(set)` guarantees of one: every element once, in increasing order, and so
    the same list on every run. Python's order on strings, and its order by (length, string), are strict and total.
    Also here: lists without repetition, which have as many elements as positions, and lists with one, which have
    fewer; the enumerators are counted through them. They are used by several modules and belong to none. */
module Order {

  ghost predicate StrictTotal<T(!new)>(less: (T, T) -> bool) {
    && (forall x :: !less(x, x))
    && (forall x, y, z :: less(x, y) && less(y, z) ==> less(x, z))
    && (forall x, y :: x == y || less(x, y) || less(y, x))
  }

  ghost predicate Increasing<T>(less: (T, T) -> bool, s: seq<T>) {
    forall i, j :: 0 <= i < j < |s| ==> less(s[i], s[j])
  }

  ghost predicate Distinct<T>(s: seq<T>) {
    forall i, j :: 0 <= i < j < |s| ==> s[i] != s[j]
  }

  ghost function Elements<T>(s: seq<T>): set<T> {
    set x | x in s
  }

  lemma {:induction false} Least<T(!new)>(less: (T, T) -> bool, items: set<T>) returns (least: T)
    requires StrictTotal(less) && items != {}
    ensures least in items && forall y | y in items :: y == least || less(least, y)
    decreases items
  {
    var p :| p in items;
    if items == {p} {
      least := p;
    } else {
      var m := Least(less, items - {p});
      least := if less(p, m) then p else m;
      forall y | y in items ensures y == least || less(least, y) {
        if y != p {
          assert y in items - {p};
          assert y == m || less(m, y);
        }
      }
    }
  }

  lemma {:induction false} NothingIncreases<T>(less: (T, T) -> bool)
    ensures Increasing(less, []) && Elements<T>([]) == {}
  {
  }

  lemma {:induction false} Append<T>(less: (T, T) -> bool, r: seq<T>, x: T)
    requires Increasing(less, r) && forall y :: y in Elements(r) ==> less(y, x)
    ensures Increasing(less, r + [x]) && Elements(r + [x]) == Elements(r) + {x}
  {
    assert forall i :: 0 <= i < |r| ==> r[i] in Elements(r);
  }

  /** `sorted(items)`: one least element after the other. */
  method SortedSet<T(==, !new)>(less: (T, T) -> bool, items: set<T>) returns (r: seq<T>)
    requires StrictTotal(less)
    ensures Increasing(less, r)
    ensures Elements(r) == items && |r| == |items|
  {
    hide StrictTotal, Increasing;
    r := [];
    var rest := items;
    NothingIncreases(less);
    while rest != {}
      invariant Increasing(less, r)
      invariant Elements(r) !! rest && Elements(r) + rest == items
      invariant forall x, y :: x in Elements(r) && y in rest ==> less(x, y)
      invariant |r| + |rest| == |items|
      decreases |rest|
    {
      ghost var least := Least(less, rest);
      var x :| x in rest && forall y | y in rest :: y == x || less(x, y);
      Append(less, r, x);
      r, rest := r + [x], rest - {x};
    }
  }

  /** A set has one increasing listing, so a sorted result does not depend on the run. */
  lemma {:induction false} IncreasingUnique<T(!new)>(less: (T, T) -> bool, a: seq<T>, b: seq<T>)
    requires StrictTotal(less)
    requires Increasing(less, a) && Increasing(less, b) && Elements(a) == Elements(b)
    ensures a == b
    decreases |a|
  {
    if a == [] {
      assert forall i :: 0 <= i < |b| ==> b[i] in Elements(b);
    } else {
      assert a[0] in Elements(b);
      var j :| 0 <= j < |b| && b[j] == a[0];
      assert b[0] in Elements(a);
      var i :| 0 <= i < |a| && a[i] == b[0];
      assert i == 0 && j == 0;
      TailElements(less, a);
      TailElements(less, b);
      IncreasingUnique(less, a[1..], b[1..]);
    }
  }

  lemma {:induction false} TailElements<T(!new)>(less: (T, T) -> bool, a: seq<T>)
    requires StrictTotal(less) && Increasing(less, a) && a != []
    ensures Increasing(less, a[1..]) && Elements(a[1..]) == Elements(a) - {a[0]}
  {
    forall x | x in Elements(a) - {a[0]}
      ensures x in Elements(a[1..])
    {
      var i :| 0 <= i < |a| && a[i] == x;
      assert a[1..][i - 1] == x;
    }
    assert forall k :: 0 <= k < |a[1..]| ==> a[1..][k] == a[k + 1];
  }

  lemma {:induction false} DistinctCount<T>(s: seq<T>)
    requires Distinct(s)
    ensures |Elements(s)| == |s|
    decreases |s|
  {
    if s != [] {
      var last := |s| - 1;
      DistinctCount(s[..last]);
      assert s == s[..last] + [s[last]];
      assert Elements(s) == Elements(s[..last]) + {s[last]};
    }
  }

  lemma {:induction false} ElementsBound<T>(s: seq<T>)
    ensures |Elements(s)| <= |s|
    decreases |s|
  {
    if s != [] {
      var last := |s| - 1;
      ElementsBound(s[..last]);
      assert s == s[..last] + [s[last]];
      assert Elements(s) == Elements(s[..last]) + {s[last]};
    }
  }

  lemma {:induction false} RepeatedCount<T>(s: seq<T>, i: nat, j: nat)
    requires i < j < |s| && s[i] == s[j]
    ensures |Elements(s)| < |s|
  {
    var without := s[..j] + s[j + 1..];
    forall x | x in s ensures x in without {
      var k :| 0 <= k < |s| && s[k] == x;
      assert x == without[if k < j then k else if k == j then i else k - 1];
    }
    assert Elements(s) == Elements(without);
    ElementsBound(without);
  }

  lemma {:induction false} DistinctAppend<T>(a: seq<T>, b: seq<T>)
    requires Distinct(a) && Distinct(b)
    requires forall x :: x in a ==> x !in b
    ensures Distinct(a + b)
  {
    forall i, j | 0 <= i < j < |a + b|
      ensures (a + b)[i] != (a + b)[j]
    {
      if i < |a| <= j {
        assert a[i] in a && b[j - |a|] in b;
      }
    }
  }

  /** Python's order on `str`: by code point, a prefix first. */
  predicate LexLess(a: string, b: string) {
    b != "" && (a == "" || a[0] < b[0] || (a[0] == b[0] && LexLess(a[1..], b[1..])))
  }

  /** The order of the key `(len(s), s)`. */
  predicate ShortLexLess(a: string, b: string) {
    |a| < |b| || (|a| == |b| && LexLess(a, b))
  }

  lemma {:induction false} LexTransitive(a: string, b: string, c: string)
    requires LexLess(a, b) && LexLess(b, c)
    ensures LexLess(a, c)
    decreases |a|
  {
    if a != "" && a[0] == b[0] == c[0] {
      LexTransitive(a[1..], b[1..], c[1..]);
    }
  }

  lemma {:induction false} LexTotal(a: string, b: string)
    ensures !LexLess(a, a)
    ensures a == b || LexLess(a, b) || LexLess(b, a)
    decreases |a|
  {
    if a != "" {
      if b != "" {
        LexTotal(a[1..], b[1..]);
        assert a == [a[0]] + a[1..] && b == [b[0]] + b[1..];
      } else {
        LexTotal(a[1..], b);
      }
    }
  }

  lemma {:induction false} LexIsStrictTotal()
    ensures StrictTotal(LexLess)
  {
    forall a, b ensures !LexLess(a, a) && (a == b || LexLess(a, b) || LexLess(b, a)) { LexTotal(a, b); }
    forall a, b, c | LexLess(a, b) && LexLess(b, c) ensures LexLess(a, c) { LexTransitive(a, b, c); }
  }

  lemma {:induction false} ShortLexIsStrictTotal()
    ensures StrictTotal(ShortLexLess)
  {
    forall a, b ensures !ShortLexLess(a, a) && (a == b || ShortLexLess(a, b) || ShortLexLess(b, a)) { LexTotal(a, b); }
    forall a, b, c | ShortLexLess(a, b) && ShortLexLess(b, c) ensures ShortLexLess(a, c) {
      if LexLess(a, b) && LexLess(b, c) { LexTransitive(a, b, c); }
    }
  }
}
