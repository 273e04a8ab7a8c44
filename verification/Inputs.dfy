/** `enumerate_inputs` and `count_inputs` of python/sciforge/corpus/exhaustive.py. */
module Inputs {
  import opened Order

  /** `itertools.product(alphabet, repeat=length)`, each tuple joined. */
  function Product(alphabet: string, length: nat): seq<string> {
    if length == 0 then [""] else Extended(alphabet, Product(alphabet, length - 1))
  }

  /** Every text of `texts` followed by every letter. */
  function Extended(alphabet: string, texts: seq<string>): seq<string> {
    if texts == [] then [] else WithLetters(alphabet, texts[0]) + Extended(alphabet, texts[1..])
  }

  function WithLetters(alphabet: string, text: string): (r: seq<string>)
    ensures |r| == |alphabet| && forall i :: 0 <= i < |r| ==> r[i] == text + [alphabet[i]]
  {
    seq(|alphabet|, i requires 0 <= i < |alphabet| => text + [alphabet[i]])
  }

  ghost predicate Over(alphabet: string, text: string) {
    forall i :: 0 <= i < |text| ==> text[i] in alphabet
  }

  lemma {:induction false} ExtendedExact(alphabet: string, texts: seq<string>, t: string)
    ensures t in Extended(alphabet, texts) <==> t != "" && t[|t| - 1] in alphabet && t[..|t| - 1] in texts
    decreases |texts|
  {
    if texts != [] {
      ExtendedExact(alphabet, texts[1..], t);
      var w := WithLetters(alphabet, texts[0]);
      if t != "" {
        assert t == t[..|t| - 1] + [t[|t| - 1]];
        if t[|t| - 1] in alphabet && t[..|t| - 1] == texts[0] {
          var i :| 0 <= i < |alphabet| && alphabet[i] == t[|t| - 1];
          assert w[i] == t;
        }
        if t in w {
          var i :| 0 <= i < |w| && w[i] == t;
          assert t[..|t| - 1] == texts[0] && t[|t| - 1] == alphabet[i];
        }
      }
      assert forall i :: 0 <= i < |w| ==> |w[i]| == |texts[0]| + 1;
      assert texts == [texts[0]] + texts[1..];
    }
  }

  /** The product lists exactly the texts of that length over the alphabet. */
  lemma {:induction false} ProductExact(alphabet: string, length: nat, t: string)
    ensures t in Product(alphabet, length) <==> |t| == length && Over(alphabet, t)
    decreases length
  {
    if length > 0 {
      ExtendedExact(alphabet, Product(alphabet, length - 1), t);
      if t != "" {
        ProductExact(alphabet, length - 1, t[..|t| - 1]);
        assert Over(alphabet, t) <==> Over(alphabet, t[..|t| - 1]) && t[|t| - 1] in alphabet by {
          assert forall i :: 0 <= i < |t| - 1 ==> t[..|t| - 1][i] == t[i];
        }
      }
    }
  }

  lemma {:induction false} ExtendedDistinct(alphabet: string, texts: seq<string>)
    requires Distinct(alphabet) && Distinct(texts)
    ensures Distinct(Extended(alphabet, texts))
    ensures |Extended(alphabet, texts)| == |texts| * |alphabet|
    decreases |texts|
  {
    if texts != [] {
      var w, rest := WithLetters(alphabet, texts[0]), Extended(alphabet, texts[1..]);
      ExtendedDistinct(alphabet, texts[1..]);
      assert forall i :: 0 <= i < |w| ==> w[i][|texts[0]|] == alphabet[i];
      forall t | t in w ensures t !in rest {
        var i :| 0 <= i < |w| && w[i] == t;
        assert t[..|t| - 1] == texts[0];
        ExtendedExact(alphabet, texts[1..], t);
      }
      DistinctAppend(w, rest);
      assert |texts| * |alphabet| == |alphabet| + |texts[1..]| * |alphabet|;
    }
  }

  function Power(a: nat, n: nat): nat {
    if n == 0 then 1 else Power(a, n - 1) * a
  }

  lemma {:induction false} ProductDistinct(alphabet: string, length: nat)
    requires Distinct(alphabet)
    ensures Distinct(Product(alphabet, length)) && |Product(alphabet, length)| == Power(|alphabet|, length)
    decreases length
  {
    if length > 0 {
      ProductDistinct(alphabet, length - 1);
      ExtendedDistinct(alphabet, Product(alphabet, length - 1));
    }
  }

  // --- the inputs ---

  /** A text over the alphabet of at most `n` letters, possibly followed by `extra`. */
  ghost predicate IsInput(n: nat, alphabet: string, extra: string, t: string) {
    IsBase(n, alphabet, t) || (extra != "" && IsTagged(n, alphabet, extra, t))
  }

  ghost predicate IsBase(n: nat, alphabet: string, t: string) {
    |t| <= n && Over(alphabet, t)
  }

  ghost predicate IsTagged(n: nat, alphabet: string, extra: string, t: string) {
    |extra| <= |t| && t[|t| - |extra|..] == extra && IsBase(n, alphabet, t[..|t| - |extra|])
  }

  /** 1 + a + ... + a^n. */
  function Geometric(a: nat, n: nat): nat {
    if n == 0 then 1 else Geometric(a, n - 1) + Power(a, n)
  }

  /** `count_inputs`, with the division of its closed form. */
  function CountInputs(n: nat, alphabet: string, extra: string): int {
    var a := |alphabet|;
    var base := if a > 1 then (Power(a, n + 1) - 1) / (a - 1) else n + 1;
    if extra == "" then base else base * 2
  }

  lemma {:induction false} GeometricProduct(a: nat, n: nat)
    requires a >= 1
    ensures Geometric(a, n) * (a - 1) == Power(a, n + 1) - 1
    decreases n
  {
    if n > 0 {
      GeometricProduct(a, n - 1);
      assert (Geometric(a, n - 1) + Power(a, n)) * (a - 1) == Geometric(a, n - 1) * (a - 1) + Power(a, n) * (a - 1);
      assert Power(a, n) * (a - 1) == Power(a, n) * a - Power(a, n);
    } else {
      assert Power(a, 1) == Power(a, 0) * a == a;
    }
  }

  lemma {:induction false} GeometricOnes(n: nat)
    ensures Power(1, n) == 1 && Geometric(1, n) == n + 1
    decreases n
  {
    if n > 0 {
      GeometricOnes(n - 1);
    }
  }

  /** The closed form is the series, for every non-empty alphabet: the division is exact. */
  lemma {:induction false} ClosedForm(n: nat, alphabet: string, extra: string)
    requires alphabet != ""
    ensures CountInputs(n, alphabet, extra) == Geometric(|alphabet|, n) * (if extra == "" then 1 else 2)
  {
    var a := |alphabet|;
    if a > 1 {
      GeometricProduct(a, n);
      ExactQuotient(Geometric(a, n), a - 1);
    } else {
      GeometricOnes(n);
    }
  }

  lemma {:induction false} ExactQuotient(q: nat, d: nat)
    requires d > 0
    ensures (q * d) / d == q
  {
    var r := (q * d) / d;
    assert q * d == r * d + (q * d) % d;
    assert (q - r) * d == q * d - r * d;
    NoSmallMultiple(q - r, d);
  }

  lemma {:induction false} NoSmallMultiple(k: int, d: nat)
    requires d > 0
    ensures k >= 1 ==> k * d >= d
    ensures k <= -1 ==> k * d <= 0 - d
  {
    if k >= 1 {
      assert (k - 1) * d >= 0;
    } else if k <= -1 {
      assert (-1 - k) * d >= 0;
    }
  }

  function Tagged(texts: seq<string>, extra: string): (r: seq<string>)
    ensures |r| == |texts| && forall i :: 0 <= i < |r| ==> r[i] == texts[i] + extra
  {
    seq(|texts|, i requires 0 <= i < |texts| => texts[i] + extra)
  }

  /** The texts of length at most `n`, shortest first, as the first loop collects them. */
  function Bases(alphabet: string, n: nat): seq<string> {
    if n == 0 then [""] else Bases(alphabet, n - 1) + Product(alphabet, n)
  }

  lemma {:induction false} BasesExact(alphabet: string, n: nat, t: string)
    ensures t in Bases(alphabet, n) <==> IsBase(n, alphabet, t)
    decreases n
  {
    if n > 0 {
      BasesExact(alphabet, n - 1, t);
      ProductExact(alphabet, n, t);
    }
  }

  lemma {:induction false} NotLonger(alphabet: string, n: nat, t: string)
    requires n > 0 && t in Bases(alphabet, n - 1)
    ensures t !in Product(alphabet, n)
  {
    hide Bases, Product;
    BasesExact(alphabet, n - 1, t);
    ProductExact(alphabet, n, t);
  }

  lemma {:induction false} BasesDistinct(alphabet: string, n: nat)
    requires Distinct(alphabet)
    ensures Distinct(Bases(alphabet, n)) && |Bases(alphabet, n)| == Geometric(|alphabet|, n)
    decreases n
  {
    hide Product, IsBase, Power;
    if n > 0 {
      BasesDistinct(alphabet, n - 1);
      ProductDistinct(alphabet, n);
      forall t | t in Bases(alphabet, n - 1) ensures t !in Product(alphabet, n) {
        NotLonger(alphabet, n, t);
      }
      DistinctAppend(Bases(alphabet, n - 1), Product(alphabet, n));
    }
  }

  function Listed(n: nat, alphabet: string, extra: string): seq<string> {
    var base := Bases(alphabet, n);
    if extra == "" then base else base + Tagged(base, extra)
  }

  lemma {:induction false} ListedExact(n: nat, alphabet: string, extra: string, t: string)
    ensures t in Listed(n, alphabet, extra) <==> IsInput(n, alphabet, extra, t)
  {
    hide Bases, IsBase;
    var base := Bases(alphabet, n);
    BasesExact(alphabet, n, t);
    var tagged := Tagged(base, extra);
    if t in tagged {
      var i :| 0 <= i < |base| && tagged[i] == t;
      assert t[..|t| - |extra|] == base[i] && t[|t| - |extra|..] == extra;
      BasesExact(alphabet, n, base[i]);
    }
    if IsTagged(n, alphabet, extra, t) {
      var stem := t[..|t| - |extra|];
      BasesExact(alphabet, n, stem);
      var i :| 0 <= i < |base| && base[i] == stem;
      assert tagged[i] == stem + extra == t;
    }
  }

  /** Whether appending `extra` never gives a text listed before: it has a foreign letter or is too long. */
  predicate Foreign(n: nat, alphabet: string, extra: string) {
    extra == "" || |extra| > n || exists i :: 0 <= i < |extra| && extra[i] !in alphabet
  }

  lemma {:induction false} ForeignTag(n: nat, alphabet: string, stem: string, extra: string)
    requires extra != "" && Foreign(n, alphabet, extra)
    ensures !IsBase(n, alphabet, stem + extra)
  {
    if |extra| <= n {
      var k :| 0 <= k < |extra| && extra[k] !in alphabet;
      assert (stem + extra)[|stem| + k] == extra[k];
    }
  }

  lemma {:induction false} ListedDistinct(n: nat, alphabet: string, extra: string)
    requires Distinct(alphabet) && Foreign(n, alphabet, extra)
    ensures Distinct(Listed(n, alphabet, extra))
  {
    var base := Bases(alphabet, n);
    BasesDistinct(alphabet, n);
    if extra != "" {
      var tagged := Tagged(base, extra);
      forall i, j | 0 <= i < j < |tagged| ensures tagged[i] != tagged[j] {
        assert tagged[i][..|tagged[i]| - |extra|] == base[i] && tagged[j][..|tagged[j]| - |extra|] == base[j];
      }
      forall i | 0 <= i < |tagged| ensures tagged[i] !in base {
        ForeignTag(n, alphabet, base[i], extra);
        BasesExact(alphabet, n, tagged[i]);
      }
      DistinctAppend(base, tagged);
    }
  }

  /** Without a foreign letter and short enough, `extra` itself is listed twice, so the count is too large. */
  lemma {:induction false} NotForeignCollides(n: nat, alphabet: string, extra: string)
    requires !Foreign(n, alphabet, extra)
    ensures |Elements(Listed(n, alphabet, extra))| < |Listed(n, alphabet, extra)|
  {
    hide Bases;
    var base := Bases(alphabet, n);
    BasesExact(alphabet, n, extra);
    BasesExact(alphabet, n, "");
    var i :| 0 <= i < |base| && base[i] == "";
    var k :| 0 <= k < |base| && base[k] == extra;
    assert Tagged(base, extra)[i] == "" + extra == extra;
    RepeatedCount(Listed(n, alphabet, extra), k, |base| + i);
  }

  /** `enumerate_inputs`: strictly increasing by (length, text), exactly the inputs; and it has the length
      `count_inputs` promises if and only if `extra` cannot collide. */
  method EnumerateInputs(n: nat, alphabet: string, extra: string) returns (r: seq<string>)
    ensures Increasing(ShortLexLess, r)
    ensures forall t :: t in r <==> IsInput(n, alphabet, extra, t)
    ensures Distinct(alphabet) && alphabet != "" ==>
              (|r| == CountInputs(n, alphabet, extra) <==> Foreign(n, alphabet, extra))
  {
    hide ShortLexLess, IsInput, Foreign, CountInputs, Product, Geometric;
    var inputs := [""];
    for length := 1 to n + 1
      invariant inputs == Bases(alphabet, length - 1)
    {
      inputs := inputs + Product(alphabet, length);
    }
    if extra != "" {
      var base := inputs;
      for i := 0 to |base|
        invariant inputs == base + Tagged(base, extra)[..i]
      {
        inputs := inputs + [base[i] + extra];
      }
    }
    assert inputs == Listed(n, alphabet, extra);
    ShortLexIsStrictTotal();
    r := SortedSet(ShortLexLess, set t | t in inputs);
    assert Elements(r) == Elements(inputs);
    forall t ensures t in r <==> IsInput(n, alphabet, extra, t) {
      ListedExact(n, alphabet, extra, t);
      assert t in r <==> t in Elements(r);
    }
    if Distinct(alphabet) && alphabet != "" {
      CountDecided(n, alphabet, extra);
    }
  }

  /** The postcondition determines the list of inputs too. */
  lemma {:induction false} InputsDetermined(n: nat, alphabet: string, extra: string, a: seq<string>, b: seq<string>)
    requires Increasing(ShortLexLess, a) && forall t :: t in a <==> IsInput(n, alphabet, extra, t)
    requires Increasing(ShortLexLess, b) && forall t :: t in b <==> IsInput(n, alphabet, extra, t)
    ensures a == b
  {
    hide IsInput, ShortLexLess;
    ShortLexIsStrictTotal();
    assert Elements(a) == Elements(b);
    IncreasingUnique(ShortLexLess, a, b);
  }

  lemma {:induction false} CountDecided(n: nat, alphabet: string, extra: string)
    requires Distinct(alphabet) && alphabet != ""
    ensures |Elements(Listed(n, alphabet, extra))| == CountInputs(n, alphabet, extra) <==> Foreign(n, alphabet, extra)
  {
    hide Foreign, CountInputs, Geometric, Bases;
    BasesDistinct(alphabet, n);
    ClosedForm(n, alphabet, extra);
    assert |Listed(n, alphabet, extra)| == CountInputs(n, alphabet, extra);
    if Foreign(n, alphabet, extra) {
      ListedDistinct(n, alphabet, extra);
      DistinctCount(Listed(n, alphabet, extra));
    } else {
      NotForeignCollides(n, alphabet, extra);
    }
  }
}
