/** Medians, quartiles and bootstrap intervals: python/sciforge/bench/stats.py, over the real numbers. The order of the
    summary and the enclosure of the intervals rest on one fact each: a median lies within the bounds of its list, and
    the percentile indices are in order exactly when the level asks for enough values. */
module Stats {

  datatype Error = ValueError | StatisticsError | IndexError | ZeroDivisionError

  datatype Result<T> = Ok(value: T) | Err(error: Error)

  // --- sorting ---

  ghost predicate Sorted(s: seq<real>) {
    forall i, j :: 0 <= i <= j < |s| ==> s[i] <= s[j]
  }

  function Inserted(s: seq<real>, x: real): (r: seq<real>)
    ensures |r| == |s| + 1
  {
    if s == [] || x <= s[0] then [x] + s else [s[0]] + Inserted(s[1..], x)
  }

  /** `sorted`. */
  function SortedOf(s: seq<real>): (r: seq<real>)
    ensures |r| == |s|
  {
    if s == [] then [] else Inserted(SortedOf(s[1..]), s[0])
  }

  lemma {:induction false} InsertedIs(s: seq<real>, x: real)
    requires Sorted(s)
    ensures Sorted(Inserted(s, x)) && multiset(Inserted(s, x)) == multiset(s) + multiset{x}
    decreases |s|
  {
    if s != [] {
      assert s == [s[0]] + s[1..];
      assert Sorted(s[1..]);
      if x > s[0] {
        InsertedIs(s[1..], x);
        var rest := Inserted(s[1..], x);
        forall i | 0 <= i < |rest| ensures s[0] <= rest[i] {
          assert rest[i] in multiset(rest);
          assert rest[i] == x || rest[i] in multiset(s[1..]);
        }
      }
    }
  }

  lemma {:induction false} SortedOfIs(s: seq<real>)
    ensures Sorted(SortedOf(s)) && multiset(SortedOf(s)) == multiset(s)
    decreases |s|
  {
    if s != [] {
      SortedOfIs(s[1..]);
      InsertedIs(SortedOf(s[1..]), s[0]);
      assert s == [s[0]] + s[1..];
    }
  }

  ghost predicate Within(s: seq<real>, low: real, high: real) {
    forall i :: 0 <= i < |s| ==> low <= s[i] <= high
  }

  lemma {:induction false} SortedWithin(s: seq<real>, low: real, high: real)
    requires Within(s, low, high)
    ensures Within(SortedOf(s), low, high)
  {
    SortedOfIs(s);
    var r := SortedOf(s);
    forall i | 0 <= i < |r| ensures low <= r[i] <= high {
      assert r[i] in multiset(s);
    }
  }

  // --- medians and quartiles ---

  /** The median of a sorted, non-empty list. */
  function Middle(s: seq<real>): real
    requires s != []
  {
    var n := |s|;
    if n % 2 == 1 then s[n / 2] else (s[n / 2 - 1] + s[n / 2]) / 2.0
  }

  /** `statistics.median`. */
  function Median(s: seq<real>): real
    requires s != []
  {
    Middle(SortedOf(s))
  }

  lemma {:induction false} MiddleWithin(s: seq<real>, low: real, high: real)
    requires s != [] && Within(s, low, high)
    ensures low <= Middle(s) <= high
  {
  }

  lemma {:induction false} MedianWithin(s: seq<real>, low: real, high: real)
    requires s != [] && Within(s, low, high)
    ensures low <= Median(s) <= high
  {
    SortedWithin(s, low, high);
    MiddleWithin(SortedOf(s), low, high);
  }

  /** `_quartiles`: the medians of the two halves, the middle value left out of both. */
  function Quartiles(s: seq<real>): (real, real)
    requires s != []
  {
    if |s| == 1 then (s[0], s[0])
    else
      var half := |s| / 2;
      (Median(s[..half]), Median(s[half + |s| % 2..]))
  }

  datatype Summary = Summary(median: real, q1: real, q3: real, iqr: real, minimum: real)

  /** `median_iqr`. */
  function MedianIqr(samples: seq<real>): Result<Summary> {
    if samples == [] then Err(StatisticsError)
    else
      var s := SortedOf(samples);
      var (q1, q3) := Quartiles(s);
      Ok(Summary(Median(s), q1, q3, q3 - q1, s[0]))
  }

  lemma {:induction false} SortedTwice(s: seq<real>)
    requires Sorted(s)
    ensures SortedOf(s) == s
    decreases |s|
  {
    if s != [] {
      assert Sorted(s[1..]);
      SortedTwice(s[1..]);
      if |s| > 1 {
        assert s[0] <= s[1];
      }
    }
  }

  ghost predicate IsMin(samples: seq<real>, m: real) {
    m in samples && forall x :: x in samples ==> m <= x
  }

  ghost predicate IsMax(samples: seq<real>, m: real) {
    m in samples && forall x :: x in samples ==> x <= m
  }

  lemma {:induction false} SortedEnds(samples: seq<real>)
    requires samples != []
    ensures IsMin(samples, SortedOf(samples)[0]) && IsMax(samples, SortedOf(samples)[|samples| - 1])
  {
    SortedOfIs(samples);
    var s := SortedOf(samples);
    assert s[0] in multiset(s) && s[|s| - 1] in multiset(s);
    forall x | x in samples ensures s[0] <= x <= s[|s| - 1] {
      assert x in multiset(samples);
      assert x in s;
    }
  }

  lemma {:induction false} QuartilesOrdered(s: seq<real>)
    requires s != [] && Sorted(s)
    ensures s[0] <= Quartiles(s).0 <= Middle(s) <= Quartiles(s).1 <= s[|s| - 1]
  {
    if |s| > 1 {
      var half := |s| / 2;
      var lower, upper := s[..half], s[half + |s| % 2..];
      MedianWithin(lower, s[0], s[half - 1]);
      MedianWithin(upper, s[half + |s| % 2], s[|s| - 1]);
    }
  }

  /** For any samples: minimum, first quartile, median, third quartile and maximum stand in this order. */
  lemma {:induction false} SummaryOrdered(samples: seq<real>, maximum: real)
    requires samples != [] && IsMax(samples, maximum)
    ensures var r := MedianIqr(samples);
            && r.Ok? && IsMin(samples, r.value.minimum)
            && r.value.minimum <= r.value.q1 <= r.value.median <= r.value.q3 <= maximum
            && r.value.iqr == r.value.q3 - r.value.q1 >= 0.0 && r.value.median == Median(samples)
  {
    var s := SortedOf(samples);
    SortedOfIs(samples);
    SortedEnds(samples);
    SortedTwice(s);
    QuartilesOrdered(s);
  }

  lemma {:induction false} SameSize(a: seq<real>, b: seq<real>)
    requires multiset(a) == multiset(b)
    ensures |a| == |b|
  {
    assert |multiset(a)| == |a| && |multiset(b)| == |b|;
  }

  lemma {:induction false} SameLeast(a: seq<real>, b: seq<real>)
    requires a != [] && b != [] && Sorted(a) && Sorted(b) && multiset(a) == multiset(b)
    ensures a[0] == b[0]
  {
    assert a[0] in multiset(b) && b[0] in multiset(a);
  }

  lemma {:induction false} RestOf(a: seq<real>)
    requires a != []
    ensures multiset(a[1..]) == multiset(a) - multiset{a[0]}
  {
    assert a == [a[0]] + a[1..];
  }

  lemma {:induction false} SortedUnique(a: seq<real>, b: seq<real>)
    requires Sorted(a) && Sorted(b) && multiset(a) == multiset(b)
    ensures a == b
    decreases |a|
  {
    SameSize(a, b);
    if a != [] {
      SameLeast(a, b);
      RestOf(a);
      RestOf(b);
      SortedUnique(a[1..], b[1..]);
      assert a == [a[0]] + a[1..] && b == [b[0]] + b[1..];
    }
  }

  /** The summary does not depend on the order in which the samples were taken. */
  lemma {:induction false} SummaryOfMultiset(a: seq<real>, b: seq<real>)
    requires multiset(a) == multiset(b)
    ensures MedianIqr(a) == MedianIqr(b)
  {
    hide Median, Quartiles, SortedOf, Sorted;
    SameSize(a, b);
    SortedOfIs(a);
    SortedOfIs(b);
    SortedUnique(SortedOf(a), SortedOf(b));
  }

  // --- the summary by rank ---

  function Below(s: seq<real>, x: real): nat {
    if s == [] then 0 else (if s[0] < x then 1 else 0) + Below(s[1..], x)
  }

  function AtMost(s: seq<real>, x: real): nat {
    if s == [] then 0 else (if s[0] <= x then 1 else 0) + AtMost(s[1..], x)
  }

  /** `x` is the value of rank `k`, counted from 0: at most `k` samples are below it, and more than `k` at most it. */
  ghost predicate IsRank(s: seq<real>, k: nat, x: real) {
    Below(s, x) <= k < AtMost(s, x)
  }

  lemma {:induction false} InsertedCounts(s: seq<real>, x: real, y: real)
    ensures Below(Inserted(s, x), y) == Below(s, y) + (if x < y then 1 else 0)
    ensures AtMost(Inserted(s, x), y) == AtMost(s, y) + (if x <= y then 1 else 0)
    decreases |s|
  {
    if s != [] && x > s[0] {
      InsertedCounts(s[1..], x, y);
    } else {
      assert ([x] + s)[1..] == s;
    }
  }

  lemma {:induction false} SortedCounts(s: seq<real>, y: real)
    ensures Below(SortedOf(s), y) == Below(s, y) && AtMost(SortedOf(s), y) == AtMost(s, y)
    decreases |s|
  {
    if s != [] {
      SortedCounts(s[1..], y);
      InsertedCounts(SortedOf(s[1..]), s[0], y);
    }
  }

  lemma {:induction false} SortedBelow(s: seq<real>, k: nat, x: real)
    requires k <= |s| && forall i :: k <= i < |s| ==> x <= s[i]
    ensures Below(s, x) <= k
    decreases |s|
  {
    if s != [] {
      SortedBelow(s[1..], if k == 0 then 0 else k - 1, x);
    }
  }

  lemma {:induction false} SortedAtMost(s: seq<real>, k: nat, x: real)
    requires k <= |s| && forall i :: 0 <= i < k ==> s[i] <= x
    ensures AtMost(s, x) >= k
    decreases |s|
  {
    if s != [] {
      SortedAtMost(s[1..], if k == 0 then 0 else k - 1, x);
    }
  }

  lemma {:induction false} RankInSorted(samples: seq<real>, k: nat)
    requires k < |samples|
    ensures IsRank(samples, k, SortedOf(samples)[k])
  {
    var s := SortedOf(samples);
    SortedOfIs(samples);
    SortedCounts(samples, s[k]);
    SortedBelow(s, k, s[k]);
    SortedAtMost(s, k + 1, s[k]);
  }

  lemma {:induction false} CountsGrow(s: seq<real>, x: real, y: real)
    requires x < y
    ensures AtMost(s, x) <= Below(s, y)
    decreases |s|
  {
    if s != [] {
      CountsGrow(s[1..], x, y);
    }
  }

  /** A rank has one value. */
  lemma {:induction false} RankDetermined(s: seq<real>, k: nat, x: real, y: real)
    requires IsRank(s, k, x) && IsRank(s, k, y)
    ensures x == y
  {
    if x < y {
      CountsGrow(s, x, y);
    } else if y < x {
      CountsGrow(s, y, x);
    }
  }

  /** `m` is the median of the `count` samples of the ranks from `first` on: the middle one, or the mean of the middle
      two. */
  ghost predicate IsMedianOfRanks(s: seq<real>, first: nat, count: nat, m: real)
    requires count > 0
  {
    if count % 2 == 1 then IsRank(s, first + count / 2, m)
    else IsMeanOfRanks(s, first + count / 2, m)
  }

  ghost predicate IsMeanOfRanks(s: seq<real>, k: nat, m: real) {
    exists x, y :: AreRanks(s, k, x, y) && m == (x + y) / 2.0
  }

  ghost predicate AreRanks(s: seq<real>, k: nat, x: real, y: real) {
    k > 0 && IsRank(s, k - 1, x) && IsRank(s, k, y)
  }

  lemma {:induction false} MiddleOfRanks(samples: seq<real>, first: nat, count: nat)
    requires count > 0 && first + count <= |samples|
    ensures IsMedianOfRanks(samples, first, count, Middle(SortedOf(samples)[first..first + count]))
  {
    hide IsRank;
    var s := SortedOf(samples);
    var part := s[first..first + count];
    var k := first + count / 2;
    RankInSorted(samples, k);
    assert part[count / 2] == s[k];
    if count % 2 == 0 {
      RankInSorted(samples, k - 1);
      assert part[count / 2 - 1] == s[k - 1];
      assert AreRanks(samples, k, s[k - 1], s[k]);
    }
  }

  lemma {:induction false} PartByRank(samples: seq<real>, first: nat, count: nat)
    requires count > 0 && first + count <= |samples|
    ensures IsMedianOfRanks(samples, first, count, Median(SortedOf(samples)[first..first + count]))
  {
    hide Middle, IsMedianOfRanks, SortedOf;
    var s := SortedOf(samples);
    SortedOfIs(samples);
    SortedTwice(s[first..first + count]);
    MiddleOfRanks(samples, first, count);
  }

  lemma {:induction false} HalvesAreParts(s: seq<real>)
    requires |s| > 1
    ensures var h, u := |s| / 2, (|s| + 1) / 2; Quartiles(s) == (Median(s[0..0 + h]), Median(s[u..u + h]))
  {
    hide Median;
    var h, u := |s| / 2, (|s| + 1) / 2;
    assert s[..h] == s[0..0 + h] && s[h + |s| % 2..] == s[u..u + h];
  }

  /** The summary of any samples: the median of all of them, and of the lower and the upper half, with the middle one
      of an odd number in neither half. */
  lemma {:induction false} SummaryByRank(samples: seq<real>)
    requires samples != []
    ensures var r, n := MedianIqr(samples), |samples|;
            && r.Ok? && IsMedianOfRanks(samples, 0, n, r.value.median)
            && (n == 1 ==> r.value.q1 == r.value.median == r.value.q3)
            && (n > 1 ==> IsMedianOfRanks(samples, 0, n / 2, r.value.q1)
                          && IsMedianOfRanks(samples, (n + 1) / 2, n / 2, r.value.q3))
  {
    hide Median, IsMedianOfRanks, SortedOf;
    var s, n := SortedOf(samples), |samples|;
    PartByRank(samples, 0, n);
    assert s[0..0 + n] == s;
    if n == 1 {
      MedianOfOne(s);
    } else {
      HalvesAreParts(s);
      PartByRank(samples, 0, n / 2);
      PartByRank(samples, (n + 1) / 2, n / 2);
    }
  }

  lemma {:induction false} MedianOfOne(s: seq<real>)
    requires |s| == 1
    ensures Median(s) == s[0]
  {
    assert SortedOf(s[1..]) == [];
  }

  // --- percentile bounds ---

  /** Python's `round`: to the nearest integer, a tie to the even one. */
  function Round(x: real): int {
    var f := x.Floor;
    var d := x - f as real;
    if d < 0.5 then f else if d > 0.5 then f + 1 else if f % 2 == 0 then f else f + 1
  }

  function Clamp(index: int, size: int): int {
    var least := if index < size - 1 then index else size - 1;
    if least > 0 then least else 0
  }

  function Tail(count: nat, level: real): int {
    Round((1.0 - level) / 2.0 * count as real)
  }

  function LowIndex(count: nat, level: real): int {
    Clamp(Tail(count, level), count)
  }

  function HighIndex(count: nat, level: real): int {
    Clamp(count - 1 - Tail(count, level), count)
  }

  lemma {:induction false} ClampInside(index: int, size: int)
    requires size > 0
    ensures 0 <= Clamp(index, size) < size
  {
  }

  /** `_percentile_bounds`. */
  function PercentileBounds(ordered: seq<real>, level: real): Result<(real, real)> {
    if ordered == [] then Err(IndexError)
    else
      ClampInside(Tail(|ordered|, level), |ordered|);
      ClampInside(|ordered| - 1 - Tail(|ordered|, level), |ordered|);
      Ok((ordered[LowIndex(|ordered|, level)], ordered[HighIndex(|ordered|, level)]))
  }

  lemma {:induction false} RoundNear(x: real)
    ensures x - 0.5 <= Round(x) as real <= x + 0.5
  {
  }

  lemma {:induction false} TailShare(count: nat, level: real)
    ensures (1.0 - level) / 2.0 * count as real == (count as real - level * count as real) / 2.0
  {
  }

  /** For a level between 0 and 1 nothing is clamped: as many values lie below the lower bound as above the upper. */
  lemma {:induction false} NeverClamped(count: nat, level: real)
    requires count > 0 && 0.0 <= level <= 1.0
    ensures var tail := Tail(count, level);
            0 <= tail < count && LowIndex(count, level) == tail && HighIndex(count, level) == count - 1 - tail
  {
    hide Round;
    var share := level * count as real;
    TailShare(count, level);
    ShareBounds(count, level);
    RoundInside((count as real - share) / 2.0, count);
  }

  lemma {:induction false} RoundInside(x: real, count: nat)
    requires count > 0 && 0.0 <= x <= count as real / 2.0
    ensures 0 <= Round(x) < count
  {
    RoundNear(x);
    if count == 1 {
      assert x.Floor == 0;
    }
  }

  lemma {:induction false} ShareBounds(count: nat, level: real)
    requires 0.0 <= level <= 1.0
    ensures 0.0 <= level * count as real <= count as real
  {
  }

  /** The lower bound is not above the upper one if at least two values' worth of level is asked for. */
  lemma {:induction false} BoundsOrdered(count: nat, level: real)
    requires 0.0 <= level <= 1.0 && level * count as real >= 2.0
    ensures LowIndex(count, level) <= HighIndex(count, level)
  {
    NeverClamped(count, level);
    TailShare(count, level);
    RoundNear((count as real - level * count as real) / 2.0);
  }

  /** Exactly when the indices are in order. With share = level * count: an odd count always, unless the share is 0 and
      the half count is odd; an even count when the share is above 1, or is 1 and the half count odd. */
  predicate InOrderWhen(count: nat, share: real) {
    var half := count / 2;
    if count % 2 == 1 then share > 0.0 || half % 2 == 0
    else share > 1.0 || (share == 1.0 && half % 2 == 1)
  }

  lemma {:induction false} BoundsOrderedExactly(count: nat, level: real)
    requires count > 0 && 0.0 <= level <= 1.0
    ensures LowIndex(count, level) <= HighIndex(count, level) <==> InOrderWhen(count, level * count as real)
  {
    NeverClamped(count, level);
    TailShare(count, level);
    ShareBounds(count, level);
    RoundHalf(count, level * count as real);
  }

  lemma {:induction false} RoundHalf(count: nat, share: real)
    requires count > 0 && 0.0 <= share <= count as real
    ensures 2 * Round((count as real - share) / 2.0) <= count - 1 <==> InOrderWhen(count, share)
  {
    var half, x := count / 2, (count as real - share) / 2.0;
    RoundNear(x);
    if count % 2 == 1 {
      assert count as real == 2.0 * half as real + 1.0;
      assert x == half as real + (1.0 - share) / 2.0;
      RoundUnder(x, half);
    } else {
      assert count as real == 2.0 * half as real;
      assert x == (half - 1) as real + (2.0 - share) / 2.0;
      RoundUnder(x, half - 1);
    }
  }

  lemma {:induction false} RoundUnder(x: real, n: int)
    ensures Round(x) <= n <==> x < n as real + 0.5 || (x == n as real + 0.5 && n % 2 == 0)
  {
  }

  // --- the bootstrap of a ratio ---

  /** The random generator: what `randrange(n)` gives at its k-th call. */
  type Draws = (nat, nat) -> nat

  ghost predicate InRange(draw: Draws) {
    forall k: nat, n: nat :: n > 0 ==> draw(k, n) < n
  }

  /** A list drawn with replacement, the first draw being the generator's call number `first`. */
  function Resample(s: seq<real>, first: nat, draw: Draws): seq<real>
    requires s != [] && InRange(draw)
  {
    seq(|s|, i requires 0 <= i < |s| => s[draw(first + i, |s|)])
  }

  method DrawSample(s: seq<real>, first: nat, draw: Draws) returns (r: seq<real>)
    requires s != [] && InRange(draw)
    ensures r == Resample(s, first, draw)
  {
    r := [];
    for i := 0 to |s|
      invariant r == Resample(s, first, draw)[..i]
    {
      r := r + [s[draw(first + i, |s|)]];
    }
  }

  function Ratio(numerator: seq<real>, denominator: seq<real>): Result<real>
    requires numerator != [] && denominator != []
  {
    if Median(denominator) == 0.0 then Err(ZeroDivisionError) else Ok(Median(numerator) / Median(denominator))
  }

  function Boot(numerator: seq<real>, denominator: seq<real>, k: nat, draw: Draws): Result<real>
    requires numerator != [] && denominator != [] && InRange(draw)
  {
    var first := k * (|numerator| + |denominator|);
    Ratio(Resample(numerator, first, draw), Resample(denominator, first + |numerator|, draw))
  }

  /** The first `b` bootstrap ratios. */
  function Boots(numerator: seq<real>, denominator: seq<real>, b: nat, draw: Draws): Result<seq<real>>
    requires numerator != [] && denominator != [] && InRange(draw)
  {
    if b == 0 then Ok([])
    else
      match Boots(numerator, denominator, b - 1, draw)
      case Err(e) => Err(e)
      case Ok(s) =>
        match Boot(numerator, denominator, b - 1, draw)
        case Err(e) => Err(e)
        case Ok(x) => Ok(s + [x])
  }

  datatype Interval = Interval(point: real, low: real, high: real)

  function Bounded(point: real, boots: seq<real>, level: real): Result<Interval> {
    match PercentileBounds(SortedOf(boots), level)
    case Err(e) => Err(e)
    case Ok((low, high)) => Ok(Interval(point, low, high))
  }

  function RatioInterval(numerator: seq<real>, denominator: seq<real>, b: nat, level: real,
                         draw: Draws): Result<Interval>
    requires InRange(draw)
  {
    if numerator == [] || denominator == [] then Err(ValueError)
    else
      match Ratio(numerator, denominator)
      case Err(e) => Err(e)
      case Ok(point) =>
        match Boots(numerator, denominator, b, draw)
        case Err(e) => Err(e)
        case Ok(boots) => Bounded(point, boots, level)
  }

  /** `ratio_ci`. */
  method RatioCi(numerator: seq<real>, denominator: seq<real>, b: nat, level: real,
                 draw: Draws) returns (r: Result<Interval>)
    requires InRange(draw)
    ensures r == RatioInterval(numerator, denominator, b, level, draw)
  {
    hide Ratio, Resample, InRange, Bounded;
    if numerator == [] || denominator == [] {
      return Err(ValueError);
    }
    var point := Ratio(numerator, denominator);
    if point.Err? {
      return Err(point.error);
    }
    var boots: seq<real> := [];
    var calls := 0;
    for k := 0 to b
      invariant calls == k * (|numerator| + |denominator|)
      invariant Boots(numerator, denominator, k, draw) == Ok(boots)
    {
      var num := DrawSample(numerator, calls, draw);
      var den := DrawSample(denominator, calls + |numerator|, draw);
      calls := calls + |numerator| + |denominator|;
      DrawnNotEmpty(numerator, k * (|numerator| + |denominator|), draw);
      DrawnNotEmpty(denominator, k * (|numerator| + |denominator|) + |numerator|, draw);
      var ratio := Ratio(num, den);
      if ratio.Err? {
        FailedBoots(numerator, denominator, k + 1, b, draw);
        return Err(ratio.error);
      }
      boots := boots + [ratio.value];
    }
    r := Bounded(point.value, boots, level);
  }

  lemma {:induction false} DrawnNotEmpty(s: seq<real>, first: nat, draw: Draws)
    requires s != [] && InRange(draw)
    ensures Resample(s, first, draw) != []
  {
  }

  lemma {:induction false} FailedBoots(numerator: seq<real>, denominator: seq<real>, k: nat, b: nat, draw: Draws)
    requires numerator != [] && denominator != [] && InRange(draw) && k <= b
    requires Boots(numerator, denominator, k, draw).Err?
    ensures Boots(numerator, denominator, b, draw) == Boots(numerator, denominator, k, draw)
    decreases b
  {
    hide Boot;
    if k < b {
      FailedBoots(numerator, denominator, k, b - 1, draw);
    }
  }

  // --- every choice of resamples is drawn ---

  /** Indices for each replicate, one for each position of the list. */
  ghost predicate Choices(picks: seq<seq<nat>>, size: nat) {
    forall k :: 0 <= k < |picks| ==>
      |picks[k]| == size && forall i :: 0 <= i < size ==> picks[k][i] < size
  }

  function Picked(s: seq<real>, picks: seq<nat>): (r: seq<real>)
    requires forall i :: 0 <= i < |picks| ==> picks[i] < |s|
    ensures |r| == |picks| && forall i :: 0 <= i < |r| ==> r[i] == s[picks[i]]
  {
    seq(|picks|, i requires 0 <= i < |picks| => s[picks[i]])
  }

  /** A generator that gives these indices, replicate by replicate, the numerator's before the denominator's. */
  function Dealt(ns: seq<seq<nat>>, ds: seq<seq<nat>>, n: nat, d: nat): Draws {
    (call: nat, size: nat) =>
      var k, i := if n + d > 0 then call / (n + d) else 0, if n + d > 0 then call % (n + d) else 0;
      var pick := if k < |ns| && i < n && i < |ns[k]| then ns[k][i]
                  else if k < |ds| && n <= i && i - n < |ds[k]| then ds[k][i - n]
                  else 0;
      if pick < size then pick else 0
  }

  lemma {:induction false} OneQuotient(k: int, q: int, i: nat, r: nat, m: nat)
    requires k * m + i == q * m + r && i < m && r < m
    ensures k == q && i == r
  {
    if k < q {
      Multiple(q - k, m);
    } else if q < k {
      Multiple(k - q, m);
    }
  }

  lemma {:induction false} Multiple(x: int, m: nat)
    requires x >= 1
    ensures x * m >= m
  {
  }

  lemma {:induction false} CallOf(k: nat, i: nat, m: nat)
    requires i < m
    ensures (k * m + i) / m == k && (k * m + i) % m == i
  {
    var call := k * m + i;
    OneQuotient(k, call / m, i, call % m, m);
  }

  lemma {:induction false} DealtFirst(ns: seq<seq<nat>>, ds: seq<seq<nat>>, n: nat, d: nat, k: nat, i: nat)
    requires k < |ns| && Choices(ns, n) && i < n
    ensures Dealt(ns, ds, n, d)(k * (n + d) + i, n) == ns[k][i]
  {
    CallOf(k, i, n + d);
  }

  lemma {:induction false} DealtSecond(ns: seq<seq<nat>>, ds: seq<seq<nat>>, n: nat, d: nat, k: nat, i: nat)
    requires k < |ds| && Choices(ds, d) && i < d
    ensures Dealt(ns, ds, n, d)(k * (n + d) + n + i, d) == ds[k][i]
  {
    CallOf(k, n + i, n + d);
  }

  lemma {:induction false} DealtResamples(numerator: seq<real>, denominator: seq<real>, ns: seq<seq<nat>>,
                                          ds: seq<seq<nat>>, k: nat)
    requires numerator != [] && denominator != [] && k < |ns| == |ds|
    requires Choices(ns, |numerator|) && Choices(ds, |denominator|)
    requires InRange(Dealt(ns, ds, |numerator|, |denominator|))
    ensures var draw := Dealt(ns, ds, |numerator|, |denominator|);
            var first := k * (|numerator| + |denominator|);
            && Resample(numerator, first, draw) == Picked(numerator, ns[k])
            && Resample(denominator, first + |numerator|, draw) == Picked(denominator, ds[k])
  {
    hide Dealt;
    var n, d := |numerator|, |denominator|;
    forall i | 0 <= i < n ensures Dealt(ns, ds, n, d)(k * (n + d) + i, n) == ns[k][i] {
      DealtFirst(ns, ds, n, d, k, i);
    }
    forall i | 0 <= i < d ensures Dealt(ns, ds, n, d)(k * (n + d) + n + i, d) == ds[k][i] {
      DealtSecond(ns, ds, n, d, k, i);
    }
  }

  /** The resamples are independent of each other: for any choice of them, one generator draws exactly those, and the
      replicates are the ratios of their medians. */
  lemma {:induction false} EveryResample(numerator: seq<real>, denominator: seq<real>, ns: seq<seq<nat>>,
                                         ds: seq<seq<nat>>, b: nat) returns (draw: Draws)
    requires numerator != [] && denominator != [] && b <= |ns| == |ds|
    requires Choices(ns, |numerator|) && Choices(ds, |denominator|)
    requires forall k :: 0 <= k < b ==> Ratio(Picked(numerator, ns[k]), Picked(denominator, ds[k])).Ok?
    ensures draw == Dealt(ns, ds, |numerator|, |denominator|) && InRange(draw)
    ensures var boots := Boots(numerator, denominator, b, draw);
            && boots.Ok? && |boots.value| == b
            && forall k :: 0 <= k < b ==>
                Ok(boots.value[k]) == Ratio(Picked(numerator, ns[k]), Picked(denominator, ds[k]))
  {
    hide Ratio, Resample, Picked, Dealt, InRange;
    draw := Dealt(ns, ds, |numerator|, |denominator|);
    DealtInRange(ns, ds, |numerator|, |denominator|);
    if b > 0 {
      var same := EveryResample(numerator, denominator, ns, ds, b - 1);
      DealtResamples(numerator, denominator, ns, ds, b - 1);
    }
  }

  lemma {:induction false} DealtInRange(ns: seq<seq<nat>>, ds: seq<seq<nat>>, n: nat, d: nat)
    ensures InRange(Dealt(ns, ds, n, d))
  {
  }

  lemma {:induction false} QuotientWithin(n: real, d: real, a: real, b: real, c: real, e: real)
    requires 0.0 < a <= n <= b && 0.0 < c <= d <= e
    ensures a / e <= n / d <= b / c
  {
    Quotients(a, e, n, d);
    Quotients(n, d, b, c);
  }

  lemma {:induction false} Quotients(a: real, e: real, n: real, d: real)
    requires 0.0 < a <= n && 0.0 < d <= e
    ensures a / e <= n / d
  {
    var p, q := a / e, n / d;
    assert p * e == a && q * d == n;
    assert p * (e - d) >= 0.0;
    SignOf(q - p, d);
  }

  lemma {:induction false} SignOf(x: real, d: real)
    requires d > 0.0 && x * d >= 0.0
    ensures x >= 0.0
  {
  }

  lemma {:induction false} ResampleWithin(s: seq<real>, first: nat, draw: Draws, low: real, high: real)
    requires s != [] && InRange(draw) && Within(s, low, high)
    ensures Within(Resample(s, first, draw), low, high)
  {
  }

  /** The range of the ratios of two positive samples. */
  ghost predicate Positive(s: seq<real>, low: real, high: real) {
    s != [] && IsMin(s, low) && IsMax(s, high) && low > 0.0
  }

  lemma {:induction false} PositiveWithin(s: seq<real>, low: real, high: real)
    requires Positive(s, low, high)
    ensures Within(s, low, high) && 0.0 < low <= high
  {
    forall i | 0 <= i < |s| ensures low <= s[i] <= high {
      assert s[i] in s;
    }
  }

  lemma {:induction false} RatioWithin(numerator: seq<real>, denominator: seq<real>, a: real, b: real, c: real, e: real)
    requires numerator != [] && denominator != [] && 0.0 < a <= b && 0.0 < c <= e
    requires Within(numerator, a, b) && Within(denominator, c, e)
    ensures Ratio(numerator, denominator).Ok? && a / e <= Ratio(numerator, denominator).value <= b / c
  {
    MedianWithin(numerator, a, b);
    MedianWithin(denominator, c, e);
    QuotientWithin(Median(numerator), Median(denominator), a, b, c, e);
  }

  lemma {:induction false} BootsWithin(numerator: seq<real>, denominator: seq<real>, k: nat, draw: Draws, a: real,
                                       b: real, c: real, e: real)
    requires numerator != [] && denominator != [] && 0.0 < a <= b && 0.0 < c <= e && InRange(draw)
    requires Within(numerator, a, b) && Within(denominator, c, e)
    ensures Boots(numerator, denominator, k, draw).Ok? && |Boots(numerator, denominator, k, draw).value| == k
    ensures Within(Boots(numerator, denominator, k, draw).value, a / e, b / c)
  {
    hide Ratio, InRange;
    if k > 0 {
      BootsWithin(numerator, denominator, k - 1, draw, a, b, c, e);
      var first := (k - 1) * (|numerator| + |denominator|);
      ResampleWithin(numerator, first, draw, a, b);
      ResampleWithin(denominator, first + |numerator|, draw, c, e);
      DrawnNotEmpty(numerator, first, draw);
      DrawnNotEmpty(denominator, first + |numerator|, draw);
      RatioWithin(Resample(numerator, first, draw), Resample(denominator, first + |numerator|, draw), a, b, c, e);
    }
  }

  /** For positive samples and whatever the generator draws, the interval lies between the least and the greatest ratio
      of two samples, and so does the point estimate. */
  lemma {:induction false} RatioEnclosed(numerator: seq<real>, denominator: seq<real>, b: nat, level: real, draw: Draws,
                                         minN: real, maxN: real, minD: real, maxD: real)
    requires Positive(numerator, minN, maxN) && Positive(denominator, minD, maxD) && InRange(draw)
    requires 0.0 <= level <= 1.0 && level * b as real >= 2.0
    ensures var r := RatioInterval(numerator, denominator, b, level, draw);
            && r.Ok? && minN / maxD <= r.value.low <= r.value.high <= maxN / minD
            && minN / maxD <= r.value.point <= maxN / minD
  {
    hide Ratio, Boots, LowIndex, HighIndex, IsMin, IsMax, InRange, Within, Sorted, SortedOf;
    PositiveWithin(numerator, minN, maxN);
    PositiveWithin(denominator, minD, maxD);
    RatioWithin(numerator, denominator, minN, maxN, minD, maxD);
    BootsWithin(numerator, denominator, b, draw, minN, maxN, minD, maxD);
    var boots := Boots(numerator, denominator, b, draw).value;
    SortedOfIs(boots);
    SortedWithin(boots, minN / maxD, maxN / minD);
    BoundsOrdered(b, level);
    BoundsInside(SortedOf(boots), level, minN / maxD, maxN / minD);
  }

  lemma {:induction false} BoundsInside(s: seq<real>, level: real, low: real, high: real)
    requires s != [] && Sorted(s) && Within(s, low, high)
    ensures var r := PercentileBounds(s, level);
            && r.Ok? && low <= r.value.0 <= high && low <= r.value.1 <= high
            && (LowIndex(|s|, level) <= HighIndex(|s|, level) ==> r.value.0 <= r.value.1)
  {
    hide Tail, Clamp;
    ClampInside(Tail(|s|, level), |s|);
    ClampInside(|s| - 1 - Tail(|s|, level), |s|);
  }

  /** Without two values' worth of level the bounds can cross: three values at level 0 give the third and the first. */
  lemma {:induction false} BoundsCanCross(x: real, y: real, z: real)
    requires x < y < z
    ensures PercentileBounds([x, y, z], 0.0) == Ok((z, x))
  {
    assert (1.0 - 0.0) / 2.0 * 3.0 == 1.5;
    assert Tail(3, 0.0) == 2;
  }
}
