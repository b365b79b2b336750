/** `average_ranks` and `spearman_rho` of src/alphaswarm/evaluation.py. */
module Ranks {
  import opened Common
  import opened Sorting

  function Below(x: real): real -> bool {
    y => y < x
  }

  function Same(x: real): real -> bool {
    y => y == x
  }

  function Less(v: seq<real>, x: real): nat {
    Count(v, Below(x))
  }

  function Equal(v: seq<real>, x: real): nat {
    Count(v, Same(x))
  }

  /** The definition of a 1-based rank whose ties share the average of their positions. */
  function RankOf(v: seq<real>, x: real): real {
    Less(v, x) as real + (Equal(v, x) + 1) as real / 2.0
  }

  // ----- `sorted(range(n), key=values)` -----

  function Value(v: seq<real>, i: nat): real {
    if i < |v| then v[i] else 0.0
  }

  function ByValue(v: seq<real>): (nat, nat) -> bool {
    (i: nat, j: nat) => Value(v, i) > Value(v, j)
  }

  function Range(n: nat): (r: seq<nat>)
    ensures |r| == n && forall k :: 0 <= k < n ==> r[k] == k
  {
    seq(n, k requires 0 <= k < n => k)
  }

  /** The first `n` indices in ascending value, equal values in index order. */
  function OrderOf(v: seq<real>, n: nat): (r: seq<nat>)
    requires n <= |v|
    ensures forall k :: 0 <= k < |r| ==> r[k] < n
  {
    OrderIsPermutation(v, n);
    Sort<nat>(Range(n), ByValue(v))
  }

  lemma OrderIsPermutation(v: seq<real>, n: nat)
    requires n <= |v|
    ensures var r := Sort<nat>(Range(n), ByValue(v));
      && multiset(r) == multiset(Range(n)) && |r| == n && Ordered<nat>(r, ByValue(v))
      && forall k :: 0 <= k < |r| ==> r[k] < n
  {
    SortSorts<nat>(Range(n), ByValue(v));
    var r := Sort<nat>(Range(n), ByValue(v));
    forall k | 0 <= k < |r| ensures r[k] < n {
      assert r[k] in multiset(Range(n));
    }
  }

  predicate AscendingBy(r: seq<nat>, v: seq<real>)
    requires forall k :: 0 <= k < |r| ==> r[k] < |v|
  {
    forall i, j :: 0 <= i < j < |r| ==> v[r[i]] <= v[r[j]]
  }

  lemma OrderAscends(v: seq<real>, n: nat)
    requires n <= |v|
    ensures AscendingBy(OrderOf(v, n), v)
  {
    OrderIsPermutation(v, n);
    var r := OrderOf(v, n);
    forall i, j | 0 <= i < j < |r| ensures v[r[i]] <= v[r[j]] {
      assert !ByValue(v)(r[i], r[j]);
    }
  }

  /** Every index appears in the order exactly once. */
  lemma OrderCovers(v: seq<real>)
    ensures var r := OrderOf(v, |v|);
      && |r| == |v| && (forall i :: 0 <= i < |v| ==> i in r)
      && (forall j, k :: 0 <= j < k < |r| ==> r[j] != r[k])
  {
    var n := |v|;
    var r := OrderOf(v, n);
    OrderIsPermutation(v, n);
    forall i | 0 <= i < n ensures i in r {
      assert Range(n)[i] == i;
      assert i in multiset(r);
    }
    forall j, k | 0 <= j < k < n ensures r[j] != r[k] {
      if r[j] == r[k] {
        MultisetWithout(r, k);
        var u := r[..k] + r[k + 1..];
        assert u[j] == r[j];
        assert r[j] in multiset(u);
        RangeOnce(n, r[j]);
      }
    }
  }

  lemma {:induction false} RangeOnce(n: nat, i: nat)
    ensures multiset(Range(n))[i] <= 1
    ensures i >= n ==> multiset(Range(n))[i] == 0
  {
    if n > 0 {
      RangeOnce(n - 1, i);
      MultisetOfLast(Range(n));
      assert Range(n)[..n - 1] == Range(n - 1);
    } else {
      assert Range(0) == [];
    }
  }

  // ----- Positions in sorted order are counts -----

  function Pick(v: seq<real>, r: seq<nat>): (s: seq<real>)
    requires forall k :: 0 <= k < |r| ==> r[k] < |v|
    ensures |s| == |r| && forall k :: 0 <= k < |r| ==> s[k] == v[r[k]]
  {
    seq(|r|, k requires 0 <= k < |r| => v[r[k]])
  }

  /** The values in sorted order. */
  function SortedValues(v: seq<real>): seq<real> {
    Pick(v, OrderOf(v, |v|))
  }

  predicate Within(r: seq<nat>, n: nat) {
    forall k :: 0 <= k < |r| ==> r[k] < n
  }

  lemma PickWithout(v: seq<real>, b: seq<nat>, k: nat)
    requires Within(b, |v|) && k < |b|
    ensures Within(b[..k] + b[k + 1..], |v|)
    ensures multiset(Pick(v, b)) == multiset(Pick(v, b[..k] + b[k + 1..])) + multiset{v[b[k]]}
  {
    MultisetWithout(Pick(v, b), k);
    assert Pick(v, b)[..k] + Pick(v, b)[k + 1..] == Pick(v, b[..k] + b[k + 1..]);
  }

  lemma {:induction false} PickPermutes(v: seq<real>, a: seq<nat>, b: seq<nat>)
    requires Within(a, |v|) && Within(b, |v|) && multiset(a) == multiset(b)
    ensures multiset(Pick(v, a)) == multiset(Pick(v, b))
  {
    if a == [] {
      assert |multiset(b)| == |b|;
      assert Pick(v, a) == Pick(v, b);
    } else {
      var n := |a| - 1;
      MultisetOfLast(a);
      assert a[n] in multiset(b);
      var k :| 0 <= k < |b| && b[k] == a[n];
      MultisetWithout(b, k);
      assert multiset(a[..n]) == multiset(a) - multiset{a[n]};
      PickWithout(v, b, k);
      PickPermutes(v, a[..n], b[..k] + b[k + 1..]);
      PickWithout(v, a, n);
      assert a[..n] + a[n + 1..] == a[..n];
    }
  }

  lemma SortedCounts(v: seq<real>, x: real)
    ensures Less(SortedValues(v), x) == Less(v, x) && Equal(SortedValues(v), x) == Equal(v, x)
  {
    var n := |v|;
    OrderIsPermutation(v, n);
    PickPermutes(v, OrderOf(v, n), Range(n));
    assert Pick(v, Range(n)) == v;
    CountPermutes(SortedValues(v), v, Below(x));
    CountPermutes(SortedValues(v), v, Same(x));
  }

  lemma {:induction false} CountRun(s: seq<real>, x: real, from: nat, to: nat)
    requires from <= to <= |s|
    requires forall k :: 0 <= k < from ==> s[k] < x
    requires forall k :: from <= k < to ==> s[k] == x
    requires forall k :: to <= k < |s| ==> s[k] > x
    ensures Less(s, x) == from && Equal(s, x) == to - from
  {
    if s != [] {
      var n := |s| - 1;
      CountRun(s[..n], x, Min(from, n), Min(to, n));
    }
  }

  // ----- The loop -----

  /** A run of equal values at sorted positions start..end has the rank of its values. */
  lemma RunRank(v: seq<real>, start: nat, end: nat)
    requires start <= end < |v| == |OrderOf(v, |v|)|
    requires var s := SortedValues(v);
      && (forall k :: 0 <= k < start ==> s[k] < s[start])
      && (forall k :: start <= k <= end ==> s[k] == s[start])
      && (forall k :: end < k < |v| ==> s[k] > s[start])
    ensures RankOf(v, SortedValues(v)[start]) == (start + end) as real / 2.0 + 1.0
  {
    var s := SortedValues(v);
    CountRun(s, s[start], start, end + 1);
    SortedCounts(v, s[start]);
  }

  /** `average_ranks`: the sort-and-run loop gives every index its rank by definition. */
  method AverageRanks(values: seq<real>) returns (ranks: seq<real>)
    ensures |ranks| == |values|
    ensures forall i :: 0 <= i < |values| ==> ranks[i] == RankOf(values, values[i])
  {
    hide RankOf, OrderOf;
    var n := |values|;
    var order := OrderOf(values, n);
    OrderCovers(values);
    OrderAscends(values, n);
    ghost var s := SortedValues(values);
    var out := new real[n](_ => 0.0);
    var start := 0;
    while start < n
      invariant 0 <= start <= n
      invariant forall p, q :: 0 <= p < start <= q < n ==> s[p] < s[q]
      invariant forall p :: 0 <= p < start ==> out[order[p]] == RankOf(values, s[p])
    {
      var end := start;
      while end + 1 < n && values[order[end + 1]] == values[order[start]]
        invariant start <= end < n
        invariant forall p :: start <= p <= end ==> s[p] == s[start]
      {
        end := end + 1;
      }
      RunRank(values, start, end);
      for k := start to end + 1
        invariant forall p :: 0 <= p < k ==> out[order[p]] == RankOf(values, s[p])
      {
        out[order[k]] := (start + end) as real / 2.0 + 1.0;
      }
      start := end + 1;
    }
    ranks := out[..];
    forall i | 0 <= i < n ensures ranks[i] == RankOf(values, values[i]) {
      assert i in order;
      var p :| 0 <= p < n && order[p] == i;
      assert s[p] == values[i];
    }
  }

  // ----- Consequences -----

  lemma {:induction false} CountSplit(v: seq<real>, x: real, y: real)
    requires x < y
    ensures Less(v, x) + Equal(v, x) <= Less(v, y)
  {
    if v != [] {
      CountSplit(v[..|v| - 1], x, y);
    }
  }

  lemma {:induction false} CountPresent(v: seq<real>, i: nat)
    requires i < |v|
    ensures Equal(v, v[i]) >= 1
  {
    if i < |v| - 1 {
      CountPresent(v[..|v| - 1], i);
    }
  }

  /** Ranking keeps the order exactly. */
  lemma RanksKeepOrder(v: seq<real>, i: nat, j: nat)
    requires i < |v| && j < |v|
    ensures v[i] < v[j] <==> RankOf(v, v[i]) < RankOf(v, v[j])
    ensures v[i] == v[j] <==> RankOf(v, v[i]) == RankOf(v, v[j])
  {
    CountPresent(v, i);
    CountPresent(v, j);
    if v[i] < v[j] {
      CountSplit(v, v[i], v[j]);
    } else if v[j] < v[i] {
      CountSplit(v, v[j], v[i]);
    }
  }

  function Sum(v: seq<real>): real {
    if v == [] then 0.0 else Sum(v[..|v| - 1]) + v[|v| - 1]
  }

  /** Twice the ranks in `b` of the values `a`, less one each. */
  function Standing(a: seq<real>, b: seq<real>): nat {
    if a == [] then 0 else Standing(a[..|a| - 1], b) + 2 * Less(b, a[|a| - 1]) + Equal(b, a[|a| - 1])
  }

  lemma {:induction false} StandingAppend(a: seq<real>, b: seq<real>, x: real)
    ensures Standing(a, b + [x]) == Standing(a, b) + 2 * Count(a, Above(x)) + Equal(a, x)
  {
    if a != [] {
      StandingAppend(a[..|a| - 1], b, x);
      assert (b + [x])[..|b|] == b;
    }
  }

  function Above(x: real): real -> bool {
    y => y > x
  }

  lemma {:induction false} ThreeWays(v: seq<real>, x: real)
    ensures Less(v, x) + Equal(v, x) + Count(v, Above(x)) == |v|
  {
    if v != [] {
      ThreeWays(v[..|v| - 1], x);
    }
  }

  lemma StandingStep(u: seq<real>, x: real)
    ensures Standing(u + [x], u + [x]) == Standing(u, u) + 2 * |u| + 1
  {
    StandingAppend(u, u, x);
    ThreeWays(u, x);
    assert (u + [x])[..|u|] == u;
  }

  /** Every ordered pair contributes one to the standings. */
  lemma {:induction false} StandingSquare(v: seq<real>)
    ensures Standing(v, v) == |v| * |v|
  {
    hide Standing;
    if v == [] {
      EmptyStanding();
    } else {
      var n := |v| - 1;
      assert v == v[..n] + [v[n]];
      StandingSquare(v[..n]);
      StandingStep(v[..n], v[n]);
      assert |v| * |v| == n * n + 2 * n + 1;
    }
  }

  lemma EmptyStanding()
    ensures Standing([], []) == 0
  {
  }

  function RanksOf(a: seq<real>, b: seq<real>): (r: seq<real>)
    ensures |r| == |a| && forall i :: 0 <= i < |a| ==> r[i] == RankOf(b, a[i])
  {
    seq(|a|, i requires 0 <= i < |a| => RankOf(b, a[i]))
  }

  lemma {:induction false} SumIsStanding(a: seq<real>, b: seq<real>)
    ensures Sum(RanksOf(a, b)) == (Standing(a, b) + |a|) as real / 2.0
  {
    if a != [] {
      var n := |a| - 1;
      SumIsStanding(a[..n], b);
      assert RanksOf(a, b)[..n] == RanksOf(a[..n], b);
    }
  }

  /** Whatever the ties, the ranks of n values add up to n (n + 1) / 2. */
  lemma RanksSum(v: seq<real>, ranks: seq<real>)
    requires |ranks| == |v| && forall i :: 0 <= i < |v| ==> ranks[i] == RankOf(v, v[i])
    ensures Sum(ranks) == (|v| * (|v| + 1)) as real / 2.0
  {
    assert ranks == RanksOf(v, v);
    SumIsStanding(v, v);
    StandingSquare(v);
    assert |v| * (|v| + 1) == |v| * |v| + |v|;
  }

  // ----- Spearman correlation -----

  function Times(x: real, y: real): real {
    x * y
  }

  /** sum((a[i] - ma) * (b[i] - mb)). */
  function Covariance(a: seq<real>, b: seq<real>, ma: real, mb: real): real
    requires |a| == |b|
  {
    if a == [] then 0.0
    else
      var n := |a| - 1;
      Covariance(a[..n], b[..n], ma, mb) + Times(a[n] - ma, b[n] - mb)
  }

  /** p t^2 + 2 q t + r is not negative. */
  predicate NonnegativeAt(p: real, q: real, r: real, t: real) {
    p * (t * t) + 2.0 * q * t + r >= 0.0
  }

  /** The sums are the coefficients of a sum of squares (x t + y)^2. */
  lemma {:induction false} SquaresNonnegative(a: seq<real>, b: seq<real>, ma: real, mb: real, t: real)
    requires |a| == |b|
    ensures NonnegativeAt(Covariance(a, a, ma, ma), Covariance(a, b, ma, mb), Covariance(b, b, mb, mb), t)
  {
    if a != [] {
      hide NonnegativeAt, Times;
      var n := |a| - 1;
      SquaresNonnegative(a[..n], b[..n], ma, mb, t);
      var p, q, r := Covariance(a[..n], a[..n], ma, ma), Covariance(a[..n], b[..n], ma, mb),
        Covariance(b[..n], b[..n], mb, mb);
      SquareStep(p, q, r, a[n] - ma, b[n] - mb, t);
    }
  }

  lemma SquareStep(p: real, q: real, r: real, x: real, y: real, t: real)
    requires NonnegativeAt(p, q, r, t)
    ensures NonnegativeAt(p + Times(x, x), q + Times(x, y), r + Times(y, y), t)
  {
    var s := x * t + y;
    assert s * s >= 0.0;
    assert s * s == (x * x) * (t * t) + 2.0 * (x * y) * t + y * y by {
      assert (x * t) * (x * t) == (x * x) * (t * t);
      assert (x * t) * y == (x * y) * t;
    }
    assert (p + x * x) * (t * t) == p * (t * t) + (x * x) * (t * t);
    assert 2.0 * (q + x * y) * t == 2.0 * q * t + 2.0 * (x * y) * t;
  }

  lemma SquarePositive(d: real)
    requires d > 0.0
    ensures Times(d, d) > 0.0
  {
    assert Times(d, d) / d == d;
  }

  lemma SquareSign(d: real)
    ensures Times(d, d) >= 0.0 && (Times(d, d) == 0.0 <==> d == 0.0)
  {
    if d > 0.0 {
      SquarePositive(d);
    } else if d < 0.0 {
      SquarePositive(-d);
      assert Times(d, d) == Times(-d, -d);
    }
  }

  lemma {:induction false} VarianceNonnegative(a: seq<real>, m: real)
    ensures Covariance(a, a, m, m) >= 0.0
    ensures Covariance(a, a, m, m) == 0.0 <==> forall i :: 0 <= i < |a| ==> a[i] == m
  {
    if a != [] {
      var n := |a| - 1;
      VarianceNonnegative(a[..n], m);
      SquareSign(a[n] - m);
    }
  }

  lemma {:induction false} ZeroVarianceZeroCovariance(a: seq<real>, b: seq<real>, ma: real, mb: real)
    requires |a| == |b| && forall i :: 0 <= i < |a| ==> a[i] == ma
    ensures Covariance(a, b, ma, mb) == 0.0
  {
    if a != [] {
      ZeroVarianceZeroCovariance(a[..|a| - 1], b[..|b| - 1], ma, mb);
    }
  }

  /** Cauchy-Schwarz: sxy^2 <= sxx * syy. */
  lemma CauchySchwarz(a: seq<real>, b: seq<real>, ma: real, mb: real)
    requires |a| == |b|
    ensures var sxy := Covariance(a, b, ma, mb);
      sxy * sxy <= Covariance(a, a, ma, ma) * Covariance(b, b, mb, mb)
  {
    hide Covariance, NonnegativeAt;
    var p, q, r := Covariance(a, a, ma, ma), Covariance(a, b, ma, mb), Covariance(b, b, mb, mb);
    VarianceNonnegative(a, ma);
    if p == 0.0 {
      ZeroVarianceZeroCovariance(a, b, ma, mb);
    } else {
      SquaresNonnegative(a, b, ma, mb, -q / p);
      Discriminant(p, q, r);
    }
  }

  lemma Discriminant(p: real, q: real, r: real)
    requires p > 0.0 && NonnegativeAt(p, q, r, -q / p)
    ensures q * q <= p * r
  {
    var t := -q / p;
    assert p * t == -q;
    assert p * (t * t) == (p * t) * t;
    assert p * (t * t) + 2.0 * q * t + r == q * t + r;
    assert p * (q * t + r) == q * (p * t) + p * r;
    assert p * (q * t + r) >= 0.0;
  }

  function Mean(v: seq<real>): real
    requires v != []
  {
    Sum(v) / |v| as real
  }

  /** The ValueError for lists of unequal length, the None of `spearman_rho`, or the three sums of
      which the correlation is sxy / sqrt(sxx * syy). */
  datatype Spearman = LengthError | NoCorrelation | Sums(sxy: real, sxx: real, syy: real)

  /** The sums of `spearman_rho`; no correlation for fewer than 3 points or a constant series. */
  method SpearmanSums(xs: seq<real>, ys: seq<real>) returns (sums: Spearman)
    ensures sums.LengthError? <==> |xs| != |ys|
    ensures |xs| == |ys| ==> (sums.NoCorrelation? <==> |xs| < 3 || Constant(xs) || Constant(ys))
    ensures sums.Sums? ==> sums.sxx > 0.0 && sums.syy > 0.0 && sums.sxy * sums.sxy <= sums.sxx * sums.syy
    ensures sums.Sums? ==>
      var m := (|xs| + 1) as real / 2.0;
      sums == Sums(Covariance(RanksOf(xs, xs), RanksOf(ys, ys), m, m),
                   Covariance(RanksOf(xs, xs), RanksOf(xs, xs), m, m),
                   Covariance(RanksOf(ys, ys), RanksOf(ys, ys), m, m))
  {
    hide Covariance, RankOf, Sum;
    if |xs| != |ys| {
      return LengthError;
    }
    if |xs| < 3 {
      return NoCorrelation;
    }
    var rx := AverageRanks(xs);
    var ry := AverageRanks(ys);
    MeanRank(xs, rx);
    MeanRank(ys, ry);
    assert rx == RanksOf(xs, xs) && ry == RanksOf(ys, ys);
    var mx, my := Mean(rx), Mean(ry);
    var sxy, sxx, syy := Covariance(rx, ry, mx, my), Covariance(rx, rx, mx, mx), Covariance(ry, ry, my, my);
    VarianceNonnegative(rx, mx);
    VarianceNonnegative(ry, my);
    ConstantRanks(xs, rx, mx);
    ConstantRanks(ys, ry, my);
    CauchySchwarz(rx, ry, mx, my);
    sums := if sxx == 0.0 || syy == 0.0 then NoCorrelation else Sums(sxy, sxx, syy);
  }

  predicate Constant(v: seq<real>) {
    forall i, j :: 0 <= i < |v| && 0 <= j < |v| ==> v[i] == v[j]
  }

  lemma MeanRank(v: seq<real>, ranks: seq<real>)
    requires v != [] && |ranks| == |v| && forall i :: 0 <= i < |v| ==> ranks[i] == RankOf(v, v[i])
    ensures Mean(ranks) == (|v| + 1) as real / 2.0
  {
    hide Sum, RankOf;
    RanksSum(v, ranks);
    var n := |v| as real;
    assert (|v| * (|v| + 1)) as real == n * (n + 1.0);
    CancelFactor(n, (n + 1.0) / 2.0);
  }

  lemma CancelFactor(n: real, x: real)
    requires n > 0.0
    ensures n * x / n == x
  {
  }

  /** All ranks sit at the mean exactly when all values are equal. */
  lemma ConstantRanks(v: seq<real>, ranks: seq<real>, m: real)
    requires v != [] && |ranks| == |v| && forall i :: 0 <= i < |v| ==> ranks[i] == RankOf(v, v[i])
    requires m == (|v| + 1) as real / 2.0
    ensures (forall i :: 0 <= i < |v| ==> ranks[i] == m) <==> Constant(v)
  {
    if forall i :: 0 <= i < |v| ==> ranks[i] == m {
      forall i, j | 0 <= i < |v| && 0 <= j < |v| ensures v[i] == v[j] {
        RanksKeepOrder(v, i, j);
        RanksKeepOrder(v, j, i);
      }
    }
    if Constant(v) {
      CountRun(v, v[0], 0, |v|);
    }
  }
}
