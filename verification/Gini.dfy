/** `citation_gini` of src/alphaswarm/metrics.py: the sorted-index formula equals the mean
    absolute difference over all pairs of agents, with its exact extremes. */
module Gini {
  import opened Common
  import opened Sorting

  /** A decision as the estimator reads it. */
  datatype Decision = Decision(failed: bool, cited: seq<string>)

  function Abs(x: int): nat {
    if x < 0 then -x else x
  }

  // ----- Sums over counts -----

  /** Sum of |x - y| over the y of `v`. */
  function Dist(x: int, v: seq<nat>): nat {
    if v == [] then 0 else Dist(x, v[..|v| - 1]) + Abs(x - v[|v| - 1])
  }

  function Total(v: seq<nat>): nat {
    if v == [] then 0 else Total(v[..|v| - 1]) + v[|v| - 1]
  }

  /** Sum of |x - y| over the x of `a` and the y of `b`. */
  function Cross(a: seq<nat>, b: seq<nat>): nat {
    if a == [] then 0 else Cross(a[..|a| - 1], b) + Dist(a[|a| - 1], b)
  }

  /** Sum of |v[i] - v[j]| over all ordered pairs. */
  function AllPairs(v: seq<nat>): nat {
    Cross(v, v)
  }

  /** Sum of (i + 1) * v[i]. */
  function Weighted(v: seq<nat>): nat {
    if v == [] then 0 else Weighted(v[..|v| - 1]) + |v| * v[|v| - 1]
  }

  lemma {:induction false} CrossAppendRight(a: seq<nat>, b: seq<nat>, x: nat)
    ensures Cross(a, b + [x]) == Cross(a, b) + Dist(x, a)
  {
    if a != [] {
      CrossAppendRight(a[..|a| - 1], b, x);
      assert (b + [x])[..|b|] == b;
    }
  }

  lemma AllPairsAppend(v: seq<nat>, x: nat)
    ensures AllPairs(v + [x]) == AllPairs(v) + 2 * Dist(x, v)
  {
    assert (v + [x])[..|v|] == v;
    CrossAppendRight(v, v, x);
  }

  // ----- Order does not matter -----

  lemma {:induction false} DistRemove(x: int, v: seq<nat>, k: nat)
    requires k < |v|
    ensures Dist(x, v) == Dist(x, v[..k] + v[k + 1..]) + Abs(x - v[k])
  {
    var n := |v| - 1;
    if k < n {
      DistRemove(x, v[..n], k);
      assert v[..n][..k] + v[..n][k + 1..] == (v[..k] + v[k + 1..])[..n - 1];
      assert (v[..k] + v[k + 1..])[n - 1] == v[n];
    } else {
      assert v[..k] + v[k + 1..] == v[..n];
    }
  }

  lemma {:induction false} DistPermutes(x: int, a: seq<nat>, b: seq<nat>)
    requires multiset(a) == multiset(b)
    ensures Dist(x, a) == Dist(x, b)
  {
    if a == [] {
      assert |multiset(b)| == |b|;
    } else {
      var n := |a| - 1;
      MultisetOfLast(a);
      assert a[n] in multiset(b);
      var k :| 0 <= k < |b| && b[k] == a[n];
      MultisetWithout(b, k);
      assert multiset(a[..n]) == multiset(a) - multiset{a[n]};
      DistPermutes(x, a[..n], b[..k] + b[k + 1..]);
      DistRemove(x, b, k);
    }
  }

  lemma {:induction false} CrossSymmetric(a: seq<nat>, b: seq<nat>)
    ensures Cross(a, b) == Cross(b, a)
  {
    if a == [] {
      CrossEmpty(b);
    } else {
      var n := |a| - 1;
      CrossSymmetric(a[..n], b);
      CrossAppendRight(b, a[..n], a[n]);
      assert a == a[..n] + [a[n]];
    }
  }

  lemma {:induction false} CrossEmpty(b: seq<nat>)
    ensures Cross(b, []) == 0
  {
    if b != [] {
      CrossEmpty(b[..|b| - 1]);
    }
  }

  lemma {:induction false} CrossPermutes(a: seq<nat>, b: seq<nat>, c: seq<nat>)
    requires multiset(b) == multiset(c)
    ensures Cross(a, b) == Cross(a, c)
  {
    if a != [] {
      CrossPermutes(a[..|a| - 1], b, c);
      DistPermutes(a[|a| - 1], b, c);
    }
  }

  lemma AllPairsPermutes(a: seq<nat>, b: seq<nat>)
    requires multiset(a) == multiset(b)
    ensures AllPairs(a) == AllPairs(b)
  {
    CrossPermutes(a, a, b);
    CrossSymmetric(a, b);
    CrossPermutes(b, a, b);
  }

  lemma {:induction false} TotalIsDist(v: seq<nat>)
    ensures Total(v) == Dist(0, v)
  {
    if v != [] {
      TotalIsDist(v[..|v| - 1]);
    }
  }

  // ----- The sorted-index identity -----

  predicate Ascending(v: seq<nat>) {
    forall i, j :: 0 <= i < j < |v| ==> v[i] <= v[j]
  }

  lemma {:induction false} DistAbove(x: nat, v: seq<nat>)
    requires forall i :: 0 <= i < |v| ==> v[i] <= x
    ensures Dist(x, v) == |v| * x - Total(v)
  {
    if v != [] {
      DistAbove(x, v[..|v| - 1]);
      assert |v| * x == (|v| - 1) * x + x;
    }
  }

  lemma SortedStep(n: int, x: int, w: int, t: int, p: int)
    requires 2 * (2 * w - (n + 1) * t) == p
    ensures 2 * (2 * (w + (n + 1) * x) - (n + 2) * (t + x)) == p + 2 * (n * x - t)
  {
    assert (n + 1) * x == n * x + x;
    assert (n + 2) * (t + x) == (n + 1) * t + t + n * x + 2 * x;
  }

  /** 2 * (2 * sum (i + 1) v[i] - (n + 1) * sum v[i]) is the sum over all pairs. */
  lemma {:induction false} SortedIndexIdentity(v: seq<nat>)
    requires Ascending(v)
    ensures 2 * (2 * Weighted(v) - (|v| + 1) * Total(v)) == AllPairs(v)
  {
    if v != [] {
      var n := |v| - 1;
      var u, x := v[..n], v[n];
      assert v == u + [x];
      var w, t, p := Weighted(u), Total(u), AllPairs(u);
      assert Weighted(v) == w + (n + 1) * x && Total(v) == t + x;
      hide Weighted, Total, AllPairs;
      SortedIndexIdentity(u);
      AllPairsAppend(u, x);
      DistAbove(x, u);
      SortedStep(n, x, w, t, p);
    }
  }

  // ----- The extremes -----

  predicate AllEqual(v: seq<nat>) {
    forall i, j :: 0 <= i < |v| && 0 <= j < |v| ==> v[i] == v[j]
  }

  /** At most one agent has any citation. */
  predicate OneHub(v: seq<nat>) {
    forall i, j :: 0 <= i < j < |v| ==> v[i] == 0 || v[j] == 0
  }

  lemma {:induction false} DistZero(x: nat, v: seq<nat>)
    ensures Dist(x, v) == 0 <==> forall i :: 0 <= i < |v| ==> v[i] == x
  {
    if v != [] {
      DistZero(x, v[..|v| - 1]);
    }
  }

  lemma {:induction false} PairsZero(v: seq<nat>)
    ensures AllPairs(v) == 0 <==> AllEqual(v)
  {
    if v != [] {
      var n := |v| - 1;
      PairsZero(v[..n]);
      assert v == v[..n] + [v[n]];
      AllPairsAppend(v[..n], v[n]);
      DistZero(v[n], v[..n]);
    }
  }

  lemma {:induction false} DistBound(x: nat, v: seq<nat>)
    ensures Dist(x, v) <= |v| * x + Total(v)
    ensures Dist(x, v) == |v| * x + Total(v) <==> x == 0 || forall i :: 0 <= i < |v| ==> v[i] == 0
  {
    if v != [] {
      DistBound(x, v[..|v| - 1]);
      assert |v| * x == (|v| - 1) * x + x;
    }
  }

  lemma BoundStep(n: int, x: int, t: int)
    ensures 2 * n * (t + x) == 2 * (n - 1) * t + 2 * (n * x + t)
  {
    assert 2 * n * (t + x) == 2 * (n * t) + 2 * (n * x);
    assert 2 * (n - 1) * t == 2 * (n * t) - 2 * t;
  }

  lemma HubAppend(u: seq<nat>, x: nat)
    ensures OneHub(u + [x]) <==> OneHub(u) && (x == 0 || forall i :: 0 <= i < |u| ==> u[i] == 0)
  {
    var v := u + [x];
    if OneHub(v) {
      forall i, j | 0 <= i < j < |u| ensures u[i] == 0 || u[j] == 0 {
        assert v[i] == u[i] && v[j] == u[j];
      }
      forall i | 0 <= i < |u| && x != 0 ensures u[i] == 0 {
        assert v[i] == u[i] && v[|u|] == x;
      }
    }
  }

  lemma {:induction false} PairsBound(v: seq<nat>)
    requires v != []
    ensures AllPairs(v) <= 2 * (|v| - 1) * Total(v)
    ensures AllPairs(v) == 2 * (|v| - 1) * Total(v) <==> OneHub(v)
  {
    var n := |v| - 1;
    var u, x := v[..n], v[n];
    assert v == u + [x];
    assert Total(v) == Total(u) + x;
    AllPairsAppend(u, x);
    HubAppend(u, x);
    if n > 0 {
      hide Total, AllPairs, OneHub, Dist;
      PairsBound(u);
      DistBound(x, u);
      BoundStep(n, x, Total(u));
    }
  }

  // ----- The coefficient -----

  predicate Exceeds(x: nat, y: nat) {
    x > y
  }

  /** `sorted(values)`. */
  function Sorted(v: seq<nat>): seq<nat> {
    Sort(v, Exceeds)
  }

  lemma SortedFacts(v: seq<nat>)
    ensures Ascending(Sorted(v)) && multiset(Sorted(v)) == multiset(v) && |Sorted(v)| == |v|
  {
    SortSorts(v, Exceeds);
  }

  /** The formula of the source on sorted counts; None when nobody was cited. */
  function Coefficient(counts: seq<nat>): Option<real> {
    var v := Sorted(counts);
    var n, total := |v|, Total(v);
    if total == 0 then None
    else if n == 0 then None
    else Some((2 * Weighted(v)) as real / (n * total) as real - (n + 1) as real / n as real)
  }

  lemma FormulaAsFraction(w: int, n: int, t: int)
    requires n > 0 && t > 0
    ensures n * t > 0
    ensures (2 * w) as real / (n * t) as real - (n + 1) as real / n as real
      == (2 * (2 * w - (n + 1) * t)) as real / (2 * (n * t)) as real
  {
    var a, b := n as real, t as real;
    assert (n * t) as real == a * b;
    assert ((n + 1) * t) as real == (n + 1) as real * b;
    assert (n + 1) as real / a == ((n + 1) as real * b) / (a * b);
  }

  /** Gini = (sum of all pairwise absolute differences) / (2 * n * total), in roster order. */
  lemma GiniIsMeanDifference(counts: seq<nat>)
    ensures Coefficient(counts).None? <==> Total(counts) == 0
    ensures Total(counts) > 0 ==> |counts| * Total(counts) > 0
    ensures Total(counts) > 0 ==>
      Coefficient(counts) == Some(AllPairs(counts) as real / (2 * (|counts| * Total(counts))) as real)
  {
    hide AllPairs, Weighted, Dist, Sorted, Ascending;
    var v := Sorted(counts);
    SortedFacts(counts);
    TotalIsDist(counts);
    TotalIsDist(v);
    DistPermutes(0, v, counts);
    AllPairsPermutes(v, counts);
    SortedIndexIdentity(v);
    if Total(counts) > 0 {
      FormulaAsFraction(Weighted(v), |v|, Total(v));
    }
  }

  /** It lies in [0, (n - 1) / n], is 0 exactly for equal counts and (n - 1) / n exactly when
      one agent holds every citation. */
  lemma GiniExtremes(counts: seq<nat>)
    requires Total(counts) > 0
    ensures Coefficient(counts).Some? && |counts| > 0
    ensures var g, top := Coefficient(counts).value, (|counts| - 1) as real / |counts| as real;
      && 0.0 <= g <= top
      && (g == 0.0 <==> AllEqual(counts))
      && (g == top <==> OneHub(counts))
  {
    GiniIsMeanDifference(counts);
    PairsZero(counts);
    PairsBound(counts);
    FractionBounds(AllPairs(counts), |counts|, Total(counts));
  }

  lemma FractionBounds(p: int, n: int, t: int)
    requires n > 0 && t > 0 && 0 <= p <= 2 * (n - 1) * t
    ensures n * t > 0
    ensures var g, top := p as real / (2 * (n * t)) as real, (n - 1) as real / n as real;
      0.0 <= g <= top && (g == 0.0 <==> p == 0) && (g == top <==> p == 2 * (n - 1) * t)
  {
    var d := (2 * (n * t)) as real;
    assert d > 0.0;
    var g, top := p as real / d, (n - 1) as real / n as real;
    assert top * d == (2 * (n - 1) * t) as real by {
      assert d == n as real * (2 * t) as real;
      assert (2 * (n - 1) * t) as real == (n - 1) as real * (2 * t) as real;
    }
    assert g * d == p as real;
    Cancel(g, top, d);
    Cancel(0.0, g, d);
  }

  lemma Cancel(a: real, b: real, d: real)
    requires d > 0.0
    ensures a * d <= b * d <==> a <= b
    ensures a * d == b * d <==> a == b
  {
    if a < b {
      assert (b - a) * d > 0.0;
    }
    if b < a {
      assert (a - b) * d > 0.0;
    }
  }

  // ----- Counting the citations -----

  /** The citing agent counts `x` once, unless it failed or is `x` itself. */
  predicate Credits(d: (string, Decision), x: string) {
    !d.1.failed && x in d.1.cited && x != d.0
  }

  function Received(ds: seq<(string, Decision)>, x: string): nat {
    if ds == [] then 0 else Received(ds[..|ds| - 1], x) + (if Credits(ds[|ds| - 1], x) then 1 else 0)
  }

  function At(m: map<string, nat>, x: string): nat {
    if x in m then m[x] else 0
  }

  /** One citing agent: each known agent it cites gets one more. */
  method CreditAll(d: (string, Decision), known: set<string>,
      received: map<string, nat>) returns (next: map<string, nat>)
    requires !d.1.failed
    ensures forall x :: At(next, x) == At(received, x) + (if x in known && Credits(d, x) then 1 else 0)
  {
    next := received;
    var todo := set x | x in d.1.cited;
    while todo != {}
      invariant todo <= set x | x in d.1.cited
      invariant forall x ::
        At(next, x) == At(received, x) + (if x in known && Credits(d, x) && x !in todo then 1 else 0)
      decreases |todo|
    {
      var x :| x in todo;
      todo := todo - {x};
      if x in known && x != d.0 {
        next := next[x := At(next, x) + 1];
      }
    }
  }

  /** `citation_gini`: the coefficient of what each roster agent received, in roster order. */
  method CitationGini(ds: seq<(string, Decision)>, roster: seq<string>) returns (gini: Option<real>, counts: seq<nat>)
    ensures |counts| == |roster| && forall i :: 0 <= i < |roster| ==> counts[i] == Received(ds, roster[i])
    ensures gini == Coefficient(counts)
  {
    hide Sorted, Weighted, Total;
    var known := set x | x in roster;
    var received: map<string, nat> := map[];
    for k := 0 to |ds|
      invariant forall x :: x in known ==> At(received, x) == Received(ds[..k], x)
    {
      assert ds[..k + 1][..k] == ds[..k];
      if !ds[k].1.failed {
        received := CreditAll(ds[k], known, received);
      }
    }
    assert ds[..|ds|] == ds;
    counts := seq(|roster|, i requires 0 <= i < |roster| => At(received, roster[i]));
    gini := Coefficient(counts);
  }
}
