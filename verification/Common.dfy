/** Helpers shared by every module. */
module Common {
  datatype Option<+T> = None | Some(value: T)

  /** An agent's decision (types.py). */
  datatype Signal = Buy | Sell | Hold | ParseError

  function Min(a: int, b: int): int {
    if a <= b then a else b
  }

  function Max(a: int, b: int): int {
    if a >= b then a else b
  }

  ghost predicate Distinct<T>(s: seq<T>) {
    forall i, j :: 0 <= i < j < |s| ==> s[i] != s[j]
  }

  /** The elements in order of first occurrence: the key order of a dict. */
  function Firsts(ids: seq<string>): seq<string> {
    if ids == [] then []
    else
      var rest, id := Firsts(ids[..|ids| - 1]), ids[|ids| - 1];
      if id in rest then rest else rest + [id]
  }

  lemma {:induction false} FirstsAreDistinct(ids: seq<string>)
    ensures Distinct(Firsts(ids))
    ensures forall id :: id in Firsts(ids) <==> id in ids
  {
    if ids != [] {
      var n := |ids| - 1;
      FirstsAreDistinct(ids[..n]);
      assert ids == ids[..n] + [ids[n]];
    }
  }

  /** Taking out one element leaves the rest of the multiset. */
  lemma MultisetWithout<T>(s: seq<T>, k: nat)
    requires k < |s|
    ensures multiset(s) == multiset(s[..k] + s[k + 1..]) + multiset{s[k]}
  {
    assert s == s[..k] + [s[k]] + s[k + 1..];
  }

  lemma MultisetOfLast<T>(s: seq<T>)
    requires s != []
    ensures multiset(s) == multiset(s[..|s| - 1]) + multiset{s[|s| - 1]}
  {
    assert s == s[..|s| - 1] + [s[|s| - 1]];
  }

  /** How many elements satisfy `p`. */
  function Count<T>(s: seq<T>, p: T -> bool): (n: nat)
    ensures n <= |s|
  {
    if s == [] then 0 else Count(s[..|s| - 1], p) + (if p(s[|s| - 1]) then 1 else 0)
  }

  lemma {:induction false} CountWithout<T>(s: seq<T>, k: nat, p: T -> bool)
    requires k < |s|
    ensures Count(s, p) == Count(s[..k] + s[k + 1..], p) + (if p(s[k]) then 1 else 0)
  {
    var n := |s| - 1;
    if k < n {
      CountWithout(s[..n], k, p);
      assert s[..n][..k] + s[..n][k + 1..] == (s[..k] + s[k + 1..])[..n - 1];
    } else {
      assert s[..k] + s[k + 1..] == s[..n];
    }
  }

  /** Counting ignores order. */
  lemma {:induction false} CountPermutes<T>(a: seq<T>, b: seq<T>, p: T -> bool)
    requires multiset(a) == multiset(b)
    ensures Count(a, p) == Count(b, p)
  {
    if a == [] {
      assert |multiset(b)| == |b|;
    } else {
      var n := |a| - 1;
      MultisetOfLast(a);
      assert a[n] in multiset(b);
      var k :| 0 <= k < |b| && b[k] == a[n];
      MultisetWithout(b, k);
      assert multiset(a[..n]) == multiset(a) - multiset{a[n]};
      CountPermutes(a[..n], b[..k] + b[k + 1..], p);
      CountWithout(b, k, p);
    }
  }
}
