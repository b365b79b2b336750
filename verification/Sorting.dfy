/** Python's `sorted`: a stable sort, by whatever comes after what. */
module Sorting {
  import opened Common

  function Insert<T>(r: seq<T>, x: T, after: (T, T) -> bool): seq<T> {
    if r != [] && after(r[|r| - 1], x) then Insert(r[..|r| - 1], x, after) + [r[|r| - 1]] else r + [x]
  }

  function Sort<T>(s: seq<T>, after: (T, T) -> bool): seq<T> {
    if s == [] then [] else Insert(Sort(s[..|s| - 1], after), s[|s| - 1], after)
  }

  /** A strict order in which being tied is transitive, as for keys compared by `<`. */
  ghost predicate Orders<T(!new)>(after: (T, T) -> bool) {
    && (forall a, b :: after(a, b) ==> !after(b, a))
    && (forall a, b, c :: !after(a, b) && !after(b, c) ==> !after(a, c))
  }

  ghost predicate Ordered<T>(r: seq<T>, after: (T, T) -> bool) {
    forall i, j :: 0 <= i < j < |r| ==> !after(r[i], r[j])
  }

  lemma {:induction false} InsertSorts<T(!new)>(r: seq<T>, x: T, after: (T, T) -> bool)
    requires Orders(after) && Ordered(r, after)
    ensures Ordered(Insert(r, x, after), after)
    ensures multiset(Insert(r, x, after)) == multiset(r) + multiset{x}
  {
    if r != [] && after(r[|r| - 1], x) {
      var u, last := r[..|r| - 1], r[|r| - 1];
      InsertSorts(u, x, after);
      MultisetOfLast(r);
      NoneAfter(Insert(u, x, after), u, x, last, after);
    } else if r != [] {
      AtTheEnd(r, x, after);
    }
  }

  lemma NoneAfter<T>(q: seq<T>, u: seq<T>, x: T, last: T, after: (T, T) -> bool)
    requires multiset(q) == multiset(u) + multiset{x} && !after(x, last)
    requires forall i :: 0 <= i < |u| ==> !after(u[i], last)
    ensures forall i :: 0 <= i < |q| ==> !after(q[i], last)
  {
    forall i | 0 <= i < |q| ensures !after(q[i], last) {
      assert q[i] in multiset(q);
      assert q[i] in u || q[i] == x;
    }
  }

  lemma AtTheEnd<T(!new)>(r: seq<T>, x: T, after: (T, T) -> bool)
    requires Orders(after) && Ordered(r, after) && r != [] && !after(r[|r| - 1], x)
    ensures Ordered(r + [x], after) && multiset(r + [x]) == multiset(r) + multiset{x}
  {
    var last := r[|r| - 1];
    assert !after(last, last);
    forall i | 0 <= i < |r| ensures !after(r[i], x) {
      assert !after(r[i], last);
    }
  }

  /** Sorting sorts, and changes nothing but the order. */
  lemma {:induction false} SortSorts<T(!new)>(s: seq<T>, after: (T, T) -> bool)
    requires Orders(after)
    ensures Ordered(Sort(s, after), after)
    ensures multiset(Sort(s, after)) == multiset(s) && |Sort(s, after)| == |s|
  {
    hide Orders, Insert;
    if s != [] {
      var n := |s| - 1;
      SortSorts(s[..n], after);
      InsertSorts(Sort(s[..n], after), s[n], after);
      assert s == s[..n] + [s[n]];
    }
    assert |multiset(Sort(s, after))| == |Sort(s, after)| && |multiset(s)| == |s|;
  }

  /** The elements neither before nor after `k`, in order. */
  function Tied<T>(s: seq<T>, k: T, after: (T, T) -> bool): seq<T> {
    if s == [] then []
    else
      var last := s[|s| - 1];
      Tied(s[..|s| - 1], k, after) + (if !after(last, k) && !after(k, last) then [last] else [])
  }

  lemma {:induction false} InsertKeepsTies<T(!new)>(r: seq<T>, x: T, k: T, after: (T, T) -> bool)
    requires Orders(after)
    ensures Tied(Insert(r, x, after), k, after) == Tied(r + [x], k, after)
  {
    assert (r + [x])[..|r|] == r;
    if r != [] && after(r[|r| - 1], x) {
      var u, last := r[..|r| - 1], r[|r| - 1];
      InsertKeepsTies(u, x, k, after);
      assert (u + [x])[..|u|] == u;
      assert (Insert(u, x, after) + [last])[..|Insert(u, x, after)|] == Insert(u, x, after);
    }
  }

  /** Stability: elements tied with each other keep their order. */
  lemma {:induction false} SortIsStable<T(!new)>(s: seq<T>, k: T, after: (T, T) -> bool)
    requires Orders(after)
    ensures Tied(Sort(s, after), k, after) == Tied(s, k, after)
  {
    hide Orders, Insert;
    if s != [] {
      var n := |s| - 1;
      SortIsStable(s[..n], k, after);
      var r := Sort(s[..n], after);
      InsertKeepsTies(r, s[n], k, after);
      assert (r + [s[n]])[..|r|] == r;
    }
  }

  /** Nothing is tied with anything else. */
  ghost predicate Total<T(!new)>(after: (T, T) -> bool) {
    forall a, b :: after(a, b) || after(b, a) || a == b
  }

  lemma SameLast<T(!new)>(a: seq<T>, b: seq<T>, after: (T, T) -> bool)
    requires Total(after) && Ordered(a, after) && Ordered(b, after) && multiset(a) == multiset(b) && a != [] && b != []
    ensures a[|a| - 1] == b[|b| - 1]
  {
    var x, y := a[|a| - 1], b[|b| - 1];
    assert x in multiset(b) && y in multiset(a);
    var i :| 0 <= i < |a| && a[i] == y;
    var j :| 0 <= j < |b| && b[j] == x;
    assert !after(y, x) || i == |a| - 1;
    assert !after(x, y) || j == |b| - 1;
  }

  /** Under a total order the sorted form depends on the elements alone. */
  lemma {:induction false} OrderedIsUnique<T(!new)>(a: seq<T>, b: seq<T>, after: (T, T) -> bool)
    requires Total(after) && Ordered(a, after) && Ordered(b, after) && multiset(a) == multiset(b)
    ensures a == b
  {
    hide Total, Ordered;
    assert |multiset(a)| == |a| && |multiset(b)| == |b|;
    if a != [] {
      var n := |a| - 1;
      SameLast(a, b, after);
      FrontOrdered(a, after);
      FrontOrdered(b, after);
      SameFront(a, b);
      OrderedIsUnique(a[..n], b[..n], after);
      assert a == a[..n] + [a[n]] && b == b[..n] + [b[n]];
    }
  }

  lemma FrontOrdered<T>(r: seq<T>, after: (T, T) -> bool)
    requires r != [] && Ordered(r, after)
    ensures Ordered(r[..|r| - 1], after)
  {
  }

  lemma SameFront<T>(a: seq<T>, b: seq<T>)
    requires |a| == |b| > 0 && multiset(a) == multiset(b) && a[|a| - 1] == b[|b| - 1]
    ensures multiset(a[..|a| - 1]) == multiset(b[..|b| - 1])
  {
    MultisetOfLast(a);
    MultisetOfLast(b);
    assert multiset(a[..|a| - 1]) == multiset(a) - multiset{a[|a| - 1]};
    assert multiset(b[..|b| - 1]) == multiset(b) - multiset{b[|b| - 1]};
  }

  // ----- Strings -----

  predicate Less(a: string, b: string) {
    if b == "" then false
    else if a == "" then true
    else if a[0] != b[0] then a[0] < b[0]
    else Less(a[1..], b[1..])
  }

  predicate Greater(a: string, b: string) {
    Less(b, a)
  }

  /** The order of a dictionary: a proper beginning comes first, otherwise the first difference decides. */
  lemma {:induction false} LessIsLexicographic(a: string, b: string)
    ensures Less(a, b) <==>
      (a <= b && a != b) || exists i :: 0 <= i < |a| && i < |b| && a[..i] == b[..i] && a[i] < b[i]
  {
    if a != "" && b != "" {
      if a[0] == b[0] {
        LessIsLexicographic(a[1..], b[1..]);
        SameHead(a, b);
      } else {
        assert a[..0] == b[..0];
      }
    }
  }

  lemma SameHead(a: string, b: string)
    requires a != "" && b != "" && a[0] == b[0]
    ensures a <= b && a != b <==> a[1..] <= b[1..] && a[1..] != b[1..]
    ensures (exists i :: 0 <= i < |a| && i < |b| && a[..i] == b[..i] && a[i] < b[i]) <==>
      exists i :: 0 <= i < |a[1..]| && i < |b[1..]| && a[1..][..i] == b[1..][..i] && a[1..][i] < b[1..][i]
  {
    assert a == [a[0]] + a[1..] && b == [b[0]] + b[1..];
    if i :| 0 <= i < |a| && i < |b| && a[..i] == b[..i] && a[i] < b[i] {
      assert a[1..][..i - 1] == a[..i][1..] && b[1..][..i - 1] == b[..i][1..];
      assert a[1..][i - 1] < b[1..][i - 1];
    }
    if i :| 0 <= i < |a[1..]| && i < |b[1..]| && a[1..][..i] == b[1..][..i] && a[1..][i] < b[1..][i] {
      assert a[..i + 1] == [a[0]] + a[1..][..i] && b[..i + 1] == [b[0]] + b[1..][..i];
      assert a[i + 1] < b[i + 1];
    }
  }

  lemma {:induction false} LessIsAsymmetric(a: string, b: string)
    ensures Less(a, b) ==> !Less(b, a)
    ensures Less(a, b) || Less(b, a) || a == b
  {
    if a != "" && b != "" && a[0] == b[0] {
      LessIsAsymmetric(a[1..], b[1..]);
      assert a == [a[0]] + a[1..] && b == [b[0]] + b[1..];
    }
  }

  lemma {:induction false} LessIsTransitive(a: string, b: string, c: string)
    ensures !Less(b, a) && !Less(c, b) ==> !Less(c, a)
  {
    if a != "" && b != "" && c != "" && a[0] == b[0] == c[0] {
      LessIsTransitive(a[1..], b[1..], c[1..]);
    }
  }

  lemma StringsAreOrdered()
    ensures Orders(Greater) && Total(Greater)
  {
    forall a, b ensures Greater(a, b) ==> !Greater(b, a) {
      LessIsAsymmetric(a, b);
    }
    forall a, b ensures Greater(a, b) || Greater(b, a) || a == b {
      LessIsAsymmetric(a, b);
    }
    forall a, b, c ensures !Greater(a, b) && !Greater(b, c) ==> !Greater(a, c) {
      LessIsTransitive(a, b, c);
    }
  }

  /** `sorted(ids)`. */
  function SortedIds(ids: seq<string>): seq<string> {
    Sort(ids, Greater)
  }

  /** It depends on the ids alone, not on the order they came in. */
  lemma SortedIdsIgnoreOrder(a: seq<string>, b: seq<string>)
    requires multiset(a) == multiset(b)
    ensures SortedIds(a) == SortedIds(b)
    ensures multiset(SortedIds(a)) == multiset(a) && |SortedIds(a)| == |a|
  {
    StringsAreOrdered();
    SortSorts(a, Greater);
    SortSorts(b, Greater);
    OrderedIsUnique(SortedIds(a), SortedIds(b), Greater);
  }
}
