/** `select_diverse_peers` of src/alphaswarm/peers.py: a two-phase greedy selection under a
    hard cap per bracket. Random draws and the shuffle are arbitrary. */
module PeerSelection {
  import opened Common
  import opened Sorting

  datatype Persona = Persona(id: string, bracket: string)

  /** A float weight; infinities and NaN have no order. */
  datatype Weight = Finite(value: real) | NotFinite

  /** Efraimidis-Spirakis key: reach first, then the scaled log of the draw. */
  datatype Key = Key(hasReach: bool, score: real)

  predicate Below(a: Key, b: Key) {
    if a.hasReach != b.hasReach then b.hasReach else a.score < b.score
  }

  function Reach(w: Weight): real {
    if w.Finite? && w.value > 0.0 then w.value else 0.0
  }

  function SamplingKey(logDraw: real, weight: real): Key {
    if weight > 0.0 then Key(true, logDraw / weight) else Key(false, logDraw)
  }

  /** No id stands in two brackets. */
  ghost predicate OneBracket(ps: seq<Persona>) {
    forall i, j :: 0 <= i < |ps| && 0 <= j < |ps| && ps[i].id == ps[j].id ==> ps[i].bracket == ps[j].bracket
  }

  ghost predicate UniqueIds(ps: seq<Persona>) {
    forall i, j :: 0 <= i < j < |ps| ==> ps[i].id != ps[j].id
  }

  // ----- Python's stable descending sort -----

  function Outranks(key: string -> Key): (string, string) -> bool {
    (x, y) => Below(key(x), key(y))
  }

  /** `sorted(ids, key=key, reverse=True)`: equal keys keep their order. */
  function Ranked(ids: seq<string>, key: string -> Key): seq<string> {
    Sort(ids, Outranks(key))
  }

  ghost predicate Descending(r: seq<string>, key: string -> Key) {
    forall i, j :: 0 <= i < j < |r| ==> !Below(key(r[i]), key(r[j]))
  }

  lemma RankedSorts(ids: seq<string>, key: string -> Key)
    ensures Descending(Ranked(ids, key), key)
    ensures multiset(Ranked(ids, key)) == multiset(ids)
    ensures forall k :: Tied(Ranked(ids, key), k, Outranks(key)) == Tied(ids, k, Outranks(key))
  {
    KeysAreOrdered(key);
    hide Orders;
    SortSorts(ids, Outranks(key));
    forall k ensures Tied(Ranked(ids, key), k, Outranks(key)) == Tied(ids, k, Outranks(key)) {
      SortIsStable(ids, k, Outranks(key));
    }
    var r := Ranked(ids, key);
    forall i, j | 0 <= i < j < |r| ensures !Below(key(r[i]), key(r[j])) {
      assert !Outranks(key)(r[i], r[j]);
    }
  }

  lemma KeysAreOrdered(key: string -> Key)
    ensures Orders(Outranks(key))
  {
  }

  lemma DistinctByMultiset<T>(a: seq<T>, b: seq<T>)
    requires multiset(a) == multiset(b) && Distinct(a)
    ensures Distinct(b) && |a| == |b| && forall x :: x in a <==> x in b
  {
    assert |multiset(a)| == |a| && |multiset(b)| == |b|;
    forall i, j | 0 <= i < j < |b| ensures b[i] != b[j] {
      if b[i] == b[j] {
        assert b == b[..i] + [b[i]] + b[i + 1..j] + [b[j]] + b[j + 1..];
        assert multiset(b)[b[i]] >= 2;
        CountOne(a, b[i]);
      }
    }
    forall x ensures x in a <==> x in b {
      assert x in a <==> x in multiset(a);
      assert x in b <==> x in multiset(b);
    }
  }

  lemma {:induction false} CountOne<T>(a: seq<T>, x: T)
    requires Distinct(a)
    ensures multiset(a)[x] <= 1
  {
    if a != [] {
      var b := a[..|a| - 1];
      CountOne(b, x);
      assert a == b + [a[|a| - 1]];
      assert x in b <==> x in multiset(b);
    }
  }

  // ----- Candidates and brackets -----

  predicate Eligible(p: Persona, reader: string, prev: map<string, Signal>) {
    p.id != reader && !(p.id in prev && prev[p.id] == ParseError)
  }

  function Candidates(ps: seq<Persona>, reader: string, prev: map<string, Signal>): (cs: seq<Persona>)
    ensures forall c :: c in cs <==> c in ps && Eligible(c, reader, prev)
  {
    if ps == [] then []
    else
      var cs := Candidates(ps[1..], reader, prev);
      if Eligible(ps[0], reader, prev) then [ps[0]] + cs else cs
  }

  function Ids(cs: seq<Persona>): (ids: seq<string>)
    ensures |ids| == |cs| && forall i :: 0 <= i < |cs| ==> ids[i] == cs[i].id
    ensures UniqueIds(cs) ==> Distinct(ids)
  {
    seq(|cs|, i requires 0 <= i < |cs| => cs[i].id)
  }

  /** The members of bracket `b`, in roster order. */
  function Members(cs: seq<Persona>, b: string): (ids: seq<string>)
    ensures forall x :: x in ids <==> exists i :: 0 <= i < |cs| && cs[i].id == x && cs[i].bracket == b
  {
    if cs == [] then []
    else
      var n := |cs| - 1;
      Members(cs[..n], b) + (if cs[n].bracket == b then [cs[n].id] else [])
  }

  lemma CandidatesInOneBracket(ps: seq<Persona>, reader: string, prev: map<string, Signal>)
    requires OneBracket(ps)
    ensures OneBracket(Candidates(ps, reader, prev))
  {
    var cs := Candidates(ps, reader, prev);
    forall i, j | 0 <= i < |cs| && 0 <= j < |cs| && cs[i].id == cs[j].id ensures cs[i].bracket == cs[j].bracket {
      assert cs[i] in cs && cs[j] in cs;
    }
  }

  /** The brackets in the order they first appear: the key order of the `members` dict. */
  function Brackets(cs: seq<Persona>): (bs: seq<string>)
    ensures Distinct(bs)
    ensures forall b :: b in bs <==> exists i :: 0 <= i < |cs| && cs[i].bracket == b
  {
    if cs == [] then []
    else
      var n := |cs| - 1;
      var bs := Brackets(cs[..n]);
      if cs[n].bracket in bs then bs else bs + [cs[n].bracket]
  }

  /** They are the different brackets of the candidates, in that order. */
  lemma {:induction false} BracketsAreFirsts(cs: seq<Persona>)
    ensures Brackets(cs) == Firsts(seq(|cs|, i requires 0 <= i < |cs| => cs[i].bracket))
  {
    var all := seq(|cs|, i requires 0 <= i < |cs| => cs[i].bracket);
    if cs != [] {
      var n := |cs| - 1;
      BracketsAreFirsts(cs[..n]);
      assert all[..n] == seq(n, i requires 0 <= i < n => cs[..n][i].bracket);
    }
  }

  function BracketOf(cs: seq<Persona>): (m: map<string, string>)
    requires OneBracket(cs)
    ensures forall i :: 0 <= i < |cs| ==> cs[i].id in m && m[cs[i].id] == cs[i].bracket
    ensures forall x :: x in m ==> exists i :: 0 <= i < |cs| && cs[i].id == x
  {
    OwnBracket(cs);
    assert forall i :: 0 <= i < |cs| ==> cs[i] in cs;
    IdBrackets(cs)
  }

  /** `{p.id: p.bracket}`: the last persona of an id wins. */
  function IdBrackets(cs: seq<Persona>): (m: map<string, string>)
    ensures forall p :: p in cs ==> p.id in m
    ensures forall x :: x in m ==> Persona(x, m[x]) in cs
  {
    if cs == [] then map[]
    else
      var n := |cs| - 1;
      assert cs == cs[..n] + [cs[n]];
      IdBrackets(cs[..n])[cs[n].id := cs[n].bracket]
  }

  lemma {:induction false} LastPersonaCounts(cs: seq<Persona>, p: Persona, rest: seq<Persona>)
    requires forall q :: q in rest ==> q.id != p.id
    ensures p.id in IdBrackets(cs + [p] + rest) && IdBrackets(cs + [p] + rest)[p.id] == p.bracket
  {
    var all := cs + [p] + rest;
    LastEntry(all);
    hide IdBrackets;
    if rest == [] {
      assert all[|all| - 1] == p;
    } else {
      var n := |rest| - 1;
      assert all[..|all| - 1] == cs + [p] + rest[..n] && all[|all| - 1] == rest[n];
      LastPersonaCounts(cs, p, rest[..n]);
    }
  }

  lemma LastEntry(cs: seq<Persona>)
    requires cs != []
    ensures var p := cs[|cs| - 1]; IdBrackets(cs) == IdBrackets(cs[..|cs| - 1])[p.id := p.bracket]
  {
  }

  lemma OwnBracket(cs: seq<Persona>)
    requires OneBracket(cs)
    ensures forall i :: 0 <= i < |cs| ==> cs[i].id in IdBrackets(cs) && IdBrackets(cs)[cs[i].id] == cs[i].bracket
  {
    hide IdBrackets;
    forall i | 0 <= i < |cs| ensures cs[i].id in IdBrackets(cs) && IdBrackets(cs)[cs[i].id] == cs[i].bracket {
      assert cs[i] in cs;
      var j :| 0 <= j < |cs| && cs[j] == Persona(cs[i].id, IdBrackets(cs)[cs[i].id]);
      assert cs[i].bracket == cs[j].bracket;
    }
  }

  /** How many peers the hard cap leaves room for. */
  ghost function Capacity(cs: seq<Persona>, bs: seq<string>, cap: int): int {
    if bs == [] then 0
    else Capacity(cs, bs[..|bs| - 1], cap) + Min(cap, |AsSet(Members(cs, bs[|bs| - 1]))|)
  }

  // ----- Counting a selection by bracket -----

  ghost function InBracket(s: set<string>, bracketOf: map<string, string>, b: string): set<string> {
    set x | x in s && x in bracketOf && bracketOf[x] == b
  }

  ghost function CountIn(s: set<string>, bracketOf: map<string, string>, bs: seq<string>): int {
    if bs == [] then 0
    else CountIn(s, bracketOf, bs[..|bs| - 1]) + |InBracket(s, bracketOf, bs[|bs| - 1])|
  }

  /** The bracket counts of a selection add up to its size. */
  lemma {:induction false} CountsAddUp(s: set<string>, bracketOf: map<string, string>, bs: seq<string>)
    requires Distinct(bs) && s <= bracketOf.Keys
    ensures CountIn(s, bracketOf, bs) == |set x | x in s && bracketOf[x] in bs|
  {
    var t := set x | x in s && bracketOf[x] in bs;
    if bs == [] {
      assert t == {};
    } else {
      var n := |bs| - 1;
      CountsAddUp(s, bracketOf, bs[..n]);
      var u := set x | x in s && bracketOf[x] in bs[..n];
      var v := InBracket(s, bracketOf, bs[n]);
      assert t == u + v;
      assert u !! v;
    }
  }

  lemma SetOfDistinct(s: seq<string>)
    requires Distinct(s)
    ensures |set x | x in s| == |s|
  {
    if s != [] {
      var r := s[..|s| - 1];
      SetOfDistinct(r);
      assert (set x | x in s) == (set x | x in r) + {s[|s| - 1]};
      assert s[|s| - 1] !in (set x | x in r);
    }
  }

  // ----- A selection in progress -----

  ghost function AsSet(s: seq<string>): set<string> {
    set x | x in s
  }

  /** A duplicate-free choice of candidates with its per-bracket counters, under the cap. */
  ghost predicate Counted(cs: seq<Persona>, sel: seq<string>, per: map<string, int>, cap: int)
    requires OneBracket(cs)
  {
    && Distinct(sel)
    && AsSet(sel) <= BracketOf(cs).Keys
    && forall b :: b in Brackets(cs) ==>
         b in per && per[b] == |InBracket(AsSet(sel), BracketOf(cs), b)| <= cap
  }

  lemma CountAfterAdd(s: set<string>, m: map<string, string>, x: string, b: string)
    requires x !in s && x in m
    ensures |InBracket(s + {x}, m, b)| == |InBracket(s, m, b)| + (if b == m[x] then 1 else 0)
  {
    if b == m[x] {
      assert InBracket(s + {x}, m, b) == InBracket(s, m, b) + {x};
    } else {
      assert InBracket(s + {x}, m, b) == InBracket(s, m, b);
    }
  }

  lemma AddPeer(cs: seq<Persona>, sel: seq<string>, per: map<string, int>, cap: int, i: nat)
    requires OneBracket(cs) && Counted(cs, sel, per, cap) && i < |cs| && cs[i].id !in sel
    requires cs[i].bracket in per && per[cs[i].bracket] < cap
    ensures Counted(cs, sel + [cs[i].id], per[cs[i].bracket := per[cs[i].bracket] + 1], cap)
  {
    hide BracketOf, Brackets, InBracket;
    var x := cs[i].id;
    assert AsSet(sel + [x]) == AsSet(sel) + {x};
    forall b | b in Brackets(cs)
      ensures |InBracket(AsSet(sel) + {x}, BracketOf(cs), b)|
           == |InBracket(AsSet(sel), BracketOf(cs), b)| + (if b == cs[i].bracket then 1 else 0)
    {
      CountAfterAdd(AsSet(sel), BracketOf(cs), x, b);
    }
  }

  /** No candidate of a bracket is passed over for one with a smaller key. */
  ghost predicate TopOfBracket(cs: seq<Persona>, sel: seq<string>, key: string -> Key) {
    forall i, j ::
      (0 <= i < |cs| && 0 <= j < |cs| && cs[i].id in sel && cs[i].bracket == cs[j].bracket
       && Below(key(cs[i].id), key(cs[j].id)))
      ==> cs[j].id in sel
  }

  /** Every candidate is chosen or belongs to a bracket that is full. */
  ghost predicate Saturated(cs: seq<Persona>, sel: seq<string>, per: map<string, int>, cap: int) {
    forall i :: 0 <= i < |cs| ==> cs[i].id in sel || (cs[i].bracket in per && per[cs[i].bracket] >= cap)
  }

  lemma BracketCount(cs: seq<Persona>, sel: seq<string>, per: map<string, int>, cap: int, b: string)
    requires OneBracket(cs) && Counted(cs, sel, per, cap) && b in Brackets(cs)
    ensures per[b] <= Min(cap, |AsSet(Members(cs, b))|)
    ensures Saturated(cs, sel, per, cap) ==> per[b] == Min(cap, |AsSet(Members(cs, b))|)
  {
    hide BracketOf, Brackets;
    var chosen, all := InBracket(AsSet(sel), BracketOf(cs), b), AsSet(Members(cs, b));
    assert per[b] == |chosen| <= cap;
    ChosenAreMembers(cs, sel, b);
    CardinalityOfSubset(chosen, all);
    if Saturated(cs, sel, per, cap) && per[b] < cap {
      AllMembersChosen(cs, sel, per, cap, b);
    }
  }

  lemma ChosenAreMembers(cs: seq<Persona>, sel: seq<string>, b: string)
    requires OneBracket(cs) && AsSet(sel) <= BracketOf(cs).Keys
    ensures InBracket(AsSet(sel), BracketOf(cs), b) <= AsSet(Members(cs, b))
  {
  }

  lemma AllMembersChosen(cs: seq<Persona>, sel: seq<string>, per: map<string, int>, cap: int, b: string)
    requires OneBracket(cs) && AsSet(sel) <= BracketOf(cs).Keys
    requires Saturated(cs, sel, per, cap) && b in per && per[b] < cap
    ensures InBracket(AsSet(sel), BracketOf(cs), b) == AsSet(Members(cs, b))
  {
    ChosenAreMembers(cs, sel, b);
    forall x | x in Members(cs, b) ensures x in InBracket(AsSet(sel), BracketOf(cs), b) {
      var i :| 0 <= i < |cs| && cs[i].id == x && cs[i].bracket == b;
    }
  }

  lemma CardinalityOfSubset<T>(a: set<T>, b: set<T>)
    requires a <= b
    ensures |a| <= |b|
  {
    assert b == a + (b - a);
  }

  lemma {:induction false} CapacityBound(cs: seq<Persona>, sel: seq<string>, per: map<string, int>, cap: int,
      bs: seq<string>)
    requires OneBracket(cs) && Counted(cs, sel, per, cap) && forall b :: b in bs ==> b in Brackets(cs)
    ensures CountIn(AsSet(sel), BracketOf(cs), bs) <= Capacity(cs, bs, cap)
    ensures Saturated(cs, sel, per, cap) ==> CountIn(AsSet(sel), BracketOf(cs), bs) == Capacity(cs, bs, cap)
  {
    if bs != [] {
      CapacityBound(cs, sel, per, cap, bs[..|bs| - 1]);
      BracketCount(cs, sel, per, cap, bs[|bs| - 1]);
    }
  }

  /** A saturated selection has the size of the capacity; any selection has at most that. */
  lemma SelectionSize(cs: seq<Persona>, sel: seq<string>, per: map<string, int>, cap: int)
    requires OneBracket(cs) && Counted(cs, sel, per, cap)
    ensures |sel| <= Capacity(cs, Brackets(cs), cap)
    ensures Saturated(cs, sel, per, cap) ==> |sel| == Capacity(cs, Brackets(cs), cap)
  {
    var m, s, bs := BracketOf(cs), AsSet(sel), Brackets(cs);
    CountsAddUp(s, m, bs);
    forall x | x in s ensures m[x] in bs {
      var i :| 0 <= i < |cs| && cs[i].id == x;
    }
    assert (set x | x in s && m[x] in bs) == s;
    SetOfDistinct(sel);
    CapacityBound(cs, sel, per, cap, bs);
  }

  // ----- The method -----

  /** What the selection promises of its result, whatever the draws were. */
  ghost predicate GoodSelection(
    cs: seq<Persona>, key: string -> Key, sel: seq<string>, limit: int, minBrackets: int, cap: int)
    requires OneBracket(cs)
  {
    && Distinct(sel)
    && AsSet(sel) <= AsSet(Ids(cs))
    && |sel| == Min(Max(0, limit), Capacity(cs, Brackets(cs), cap))
    && (forall b :: b in Brackets(cs) ==> |InBracket(AsSet(sel), BracketOf(cs), b)| <= cap)
    && TopOfBracket(cs, sel, key)
    && |BracketsOf(cs, sel)| >= Min(minBrackets, Min(limit, |Brackets(cs)|))
  }

  ghost function BracketsOf(cs: seq<Persona>, sel: seq<string>): set<string>
    requires OneBracket(cs)
  {
    set x | x in sel && x in BracketOf(cs) :: BracketOf(cs)[x]
  }

  /** `max(ids, key=key)`: the first of the largest. */
  method MaxByKey(ids: seq<string>, key: string -> Key) returns (best: string)
    requires ids != []
    ensures best in ids && forall x :: x in ids ==> !Below(key(best), key(x))
    ensures exists i :: 0 <= i < |ids| && ids[i] == best && forall j :: 0 <= j < i ==> Below(key(ids[j]), key(best))
  {
    best := ids[0];
    var at := 0;
    for i := 1 to |ids|
      invariant 0 <= at < i && best == ids[at] && forall j :: 0 <= j < i ==> !Below(key(best), key(ids[j]))
      invariant forall j :: 0 <= j < at ==> Below(key(ids[j]), key(best))
    {
      if Below(key(best), key(ids[i])) {
        best, at := ids[i], i;
      }
    }
  }

  /** The `members` dict: brackets in order of first appearance, members in roster order. */
  method GroupByBracket(cs: seq<Persona>) returns (order: seq<string>, members: map<string, seq<string>>)
    ensures order == Brackets(cs)
    ensures members.Keys == AsSet(order)
    ensures forall b :: b in members ==> members[b] == Members(cs, b)
  {
    order, members := [], map[];
    for i := 0 to |cs|
      invariant order == Brackets(cs[..i])
      invariant members.Keys == AsSet(order)
      invariant forall b :: b in members ==> members[b] == Members(cs[..i], b)
    {
      assert cs[..i + 1][..i] == cs[..i];
      var b := cs[i].bracket;
      if b !in members {
        NoMembers(cs[..i], b);
        order := order + [b];
        members := members[b := []];
      }
      members := members[b := members[b] + [cs[i].id]];
    }
    assert cs[..|cs|] == cs;
  }

  lemma {:induction false} NoMembers(cs: seq<Persona>, b: string)
    requires b !in Brackets(cs)
    ensures Members(cs, b) == []
  {
    if cs != [] {
      var n := |cs| - 1;
      assert cs[n].bracket != b;
      assert b !in Brackets(cs[..n]);
      NoMembers(cs[..n], b);
    }
  }

  /** Phase 1 after `i` brackets: one top member from each. */
  ghost predicate Guaranteed(cs: seq<Persona>, key: string -> Key, ranked: seq<string>, sel: seq<string>, i: int) {
    && 0 <= i == |sel| <= |ranked|
    && forall k :: 0 <= k < i ==>
         && sel[k] in Members(cs, ranked[k])
         && forall x :: x in Members(cs, ranked[k]) ==> !Below(key(sel[k]), key(x))
  }

  /** Samples the guaranteed brackets, one peer from each. */
  method PhaseOne(cs: seq<Persona>, key: string -> Key, members: map<string, seq<string>>, ranked: seq<string>,
      n: nat, cap: int)
    returns (sel: seq<string>, per: map<string, int>)
    requires cap >= 1 && n <= |ranked|
    requires Distinct(ranked) && members.Keys == AsSet(Brackets(cs)) == AsSet(ranked)
    requires forall b :: b in members ==> members[b] == Members(cs, b)
    ensures Guaranteed(cs, key, ranked, sel, n) && per.Keys == members.Keys
    ensures OneBracket(cs) ==> Counted(cs, sel, per, cap)
  {
    hide Counted, Guaranteed, Brackets, Members, BracketOf, OneBracket;
    sel := [];
    per := map b | b in members :: 0;
    NothingChosen(cs, key, ranked, per, cap);
    for i := 0 to n
      invariant Guaranteed(cs, key, ranked, sel, i)
      invariant OneBracket(cs) ==> Counted(cs, sel, per, cap)
      invariant per.Keys == members.Keys && forall k :: i <= k < |ranked| ==> per[ranked[k]] == 0
    {
      var b := ranked[i];
      assert b in AsSet(ranked);
      MembersNonempty(cs, b);
      var best := MaxByKey(members[b], key);
      OneMoreTop(cs, key, ranked, sel, i, best);
      if OneBracket(cs) {
        PhaseOneStep(cs, key, ranked, sel, per, cap, i, best);
      }
      sel := sel + [best];
      per := per[b := per[b] + 1];
    }
  }

  lemma OneMoreTop(cs: seq<Persona>, key: string -> Key, ranked: seq<string>, sel: seq<string>, i: nat, best: string)
    requires Guaranteed(cs, key, ranked, sel, i) && i < |ranked| && best in Members(cs, ranked[i])
    requires forall x :: x in Members(cs, ranked[i]) ==> !Below(key(best), key(x))
    ensures Guaranteed(cs, key, ranked, sel + [best], i + 1)
  {
  }

  lemma PhaseOneStep(
    cs: seq<Persona>, key: string -> Key, ranked: seq<string>, sel: seq<string>, per: map<string, int>, cap: int,
    i: nat, best: string)
    requires OneBracket(cs) && Distinct(ranked) && i < |ranked| && cap >= 1
    requires Counted(cs, sel, per, cap) && Guaranteed(cs, key, ranked, sel, i)
    requires ranked[i] in per && per[ranked[i]] == 0 && best in Members(cs, ranked[i])
    requires forall x :: x in Members(cs, ranked[i]) ==> !Below(key(best), key(x))
    ensures Counted(cs, sel + [best], per[ranked[i] := per[ranked[i]] + 1], cap)
  {
    hide Members, Brackets, BracketOf, Counted;
    var j :| 0 <= j < |cs| && cs[j].id == best && cs[j].bracket == ranked[i];
    FreshBracket(cs, key, ranked, sel, i, best);
    AddPeer(cs, sel, per, cap, j);
  }

  lemma NothingChosen(cs: seq<Persona>, key: string -> Key, ranked: seq<string>, per: map<string, int>, cap: int)
    requires cap >= 0 && per.Keys == AsSet(Brackets(cs)) && forall b :: b in per ==> per[b] == 0
    ensures Guaranteed(cs, key, ranked, [], 0)
    ensures OneBracket(cs) ==> Counted(cs, [], per, cap)
  {
    if OneBracket(cs) {
      EmptyCounted(cs, per, cap);
    }
  }

  lemma EmptyCounted(cs: seq<Persona>, per: map<string, int>, cap: int)
    requires OneBracket(cs) && cap >= 0 && forall b :: b in Brackets(cs) ==> b in per && per[b] == 0
    ensures Counted(cs, [], per, cap)
  {
    forall b | b in Brackets(cs) ensures InBracket(AsSet([]), BracketOf(cs), b) == {} {
    }
  }

  lemma MembersNonempty(cs: seq<Persona>, b: string)
    requires b in Brackets(cs)
    ensures Members(cs, b) != []
  {
    var i :| 0 <= i < |cs| && cs[i].bracket == b;
    assert cs[i].id in Members(cs, b);
  }

  lemma FreshBracket(cs: seq<Persona>, key: string -> Key, ranked: seq<string>, sel: seq<string>, i: int, x: string)
    requires OneBracket(cs) && Distinct(ranked) && Guaranteed(cs, key, ranked, sel, i) && i < |ranked|
    requires x in BracketOf(cs) && BracketOf(cs)[x] == ranked[i]
    ensures x !in sel && ranked[i] !in ranked[..i]
  {
  }

  /** One top member per bracket leaves nobody of those brackets above the chosen one. */
  lemma GuaranteedIsTop(cs: seq<Persona>, key: string -> Key, ranked: seq<string>, sel: seq<string>, i: int)
    requires OneBracket(cs) && Guaranteed(cs, key, ranked, sel, i)
    ensures TopOfBracket(cs, sel, key)
  {
  }

  /** `order` lists exactly the candidates. */
  ghost predicate Lists(cs: seq<Persona>, order: seq<string>) {
    && (forall i :: 0 <= i < |cs| ==> cs[i].id in order)
    && (forall k :: 0 <= k < |order| ==> exists i :: 0 <= i < |cs| && cs[i].id == order[k])
  }

  /** Fills the remaining slots by key, skipping full brackets. */
  method PhaseTwo(
    cs: seq<Persona>, key: string -> Key, order: seq<string>, first: seq<string>, counts: map<string, int>, limit: nat,
    cap: int)
    returns (sel: seq<string>)
    requires |first| <= limit && counts.Keys >= AsSet(Brackets(cs)) && Extends(cs, first, first)
    requires Descending(order, key) && Lists(cs, order)
    requires OneBracket(cs) ==> Counted(cs, first, counts, cap) && TopOfBracket(cs, first, key)
    ensures |sel| <= limit && Extends(cs, first, sel)
    ensures OneBracket(cs) ==> Filled(cs, key, sel, limit, cap) && FillsByKey(cs, key, first, sel, cap)
  {
    hide FillsByKey, Filling, Filled, Brackets, IdBrackets, Descending, OneBracket, Extends, Lists, AsSet, Ids, From;
    var bracketOf := IdBrackets(cs);
    sel := first;
    var per := counts;
    var k := 0;
    FillingStarts(cs, key, sel, per, cap);
    FromItself(first);
    while k < |order|
      invariant 0 <= k <= |order| && per.Keys == counts.Keys
      invariant |sel| <= limit && Extends(cs, first, sel)
      invariant OneBracket(cs) ==> Filling(cs, key, sel, per, cap, order[..k]) && From(first, order[..k], sel)
    {
      if |sel| >= limit {
        break;
      }
      var x := order[k];
      ListedHasBracket(cs, order, k);
      var take := !(x in sel || per[bracketOf[x]] >= cap);
      if OneBracket(cs) {
        PhaseTwoStep(cs, key, order, sel, per, cap, k, take);
        FromNext(first, order, k, sel);
      }
      if take {
        OneMoreListed(cs, first, sel, x);
        sel := sel + [x];
        per := per[bracketOf[x] := per[bracketOf[x]] + 1];
      }
      k := k + 1;
    }
    if OneBracket(cs) {
      FillingEnds(cs, key, order, sel, per, limit, cap, k);
      FilledByKey(cs, key, order, first, sel, per, cap, k);
    }
  }

  /** Whoever is filled in comes before every candidate that is left out although its bracket has room. */
  ghost predicate FillsByKey(cs: seq<Persona>, key: string -> Key, first: seq<string>, sel: seq<string>, cap: int)
    requires OneBracket(cs)
  {
    forall x, j :: x in sel && x !in first && 0 <= j < |cs| && cs[j].id !in sel
      && |InBracket(AsSet(sel), BracketOf(cs), cs[j].bracket)| < cap
      ==> !Below(key(x), key(cs[j].id))
  }

  lemma FromItself(first: seq<string>)
    ensures From(first, [], first)
  {
  }

  /** The filled-in ones come from the part of the ranking that was walked. */
  ghost predicate From(first: seq<string>, done: seq<string>, sel: seq<string>) {
    forall x :: x in sel ==> x in first || x in done
  }

  lemma FromNext(first: seq<string>, order: seq<string>, k: nat, sel: seq<string>)
    requires k < |order| && From(first, order[..k], sel)
    ensures From(first, order[..k + 1], sel) && From(first, order[..k + 1], sel + [order[k]])
  {
    assert order[..k + 1] == order[..k] + [order[k]];
  }

  lemma FilledByKey(cs: seq<Persona>, key: string -> Key, order: seq<string>, first: seq<string>, sel: seq<string>,
      per: map<string, int>, cap: int, k: nat)
    requires OneBracket(cs) && k <= |order| && Descending(order, key) && Lists(cs, order)
    requires Filling(cs, key, sel, per, cap, order[..k]) && From(first, order[..k], sel)
    ensures FillsByKey(cs, key, first, sel, cap)
  {
    hide TopOfBracket, BracketOf, InBracket, Brackets;
    forall x, j | x in sel && x !in first && 0 <= j < |cs| && cs[j].id !in sel
      && |InBracket(AsSet(sel), BracketOf(cs), cs[j].bracket)| < cap
      ensures !Below(key(x), key(cs[j].id))
    {
      BracketIsListed(cs, j);
      assert cs[j].id !in order[..k];
      ComesBefore(order, key, k, x, cs[j].id);
    }
  }

  lemma ComesBefore(order: seq<string>, key: string -> Key, k: nat, x: string, y: string)
    requires k <= |order| && Descending(order, key) && x in order[..k] && y in order && y !in order[..k]
    ensures !Below(key(x), key(y))
  {
    var a :| 0 <= a < k && order[..k][a] == x;
    var b :| 0 <= b < |order| && order[b] == y;
    assert order[a] == x && a < b;
  }

  lemma BracketIsListed(cs: seq<Persona>, j: nat)
    requires j < |cs|
    ensures cs[j].bracket in Brackets(cs)
  {
  }

  /** What phase 2 adds to the first picks: other candidates, each once. */
  ghost predicate Extends(cs: seq<Persona>, first: seq<string>, sel: seq<string>) {
    first <= sel && AsSet(sel) <= AsSet(Ids(cs)) && (Distinct(first) ==> Distinct(sel))
  }

  lemma OneMoreListed(cs: seq<Persona>, first: seq<string>, sel: seq<string>, x: string)
    requires Extends(cs, first, sel) && x !in sel && x in AsSet(Ids(cs))
    ensures Extends(cs, first, sel + [x])
  {
    assert AsSet(sel + [x]) == AsSet(sel) + {x};
  }

  /** Phase 2 under way: `done` is walked past. */
  ghost predicate Filling(cs: seq<Persona>, key: string -> Key, sel: seq<string>, per: map<string, int>, cap: int,
      done: seq<string>)
    requires OneBracket(cs)
  {
    Counted(cs, sel, per, cap) && TopOfBracket(cs, sel, key) && Passed(cs, sel, per, cap, done)
  }

  /** Phase 2 done: nobody is listed twice, and only limit and capacity bound the selection. */
  ghost predicate Filled(cs: seq<Persona>, key: string -> Key, sel: seq<string>, limit: int, cap: int)
    requires OneBracket(cs)
  {
    && Distinct(sel) && TopOfBracket(cs, sel, key)
    && (forall b :: b in Brackets(cs) ==> |InBracket(AsSet(sel), BracketOf(cs), b)| <= cap)
    && |sel| == Min(limit, Capacity(cs, Brackets(cs), cap))
  }

  lemma FillingStarts(cs: seq<Persona>, key: string -> Key, sel: seq<string>, per: map<string, int>, cap: int)
    requires OneBracket(cs) ==> Counted(cs, sel, per, cap) && TopOfBracket(cs, sel, key)
    ensures OneBracket(cs) ==> Filling(cs, key, sel, per, cap, [])
  {
    hide Counted, TopOfBracket;
    NothingPassed(cs, sel, per, cap);
  }

  lemma FillingEnds(cs: seq<Persona>, key: string -> Key, order: seq<string>, sel: seq<string>, per: map<string, int>,
      limit: nat, cap: int, k: nat)
    requires OneBracket(cs) && k <= |order| && Filling(cs, key, sel, per, cap, order[..k]) && Lists(cs, order)
    requires |sel| <= limit && (k == |order| || |sel| >= limit)
    ensures Filled(cs, key, sel, limit, cap)
  {
    hide Counted, TopOfBracket, Passed, Brackets, BracketOf, Capacity, InBracket;
    SelectionSize(cs, sel, per, cap);
    if k == |order| {
      AllPassed(cs, sel, per, cap, order);
    }
    CountedMeans(cs, sel, per, cap);
  }

  lemma ListedHasBracket(cs: seq<Persona>, order: seq<string>, k: nat)
    requires Lists(cs, order) && k < |order|
    ensures order[k] in IdBrackets(cs) && IdBrackets(cs)[order[k]] in AsSet(Brackets(cs))
    ensures order[k] in AsSet(Ids(cs))
  {
    hide IdBrackets, Brackets;
    var x := order[k];
    var i :| 0 <= i < |cs| && cs[i].id == x;
    assert cs[i] in cs;
    var j :| 0 <= j < |cs| && cs[j] == Persona(order[k], IdBrackets(cs)[order[k]]);
    assert Ids(cs)[i] == order[k];
  }

  lemma NothingPassed(cs: seq<Persona>, sel: seq<string>, per: map<string, int>, cap: int)
    ensures Passed(cs, sel, per, cap, [])
  {
  }

  lemma AllPassed(cs: seq<Persona>, sel: seq<string>, per: map<string, int>, cap: int, order: seq<string>)
    requires Lists(cs, order)
    requires Passed(cs, sel, per, cap, order[..|order|])
    ensures Saturated(cs, sel, per, cap)
  {
    assert order[..|order|] == order;
  }

  lemma CountedMeans(cs: seq<Persona>, sel: seq<string>, per: map<string, int>, cap: int)
    requires OneBracket(cs) && Counted(cs, sel, per, cap)
    ensures Distinct(sel) && AsSet(sel) <= AsSet(Ids(cs))
    ensures forall b :: b in Brackets(cs) ==> |InBracket(AsSet(sel), BracketOf(cs), b)| <= cap
  {
    forall x | x in AsSet(sel) ensures x in AsSet(Ids(cs)) {
      var i :| 0 <= i < |cs| && cs[i].id == x;
      assert Ids(cs)[i] == x;
    }
  }

  lemma PhaseTwoStep(
    cs: seq<Persona>, key: string -> Key, order: seq<string>, sel: seq<string>, per: map<string, int>, cap: int,
    k: nat, take: bool)
    requires OneBracket(cs) && k < |order| && Descending(order, key) && Lists(cs, order)
    requires Filling(cs, key, sel, per, cap, order[..k])
    requires order[k] in IdBrackets(cs) && IdBrackets(cs)[order[k]] in per
    requires take == !(order[k] in sel || per[IdBrackets(cs)[order[k]]] >= cap)
    ensures var b := IdBrackets(cs)[order[k]];
      Filling(cs, key, if take then sel + [order[k]] else sel, if take then per[b := per[b] + 1] else per, cap,
        order[..k + 1])
  {
    hide Counted, TopOfBracket, Descending, Lists, IdBrackets;
    assert order[..k + 1] == order[..k] + [order[k]];
    OwnBracket(cs);
    var i: nat :| i < |cs| && cs[i].id == order[k];
    if take {
      KeepsTop(cs, key, order, sel, per, cap, k, i);
      AddPeer(cs, sel, per, cap, i);
    }
  }

  /** What phase 2 has walked past: chosen, or in a bracket that is full. */
  ghost predicate Passed(cs: seq<Persona>, sel: seq<string>, per: map<string, int>, cap: int, done: seq<string>) {
    forall i :: 0 <= i < |cs| && cs[i].id in done ==>
      cs[i].id in sel || (cs[i].bracket in per && per[cs[i].bracket] >= cap)
  }

  /** Taking the next one in key order passes over nobody of its bracket. */
  lemma KeepsTop(
    cs: seq<Persona>, key: string -> Key, order: seq<string>, sel: seq<string>, per: map<string, int>, cap: int,
    k: nat, i: nat)
    requires OneBracket(cs) && i < |cs| && k < |order| && order[k] == cs[i].id
    requires Descending(order, key) && Lists(cs, order)
    requires TopOfBracket(cs, sel, key) && Passed(cs, sel, per, cap, order[..k])
    requires cs[i].bracket in per && per[cs[i].bracket] < cap
    ensures TopOfBracket(cs, sel + [order[k]], key)
  {
    forall j | 0 <= j < |cs| && cs[j].bracket == cs[i].bracket && Below(key(order[k]), key(cs[j].id))
      ensures cs[j].id in sel
    {
      assert cs[j].id in order;
      var l :| 0 <= l < |order| && order[l] == cs[j].id;
      assert l < k;
      assert order[..k][l] == cs[j].id;
    }
  }

  lemma NoTops(cs: seq<Persona>, key: string -> Key, bracketKey: string -> Key)
    ensures TakesTops(cs, key, bracketKey, [], 0)
  {
    assert Guaranteed(cs, key, Ranked(Brackets(cs), bracketKey), [], 0);
  }

  lemma NothingToSelect(cs: seq<Persona>, key: string -> Key, limit: int, minBrackets: int, cap: int)
    requires OneBracket(cs) && cap >= 1 && (limit <= 0 || cs == [])
    ensures GoodSelection(cs, key, [], limit, minBrackets, cap)
  {
    CapacityNonnegative(cs, Brackets(cs), cap);
    EmptyCounted(cs, map b | b in Brackets(cs) :: 0, cap);
  }

  lemma {:induction false} CapacityNonnegative(cs: seq<Persona>, bs: seq<string>, cap: int)
    requires cap >= 0
    ensures Capacity(cs, bs, cap) >= 0
  {
    if bs != [] {
      CapacityNonnegative(cs, bs[..|bs| - 1], cap);
    }
  }

  lemma GuaranteedCover(cs: seq<Persona>, key: string -> Key, ranked: seq<string>, first: seq<string>,
      sel: seq<string>, n: nat)
    requires OneBracket(cs) && Distinct(ranked) && Guaranteed(cs, key, ranked, first, n) && first <= sel
    ensures |BracketsOf(cs, sel)| >= n
  {
    SetOfDistinct(ranked[..n]);
    forall b | b in AsSet(ranked[..n]) ensures b in BracketsOf(cs, sel) {
      var k :| 0 <= k < n && ranked[k] == b;
      OwnBracket(cs);
      assert first[k] in sel by { assert sel[k] == first[k]; }
    }
    CardinalityOfSubset(AsSet(ranked[..n]), BracketsOf(cs, sel));
  }

  /** Display order carries nothing: every promise survives the shuffle. */
  lemma ShuffleKeeps(cs: seq<Persona>, key: string -> Key, sel: seq<string>, r: seq<string>, limit: int,
      minBrackets: int, cap: int)
    requires OneBracket(cs) && multiset(r) == multiset(sel)
    requires GoodSelection(cs, key, sel, limit, minBrackets, cap)
    ensures GoodSelection(cs, key, r, limit, minBrackets, cap)
  {
    DistinctByMultiset(sel, r);
    assert AsSet(r) == AsSet(sel);
    assert BracketsOf(cs, r) == BracketsOf(cs, sel);
  }

  function SumWeights(ids: seq<string>, weight: string -> real): real {
    if ids == [] then 0.0 else SumWeights(ids[..|ids| - 1], weight) + weight(ids[|ids| - 1])
  }

  function WeightOf(weights: map<string, Weight>, x: string): real {
    if x in weights then Reach(weights[x]) else 0.0
  }

  function Reaches(weights: map<string, Weight>): string -> real {
    y => WeightOf(weights, y)
  }

  /** A candidate's sampling key: the log of its draw, scaled by its reach. */
  function PeerKey(weights: map<string, Weight>, logDraw: string -> real): string -> Key {
    x => SamplingKey(logDraw(x), WeightOf(weights, x))
  }

  lemma RankCandidates(cs: seq<Persona>, key: string -> Key)
    ensures Descending(Ranked(Firsts(Ids(cs)), key), key) && Lists(cs, Ranked(Firsts(Ids(cs)), key))
  {
    var ids, r := Ids(cs), Ranked(Firsts(Ids(cs)), key);
    FirstsAreDistinct(ids);
    RankedSorts(Firsts(ids), key);
    DistinctByMultiset(Firsts(ids), r);
    forall i | 0 <= i < |cs| ensures cs[i].id in r {
      assert ids[i] in ids;
    }
    forall k | 0 <= k < |r| ensures exists i :: 0 <= i < |cs| && cs[i].id == r[k] {
      assert r[k] in ids;
    }
  }

  lemma RankBrackets(bs: seq<string>, key: string -> Key)
    requires Distinct(bs)
    ensures Distinct(Ranked(bs, key)) && |Ranked(bs, key)| == |bs| && AsSet(Ranked(bs, key)) == AsSet(bs)
  {
    RankedSorts(bs, key);
    DistinctByMultiset(bs, Ranked(bs, key));
  }

  /** A bracket's sampling key: the log of its draw, scaled by the summed reach of its members. */
  function BracketKey(cs: seq<Persona>, weight: string -> real, bracketDraw: string -> real): string -> Key {
    b => SamplingKey(bracketDraw(b), SumWeights(Members(cs, b), weight))
  }

  /** How many brackets are guaranteed a slot. */
  function Slots(cs: seq<Persona>, limit: int, minBrackets: int): nat {
    Min(|Brackets(cs)|, Max(0, Min(minBrackets, limit)))
  }

  /** Each of the top brackets has a top member among the selected. */
  ghost predicate TakesTops(cs: seq<Persona>, key: string -> Key, bracketKey: string -> Key, sel: seq<string>, n: nat) {
    exists first ::
      Guaranteed(cs, key, Ranked(Brackets(cs), bracketKey), first, n) && multiset(first) <= multiset(sel)
  }

  /** So it is with one top member of each top bracket as the guaranteed picks. */
  ghost predicate TakesByKey(cs: seq<Persona>, key: string -> Key, bracketKey: string -> Key, sel: seq<string>, n: nat,
      cap: int)
    requires OneBracket(cs)
  {
    exists first ::
      && Guaranteed(cs, key, Ranked(Brackets(cs), bracketKey), first, n) && multiset(first) <= multiset(sel)
      && FillsByKey(cs, key, first, sel, cap)
  }

  /** The two phases, for a positive limit and at least one candidate. */
  method SelectFrom(
    cs: seq<Persona>, key: string -> Key, weight: string -> real, bracketDraw: string -> real,
    limit: nat, minBrackets: int, cap: int)
    returns (result: seq<string>)
    requires cap >= 1
    ensures |result| <= limit && AsSet(result) <= AsSet(Ids(cs))
    ensures Slots(cs, limit, minBrackets) <= 1 ==> Distinct(result)
    ensures TakesTops(cs, key, BracketKey(cs, weight, bracketDraw), result, Slots(cs, limit, minBrackets))
    ensures OneBracket(cs) ==>
      && GoodSelection(cs, key, result, limit, minBrackets, cap)
      && TakesByKey(cs, key, BracketKey(cs, weight, bracketDraw), result, Slots(cs, limit, minBrackets), cap)
  {
    hide FillsByKey, TakesByKey, Brackets, Members, Descending, OneBracket, Counted, Guaranteed, TopOfBracket, Ranked;
    hide Lists, Distinct, Filled, GoodSelection, TakesTops, Extends, Ids, Firsts;
    var order, members := GroupByBracket(cs);
    var bracketKey := BracketKey(cs, weight, bracketDraw);
    var ranked := Ranked(order, bracketKey);
    RankBrackets(order, bracketKey);
    var guaranteed := Min(|ranked|, Max(0, Min(minBrackets, limit)));
    var sel, per := PhaseOne(cs, key, members, ranked, guaranteed, cap);
    TopsAreCandidates(cs, key, ranked, sel, guaranteed);
    var byKey := Ranked(Firsts(Ids(cs)), key);
    RankCandidates(cs, key);
    if OneBracket(cs) {
      GuaranteedIsTop(cs, key, ranked, sel, guaranteed);
    }
    result := PhaseTwo(cs, key, byKey, sel, per, limit, cap);
    TopsTaken(cs, key, bracketKey, sel, result, guaranteed);
    OneIsDistinct(cs, sel, result);
    if OneBracket(cs) {
      FilledIsTaken(cs, key, bracketKey, sel, result, guaranteed, cap);
      FilledIsGood(cs, key, ranked, sel, result, guaranteed, limit, minBrackets, cap);
    }
  }

  lemma OneIsDistinct(cs: seq<Persona>, first: seq<string>, sel: seq<string>)
    requires Extends(cs, first, sel)
    ensures |first| <= 1 ==> Distinct(sel)
  {
  }

  lemma TopsTaken(cs: seq<Persona>, key: string -> Key, bracketKey: string -> Key, first: seq<string>,
      sel: seq<string>, n: nat)
    requires Guaranteed(cs, key, Ranked(Brackets(cs), bracketKey), first, n) && Extends(cs, first, sel)
    ensures TakesTops(cs, key, bracketKey, sel, n) && AsSet(sel) <= AsSet(Ids(cs))
  {
    hide Guaranteed, Ranked, Brackets, Ids;
    assert sel == first + sel[|first|..];
  }

  lemma TopsAreCandidates(cs: seq<Persona>, key: string -> Key, ranked: seq<string>, sel: seq<string>, n: int)
    requires Guaranteed(cs, key, ranked, sel, n)
    ensures |sel| == n && Extends(cs, sel, sel)
  {
    forall x | x in sel ensures x in Ids(cs) {
      var k :| 0 <= k < |sel| && sel[k] == x;
      var i :| 0 <= i < |cs| && cs[i].id == x && cs[i].bracket == ranked[k];
      assert Ids(cs)[i] == x;
    }
  }

  lemma SameElements(a: seq<string>, b: seq<string>)
    requires multiset(a) == multiset(b)
    ensures |a| == |b| && AsSet(a) == AsSet(b)
  {
    assert |multiset(a)| == |a| && |multiset(b)| == |b|;
    forall x ensures x in a <==> x in b {
      assert x in a <==> x in multiset(a);
      assert x in b <==> x in multiset(b);
    }
  }

  lemma FilledIsTaken(cs: seq<Persona>, key: string -> Key, bracketKey: string -> Key, first: seq<string>,
      sel: seq<string>, n: nat, cap: int)
    requires OneBracket(cs) && Extends(cs, first, sel) && FillsByKey(cs, key, first, sel, cap)
    requires Guaranteed(cs, key, Ranked(Brackets(cs), bracketKey), first, n)
    ensures TakesByKey(cs, key, bracketKey, sel, n, cap)
  {
    hide Guaranteed, Ranked, Brackets, Ids, FillsByKey;
    assert sel == first + sel[|first|..];
  }

  lemma FilledIsGood(cs: seq<Persona>, key: string -> Key, ranked: seq<string>, first: seq<string>, sel: seq<string>,
      n: nat, limit: int, minBrackets: int, cap: int)
    requires OneBracket(cs) && Distinct(ranked) && Guaranteed(cs, key, ranked, first, n) && Extends(cs, first, sel)
    requires |ranked| == |Brackets(cs)| && n == Slots(cs, limit, minBrackets) && limit >= 0
    requires Filled(cs, key, sel, limit, cap)
    ensures GoodSelection(cs, key, sel, limit, minBrackets, cap)
  {
    hide Brackets, Distinct, Guaranteed, TopOfBracket, BracketOf, AsSet, BracketsOf, Capacity, InBracket;
    GuaranteedCover(cs, key, ranked, first, sel, n);
  }

  lemma NothingTaken(cs: seq<Persona>, key: string -> Key, bracketKey: string -> Key, cap: int)
    requires OneBracket(cs)
    ensures TakesByKey(cs, key, bracketKey, [], 0, cap)
  {
    assert Guaranteed(cs, key, Ranked(Brackets(cs), bracketKey), [], 0);
    assert FillsByKey(cs, key, [], [], cap);
  }

  lemma ShuffleKeepsTaken(cs: seq<Persona>, key: string -> Key, bracketKey: string -> Key, a: seq<string>,
      b: seq<string>, n: nat, cap: int)
    requires OneBracket(cs) && TakesByKey(cs, key, bracketKey, a, n, cap) && multiset(a) == multiset(b)
    ensures TakesByKey(cs, key, bracketKey, b, n, cap)
  {
    hide Guaranteed, Ranked, Brackets, BracketOf, InBracket;
    var first :| Guaranteed(cs, key, Ranked(Brackets(cs), bracketKey), first, n) && multiset(first) <= multiset(a)
      && FillsByKey(cs, key, first, a, cap);
    SameElements(a, b);
    forall x ensures x in a <==> x in b {
      assert x in AsSet(a) <==> x in AsSet(b);
    }
    assert FillsByKey(cs, key, first, b, cap);
  }

  lemma SameTops(cs: seq<Persona>, key: string -> Key, bracketKey: string -> Key, a: seq<string>, b: seq<string>,
      n: nat)
    requires TakesTops(cs, key, bracketKey, a, n) && multiset(a) == multiset(b)
    ensures TakesTops(cs, key, bracketKey, b, n)
  {
    hide Guaranteed, Ranked, Brackets;
    var first :| Guaranteed(cs, key, Ranked(Brackets(cs), bracketKey), first, n) && multiset(first) <= multiset(a);
    assert multiset(first) <= multiset(b);
  }

  lemma SelectedAreEligible(ps: seq<Persona>, reader: string, prev: map<string, Signal>, sel: seq<string>)
    requires AsSet(sel) <= AsSet(Ids(Candidates(ps, reader, prev)))
    ensures forall x :: x in sel ==>
      x != reader && !(x in prev && prev[x] == ParseError) && exists i :: 0 <= i < |ps| && ps[i].id == x
  {
    var cs := Candidates(ps, reader, prev);
    forall x | x in sel
      ensures x != reader && !(x in prev && prev[x] == ParseError) && exists i :: 0 <= i < |ps| && ps[i].id == x
    {
      assert x in AsSet(sel);
      var k :| 0 <= k < |cs| && cs[k].id == x;
      assert cs[k] in cs;
    }
  }

  /** `select_diverse_peers`; None is the ValueError. `logDraw` and `bracketDraw` are the logs
      of the uniform draws, `shuffle` the final shuffle. */
  method SelectDiversePeers(
    reader: string, weights: map<string, Weight>, personas: seq<Persona>, prev: map<string, Signal>,
    logDraw: string -> real, bracketDraw: string -> real, shuffle: seq<string> -> seq<string>,
    limit: int, minBrackets: int, cap: int)
    returns (result: Option<seq<string>>)
    requires forall s :: multiset(shuffle(s)) == multiset(s)
    ensures result.None? <==> cap < 1
    ensures result.Some? ==> |result.value| <= Max(0, limit) && forall x :: x in result.value ==>
      x != reader && !(x in prev && prev[x] == ParseError) && exists i :: 0 <= i < |personas| && personas[i].id == x
    ensures result.Some? && Slots(Candidates(personas, reader, prev), limit, minBrackets) <= 1 ==>
      Distinct(result.value)
    ensures result.Some? ==>
      var cs := Candidates(personas, reader, prev);
      TakesTops(cs, PeerKey(weights, logDraw), BracketKey(cs, Reaches(weights), bracketDraw), result.value,
        Slots(cs, limit, minBrackets))
    ensures result.Some? && OneBracket(Candidates(personas, reader, prev)) ==>
      var cs := Candidates(personas, reader, prev);
      && GoodSelection(cs, PeerKey(weights, logDraw), result.value, limit, minBrackets, cap)
      && TakesByKey(cs, PeerKey(weights, logDraw), BracketKey(cs, Reaches(weights), bracketDraw), result.value,
           Slots(cs, limit, minBrackets), cap)
  {
    hide TakesByKey, GoodSelection, OneBracket, TakesTops;
    if cap < 1 {
      return None;
    }
    var cs := Candidates(personas, reader, prev);
    var key := PeerKey(weights, logDraw);
    var chosen := [];
    if limit <= 0 || cs == [] {
      NoTops(cs, key, BracketKey(cs, Reaches(weights), bracketDraw));
      if OneBracket(cs) {
        NothingToSelect(cs, key, limit, minBrackets, cap);
        NothingTaken(cs, key, BracketKey(cs, Reaches(weights), bracketDraw), cap);
      }
    } else {
      var picked := SelectFrom(cs, key, Reaches(weights), bracketDraw, limit, minBrackets, cap);
      chosen := shuffle(picked);
      SameElements(picked, chosen);
      if Distinct(picked) {
        DistinctByMultiset(picked, chosen);
      }
      SameTops(cs, key, BracketKey(cs, Reaches(weights), bracketDraw), picked, chosen,
        Slots(cs, limit, minBrackets));
      if OneBracket(cs) {
        ShuffleKeeps(cs, key, picked, chosen, limit, minBrackets, cap);
        ShuffleKeepsTaken(cs, key, BracketKey(cs, Reaches(weights), bracketDraw), picked, chosen,
          Slots(cs, limit, minBrackets), cap);
      }
    }
    SelectedAreEligible(personas, reader, prev, chosen);
    result := Some(chosen);
  }

  // ----- A candidate in two brackets -----

  /** With two guaranteed slots a candidate with reach must not stand in two brackets: there are draws
      under which every selection that takes its tops lists it twice. */
  lemma SharedIsChosenTwice(
    cs: seq<Persona>, weights: map<string, Weight>, x: string, b: string, c: string, limit: int, minBrackets: int)
    returns (logDraw: string -> real, bracketDraw: string -> real)
    requires Slots(cs, limit, minBrackets) >= 2 && b != c && WeightOf(weights, x) > 0.0
    requires Persona(x, b) in cs && Persona(x, c) in cs
    ensures forall y :: logDraw(y) < 0.0 && bracketDraw(y) < 0.0
    ensures forall sel ::
      TakesTops(cs, PeerKey(weights, logDraw), BracketKey(cs, Reaches(weights), bracketDraw), sel,
        Slots(cs, limit, minBrackets))
      ==> multiset(sel)[x] >= 2 && !Distinct(sel)
  {
    logDraw, bracketDraw := PeerDraws(weights, x), BracketDraws(cs, weights, b, c);
    PeerDrawKeys(weights, x);
    BracketDrawKeys(cs, weights, x, b, c);
    var n := Slots(cs, limit, minBrackets);
    var key, bracketKey := PeerKey(weights, logDraw), BracketKey(cs, Reaches(weights), bracketDraw);
    hide PeerKey, BracketKey, PeerDraws, BracketDraws, TakesTops, Slots;
    forall sel | TakesTops(cs, key, bracketKey, sel, n) ensures multiset(sel)[x] >= 2 && !Distinct(sel) {
      TopOfBoth(cs, key, bracketKey, x, b, c, sel, n);
    }
  }

  /** Drawing in proportion to the weight makes the factor the score. */
  function Scaled(factor: real, weight: real): (draw: real)
    requires factor < 0.0
    ensures draw < 0.0 && SamplingKey(draw, weight) == Key(weight > 0.0, factor)
  {
    if weight > 0.0 then factor * weight else factor
  }

  /** Draws that favour `x` over every other candidate. */
  function PeerDraws(weights: map<string, Weight>, x: string): string -> real {
    y => Scaled(if y == x then -1.0 else -2.0, WeightOf(weights, y))
  }

  /** Draws that favour `b` and `c` over every other bracket. */
  function BracketDraws(cs: seq<Persona>, weights: map<string, Weight>, b: string, c: string): string -> real {
    d => Scaled(if d == b || d == c then -1.0 else -2.0, SumWeights(Members(cs, d), Reaches(weights)))
  }

  lemma PeerDrawKeys(weights: map<string, Weight>, x: string)
    requires WeightOf(weights, x) > 0.0
    ensures forall y :: PeerDraws(weights, x)(y) < 0.0
    ensures var key := PeerKey(weights, PeerDraws(weights, x)); forall y :: y != x ==> Below(key(y), key(x))
  {
    var key := PeerKey(weights, PeerDraws(weights, x));
    forall y ensures key(y) == Key(WeightOf(weights, y) > 0.0, if y == x then -1.0 else -2.0) {
    }
  }

  lemma BracketDrawKeys(cs: seq<Persona>, weights: map<string, Weight>, x: string, b: string, c: string)
    requires WeightOf(weights, x) > 0.0 && Persona(x, b) in cs && Persona(x, c) in cs
    ensures forall d :: BracketDraws(cs, weights, b, c)(d) < 0.0
    ensures x in Members(cs, b) && x in Members(cs, c)
    ensures var key := BracketKey(cs, Reaches(weights), BracketDraws(cs, weights, b, c));
      key(b) == key(c) && forall d :: d != b && d != c ==> Below(key(d), key(b))
  {
    var key := BracketKey(cs, Reaches(weights), BracketDraws(cs, weights, b, c));
    StandsIn(cs, x, b);
    StandsIn(cs, x, c);
    SumPositive(Members(cs, b), weights, x);
    SumPositive(Members(cs, c), weights, x);
    hide Members, SumWeights;
    forall d ensures key(d) == Key(SumWeights(Members(cs, d), Reaches(weights)) > 0.0,
      if d == b || d == c then -1.0 else -2.0)
    {
    }
  }

  lemma StandsIn(cs: seq<Persona>, x: string, b: string)
    requires Persona(x, b) in cs
    ensures x in Members(cs, b)
  {
    var i :| 0 <= i < |cs| && cs[i] == Persona(x, b);
  }

  lemma {:induction false} SumPositive(ids: seq<string>, weights: map<string, Weight>, x: string)
    ensures SumWeights(ids, Reaches(weights)) >= 0.0
    ensures x in ids && WeightOf(weights, x) > 0.0 ==> SumWeights(ids, Reaches(weights)) > 0.0
  {
    if ids != [] {
      SumPositive(ids[..|ids| - 1], weights, x);
    }
  }

  lemma TopOfBoth(cs: seq<Persona>, key: string -> Key, bracketKey: string -> Key, x: string, b: string, c: string,
      sel: seq<string>, n: nat)
    requires n >= 2 && b != c && x in Members(cs, b) && x in Members(cs, c) && TakesTops(cs, key, bracketKey, sel, n)
    requires forall y :: y != x ==> Below(key(y), key(x))
    requires bracketKey(b) == bracketKey(c)
    requires forall d :: d != b && d != c ==> Below(bracketKey(d), bracketKey(b))
    ensures multiset(sel)[x] >= 2 && !Distinct(sel)
  {
    var ranked := Ranked(Brackets(cs), bracketKey);
    hide Ranked, Brackets, Members;
    var first :| Guaranteed(cs, key, ranked, first, n) && multiset(first) <= multiset(sel);
    BothComeFirst(cs, bracketKey, b, c);
    assert first[0] == x && first[1] == x;
    TwiceInside(first, sel, x);
  }

  lemma TwiceInside(first: seq<string>, sel: seq<string>, x: string)
    requires |first| >= 2 && first[0] == first[1] == x && multiset(first) <= multiset(sel)
    ensures multiset(sel)[x] >= 2 && !Distinct(sel)
  {
    assert first == [x, x] + first[2..];
    assert multiset(first)[x] >= 2;
    if Distinct(sel) {
      CountOne(sel, x);
    }
  }

  lemma BothComeFirst(cs: seq<Persona>, bracketKey: string -> Key, b: string, c: string)
    requires b != c && b in Brackets(cs) && c in Brackets(cs) && bracketKey(b) == bracketKey(c)
    requires forall d :: d != b && d != c ==> Below(bracketKey(d), bracketKey(b))
    ensures var r := Ranked(Brackets(cs), bracketKey); |r| >= 2 && r[0] in {b, c} && r[1] in {b, c}
  {
    var r := Ranked(Brackets(cs), bracketKey);
    RankBrackets(Brackets(cs), bracketKey);
    RankedSorts(Brackets(cs), bracketKey);
    hide Ranked, Brackets;
    assert b in AsSet(r) && c in AsSet(r);
    TwoLead(r, bracketKey, b, c);
  }

  lemma TwoLead(r: seq<string>, bracketKey: string -> Key, b: string, c: string)
    requires b != c && b in r && c in r && Distinct(r) && Descending(r, bracketKey)
    requires bracketKey(b) == bracketKey(c) && forall d :: d != b && d != c ==> Below(bracketKey(d), bracketKey(b))
    ensures |r| >= 2 && r[0] in {b, c} && r[1] in {b, c}
  {
    var i :| 0 <= i < |r| && r[i] == b;
    var j :| 0 <= j < |r| && r[j] == c;
    assert i != j;
    hide Below;
    assert forall k :: 0 <= k < i || 0 <= k < j ==> !Below(bracketKey(r[k]), bracketKey(b));
  }

  /** No peer without reach takes the place of one with reach from the same bracket. */
  lemma ReachComesFirst(
    cs: seq<Persona>, weights: map<string, Weight>, logDraw: string -> real, sel: seq<string>,
    limit: int, minBrackets: int, cap: int, i: nat, j: nat)
    requires OneBracket(cs) && GoodSelection(cs, PeerKey(weights, logDraw), sel, limit, minBrackets, cap)
    requires i < |cs| && j < |cs| && cs[i].bracket == cs[j].bracket && cs[i].id in sel && cs[j].id !in sel
    ensures WeightOf(weights, cs[j].id) > 0.0 ==> WeightOf(weights, cs[i].id) > 0.0
  {
  }
}
