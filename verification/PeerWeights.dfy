/** What weights and draws decide in the peer selection, without the selection's own keys: sampling
    without replacement in proportion to reach, as the order of log(u) / w. */
module PeerWeights {
  import opened Common
  import opened Sorting
  import opened PeerSelection

  /** The weight that counts: a finite positive one, or none. */
  function Amount(weights: map<string, Weight>, x: string): real {
    if x in weights && weights[x].Finite? && weights[x].value > 0.0 then weights[x].value else 0.0
  }

  /** What the members of a bracket weigh together. */
  function Amounts(cs: seq<Persona>, weights: map<string, Weight>, b: string): real {
    if cs == [] then 0.0
    else
      var p := cs[|cs| - 1];
      Amounts(cs[..|cs| - 1], weights, b) + (if p.bracket == b then Amount(weights, p.id) else 0.0)
  }

  /** Draw `d` at weight `w` comes no later than draw `e` at weight `v`: by the cross-multiplied quotients
      between positive weights, positive before none, and by the draws alone between none and none. */
  predicate NoLater(d: real, w: real, e: real, v: real) {
    if w > 0.0 && v > 0.0 then d * v >= e * w
    else if w > 0.0 || v > 0.0 then w > 0.0
    else d >= e
  }

  lemma QuotientsCross(d: real, w: real, e: real, v: real)
    requires w > 0.0 && v > 0.0
    ensures d / w >= e / v <==> d * v >= e * w
  {
    var p, q := d / w, e / v;
    assert d == p * w && e == q * v;
    Cross(p, q, w, v);
  }

  lemma Cross(p: real, q: real, w: real, v: real)
    requires w > 0.0 && v > 0.0
    ensures (p * w) * v >= (q * v) * w <==> p >= q
  {
    assert (p * w) * v - (q * v) * w == (p - q) * (w * v);
    assert w * v > 0.0;
    if p >= q {
      assert (p - q) * (w * v) >= 0.0;
    } else {
      assert (q - p) * (w * v) > 0.0;
    }
  }

  lemma KeysCompare(d: real, w: real, e: real, v: real)
    requires w >= 0.0 && v >= 0.0
    ensures !Below(SamplingKey(d, w), SamplingKey(e, v)) <==> NoLater(d, w, e, v)
  {
    if w > 0.0 && v > 0.0 {
      QuotientsCross(d, w, e, v);
    }
  }

  lemma WeightIsAmount(weights: map<string, Weight>, x: string)
    ensures WeightOf(weights, x) == Amount(weights, x) >= 0.0
  {
  }

  lemma {:induction false} SumIsAmounts(cs: seq<Persona>, weights: map<string, Weight>, b: string)
    ensures SumWeights(Members(cs, b), Reaches(weights)) == Amounts(cs, weights, b) >= 0.0
  {
    if cs != [] {
      var n := |cs| - 1;
      SumIsAmounts(cs[..n], weights, b);
      WeightIsAmount(weights, cs[n].id);
      var before := Members(cs[..n], b);
      OneMoreWeight(before, cs[n].id, Reaches(weights));
      assert Members(cs, b) == if cs[n].bracket == b then before + [cs[n].id] else before;
    }
  }

  lemma OneMoreWeight(ids: seq<string>, x: string, weight: string -> real)
    ensures SumWeights(ids + [x], weight) == SumWeights(ids, weight) + weight(x)
  {
    assert (ids + [x])[..|ids|] == ids;
  }

  /** A chosen candidate comes no later in the weighted draw than a passed-over one of its bracket. */
  lemma DrawnByWeight(cs: seq<Persona>, weights: map<string, Weight>, logDraw: string -> real, sel: seq<string>,
      limit: int, minBrackets: int, cap: int, i: nat, j: nat)
    requires OneBracket(cs) && GoodSelection(cs, PeerKey(weights, logDraw), sel, limit, minBrackets, cap)
    requires i < |cs| && j < |cs| && cs[i].bracket == cs[j].bracket && cs[i].id in sel && cs[j].id !in sel
    ensures var x, y := cs[i].id, cs[j].id;
      NoLater(logDraw(x), Amount(weights, x), logDraw(y), Amount(weights, y))
  {
    ComparePeers(weights, logDraw, cs[i].id, cs[j].id);
  }

  lemma ComparePeers(weights: map<string, Weight>, logDraw: string -> real, x: string, y: string)
    ensures !Below(PeerKey(weights, logDraw)(x), PeerKey(weights, logDraw)(y)) <==>
      NoLater(logDraw(x), Amount(weights, x), logDraw(y), Amount(weights, y))
  {
    WeightIsAmount(weights, x);
    WeightIsAmount(weights, y);
    KeysCompare(logDraw(x), Amount(weights, x), logDraw(y), Amount(weights, y));
  }

  lemma CompareBrackets(cs: seq<Persona>, weights: map<string, Weight>, bracketDraw: string -> real, b: string,
      c: string)
    ensures var key := BracketKey(cs, Reaches(weights), bracketDraw);
      !Below(key(b), key(c)) <==>
        NoLater(bracketDraw(b), Amounts(cs, weights, b), bracketDraw(c), Amounts(cs, weights, c))
  {
    SumIsAmounts(cs, weights, b);
    SumIsAmounts(cs, weights, c);
    KeysCompare(bracketDraw(b), Amounts(cs, weights, b), bracketDraw(c), Amounts(cs, weights, c));
  }

  /** The guaranteed picks: `first[k]` for the bracket `of[k]`. */
  ghost predicate Guarantees(cs: seq<Persona>, weights: map<string, Weight>, logDraw: string -> real,
      bracketDraw: string -> real, of: seq<string>, first: seq<string>)
  {
    && |of| == |first| && Distinct(of) && (forall b :: b in of ==> b in Brackets(cs))
    && (forall k :: 0 <= k < |of| ==> Persona(first[k], of[k]) in cs)
    && (forall k, p :: 0 <= k < |of| && p in cs && p.bracket == of[k] ==>
          NoLater(logDraw(first[k]), Amount(weights, first[k]), logDraw(p.id), Amount(weights, p.id)))
    && forall k, c :: 0 <= k < |of| && c in Brackets(cs) && c !in of ==>
         NoLater(bracketDraw(of[k]), Amounts(cs, weights, of[k]), bracketDraw(c), Amounts(cs, weights, c))
  }

  /** Each guaranteed bracket comes no later in the draw, at its members' summed weight, than a passed-over
      one, and its pick no later than any other member. */
  lemma TopsByWeight(cs: seq<Persona>, weights: map<string, Weight>, logDraw: string -> real,
      bracketDraw: string -> real, sel: seq<string>, n: nat) returns (of: seq<string>, first: seq<string>)
    requires TakesTops(cs, PeerKey(weights, logDraw), BracketKey(cs, Reaches(weights), bracketDraw), sel, n)
    ensures |of| == n && multiset(first) <= multiset(sel)
    ensures Guarantees(cs, weights, logDraw, bracketDraw, of, first)
  {
    var key, bracketKey := PeerKey(weights, logDraw), BracketKey(cs, Reaches(weights), bracketDraw);
    var ranked := Ranked(Brackets(cs), bracketKey);
    hide Ranked, Brackets, PeerKey, BracketKey;
    RankBrackets(Brackets(cs), bracketKey);
    RankedSorts(Brackets(cs), bracketKey);
    first :| Guaranteed(cs, key, ranked, first, n) && multiset(first) <= multiset(sel);
    of := ranked[..n];
    TopPicks(cs, weights, logDraw, ranked, first, n);
    forall b | b in of ensures b in Brackets(cs) {
      assert b in AsSet(ranked);
    }
    forall k, c | 0 <= k < n && c in Brackets(cs) && c !in of
      ensures NoLater(bracketDraw(of[k]), Amounts(cs, weights, of[k]), bracketDraw(c), Amounts(cs, weights, c))
    {
      assert c in AsSet(ranked);
      var l :| 0 <= l < |ranked| && ranked[l] == c;
      assert forall m :: 0 <= m < n ==> of[m] == ranked[m];
      assert l >= n;
      CompareBrackets(cs, weights, bracketDraw, of[k], c);
    }
  }

  lemma TopPicks(cs: seq<Persona>, weights: map<string, Weight>, logDraw: string -> real, ranked: seq<string>,
      first: seq<string>, n: nat)
    requires Guaranteed(cs, PeerKey(weights, logDraw), ranked, first, n)
    ensures |first| == n <= |ranked| && forall k :: 0 <= k < n ==> Persona(first[k], ranked[k]) in cs
    ensures forall k, p :: 0 <= k < n && p in cs && p.bracket == ranked[k] ==>
      NoLater(logDraw(first[k]), Amount(weights, first[k]), logDraw(p.id), Amount(weights, p.id))
  {
    hide Members, PeerKey, NoLater;
    forall k | 0 <= k < n ensures Persona(first[k], ranked[k]) in cs {
      var i :| 0 <= i < |cs| && cs[i].id == first[k] && cs[i].bracket == ranked[k];
      assert cs[i] == Persona(first[k], ranked[k]);
    }
    forall k, p | 0 <= k < n && p in cs && p.bracket == ranked[k]
      ensures NoLater(logDraw(first[k]), Amount(weights, first[k]), logDraw(p.id), Amount(weights, p.id))
    {
      StandsIn(cs, p.id, p.bracket);
      ComparePeers(weights, logDraw, first[k], p.id);
    }
  }

  /** Who is filled in beyond the guaranteed picks comes no later in the draw than any candidate left out
      while its bracket had room, of whatever bracket. */
  lemma FilledByWeight(cs: seq<Persona>, weights: map<string, Weight>, logDraw: string -> real, first: seq<string>,
      sel: seq<string>, cap: int, x: string, j: nat)
    requires OneBracket(cs) && FillsByKey(cs, PeerKey(weights, logDraw), first, sel, cap)
    requires x in sel && x !in first && j < |cs| && cs[j].id !in sel
    requires |InBracket(AsSet(sel), BracketOf(cs), cs[j].bracket)| < cap
    ensures NoLater(logDraw(x), Amount(weights, x), logDraw(cs[j].id), Amount(weights, cs[j].id))
  {
    hide PeerKey, InBracket, BracketOf;
    ComparePeers(weights, logDraw, x, cs[j].id);
  }
}
