/** The consensus estimators of src/alphaswarm/consensus.py over exact reals, and their agreement
    with `headcount_score` of src/alphaswarm/evaluation.py. */
module Consensus {
  import opened Common

  datatype Persona = Persona(bracket: string, reach: real)

  datatype Decision = Decision(signal: Signal, confidence: real)

  datatype Vote = Vote(agent: string, bracket: string, signal: Signal, confidence: real, reach: real)

  datatype Weighting = Headcount | Reach | BracketEqual

  function Direction(s: Signal): real {
    match s
    case Buy => 1.0
    case Sell => -1.0
    case _ => 0.0
  }

  function Value(v: Vote): real {
    Direction(v.signal) * v.confidence
  }

  // ----- Votes -----

  function VoteOf(id: string, d: Decision, p: Persona): Vote {
    Vote(id, p.bracket, d.signal, d.confidence, p.reach)
  }

  /** One vote for each decision that is not a parse error and whose agent is on the roster. */
  function Votes(decisions: seq<(string, Decision)>, personas: map<string, Persona>): seq<Vote> {
    if decisions == [] then []
    else
      var (id, d) := decisions[|decisions| - 1];
      Votes(decisions[..|decisions| - 1], personas)
        + (if id in personas && d.signal != ParseError then [VoteOf(id, d, personas[id])] else [])
  }

  method VotesFromDecisions(decisions: seq<(string, Decision)>,
      personas: map<string, Persona>) returns (votes: seq<Vote>)
    ensures votes == Votes(decisions, personas)
  {
    votes := [];
    for i := 0 to |decisions|
      invariant votes == Votes(decisions[..i], personas)
    {
      assert decisions[..i + 1][..i] == decisions[..i];
      var (id, d) := decisions[i];
      if id in personas && d.signal != ParseError {
        votes := votes + [VoteOf(id, d, personas[id])];
      }
    }
    assert decisions[..|decisions|] == decisions;
  }

  // ----- The net score -----

  /** The votes of one bracket. */
  function Group(votes: seq<Vote>, b: string): (g: seq<Vote>)
    ensures forall i :: 0 <= i < |g| ==> g[i].bracket == b
  {
    if votes == [] then []
    else Group(votes[..|votes| - 1], b) + (if votes[|votes| - 1].bracket == b then [votes[|votes| - 1]] else [])
  }

  /** The weight of `v` among `all`. */
  function Weight(all: seq<Vote>, w: Weighting, v: Vote): real {
    match w
    case Headcount => 1.0
    case Reach => v.reach
    case BracketEqual => var n := |Group(all, v.bracket)|; if n == 0 then 0.0 else 1.0 / n as real
  }

  /** `w * s * c`. */
  function Part(all: seq<Vote>, w: Weighting, v: Vote): real {
    Weight(all, w, v) * Value(v)
  }

  function Total(votes: seq<Vote>, all: seq<Vote>, w: Weighting): real {
    if votes == [] then 0.0
    else Total(votes[..|votes| - 1], all, w) + Weight(all, w, votes[|votes| - 1])
  }

  function Signed(votes: seq<Vote>, all: seq<Vote>, w: Weighting): real {
    if votes == [] then 0.0
    else Signed(votes[..|votes| - 1], all, w) + Part(all, w, votes[|votes| - 1])
  }

  /** `net_score_votes`. */
  function NetScore(votes: seq<Vote>, w: Weighting): real {
    var total := Total(votes, votes, w);
    if votes == [] || total <= 0.0 then 0.0 else Signed(votes, votes, w) / total
  }

  // ----- Bounds -----

  ghost predicate Proper(votes: seq<Vote>) {
    forall i :: 0 <= i < |votes| ==> 0.0 <= votes[i].confidence <= 1.0 && votes[i].reach >= 0.0
  }

  lemma PartWithinWeight(all: seq<Vote>, w: Weighting, v: Vote)
    requires 0.0 <= v.confidence <= 1.0 && v.reach >= 0.0
    ensures -Weight(all, w, v) <= Part(all, w, v) <= Weight(all, w, v)
  {
    hide Weight, Value;
    FactorBounds(all, w, v);
    var t, x := Weight(all, w, v), Value(v);
    Scaled(t, x);
    assert Part(all, w, v) == t * x;
    assert -t <= t * x;
  }

  lemma FactorBounds(all: seq<Vote>, w: Weighting, v: Vote)
    requires 0.0 <= v.confidence <= 1.0 && v.reach >= 0.0
    ensures Weight(all, w, v) >= 0.0 && -1.0 <= Value(v) <= 1.0
  {
  }

  lemma Scaled(t: real, x: real)
    requires t >= 0.0 && -1.0 <= x <= 1.0
    ensures -t <= t * x <= t
  {
    assert t * (1.0 - x) >= 0.0 && t * (1.0 + x) >= 0.0;
  }

  lemma {:induction false} SignedWithinTotal(votes: seq<Vote>, all: seq<Vote>, w: Weighting)
    requires Proper(votes)
    ensures -Total(votes, all, w) <= Signed(votes, all, w) <= Total(votes, all, w)
  {
    hide Weight, Part;
    if votes != [] {
      SignedWithinTotal(votes[..|votes| - 1], all, w);
      PartWithinWeight(all, w, votes[|votes| - 1]);
    }
  }

  lemma Ratio(s: real, t: real)
    requires t > 0.0 && -t <= s <= t
    ensures -1.0 <= s / t <= 1.0
  {
    assert s / t <= t / t;
    assert s / t >= (-t) / t;
  }

  /** Every weighting keeps the score in [-1, 1]. */
  lemma ScoreInRange(votes: seq<Vote>, w: Weighting)
    requires Proper(votes)
    ensures -1.0 <= NetScore(votes, w) <= 1.0
  {
    hide Signed, Total;
    SignedWithinTotal(votes, votes, w);
    if votes != [] && Total(votes, votes, w) > 0.0 {
      Ratio(Signed(votes, votes, w), Total(votes, votes, w));
    }
  }

  // ----- bracket_equal is the mean of bracket scores -----

  /** The brackets that decided anything, in order of first vote. */
  function Brackets(votes: seq<Vote>): (bs: seq<string>)
    ensures forall i, j :: 0 <= i < j < |bs| ==> bs[i] != bs[j]
    ensures forall i :: 0 <= i < |votes| ==> votes[i].bracket in bs
  {
    if votes == [] then []
    else
      var rest, b := Brackets(votes[..|votes| - 1]), votes[|votes| - 1].bracket;
      assert forall i :: 0 <= i < |votes| - 1 ==> votes[i] == votes[..|votes| - 1][i];
      if b in rest then rest else rest + [b]
  }

  function SignedByBracket(votes: seq<Vote>, all: seq<Vote>, w: Weighting, bs: seq<string>): real {
    if bs == [] then 0.0
    else SignedByBracket(votes, all, w, bs[..|bs| - 1]) + Signed(Group(votes, bs[|bs| - 1]), all, w)
  }

  function TotalByBracket(votes: seq<Vote>, all: seq<Vote>, w: Weighting, bs: seq<string>): real {
    if bs == [] then 0.0
    else TotalByBracket(votes, all, w, bs[..|bs| - 1]) + Total(Group(votes, bs[|bs| - 1]), all, w)
  }

  lemma GroupAppend(votes: seq<Vote>, v: Vote, b: string)
    ensures Group(votes + [v], b) == Group(votes, b) + (if v.bracket == b then [v] else [])
  {
    assert (votes + [v])[..|votes|] == votes;
  }

  lemma SumsAppend(votes: seq<Vote>, v: Vote, all: seq<Vote>, w: Weighting)
    ensures Signed(votes + [v], all, w) == Signed(votes, all, w) + Part(all, w, v)
    ensures Total(votes + [v], all, w) == Total(votes, all, w) + Weight(all, w, v)
  {
    hide Part, Weight;
    assert (votes + [v])[..|votes|] == votes;
  }

  /** One more vote moves the sums of its own bracket only. */
  lemma {:induction false} ByBracketAppend(votes: seq<Vote>, v: Vote, all: seq<Vote>, w: Weighting, bs: seq<string>)
    requires forall i, j :: 0 <= i < j < |bs| ==> bs[i] != bs[j]
    ensures SignedByBracket(votes + [v], all, w, bs)
      == SignedByBracket(votes, all, w, bs) + (if v.bracket in bs then Part(all, w, v) else 0.0)
    ensures TotalByBracket(votes + [v], all, w, bs)
      == TotalByBracket(votes, all, w, bs) + (if v.bracket in bs then Weight(all, w, v) else 0.0)
  {
    hide Signed, Total, Weight, Group, Part;
    if bs != [] {
      var n := |bs| - 1;
      ByBracketAppend(votes, v, all, w, bs[..n]);
      GroupAppend(votes, v, bs[n]);
      assert v.bracket in bs <==> v.bracket in bs[..n] || v.bracket == bs[n];
      if v.bracket == bs[n] {
        SumsAppend(Group(votes, bs[n]), v, all, w);
      } else {
        assert Group(votes + [v], bs[n]) == Group(votes, bs[n]);
      }
    }
  }

  lemma {:induction false} NoVotesByBracket(all: seq<Vote>, w: Weighting, bs: seq<string>)
    ensures SignedByBracket([], all, w, bs) == 0.0 == TotalByBracket([], all, w, bs)
  {
    if bs != [] {
      NoVotesByBracket(all, w, bs[..|bs| - 1]);
    }
  }

  /** Grouping by bracket loses nothing. */
  lemma {:induction false} SumsByBracket(votes: seq<Vote>, all: seq<Vote>, w: Weighting, bs: seq<string>)
    requires forall i, j :: 0 <= i < j < |bs| ==> bs[i] != bs[j]
    requires forall i :: 0 <= i < |votes| ==> votes[i].bracket in bs
    ensures Signed(votes, all, w) == SignedByBracket(votes, all, w, bs)
    ensures Total(votes, all, w) == TotalByBracket(votes, all, w, bs)
  {
    hide SignedByBracket, TotalByBracket, Weight, Part;
    if votes == [] {
      NoVotesByBracket(all, w, bs);
    } else {
      var n := |votes| - 1;
      SumsByBracket(votes[..n], all, w, bs);
      ByBracketAppend(votes[..n], votes[n], all, w, bs);
      assert votes[..n] + [votes[n]] == votes;
    }
  }

  /** Inside one bracket of n votes the equal weights are 1/n. */
  lemma {:induction false} EqualWeights(g: seq<Vote>, all: seq<Vote>, b: string)
    requires (forall i :: 0 <= i < |g| ==> g[i].bracket == b) && |Group(all, b)| > 0
    ensures var n := |Group(all, b)| as real;
      && Signed(g, all, BracketEqual) == Signed(g, g, Headcount) / n
      && Total(g, all, BracketEqual) == |g| as real / n
  {
    hide Group, Part, Weight;
    var n := |Group(all, b)| as real;
    if g == [] {
      assert 0.0 / n == 0.0;
    } else {
      var m := |g| - 1;
      EqualWeights(g[..m], all, b);
      HeadcountIgnoresAll(g[..m], g);
      PartOfBracket(g[m], all, g);
      SplitRatio(Signed(g[..m], g, Headcount), Value(g[m]), n);
      SplitRatio(m as real, 1.0, n);
    }
  }

  lemma SplitRatio(a: real, b: real, n: real)
    requires n > 0.0
    ensures (a + b) / n == a / n + b / n
  {
  }

  lemma PartOfBracket(v: Vote, all: seq<Vote>, g: seq<Vote>)
    requires |Group(all, v.bracket)| > 0
    ensures var n := |Group(all, v.bracket)| as real;
      && Weight(all, BracketEqual, v) == 1.0 / n
      && Part(all, BracketEqual, v) == Value(v) / n
      && Part(g, Headcount, v) == Value(v)
  {
    hide Group, Value;
    var n, x := |Group(all, v.bracket)| as real, Value(v);
    assert (1.0 / n) * x == x / n;
  }

  lemma {:induction false} HeadcountIgnoresAll(votes: seq<Vote>, all: seq<Vote>)
    ensures Signed(votes, all, Headcount) == Signed(votes, votes, Headcount)
    ensures Total(votes, all, Headcount) == |votes| as real
  {
    hide Value;
    if votes != [] {
      var n := |votes| - 1;
      HeadcountIgnoresAll(votes[..n], all);
      HeadcountIgnoresAll(votes[..n], votes);
    }
  }

  /** Sum of the brackets' headcount scores. */
  function ScoreSum(votes: seq<Vote>, bs: seq<string>): real {
    if bs == [] then 0.0 else ScoreSum(votes, bs[..|bs| - 1]) + NetScore(Group(votes, bs[|bs| - 1]), Headcount)
  }

  lemma BracketShare(votes: seq<Vote>, b: string)
    requires |Group(votes, b)| > 0
    ensures Signed(Group(votes, b), votes, BracketEqual) == NetScore(Group(votes, b), Headcount)
    ensures Total(Group(votes, b), votes, BracketEqual) == 1.0
  {
    hide Group, Signed, Total, Weight;
    var g := Group(votes, b);
    EqualWeights(g, votes, b);
    HeadcountIgnoresAll(g, g);
    OverItself(|g| as real);
  }

  lemma OverItself(n: real)
    requires n > 0.0
    ensures n / n == 1.0
  {
    var q := n / n;
    assert q * n == n;
    assert (q - 1.0) * n == 0.0;
  }

  lemma {:induction false} ShareSums(votes: seq<Vote>, bs: seq<string>)
    requires forall i :: 0 <= i < |bs| ==> |Group(votes, bs[i])| > 0
    ensures SignedByBracket(votes, votes, BracketEqual, bs) == ScoreSum(votes, bs)
    ensures TotalByBracket(votes, votes, BracketEqual, bs) == |bs| as real
  {
    hide Group, Signed, Total, Weight, NetScore;
    if bs != [] {
      ShareSums(votes, bs[..|bs| - 1]);
      BracketShare(votes, bs[|bs| - 1]);
    }
  }

  lemma {:induction false} BracketsDecided(votes: seq<Vote>, b: string)
    requires b in Brackets(votes)
    ensures |Group(votes, b)| > 0
  {
    var n := |votes| - 1;
    if votes[n].bracket != b {
      BracketsDecided(votes[..n], b);
    }
  }

  /** The bracket_equal score is the unweighted mean, over brackets with a decided agent, of each
      bracket's headcount score. */
  lemma BracketEqualIsMeanOfBrackets(votes: seq<Vote>)
    requires votes != []
    ensures Brackets(votes) != []
    ensures NetScore(votes, BracketEqual) == ScoreSum(votes, Brackets(votes)) / |Brackets(votes)| as real
  {
    hide Group, Signed, Total, Weight, ScoreSum, SignedByBracket, TotalByBracket, Brackets;
    var bs := Brackets(votes);
    assert votes[0].bracket in bs;
    forall i | 0 <= i < |bs| ensures |Group(votes, bs[i])| > 0 {
      BracketsDecided(votes, bs[i]);
    }
    SumsByBracket(votes, votes, BracketEqual, bs);
    ShareSums(votes, bs);
  }

  // ----- headcount_score -----

  /** `headcount_score`: score and number of valid votes. */
  function SignedSum(decisions: seq<(string, Decision)>): (real, nat) {
    if decisions == [] then (0.0, 0)
    else
      var (s, n) := SignedSum(decisions[..|decisions| - 1]);
      var d := decisions[|decisions| - 1].1;
      if d.signal == ParseError then (s, n) else (s + Direction(d.signal) * d.confidence, n + 1)
  }

  function HeadcountScore(decisions: seq<(string, Decision)>): (real, nat) {
    var (s, n) := SignedSum(decisions);
    if n == 0 then (0.0, 0) else (s / n as real, n)
  }

  lemma {:induction false} HeadcountSums(decisions: seq<(string, Decision)>, personas: map<string, Persona>)
    requires forall i :: 0 <= i < |decisions| && decisions[i].1.signal != ParseError ==> decisions[i].0 in personas
    ensures var votes := Votes(decisions, personas);
      Signed(votes, votes, Headcount) == SignedSum(decisions).0 && |votes| == SignedSum(decisions).1
  {
    hide Signed, Direction, Value;
    if decisions == [] {
      NoSignal();
    } else {
      var n := |decisions| - 1;
      HeadcountSums(decisions[..n], personas);
      var before, votes := Votes(decisions[..n], personas), Votes(decisions, personas);
      if decisions[n].1.signal != ParseError {
        var v := VoteOf(decisions[n].0, decisions[n].1, personas[decisions[n].0]);
        assert votes == before + [v];
        HeadcountStep(before, v);
        ValueOf(v);
      } else {
        assert votes == before;
      }
    }
  }

  lemma ValueOf(v: Vote)
    ensures Value(v) == Direction(v.signal) * v.confidence
  {
  }

  lemma NoSignal()
    ensures Signed([], [], Headcount) == 0.0
  {
  }

  lemma HeadcountStep(votes: seq<Vote>, v: Vote)
    ensures Signed(votes + [v], votes + [v], Headcount) == Signed(votes, votes, Headcount) + Value(v)
  {
    hide Value, Signed;
    SumsAppend(votes, v, votes + [v], Headcount);
    HeadcountIgnoresAll(votes, votes + [v]);
  }

  /** The two headcount scores are one: on every round whose decided agents are all on the roster. */
  lemma HeadcountsAgree(decisions: seq<(string, Decision)>, personas: map<string, Persona>)
    requires forall i :: 0 <= i < |decisions| && decisions[i].1.signal != ParseError ==> decisions[i].0 in personas
    ensures HeadcountScore(decisions) == (NetScore(Votes(decisions, personas), Headcount), |Votes(decisions, personas)|)
  {
    hide Signed, Total, Votes, SignedSum;
    HeadcountSums(decisions, personas);
    HeadcountIgnoresAll(Votes(decisions, personas), Votes(decisions, personas));
  }

  // ----- The bootstrap interval -----

  ghost predicate Sorted(s: seq<real>) {
    forall i, j :: 0 <= i <= j < |s| ==> s[i] <= s[j]
  }

  function Ceil(x: real): int {
    if x == x.Floor as real then x.Floor else x.Floor + 1
  }

  /** Linear interpolation at a position between two ranks. */
  function Interpolate(s: seq<real>, position: real): real
    requires s != [] && 0.0 <= position <= (|s| - 1) as real
  {
    var lower, upper := position.Floor, Ceil(position);
    s[lower] + (s[upper] - s[lower]) * (position - lower as real)
  }

  lemma PositionInRange(q: real, n: nat)
    requires 0.0 <= q <= 1.0 && n > 0
    ensures 0.0 <= q * (n - 1) as real <= (n - 1) as real
  {
    var m := (n - 1) as real;
    assert q * m >= 0.0 && (1.0 - q) * m >= 0.0;
  }

  /** `_quantile`. */
  function Quantile(s: seq<real>, q: real): real
    requires s != [] && 0.0 <= q <= 1.0
  {
    PositionInRange(q, |s|);
    Interpolate(s, q * (|s| - 1) as real)
  }

  lemma Between(s: seq<real>, p: real)
    requires s != [] && Sorted(s) && 0.0 <= p <= (|s| - 1) as real
    ensures s[p.Floor] <= Interpolate(s, p) <= s[Ceil(p)]
  {
    assert s[p.Floor] <= s[Ceil(p)];
    Blend(s[p.Floor], s[Ceil(p)], p - p.Floor as real);
  }

  lemma Blend(a: real, b: real, f: real)
    requires a <= b && 0.0 <= f <= 1.0
    ensures a <= a + (b - a) * f <= b
  {
    var gap := b - a;
    NotNegative(gap, f);
    NotNegative(gap, 1.0 - f);
    assert gap * (1.0 - f) == gap - gap * f;
  }

  lemma NotNegative(x: real, y: real)
    requires x >= 0.0 && y >= 0.0
    ensures x * y >= 0.0
  {
  }

  lemma InterpolateGrows(s: seq<real>, a: real, b: real)
    requires s != [] && Sorted(s) && 0.0 <= a <= b <= (|s| - 1) as real
    ensures Interpolate(s, a) <= Interpolate(s, b)
  {
    Between(s, a);
    Between(s, b);
    if a.Floor == b.Floor && a != a.Floor as real {
      var gap := s[Ceil(b)] - s[a.Floor];
      assert gap * (b - a) >= 0.0;
    } else if a == a.Floor as real {
      assert s[a.Floor] <= s[b.Floor];
    } else {
      assert Ceil(a) <= b.Floor;
    }
  }

  /** Quantiles grow with q and stay among the values. */
  lemma QuantileGrows(s: seq<real>, q: real, r: real)
    requires s != [] && Sorted(s) && 0.0 <= q <= r <= 1.0
    ensures s[0] <= Quantile(s, q) <= Quantile(s, r) <= s[|s| - 1]
  {
    hide Interpolate;
    PositionInRange(q, |s|);
    PositionInRange(r, |s|);
    PositionsOrdered(q, r, |s|);
    PositionsGrow(s, q * (|s| - 1) as real, r * (|s| - 1) as real);
  }

  lemma PositionsOrdered(q: real, r: real, n: nat)
    requires q <= r && n > 0
    ensures q * (n - 1) as real <= r * (n - 1) as real
  {
    assert (r - q) * (n - 1) as real >= 0.0;
  }

  lemma PositionsGrow(s: seq<real>, a: real, b: real)
    requires s != [] && Sorted(s) && 0.0 <= a <= b <= (|s| - 1) as real
    ensures s[0] <= Interpolate(s, a) <= Interpolate(s, b) <= s[|s| - 1]
  {
    hide Interpolate;
    InterpolateGrows(s, a, b);
    Between(s, a);
    Between(s, b);
  }

  /** Whatever votes the resampling draws, the interval is ordered and inside [-1, 1]. */
  lemma BootstrapInterval(resamples: seq<seq<Vote>>, w: Weighting, stats: seq<real>, alpha: real)
    requires resamples != [] && 0.0 < alpha < 1.0
    requires forall i :: 0 <= i < |resamples| ==> Proper(resamples[i])
    requires Sorted(stats) && |stats| == |resamples|
    requires forall k :: 0 <= k < |stats| ==> exists i :: 0 <= i < |resamples| && stats[k] == NetScore(resamples[i], w)
    ensures -1.0 <= Quantile(stats, alpha / 2.0) <= Quantile(stats, 1.0 - alpha / 2.0) <= 1.0
  {
    hide NetScore, Proper, Quantile;
    forall k | 0 <= k < |stats| ensures -1.0 <= stats[k] <= 1.0 {
      var i :| 0 <= i < |resamples| && stats[k] == NetScore(resamples[i], w);
      ScoreInRange(resamples[i], w);
    }
    QuantileGrows(stats, alpha / 2.0, 1.0 - alpha / 2.0);
  }
}
