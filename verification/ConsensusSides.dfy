/** What the consensus score says: which side it is on, by how much, and how it moves when a vote
    changes. Nothing here goes through the estimator's own weights and directions. */
module ConsensusSides {
  import opened Common
  import opened Consensus

  function SameBracket(b: string): Vote -> bool {
    (v: Vote) => v.bracket == b
  }

  /** One, the reach, or one over the number of votes of the bracket. */
  function Share(all: seq<Vote>, w: Weighting, v: Vote): real {
    match w
    case Headcount => 1.0
    case Reach => v.reach
    case BracketEqual =>
      var n := Count(all, SameBracket(v.bracket));
      if n == 0 then 0.0 else 1.0 / n as real
  }

  /** Weight times confidence, for a vote on the side of `signal`. */
  function Term(all: seq<Vote>, w: Weighting, signal: Signal, v: Vote): real {
    if v.signal == signal then Share(all, w, v) * v.confidence else 0.0
  }

  /** The same over the votes of one side. */
  function Side(votes: seq<Vote>, all: seq<Vote>, w: Weighting, signal: Signal): real {
    if votes == [] then 0.0
    else Side(votes[..|votes| - 1], all, w, signal) + Term(all, w, signal, votes[|votes| - 1])
  }

  function Shares(votes: seq<Vote>, all: seq<Vote>, w: Weighting): real {
    if votes == [] then 0.0 else Shares(votes[..|votes| - 1], all, w) + Share(all, w, votes[|votes| - 1])
  }

  lemma {:induction false} GroupIsCount(votes: seq<Vote>, b: string)
    ensures |Group(votes, b)| == Count(votes, SameBracket(b))
  {
    if votes != [] {
      GroupIsCount(votes[..|votes| - 1], b);
    }
  }

  lemma WeightIsShare(all: seq<Vote>, w: Weighting, v: Vote)
    ensures Weight(all, w, v) == Share(all, w, v)
  {
    GroupIsCount(all, v.bracket);
  }

  lemma PartIsSide(all: seq<Vote>, w: Weighting, v: Vote)
    ensures Part(all, w, v) == Term(all, w, Buy, v) - Term(all, w, Sell, v)
  {
    WeightIsShare(all, w, v);
    hide Weight, Share;
    assert Part(all, w, v) == Share(all, w, v) * Value(v);
    assert Share(all, w, v) * (-v.confidence) == -(Share(all, w, v) * v.confidence);
  }

  lemma {:induction false} SumsAreSides(votes: seq<Vote>, all: seq<Vote>, w: Weighting)
    ensures Signed(votes, all, w) == Side(votes, all, w, Buy) - Side(votes, all, w, Sell)
    ensures Total(votes, all, w) == Shares(votes, all, w)
  {
    hide Part, Weight, Share, Term;
    if votes != [] {
      var n := |votes| - 1;
      SumsAreSides(votes[..n], all, w);
      PartIsSide(all, w, votes[n]);
      WeightIsShare(all, w, votes[n]);
    }
  }

  /** The score is what BUY has over SELL, over all weight; 0 when there is no weight. */
  lemma ScoreExactly(votes: seq<Vote>, w: Weighting)
    ensures var all := Shares(votes, votes, w);
      NetScore(votes, w) ==
        if all <= 0.0 then 0.0 else (Side(votes, votes, w, Buy) - Side(votes, votes, w, Sell)) / all
  {
    hide Signed, Total;
    SumsAreSides(votes, votes, w);
    if votes == [] {
      assert Shares(votes, votes, w) == 0.0;
    }
  }

  lemma {:induction false} NoWeightNoSides(votes: seq<Vote>, all: seq<Vote>, w: Weighting, signal: Signal)
    requires Proper(votes)
    ensures Shares(votes, all, w) >= 0.0 && Side(votes, all, w, signal) >= 0.0
    ensures Shares(votes, all, w) == 0.0 ==> Side(votes, all, w, signal) == 0.0
  {
    if votes != [] {
      var n := |votes| - 1;
      NoWeightNoSides(votes[..n], all, w, signal);
      TermNotNegative(all, w, signal, votes[n]);
      hide Share, Term;
    }
  }

  lemma TermNotNegative(all: seq<Vote>, w: Weighting, signal: Signal, v: Vote)
    requires 0.0 <= v.confidence <= 1.0 && v.reach >= 0.0
    ensures Share(all, w, v) >= 0.0 && Term(all, w, signal, v) >= 0.0
    ensures Share(all, w, v) == 0.0 ==> Term(all, w, signal, v) == 0.0
  {
    ShareNotNegative(all, w, v);
    hide Share;
    assert Share(all, w, v) * v.confidence >= 0.0;
  }

  lemma ShareNotNegative(all: seq<Vote>, w: Weighting, v: Vote)
    requires v.reach >= 0.0
    ensures Share(all, w, v) >= 0.0
  {
  }

  lemma RatioSign(s: real, t: real)
    requires t > 0.0
    ensures (s / t > 0.0 <==> s > 0.0) && (s / t < 0.0 <==> s < 0.0)
  {
    var q := s / t;
    assert q * t == s;
  }

  /** The score is on the side that has more weight times confidence. */
  lemma ScoreTakesSides(votes: seq<Vote>, w: Weighting)
    requires Proper(votes)
    ensures NetScore(votes, w) > 0.0 <==> Side(votes, votes, w, Buy) > Side(votes, votes, w, Sell)
    ensures NetScore(votes, w) < 0.0 <==> Side(votes, votes, w, Buy) < Side(votes, votes, w, Sell)
  {
    hide NetScore, Side, Shares;
    ScoreExactly(votes, w);
    NoWeightNoSides(votes, votes, w, Buy);
    NoWeightNoSides(votes, votes, w, Sell);
    var all := Shares(votes, votes, w);
    if all > 0.0 {
      RatioSign(Side(votes, votes, w, Buy) - Side(votes, votes, w, Sell), all);
    }
  }

  // ----- When a vote changes -----

  /** From SELL over HOLD to BUY. */
  predicate Warmer(a: Signal, b: Signal) {
    (a == Sell && b == Hold) || (a == Hold && b == Buy) || (a == Sell && b == Buy)
  }

  lemma {:induction false} CountChanged(votes: seq<Vote>, i: nat, v: Vote, b: string)
    requires i < |votes| && v.bracket == votes[i].bracket
    ensures Count(votes[i := v], SameBracket(b)) == Count(votes, SameBracket(b))
  {
    var n := |votes| - 1;
    if i < n {
      CountChanged(votes[..n], i, v, b);
      assert votes[i := v][..n] == votes[..n][i := v];
    } else {
      assert votes[i := v][..n] == votes[..n];
    }
  }

  lemma ShareUnchanged(all: seq<Vote>, i: nat, v: Vote, w: Weighting, x: Vote)
    requires i < |all| && v.bracket == all[i].bracket
    ensures Share(all[i := v], w, x) == Share(all, w, x)
  {
    CountChanged(all, i, v, x.bracket);
  }

  lemma {:induction false} SidesUnchanged(votes: seq<Vote>, all: seq<Vote>, other: seq<Vote>, w: Weighting,
      signal: Signal)
    requires forall x :: Share(all, w, x) == Share(other, w, x)
    ensures Side(votes, all, w, signal) == Side(votes, other, w, signal)
    ensures Shares(votes, all, w) == Shares(votes, other, w)
  {
    hide Share;
    if votes != [] {
      var v := votes[|votes| - 1];
      assert Term(all, w, signal, v) == Term(other, w, signal, v);
      hide Term;
      SidesUnchanged(votes[..|votes| - 1], all, other, w, signal);
    }
  }

  lemma {:induction false} SideChanged(votes: seq<Vote>, all: seq<Vote>, i: nat, v: Vote, w: Weighting, signal: Signal)
    requires i < |votes| && v.bracket == votes[i].bracket && v.reach == votes[i].reach
    ensures Side(votes[i := v], all, w, signal) == Side(votes, all, w, signal)
      + Term(all, w, signal, v) - Term(all, w, signal, votes[i])
    ensures Shares(votes[i := v], all, w) == Shares(votes, all, w)
  {
    SameShare(all, w, v, votes[i]);
    hide Share, Term;
    var n := |votes| - 1;
    if i < n {
      SideChanged(votes[..n], all, i, v, w, signal);
      assert votes[i := v][..n] == votes[..n][i := v];
    } else {
      assert votes[i := v][..n] == votes[..n];
    }
  }

  lemma SameShare(all: seq<Vote>, w: Weighting, a: Vote, b: Vote)
    requires a.bracket == b.bracket && a.reach == b.reach
    ensures Share(all, w, a) == Share(all, w, b)
  {
  }

  /** Turning a SELL into a HOLD, or a HOLD into a BUY, never lowers the score. */
  lemma WarmerRaises(votes: seq<Vote>, i: nat, signal: Signal, w: Weighting)
    requires Proper(votes) && i < |votes| && Warmer(votes[i].signal, signal)
    ensures NetScore(votes[i := votes[i].(signal := signal)], w) >= NetScore(votes, w)
  {
    var v := votes[i].(signal := signal);
    var after := votes[i := v];
    ScoreExactly(votes, w);
    ScoreExactly(after, w);
    forall x ensures Share(after, w, x) == Share(votes, w, x) {
      ShareUnchanged(votes, i, v, w, x);
    }
    hide NetScore, Side, Shares, Share, Term;
    SidesUnchanged(after, after, votes, w, Buy);
    SidesUnchanged(after, after, votes, w, Sell);
    SideChanged(votes, votes, i, v, w, Buy);
    SideChanged(votes, votes, i, v, w, Sell);
    TermsWarmer(votes, w, votes[i], v);
    var all := Shares(votes, votes, w);
    if all > 0.0 {
      Divide(Side(votes, votes, w, Buy) - Side(votes, votes, w, Sell),
             Side(after, after, w, Buy) - Side(after, after, w, Sell), all);
    }
  }

  lemma TermsWarmer(all: seq<Vote>, w: Weighting, a: Vote, b: Vote)
    requires Warmer(a.signal, b.signal) && b == a.(signal := b.signal) && 0.0 <= a.confidence <= 1.0 && a.reach >= 0.0
    ensures Term(all, w, Buy, b) - Term(all, w, Sell, b) >= Term(all, w, Buy, a) - Term(all, w, Sell, a)
  {
    SameShare(all, w, a, b);
    TermNotNegative(all, w, a.signal, a);
    TermNotNegative(all, w, b.signal, b);
    hide Share;
  }

  lemma Divide(a: real, b: real, t: real)
    requires t > 0.0 && a <= b
    ensures a / t <= b / t
  {
  }

  /** Where everybody buys, the score is the weighted mean of the confidences. */
  lemma {:induction false} NobodyOn(votes: seq<Vote>, all: seq<Vote>, w: Weighting, signal: Signal)
    requires forall i :: 0 <= i < |votes| ==> votes[i].signal != signal
    ensures Side(votes, all, w, signal) == 0.0
  {
    if votes != [] {
      NobodyOn(votes[..|votes| - 1], all, w, signal);
    }
  }

  lemma AllBuying(votes: seq<Vote>, w: Weighting)
    requires (forall i :: 0 <= i < |votes| ==> votes[i].signal == Buy) && Shares(votes, votes, w) > 0.0
    ensures NetScore(votes, w) == Side(votes, votes, w, Buy) / Shares(votes, votes, w)
  {
    ScoreExactly(votes, w);
    NobodyOn(votes, votes, w, Sell);
    hide NetScore, Side, Shares;
  }

  // ----- headcount_score -----

  /** The confidences of one side, over decisions. */
  function Confidence(decisions: seq<(string, Decision)>, signal: Signal): real {
    if decisions == [] then 0.0
    else
      var d := decisions[|decisions| - 1].1;
      Confidence(decisions[..|decisions| - 1], signal) + (if d.signal == signal then d.confidence else 0.0)
  }

  predicate Valid(d: (string, Decision)) {
    d.1.signal != ParseError
  }

  lemma {:induction false} SignedSumExactly(decisions: seq<(string, Decision)>)
    ensures SignedSum(decisions) ==
      (Confidence(decisions, Buy) - Confidence(decisions, Sell), Count(decisions, Valid))
  {
    if decisions != [] {
      SignedSumExactly(decisions[..|decisions| - 1]);
    }
  }

  /** The mean signed confidence of the valid votes, and their number. */
  lemma HeadcountExactly(decisions: seq<(string, Decision)>)
    ensures var n := Count(decisions, Valid);
      HeadcountScore(decisions) ==
        (if n == 0 then 0.0 else (Confidence(decisions, Buy) - Confidence(decisions, Sell)) / n as real, n)
  {
    SignedSumExactly(decisions);
    hide SignedSum;
  }

  // ----- Who votes -----

  /** The votes of a longer list, and of a single decision. */
  lemma {:induction false} VotesExactly(a: seq<(string, Decision)>, b: seq<(string, Decision)>,
      personas: map<string, Persona>)
    ensures Votes(a + b, personas) == Votes(a, personas) + Votes(b, personas)
    ensures |b| == 1 ==>
      var (id, d) := b[0];
      Votes(b, personas) ==
        if id in personas && (d.signal == Buy || d.signal == Sell || d.signal == Hold)
        then [Vote(id, personas[id].bracket, d.signal, d.confidence, personas[id].reach)] else []
  {
    if b == [] {
      assert a + b == a;
    } else {
      var n := |b| - 1;
      VotesExactly(a, b[..n], personas);
      assert (a + b)[..|a + b| - 1] == a + b[..n];
      if n == 0 {
        assert b[..0] == [];
      }
    }
  }

  // ----- Quantiles -----

  /** At a rank the quantile is the value, and between two ranks it is their mixture. */
  lemma QuantileMixes(s: seq<real>, q: real, k: nat, f: real)
    requires |s| > 0 && 0.0 <= q <= 1.0 && 0.0 <= f < 1.0 && k < |s| && (f > 0.0 ==> k + 1 < |s|)
    requires q * (|s| - 1) as real == k as real + f
    ensures Quantile(s, q) == if f == 0.0 then s[k] else (1.0 - f) * s[k] + f * s[k + 1]
  {
    var p := k as real + f;
    PositionInRange(q, |s|);
    assert p.Floor == k;
  }
}
