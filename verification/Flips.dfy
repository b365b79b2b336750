/** Five separate counts of "flips" between two rounds agree: `compute_shifts` (rounds.py),
    `transition_matrix`, `split_flips` and `retest_metrics` (metrics.py), and
    `compute_flip_type` (episodes.py). */
module Flips {
  import opened Common

  type Round = seq<(string, Signal)>

  ghost predicate UniqueAgents(r: Round) {
    forall i, j :: 0 <= i < j < |r| ==> r[i].0 != r[j].0
  }

  /** `dict(pairs)`: the last signal of an id wins. */
  function AsMap(r: Round): (m: map<string, Signal>)
    ensures forall id :: id in m <==> exists i :: 0 <= i < |r| && r[i].0 == id
  {
    if r == [] then map[] else AsMap(r[..|r| - 1])[r[|r| - 1].0 := r[|r| - 1].1]
  }

  // ----- The definition -----

  predicate Flipped(before: map<string, Signal>, after: map<string, Signal>, id: string) {
    && id in before && id in after && before[id] != ParseError && after[id] != ParseError
    && before[id] != after[id]
  }

  /** The agents that decided in both rounds and changed their signal. */
  function FlipSet(before: map<string, Signal>, after: map<string, Signal>): set<string> {
    set id | id in before && Flipped(before, after, id)
  }

  function CellSet(before: map<string, Signal>, after: map<string, Signal>, a: Signal, b: Signal): set<string> {
    set id | id in before && id in after && before[id] == a && after[id] == b
  }

  const CHANGES: seq<(Signal, Signal)> :=
    [(Buy, Sell), (Buy, Hold), (Sell, Buy), (Sell, Hold), (Hold, Buy), (Hold, Sell)]

  const CELLS: seq<(Signal, Signal)> := CHANGES + [(Buy, Buy), (Sell, Sell), (Hold, Hold)]

  function At(m: map<(Signal, Signal), nat>, cell: (Signal, Signal)): nat {
    if cell in m then m[cell] else 0
  }

  /** `signal_transitions[key] = signal_transitions.get(key, 0) + 1`. */
  function Bump(m: map<(Signal, Signal), nat>, a: Signal, b: Signal): map<(Signal, Signal), nat> {
    m[(a, b) := At(m, (a, b)) + 1]
  }

  /** The sum of the listed cells. */
  function SumOf(m: map<(Signal, Signal), nat>, cells: seq<(Signal, Signal)>): nat {
    if cells == [] then 0 else SumOf(m, cells[..|cells| - 1]) + At(m, cells[|cells| - 1])
  }

  function EmptyTable(): map<(Signal, Signal), nat> {
    map c | c in CELLS :: 0
  }

  /** `sum(signal_transitions.values())`: the off-diagonal cells. */
  function OffDiagonal(m: map<(Signal, Signal), nat>): nat {
    SumOf(m, CHANGES)
  }

  // ----- One more agent -----

  lemma AddAgentToCell(before: map<string, Signal>, after: map<string, Signal>, id: string, s: Signal,
      c: (Signal, Signal))
    requires id !in after
    ensures |CellSet(before, after[id := s], c.0, c.1)|
      == |CellSet(before, after, c.0, c.1)| + (if id in before && c == (before[id], s) then 1 else 0)
  {
    var next := after[id := s];
    if id in before && c == (before[id], s) {
      assert CellSet(before, next, c.0, c.1) == CellSet(before, after, c.0, c.1) + {id};
    } else {
      assert CellSet(before, next, c.0, c.1) == CellSet(before, after, c.0, c.1);
    }
  }

  lemma FreshAgent(r: Round, k: nat)
    requires UniqueAgents(r) && k < |r|
    ensures AsMap(r[..k + 1]) == AsMap(r[..k])[r[k].0 := r[k].1] && r[k].0 !in AsMap(r[..k])
  {
    assert r[..k + 1][..k] == r[..k];
  }

  lemma WholeRound(r: Round)
    ensures r[..|r|] == r
  {
  }

  // ----- Pair by pair -----

  /** The pair changes a decided signal of the round before. */
  predicate PairFlips(before: map<string, Signal>, pair: (string, Signal)) {
    DecidedTwice(before, pair) && before[pair.0] != pair.1
  }

  predicate DecidedTwice(before: map<string, Signal>, pair: (string, Signal)) {
    pair.0 in before && before[pair.0] != ParseError && pair.1 != ParseError
  }

  /** How many pairs of the round were decided in both. */
  function DecidedPairs(before: map<string, Signal>, curr: Round): nat {
    if curr == [] then 0
    else DecidedPairs(before, curr[..|curr| - 1]) + (if DecidedTwice(before, curr[|curr| - 1]) then 1 else 0)
  }

  /** How many flipped, among the agents of a group. */
  function PairFlipsIn(before: map<string, Signal>, curr: Round, group: set<string>): nat {
    if curr == [] then 0
    else
      var pair := curr[|curr| - 1];
      PairFlipsIn(before, curr[..|curr| - 1], group) + (if PairFlips(before, pair) && pair.0 in group then 1 else 0)
  }

  function PairFlipsOf(before: map<string, Signal>, curr: Round): nat {
    if curr == [] then 0
    else PairFlipsOf(before, curr[..|curr| - 1]) + (if PairFlips(before, curr[|curr| - 1]) then 1 else 0)
  }

  /** How many made the transition of a cell. */
  function PairsInCell(before: map<string, Signal>, curr: Round, c: (Signal, Signal)): nat {
    if curr == [] then 0
    else
      var (id, signal) := curr[|curr| - 1];
      PairsInCell(before, curr[..|curr| - 1], c) + (if id in before && c == (before[id], signal) then 1 else 0)
  }

  // ----- The implementations -----

  /** `split_flips`: signal changes inside and outside a group. */
  method SplitFlips(prev: Round, curr: Round, group: set<string>) returns (inside: nat, outside: nat)
    ensures inside == PairFlipsIn(AsMap(prev), curr, group)
    ensures inside + outside == PairFlipsOf(AsMap(prev), curr)
  {
    var before := AsMap(prev);
    inside, outside := 0, 0;
    for k := 0 to |curr|
      invariant inside == PairFlipsIn(before, curr[..k], group)
      invariant inside + outside == PairFlipsOf(before, curr[..k])
    {
      assert curr[..k + 1][..k] == curr[..k];
      var (id, signal) := curr[k];
      if !(id in before && before[id] != ParseError && signal != ParseError && before[id] != signal) {
        // not a flip
      } else if id in group {
        inside := inside + 1;
      } else {
        outside := outside + 1;
      }
    }
    WholeRound(curr);
  }

  /** `retest_metrics`: pairs decided in both draws, and the flips among them. */
  method RetestFlips(first: Round, second: Round) returns (pairs: nat, flips: nat)
    ensures pairs == DecidedPairs(AsMap(first), second) && flips == PairFlipsOf(AsMap(first), second) <= pairs
  {
    var before := AsMap(first);
    pairs, flips := 0, 0;
    for k := 0 to |second|
      invariant pairs == DecidedPairs(before, second[..k]) && flips == PairFlipsOf(before, second[..k]) <= pairs
    {
      assert second[..k + 1][..k] == second[..k];
      var (id, signal) := second[k];
      if id in before && before[id] != ParseError && signal != ParseError {
        pairs := pairs + 1;
        if before[id] != signal {
          flips := flips + 1;
        }
      }
    }
    WholeRound(second);
  }

  /** How many pairs of a group's agents replace a pair of the same agent that flipped. */
  function Overwritten(before: map<string, Signal>, curr: Round, group: set<string>): nat {
    if curr == [] then 0
    else
      var rest, id := curr[..|curr| - 1], curr[|curr| - 1].0;
      Overwritten(before, rest, group) + (if id in group && id in FlipSet(before, AsMap(rest)) then 1 else 0)
  }

  /** Counting pairs is counting agents, but for the flips that were overwritten. */
  lemma {:induction false} PairsAreAgents(before: map<string, Signal>, curr: Round, group: set<string>)
    ensures PairFlipsIn(before, curr, group)
      == |FlipSet(before, AsMap(curr)) * group| + Overwritten(before, curr, group)
  {
    hide FlipSet, AsMap;
    if curr == [] {
      NoFlips(before);
    } else {
      var n := |curr| - 1;
      PairsAreAgents(before, curr[..n], group);
      LastPair(curr);
      OnePair(before, AsMap(curr[..n]), curr[n].0, curr[n].1);
      OneAgentInGroup(FlipSet(before, AsMap(curr[..n])), FlipSet(before, AsMap(curr)), curr[n].0, group);
    }
  }

  lemma LastPair(curr: Round)
    requires curr != []
    ensures var (id, signal) := curr[|curr| - 1]; AsMap(curr) == AsMap(curr[..|curr| - 1])[id := signal]
  {
  }

  lemma OnePair(before: map<string, Signal>, after: map<string, Signal>, id: string, s: Signal)
    ensures FlipSet(before, after[id := s]) ==
      FlipSet(before, after) - {id} + (if PairFlips(before, (id, s)) then {id} else {})
  {
  }

  lemma OneAgentInGroup(a: set<string>, b: set<string>, id: string, group: set<string>)
    requires b == a - {id} || b == a - {id} + {id}
    ensures |b * group| - (if id in b && id in group then 1 else 0)
      == |a * group| - (if id in a && id in group then 1 else 0)
  {
    OthersInGroup(a, id, group);
    OthersInGroup(b, id, group);
    assert a - {id} == b - {id};
  }

  lemma OthersInGroup(s: set<string>, id: string, group: set<string>)
    ensures |s * group| == |(s - {id}) * group| + (if id in s && id in group then 1 else 0)
  {
    if id in s && id in group {
      assert s * group == (s - {id}) * group + {id};
    } else {
      assert s * group == (s - {id}) * group;
    }
  }

  /** Nothing is overwritten exactly when no pair that flips is followed by another of its agent. */
  ghost predicate FlipsAreFinal(before: map<string, Signal>, curr: Round) {
    forall i, j :: 0 <= i < j < |curr| && curr[i].0 == curr[j].0 ==> !PairFlips(before, curr[i])
  }

  lemma {:induction false} OverwrittenExactly(before: map<string, Signal>, curr: Round, group: set<string>)
    requires AsMap(curr).Keys <= group
    ensures Overwritten(before, curr, group) == 0 <==> FlipsAreFinal(before, curr)
  {
    hide FlipSet, AsMap, PairFlips;
    if curr != [] {
      var n := |curr| - 1;
      LastPair(curr);
      OverwrittenExactly(before, curr[..n], group);
      assert curr == curr[..n] + [curr[n]];
      assert curr[n].0 in AsMap(curr);
      if FlipsAreFinal(before, curr[..n]) {
        StandingFlip(before, curr[..n], curr[n].0);
      }
    }
  }

  /** If nothing was overwritten so far, an agent's flip stands exactly when one of its pairs flips. */
  lemma StandingFlip(before: map<string, Signal>, curr: Round, id: string)
    requires FlipsAreFinal(before, curr)
    ensures id in FlipSet(before, AsMap(curr)) <==>
      exists i :: 0 <= i < |curr| && curr[i].0 == id && PairFlips(before, curr[i])
  {
    hide AsMap;
    if i :| 0 <= i < |curr| && curr[i].0 == id && PairFlips(before, curr[i]) {
      var k := LastOf(curr, id);
      assert k == i;
    }
    if id in FlipSet(before, AsMap(curr)) {
      var k := LastOf(curr, id);
      assert PairFlips(before, curr[k]);
    }
  }

  lemma {:induction false} LastOf(r: Round, id: string) returns (k: nat)
    requires id in AsMap(r)
    ensures k < |r| && r[k].0 == id && AsMap(r)[id] == r[k].1
    ensures forall j :: k < j < |r| ==> r[j].0 != id
  {
    var n := |r| - 1;
    k := n;
    if r[n].0 != id {
      k := LastOf(r[..n], id);
      assert r == r[..n] + [r[n]];
    }
  }

  lemma {:induction false} CellPairsAreAgents(before: map<string, Signal>, curr: Round, c: (Signal, Signal))
    requires UniqueAgents(curr)
    ensures PairsInCell(before, curr, c) == |CellSet(before, AsMap(curr), c.0, c.1)|
  {
    hide CellSet, AsMap;
    if curr == [] {
      NoFlips(before);
    } else {
      var n := |curr| - 1;
      CellPairsAreAgents(before, curr[..n], c);
      FreshAgent(curr, n);
      WholeRound(curr);
      AddAgentToCell(before, AsMap(curr[..n]), curr[n].0, curr[n].1, c);
    }
  }

  /** An agent listed twice: two pairs flip, one agent does. */
  lemma RepeatedAgentCountsTwice(id: string)
    ensures PairFlipsOf(map[id := Buy], [(id, Sell), (id, Sell)]) == 2
    ensures |FlipSet(map[id := Buy], AsMap([(id, Sell), (id, Sell)]))| == 1
  {
    var curr := [(id, Sell), (id, Sell)];
    assert curr[..1] == [(id, Sell)] && curr[..1][..0] == [];
    assert PairFlipsOf(map[id := Buy], curr[..1]) == 1;
    assert AsMap(curr) == map[id := Sell];
    assert FlipSet(map[id := Buy], map[id := Sell]) == {id};
  }

  lemma NoFlips(before: map<string, Signal>)
    ensures FlipSet(before, AsMap([])) == {}
    ensures forall a, b :: CellSet(before, AsMap([]), a, b) == {}
  {
  }

  lemma AllCells(c: (Signal, Signal))
    ensures c in CELLS <==> IsCell(c)
    ensures c in CHANGES <==> IsChange(c)
  {
  }

  predicate IsCell(c: (Signal, Signal)) {
    c.0 != ParseError && c.1 != ParseError
  }

  predicate IsChange(c: (Signal, Signal)) {
    IsCell(c) && c.0 != c.1
  }

  /** Every cell holds the number of pairs that made its transition. */
  ghost predicate Tabulates(before: map<string, Signal>, curr: Round, m: map<(Signal, Signal), nat>) {
    && (forall c :: c in m <==> IsCell(c))
    && forall c :: IsCell(c) ==> m[c] == PairsInCell(before, curr, c)
  }

  /** `transition_matrix`: all nine cells, counting agents decided in both rounds. */
  method TransitionMatrix(prev: Round, curr: Round) returns (matrix: map<(Signal, Signal), nat>)
    ensures Tabulates(AsMap(prev), curr, matrix)
  {
    hide Tabulates, EmptyTable, AsMap;
    var before := AsMap(prev);
    matrix := EmptyTable();
    EmptyTabulates(before);
    assert curr[..0] == [];
    for k := 0 to |curr|
      invariant Tabulates(before, curr[..k], matrix)
    {
      assert curr[..k + 1] == curr[..k] + [curr[k]];
      var (id, signal) := curr[k];
      TableStep(before, curr[..k], matrix, id, signal);
      if id in before && before[id] != ParseError && signal != ParseError {
        var cell := (before[id], signal);
        matrix := matrix[cell := matrix[cell] + 1];
      }
    }
    WholeRound(curr);
  }

  lemma EmptyTabulates(before: map<string, Signal>)
    ensures Tabulates(before, [], EmptyTable())
  {
    forall c ensures c in CELLS <==> IsCell(c) {
      AllCells(c);
    }
  }

  lemma TableStep(before: map<string, Signal>, curr: Round, m: map<(Signal, Signal), nat>, id: string, s: Signal)
    requires Tabulates(before, curr, m)
    ensures id in before && before[id] != ParseError && s != ParseError ==> (before[id], s) in m
    ensures Tabulates(before, curr + [(id, s)],
              if id in before && before[id] != ParseError && s != ParseError
              then m[(before[id], s) := m[(before[id], s)] + 1] else m)
  {
    assert (curr + [(id, s)])[..|curr|] == curr;
  }

  /** The transitions and the flips seen once only the agents of `todo` are still to come. */
  ghost predicate Seen(before: map<string, Signal>, after: map<string, Signal>, todo: set<string>,
                       m: map<(Signal, Signal), nat>, shifted: nat)
  {
    && (forall c :: c in m ==> IsChange(c))
    && (forall c :: IsChange(c) ==> At(m, c) == |CellSet(before, after, c.0, c.1) - todo|)
    && shifted == |FlipSet(before, after) - todo|
  }

  /** `compute_shifts`: transitions between differing signals, and agents shifted. */
  method ComputeShifts(prev: Round, curr: Round)
    returns (transitions: map<(Signal, Signal), nat>, totalFlips: nat, agentsShifted: nat)
    ensures Seen(AsMap(prev), AsMap(curr), {}, transitions, agentsShifted)
    ensures totalFlips == OffDiagonal(transitions)
  {
    hide Seen, OffDiagonal, AsMap, Bump;
    var before, after := AsMap(prev), AsMap(curr);
    transitions, agentsShifted := map[], 0;
    var todo := before.Keys;
    NobodyVisited(before, after);
    while todo != {}
      invariant todo <= before.Keys && Seen(before, after, todo, transitions, agentsShifted)
      decreases |todo|
    {
      var id :| id in todo;
      VisitAgent(before, after, todo, id, transitions, agentsShifted);
      todo := todo - {id};
      if Flipped(before, after, id) {
        transitions := Bump(transitions, before[id], after[id]);
        agentsShifted := agentsShifted + 1;
      }
    }
    totalFlips := OffDiagonal(transitions);
  }

  lemma VisitAgent(before: map<string, Signal>, after: map<string, Signal>, todo: set<string>, id: string,
                   m: map<(Signal, Signal), nat>, shifted: nat)
    requires id in todo && todo <= before.Keys && Seen(before, after, todo, m, shifted)
    ensures if Flipped(before, after, id)
      then Seen(before, after, todo - {id}, Bump(m, before[id], after[id]), shifted + 1)
      else Seen(before, after, todo - {id}, m, shifted)
  {
    hide CellSet, FlipSet, Bump;
    VisitFlips(before, after, todo, id);
    var left := todo - {id};
    var next := if Flipped(before, after, id) then Bump(m, before[id], after[id]) else m;
    forall c | IsChange(c) ensures At(next, c) == |CellSet(before, after, c.0, c.1) - left| {
      VisitCell(before, after, todo, id, c);
      if Flipped(before, after, id) {
        BumpAt(m, before[id], after[id], c);
      }
    }
    forall c | c in next ensures IsChange(c) {
      if Flipped(before, after, id) {
        BumpKeys(m, before[id], after[id]);
      }
    }
  }

  lemma BumpAt(m: map<(Signal, Signal), nat>, a: Signal, b: Signal, c: (Signal, Signal))
    ensures At(Bump(m, a, b), c) == At(m, c) + (if c == (a, b) then 1 else 0)
  {
  }

  lemma BumpKeys(m: map<(Signal, Signal), nat>, a: Signal, b: Signal)
    ensures Bump(m, a, b).Keys == m.Keys + {(a, b)}
  {
  }

  lemma NobodyVisited(before: map<string, Signal>, after: map<string, Signal>)
    ensures Seen(before, after, before.Keys, map[], 0)
  {
    assert FlipSet(before, after) - before.Keys == {};
    forall a, b ensures CellSet(before, after, a, b) - before.Keys == {} {
    }
  }

  lemma VisitFlips(before: map<string, Signal>, after: map<string, Signal>, todo: set<string>, id: string)
    requires id in todo && todo <= before.Keys
    ensures |FlipSet(before, after) - (todo - {id})|
      == |FlipSet(before, after) - todo| + (if Flipped(before, after, id) then 1 else 0)
  {
    assert FlipSet(before, after) - (todo - {id})
      == FlipSet(before, after) - todo + (if Flipped(before, after, id) then {id} else {});
  }

  lemma VisitCell(before: map<string, Signal>, after: map<string, Signal>, todo: set<string>, id: string,
      c: (Signal, Signal))
    requires id in todo && todo <= before.Keys
    ensures |CellSet(before, after, c.0, c.1) - (todo - {id})|
      == |CellSet(before, after, c.0, c.1) - todo| + (if id in after && c == (before[id], after[id]) then 1 else 0)
  {
    assert CellSet(before, after, c.0, c.1) - (todo - {id})
      == CellSet(before, after, c.0, c.1) - todo + (if id in after && c == (before[id], after[id]) then {id} else {});
  }

  // ----- compute_flip_type -----

  datatype FlipType = NoFlip | Flip(from: Signal, to: Signal)

  function ComputeFlipType(prev: Option<Signal>, curr: Signal): FlipType {
    if prev == None then NoFlip
    else if prev.value == ParseError then NoFlip
    else if curr == ParseError then NoFlip
    else if prev.value == curr then NoFlip
    else Flip(prev.value, curr)
  }

  /** How many of a round's episode records carry a flip. */
  function FlipRecords(before: map<string, Signal>, curr: Round): nat {
    if curr == [] then 0
    else
      var (id, signal) := curr[|curr| - 1];
      var prev := if id in before then Some(before[id]) else None;
      FlipRecords(before, curr[..|curr| - 1]) + (if ComputeFlipType(prev, signal) != NoFlip then 1 else 0)
  }

  /** How many carry one type. */
  function RecordsOf(before: map<string, Signal>, curr: Round, t: FlipType): nat {
    if curr == [] then 0
    else
      var (id, signal) := curr[|curr| - 1];
      var prev := if id in before then Some(before[id]) else None;
      RecordsOf(before, curr[..|curr| - 1], t) + (if ComputeFlipType(prev, signal) == t then 1 else 0)
  }

  /** The records of each flip type are as many as the pairs in its cell of the matrix. */
  lemma {:induction false} TypesFillCells(before: map<string, Signal>, curr: Round, c: (Signal, Signal))
    requires IsChange(c)
    ensures RecordsOf(before, curr, Flip(c.0, c.1)) == PairsInCell(before, curr, c)
  {
    if curr != [] {
      TypesFillCells(before, curr[..|curr| - 1], c);
    }
  }

  lemma {:induction false} FlipRecordsCount(before: map<string, Signal>, curr: Round)
    ensures FlipRecords(before, curr) == PairFlipsOf(before, curr)
  {
    if curr != [] {
      FlipRecordsCount(before, curr[..|curr| - 1]);
    }
  }

  // ----- Agreement -----

  ghost predicate CellCounts(before: map<string, Signal>, after: map<string, Signal>, m: map<(Signal, Signal), nat>) {
    forall c :: IsChange(c) ==> At(m, c) == |CellSet(before, after, c.0, c.1)|
  }

  /** The flips whose transition is among the first `k` listed. */
  function FlipsAmong(before: map<string, Signal>, after: map<string, Signal>, k: nat): set<string>
    requires k <= |CHANGES|
  {
    set id | id in before && Flipped(before, after, id) && (before[id], after[id]) in CHANGES[..k]
  }

  lemma OneMoreChange(before: map<string, Signal>, after: map<string, Signal>, k: nat)
    requires k < |CHANGES|
    ensures |FlipsAmong(before, after, k + 1)|
      == |FlipsAmong(before, after, k)| + |CellSet(before, after, CHANGES[k].0, CHANGES[k].1)|
  {
    var c := CHANGES[k];
    var some, cell := FlipsAmong(before, after, k), CellSet(before, after, c.0, c.1);
    OneMoreListed(k);
    CellFlips(before, after, c);
    hide CellSet, Flipped;
    assert FlipsAmong(before, after, k + 1) == some + cell;
    assert some !! cell;
  }

  lemma OneMoreListed(k: nat)
    requires k < |CHANGES|
    ensures IsChange(CHANGES[k]) && CHANGES[..k + 1] == CHANGES[..k] + [CHANGES[k]] && CHANGES[k] !in CHANGES[..k]
  {
    AllCells(CHANGES[k]);
  }

  lemma CellFlips(before: map<string, Signal>, after: map<string, Signal>, c: (Signal, Signal))
    requires IsChange(c)
    ensures forall id :: id in CellSet(before, after, c.0, c.1) <==>
      id in before && Flipped(before, after, id) && (before[id], after[id]) == c
  {
  }

  lemma {:induction false} CellsAddUp(before: map<string, Signal>, after: map<string, Signal>,
      m: map<(Signal, Signal), nat>, k: nat)
    requires k <= |CHANGES| && CellCounts(before, after, m)
    ensures SumOf(m, CHANGES[..k]) == |FlipsAmong(before, after, k)|
  {
    if k > 0 {
      CellsAddUp(before, after, m, k - 1);
      OneMoreChange(before, after, k - 1);
      assert CHANGES[..k][..k - 1] == CHANGES[..k - 1];
      AllCells(CHANGES[k - 1]);
    }
  }

  lemma ChangesSumToFlips(before: map<string, Signal>, after: map<string, Signal>, m: map<(Signal, Signal), nat>)
    requires CellCounts(before, after, m)
    ensures OffDiagonal(m) == |FlipSet(before, after)|
  {
    CellsAddUp(before, after, m, |CHANGES|);
    assert CHANGES[..|CHANGES|] == CHANGES;
    forall id | id in FlipSet(before, after) ensures (before[id], after[id]) in CHANGES {
      AllCells((before[id], after[id]));
    }
    assert FlipSet(before, after) == FlipsAmong(before, after, |CHANGES|);
  }

  /** For any two rounds and any group: the two counts of agents agree, the four counts of pairs agree,
      and they differ by the flips that a later pair of the same agent overwrote. */
  method AllFlipCountsAgree(prev: Round, curr: Round, group: set<string>)
    returns (totalFlips: nat, agentsShifted: nat, offDiagonal: nat, inside: nat, outside: nat, retest: nat)
    ensures totalFlips == agentsShifted
    ensures offDiagonal == inside + outside == retest == FlipRecords(AsMap(prev), curr)
    ensures totalFlips <= retest && (totalFlips == retest <==> FlipsAreFinal(AsMap(prev), curr))
  {
    hide FlipSet, Tabulates, CellCounts, OffDiagonal, FlipRecords, AsMap, Seen, PairFlipsOf, PairFlipsIn, Overwritten;
    hide FlipsAreFinal;
    var transitions, matrix, pairs;
    transitions, totalFlips, agentsShifted := ComputeShifts(prev, curr);
    matrix := TransitionMatrix(prev, curr);
    offDiagonal := OffDiagonal(matrix);
    inside, outside := SplitFlips(prev, curr, group);
    pairs, retest := RetestFlips(prev, curr);
    EverybodyVisited(AsMap(prev), AsMap(curr), transitions, agentsShifted);
    ChangesSumToFlips(AsMap(prev), AsMap(curr), transitions);
    OffDiagonalPairs(AsMap(prev), curr, matrix);
    FlipRecordsCount(AsMap(prev), curr);
    FlipsOfAll(AsMap(prev), curr);
    OverwrittenExactly(AsMap(prev), curr, AsMap(curr).Keys);
  }

  lemma FlipsOfAll(before: map<string, Signal>, curr: Round)
    ensures PairFlipsOf(before, curr) == |FlipSet(before, AsMap(curr))| + Overwritten(before, curr, AsMap(curr).Keys)
  {
    hide AsMap, Overwritten;
    var all := AsMap(curr).Keys;
    PairsAreAgents(before, curr, all);
    EveryoneIn(before, curr, all);
    assert FlipSet(before, AsMap(curr)) * all == FlipSet(before, AsMap(curr));
  }

  lemma {:induction false} EveryoneIn(before: map<string, Signal>, curr: Round, all: set<string>)
    requires forall i :: 0 <= i < |curr| ==> curr[i].0 in all
    ensures PairFlipsIn(before, curr, all) == PairFlipsOf(before, curr)
  {
    if curr != [] {
      EveryoneIn(before, curr[..|curr| - 1], all);
    }
  }

  /** The pairs in the first `k` off-diagonal cells. */
  function PairsInCells(before: map<string, Signal>, curr: Round, k: nat): nat
    requires k <= |CHANGES|
  {
    if k == 0 then 0 else PairsInCells(before, curr, k - 1) + PairsInCell(before, curr, CHANGES[k - 1])
  }

  lemma OffDiagonalPairs(before: map<string, Signal>, curr: Round, m: map<(Signal, Signal), nat>)
    requires Tabulates(before, curr, m)
    ensures OffDiagonal(m) == PairFlipsOf(before, curr)
  {
    hide PairsInCell, Tabulates;
    SumOfCells(before, curr, m, |CHANGES|);
    assert CHANGES[..|CHANGES|] == CHANGES;
    CellsHoldFlips(before, curr);
  }

  lemma {:induction false} SumOfCells(before: map<string, Signal>, curr: Round, m: map<(Signal, Signal), nat>, k: nat)
    requires k <= |CHANGES| && Tabulates(before, curr, m)
    ensures SumOf(m, CHANGES[..k]) == PairsInCells(before, curr, k)
  {
    hide PairsInCell;
    if k > 0 {
      SumOfCells(before, curr, m, k - 1);
      assert CHANGES[..k][..k - 1] == CHANGES[..k - 1];
      AllCells(CHANGES[k - 1]);
    }
  }

  lemma {:induction false} CellsHoldFlips(before: map<string, Signal>, curr: Round)
    ensures PairsInCells(before, curr, |CHANGES|) == PairFlipsOf(before, curr)
  {
    if curr == [] {
      EmptyCells(before, |CHANGES|);
    } else {
      var n := |curr| - 1;
      CellsHoldFlips(before, curr[..n]);
      LastInCells(before, curr, |CHANGES|);
      if PairFlips(before, curr[n]) {
        AllCells((before[curr[n].0], curr[n].1));
        assert (before[curr[n].0], curr[n].1) in CHANGES[..|CHANGES|];
      }
    }
  }

  lemma {:induction false} EmptyCells(before: map<string, Signal>, k: nat)
    requires k <= |CHANGES|
    ensures PairsInCells(before, [], k) == 0
  {
    if k > 0 {
      EmptyCells(before, k - 1);
    }
  }

  /** The last pair is in at most one of the cells, since no cell is listed twice. */
  lemma {:induction false} LastInCells(before: map<string, Signal>, curr: Round, k: nat)
    requires curr != [] && k <= |CHANGES|
    ensures var (id, signal) := curr[|curr| - 1];
      PairsInCells(before, curr, k) == PairsInCells(before, curr[..|curr| - 1], k)
        + (if id in before && (before[id], signal) in CHANGES[..k] then 1 else 0)
  {
    if k > 0 {
      LastInCells(before, curr, k - 1);
      assert CHANGES[..k] == CHANGES[..k - 1] + [CHANGES[k - 1]];
      assert CHANGES[k - 1] !in CHANGES[..k - 1];
    }
  }

  lemma EverybodyVisited(before: map<string, Signal>, after: map<string, Signal>, m: map<(Signal, Signal), nat>,
      shifted: nat)
    requires Seen(before, after, {}, m, shifted)
    ensures CellCounts(before, after, m) && shifted == |FlipSet(before, after)|
  {
    hide CellSet, FlipSet;
    forall c | IsChange(c) ensures CellSet(before, after, c.0, c.1) - {} == CellSet(before, after, c.0, c.1) {
    }
    assert FlipSet(before, after) - {} == FlipSet(before, after);
  }

  lemma MatrixCounts(before: map<string, Signal>, curr: Round, m: map<(Signal, Signal), nat>)
    requires UniqueAgents(curr) && Tabulates(before, curr, m)
    ensures CellCounts(before, AsMap(curr), m)
  {
    hide CellSet, PairsInCell, AsMap;
    forall c: (Signal, Signal) | IsCell(c)
      ensures PairsInCell(before, curr, c) == |CellSet(before, AsMap(curr), c.0, c.1)|
    {
      CellPairsAreAgents(before, curr, c);
    }
  }
}
