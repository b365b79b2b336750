/** Matching stored cycles to the evaluation plan: `match_cycles` and `_drop_context_drift` of
    eval/run_eval.py. */
module CycleMatching {
  import opened Common

  datatype Arm = Arm(name: string, tag: string, variant: string, seeds: set<int>)

  /** A stored cycle. `rumor` is already normalized; `block` is the market block of its manifest. */
  datatype Row = Row(cycleId: string, tag: string, complete: bool, rumor: string, simSeed: int, block: string)

  datatype CycleRun = CycleRun(arm: Arm, event: string, seed: int, row: Row)

  type Key = (string, string, int)
  type Group = (string, string)

  /** The plan: arms by tag, the rumor index, and what `manifest_problem` says of a row. */
  datatype Plan = Plan(byTag: map<string, Arm>, texts: map<string, (string, string)>,
    problem: (Row, Arm) -> Option<string>)

  const SEED_BASE := 2100
  const DRIFT := "context drift"

  // ----- The verdict on one row -----

  datatype Verdict = Unknown | Incomplete | Orphan | Excluded(reason: string) | Valid(key: Key, run: CycleRun)

  function Judge(p: Plan, row: Row): Verdict {
    if row.tag !in p.byTag then Unknown
    else
      var arm := p.byTag[row.tag];
      var seed := row.simSeed - SEED_BASE;
      if !row.complete then Incomplete
      else if row.rumor !in p.texts || p.texts[row.rumor].1 != arm.variant || seed !in arm.seeds then Orphan
      else if p.problem(row, arm).Some? then Excluded(p.problem(row, arm).value)
      else
        var event := p.texts[row.rumor].0;
        Valid((arm.name, event, seed), CycleRun(arm, event, seed, row))
  }

  /** What the report must count, read off the rows one by one. */
  datatype Tally = Tally(known: nat, incomplete: nat, orphans: nat, valid: nat, excluded: multiset<string>)

  function TallyOf(p: Plan, rows: seq<Row>): (t: Tally)
    ensures t.known == t.incomplete + t.orphans + t.valid + |t.excluded|
  {
    if rows == [] then Tally(0, 0, 0, 0, multiset{})
    else
      var t := TallyOf(p, rows[..|rows| - 1]);
      match Judge(p, rows[|rows| - 1])
      case Unknown => t
      case Incomplete => t.(known := t.known + 1, incomplete := t.incomplete + 1)
      case Orphan => t.(known := t.known + 1, orphans := t.orphans + 1)
      case Excluded(reason) => t.(known := t.known + 1, excluded := t.excluded + multiset{reason})
      case Valid(_, _) => t.(known := t.known + 1, valid := t.valid + 1)
  }

  ghost predicate LastValid(p: Plan, rows: seq<Row>, key: Key, i: int) {
    && 0 <= i < |rows| && Judge(p, rows[i]).Valid? && Judge(p, rows[i]).key == key
    && forall j :: i < j < |rows| && Judge(p, rows[j]).Valid? ==> Judge(p, rows[j]).key != key
  }

  /** Keys in the order in which a dictionary first saw them. */
  function KeyOrder(p: Plan, rows: seq<Row>): (order: seq<Key>)
    ensures forall i, j :: 0 <= i < j < |order| ==> order[i] != order[j]
  {
    if rows == [] then []
    else
      var order, v := KeyOrder(p, rows[..|rows| - 1]), Judge(p, rows[|rows| - 1]);
      if v.Valid? && v.key !in order then order + [v.key] else order
  }

  /** Each key holds the run of its last valid row. */
  ghost predicate Newest(p: Plan, rows: seq<Row>, runs: map<Key, CycleRun>) {
    && (forall key :: key in runs ==> exists i :: LastValid(p, rows, key, i) && runs[key] == Judge(p, rows[i]).run)
    && forall i :: 0 <= i < |rows| && Judge(p, rows[i]).Valid? ==> Judge(p, rows[i]).key in runs
  }

  // ----- The majority block -----

  /** `Counter(blocks).most_common(1)`: the most frequent block, the one seen first on a tie. */
  function FirstMax(blocks: seq<string>, counts: multiset<string>): string
    requires blocks != []
  {
    if |blocks| == 1 then blocks[0]
    else
      var best, last := FirstMax(blocks[..|blocks| - 1], counts), blocks[|blocks| - 1];
      if counts[last] > counts[best] then last else best
  }

  function Majority(blocks: seq<string>): string
    requires blocks != []
  {
    FirstMax(blocks, multiset(blocks))
  }

  lemma {:induction false} FirstMaxIsMax(blocks: seq<string>, counts: multiset<string>) returns (at: nat)
    requires blocks != []
    ensures at < |blocks| && blocks[at] == FirstMax(blocks, counts)
    ensures forall j :: 0 <= j < |blocks| ==> counts[blocks[j]] <= counts[blocks[at]]
    ensures forall j :: 0 <= j < at ==> counts[blocks[j]] < counts[blocks[at]]
  {
    if |blocks| == 1 {
      at := 0;
    } else {
      var n := |blocks| - 1;
      at := FirstMaxIsMax(blocks[..n], counts);
      if counts[blocks[n]] > counts[blocks[at]] {
        at := n;
      }
    }
  }

  // ----- The drift drop -----

  function GroupOf(run: CycleRun): Group {
    (run.event, run.arm.variant)
  }

  ghost predicate Listed(order: seq<Key>, runs: map<Key, CycleRun>) {
    && (forall i :: 0 <= i < |order| ==> order[i] in runs)
    && (forall k :: k in runs ==> k in order)
    && forall i, j :: 0 <= i < j < |order| ==> order[i] != order[j]
  }

  /** The keys of one group, in order. */
  function GroupKeys(order: seq<Key>, runs: map<Key, CycleRun>, g: Group): (keys: seq<Key>)
    ensures forall k :: k in keys <==> k in order && k in runs && GroupOf(runs[k]) == g
  {
    if order == [] then []
    else
      var keys, k := GroupKeys(order[..|order| - 1], runs, g), order[|order| - 1];
      assert order == order[..|order| - 1] + [k];
      if k in runs && GroupOf(runs[k]) == g then keys + [k] else keys
  }

  function BlocksOf(keys: seq<Key>, runs: map<Key, CycleRun>): (blocks: seq<string>)
    requires forall k :: k in keys ==> k in runs
    ensures |blocks| == |keys| && forall i :: 0 <= i < |keys| ==> blocks[i] == runs[keys[i]].row.block
  {
    seq(|keys|, i requires 0 <= i < |keys| => runs[keys[i]].row.block)
  }

  function BlocksIn(order: seq<Key>, runs: map<Key, CycleRun>, g: Group): seq<string> {
    BlocksOf(GroupKeys(order, runs, g), runs)
  }

  /** The run agrees with the majority of its group. */
  predicate Survives(order: seq<Key>, runs: map<Key, CycleRun>, k: Key)
    requires k in runs && k in order
  {
    var blocks := BlocksIn(order, runs, GroupOf(runs[k]));
    assert k in GroupKeys(order, runs, GroupOf(runs[k]));
    runs[k].row.block == Majority(blocks)
  }

  /** `kept` holds the runs of the groups still to come and the survivors of the others. */
  ghost predicate CutTo(order: seq<Key>, runs: map<Key, CycleRun>, todo: set<Group>, kept: map<Key, CycleRun>) {
    && Listed(order, runs)
    && (forall k :: k in kept ==> k in runs && kept[k] == runs[k])
    && forall k :: k in runs ==> (k in kept <==> GroupOf(runs[k]) in todo || Survives(order, runs, k))
  }

  /** `_drop_context_drift`. */
  method DropContextDrift(order: seq<Key>, runs: map<Key, CycleRun>) returns (kept: map<Key, CycleRun>, dropped: nat)
    requires Listed(order, runs)
    ensures CutTo(order, runs, {}, kept)
    ensures |kept| + dropped == |runs|
  {
    hide Listed, CutTo, Survives, GroupKeys, Majority, GroupOf, BlocksIn, Trimmed;
    var groups := GroupByEvent(order, runs);
    kept, dropped := runs, 0;
    var todo := groups.Keys;
    NothingCut(order, runs, todo);
    while todo != {}
      invariant todo <= groups.Keys
      invariant CutTo(order, runs, todo, kept) && |kept| + dropped == |runs|
      decreases |todo|
    {
      var g :| g in todo;
      StillThere(order, runs, todo, kept, g);
      var keys := groups[g];
      assert BlocksIn(order, runs, g) == BlocksOf(keys, runs) by {
        GroupBlocks(order, runs, g);
      }
      var rest, gone := DropFromGroup(keys, runs, kept, Majority(BlocksOf(keys, runs)));
      CutGroup(order, runs, todo, kept, g, rest);
      todo := todo - {g};
      kept, dropped := rest, dropped + gone;
    }
  }

  lemma GroupBlocks(order: seq<Key>, runs: map<Key, CycleRun>, g: Group)
    ensures BlocksIn(order, runs, g) == BlocksOf(GroupKeys(order, runs, g), runs)
  {
  }

  method GroupByEvent(order: seq<Key>, runs: map<Key, CycleRun>) returns (groups: map<Group, seq<Key>>)
    requires Listed(order, runs)
    ensures forall g :: g in groups ==> groups[g] == GroupKeys(order, runs, g) != []
    ensures forall k :: k in runs ==> GroupOf(runs[k]) in groups
  {
    groups := map[];
    for i := 0 to |order|
      invariant Grouped(order[..i], runs, groups)
    {
      assert order[..i + 1] == order[..i] + [order[i]];
      var g := GroupOf(runs[order[i]]);
      GroupOneMore(order[..i], runs, groups, order[i]);
      groups := groups[g := (if g in groups then groups[g] else []) + [order[i]]];
    }
    assert order[..|order|] == order;
    forall k | k in runs ensures GroupOf(runs[k]) in groups {
      assert k in GroupKeys(order, runs, GroupOf(runs[k]));
    }
  }

  ghost predicate Grouped(order: seq<Key>, runs: map<Key, CycleRun>, groups: map<Group, seq<Key>>) {
    && (forall g :: g in groups ==> groups[g] == GroupKeys(order, runs, g) != [])
    && forall g :: g !in groups ==> GroupKeys(order, runs, g) == []
  }

  lemma GroupOneMore(order: seq<Key>, runs: map<Key, CycleRun>, groups: map<Group, seq<Key>>, k: Key)
    requires Grouped(order, runs, groups) && k in runs
    ensures var g := GroupOf(runs[k]);
      Grouped(order + [k], runs, groups[g := (if g in groups then groups[g] else []) + [k]])
  {
    forall g ensures GroupKeys(order + [k], runs, g) ==
      GroupKeys(order, runs, g) + (if GroupOf(runs[k]) == g then [k] else [])
    {
      assert (order + [k])[..|order|] == order;
    }
    hide GroupKeys;
  }

  method DropFromGroup(keys: seq<Key>, runs: map<Key, CycleRun>, all: map<Key, CycleRun>, majority: string)
    returns (rest: map<Key, CycleRun>, gone: nat)
    requires forall k :: k in keys ==> k in runs && k in all
    requires forall i, j :: 0 <= i < j < |keys| ==> keys[i] != keys[j]
    ensures Trimmed(keys, runs, all, majority, rest)
    ensures |rest| + gone == |all|
  {
    hide Trimmed;
    rest, gone := all, 0;
    NothingTrimmed(runs, all, majority);
    assert keys[..0] == [];
    for i := 0 to |keys|
      invariant Trimmed(keys[..i], runs, all, majority, rest)
      invariant |rest| + gone == |all|
    {
      TrimKey(keys[..i], runs, all, majority, rest, keys[i]);
      assert keys[..i + 1] == keys[..i] + [keys[i]];
      if runs[keys[i]].row.block != majority {
        rest := rest - {keys[i]};
        gone := gone + 1;
      }
    }
    assert keys[..|keys|] == keys;
  }

  /** `rest` is `all` without the given keys' runs of a minority block. */
  ghost predicate Trimmed(keys: seq<Key>, runs: map<Key, CycleRun>, all: map<Key, CycleRun>, majority: string,
      rest: map<Key, CycleRun>) {
    && (forall k :: k in rest <==> k in all && !(k in keys && k in runs && runs[k].row.block != majority))
    && forall k :: k in rest ==> rest[k] == all[k]
  }

  lemma NothingTrimmed(runs: map<Key, CycleRun>, all: map<Key, CycleRun>, majority: string)
    ensures Trimmed([], runs, all, majority, all)
  {
  }

  lemma TrimKey(keys: seq<Key>, runs: map<Key, CycleRun>, all: map<Key, CycleRun>, majority: string,
      rest: map<Key, CycleRun>, key: Key)
    requires Trimmed(keys, runs, all, majority, rest) && key in runs && key in all && key !in keys
    ensures runs[key].row.block != majority ==>
      Trimmed(keys + [key], runs, all, majority, rest - {key}) && |rest - {key}| + 1 == |rest|
    ensures runs[key].row.block == majority ==> Trimmed(keys + [key], runs, all, majority, rest)
  {
    assert forall k :: k in keys + [key] <==> k in keys || k == key;
    RemoveOne(rest, key);
  }

  lemma RemoveOne(m: map<Key, CycleRun>, k: Key)
    requires k in m
    ensures |m - {k}| + 1 == |m|
  {
    assert (m - {k}).Keys == m.Keys - {k};
    assert |m.Keys| == |m| && |(m - {k}).Keys| == |m - {k}|;
  }

  lemma NothingCut(order: seq<Key>, runs: map<Key, CycleRun>, todo: set<Group>)
    requires Listed(order, runs) && forall k :: k in runs ==> GroupOf(runs[k]) in todo
    ensures CutTo(order, runs, todo, runs)
  {
  }

  lemma StillThere(order: seq<Key>, runs: map<Key, CycleRun>, todo: set<Group>, kept: map<Key, CycleRun>, g: Group)
    requires Listed(order, runs) && CutTo(order, runs, todo, kept) && g in todo
    ensures var keys := GroupKeys(order, runs, g);
      && (forall k :: k in keys ==> k in runs && k in kept)
      && forall i, j :: 0 <= i < j < |keys| ==> keys[i] != keys[j]
  {
    hide Survives;
    GroupDistinct(order, runs, g);
  }

  lemma {:induction false} GroupDistinct(order: seq<Key>, runs: map<Key, CycleRun>, g: Group)
    requires forall i, j :: 0 <= i < j < |order| ==> order[i] != order[j]
    ensures forall i, j :: 0 <= i < j < |GroupKeys(order, runs, g)| ==>
      GroupKeys(order, runs, g)[i] != GroupKeys(order, runs, g)[j]
  {
    if order != [] {
      var n := |order| - 1;
      GroupDistinct(order[..n], runs, g);
      assert order[n] !in order[..n];
      assert order[n] !in GroupKeys(order[..n], runs, g);
    }
  }

  lemma CutGroup(order: seq<Key>, runs: map<Key, CycleRun>, todo: set<Group>, kept: map<Key, CycleRun>, g: Group,
      rest: map<Key, CycleRun>)
    requires Listed(order, runs) && CutTo(order, runs, todo, kept) && g in todo && GroupKeys(order, runs, g) != []
    requires Trimmed(GroupKeys(order, runs, g), runs, kept, Majority(BlocksIn(order, runs, g)), rest)
    ensures CutTo(order, runs, todo - {g}, rest)
  {
    hide Majority, GroupKeys;
    forall k | k in runs ensures k in rest <==> GroupOf(runs[k]) in todo - {g} || Survives(order, runs, k) {
      assert k in order;
      assert k in GroupKeys(order, runs, g) <==> GroupOf(runs[k]) == g;
    }
  }

  /** How many runs of the group carry the block. */
  function Support(order: seq<Key>, runs: map<Key, CycleRun>, g: Group, block: string): nat {
    multiset(BlocksIn(order, runs, g))[block]
  }

  /** After the drop all runs of an event and variant share one block, at least as frequent as any
      dropped one; and no event and variant loses all its runs. */
  lemma OneBlockPerGroup(order: seq<Key>, runs: map<Key, CycleRun>, kept: map<Key, CycleRun>, a: Key, b: Key)
    requires Listed(order, runs) && CutTo(order, runs, {}, kept)
    requires a in runs && b in runs && GroupOf(runs[a]) == GroupOf(runs[b])
    ensures a in kept && b in kept ==> runs[a].row.block == runs[b].row.block
    ensures a in kept ==>
      Support(order, runs, GroupOf(runs[b]), runs[a].row.block) >=
        Support(order, runs, GroupOf(runs[b]), runs[b].row.block)
    ensures exists k :: k in kept && GroupOf(runs[k]) == GroupOf(runs[a])
  {
    hide GroupKeys;
    var g := GroupOf(runs[a]);
    var keys, blocks := GroupKeys(order, runs, g), BlocksIn(order, runs, g);
    assert a in keys && b in keys;
    var at := FirstMaxIsMax(blocks, multiset(blocks));
    assert keys[at] in keys && Survives(order, runs, keys[at]);
    assert keys[at] in kept;
    var j :| 0 <= j < |keys| && keys[j] == b;
    assert blocks[j] == runs[b].row.block;
  }

  // ----- The majority among the runs themselves -----

  predicate Together(a: CycleRun, b: CycleRun) {
    a.event == b.event && a.arm.variant == b.arm.variant
  }

  /** The run of a key is of the same event and variant as `run` and carries the block. */
  function Carries(runs: map<Key, CycleRun>, run: CycleRun, block: string): Key -> bool {
    k => k in runs && Together(runs[k], run) && runs[k].row.block == block
  }

  lemma {:induction false} SupportIsCount(order: seq<Key>, runs: map<Key, CycleRun>, run: CycleRun, block: string)
    ensures Support(order, runs, GroupOf(run), block) == Count(order, Carries(runs, run, block))
  {
    if order != [] {
      SupportIsCount(order[..|order| - 1], runs, run, block);
      LastBlock(order, runs, GroupOf(run));
      hide BlocksIn, GroupKeys, BlocksOf;
    }
  }

  lemma LastBlock(order: seq<Key>, runs: map<Key, CycleRun>, g: Group)
    requires order != []
    ensures var k := order[|order| - 1];
      BlocksIn(order, runs, g) == BlocksIn(order[..|order| - 1], runs, g)
        + (if k in runs && GroupOf(runs[k]) == g then [runs[k].row.block] else [])
  {
  }

  lemma {:induction false} KeysInOrder(order: seq<Key>, runs: map<Key, CycleRun>, g: Group, i: nat, j: nat)
    returns (x: int, y: int)
    requires i < j < |GroupKeys(order, runs, g)|
    ensures 0 <= x < y < |order| && order[x] == GroupKeys(order, runs, g)[i] && order[y] == GroupKeys(order, runs, g)[j]
  {
    var n := |order| - 1;
    var keys := GroupKeys(order[..n], runs, g);
    if j < |keys| {
      x, y := KeysInOrder(order[..n], runs, g, i, j);
    } else {
      y := n;
      assert keys[i] in order[..n];
      x :| 0 <= x < n && order[..n][x] == keys[i];
    }
  }

  /** The block of `a` wins over the block of `b`: more runs of the event and variant carry it, or as many
      do and one of them came before `b`. */
  ghost predicate Wins(order: seq<Key>, runs: map<Key, CycleRun>, a: Key, b: Key)
    requires a in runs && b in runs
  {
    var x, y := runs[a].row.block, runs[b].row.block;
    var most, least := Count(order, Carries(runs, runs[a], x)), Count(order, Carries(runs, runs[a], y));
    || x == y
    || most > least
    || (most == least && exists i, j :: 0 <= i < j < |order| && order[j] == b && Carries(runs, runs[a], x)(order[i]))
  }

  lemma TiesGoToTheFirst(order: seq<Key>, runs: map<Key, CycleRun>, a: Key, at: nat)
    requires Listed(order, runs) && a in runs
    requires var blocks := BlocksIn(order, runs, GroupOf(runs[a]));
      at < |blocks| && (forall j :: 0 <= j < at ==> multiset(blocks)[blocks[j]] < multiset(blocks)[blocks[at]])
    ensures var keys := GroupKeys(order, runs, GroupOf(runs[a]));
      keys[at] in runs && (Wins(order, runs, a, keys[at]) ==>
        runs[a].row.block == runs[keys[at]].row.block
        || Count(order, Carries(runs, runs[a], runs[a].row.block))
             > Count(order, Carries(runs, runs[a], runs[keys[at]].row.block)))
  {
    hide GroupKeys;
    var g := GroupOf(runs[a]);
    var keys, blocks := GroupKeys(order, runs, g), BlocksIn(order, runs, g);
    var b := keys[at];
    assert b in keys;
    var x, y := runs[a].row.block, runs[b].row.block;
    SupportIsCount(order, runs, runs[a], x);
    SupportIsCount(order, runs, runs[a], y);
    if x != y && Wins(order, runs, a, b) && Support(order, runs, g, x) == Support(order, runs, g, y) {
      var i, j :| 0 <= i < j < |order| && order[j] == b && Carries(runs, runs[a], x)(order[i]);
      assert order[i] in keys;
      var c :| 0 <= c < |keys| && keys[c] == order[i];
      assert blocks[c] == x;
      if c > at {
        var p, q := KeysInOrder(order, runs, g, at, c);
      }
    }
  }

  /** A run survives the drop exactly when its block wins over every block of its event and variant. */
  lemma SurvivesExactly(order: seq<Key>, runs: map<Key, CycleRun>, kept: map<Key, CycleRun>, a: Key)
    requires Listed(order, runs) && CutTo(order, runs, {}, kept) && a in runs
    ensures a in kept <==> forall b :: b in runs && Together(runs[a], runs[b]) ==> Wins(order, runs, a, b)
  {
    hide GroupKeys, Wins, Carries;
    var g := GroupOf(runs[a]);
    var keys, blocks := GroupKeys(order, runs, g), BlocksIn(order, runs, g);
    assert a in keys;
    var at := FirstMaxIsMax(blocks, multiset(blocks));
    assert keys[at] in keys;
    assert a in kept <==> runs[a].row.block == blocks[at];
    if a in kept {
      forall b | b in runs && Together(runs[a], runs[b]) ensures Wins(order, runs, a, b) {
        MajorityWins(order, runs, a, b, at);
      }
    } else {
      TiesGoToTheFirst(order, runs, a, at);
      SupportIsCount(order, runs, runs[a], runs[a].row.block);
      SupportIsCount(order, runs, runs[a], blocks[at]);
      var i :| 0 <= i < |keys| && keys[i] == a;
      assert blocks[i] == runs[a].row.block;
      assert !Wins(order, runs, a, keys[at]);
    }
  }

  lemma MajorityWins(order: seq<Key>, runs: map<Key, CycleRun>, a: Key, b: Key, at: nat)
    requires Listed(order, runs) && a in runs && b in runs && Together(runs[a], runs[b])
    requires var blocks := BlocksIn(order, runs, GroupOf(runs[a]));
      && at < |blocks| && runs[a].row.block == blocks[at]
      && (forall j :: 0 <= j < |blocks| ==> multiset(blocks)[blocks[j]] <= multiset(blocks)[blocks[at]])
      && (forall j :: 0 <= j < at ==> multiset(blocks)[blocks[j]] < multiset(blocks)[blocks[at]])
    ensures Wins(order, runs, a, b)
  {
    hide GroupKeys;
    var g := GroupOf(runs[a]);
    var keys, blocks := GroupKeys(order, runs, g), BlocksIn(order, runs, g);
    assert b in keys && keys[at] in keys;
    var j :| 0 <= j < |keys| && keys[j] == b;
    assert blocks[j] == runs[b].row.block;
    SupportIsCount(order, runs, runs[a], blocks[at]);
    SupportIsCount(order, runs, runs[a], blocks[j]);
    if blocks[j] != blocks[at] && multiset(blocks)[blocks[j]] == multiset(blocks)[blocks[at]] {
      var p, q := KeysInOrder(order, runs, g, at, j);
      assert Carries(runs, runs[a], blocks[at])(order[p]);
    }
  }

  // ----- match_cycles -----

  /** The dictionary after the rows: a later valid row replaces an earlier one. */
  function Index(p: Plan, rows: seq<Row>): map<Key, CycleRun> {
    if rows == [] then map[]
    else
      var m, v := Index(p, rows[..|rows| - 1]), Judge(p, rows[|rows| - 1]);
      if v.Valid? then m[v.key := v.run] else m
  }

  lemma {:induction false} IndexHolds(p: Plan, rows: seq<Row>, key: Key, i: nat)
    requires LastValid(p, rows, key, i)
    ensures key in Index(p, rows) && Index(p, rows)[key] == Judge(p, rows[i]).run
  {
    hide Judge;
    var n := |rows| - 1;
    if i < n {
      assert forall j :: 0 <= j < n ==> rows[..n][j] == rows[j];
      IndexHolds(p, rows[..n], key, i);
    }
  }

  lemma {:induction false} IndexFinds(p: Plan, rows: seq<Row>, key: Key) returns (i: int)
    ensures if key in Index(p, rows) then LastValid(p, rows, key, i)
      else forall j :: 0 <= j < |rows| && Judge(p, rows[j]).Valid? ==> Judge(p, rows[j]).key != key
  {
    hide Judge;
    i := -1;
    if rows != [] {
      var n := |rows| - 1;
      i := IndexFinds(p, rows[..n], key);
      assert forall j :: 0 <= j < n ==> rows[..n][j] == rows[j];
      if Judge(p, rows[n]).Valid? && Judge(p, rows[n]).key == key {
        i := n;
      }
    }
  }

  /** The surviving run of each key is its last valid row, and every valid row has its key kept. */
  lemma IndexIsNewest(p: Plan, rows: seq<Row>)
    ensures Newest(p, rows, Index(p, rows))
  {
    hide Judge, Index;
    forall key | key in Index(p, rows)
      ensures exists i :: LastValid(p, rows, key, i) && Index(p, rows)[key] == Judge(p, rows[i]).run
    {
      var i := IndexFinds(p, rows, key);
      IndexHolds(p, rows, key, i);
    }
    forall j | 0 <= j < |rows| && Judge(p, rows[j]).Valid? ensures Judge(p, rows[j]).key in Index(p, rows) {
      var i := IndexFinds(p, rows, Judge(p, rows[j]).key);
    }
  }

  lemma {:induction false} OrderLists(p: Plan, rows: seq<Row>)
    ensures Listed(KeyOrder(p, rows), Index(p, rows))
  {
    hide Judge;
    if rows != [] {
      OrderLists(p, rows[..|rows| - 1]);
    }
  }

  // ----- The rows themselves -----

  predicate Known(p: Plan, row: Row) {
    row.tag in p.byTag
  }

  predicate Unfinished(p: Plan, row: Row) {
    Known(p, row) && !row.complete
  }

  /** A complete cycle of a planned arm, event and seed. */
  predicate Fits(p: Plan, row: Row, event: string, seed: int) {
    && row.tag in p.byTag && row.complete && row.rumor in p.texts
    && p.texts[row.rumor] == (event, p.byTag[row.tag].variant)
    && row.simSeed == 2100 + seed && seed in p.byTag[row.tag].seeds
  }

  predicate Unplanned(p: Plan, row: Row) {
    && row.tag in p.byTag && row.complete
    && (row.rumor in p.texts ==> !Fits(p, row, p.texts[row.rumor].0, row.simSeed - 2100))
  }

  predicate Refused(p: Plan, row: Row, reason: string) {
    && row.rumor in p.texts && Fits(p, row, p.texts[row.rumor].0, row.simSeed - 2100)
    && p.problem(row, p.byTag[row.tag]) == Some(reason)
  }

  /** A run of the key's arm, event and seed, without a problem. */
  predicate Runs(p: Plan, row: Row, key: Key) {
    && Fits(p, row, key.1, key.2) && p.byTag[row.tag].name == key.0
    && p.problem(row, p.byTag[row.tag]) == None
  }

  ghost predicate LastRun(p: Plan, rows: seq<Row>, key: Key, i: int) {
    0 <= i < |rows| && Runs(p, rows[i], key) && forall j :: i < j < |rows| ==> !Runs(p, rows[j], key)
  }

  function Knows(p: Plan): Row -> bool {
    row => Known(p, row)
  }

  function IsUnfinished(p: Plan): Row -> bool {
    row => Unfinished(p, row)
  }

  function IsUnplanned(p: Plan): Row -> bool {
    row => Unplanned(p, row)
  }

  function IsRefused(p: Plan, reason: string): Row -> bool {
    row => Refused(p, row, reason)
  }

  lemma JudgeExactly(p: Plan, row: Row)
    ensures Judge(p, row).Unknown? <==> !Known(p, row)
    ensures Judge(p, row).Incomplete? <==> Unfinished(p, row)
    ensures Judge(p, row).Orphan? <==> Unplanned(p, row)
    ensures forall reason :: Judge(p, row) == Excluded(reason) <==> Refused(p, row, reason)
    ensures forall key :: Runs(p, row, key) <==> Judge(p, row).Valid? && Judge(p, row).key == key
    ensures Judge(p, row).Valid? ==>
      var v := Judge(p, row); row.tag in p.byTag && v.run == CycleRun(p.byTag[row.tag], v.key.1, v.key.2, row)
  {
  }

  /** The report counts the rows of each kind. */
  lemma {:induction false} TallyCounts(p: Plan, rows: seq<Row>)
    ensures TallyOf(p, rows).known == Count(rows, Knows(p))
    ensures TallyOf(p, rows).incomplete == Count(rows, IsUnfinished(p))
    ensures TallyOf(p, rows).orphans == Count(rows, IsUnplanned(p))
    ensures forall reason :: TallyOf(p, rows).excluded[reason] == Count(rows, IsRefused(p, reason))
  {
    if rows != [] {
      var n := |rows| - 1;
      TallyCounts(p, rows[..n]);
      JudgeExactly(p, rows[n]);
      hide Judge, Known, Unfinished, Unplanned, Refused;
    }
  }

  /** A key is held exactly when some row runs it, by the last such row. */
  lemma IndexExactly(p: Plan, rows: seq<Row>, key: Key)
    ensures key in Index(p, rows) <==> exists i :: 0 <= i < |rows| && Runs(p, rows[i], key)
    ensures forall i :: LastRun(p, rows, key, i) ==>
      key in Index(p, rows) && Index(p, rows)[key] == CycleRun(p.byTag[rows[i].tag], key.1, key.2, rows[i])
    ensures key in Index(p, rows) ==> exists i :: LastRun(p, rows, key, i)
  {
    forall i | 0 <= i < |rows|
      ensures Runs(p, rows[i], key) <==> Judge(p, rows[i]).Valid? && Judge(p, rows[i]).key == key
      ensures Judge(p, rows[i]).Valid? ==> var v := Judge(p, rows[i]);
        rows[i].tag in p.byTag && v.run == CycleRun(p.byTag[rows[i].tag], v.key.1, v.key.2, rows[i])
    {
      JudgeExactly(p, rows[i]);
    }
    hide Judge, Index;
    var i := IndexFinds(p, rows, key);
    if key in Index(p, rows) {
      SameLast(p, rows, key, i);
    }
    forall j | LastRun(p, rows, key, j)
      ensures key in Index(p, rows) && Index(p, rows)[key] == CycleRun(p.byTag[rows[j].tag], key.1, key.2, rows[j])
    {
      assert LastValid(p, rows, key, j);
      IndexHolds(p, rows, key, j);
    }
  }

  lemma SameLast(p: Plan, rows: seq<Row>, key: Key, i: int)
    requires LastValid(p, rows, key, i)
    requires forall j :: 0 <= j < |rows| ==>
      (Runs(p, rows[j], key) <==> Judge(p, rows[j]).Valid? && Judge(p, rows[j]).key == key)
    ensures LastRun(p, rows, key, i)
  {
    hide Judge, Runs;
  }

  /** Keys stand in the order in which a row first ran them. */
  lemma {:induction false} FirstSeen(p: Plan, rows: seq<Row>, a: nat, b: nat) returns (i: int)
    requires a < b < |KeyOrder(p, rows)|
    ensures 0 <= i < |rows| && Runs(p, rows[i], KeyOrder(p, rows)[a])
    ensures forall j :: 0 <= j <= i ==> !Runs(p, rows[j], KeyOrder(p, rows)[b])
  {
    var n := |rows| - 1;
    JudgeExactly(p, rows[n]);
    OrderLists(p, rows[..n]);
    hide Judge, Runs;
    var order := KeyOrder(p, rows[..n]);
    if b < |order| {
      i := FirstSeen(p, rows[..n], a, b);
      assert forall j :: 0 <= j <= i ==> rows[..n][j] == rows[j];
    } else {
      IndexExactly(p, rows[..n], order[a]);
      IndexExactly(p, rows[..n], KeyOrder(p, rows)[b]);
      i :| 0 <= i < n && Runs(p, rows[..n][i], order[a]);
      assert forall j :: 0 <= j < n ==> rows[..n][j] == rows[j];
    }
  }

  // ----- The method -----

  datatype Report = Report(matched: nat, incomplete: nat, orphans: nat, duplicates: nat, excluded: multiset<string>)

  /** Every row with a known tag is counted once: used, incomplete, orphan, replaced or excluded. */
  method MatchCycles(p: Plan, rows: seq<Row>) returns (runs: map<Key, CycleRun>, report: Report)
    ensures CutTo(KeyOrder(p, rows), Index(p, rows), {}, runs)
    ensures var t := TallyOf(p, rows); var newest := |Index(p, rows)|;
      && report.matched == |runs| <= newest
      && report.incomplete == t.incomplete && report.orphans == t.orphans
      && report.duplicates == t.valid - newest
      && report.excluded == t.excluded[DRIFT := t.excluded[DRIFT] + newest - |runs|]
      && report.matched + report.incomplete + report.orphans + report.duplicates + |report.excluded| == t.known
    ensures forall key :: key in runs ==>
      exists i :: LastRun(p, rows, key, i) && runs[key] == CycleRun(p.byTag[rows[i].tag], key.1, key.2, rows[i])
    ensures report.incomplete == Count(rows, IsUnfinished(p)) && report.orphans == Count(rows, IsUnplanned(p))
    ensures report.matched == |runs|
    ensures forall reason :: reason != "context drift" ==>
      report.excluded[reason] == Count(rows, IsRefused(p, reason))
    ensures report.matched + report.incomplete + report.orphans + report.duplicates + |report.excluded|
      == Count(rows, Knows(p))
  {
    hide Judge, CutTo, Listed, TallyOf, KeyOrder, Index;
    report := Report(0, 0, 0, 0, multiset{});
    var all: map<Key, CycleRun> := map[];
    var order: seq<Key> := [];
    NoRows(p);
    for i := 0 to |rows|
      invariant all == Index(p, rows[..i]) && order == KeyOrder(p, rows[..i])
      invariant Counted(p, rows[..i], report)
    {
      assert rows[..i + 1] == rows[..i] + [rows[i]];
      OneMoreRow(p, rows[..i], rows[i], report);
      match Judge(p, rows[i]) {
        case Unknown =>
        case Incomplete => report := report.(incomplete := report.incomplete + 1);
        case Orphan => report := report.(orphans := report.orphans + 1);
        case Excluded(reason) => report := report.(excluded := report.excluded + multiset{reason});
        case Valid(key, run) =>
          if key in all {
            report := report.(duplicates := report.duplicates + 1);
          } else {
            order := order + [key];
          }
          all := all[key := run];
      }
    }
    assert rows[..|rows|] == rows;
    OrderLists(p, rows);
    var dropped;
    runs, dropped := DropContextDrift(order, all);
    report := report.(matched := |runs|, excluded := report.excluded[DRIFT := report.excluded[DRIFT] + dropped]);
    TallyCounts(p, rows);
    CutIsSubset(order, all, runs);
    forall key | key in runs
      ensures exists i :: LastRun(p, rows, key, i) && runs[key] == CycleRun(p.byTag[rows[i].tag], key.1, key.2, rows[i])
    {
      IndexExactly(p, rows, key);
    }
  }

  lemma CutIsSubset(order: seq<Key>, all: map<Key, CycleRun>, runs: map<Key, CycleRun>)
    requires CutTo(order, all, {}, runs)
    ensures forall key :: key in runs ==> key in all && runs[key] == all[key]
  {
  }

  ghost predicate Counted(p: Plan, rows: seq<Row>, r: Report) {
    var t := TallyOf(p, rows);
    && r.incomplete == t.incomplete && r.orphans == t.orphans && r.excluded == t.excluded
    && r.duplicates + |Index(p, rows)| == t.valid
  }

  lemma NoRows(p: Plan)
    ensures Index(p, []) == map[] && KeyOrder(p, []) == [] && Counted(p, [], Report(0, 0, 0, 0, multiset{}))
  {
  }

  /** The report after one more row. */
  function Recorded(r: Report, v: Verdict, known: bool): Report {
    match v
    case Unknown => r
    case Incomplete => r.(incomplete := r.incomplete + 1)
    case Orphan => r.(orphans := r.orphans + 1)
    case Excluded(reason) => r.(excluded := r.excluded + multiset{reason})
    case Valid(_, _) => if known then r.(duplicates := r.duplicates + 1) else r
  }

  lemma OneMoreRow(p: Plan, rows: seq<Row>, row: Row, r: Report)
    requires Counted(p, rows, r)
    ensures var v, all, order := Judge(p, row), Index(p, rows), KeyOrder(p, rows);
      && Index(p, rows + [row]) == (if v.Valid? then all[v.key := v.run] else all)
      && KeyOrder(p, rows + [row]) == (if v.Valid? && v.key !in all then order + [v.key] else order)
      && Counted(p, rows + [row], Recorded(r, v, v.Valid? && v.key in all))
  {
    hide Judge, Counted, TallyOf, Recorded;
    assert (rows + [row])[..|rows|] == rows;
    OrderLists(p, rows);
    CountOneMore(p, rows, row, r);
  }

  lemma CountOneMore(p: Plan, rows: seq<Row>, row: Row, r: Report)
    requires Counted(p, rows, r)
    ensures Counted(p, rows + [row],
      Recorded(r, Judge(p, row), Judge(p, row).Valid? && Judge(p, row).key in Index(p, rows)))
  {
    hide Judge;
    assert (rows + [row])[..|rows|] == rows;
    var v := Judge(p, row);
    if v.Valid? {
      OneMoreKey(Index(p, rows), v.key, v.run);
    }
  }

  lemma OneMoreKey(all: map<Key, CycleRun>, key: Key, run: CycleRun)
    ensures |all[key := run]| == |all| + (if key in all then 0 else 1)
  {
    assert all[key := run].Keys == all.Keys + {key};
    assert |all[key := run].Keys| == |all[key := run]| && |all.Keys| == |all|;
    if key in all {
      assert all.Keys + {key} == all.Keys;
    }
  }
}
