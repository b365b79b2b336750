/** The round builder of src/alphaswarm/peers.py: every reader's peer block and exposure, the
    seeded control readers, and the exposure counts of a round. */
module PeerRounds {
  import opened Common
  import opened Sorting
  import opened PeerSelection
  import opened PeerRendering

  datatype Decision = Decision(signal: Signal, confidence: string, rationale: string, cited: seq<string>)

  /** Every random draw for a reader: logs of uniform draws, a shuffle, and a sample of a list. */
  datatype Draws = Draws(
    peer: (string, string) -> real, bracket: (string, string) -> real,
    shuffle: (string, seq<string>) -> seq<string>, pick: (string, seq<string>, nat) -> seq<string>)

  datatype Sim = Sim(
    peerLimit: nat, minBrackets: int, bracketCap: int, personalBoost: real, budget: int, labels: Labels,
    ownPriorMemory: bool)
  {
    /** The field bounds of SimulationSettings used here. */
    predicate Valid() {
      1 <= peerLimit <= 20 && 0 <= minBrackets <= 10 && 1 <= bracketCap <= 10 && 500 <= budget <= 16000
    }
  }

  /** A shuffle permutes; a sample takes that many places of the list. */
  ghost predicate Shuffles(d: Draws) {
    && (forall reader, s :: multiset(d.shuffle(reader, s)) == multiset(s))
    && forall reader, s, k: nat :: k <= |s| ==>
         |d.pick(reader, s, k)| == k && multiset(d.pick(reader, s, k)) <= multiset(s)
  }

  function Upper(s: Signal): string {
    match s
    case Buy => "BUY"
    case Sell => "SELL"
    case Hold => "HOLD"
    case ParseError => "PARSE_ERROR"
  }

  function Signals(prev: map<string, Decision>): map<string, Signal> {
    map x | x in prev :: prev[x].signal
  }

  /** Base reach, plus the global citation share, plus a boost for authors the reader cited. */
  function ReaderWeights(
    reader: string, personas: seq<Persona>, base: map<string, real>, global: map<string, real>,
    prev: map<string, Decision>, boost: real): map<string, Weight>
  {
    map x | x in base ::
      Finite(base[x] + (if x in global then global[x] else 0.0)
             + (if reader in prev && x in prev[reader].cited then boost else 0.0))
  }

  function PostsFor(ids: seq<string>, prev: map<string, Decision>, bracketOf: map<string, string>): (posts: seq<Post>)
    ensures forall k :: 0 <= k < |posts| ==> posts[k].agentId in ids && posts[k].agentId in prev
  {
    if ids == [] then []
    else
      var n := |ids| - 1;
      var x := ids[n];
      PostsFor(ids[..n], prev, bracketOf)
      + (if x in prev && x in bracketOf
         then [Post(x, bracketOf[x], Upper(prev[x].signal), prev[x].confidence, prev[x].rationale)] else [])
  }

  lemma {:induction false} PostsDistinct(ids: seq<string>, prev: map<string, Decision>, bracketOf: map<string, string>)
    requires Distinct(ids)
    ensures var posts := PostsFor(ids, prev, bracketOf);
      |posts| <= |ids| && forall i, j :: 0 <= i < j < |posts| ==> posts[i].agentId != posts[j].agentId
  {
    if ids != [] {
      var n := |ids| - 1;
      PostsDistinct(ids[..n], prev, bracketOf);
      var posts := PostsFor(ids[..n], prev, bracketOf);
      forall k | 0 <= k < |posts| ensures posts[k].agentId != ids[n] {
        assert posts[k].agentId in ids[..n];
      }
    }
  }

  /** What one reader may be shown: a block under the budget exactly when someone is shown,
      and only peers that decided last round, never the reader or a failed agent. */
  ghost predicate ReaderOk(
    reader: string, personas: seq<Persona>, prev: map<string, Decision>, sim: Sim, block: Option<string>,
    shown: seq<string>)
  {
    && (block == None <==> shown == [])
    && (block.Some? ==> 0 < |block.value| < sim.budget)
    && |shown| <= sim.peerLimit
    && forall x :: x in shown ==>
         && x != reader && x in prev && prev[x].signal != ParseError
         && exists i :: 0 <= i < |personas| && personas[i].id == x
  }

  /** Everything the peer blocks of one round are built from. */
  datatype Inputs = Inputs(
    personas: seq<Persona>, base: map<string, real>, global: map<string, real>, prev: map<string, Decision>,
    sourceRound: nat, sim: Sim, draws: Draws, guard: string, sanitize: string -> string)
  {
    ghost predicate Valid() {
      sim.Valid() && Shuffles(draws)
    }

    function Weights(reader: string): map<string, Weight> {
      ReaderWeights(reader, personas, base, global, prev, sim.personalBoost)
    }

    function Key(reader: string): string -> Key {
      PeerKey(Weights(reader), x => draws.peer(reader, x))
    }

    function Rendering(ids: seq<string>): Request {
      Request(PostsFor(ids, prev, IdBrackets(personas)), sourceRound, sim.budget, sim.labels, guard, sanitize)
    }
  }

  datatype Strategy = Stratified | Uniform | NoPeers

  /** Who may be sampled uniformly: decided last round, without failing, and not the reader. */
  function Eligibles(ps: seq<Persona>, reader: string, prev: map<string, Decision>): (ids: seq<string>)
    ensures forall x :: x in ids <==>
      x != reader && x in prev && prev[x].signal != ParseError && exists i :: 0 <= i < |ps| && ps[i].id == x
  {
    if ps == [] then []
    else
      var n := |ps| - 1;
      var x := ps[n].id;
      assert ps == ps[..n] + [ps[n]];
      Eligibles(ps[..n], reader, prev) + (if x != reader && x in prev && prev[x].signal != ParseError then [x] else [])
  }

  /** When nobody is shown twice: for a stratified selection an id has to stay in one bracket, for a
      uniform sample the roster has to list it once. */
  ghost predicate NoRepeats(inp: Inputs, strategy: Strategy) {
    match strategy
    case Stratified => OneBracket(inp.personas)
    case Uniform => UniqueIds(inp.personas)
    case NoPeers => true
  }

  /** The peers chosen for a reader: a stratified selection, or a uniform sample of the eligible. */
  ghost predicate Chosen(inp: Inputs, strategy: Strategy, reader: string, ids: seq<string>)
    requires inp.Valid()
  {
    match strategy
    case Stratified =>
      var cs := Candidates(inp.personas, reader, Signals(inp.prev));
      && AsSet(ids) <= AsSet(Ids(cs)) && |ids| <= inp.sim.peerLimit
      && (OneBracket(cs) ==>
            GoodSelection(cs, inp.Key(reader), ids, inp.sim.peerLimit, inp.sim.minBrackets, inp.sim.bracketCap))
    case Uniform =>
      var eligible := Eligibles(inp.personas, reader, inp.prev);
      multiset(ids) <= multiset(eligible) && |ids| == Min(inp.sim.peerLimit, |eligible|)
    case NoPeers => false
  }

  /** The reader's block renders the peers chosen for it: those that decided last round and have
      something to quote, in display order, cut only where the room ends. */
  ghost predicate FeedFrom(
    inp: Inputs, strategy: Strategy, reader: string, ids: seq<string>, lines: seq<string>, n: int,
    block: Option<string>, shown: seq<string>)
    requires inp.Valid()
  {
    var rq := inp.Rendering(ids);
    && Chosen(inp, strategy, reader, ids)
    && 0 <= n <= Min(|rq.posts|, inp.sim.peerLimit) && LinesOf(rq, lines, shown, n)
    && (n < Min(|rq.posts|, inp.sim.peerLimit) ==> rq.Room(lines, n) <= 0)
    && block == if lines == [] then None else Some(Block(rq, lines))
  }

  ghost predicate Feed(inp: Inputs, strategy: Strategy, reader: string, block: Option<string>, shown: seq<string>)
    requires inp.Valid()
  {
    exists ids, lines, n :: FeedFrom(inp, strategy, reader, ids, lines, n, block, shown)
  }

  /** The authors of visible posts, in order. */
  lemma ShownAuthors(rq: Request, lines: seq<string>, shown: seq<string>, n: nat)
    requires n <= |rq.posts| && LinesOf(rq, lines, shown, n)
    ensures |shown| <= n
    ensures forall x :: x in shown ==> exists k :: 0 <= k < n && rq.posts[k].agentId == x
  {
    var idx := Visible(rq, n);
    VisibleCount(rq, n);
    forall k | 0 <= k < |shown| ensures exists l :: 0 <= l < n && rq.posts[l].agentId == shown[k] {
      assert rq.posts[idx[k]].agentId == shown[k];
    }
  }

  lemma AuthorsDistinct(rq: Request, lines: seq<string>, shown: seq<string>, n: nat)
    requires n <= |rq.posts| && LinesOf(rq, lines, shown, n)
    requires forall i, j :: 0 <= i < j < |rq.posts| ==> rq.posts[i].agentId != rq.posts[j].agentId
    ensures Distinct(shown)
  {
  }

  lemma {:induction false} VisibleCount(rq: Request, n: nat)
    requires n <= |rq.posts|
    ensures |Visible(rq, n)| <= n
  {
    if n > 0 {
      VisibleCount(rq, n - 1);
    }
  }

  /** One reader of `build_peer_contexts` or `build_random_peer_contexts`. */
  method BuildReader(inp: Inputs, strategy: Strategy, reader: string)
    returns (block: Option<string>, shown: seq<string>)
    requires inp.Valid() && !strategy.NoPeers?
    ensures Feed(inp, strategy, reader, block, shown)
    ensures ReaderOk(reader, inp.personas, inp.prev, inp.sim, block, shown)
    ensures NoRepeats(inp, strategy) ==> Distinct(shown)
  {
    hide Chosen, LinesOf, PostsFor, Block, IdBrackets, NoRepeats, Distinct;
    var ids := Select(inp, strategy, reader);
    var posts := PostsFor(ids, inp.prev, IdBrackets(inp.personas));
    var rq := Request(posts, inp.sourceRound, inp.sim.budget, inp.sim.labels, inp.guard, inp.sanitize);
    var text, authors, lines, n := FormatPeerContext(rq, inp.sim.peerLimit);
    LineCount(rq, lines, authors, n);
    block := if text == "" then None else Some(text);
    shown := authors;
    assert FeedFrom(inp, strategy, reader, ids, lines, n, block, shown);
    ChosenFacts(inp, strategy, reader, ids);
    ShownAuthors(rq, lines, authors, n);
    if NoRepeats(inp, strategy) {
      PostsDistinct(ids, inp.prev, IdBrackets(inp.personas));
      AuthorsDistinct(rq, lines, authors, n);
    }
    forall x | x in shown
      ensures x != reader && x in inp.prev && inp.prev[x].signal != ParseError
        && exists i :: 0 <= i < |inp.personas| && inp.personas[i].id == x
    {
      var k :| 0 <= k < n && posts[k].agentId == x;
      assert x in ids;
    }
  }

  method Select(inp: Inputs, strategy: Strategy, reader: string) returns (ids: seq<string>)
    requires inp.Valid() && !strategy.NoPeers?
    ensures Chosen(inp, strategy, reader, ids)
  {
    if strategy == Stratified {
      ids := SelectStratified(inp, reader);
    } else {
      ids := SelectRandomPeers(inp, reader);
    }
  }

  method SelectStratified(inp: Inputs, reader: string) returns (ids: seq<string>)
    requires inp.Valid()
    ensures Chosen(inp, Stratified, reader, ids)
  {
    hide GoodSelection, Candidates, OneBracket, TakesTops;
    var chosen := SelectDiversePeers(
      reader, inp.Weights(reader), inp.personas, Signals(inp.prev), x => inp.draws.peer(reader, x),
      b => inp.draws.bracket(reader, b), s => inp.draws.shuffle(reader, s),
      inp.sim.peerLimit, inp.sim.minBrackets, inp.sim.bracketCap);
    ids := chosen.value;
    SelectedAreCandidates(inp.personas, reader, Signals(inp.prev), ids);
  }

  lemma SelectedAreCandidates(ps: seq<Persona>, reader: string, prev: map<string, Signal>, ids: seq<string>)
    requires forall x :: x in ids ==>
      x != reader && !(x in prev && prev[x] == ParseError) && exists i :: 0 <= i < |ps| && ps[i].id == x
    ensures AsSet(ids) <= AsSet(Ids(Candidates(ps, reader, prev)))
  {
    var cs := Candidates(ps, reader, prev);
    forall x | x in ids ensures x in Ids(cs) {
      var i :| 0 <= i < |ps| && ps[i].id == x;
      assert ps[i] in cs;
      var k :| 0 <= k < |cs| && cs[k] == ps[i];
      assert Ids(cs)[k] == x;
    }
  }

  /** `select_random_peers`. */
  method SelectRandomPeers(inp: Inputs, reader: string) returns (ids: seq<string>)
    requires inp.Valid()
    ensures Chosen(inp, Uniform, reader, ids)
  {
    var eligible := Eligibles(inp.personas, reader, inp.prev);
    ids := inp.draws.pick(reader, eligible, Min(inp.sim.peerLimit, |eligible|));
  }

  lemma {:induction false} EligiblesDistinct(ps: seq<Persona>, reader: string, prev: map<string, Decision>)
    requires UniqueIds(ps)
    ensures Distinct(Eligibles(ps, reader, prev))
  {
    if ps != [] {
      var n := |ps| - 1;
      EligiblesDistinct(ps[..n], reader, prev);
      var before := Eligibles(ps[..n], reader, prev);
      forall i | 0 <= i < |before| ensures before[i] != ps[n].id {
        assert before[i] in before;
      }
    }
  }

  /** A sample of a list without repetitions has none. */
  lemma PickedDistinct(picked: seq<string>, from: seq<string>)
    requires multiset(picked) <= multiset(from) && Distinct(from)
    ensures Distinct(picked)
  {
    forall i, j | 0 <= i < j < |picked| ensures picked[i] != picked[j] {
      if picked[i] == picked[j] {
        assert picked == picked[..i] + [picked[i]] + picked[i + 1..j] + [picked[j]] + picked[j + 1..];
        assert multiset(picked)[picked[i]] >= 2;
        CountOne(from, picked[i]);
      }
    }
  }

  lemma ChosenFacts(inp: Inputs, strategy: Strategy, reader: string, ids: seq<string>)
    requires inp.Valid() && Chosen(inp, strategy, reader, ids)
    ensures NoRepeats(inp, strategy) ==> Distinct(ids)
    ensures forall x :: x in ids ==>
      && x != reader && !(x in inp.prev && inp.prev[x].signal == ParseError)
      && exists i :: 0 <= i < |inp.personas| && inp.personas[i].id == x
  {
    hide Capacity, InBracket, TopOfBracket, BracketsOf, UniqueIds, OneBracket, Eligibles, Candidates;
    if strategy == Stratified {
      SelectedAreEligible(inp.personas, reader, Signals(inp.prev), ids);
      if NoRepeats(inp, strategy) {
        CandidatesInOneBracket(inp.personas, reader, Signals(inp.prev));
      }
    } else {
      var eligible := Eligibles(inp.personas, reader, inp.prev);
      forall x | x in ids ensures x in eligible {
        assert x in multiset(ids) && x in multiset(eligible);
      }
      if NoRepeats(inp, strategy) {
        EligiblesDistinct(inp.personas, reader, inp.prev);
        PickedDistinct(ids, eligible);
      }
    }
  }

  method BuildPeerContexts(inp: Inputs, strategy: Strategy)
    returns (contexts: seq<Option<string>>, exposures: seq<seq<string>>)
    requires inp.Valid() && !strategy.NoPeers?
    ensures |contexts| == |exposures| == |inp.personas|
    ensures forall i :: 0 <= i < |inp.personas| ==>
      && Feed(inp, strategy, inp.personas[i].id, contexts[i], exposures[i])
      && ReaderOk(inp.personas[i].id, inp.personas, inp.prev, inp.sim, contexts[i], exposures[i])
      && (NoRepeats(inp, strategy) ==> Distinct(exposures[i]))
  {
    hide ReaderOk, Feed, NoRepeats, Distinct, Shuffles;
    contexts, exposures := [], [];
    for k := 0 to |inp.personas|
      invariant |contexts| == |exposures| == k
      invariant forall i :: 0 <= i < k ==>
        && Feed(inp, strategy, inp.personas[i].id, contexts[i], exposures[i])
        && ReaderOk(inp.personas[i].id, inp.personas, inp.prev, inp.sim, contexts[i], exposures[i])
        && (NoRepeats(inp, strategy) ==> Distinct(exposures[i]))
    {
      var block, shown := BuildReader(inp, strategy, inp.personas[k].id);
      contexts, exposures := contexts + [block], exposures + [shown];
    }
  }

  // ----- The reader's own position -----

  /** The previous decision of the reader itself on one line; nothing after a failure. */
  function OwnPriorLine(d: Option<Decision>, sourceRound: nat, sanitize: string -> string): Option<string> {
    if d == None then None
    else if d.value.signal == ParseError then None
    else
      var head := "Your Round " + Decimal(sourceRound) + " position: " + Upper(d.value.signal)
        + " (conf " + d.value.confidence + ")";
      var rationale := sanitize(d.value.rationale);
      Some(if rationale == "" then head else head + ": " + rationale)
  }

  // ----- Control readers -----

  /** The share of `count` agents, halves rounded up, but never all of them. */
  function SubsetSize(count: nat, fraction: real): (k: nat)
    ensures count > 0 ==> k < count
    ensures count == 0 ==> k == 0
  {
    if count < 2 || fraction <= 0.0 then 0
    else Min(count - 1, (count as real * fraction + 0.5).Floor)
  }

  /** The ids in `random.Random(...).sample(ids, k)`, fixed by the bracket and the list: k of them,
      when none is listed twice. */
  ghost predicate Samples(sample: (string, seq<string>, int) -> set<string>) {
    forall b, ids, k :: 0 <= k <= |ids| ==>
      && sample(b, ids, k) <= AsSet(ids) && |sample(b, ids, k)| <= k
      && (Distinct(ids) ==> |sample(b, ids, k)| == k)
  }

  function BracketSample(ps: seq<Persona>, fraction: real, sample: (string, seq<string>, int) -> set<string>,
      b: string): set<string> {
    var ids := Members(ps, b);
    sample(b, SortedIds(ids), SubsetSize(|ids|, fraction))
  }

  /** The union of the bracket samples. */
  function SeededSubset(ps: seq<Persona>, fraction: real, sample: (string, seq<string>, int) -> set<string>,
      bs: seq<string>): set<string> {
    if bs == [] then {}
    else SeededSubset(ps, fraction, sample, bs[..|bs| - 1]) + BracketSample(ps, fraction, sample, bs[|bs| - 1])
  }

  method SeededBracketSubset(ps: seq<Persona>, fraction: real,
      sample: (string, seq<string>, int) -> set<string>) returns (chosen: set<string>)
    requires Samples(sample)
    ensures chosen == SeededSubset(ps, fraction, sample, Brackets(ps))
  {
    hide Samples, Members, SortedIds, Brackets, SubsetSize;
    chosen := {};
    var order, members := GroupByBracket(ps);
    for i := 0 to |order|
      invariant chosen == SeededSubset(ps, fraction, sample, order[..i])
    {
      assert order[..i + 1][..i] == order[..i];
      assert order[i] in AsSet(order);
      var ids := members[order[i]];
      var k := SubsetSize(|ids|, fraction);
      if k != 0 {
        chosen := chosen + sample(order[i], SortedIds(ids), k);
      } else {
        NothingSampled(ps, fraction, sample, order[i]);
      }
    }
    assert order[..|order|] == order;
  }

  lemma NothingSampled(ps: seq<Persona>, fraction: real, sample: (string, seq<string>, int) -> set<string>, b: string)
    requires Samples(sample) && SubsetSize(|Members(ps, b)|, fraction) == 0
    ensures BracketSample(ps, fraction, sample, b) == {}
  {
    hide SortedIds;
  }

  /** The sorted ids of a bracket are its members, each as often as the roster lists it. */
  lemma MembersSorted(ps: seq<Persona>, b: string)
    ensures var ids := SortedIds(Members(ps, b));
      multiset(ids) == multiset(Members(ps, b)) && |ids| == |Members(ps, b)| && AsSet(ids) == AsSet(Members(ps, b))
    ensures Distinct(Members(ps, b)) ==> Distinct(SortedIds(Members(ps, b)))
  {
    var ids := Members(ps, b);
    SortedIdsIgnoreOrder(ids, ids);
    hide SortedIds;
    SameElements(SortedIds(ids), ids);
    if Distinct(ids) {
      DistinctByMultiset(ids, SortedIds(ids));
    }
  }

  lemma SampleFacts(ps: seq<Persona>, fraction: real, sample: (string, seq<string>, int) -> set<string>, b: string)
    requires Samples(sample)
    ensures BracketSample(ps, fraction, sample, b) <= AsSet(Members(ps, b))
    ensures |BracketSample(ps, fraction, sample, b)| <= SubsetSize(|Members(ps, b)|, fraction)
    ensures Distinct(Members(ps, b)) ==>
      |BracketSample(ps, fraction, sample, b)| == SubsetSize(|Members(ps, b)|, fraction)
  {
    MembersSorted(ps, b);
    hide SortedIds;
  }

  lemma {:induction false} SubsetInBracket(ps: seq<Persona>, fraction: real,
      sample: (string, seq<string>, int) -> set<string>, bs: seq<string>, b: string)
    requires OneBracket(ps) && Samples(sample) && Distinct(bs)
    ensures InBracket(SeededSubset(ps, fraction, sample, bs), BracketOf(ps), b)
      == if b in bs then BracketSample(ps, fraction, sample, b) else {}
  {
    hide Samples, Members, BracketSample, SubsetSize, BracketOf, InBracket;
    if bs == [] {
      NobodyInBracket(BracketOf(ps), b);
    } else {
      var n := |bs| - 1;
      SubsetInBracket(ps, fraction, sample, bs[..n], b);
      SampleInBracket(ps, fraction, sample, bs[n]);
      AddToBracket(SeededSubset(ps, fraction, sample, bs[..n]), BracketSample(ps, fraction, sample, bs[n]),
        BracketOf(ps), b, bs[n]);
      assert bs == bs[..n] + [bs[n]];
    }
  }

  lemma NobodyInBracket(m: map<string, string>, b: string)
    ensures InBracket({}, m, b) == {}
  {
  }

  lemma AddToBracket(some: set<string>, more: set<string>, m: map<string, string>, b: string, c: string)
    requires forall x :: x in more ==> x in m && m[x] == c
    ensures InBracket(some + more, m, b) == InBracket(some, m, b) + (if b == c then more else {})
  {
  }

  lemma SampleInBracket(ps: seq<Persona>, fraction: real, sample: (string, seq<string>, int) -> set<string>, b: string)
    requires OneBracket(ps) && Samples(sample)
    ensures forall x :: x in BracketSample(ps, fraction, sample, b) ==> x in BracketOf(ps) && BracketOf(ps)[x] == b
  {
    SampleFacts(ps, fraction, sample, b);
    hide BracketSample, Samples;
    forall x | x in BracketSample(ps, fraction, sample, b) ensures x in BracketOf(ps) && BracketOf(ps)[x] == b {
      assert x in AsSet(Members(ps, b));
    }
  }

  /** Every bracket contributes at most its share, and exactly that when it lists nobody twice. It keeps
      a reader that sees peers when its share is below the number of different readers. */
  lemma ControlShare(ps: seq<Persona>, fraction: real, sample: (string, seq<string>, int) -> set<string>, b: string)
    requires OneBracket(ps) && Samples(sample) && b in Brackets(ps)
    ensures var controls := InBracket(SeededSubset(ps, fraction, sample, Brackets(ps)), BracketOf(ps), b);
      && controls <= AsSet(Members(ps, b))
      && |controls| <= SubsetSize(|Members(ps, b)|, fraction) < |Members(ps, b)|
      && (Distinct(Members(ps, b)) ==> |controls| == SubsetSize(|Members(ps, b)|, fraction))
      && (Distinct(Members(ps, b)) ==> |AsSet(Members(ps, b))| == |Members(ps, b)|)
      && (SubsetSize(|Members(ps, b)|, fraction) < |AsSet(Members(ps, b))| ==> controls != AsSet(Members(ps, b)))
  {
    SubsetInBracket(ps, fraction, sample, Brackets(ps), b);
    SampleFacts(ps, fraction, sample, b);
    MembersNonempty(ps, b);
    hide BracketSample, Samples, SeededSubset, SubsetSize, Members, Brackets;
    if Distinct(Members(ps, b)) {
      SetOfDistinct(Members(ps, b));
    }
  }

  /** Otherwise a lawful sampler can hold out the whole bracket: one that takes every id before it
      takes one again. */
  lemma AllHeldOut(ps: seq<Persona>, fraction: real, b: string)
    returns (sample: (string, seq<string>, int) -> set<string>)
    requires OneBracket(ps) && b in Brackets(ps)
    requires |AsSet(Members(ps, b))| <= SubsetSize(|Members(ps, b)|, fraction)
    ensures Samples(sample)
    ensures InBracket(SeededSubset(ps, fraction, sample, Brackets(ps)), BracketOf(ps), b) == AsSet(Members(ps, b))
  {
    hide SortedIds, Members, SubsetSize, Samples, SeededSubset, Brackets, EachOnceFirst, InBracket, BracketOf;
    sample := EachOnceFirst();
    EachOnceIsLawful();
    SubsetInBracket(ps, fraction, sample, Brackets(ps), b);
    MembersSorted(ps, b);
    EachOnceTakesAll(b, SortedIds(Members(ps, b)), SubsetSize(|Members(ps, b)|, fraction));
  }

  ghost function EachOnceFirst(): (string, seq<string>, int) -> set<string> {
    (bracket, ids, k) => AsSet(Firsts(ids)[..Max(0, Min(k, |Firsts(ids)|))])
  }

  lemma EachOnceIsLawful()
    ensures Samples(EachOnceFirst())
  {
    var sample := EachOnceFirst();
    forall bracket: string, ids: seq<string>, k: int | 0 <= k <= |ids|
      ensures sample(bracket, ids, k) <= AsSet(ids) && |sample(bracket, ids, k)| <= k
      ensures Distinct(ids) ==> |sample(bracket, ids, k)| == k
    {
      SampleOfFirsts(ids, k);
    }
  }

  lemma EachOnceTakesAll(bracket: string, ids: seq<string>, k: int)
    requires |AsSet(ids)| <= k
    ensures EachOnceFirst()(bracket, ids, k) == AsSet(ids)
  {
    FirstsAreDistinct(ids);
    SetOfDistinct(Firsts(ids));
    assert AsSet(Firsts(ids)) == AsSet(ids);
    assert Firsts(ids)[..|Firsts(ids)|] == Firsts(ids);
  }

  lemma SampleOfFirsts(ids: seq<string>, k: nat)
    requires k <= |ids|
    ensures var s := AsSet(Firsts(ids)[..Min(k, |Firsts(ids)|)]);
      s <= AsSet(ids) && |s| <= k && (Distinct(ids) ==> |s| == k)
  {
    FirstsAreDistinct(ids);
    var firsts := Firsts(ids)[..Min(k, |Firsts(ids)|)];
    SetOfDistinct(firsts);
    if Distinct(ids) {
      FirstsOfDistinct(ids);
    }
  }

  lemma {:induction false} FirstsOfDistinct(ids: seq<string>)
    requires Distinct(ids)
    ensures Firsts(ids) == ids
  {
    if ids != [] {
      var n := |ids| - 1;
      FirstsOfDistinct(ids[..n]);
      assert ids == ids[..n] + [ids[n]];
    }
  }

  /** The draw does not depend on the roster order. */
  lemma ControlsIgnoreOrder(
    ps: seq<Persona>, qs: seq<Persona>, fraction: real, sample: (string, seq<string>, int) -> set<string>)
    requires multiset(ps) == multiset(qs)
    ensures SeededSubset(ps, fraction, sample, Brackets(ps)) == SeededSubset(qs, fraction, sample, Brackets(qs))
  {
    ControlsWithin(ps, qs, fraction, sample);
    ControlsWithin(qs, ps, fraction, sample);
  }

  lemma ControlsWithin(
    ps: seq<Persona>, qs: seq<Persona>, fraction: real, sample: (string, seq<string>, int) -> set<string>)
    requires multiset(ps) == multiset(qs)
    ensures SeededSubset(ps, fraction, sample, Brackets(ps)) <= SeededSubset(qs, fraction, sample, Brackets(qs))
  {
    hide SeededSubset, BracketSample, Brackets;
    forall x | x in SeededSubset(ps, fraction, sample, Brackets(ps))
      ensures x in SeededSubset(qs, fraction, sample, Brackets(qs))
    {
      var b := InSomeSample(ps, fraction, sample, Brackets(ps), x);
      SameMembers(ps, qs, b);
      SameBrackets(ps, qs, b);
      SampleInSubset(qs, fraction, sample, Brackets(qs), b);
      assert BracketSample(ps, fraction, sample, b) == BracketSample(qs, fraction, sample, b) by {
        SameSample(ps, qs, fraction, sample, b);
      }
    }
  }

  lemma SameSample(
    ps: seq<Persona>, qs: seq<Persona>, fraction: real, sample: (string, seq<string>, int) -> set<string>, b: string)
    requires SortedIds(Members(ps, b)) == SortedIds(Members(qs, b)) && |Members(ps, b)| == |Members(qs, b)|
    ensures BracketSample(ps, fraction, sample, b) == BracketSample(qs, fraction, sample, b)
  {
    hide Members, SortedIds, SubsetSize;
  }

  lemma {:induction false} InSomeSample(
    ps: seq<Persona>, fraction: real, sample: (string, seq<string>, int) -> set<string>, bs: seq<string>, x: string)
    returns (b: string)
    requires x in SeededSubset(ps, fraction, sample, bs)
    ensures b in bs && x in BracketSample(ps, fraction, sample, b)
  {
    b := bs[|bs| - 1];
    if x !in BracketSample(ps, fraction, sample, b) {
      b := InSomeSample(ps, fraction, sample, bs[..|bs| - 1], x);
    }
  }

  lemma {:induction false} SampleInSubset(
    ps: seq<Persona>, fraction: real, sample: (string, seq<string>, int) -> set<string>, bs: seq<string>, b: string)
    requires b in bs
    ensures BracketSample(ps, fraction, sample, b) <= SeededSubset(ps, fraction, sample, bs)
  {
    var n := |bs| - 1;
    if b != bs[n] {
      assert bs == bs[..n] + [bs[n]];
      SampleInSubset(ps, fraction, sample, bs[..n], b);
    }
  }

  lemma SameBrackets(ps: seq<Persona>, qs: seq<Persona>, b: string)
    requires multiset(ps) == multiset(qs) && b in Brackets(ps)
    ensures b in Brackets(qs)
  {
    var i :| 0 <= i < |ps| && ps[i].bracket == b;
    assert ps[i] in multiset(qs);
  }

  lemma SameMembers(ps: seq<Persona>, qs: seq<Persona>, b: string)
    requires multiset(ps) == multiset(qs)
    ensures SortedIds(Members(ps, b)) == SortedIds(Members(qs, b)) && |Members(ps, b)| == |Members(qs, b)|
  {
    MembersPermute(ps, qs, b);
    SortedIdsIgnoreOrder(Members(ps, b), Members(qs, b));
    hide SortedIds;
    assert |multiset(Members(ps, b))| == |Members(ps, b)| && |multiset(Members(qs, b))| == |Members(qs, b)|;
  }

  /** Permuting the roster permutes every bracket. */
  lemma {:induction false} MembersPermute(ps: seq<Persona>, qs: seq<Persona>, b: string)
    requires multiset(ps) == multiset(qs)
    ensures multiset(Members(ps, b)) == multiset(Members(qs, b))
  {
    if ps == [] {
      assert |multiset(qs)| == |qs|;
    } else {
      var n := |ps| - 1;
      MultisetOfLast(ps);
      assert ps[n] in multiset(qs);
      var k :| 0 <= k < |qs| && qs[k] == ps[n];
      MultisetWithout(qs, k);
      assert multiset(ps[..n]) == multiset(ps) - multiset{ps[n]};
      MembersPermute(ps[..n], qs[..k] + qs[k + 1..], b);
      MembersWithout(qs, k, b);
    }
  }

  lemma {:induction false} MembersWithout(ps: seq<Persona>, k: nat, b: string)
    requires k < |ps|
    ensures multiset(Members(ps, b)) ==
      multiset(Members(ps[..k] + ps[k + 1..], b)) + (if ps[k].bracket == b then multiset{ps[k].id} else multiset{})
  {
    hide Members;
    var n := |ps| - 1;
    LastMember(ps, b);
    if k < n {
      var rest := ps[..k] + ps[k + 1..];
      MembersWithout(ps[..n], k, b);
      assert ps[..n][..k] + ps[..n][k + 1..] == rest[..n - 1];
      LastMember(rest, b);
    } else {
      assert ps[..k] + ps[k + 1..] == ps[..n];
    }
  }

  lemma LastMember(ps: seq<Persona>, b: string)
    requires ps != []
    ensures var p := ps[|ps| - 1];
      multiset(Members(ps, b)) ==
        multiset(Members(ps[..|ps| - 1], b)) + (if p.bracket == b then multiset{p.id} else multiset{})
  {
  }

  // ----- The round's prompt context -----

  function OwnPrior(inp: Inputs, reader: string): Option<string> {
    OwnPriorLine(if reader in inp.prev then Some(inp.prev[reader]) else None, inp.sourceRound, inp.sanitize)
  }

  /** `build_round_context`: everybody is shown exactly its feed, except in round 1, without peers,
      and for the control readers, who are shown nobody; own positions are shown to controls too. */
  method BuildRoundContext(
    inp: Inputs, roundNum: nat, strategy: Strategy, fraction: real, sample: (string, seq<string>, int) -> set<string>)
    returns (blocks: seq<Option<string>>, ownPriors: seq<Option<string>>, exposures: seq<seq<string>>,
      controls: set<string>)
    requires inp.Valid() && Samples(sample) && (roundNum > 1 ==> inp.sourceRound == roundNum - 1)
    ensures controls == SeededSubset(inp.personas, fraction, sample, Brackets(inp.personas))
    ensures |blocks| == |ownPriors| == |exposures| == |inp.personas|
    ensures forall i :: 0 <= i < |inp.personas| ==>
      var reader := inp.personas[i].id;
      Served(inp, strategy, roundNum >= 2 && inp.prev != map[] && strategy != NoPeers && reader !in controls, reader,
        blocks[i], exposures[i])
    ensures forall i :: 0 <= i < |inp.personas| ==>
      ownPriors[i] == if roundNum >= 2 && inp.prev != map[] && inp.sim.ownPriorMemory
        then OwnPrior(inp, inp.personas[i].id) else None
  {
    hide Served, Shuffles, Samples, OwnPrior;
    controls := SeededBracketSubset(inp.personas, fraction, sample);
    var n := |inp.personas|;
    var contexts, shown := RoundPeers(inp, roundNum, strategy);
    ownPriors := OwnPriors(inp, roundNum);
    blocks := seq(n, i requires 0 <= i < n => if inp.personas[i].id in controls then None else contexts[i]);
    exposures := seq(n, i requires 0 <= i < n => if inp.personas[i].id in controls then [] else shown[i]);
    var peers := roundNum >= 2 && inp.prev != map[] && strategy != NoPeers;
    forall i | 0 <= i < n
      ensures Served(inp, strategy, peers && inp.personas[i].id !in controls, inp.personas[i].id, blocks[i],
        exposures[i])
    {
      HeldOut(inp, strategy, peers, inp.personas[i].id in controls, inp.personas[i].id, contexts[i], shown[i]);
    }
  }

  /** A control reader is served nothing, everybody else as before. */
  lemma HeldOut(inp: Inputs, strategy: Strategy, sees: bool, control: bool, reader: string, block: Option<string>,
      shown: seq<string>)
    requires inp.Valid() && Served(inp, strategy, sees, reader, block, shown)
    ensures Served(inp, strategy, sees && !control, reader, if control then None else block,
      if control then [] else shown)
  {
    NobodyShown(inp, strategy, reader);
    hide Served;
    if control {
      assert (sees && !control) == false;
    } else {
      assert (sees && !control) == sees;
    }
  }

  /** What one reader of the round gets: its feed, when it sees peers at all, and otherwise nothing. */
  ghost predicate Served(inp: Inputs, strategy: Strategy, sees: bool, reader: string, block: Option<string>,
      shown: seq<string>)
    requires inp.Valid()
  {
    && ReaderOk(reader, inp.personas, inp.prev, inp.sim, block, shown)
    && (NoRepeats(inp, strategy) ==> Distinct(shown))
    && if sees then Feed(inp, strategy, reader, block, shown) else block == None && shown == []
  }

  /** The peer blocks of the round before the control readers are held out. */
  method RoundPeers(inp: Inputs, roundNum: nat, strategy: Strategy)
    returns (contexts: seq<Option<string>>, shown: seq<seq<string>>)
    requires inp.Valid()
    ensures |contexts| == |shown| == |inp.personas|
    ensures forall i :: 0 <= i < |inp.personas| ==>
      Served(inp, strategy, roundNum >= 2 && inp.prev != map[] && strategy != NoPeers, inp.personas[i].id,
        contexts[i], shown[i])
  {
    hide ReaderOk, Feed, NoRepeats, Distinct, Shuffles;
    var n := |inp.personas|;
    contexts, shown := seq(n, _ => None), seq(n, _ => []);
    if roundNum > 1 && inp.prev.Keys != {} && !strategy.NoPeers? {
      contexts, shown := BuildPeerContexts(inp, strategy);
    } else {
      forall i | 0 <= i < n ensures Served(inp, strategy, false, inp.personas[i].id, None, []) {
        NobodyShown(inp, strategy, inp.personas[i].id);
      }
    }
  }

  method OwnPriors(inp: Inputs, roundNum: nat) returns (lines: seq<Option<string>>)
    ensures |lines| == |inp.personas|
    ensures forall i :: 0 <= i < |inp.personas| ==>
      lines[i] == if roundNum >= 2 && inp.prev != map[] && inp.sim.ownPriorMemory
        then OwnPrior(inp, inp.personas[i].id) else None
  {
    hide OwnPriorLine;
    lines := seq(|inp.personas|, _ => None);
    if roundNum > 1 && inp.prev.Keys != {} && inp.sim.ownPriorMemory {
      lines := [];
      for k := 0 to |inp.personas|
        invariant |lines| == k
        invariant forall i :: 0 <= i < k ==> lines[i] == OwnPrior(inp, inp.personas[i].id)
      {
        var id := inp.personas[k].id;
        var own := if id in inp.prev then Some(inp.prev[id]) else None;
        lines := lines + [OwnPriorLine(own, inp.sourceRound, inp.sanitize)];
      }
    }
  }

  lemma NobodyShown(inp: Inputs, strategy: Strategy, reader: string)
    requires inp.Valid()
    ensures Served(inp, strategy, false, reader, None, [])
  {
  }
}
