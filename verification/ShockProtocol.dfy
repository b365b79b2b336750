/** Market shocks across the round loop: the runner (src/alphaswarm/simulation.py, rounds.py) and
    the web side that queues a shock (web/simulation_manager.py) as one interleaved state machine.
    A step is what runs between two awaits. */
module ShockProtocol {
  import opened Common
  import opened StoreModel

  /** Where the runner stands: the step it takes next. */
  datatype Pc =
    | Launch | Configure | Seed
    | Enter(round: nat) | Gate(round: nat) | Persist(round: nat, index: nat) | Log(round: nat, index: nat)
    | Dispatch(round: nat)
    | Finalize | Close | Done | Over | Aborted

  /** One shock with the round it applies before. */
  type Dated = (string, nat)

  /** `accepted` is history: what the queue took, dated with the next gate at that moment. */
  datatype Run = Run(
    rounds: nat, pc: Pc, phase: Phase, storeRounds: int, running: bool, pending: Option<string>,
    shocks: seq<string>, outcomes: seq<seq<string>>, persisted: seq<Dated>, recorded: seq<Dated>, accepted: seq<Dated>)

  datatype Action = Runner | Inject(text: string) | Abort

  function PhaseOf(round: nat): Phase {
    if round <= 1 then Round1 else if round == 2 then Round2 else Round3
  }

  /** The round whose gate the runner passes next; beyond the last round when no gate is left. */
  function NextGate(s: Run): nat {
    match s.pc
    case Launch | Configure | Seed => 2
    case Enter(r) => Max(2, r)
    case Gate(r) => Max(2, r)
    case Persist(r, _) => r + 1
    case Log(r, _) => r + 1
    case Dispatch(r) => r + 1
    case _ => s.rounds + 1
  }

  /** `inject_shock`, when it does not raise. */
  predicate Accepts(s: Run) {
    s.running && WindowOpen(s.phase, s.storeRounds) && s.pending == None
  }

  /** `len(prev.applied_shocks)`. */
  function AlreadyActive(s: Run): nat {
    if s.outcomes == [] then 0 else |s.outcomes[|s.outcomes| - 1]|
  }

  /** `consume_shock()` and the test of its result, in rounds that have a gate. */
  function Consume(s: Run, r: nat): Run {
    if r < 2 then s
    else
      var taken := if s.pending.Some? && s.pending.value != "" then [s.pending.value] else [];
      s.(pending := None, shocks := s.shocks + taken)
  }

  function Advance(s: Run): Run {
    match s.pc
    case Launch => s.(phase := Idle, pc := Configure)
    case Configure => s.(storeRounds := s.rounds, pc := Seed)
    case Seed => s.(phase := Seeding, recorded := [], pc := Enter(1))
    case Enter(r) => s.(phase := PhaseOf(r), pc := Gate(r))
    case Gate(r) => Consume(s, r).(pc := Persist(r, AlreadyActive(s)))
    case Persist(r, i) =>
      if i < |s.shocks| then s.(persisted := s.persisted + [(s.shocks[i], r)], pc := Log(r, i))
      else s.(pc := Dispatch(r))
    case Log(r, i) =>
      if i < |s.shocks| then s.(recorded := s.recorded + [(s.shocks[i], r)], pc := Persist(r, i + 1)) else s
    case Dispatch(r) => s.(outcomes := s.outcomes + [s.shocks], pc := if r < s.rounds then Enter(r + 1) else Finalize)
    case Finalize => s.(phase := Finalizing, pc := Close)
    case Close => s.(phase := Complete, pc := Done)
    case Done => s.(running := false, pending := None, pc := Over)
    case _ => s
  }

  function Step(s: Run, a: Action): Run {
    match a
    case Runner => Advance(s)
    case Inject(text) =>
      if Accepts(s) then s.(pending := Some(text), accepted := s.accepted + [(text, NextGate(s))]) else s
    case Abort =>
      if s.pc.Done? || s.pc.Over? || s.pc.Aborted? then s
      else s.(phase := Idle, running := false, pending := None, pc := Aborted)
  }

  /** `start()`: the phase is whatever a finished run or replay left. */
  ghost predicate Fresh(s: Run) {
    && 2 <= s.rounds <= 3 && s.pc == Launch && s.running && s.pending == None
    && s.phase in {Idle, Complete, Replay}
    && s.shocks == [] && s.outcomes == [] && s.persisted == [] && s.accepted == []
  }

  function After(s: Run, actions: seq<Action>): Run {
    if actions == [] then s else Step(After(s, actions[..|actions| - 1]), actions[|actions| - 1])
  }

  // ----- Phase and position -----

  ghost predicate PhaseInv(s: Run) {
    && 2 <= s.rounds <= 3
    && (s.pc.Launch? || s.pc.Configure? || s.storeRounds == s.rounds || s.pc.Aborted?)
    && match s.pc
       case Launch => s.phase in {Idle, Complete, Replay}
       case Configure => s.phase == Idle
       case Seed => s.phase == Idle
       case Enter(r) => 1 <= r <= s.rounds && s.phase == if r == 1 then Seeding else PhaseOf(r - 1)
       case Gate(r) => 1 <= r <= s.rounds && s.phase == PhaseOf(r)
       case Persist(r, _) => 1 <= r <= s.rounds && s.phase == PhaseOf(r)
       case Log(r, _) => 1 <= r <= s.rounds && s.phase == PhaseOf(r)
       case Dispatch(r) => 1 <= r <= s.rounds && s.phase == PhaseOf(r)
       case Finalize => s.phase == PhaseOf(s.rounds)
       case Close => s.phase == Finalizing
       case Done => s.phase == Complete
       case Over => s.phase == Complete
       case Aborted => s.phase == Idle
  }

  lemma PhaseStep(s: Run, a: Action)
    requires PhaseInv(s)
    ensures PhaseInv(Step(s, a))
  {
  }

  /** An open window has a gate ahead of it. */
  lemma OpenMeansGateAhead(s: Run)
    requires PhaseInv(s) && WindowOpen(s.phase, s.storeRounds)
    ensures 2 <= NextGate(s) <= s.rounds
  {
  }

  // ----- The ledger -----

  /** The shocks that reach a prompt: the runner drops an empty text. */
  function Nonblank(accepted: seq<Dated>): seq<Dated> {
    if accepted == [] then []
    else
      var last := accepted[|accepted| - 1];
      Nonblank(accepted[..|accepted| - 1]) + (if last.0 == "" then [] else [last])
  }

  /** Consumed but not yet persisted. */
  function Unpersisted(s: Run): seq<Dated> {
    match s.pc
    case Persist(r, i) => if i < |s.shocks| then [(s.shocks[i], r)] else []
    case _ => []
  }

  function Queued(s: Run): seq<Dated> {
    if s.pending.Some? && s.pending.value != "" then [(s.pending.value, NextGate(s))] else []
  }

  ghost predicate LedgerInv(s: Run) {
    && (if s.pc.Aborted? then s.persisted <= Nonblank(s.accepted)
        else Nonblank(s.accepted) == s.persisted + Unpersisted(s) + Queued(s))
    && (s.pending.Some? ==> s.running && 2 <= NextGate(s) <= s.rounds)
    && |s.persisted| <= |s.shocks|
    && (forall i :: 0 <= i < |s.persisted| ==> s.persisted[i].0 == s.shocks[i])
    && match s.pc
       case Persist(_, i) => i == |s.persisted| && i + 1 >= |s.shocks| && s.recorded == s.persisted
       case Log(r, i) =>
         && i + 1 == |s.persisted| == |s.shocks| && s.persisted[i] == (s.shocks[i], r)
         && s.recorded == s.persisted[..i]
       case Aborted => true
       case Launch | Configure | Seed => s.shocks == []
       case _ => |s.persisted| == |s.shocks| && s.recorded == s.persisted
  }

  /** The last round that may appear in the ledger. */
  function LastDated(s: Run): nat {
    match s.pc
    case Launch | Configure | Seed => 0
    case Enter(r) => if r == 0 then 0 else r - 1
    case Gate(r) => if r == 0 then 0 else r - 1
    case Persist(r, i) => if i < |s.shocks| && r > 0 then r - 1 else r
    case Log(r, _) => r
    case Dispatch(r) => r
    case _ => s.rounds
  }

  function RoundsDone(s: Run): nat {
    match s.pc
    case Launch | Configure | Seed => 0
    case Enter(r) => if r == 0 then 0 else r - 1
    case Gate(r) => if r == 0 then 0 else r - 1
    case Persist(r, _) => if r == 0 then 0 else r - 1
    case Log(r, _) => if r == 0 then 0 else r - 1
    case Dispatch(r) => if r == 0 then 0 else r - 1
    case _ => s.rounds
  }

  /** The outcome of round k + 1 carries exactly the shocks persisted for rounds up to k + 1. */
  ghost predicate CarriesUpTo(s: Run, k: nat)
    requires k < |s.outcomes|
  {
    var n := |s.outcomes[k]|;
    && n <= |s.persisted| <= |s.shocks| && s.outcomes[k] == s.shocks[..n]
    && (forall i :: 0 <= i < n ==> s.persisted[i].1 <= k + 1)
    && forall i :: n <= i < |s.persisted| ==> s.persisted[i].1 > k + 1
  }

  ghost predicate OutcomeInv(s: Run) {
    && (forall i :: 0 <= i < |s.persisted| ==> 2 <= s.persisted[i].1 <= LastDated(s))
    && (forall i, j :: 0 <= i < j < |s.persisted| ==> s.persisted[i].1 < s.persisted[j].1)
    && (forall k :: 0 <= k < |s.outcomes| ==> CarriesUpTo(s, k))
    && (s.pc.Aborted? || |s.outcomes| == RoundsDone(s))
    && (s.pc.Enter? || s.pc.Gate? ==> AlreadyActive(s) == |s.shocks|)
    && (s.pc.Persist? && s.pc.index < |s.shocks| ==> s.pc.round >= 2)
  }

  lemma LedgerStep(s: Run, a: Action)
    requires PhaseInv(s) && LedgerInv(s) && OutcomeInv(s)
    ensures LedgerInv(Step(s, a))
  {
    hide OutcomeInv, Advance, Nonblank;
    match a
    case Runner => LedgerAdvance(s);
    case Inject(text) =>
      if Accepts(s) {
        OpenMeansGateAhead(s);
        hide PhaseInv;
        OneMoreAccepted(s.accepted, text, NextGate(s));
      }
    case Abort =>
  }

  lemma OneMoreAccepted(accepted: seq<Dated>, text: string, gate: nat)
    ensures Nonblank(accepted + [(text, gate)]) == Nonblank(accepted) + (if text == "" then [] else [(text, gate)])
  {
    assert (accepted + [(text, gate)])[..|accepted|] == accepted;
  }

  lemma LedgerAdvance(s: Run)
    requires PhaseInv(s) && LedgerInv(s) && OutcomeInv(s)
    ensures LedgerInv(Advance(s))
  {
    if s.pc.Gate? {
      LedgerGate(s, s.pc.round);
    } else if s.pc.Persist? {
      LedgerPersist(s, s.pc.round, s.pc.index);
    } else if s.pc.Log? {
      LedgerLog(s, s.pc.round, s.pc.index);
    } else {
      LedgerMove(s);
    }
  }

  lemma LedgerPersist(s: Run, r: nat, i: nat)
    requires LedgerInv(s) && s.pc == Persist(r, i)
    ensures LedgerInv(Advance(s))
  {
    hide Nonblank;
    if i < |s.shocks| {
      assert s.persisted + [(s.shocks[i], r)] + [] == s.persisted + Unpersisted(s);
    }
  }

  lemma LedgerLog(s: Run, r: nat, i: nat)
    requires LedgerInv(s) && s.pc == Log(r, i)
    ensures LedgerInv(Advance(s))
  {
    hide Nonblank;
  }

  lemma LedgerMove(s: Run)
    requires PhaseInv(s) && LedgerInv(s) && !s.pc.Gate? && !s.pc.Persist? && !s.pc.Log?
    ensures LedgerInv(Advance(s))
  {
    hide Nonblank;
  }

  lemma LedgerGate(s: Run, r: nat)
    requires PhaseInv(s) && LedgerInv(s) && OutcomeInv(s) && s.pc == Gate(r)
    ensures LedgerInv(Advance(s))
  {
    hide Nonblank;
    assert AlreadyActive(s) == |s.shocks|;
    hide OutcomeInv, PhaseInv;
  }

  // ----- Outcomes -----

  lemma OutcomeStep(s: Run, a: Action)
    requires PhaseInv(s) && LedgerInv(s) && OutcomeInv(s)
    ensures OutcomeInv(Step(s, a))
  {
    hide Nonblank, PhaseInv, LedgerInv, OutcomeInv, Advance;
    if a == Runner {
      if s.pc.Persist? {
        OutcomePersist(s, s.pc.round, s.pc.index);
      } else if s.pc.Dispatch? {
        OutcomeDispatch(s, s.pc.round);
      } else if s.pc.Gate? {
        OutcomeGate(s, s.pc.round);
      } else {
        OutcomeMove(s);
      }
    } else {
      OutcomeElsewhere(s, a);
    }
  }

  lemma OutcomeElsewhere(s: Run, a: Action)
    requires PhaseInv(s) && OutcomeInv(s) && a != Runner
    ensures OutcomeInv(Step(s, a))
  {
    hide CarriesUpTo, Consume, PhaseOf, NextGate, Advance;
    SameLedgerCarries(s, Step(s, a));
  }

  lemma SameLedgerCarries(s: Run, t: Run)
    requires s.outcomes == t.outcomes && s.persisted == t.persisted && s.shocks == t.shocks
    requires forall k :: 0 <= k < |s.outcomes| ==> CarriesUpTo(s, k)
    ensures forall k :: 0 <= k < |t.outcomes| ==> CarriesUpTo(t, k)
  {
    forall k | 0 <= k < |t.outcomes| ensures CarriesUpTo(t, k) {
      assert CarriesUpTo(s, k);
    }
  }

  lemma OutcomeGate(s: Run, r: nat)
    requires PhaseInv(s) && LedgerInv(s) && OutcomeInv(s) && s.pc == Gate(r)
    ensures OutcomeInv(Advance(s))
  {
    hide Nonblank;
    forall k | 0 <= k < |s.outcomes| ensures CarriesUpTo(Advance(s), k) {
      assert CarriesUpTo(s, k);
    }
  }

  lemma OutcomePersist(s: Run, r: nat, i: nat)
    requires PhaseInv(s) && LedgerInv(s) && OutcomeInv(s) && s.pc == Persist(r, i)
    ensures OutcomeInv(Advance(s))
  {
    hide Nonblank;
    forall k | 0 <= k < |s.outcomes| ensures CarriesUpTo(Advance(s), k) {
      assert CarriesUpTo(s, k);
    }
  }

  lemma OutcomeDispatch(s: Run, r: nat)
    requires PhaseInv(s) && LedgerInv(s) && OutcomeInv(s) && s.pc == Dispatch(r)
    ensures OutcomeInv(Advance(s))
  {
    hide Nonblank;
    forall k | 0 <= k < |Advance(s).outcomes| ensures CarriesUpTo(Advance(s), k) {
      if k < |s.outcomes| {
        assert CarriesUpTo(s, k);
      }
    }
  }

  lemma OutcomeMove(s: Run)
    requires PhaseInv(s) && LedgerInv(s) && OutcomeInv(s) && !s.pc.Gate? && !s.pc.Persist? && !s.pc.Dispatch?
    ensures OutcomeInv(Advance(s))
  {
    hide CarriesUpTo, Consume, PhaseOf, Nonblank, Unpersisted, Queued, NextGate;
    SameLedgerCarries(s, Advance(s));
  }

  // ----- Whole runs -----

  ghost predicate Inv(s: Run) {
    PhaseInv(s) && LedgerInv(s) && OutcomeInv(s)
  }

  lemma {:induction false} InvAfter(s: Run, actions: seq<Action>)
    requires Fresh(s)
    ensures Inv(After(s, actions))
  {
    hide PhaseInv, LedgerInv, OutcomeInv, Step;
    if actions == [] {
      FreshInv(s);
    } else {
      var n := |actions| - 1;
      InvAfter(s, actions[..n]);
      PhaseStep(After(s, actions[..n]), actions[n]);
      LedgerStep(After(s, actions[..n]), actions[n]);
      OutcomeStep(After(s, actions[..n]), actions[n]);
    }
  }

  lemma FreshInv(s: Run)
    requires Fresh(s)
    ensures Inv(s)
  {
  }

  predicate Completed(s: Run) {
    s.pc.Done? || s.pc.Over?
  }

  /** Over every completed run, whatever was queued when: each accepted shock is persisted and
      recorded exactly once, in order, for the first round whose gate was still ahead when it was
      accepted, and none is left over. */
  lemma EveryShockLandsOnce(s: Run, actions: seq<Action>)
    requires Fresh(s) && Completed(After(s, actions))
    ensures var e := After(s, actions);
      e.persisted == e.recorded == Nonblank(e.accepted) && e.pending == None
  {
    hide After, Nonblank;
    InvAfter(s, actions);
    assert PhaseInv(After(s, actions));
  }

  lemma {:induction false} NonblankShortens(accepted: seq<Dated>)
    ensures |Nonblank(accepted)| <= |accepted|
    ensures Nonblank(accepted) == accepted <==> forall i :: 0 <= i < |accepted| ==> accepted[i].0 != ""
  {
    if accepted != [] {
      var n := |accepted| - 1;
      NonblankShortens(accepted[..n]);
      assert accepted == accepted[..n] + [accepted[n]];
      if Nonblank(accepted) == accepted {
        assert accepted[n].0 != "";
        assert Nonblank(accepted[..n]) == accepted[..n];
        forall i | 0 <= i < n ensures accepted[i].0 != "" {
          assert accepted[..n][i] == accepted[i];
        }
      }
    }
  }

  /** So a completed run persists all it accepted if and only if no accepted text is empty. */
  lemma NothingIsDroppedExactly(s: Run, actions: seq<Action>)
    requires Fresh(s) && Completed(After(s, actions))
    ensures var e := After(s, actions);
      e.persisted == e.accepted <==> forall i :: 0 <= i < |e.accepted| ==> e.accepted[i].0 != ""
  {
    hide After, Nonblank;
    EveryShockLandsOnce(s, actions);
    NonblankShortens(After(s, actions).accepted);
  }

  /** A completed run that drops one: an empty text queued in round 1. */
  lemma EmptyShockIsDropped(s: Run) returns (actions: seq<Action>)
    requires Fresh(s) && s.rounds == 2
    ensures Completed(After(s, actions))
    ensures After(s, actions).accepted == [("", 2)] && After(s, actions).persisted == []
  {
    hide After, Step;
    var queued := [Runner, Runner, Runner, Runner, Inject("")];
    var passed := [Runner, Runner, Runner, Runner, Runner];
    QueueEmpty(s, queued);
    DropEmpty(Queued1(s), passed);
    FinishRun(Dropped2(s), passed);
    AfterAgain(s, queued, passed);
    AfterAgain(s, queued + passed, passed);
    actions := queued + passed + passed;
  }

  /** Round 1 with an empty text waiting. */
  function Queued1(s: Run): Run {
    s.(phase := Round1, storeRounds := s.rounds, recorded := [], pc := Gate(1), pending := Some(""),
       accepted := s.accepted + [("", 2)])
  }

  /** Past the gate of round 2. */
  function Dropped2(s: Run): Run {
    Queued1(s).(phase := Round2, pc := Persist(2, 0), pending := None, outcomes := [[]])
  }

  lemma QueueEmpty(s: Run, a: seq<Action>)
    requires Fresh(s) && s.rounds == 2 && a == [Runner, Runner, Runner, Runner, Inject("")]
    ensures After(s, a) == Queued1(s)
  {
    FiveSteps(s, a);
  }

  lemma DropEmpty(s: Run, a: seq<Action>)
    requires s.pc == Gate(1) && s.rounds == 2 && s.pending == Some("") && s.shocks == [] && s.outcomes == []
    requires a == [Runner, Runner, Runner, Runner, Runner]
    ensures After(s, a) == s.(phase := Round2, pc := Persist(2, 0), pending := None, outcomes := [[]])
  {
    hide After;
    FiveSteps(s, a);
    assert s.outcomes + [s.shocks] == [[]];
    assert s.shocks + [] == s.shocks;
  }

  lemma FinishRun(s: Run, a: seq<Action>)
    requires s.pc == Persist(2, 0) && s.rounds == 2 && s.shocks == []
    requires a == [Runner, Runner, Runner, Runner, Runner]
    ensures Completed(After(s, a)) && After(s, a).accepted == s.accepted && After(s, a).persisted == s.persisted
  {
    hide After;
    FiveSteps(s, a);
  }

  lemma FiveSteps(s: Run, a: seq<Action>)
    requires |a| == 5
    ensures After(s, a) == Step(Step(Step(Step(Step(s, a[0]), a[1]), a[2]), a[3]), a[4])
  {
    hide Step;
    assert After(s, a[..0]) == s;
    AfterMore(s, a, 0);
    AfterMore(s, a, 1);
    AfterMore(s, a, 2);
    AfterMore(s, a, 3);
    AfterMore(s, a, 4);
    assert a[..5] == a;
  }

  lemma {:induction false} AfterAgain(s: Run, a: seq<Action>, b: seq<Action>)
    ensures After(s, a + b) == After(After(s, a), b)
  {
    if b == [] {
      assert a + b == a;
    } else {
      var n := |b| - 1;
      AfterAgain(s, a, b[..n]);
      assert (a + b)[..|a + b| - 1] == a + b[..n];
    }
  }

  /** A run cut short has persisted a prefix of what it accepted. */
  lemma CutShortKeepsPrefix(s: Run, actions: seq<Action>)
    requires Fresh(s)
    ensures After(s, actions).persisted <= Nonblank(After(s, actions).accepted)
  {
    hide After, Nonblank;
    InvAfter(s, actions);
  }

  /** At every moment, each outcome carries exactly the shocks persisted for rounds up to its own,
      and so is a prefix of every later one; the rounds in the ledger are distinct and increasing. */
  lemma OutcomesGrow(s: Run, actions: seq<Action>, j: nat, k: nat)
    requires Fresh(s) && j <= k < |After(s, actions).outcomes|
    ensures var e := After(s, actions);
      && CarriesUpTo(e, k)
      && e.outcomes[j] <= e.outcomes[k]
      && (forall i :: 0 <= i < |e.outcomes[k]| ==> e.persisted[i].0 == e.outcomes[k][i])
      && forall x, y :: 0 <= x < y < |e.persisted| ==> e.persisted[x].1 < e.persisted[y].1
  {
    hide After, Nonblank;
    InvAfter(s, actions);
    var e := After(s, actions);
    assert CarriesUpTo(e, j) && CarriesUpTo(e, k);
    var n := |e.outcomes[k]|;
    var round := if n < |e.persisted| then e.persisted[n].1 else 0;
    if |e.outcomes[j]| > n {
      assert false;
    }
  }

  // ----- When a shock is accepted -----

  /** The round the runner is in; 0 while seeding. */
  function CurrentRound(s: Run): Option<nat> {
    match s.pc
    case Enter(r) => if r == 0 then None else Some(r - 1)
    case Gate(r) => Some(r)
    case Persist(r, _) => Some(r)
    case Log(r, _) => Some(r)
    case Dispatch(r) => Some(r)
    case _ => None
  }

  predicate RunningInv(s: Run) {
    s.running <==> !s.pc.Over? && !s.pc.Aborted?
  }

  lemma {:induction false} RunningAfter(s: Run, actions: seq<Action>)
    requires Fresh(s)
    ensures RunningInv(After(s, actions))
  {
    hide Consume;
    if actions != [] {
      RunningAfter(s, actions[..|actions| - 1]);
      RunningStep(After(s, actions[..|actions| - 1]), actions[|actions| - 1]);
    }
  }

  lemma RunningStep(s: Run, a: Action)
    requires RunningInv(s)
    ensures RunningInv(Step(s, a))
  {
  }

  lemma WindowByRound(s: Run)
    requires PhaseInv(s) && RunningInv(s)
    ensures WindowOpen(s.phase, s.storeRounds) <==> CurrentRound(s).Some? && CurrentRound(s).value < s.rounds
    ensures s.pc.Gate? ==> s.phase in {Round1, Round2, Round3}
    ensures s.pc.Gate? ==> (s.phase == Round1 <==> s.pc.round == 1) && (s.phase == Round2 <==> s.pc.round == 2)
    ensures s.pc == Enter(1) ==> s.phase == Seeding
  {
  }

  /** In every run the window is open exactly while seeding and in every round before the last, and a text
      is accepted exactly then, when none is waiting. */
  lemma AcceptsExactly(s: Run, actions: seq<Action>, text: string)
    requires Fresh(s)
    ensures var e := After(s, actions);
      WindowOpen(e.phase, e.storeRounds) <==> CurrentRound(e).Some? && CurrentRound(e).value < e.rounds
    ensures var e, f := After(s, actions), Step(After(s, actions), Inject(text));
      if CurrentRound(e).Some? && CurrentRound(e).value < e.rounds && e.pending == None
      then f.pending == Some(text) && f.accepted == e.accepted + [(text, NextGate(e))]
      else f == e
  {
    InvAfter(s, actions);
    RunningAfter(s, actions);
    hide After;
    WindowByRound(After(s, actions));
  }

  /** The gate a shock is dated with: that of the next round, and of round 2 while seeding and in round 1;
      at the head of a round before its gate that round's own. */
  lemma NextGateExactly(s: Run)
    requires PhaseInv(s) && CurrentRound(s).Some?
    ensures NextGate(s) ==
      if s.pc.Gate? && s.pc.round >= 2 then s.pc.round
      else if CurrentRound(s).value == 0 then 2
      else CurrentRound(s).value + 1
  {
  }

  // ----- The window -----

  /** The step from `t` consumes the queue. */
  predicate ConsumesAt(s: Run, a: Action) {
    a == Runner && s.pc.Gate? && s.pc.round >= 2
  }

  /** The run has not passed its last gate. */
  ghost predicate GateAhead(s: Run) {
    PhaseInv(s) && NextGate(s) <= s.rounds
  }

  /** Passing a gate is the only way to run out of gates without aborting. */
  lemma GatesArePassed(s: Run, a: Action)
    requires GateAhead(s) && !ConsumesAt(s, a)
    ensures Step(s, a).pc.Aborted? || GateAhead(Step(s, a))
  {
    PhaseStep(s, a);
  }

  lemma CompletedHasNone(s: Run)
    requires Completed(s)
    ensures !GateAhead(s) && !s.pc.Aborted?
  {
  }

  /** Every moment at which the window is open is followed, in a run that completes, by a later
      consume call. */
  lemma {:induction false} OpenWindowIsConsumed(s: Run, actions: seq<Action>, m: nat) returns (k: nat)
    requires Fresh(s) && m <= |actions| && Completed(After(s, actions))
    requires WindowOpen(After(s, actions[..m]).phase, After(s, actions[..m]).storeRounds)
    ensures m <= k < |actions| && ConsumesAt(After(s, actions[..k]), actions[k])
  {
    hide After, Step, ConsumesAt, GateAhead, Completed;
    WindowHasGate(s, actions[..m]);
    CompletedHasNone(After(s, actions));
    assert actions[..|actions|] == actions;
    k := m;
    while k < |actions| && !ConsumesAt(After(s, actions[..k]), actions[k])
      invariant m <= k <= |actions|
      invariant GateAhead(After(s, actions[..k]))
    {
      AfterMore(s, actions, k);
      if After(s, actions[..k + 1]).pc.Aborted? {
        AbortedStays(s, actions, k + 1);
        assert false;
      }
      GatesArePassed(After(s, actions[..k]), actions[k]);
      k := k + 1;
    }
    if k == |actions| {
      assert false;
    }
  }

  lemma WindowHasGate(s: Run, actions: seq<Action>)
    requires Fresh(s) && WindowOpen(After(s, actions).phase, After(s, actions).storeRounds)
    ensures GateAhead(After(s, actions))
  {
    hide After;
    InvAfter(s, actions);
    OpenMeansGateAhead(After(s, actions));
  }

  lemma AfterMore(s: Run, actions: seq<Action>, k: nat)
    requires k < |actions|
    ensures After(s, actions[..k + 1]) == Step(After(s, actions[..k]), actions[k])
  {
    assert actions[..k + 1][..k] == actions[..k];
  }

  lemma {:induction false} AbortedStays(s: Run, actions: seq<Action>, k: nat)
    requires k <= |actions| && After(s, actions[..k]).pc.Aborted?
    ensures After(s, actions).pc.Aborted?
    decreases |actions| - k
  {
    if k == |actions| {
      assert actions[..k] == actions;
    } else {
      AfterMore(s, actions, k);
      AbortedStays(s, actions, k + 1);
    }
  }
}
