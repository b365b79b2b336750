/** What a snapshot shows, field by field, over every sequence of calls and in terms of the calls alone. */
module StoreSnapshots {
  import opened Common
  import opened StoreModel
  import opened StoreRuns

  // ----- The agents -----

  function StateOf(r: Roster, id: string): Option<AgentState> {
    if r == [] then None
    else if r[0].0 == id then Some(r[0].1)
    else StateOf(r[1..], id)
  }

  /** SEEDING and the rounds start with nobody decided. */
  predicate ClearsDecisions(op: Op) {
    op in {SetPhase(Seeding), SetPhase(Round1), SetPhase(Round2), SetPhase(Round3)}
  }

  /** An agent's latest decision since the last such phase; pending before it, absent off the roster. */
  function LatestDecision(calls: seq<Call>, id: string): Option<AgentState> {
    if calls == [] then None
    else
      var before, op := LatestDecision(calls[..|calls| - 1], id), calls[|calls| - 1].op;
      if op.UpdateAgent? && op.id == id then Some(Decided(op.signal, op.confidence))
      else if op.BeginRun? then (if id in op.ids then Some(Pending) else None)
      else if ClearsDecisions(op) && before.Some? then Some(Pending)
      else before
  }

  lemma {:induction false} AssignedState(r: Roster, id: string, state: AgentState, other: string)
    ensures StateOf(Assign(r, id, state), other) == if other == id then Some(state) else StateOf(r, other)
  {
    if r != [] && r[0].0 != id {
      AssignedState(r[1..], id, state, other);
    }
  }

  lemma {:induction false} FreshState(ids: seq<string>, id: string)
    ensures StateOf(FreshRoster(ids), id) == if id in ids then Some(Pending) else None
  {
    if ids != [] {
      var n := |ids| - 1;
      FreshState(ids[..n], id);
      AssignedState(FreshRoster(ids[..n]), ids[n], Pending, id);
      assert ids == ids[..n] + [ids[n]];
    }
  }

  lemma {:induction false} PendingState(r: Roster, id: string)
    ensures StateOf(AllPending(r), id) == if StateOf(r, id).Some? then Some(Pending) else None
  {
    if r != [] {
      PendingState(r[1..], id);
      assert AllPending(r)[1..] == AllPending(r[1..]);
    }
  }

  lemma RosterAfter(s: Store, c: Call)
    ensures Apply(s, c).roster ==
      if c.op.UpdateAgent? then Assign(s.roster, c.op.id, Decided(c.op.signal, c.op.confidence))
      else if c.op.BeginRun? then FreshRoster(c.op.ids)
      else if ClearsDecisions(c.op) then AllPending(s.roster)
      else s.roster
  {
    hide Assign, FreshRoster, AllPending, Written, Append, Prune, LooksSecret;
  }

  /** A snapshot shows each agent's latest decision. */
  lemma {:induction false} ShowsLatestDecision(calls: seq<Call>, id: string)
    ensures StateOf(Visible(After(calls)).roster, id) == LatestDecision(calls, id)
  {
    hide Apply, Assign, FreshRoster, AllPending, StateOf;
    if calls == [] {
      NobodyYet(id);
    } else {
      var n := |calls| - 1;
      var s, c := After(calls[..n]), calls[n];
      ShowsLatestDecision(calls[..n], id);
      RosterAfter(s, c);
      if c.op.UpdateAgent? {
        AssignedState(s.roster, c.op.id, Decided(c.op.signal, c.op.confidence), id);
      } else if c.op.BeginRun? {
        FreshState(c.op.ids, id);
      } else if ClearsDecisions(c.op) {
        PendingState(s.roster, id);
      }
    }
  }

  lemma NobodyYet(id: string)
    ensures StateOf(NewStore().roster, id) == None
  {
  }

  // ----- The fields that are overwritten whole -----

  /** What the latest call that sets a field set it to. */
  function Latest<T>(calls: seq<Call>, sets: Op -> Option<T>, initial: T): T {
    if calls == [] then initial
    else match sets(calls[|calls| - 1].op)
      case Some(v) => v
      case None => Latest(calls[..|calls| - 1], sets, initial)
  }

  function PhaseSet(op: Op): Option<Phase> {
    if op.SetPhase? then Some(op.phase) else None
  }

  function RoundSet(op: Op): Option<int> {
    if op.Write? && op.setter.SetRound? then Some(op.setter.round) else None
  }

  function MetricsSet(op: Op): Option<Option<string>> {
    if op.Write? && op.setter.SetMetrics? then Some(Some(op.setter.metrics)) else None
  }

  function SummariesSet(op: Op): Option<string> {
    if op == SetPhase(Seeding) then Some("")
    else if op.Write? && op.setter.SetSummaries? then Some(op.setter.summaries)
    else None
  }

  function ErrorSet(op: Op): Option<Option<string>> {
    if op.Write? && op.setter.SetLastError? then Some(op.setter.error) else None
  }

  function AdvisorySet(op: Op): Option<string> {
    if op.Write? && op.setter.SetAdvisory? then Some(op.setter.status) else None
  }

  function ReportSet(op: Op): Option<string> {
    if op.Write? && op.setter.SetReport? then Some(op.setter.status) else None
  }

  function RoundsSet(op: Op): Option<int> {
    if op.Write? && op.setter.SetNumRounds? then Some(op.setter.rounds) else None
  }

  function ShockSet(op: Op): Option<Option<string>> {
    if op.Write? && op.setter.SetPendingShock? then Some(op.setter.text) else None
  }

  function CycleSet(op: Op): Option<Option<string>> {
    if op == SetPhase(Seeding) then Some(None)
    else if op.Write? && op.setter.SetCycle? then Some(op.setter.cycle)
    else None
  }

  /** Finished influence-edge steps since SEEDING. */
  function EdgeSteps(calls: seq<Call>): nat {
    if calls == [] then 0
    else
      var op := calls[|calls| - 1].op;
      if op == SetPhase(Seeding) then 0
      else EdgeSteps(calls[..|calls| - 1]) + (if op == Write(BumpEdges) then 1 else 0)
  }

  /** Shocks recorded since SEEDING. */
  function ShocksSince(calls: seq<Call>): seq<Shock> {
    if calls == [] then []
    else
      var op := calls[|calls| - 1].op;
      if op == SetPhase(Seeding) then []
      else ShocksSince(calls[..|calls| - 1]) + (if op.RecordShock? then [Shock(op.text, op.round)] else [])
  }

  /** Audit lines since SEEDING that hold no secret. */
  function AuditSince(calls: seq<Call>): seq<Source> {
    if calls == [] then []
    else
      var op := calls[|calls| - 1].op;
      if op == SetPhase(Seeding) then []
      else
        AuditSince(calls[..|calls| - 1])
          + (if op.RecordSource? && !LooksSecret(op.line.result) then [op.line] else [])
  }

  lemma PanelAfter(s: Store, c: Call)
    ensures var p, q := s.panel, Apply(s, c).panel;
      && q.round == (if RoundSet(c.op).Some? then RoundSet(c.op).value else p.round)
      && q.metrics == (if MetricsSet(c.op).Some? then MetricsSet(c.op).value else p.metrics)
      && q.summaries == (if SummariesSet(c.op).Some? then SummariesSet(c.op).value else p.summaries)
      && q.lastError == (if ErrorSet(c.op).Some? then ErrorSet(c.op).value else p.lastError)
      && q.advisory == (if AdvisorySet(c.op).Some? then AdvisorySet(c.op).value else p.advisory)
      && q.report == (if ReportSet(c.op).Some? then ReportSet(c.op).value else p.report)
      && q.numRounds == (if RoundsSet(c.op).Some? then RoundsSet(c.op).value else p.numRounds)
      && q.pendingShock == (if ShockSet(c.op).Some? then ShockSet(c.op).value else p.pendingShock)
      && q.cycle == (if CycleSet(c.op).Some? then CycleSet(c.op).value else p.cycle)
      && q.edges == (if c.op == SetPhase(Seeding) then 0 else p.edges + (if c.op == Write(BumpEdges) then 1 else 0))
      && Apply(s, c).phase == (if PhaseSet(c.op).Some? then PhaseSet(c.op).value else s.phase)
  {
    hide Assign, FreshRoster, AllPending, Append, Prune, LooksSecret;
  }

  lemma LogsAfter(s: Store, c: Call)
    ensures Apply(s, c).applied ==
      if c.op == SetPhase(Seeding) then []
      else s.applied + (if c.op.RecordShock? then [Shock(c.op.text, c.op.round)] else [])
    ensures Apply(s, c).audit ==
      if c.op == SetPhase(Seeding) then []
      else if c.op.RecordSource? && !LooksSecret(c.op.line.result) then Append(s.audit, c.op.line, 100)
      else s.audit
  {
    hide Assign, FreshRoster, AllPending, Append, Prune, LooksSecret, Written;
  }

  /** Every field that is overwritten whole shows what the latest call set it to. */
  lemma {:induction false} ShowsLatestSetting(calls: seq<Call>)
    ensures var f := Visible(After(calls));
      && f.phase == Latest(calls, PhaseSet, Idle)
      && f.panel == Panel(
           Latest(calls, RoundSet, 0), Latest(calls, MetricsSet, None), Latest(calls, SummariesSet, ""),
           Latest(calls, ErrorSet, None), Latest(calls, AdvisorySet, "idle"), Latest(calls, ReportSet, "idle"),
           Latest(calls, RoundsSet, 3), Latest(calls, ShockSet, None), Latest(calls, CycleSet, None), EdgeSteps(calls))
  {
    hide Apply, RoundSet, MetricsSet, SummariesSet, ErrorSet, AdvisorySet, ReportSet, RoundsSet, ShockSet, CycleSet,
      PhaseSet;
    if calls != [] {
      var n := |calls| - 1;
      ShowsLatestSetting(calls[..n]);
      PanelAfter(After(calls[..n]), calls[n]);
    }
  }

  /** Applied shocks are all those since SEEDING; the audit shows the latest 100 lines without a secret. */
  lemma {:induction false} ShowsLogs(calls: seq<Call>)
    ensures Visible(After(calls)).applied == ShocksSince(calls)
    ensures Visible(After(calls)).audit == LastOf(AuditSince(calls), 100)
  {
    hide Apply, LooksSecret, Append;
    if calls != [] {
      var n := |calls| - 1;
      ShowsLogs(calls[..n]);
      LogsAfter(After(calls[..n]), calls[n]);
      if calls[n].op.RecordSource? {
        AppendKeepsLast(AuditSince(calls[..n]), calls[n].op.line, 100);
      }
    }
  }

  /** The shock window in plain words. */
  lemma ShowsWindow(calls: seq<Call>)
    ensures var f := Visible(After(calls));
      f.windowOpen <==>
        || f.phase == Seeding
        || (f.phase == Round1 && 1 < f.panel.numRounds)
        || (f.phase == Round2 && 2 < f.panel.numRounds)
        || (f.phase == Round3 && 3 < f.panel.numRounds)
  {
  }

  // ----- Secrets -----

  /** A character that lower-cases to `c`. */
  predicate Folds(x: char, c: char) {
    || (x == c && !('A' <= x <= 'Z'))
    || ('a' <= c <= 'z' && x as int == c as int - 32)
    || (c == 'k' && x == '\U{212A}')
  }

  predicate FoldsAt(s: string, i: int, part: string) {
    0 <= i <= |s| - |part| && forall k :: 0 <= k < |part| ==> Folds(s[i + k], part[k])
  }

  predicate Pattern(part: string) {
    forall k :: 0 <= k < |part| ==> part[k] as int < 128 && !('A' <= part[k] <= 'Z')
  }

  lemma FoldsIsLower(x: char, c: char)
    requires c as int < 128 && !('A' <= c <= 'Z')
    ensures LowerChar(x) == c <==> Folds(x, c)
  {
  }

  ghost predicate StandsAt(s: string, i: int, part: string) {
    0 <= i <= |s| - |part| && forall k :: 0 <= k < |part| ==> s[i + k] == part[k]
  }

  lemma {:induction false} ContainsExactly(s: string, part: string)
    ensures Contains(s, part) <==> exists i :: StandsAt(s, i, part)
  {
    StandsInFront(s, part);
    if !(part <= s) && s != "" {
      ContainsExactly(s[1..], part);
      forall i
        ensures StandsAt(s, i + 1, part) <==> (if i >= 0 then StandsAt(s[1..], i, part) else i == -1 && part <= s)
      {
        StandsBehind(s, i, part);
      }
      hide StandsAt;
      if i :| StandsAt(s, i, part) {
        assert StandsAt(s[1..], i - 1, part);
      }
    }
  }

  lemma StandsInFront(s: string, part: string)
    ensures StandsAt(s, 0, part) <==> part <= s
  {
  }

  lemma StandsBehind(s: string, i: int, part: string)
    requires s != ""
    ensures StandsAt(s, i + 1, part) <==> (if i >= 0 then StandsAt(s[1..], i, part) else i == -1 && part <= s)
  {
    StandsInFront(s, part);
    if i >= 0 && StandsAt(s[1..], i, part) {
      forall k | 0 <= k < |part| ensures s[i + 1 + k] == part[k] {
        assert s[1..][i + k] == part[k];
      }
    }
    if i >= 0 && StandsAt(s, i + 1, part) {
      forall k | 0 <= k < |part| ensures s[1..][i + k] == part[k] {
        assert s[i + 1 + k] == part[k];
      }
    }
  }

  lemma FoldsAtIsLower(s: string, i: int, part: string)
    requires Pattern(part)
    ensures StandsAt(Lower(s), i, part) <==> FoldsAt(s, i, part)
  {
    if 0 <= i <= |s| - |part| {
      forall k | 0 <= k < |part| ensures Lower(s)[i + k] == part[k] <==> Folds(s[i + k], part[k]) {
        FoldsIsLower(s[i + k], part[k]);
      }
    }
  }

  lemma LowerContains(s: string, part: string)
    requires Pattern(part)
    ensures Contains(Lower(s), part) <==> exists i :: FoldsAt(s, i, part)
  {
    ContainsExactly(Lower(s), part);
    hide Contains, Lower, FoldsAt, StandsAt;
    forall i ensures StandsAt(Lower(s), i, part) <==> FoldsAt(s, i, part) {
      FoldsAtIsLower(s, i, part);
    }
  }

  /** A result is refused exactly when one of the three patterns stands in it, in whatever case. */
  lemma RefusesExactly(result: string)
    ensures LooksSecret(result) <==>
      || (exists i :: FoldsAt(result, i, "sk-"))
      || (exists i :: FoldsAt(result, i, "api_key="))
      || (exists i :: FoldsAt(result, i, "bearer "))
  {
    hide Contains, Lower, FoldsAt;
    LowerContains(result, "sk-");
    LowerContains(result, "api_key=");
    LowerContains(result, "bearer ");
  }

  // ----- The elapsed clock -----

  predicate Completes(op: Op) {
    op == SetPhase(Complete)
  }

  /** The first live phase of a store that has not run yet starts the clock, and so does every SEEDING. */
  predicate StartsClock(before: seq<Call>, op: Op) {
    || op == SetPhase(Seeding)
    || (op.SetPhase? && !(op.phase in {Idle, Replay})
        && forall j :: 0 <= j < |before| && before[j].op.SetPhase? ==> before[j].op.phase in {Idle, Replay})
  }

  lemma ClockAfter(s: Store, c: Call)
    ensures var t := Apply(s, c);
      && (c.op == SetPhase(Seeding) ==> t.start == Some(c.now) && t.final == None)
      && (c.op.SetPhase? && s.start == None && !(c.op.phase in {Idle, Replay}) ==> t.start == Some(c.now))
      && (!(c.op == SetPhase(Seeding)) && (s.start.Some? || !c.op.SetPhase? || c.op.phase in {Idle, Replay}) ==>
            t.start == s.start)
      && (!(c.op == SetPhase(Seeding)) ==>
            t.final == if Completes(c.op) then Some(c.now - t.start.value) else s.final)
  {
    hide Assign, FreshRoster, AllPending, Append, Prune, LooksSecret, Written;
  }

  lemma {:induction false} NotStarted(calls: seq<Call>)
    requires forall j :: 0 <= j < |calls| && calls[j].op.SetPhase? ==> calls[j].op.phase in {Idle, Replay}
    ensures After(calls).start == None && After(calls).final == None
  {
    hide Apply;
    if calls != [] {
      NotStarted(calls[..|calls| - 1]);
      ClockAfter(After(calls[..|calls| - 1]), calls[|calls| - 1]);
    }
  }

  lemma {:induction false} RunsFrom(calls: seq<Call>, k: nat)
    requires k < |calls| && StartsClock(calls[..k], calls[k].op) && NoSeeding(calls[k + 1..])
    ensures var s := After(calls);
      && s.start == Some(calls[k].now)
      && s.final == LastComplete(calls[k..], calls[k].now)
  {
    hide Apply;
    var n := |calls| - 1;
    ClockAfter(After(calls[..n]), calls[n]);
    if k == n {
      if calls[k].op != SetPhase(Seeding) {
        NotStarted(calls[..k]);
      }
      assert calls[k..] == [calls[k]] && [calls[k]][..0] == [];
    } else {
      assert calls[..n][..k] == calls[..k] && calls[..n][k + 1..] == calls[k + 1..][..n - k - 1];
      assert calls[..n][k..] == calls[k..][..n - k] && calls[k..][n - k] == calls[n];
      assert calls[k + 1..][n - k - 1] == calls[n];
      RunsFrom(calls[..n], k);
    }
  }

  /** The time from the start to the latest COMPLETE, if there is one. */
  function LastComplete(calls: seq<Call>, start: real): Option<real> {
    if calls == [] then None
    else
      var c := calls[|calls| - 1];
      if Completes(c.op) then Some(c.now - start) else LastComplete(calls[..|calls| - 1], start)
  }

  /** Elapsed time runs from the latest SEEDING, or else the first live phase, to the latest COMPLETE after
      it, or else to now; a start at exactly 0.0 shows 0.0 until then. */
  lemma ElapsedExactly(calls: seq<Call>, k: nat, now: real)
    requires k < |calls| && StartsClock(calls[..k], calls[k].op) && NoSeeding(calls[k + 1..])
    ensures Elapsed(After(calls), now) ==
      match LastComplete(calls[k..], calls[k].now)
      case Some(t) => t
      case None => if calls[k].now == 0.0 then 0.0 else now - calls[k].now
  {
    RunsFrom(calls, k);
  }

  // ----- Versions -----

  /** Everything takes a version but snapshots, empty token counts and refused audit lines. */
  lemma TakesVersionExactly(op: Op)
    ensures Bumps(op) <==>
      && op != TakeSnapshot
      && (op.RecordTokens? ==> op.count > 0)
      && (op.RecordSource? ==> !LooksSecret(op.line.result))
  {
  }

  // ----- The replay store -----

  /** The roster of a longer recording, and of a single signal. */
  lemma {:induction false} RosterOfParts(
    a: seq<((string, int), AgentState)>, b: seq<((string, int), AgentState)>, round: int)
    ensures RosterOf(a + b, round) == RosterOf(a, round) + RosterOf(b, round)
    ensures |b| == 1 ==> RosterOf(b, round) == if b[0].0.1 == round then [(b[0].0.0, b[0].1)] else []
  {
    hide RosterOf;
    NothingRecorded(round);
    if b == [] {
      assert a + b == a;
    } else {
      var n := |b| - 1;
      RosterOfParts(a, b[..n], round);
      LastRecorded(a + b, round);
      LastRecorded(b, round);
      assert (a + b)[..|a + b| - 1] == a + b[..n];
      if n == 0 {
        assert b[..0] == [];
      }
    }
  }

  lemma LastRecorded(a: seq<((string, int), AgentState)>, round: int)
    requires a != []
    ensures var ((id, n), state) := a[|a| - 1];
      RosterOf(a, round) == RosterOf(a[..|a| - 1], round) + (if n == round then [(id, state)] else [])
  {
  }

  lemma NothingRecorded(round: int)
    ensures RosterOf([], round) == []
  {
  }

  /** A replay shows the recorded signals of its round, what the player set, and a complete cycle's edges. */
  lemma ReplayShows(s: Replayed)
    ensures var f := ReplayFrame(s);
      && f.phase == Replay && f.roster == RosterOf(s.signals, s.round) && f.window == s.entries
      && f.panel.round == s.round && f.panel.summaries == s.summaries && f.panel.numRounds == s.rounds
      && f.panel.cycle == Some(s.cycle) && f.panel.edges == (if s.round >= 1 then s.round - 1 else 0)
      && f.audit == [] && f.applied == [] && !f.windowOpen
  {
  }

  lemma ReplaySets(s: Replayed, op: ReplayOp)
    ensures var t := ApplyReplay(s, op);
      && t.cycle == s.cycle && t.rounds == s.rounds && t.signals == s.signals
      && t.round == (if op.ReplayRound? then op.round else s.round)
      && t.summaries == (if op.ReplaySummaries? then op.summaries else s.summaries)
      && t.entries == (if op.ReplayEntries? then op.entries else s.entries)
  {
  }
}
