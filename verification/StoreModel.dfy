/** The live state store (src/alphaswarm/state.py) as values: what each call changes and what a
    snapshot shows. StateStore.dfy proves the class against these functions. */
module StoreModel {
  import opened Common

  // ----- Data -----

  datatype Phase = Idle | Seeding | Round1 | Round2 | Round3 | Finalizing | Complete | Replay

  datatype AgentState = Pending | Decided(signal: Signal, confidence: real)

  /** The agent dictionary, in insertion order. */
  type Roster = seq<(string, AgentState)>

  /** A rationale entry; `push_rationale` stamps `number` and `ts`. */
  datatype Entry = Entry(agent: string, signal: Signal, text: string, round: int, number: nat, ts: real)

  /** One line of the data-provider audit. */
  datatype Source = Source(ts: real, source: string, query: string, result: string, used: bool)

  datatype Shock = Shock(text: string, round: int)

  /** The fields that are only ever overwritten whole. Payloads the store never reads are strings. */
  datatype Panel = Panel(
    round: int, metrics: Option<string>, summaries: string, lastError: Option<string>, advisory: string, report: string,
    numRounds: int, pendingShock: Option<string>, cycle: Option<string>, edges: nat)

  datatype Store = Store(
    roster: Roster, phase: Phase, panel: Panel, start: Option<real>, final: Option<real>,
    window: seq<Entry>, audit: seq<Source>, tokens: seq<(real, nat)>, applied: seq<Shock>, pushes: nat)

  const IDLE_JOB := "idle"
  const RATIONALE_MAX := 50
  const AUDIT_MAX := 100
  const TPS_WINDOW := 10.0

  function NewStore(): Store {
    Store([], Idle, Panel(0, None, "", None, IDLE_JOB, IDLE_JOB, 3, None, None, 0), None, None, [], [], [], [], 0)
  }

  // ----- Calls -----

  /** The one-line setters. */
  datatype Setter =
    | SetRound(round: int) | SetCycle(cycle: Option<string>) | BumpEdges | SetSummaries(summaries: string)
    | SetLastError(error: Option<string>) | SetMetrics(metrics: string) | SetAdvisory(status: string)
    | SetReport(status: string) | SetNumRounds(rounds: int) | SetPendingShock(text: Option<string>)

  datatype Op =
    | UpdateAgent(id: string, signal: Signal, confidence: real)
    | BeginRun(ids: seq<string>)
    | SetPhase(phase: Phase)
    | Write(setter: Setter)
    | PushRationale(entry: Entry, ts: real)
    | RecordTokens(count: int)
    | RecordShock(text: string, round: int)
    | RecordSource(line: Source)
    | TakeSnapshot

  datatype Call = Call(op: Op, now: real)

  /** `s.lower()`, as far as it can give an ASCII letter of its own: the capitals and the Kelvin sign. */
  function Lower(s: string): string {
    seq(|s|, i requires 0 <= i < |s| => LowerChar(s[i]))
  }

  function LowerChar(c: char): char {
    if 'A' <= c <= 'Z' then c - 'A' + 'a' else if c == '\U{212A}' then 'k' else c
  }

  predicate Contains(s: string, part: string) {
    part <= s || (s != "" && Contains(s[1..], part))
  }

  /** What the audit buffer refuses to record. */
  predicate LooksSecret(result: string) {
    var lowered := Lower(result);
    Contains(lowered, "sk-") || Contains(lowered, "api_key=") || Contains(lowered, "bearer ")
  }

  function Written(p: Panel, w: Setter): Panel {
    match w
    case SetRound(n) => p.(round := n)
    case SetCycle(c) => p.(cycle := c)
    case BumpEdges => p.(edges := p.edges + 1)
    case SetSummaries(s) => p.(summaries := s)
    case SetLastError(e) => p.(lastError := e)
    case SetMetrics(m) => p.(metrics := Some(m))
    case SetAdvisory(s) => p.(advisory := s)
    case SetReport(s) => p.(report := s)
    case SetNumRounds(n) => p.(numRounds := n)
    case SetPendingShock(t) => p.(pendingShock := t)
  }

  /** `deque(maxlen=max).append`. */
  function Append<T>(window: seq<T>, item: T, max: nat): seq<T> {
    if |window| >= max > 0 then window[1..] + [item] else window + [item]
  }

  /** `states[id] = state`: a known id keeps its position. */
  function Assign(r: Roster, id: string, state: AgentState): Roster {
    if r == [] then [(id, state)]
    else if r[0].0 == id then [(id, state)] + r[1..]
    else [r[0]] + Assign(r[1..], id, state)
  }

  /** `dict.fromkeys(ids)`, every agent pending. */
  function FreshRoster(ids: seq<string>): Roster {
    if ids == [] then [] else Assign(FreshRoster(ids[..|ids| - 1]), ids[|ids| - 1], Pending)
  }

  function AllPending(r: Roster): Roster {
    seq(|r|, i requires 0 <= i < |r| => (r[i].0, Pending))
  }

  /** `_prune_token_window`. */
  function Prune(tokens: seq<(real, nat)>, now: real): seq<(real, nat)> {
    if tokens != [] && tokens[0].0 <= now - TPS_WINDOW then Prune(tokens[1..], now) else tokens
  }

  predicate IsRound(p: Phase) {
    p == Round1 || p == Round2 || p == Round3
  }

  /** What SEEDING clears: everything that belongs to one run. */
  function Seeded(s: Store, now: real): Store {
    s.(start := Some(now), final := None, tokens := [], panel := s.panel.(summaries := "", cycle := None, edges := 0),
       window := [], audit := [], applied := [], roster := AllPending(s.roster))
  }

  /** The elapsed clock starts on the first live phase and freezes on COMPLETE. */
  function Timed(s: Store, p: Phase, now: real): Store {
    var start := if s.start == None && p != Idle && p != Replay then Some(now) else s.start;
    s.(start := start, final := if p == Complete && start.Some? then Some(now - start.value) else s.final)
  }

  /** `set_phase`. */
  function EnterPhase(s: Store, p: Phase, now: real): Store {
    var moved := s.(phase := p);
    Timed(if p == Seeding then Seeded(moved, now)
          else if IsRound(p) then moved.(roster := AllPending(s.roster))
          else moved, p, now)
  }

  function Apply(s: Store, c: Call): Store {
    match c.op
    case UpdateAgent(id, signal, confidence) => s.(roster := Assign(s.roster, id, Decided(signal, confidence)))
    case BeginRun(ids) => s.(roster := FreshRoster(ids))
    case SetPhase(p) => EnterPhase(s, p, c.now)
    case Write(w) => s.(panel := Written(s.panel, w))
    case PushRationale(e, ts) =>
      s.(pushes := s.pushes + 1, window := Append(s.window, e.(number := s.pushes + 1, ts := ts), RATIONALE_MAX))
    case RecordTokens(n) => if n <= 0 then s else s.(tokens := Prune(s.tokens + [(c.now, n as nat)], c.now))
    case RecordShock(text, round) => s.(applied := s.applied + [Shock(text, round)])
    case RecordSource(e) => if LooksSecret(e.result) then s else s.(audit := Append(s.audit, e, AUDIT_MAX))
    case TakeSnapshot => s.(tokens := Prune(s.tokens, c.now))
  }

  /** The calls that take a new version: all but a snapshot, a non-positive token count, and an
      audit line that is refused. */
  predicate Bumps(op: Op) {
    match op
    case RecordTokens(n) => n > 0
    case RecordSource(e) => !LooksSecret(e.result)
    case TakeSnapshot => false
    case _ => true
  }

  // ----- Snapshots -----

  function RoundOf(p: Phase): Option<int> {
    match p
    case Round1 => Some(1)
    case Round2 => Some(2)
    case Round3 => Some(3)
    case _ => None
  }

  /** `shock_window_open`. */
  predicate WindowOpen(p: Phase, numRounds: int) {
    p == Seeding || (RoundOf(p).Some? && RoundOf(p).value < numRounds)
  }

  /** Every field of a snapshot except elapsed time and tps. */
  datatype Frame = Frame(roster: Roster, phase: Phase, panel: Panel, window: seq<Entry>, audit: seq<Source>,
                         applied: seq<Shock>, windowOpen: bool)

  function Visible(s: Store): Frame {
    Frame(s.roster, s.phase, s.panel, s.window, s.audit, s.applied, WindowOpen(s.phase, s.panel.numRounds))
  }

  /** `elapsed_seconds`; a start at exactly 0.0 counts as no start. */
  function Elapsed(s: Store, now: real): real {
    if s.final.Some? then s.final.value
    else if s.start.Some? && s.start.value != 0.0 then now - s.start.value
    else 0.0
  }

  function Total(tokens: seq<(real, nat)>): nat {
    if tokens == [] then 0 else Total(tokens[..|tokens| - 1]) + tokens[|tokens| - 1].1
  }

  /** `round(x, 1)`: the nearest tenth, halves to the even one. */
  function RoundToTenth(x: real): real {
    var tenths := x * 10.0;
    var low := tenths.Floor;
    var part := tenths - low as real;
    var nearest := if part < 0.5 || (part == 0.5 && low % 2 == 0) then low else low + 1;
    nearest as real / 10.0
  }

  /** `tps`. */
  function Tps(s: Store, now: real): real {
    RoundToTenth(Total(Prune(s.tokens, now)) as real / TPS_WINDOW)
  }

  // ----- Histories -----

  /** The store after the calls, in order. */
  function After(calls: seq<Call>): Store {
    if calls == [] then NewStore() else Apply(After(calls[..|calls| - 1]), calls[|calls| - 1])
  }

  /** A monotonic clock. */
  ghost predicate Ordered(calls: seq<Call>) {
    forall i, j :: 0 <= i <= j < |calls| ==> calls[i].now <= calls[j].now
  }

  // ----- The replay store -----

  /** ReplayStore: the recorded signals of a cycle by agent and round, and what the player sets. */
  datatype Replayed = Replayed(
    cycle: string, rounds: int, signals: seq<((string, int), AgentState)>,
    round: int, summaries: string, entries: seq<Entry>)

  datatype ReplayOp = ReplayRound(round: int) | ReplaySummaries(summaries: string) | ReplayEntries(entries: seq<Entry>)
    | ReplaySnapshot

  function NewReplay(cycle: string, rounds: int, signals: seq<((string, int), AgentState)>): Replayed {
    Replayed(cycle, rounds, signals, 0, "", [])
  }

  function ApplyReplay(s: Replayed, op: ReplayOp): Replayed {
    match op
    case ReplayRound(n) => s.(round := n)
    case ReplaySummaries(text) => s.(summaries := text)
    case ReplayEntries(entries) => s.(entries := entries)
    case ReplaySnapshot => s
  }

  /** The agents recorded for a round, in order. */
  function RosterOf(signals: seq<((string, int), AgentState)>, round: int): Roster {
    if signals == [] then []
    else
      var ((id, n), state) := signals[|signals| - 1];
      RosterOf(signals[..|signals| - 1], round) + (if n == round then [(id, state)] else [])
  }

  /** A replay snapshot: a complete cycle in phase REPLAY, with no clock and no tokens. */
  function ReplayFrame(s: Replayed): Frame {
    var panel := Panel(s.round, None, s.summaries, None, IDLE_JOB, IDLE_JOB, s.rounds, None, Some(s.cycle),
      Max(0, s.round - 1));
    Frame(RosterOf(s.signals, s.round), Replay, panel, s.entries, [], [], false)
  }
}
