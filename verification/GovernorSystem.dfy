/** The governor with its waiters, its monitor task and the event loop's pending
    callbacks. Every handler of the source runs without an await inside it, so each is one
    atomic event and a run is any interleaving of events under a nondecreasing clock. */
module GovernorSystem {
  import opened Common
  import opened GovernorModel

  /** A waiter sleeps on a numbered event, or holds a slot. */
  datatype Waiter = Parked(event: nat) | Holding

  datatype Action =
    | Attempt(w: nat)                    // acquire: the first pass, or the re-check of a woken waiter
    | Abandon(w: nat)                    // a parked waiter is cancelled
    | Finish(w: nat, success: bool)      // a holder releases its slot
    | StartSession
    | MonitorCheck(reading: Reading)
    | MonitorDies(error: MonitorError)   // a read or the loop itself raised
    | CancelMonitor                      // stop_monitoring cancels its monitor, which then returns
    | DoneCallback                       // the event loop runs a dead task's done callback
    | StopSession(propagating: bool)     // stop_monitoring after its await

  datatype Event = Event(at: real, action: Action)

  datatype Sys = Sys(g: Gov, waiters: map<nat, Waiter>, callbacks: seq<MonitorError>, now: real)

  function Init(s: Settings, now: real): Sys {
    Sys(Initial(s, now), map[], [], now)
  }

  predicate Enabled(x: Sys, e: Event) {
    && x.now <= e.at
    && match e.action
       case Attempt(w) => w in x.waiters ==> x.waiters[w].Parked? && x.waiters[w].event < x.g.generation
       case Abandon(w) => w in x.waiters && x.waiters[w].Parked?
       case Finish(w, _) => w in x.waiters && x.waiters[w].Holding?
       case StartSession => true
       case MonitorCheck(_) => x.g.task.TaskRunning?
       case MonitorDies(_) => x.g.task.TaskRunning?
       case CancelMonitor => x.g.task.TaskRunning?
       case DoneCallback => x.callbacks != []
       case StopSession(_) => !x.g.task.TaskRunning?
  }

  function AttemptWaiters(x: Sys, w: nat, at: real): map<nat, Waiter> {
    match AcquireVerdict(x.g, at)
    case Raised(_) => x.waiters - {w}
    case Admitted => x.waiters[w := Holding]
    case MustWait => x.waiters[w := Parked(Absorb(x.g, at).generation)]
  }

  function NewGov(s: Settings, x: Sys, e: Event): Gov
    requires Enabled(x, e)
  {
    match e.action
    case Attempt(_) => Acquire(x.g, e.at)
    case Abandon(_) => x.g
    case Finish(_, success) => Release(s, x.g, success, e.at)
    case StartSession => StartMonitoring(x.g)
    case MonitorCheck(r) => Check(s, x.g, r, e.at)
    case MonitorDies(error) => x.g.(task := TaskFailed(error))
    case CancelMonitor => x.g.(task := TaskFinished)
    case DoneCallback => AbsorbError(x.g, x.callbacks[0], e.at)
    case StopSession(_) => Stop(s, x.g, e.at)
  }

  function Step(s: Settings, x: Sys, e: Event): Sys
    requires Enabled(x, e)
  {
    var g := NewGov(s, x, e);
    var waiters := match e.action
      case Attempt(w) => AttemptWaiters(x, w, e.at)
      case Abandon(w) => x.waiters - {w}
      case Finish(w, _) => x.waiters - {w}
      case _ => x.waiters;
    var callbacks := match e.action
      case MonitorDies(error) => x.callbacks + [error]
      case MonitorCheck(_) => if Aborts(s, x.g, e.at) then x.callbacks + [g.task.error] else x.callbacks
      case DoneCallback => x.callbacks[1..]
      case _ => x.callbacks;
    Sys(g, waiters, callbacks, e.at)
  }

  predicate Admits(x: Sys, e: Event) {
    e.action.Attempt? && AcquireVerdict(x.g, e.at).Admitted?
  }

  predicate Next(s: Settings, x: Sys, e: Event, y: Sys) {
    Enabled(x, e) && y == Step(s, x, e)
  }

  /** `xs[k]` is the state before event `k`. */
  ghost predicate IsRun(s: Settings, xs: seq<Sys>, es: seq<Event>) {
    && s.Valid()
    && |xs| == |es| + 1
    && xs[0] == Init(s, xs[0].now)
    && forall k :: 0 <= k < |es| ==> Next(s, xs[k], es[k], xs[k + 1])
  }

  // ----- The inductive invariant -----

  predicate ModeInv(s: Settings, g: Gov) {
    && (g.paused <==> ClosedMode(g.mode))
    && (g.crisisStart.Some? <==> g.mode == Crisis)
    && (g.pausedSince.Some? <==> g.mode == Paused)
    && (g.mode == Crisis ==> g.limit == 1 && g.debt == 0)
    && (g.mode == Recovering ==> g.limit <= s.baseline)
    && 1 <= g.limit <= s.maxParallel
    && 0 <= g.inUse <= s.maxParallel
    && g.greenChecks >= 0
    && (g.mode != Running ==> g.greenChecks == 0)
    && g.debt >= 0 && g.successes >= 0
    && |g.outcomes| <= s.window
    && (g.fatalDelivered ==> g.fatal.Some?)
  }

  /** Nothing on the governor's clocks lies after `now`. */
  predicate ClockInv(g: Gov, now: real) {
    && g.lastSuccess <= now
    && (g.crisisStart.Some? ==> g.crisisStart.value <= now)
    && (g.pausedSince.Some? ==> g.pausedSince.value <= now)
  }

  predicate GovInv(s: Settings, g: Gov, now: real) {
    ModeInv(s, g) && ClockInv(g, now)
  }

  /** Why a waiter of generation `generation` may sleep: an acquire would not get through. */
  predicate Blocked(g: Gov) {
    g.fatal == None && (g.paused || g.inUse >= g.limit)
  }

  /** A waiter parked on the current event has nothing to be woken for. */
  predicate WakeInv(g: Gov, waiters: map<nat, Waiter>) {
    forall w :: w in waiters && waiters[w].Parked? ==>
      && waiters[w].event <= g.generation
      && (waiters[w].event == g.generation ==> Blocked(g))
  }

  predicate Inv(s: Settings, x: Sys) {
    GovInv(s, x.g, x.now) && WakeInv(x.g, x.waiters)
  }

  /** Every change of the governor either sets the current event or opens nothing. */
  predicate WakesOrOpensNothing(g: Gov, g': Gov) {
    || g'.generation > g.generation
    || (g'.generation == g.generation && (Blocked(g) ==> Blocked(g')))
  }

  ghost predicate Keeps(s: Settings, g: Gov, g': Gov, at: real) {
    GovInv(s, g', at) && WakesOrOpensNothing(g, g')
  }

  lemma RunningKeeps(s: Settings, g: Gov, r: Reading, at: real)
    requires s.Valid() && GovInv(s, g, at) && g.mode == Running
    ensures Keeps(s, g, HandleRunning(s, g, r, at), at)
  {
  }

  lemma ThrottledKeeps(s: Settings, g: Gov, r: Reading, at: real)
    requires s.Valid() && GovInv(s, g, at) && g.mode == Throttled
    ensures Keeps(s, g, HandleThrottled(g, r, at), at)
  {
  }

  lemma PausedKeeps(s: Settings, g: Gov, r: Reading, at: real)
    requires s.Valid() && GovInv(s, g, at) && g.mode == Paused
    ensures Keeps(s, g, HandlePaused(s, g, r, at), at)
  {
  }

  lemma CrisisKeeps(s: Settings, g: Gov, r: Reading, at: real)
    requires s.Valid() && GovInv(s, g, at) && g.mode == Crisis
    ensures Keeps(s, g, HandleCrisis(s, g, r), at)
  {
  }

  lemma RecoveringKeeps(s: Settings, g: Gov, r: Reading, at: real)
    requires s.Valid() && GovInv(s, g, at) && g.mode == Recovering
    ensures Keeps(s, g, HandleRecovering(s, g, r, at), at)
  {
  }

  lemma CheckKeeps(s: Settings, g: Gov, r: Reading, at: real)
    requires s.Valid() && GovInv(s, g, at)
    ensures Keeps(s, g, Check(s, g, r, at), at)
  {
    if Aborts(s, g, at) {
      return;
    }
    match g.mode {
      case Running => RunningKeeps(s, g, r, at);
      case Throttled => ThrottledKeeps(s, g, r, at);
      case Paused => PausedKeeps(s, g, r, at);
      case Crisis => CrisisKeeps(s, g, r, at);
      case Recovering => RecoveringKeeps(s, g, r, at);
    }
  }

  lemma RegrowKeeps(s: Settings, g: Gov, at: real)
    requires s.Valid() && GovInv(s, g, at)
    ensures GovInv(s, MaybeRegrow(s, g), at) && MaybeRegrow(s, g).generation >= g.generation
  {
  }

  lemma ShrinkKeeps(s: Settings, g: Gov, at: real)
    requires s.Valid() && GovInv(s, g, at)
    ensures GovInv(s, Shrink(s, g), at) && Shrink(s, g).generation >= g.generation
  {
  }

  lemma ReleaseKeeps(s: Settings, g: Gov, success: bool, at: real)
    requires s.Valid() && GovInv(s, g, at)
    ensures Keeps(s, g, Release(s, g, success, at), at)
    ensures Release(s, g, success, at).generation > g.generation
  {
    var q := PushOutcome(s.window, g.outcomes, success);
    var g1 := g.(inUse := Max(0, g.inUse - 1));
    if success {
      RegrowKeeps(s, g1.(lastSuccess := at, outcomes := q, successes := g.successes + 1), at);
    } else if FailingWindow(s, q) {
      ShrinkKeeps(s, g1.(outcomes := [], successes := 0), at);
    }
  }

  lemma AcquireKeeps(s: Settings, g: Gov, at: real)
    requires s.Valid() && GovInv(s, g, at)
    ensures Keeps(s, g, Acquire(g, at), at)
    ensures AcquireVerdict(g, at).MustWait? ==> Blocked(Acquire(g, at))
  {
  }

  /** Every event keeps the governor's invariant and loses no wakeup. */
  lemma NewGovKeeps(s: Settings, x: Sys, e: Event)
    requires s.Valid() && Enabled(x, e) && GovInv(s, x.g, x.now)
    ensures Keeps(s, x.g, NewGov(s, x, e), e.at)
  {
    assert GovInv(s, x.g, e.at);
    match e.action {
      case Attempt(_) => AcquireKeeps(s, x.g, e.at);
      case Finish(_, success) => ReleaseKeeps(s, x.g, success, e.at);
      case MonitorCheck(r) => CheckKeeps(s, x.g, r, e.at);
      case _ =>
    }
  }

  lemma InvStep(s: Settings, x: Sys, e: Event, y: Sys)
    requires s.Valid() && Next(s, x, e, y) && Inv(s, x)
    ensures Inv(s, y)
  {
    NewGovKeeps(s, x, e);
    if e.action.Attempt? {
      AcquireKeeps(s, x.g, e.at);
    }
  }

  lemma InitInv(s: Settings, now: real)
    requires s.Valid()
    ensures Inv(s, Init(s, now))
  {
  }

  lemma {:induction false} InvAt(s: Settings, xs: seq<Sys>, es: seq<Event>, k: nat)
    requires IsRun(s, xs, es) && k <= |es|
    ensures Inv(s, xs[k])
  {
    hide Next, Inv, Init;
    if k == 0 {
      InitInv(s, xs[0].now);
    } else {
      InvAt(s, xs, es, k - 1);
      assert Next(s, xs[k - 1], es[k - 1], xs[k]);
      InvStep(s, xs[k - 1], es[k - 1], xs[k]);
    }
  }
}
