/** The memory governor as values: one step function per handler of
    src/alphaswarm/governor.py. The class in GovernorClass.dfy is proved against
    these functions, and the other Governor files prove whole-run properties of them. */
module GovernorModel {
  import opened Common

  // ----- Readings (memory_monitor.py) -----

  datatype Pressure = Green | Yellow | Red

  /** One combined memory reading; the zones apply only while the kernel says Green. */
  datatype Reading = Reading(used: real, pressure: Pressure, throttleAt: real, pauseAt: real, scaleUpAt: real) {
    predicate IsCrisis() {
      pressure != Green
    }

    predicate IsThrottleZone() {
      !IsCrisis() && used >= throttleAt
    }

    predicate IsPauseZone() {
      !IsCrisis() && used >= pauseAt
    }

    predicate IsScaleUpEligible() {
      !IsCrisis() && used < scaleUpAt
    }
  }

  // ----- Settings (settings.py) -----

  datatype Settings = Settings(
    baseline: int, maxParallel: int, scaleUpChecks: int, crisisTimeout: real,
    step: int, failurePercent: real, window: int, regrowSuccesses: int)
  {
    /** The field bounds and the model validator of GovernorSettings. */
    predicate Valid() {
      && 1 <= baseline <= maxParallel <= 32
      && 1 <= scaleUpChecks <= 10
      && 30.0 <= crisisTimeout <= 600.0
      && 1 <= step <= 4
      && 5.0 <= failurePercent <= 50.0
      && 4 <= window <= 200
      && 1 <= regrowSuccesses <= 100
    }
  }

  // ----- State -----

  datatype Mode = Running | Throttled | Paused | Crisis | Recovering

  /** What ended the monitor task: a GovernorCrisisError, or anything else. */
  datatype MonitorError = CrisisError(duration: real) | OtherError

  datatype Fatal = Fatal(duration: real)

  datatype Task = NoTask | TaskRunning | TaskFinished | TaskFailed(error: MonitorError)

  /** Every field of ResourceGovernor that admission or the state machine reads.
      Events are numbered: `_changed` is event number `generation`, and exactly the
      events with a smaller number are set. */
  datatype Gov = Gov(
    mode: Mode, limit: int, inUse: int, paused: bool,
    fatal: Option<Fatal>, fatalDelivered: bool, generation: nat,
    lastSuccess: real, crisisStart: Option<real>, pausedSince: Option<real>,
    greenChecks: int, outcomes: seq<bool>, successes: int, debt: int, task: Task)

  function Initial(s: Settings, now: real): Gov {
    Gov(Running, s.baseline, 0, false, None, false, 0, now, None, None, 0, [], 0, 0, NoTask)
  }

  // ----- Limiter internals -----

  function Notify(g: Gov): Gov {
    g.(generation := g.generation + 1)
  }

  function SetLimit(g: Gov, n: int): Gov {
    Notify(g.(limit := Max(1, n)))
  }

  predicate ClosedMode(m: Mode) {
    m == Paused || m == Crisis
  }

  function SyncGate(g: Gov): Gov {
    Notify(g.(paused := ClosedMode(g.mode)))
  }

  // ----- Fatal errors and sessions -----

  function AbsorbError(g: Gov, e: MonitorError, now: real): Gov {
    if g.fatal.Some? then g
    else
      var duration := match e
        case CrisisError(d) => d
        case OtherError => if g.crisisStart.Some? then now - g.crisisStart.value else 0.0;
      Notify(g.(fatal := Some(Fatal(duration))))
  }

  /** `_absorb_monitor_failure` on the governor's own task. */
  function Absorb(g: Gov, now: real): Gov {
    if g.task.TaskFailed? then AbsorbError(g, g.task.error, now) else g
  }

  function ResetSession(s: Settings, g: Gov): Gov {
    Gov(Running, s.baseline, 0, false, None, false, g.generation + 1,
        g.lastSuccess, None, None, 0, [], 0, 0, g.task)
  }

  /** `task.cancel()` on a monitor that is still running, and its end. */
  function Cancelled(g: Gov): Gov {
    if g.task.TaskRunning? then g.(task := TaskFinished) else g
  }

  /** `stop_monitoring` once its task is no longer running: absorb, then reset. */
  function Stop(s: Settings, g: Gov, now: real): Gov {
    ResetSession(s, Absorb(g, now).(task := NoTask))
  }

  /** The error `stop_monitoring` raises: one that no acquire delivered, unless another
      exception is already propagating. */
  function StopRaises(g: Gov, now: real, propagating: bool): Option<Fatal> {
    var a := Absorb(g, now);
    if a.fatalDelivered || propagating then None else a.fatal
  }

  function StartMonitoring(g: Gov): Gov {
    if g.task.TaskRunning? then g else g.(task := TaskRunning)
  }

  // ----- Acquire and release -----

  datatype Verdict = Raised(fatal: Fatal) | Admitted | MustWait

  /** One pass of the loop in `acquire`, up to the await. */
  function AcquireVerdict(g: Gov, now: real): Verdict {
    var a := Absorb(g, now);
    if a.fatal.Some? then Raised(a.fatal.value)
    else if !a.paused && a.inUse < a.limit then Admitted
    else MustWait
  }

  function Acquire(g: Gov, now: real): Gov {
    var a := Absorb(g, now);
    match AcquireVerdict(g, now)
    case Raised(_) => a.(fatalDelivered := true)
    case Admitted => a.(inUse := a.inUse + 1)
    case MustWait => a
  }

  /** `deque(maxlen=window).append`. */
  function PushOutcome(window: int, q: seq<bool>, x: bool): seq<bool> {
    if |q| > 0 && |q| >= window then q[1..] + [x] else q + [x]
  }

  function Failures(q: seq<bool>): nat {
    if q == [] then 0 else Failures(q[..|q| - 1]) + (if q[|q| - 1] then 0 else 1)
  }

  /** A full window whose failure share is at or above the threshold. */
  predicate FailingWindow(s: Settings, q: seq<bool>) {
    |q| >= s.window && (Failures(q) * 100) as real >= s.failurePercent * |q| as real
  }

  /** All that the monitor's checks read and write, apart from the limit and the debt. */
  predicate SameMachine(g: Gov, h: Gov) {
    && h.mode == g.mode && h.paused == g.paused && h.greenChecks == g.greenChecks
    && h.pausedSince == g.pausedSince && h.crisisStart == g.crisisStart
    && h.fatal == g.fatal && h.fatalDelivered == g.fatalDelivered && h.task == g.task
  }

  function MaybeRegrow(s: Settings, g: Gov): (h: Gov)
    ensures SameMachine(g, h) && h.outcomes == g.outcomes && h.inUse == g.inUse && h.lastSuccess == g.lastSuccess
  {
    if g.debt == 0 || g.successes < s.regrowSuccesses || (g.mode != Running && g.mode != Throttled) then g
    else
      var g1 := g.(successes := 0);
      var grow := Min(s.step, Min(g.debt, s.maxParallel - g.limit));
      if grow <= 0 then g1.(debt := 0) else SetLimit(g1.(debt := g.debt - grow), g.limit + grow)
  }

  /** Shrinks one step, never below one slot and never in CRISIS. */
  function Shrink(s: Settings, g: Gov): (h: Gov)
    ensures SameMachine(g, h) && h.outcomes == g.outcomes && h.inUse == g.inUse && h.lastSuccess == g.lastSuccess
  {
    var shrink := Min(s.step, g.limit - 1);
    if g.mode == Crisis || shrink <= 0 then g
    else SetLimit(g.(debt := g.debt + shrink), g.limit - shrink)
  }

  function RecordOutcome(s: Settings, g: Gov, success: bool): (h: Gov)
    ensures SameMachine(g, h) && h.inUse == g.inUse && h.lastSuccess == g.lastSuccess
  {
    var q := PushOutcome(s.window, g.outcomes, success);
    if success then MaybeRegrow(s, g.(outcomes := q, successes := g.successes + 1))
    else if FailingWindow(s, q) then Shrink(s, g.(outcomes := [], successes := 0))
    else g.(outcomes := q, successes := 0)
  }

  function Release(s: Settings, g: Gov, success: bool, now: real): (h: Gov)
    ensures SameMachine(g, h) && h.inUse == Max(0, g.inUse - 1)
    ensures h.lastSuccess == if success then now else g.lastSuccess
  {
    var g1 := g.(inUse := Max(0, g.inUse - 1));
    var g2 := if success then g1.(lastSuccess := now) else g1;
    Notify(RecordOutcome(s, g2, success))
  }

  // ----- The monitor's checks -----

  /** One slot, gate closed, no debt: two notifications, one for each. */
  function EnterCrisis(g: Gov, since: real): Gov {
    g.(mode := Crisis, limit := 1, debt := 0, crisisStart := Some(since), pausedSince := None,
       greenChecks := 0, paused := true, generation := g.generation + 2)
  }

  function HandleRunning(s: Settings, g: Gov, r: Reading, now: real): Gov {
    if r.IsCrisis() then EnterCrisis(g, now)
    else if r.IsPauseZone() then SyncGate(g.(mode := Paused, pausedSince := Some(now), greenChecks := 0))
    else if r.IsThrottleZone() then SyncGate(g.(mode := Throttled, greenChecks := 0))
    else if r.IsScaleUpEligible() then
      var n := g.greenChecks + 1;
      if n >= s.scaleUpChecks && g.limit < s.maxParallel then
        SetLimit(g, g.limit + Min(s.step, s.maxParallel - g.limit)).(greenChecks := 0)
      else g.(greenChecks := n)
    else g.(greenChecks := 0)
  }

  function HandleThrottled(g: Gov, r: Reading, now: real): Gov {
    if r.IsCrisis() then EnterCrisis(g, now)
    else if r.IsPauseZone() then SyncGate(g.(mode := Paused, pausedSince := Some(now)))
    else if !r.IsThrottleZone() then SyncGate(g.(mode := Running, greenChecks := 0))
    else g
  }

  /** A pause that has lasted past the timeout with no success inside it. */
  predicate PauseOverdue(s: Settings, g: Gov, now: real) {
    && g.pausedSince.Some?
    && now - g.pausedSince.value > s.crisisTimeout
    && now - g.lastSuccess > s.crisisTimeout
  }

  function HandlePaused(s: Settings, g: Gov, r: Reading, now: real): Gov {
    if r.IsCrisis() then EnterCrisis(g, now)
    else if !r.IsPauseZone() then
      SyncGate(g.(mode := if r.IsThrottleZone() then Throttled else Running, pausedSince := None))
    else if PauseOverdue(s, g, now) then EnterCrisis(g, g.pausedSince.value)
    else g
  }

  predicate CrisisOverdue(s: Settings, g: Gov, now: real) {
    && g.crisisStart.Some?
    && now - g.crisisStart.value > s.crisisTimeout
    && now - g.lastSuccess > s.crisisTimeout
  }

  /** `_handle_crisis` when it does not raise. */
  function HandleCrisis(s: Settings, g: Gov, r: Reading): Gov {
    if r.IsCrisis() || r.IsPauseZone() then g
    else
      var g1 := g.(mode := Recovering, crisisStart := None);
      var target := Min(s.baseline, g.limit + s.step);
      SyncGate(if target > g.limit then SetLimit(g1, target) else g1)
  }

  function HandleRecovering(s: Settings, g: Gov, r: Reading, now: real): Gov {
    if r.IsCrisis() then EnterCrisis(g, now)
    else if g.limit >= s.baseline then SyncGate(g.(mode := Running, greenChecks := 0))
    else
      var g1 := SetLimit(g, g.limit + Min(s.step, s.baseline - g.limit));
      if g1.limit >= s.baseline then SyncGate(g1.(mode := Running, greenChecks := 0)) else g1
  }

  /** The check raises the crisis abort instead of changing the state. */
  predicate Aborts(s: Settings, g: Gov, now: real) {
    g.mode == Crisis && CrisisOverdue(s, g, now)
  }

  /** One monitor check; an abort ends the monitor task with the crisis error. */
  function Check(s: Settings, g: Gov, r: Reading, now: real): Gov {
    if Aborts(s, g, now) then g.(task := TaskFailed(CrisisError(now - g.crisisStart.value)))
    else match g.mode
      case Running => HandleRunning(s, g, r, now)
      case Throttled => HandleThrottled(g, r, now)
      case Paused => HandlePaused(s, g, r, now)
      case Crisis => HandleCrisis(s, g, r)
      case Recovering => HandleRecovering(s, g, r, now)
  }
}
