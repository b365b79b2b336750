/** src/alphaswarm/governor.py as a class: the same fields, updated in place. Each method
    is proved to do exactly what its step function in GovernorModel says. */
module GovernorClass {
  import opened Common
  import opened GovernorModel

  class ResourceGovernor {
    const settings: Settings
    var mode: Mode
    var limit: int
    var inUse: int
    var paused: bool
    var fatal: Option<Fatal>
    var fatalDelivered: bool
    var generation: nat
    var lastSuccess: real
    var crisisStart: Option<real>
    var pausedSince: Option<real>
    var greenChecks: int
    var outcomes: seq<bool>
    var successes: int
    var debt: int
    var task: Task

    /** The fields as one value. */
    function View(): Gov
      reads this
    {
      Gov(mode, limit, inUse, paused, fatal, fatalDelivered, generation, lastSuccess,
          crisisStart, pausedSince, greenChecks, outcomes, successes, debt, task)
    }

    constructor (settings: Settings, now: real)
      ensures this.settings == settings && View() == Initial(settings, now)
    {
      this.settings := settings;
      mode, limit, inUse, paused := Running, settings.baseline, 0, false;
      fatal, fatalDelivered, generation := None, false, 0;
      lastSuccess, crisisStart, pausedSince := now, None, None;
      greenChecks, outcomes, successes, debt, task := 0, [], 0, 0, NoTask;
    }

    // ----- Limiter internals -----

    /** Sets the current event and installs a new one. */
    method NotifyAll()
      modifies this`generation
      ensures generation == old(generation) + 1
    {
      generation := generation + 1;
    }

    method Resize(newLimit: int)
      modifies `limit, `generation
      ensures View() == old(View()).(limit := Max(1, newLimit), generation := old(generation) + 1)
    {
      limit := Max(1, newLimit);
      NotifyAll();
    }

    method UpdateGate()
      modifies `paused, `generation
      ensures View() == old(View()).(paused := ClosedMode(mode), generation := old(generation) + 1)
    {
      paused := mode == Paused || mode == Crisis;
      NotifyAll();
    }

    method AbsorbMonitorFailure(e: MonitorError, now: real)
      modifies this
      ensures View() == AbsorbError(old(View()), e, now)
    {
      if fatal != None {
        return;
      }
      match e {
        case CrisisError(duration) => fatal := Some(Fatal(duration));
        case OtherError =>
          fatal := Some(Fatal(if crisisStart.Some? then now - crisisStart.value else 0.0));
      }
      NotifyAll();
    }

    method AbsorbOwnTask(now: real)
      modifies this
      ensures View() == Absorb(old(View()), now)
    {
      if task.TaskFailed? {
        AbsorbMonitorFailure(task.error, now);
      }
    }

    // ----- Public API -----

    /** One pass of the acquire loop, which ends in a raise, a claimed slot or a wait on
        event number `generation`. */
    method TryAcquire(now: real) returns (verdict: Verdict)
      modifies this
      ensures verdict == AcquireVerdict(old(View()), now)
      ensures View() == Acquire(old(View()), now)
    {
      AbsorbOwnTask(now);
      if fatal.Some? {
        fatalDelivered := true;
        return Raised(fatal.value);
      }
      if !paused && inUse < limit {
        inUse := inUse + 1;
        return Admitted;
      }
      return MustWait;
    }

    method ReleaseSlot(success: bool, now: real)
      modifies this
      ensures View() == Release(settings, old(View()), success, now)
    {
      inUse := Max(0, inUse - 1);
      if success {
        lastSuccess := now;
      }
      Record(success);
      NotifyAll();
    }

    method Start()
      modifies this
      ensures View() == StartMonitoring(old(View()))
    {
      if !task.TaskRunning? {
        task := TaskRunning;
      }
    }

    /** `stop_monitoring`, a running monitor being cancelled first; returns the error it raises, if any. */
    method StopMonitoring(now: real, propagating: bool) returns (raised: Option<Fatal>)
      modifies this
      ensures raised == StopRaises(Cancelled(old(View())), now, propagating)
      ensures View() == Stop(settings, Cancelled(old(View())), now)
    {
      if task.TaskRunning? {
        task := TaskFinished;
      }
      AbsorbOwnTask(now);
      raised := if fatal == None || fatalDelivered || propagating then None else fatal;
      task := NoTask;
      Reset();
    }

    method Reset()
      modifies this
      ensures View() == ResetSession(settings, old(View()))
    {
      ResetMachine();
      limit, inUse, paused := settings.baseline, 0, false;
      ClearFatal();
      ClearAccounting();
      NotifyAll();
    }

    method ResetMachine()
      modifies `mode, `crisisStart, `pausedSince, `greenChecks
      ensures mode == Running && crisisStart == None && pausedSince == None && greenChecks == 0
    {
      mode, crisisStart, pausedSince, greenChecks := Running, None, None, 0;
    }

    method ClearFatal()
      modifies `fatal, `fatalDelivered
      ensures fatal == None && !fatalDelivered
    {
      fatal, fatalDelivered := None, false;
    }

    method ClearAccounting()
      modifies `outcomes, `successes, `debt
      ensures outcomes == [] && successes == 0 && debt == 0
    {
      outcomes, successes, debt := [], 0, 0;
    }

    // ----- Failure accounting -----

    method CountFailures() returns (n: nat)
      ensures n == Failures(outcomes)
    {
      n := 0;
      for i := 0 to |outcomes|
        invariant n == Failures(outcomes[..i])
      {
        assert outcomes[..i + 1][..i] == outcomes[..i];
        if !outcomes[i] {
          n := n + 1;
        }
      }
      assert outcomes[..|outcomes|] == outcomes;
    }

    method Record(success: bool)
      modifies this
      ensures View() == RecordOutcome(settings, old(View()), success)
    {
      outcomes := PushOutcome(settings.window, outcomes, success);
      if success {
        successes := successes + 1;
        Regrow();
        return;
      }
      successes := 0;
      var failing := HasFailingWindow();
      if failing {
        outcomes := [];
        ShrinkOneStep();
      }
    }

    method HasFailingWindow() returns (failing: bool)
      ensures failing == FailingWindow(settings, outcomes)
    {
      if |outcomes| < settings.window {
        return false;
      }
      var failures := CountFailures();
      failing := !((failures * 100) as real < settings.failurePercent * |outcomes| as real);
    }

    method ShrinkOneStep()
      modifies `limit, `generation, `debt
      ensures View() == Shrink(settings, old(View()))
    {
      if mode == Crisis {
        return;
      }
      var shrink := Min(settings.step, limit - 1);
      if shrink <= 0 {
        return;
      }
      debt := debt + shrink;
      Resize(limit - shrink);
    }

    method Regrow()
      modifies this
      ensures View() == MaybeRegrow(settings, old(View()))
    {
      if debt == 0 || successes < settings.regrowSuccesses || !(mode == Running || mode == Throttled) {
        return;
      }
      successes := 0;
      var grow := Min(settings.step, Min(debt, settings.maxParallel - limit));
      if grow <= 0 {
        debt := 0;
        return;
      }
      debt := debt - grow;
      Resize(limit + grow);
    }

    // ----- Monitoring -----

    method BeginCrisis(since: real)
      modifies this
      ensures View() == EnterCrisis(old(View()), since)
    {
      mode := Crisis;
      Resize(1);
      debt, crisisStart, pausedSince, greenChecks := 0, Some(since), None, 0;
      UpdateGate();
    }

    method OnRunning(r: Reading, now: real)
      modifies this
      ensures View() == HandleRunning(settings, old(View()), r, now)
    {
      if r.IsCrisis() {
        BeginCrisis(now);
      } else if r.IsPauseZone() {
        mode, pausedSince, greenChecks := Paused, Some(now), 0;
        UpdateGate();
      } else if r.IsThrottleZone() {
        mode, greenChecks := Throttled, 0;
        UpdateGate();
      } else if r.IsScaleUpEligible() {
        greenChecks := greenChecks + 1;
        if greenChecks >= settings.scaleUpChecks && limit < settings.maxParallel {
          Resize(limit + Min(settings.step, settings.maxParallel - limit));
          greenChecks := 0;
        }
      } else {
        greenChecks := 0;
      }
    }

    method OnThrottled(r: Reading, now: real)
      modifies this
      ensures View() == HandleThrottled(old(View()), r, now)
    {
      if r.IsCrisis() {
        BeginCrisis(now);
      } else if r.IsPauseZone() {
        mode, pausedSince := Paused, Some(now);
        UpdateGate();
      } else if !r.IsThrottleZone() {
        mode, greenChecks := Running, 0;
        UpdateGate();
      }
    }

    method OnPaused(r: Reading, now: real)
      modifies this
      ensures View() == HandlePaused(settings, old(View()), r, now)
    {
      if r.IsCrisis() {
        BeginCrisis(now);
        return;
      }
      if !r.IsPauseZone() {
        mode := if r.IsThrottleZone() then Throttled else Running;
        pausedSince := None;
        UpdateGate();
        return;
      }
      if PauseOverdue(settings, View(), now) {
        BeginCrisis(pausedSince.value);
      }
    }

    method OnCrisis(r: Reading, now: real) returns (abort: Option<real>)
      requires mode == Crisis
      modifies this
      ensures abort.Some? <==> Aborts(settings, old(View()), now)
      ensures abort.Some? ==> abort.value == now - old(crisisStart).value && View() == old(View())
      ensures abort.None? ==> View() == HandleCrisis(settings, old(View()), r)
    {
      if CrisisOverdue(settings, View(), now) {
        return Some(now - crisisStart.value);
      }
      abort := None;
      if r.IsCrisis() || r.IsPauseZone() {
        return;
      }
      mode, crisisStart := Recovering, None;
      var target := Min(settings.baseline, limit + settings.step);
      if target > limit {
        Resize(target);
      }
      UpdateGate();
    }

    method OnRecovering(r: Reading, now: real)
      modifies this
      ensures View() == HandleRecovering(settings, old(View()), r, now)
    {
      if r.IsCrisis() {
        BeginCrisis(now);
        return;
      }
      if limit >= settings.baseline {
        mode, greenChecks := Running, 0;
        UpdateGate();
      } else {
        Resize(limit + Min(settings.step, settings.baseline - limit));
        if limit >= settings.baseline {
          mode, greenChecks := Running, 0;
          UpdateGate();
        }
      }
    }

    /** One iteration of the monitor loop; an abort ends the monitor task. */
    method ApplyStateTransition(r: Reading, now: real)
      requires task == TaskRunning
      modifies this
      ensures View() == Check(settings, old(View()), r, now)
    {
      match mode {
        case Running => OnRunning(r, now);
        case Throttled => OnThrottled(r, now);
        case Paused => OnPaused(r, now);
        case Recovering => OnRecovering(r, now);
        case Crisis =>
          var abort := OnCrisis(r, now);
          if abort.Some? {
            task := TaskFailed(CrisisError(abort.value));
          }
      }
    }
  }
}
