/** Delivery of a fatal monitor error: never lost inside a session, and exactly when an
    error of one session leaks into the next. */
module GovernorErrors {
  import opened Common
  import opened GovernorModel
  import opened GovernorSystem

  /** Index of the first event of the session that event `k` belongs to. */
  function SessionStart(es: seq<Event>, k: nat): (b: nat)
    requires k <= |es|
    ensures b <= k
    ensures forall j :: b <= j < k ==> !es[j].action.StopSession?
  {
    if k == 0 then 0
    else if es[k - 1].action.StopSession? then k
    else SessionStart(es, k - 1)
  }

  predicate Raises(x: Sys, e: Event) {
    e.action.Attempt? && AcquireVerdict(x.g, e.at).Raised?
  }

  ghost predicate RaisedBefore(xs: seq<Sys>, es: seq<Event>, k: nat)
    requires k <= |es| < |xs|
  {
    exists j :: SessionStart(es, k) <= j < k && Raises(xs[j], es[j])
  }

  lemma DeliveredStep(s: Settings, x: Sys, e: Event, y: Sys)
    requires Next(s, x, e, y)
    ensures y.g.fatalDelivered <==> !e.action.StopSession? && (x.g.fatalDelivered || Raises(x, e))
  {
    hide MaybeRegrow, Shrink, RecordOutcome, Release;
  }

  /** The delivered flag remembers exactly whether an acquire of this session raised. */
  lemma {:induction false} DeliveredMeansRaised(s: Settings, xs: seq<Sys>, es: seq<Event>, k: nat)
    requires IsRun(s, xs, es) && k <= |es|
    ensures xs[k].g.fatalDelivered <==> RaisedBefore(xs, es, k)
  {
    hide Next, Raises;
    if k > 0 {
      assert Next(s, xs[k - 1], es[k - 1], xs[k]);
      DeliveredMeansRaised(s, xs, es, k - 1);
      DeliveredStep(s, xs[k - 1], es[k - 1], xs[k]);
    }
  }

  lemma StopFacts(s: Settings, x: Sys, e: Event, y: Sys)
    requires Next(s, x, e, y) && e.action.StopSession?
    ensures StopRaises(x.g, e.at, e.action.propagating) ==
      if e.action.propagating || x.g.fatalDelivered then None else Absorb(x.g, e.at).fatal
    ensures y.g.fatal == None && y.g.mode == Running && y.g.limit == s.baseline && y.g.inUse == 0
    ensures y.g.outcomes == [] && y.g.debt == 0 && y.g.task == NoTask && y.callbacks == x.callbacks
  {
  }

  /** A fatal error is never lost: unless another exception is propagating, stopping raises it
      exactly when no acquire of the session did. */
  lemma FatalNeverLost(s: Settings, xs: seq<Sys>, es: seq<Event>, k: nat)
    requires IsRun(s, xs, es) && k < |es| && es[k].action.StopSession? && !es[k].action.propagating
    requires Absorb(xs[k].g, es[k].at).fatal.Some?
    ensures StopRaises(xs[k].g, es[k].at, false) ==
      if RaisedBefore(xs, es, k) then None else Absorb(xs[k].g, es[k].at).fatal
  {
    hide Next;
    assert Next(s, xs[k], es[k], xs[k + 1]);
    StopFacts(s, xs[k], es[k], xs[k + 1]);
    DeliveredMeansRaised(s, xs, es, k);
  }

  // ----- Errors that outlive their session -----

  /** The event ends the monitor task with an error. */
  predicate MonitorFails(s: Settings, x: Sys, e: Event) {
    e.action.MonitorDies? || (e.action.MonitorCheck? && Aborts(s, x.g, e.at))
  }

  predicate Healthy(g: Gov) {
    !g.task.TaskFailed?
  }

  lemma HealthyStep(s: Settings, x: Sys, e: Event, y: Sys)
    requires Next(s, x, e, y) && Healthy(x.g) && !MonitorFails(s, x, e) && !e.action.StopSession?
    ensures Healthy(y.g)
    ensures y.g.fatal.Some? <==> x.g.fatal.Some? || e.action.DoneCallback?
    ensures y.callbacks == if e.action.DoneCallback? then x.callbacks[1..] else x.callbacks
    ensures e.action.DoneCallback? ==> x.callbacks != []
  {
    hide MaybeRegrow, Shrink, RecordOutcome, Release;
  }

  /** Between a stop (event `i`) and the next failure, the session carries a fatal error
      exactly when a done callback left over from before the stop has run. */
  lemma {:induction false} StaleFatalExactly(s: Settings, xs: seq<Sys>, es: seq<Event>, i: nat, k: nat)
    requires IsRun(s, xs, es) && i < k <= |es| && es[i].action.StopSession?
    requires forall j :: i < j < k ==> !es[j].action.StopSession? && !MonitorFails(s, xs[j], es[j])
    ensures Healthy(xs[k].g) && |xs[k].callbacks| <= |xs[i].callbacks|
    ensures xs[k].g.fatal.Some? <==> exists j :: i < j < k && es[j].action.DoneCallback?
    ensures xs[k].g.fatal.Some? <==> |xs[k].callbacks| < |xs[i].callbacks|
  {
    hide Next, MonitorFails, Healthy;
    assert Next(s, xs[k - 1], es[k - 1], xs[k]);
    if k == i + 1 {
      StopFacts(s, xs[i], es[i], xs[k]);
      NoTaskHealthy(xs[k].g);
    } else {
      StaleFatalExactly(s, xs, es, i, k - 1);
      HealthyStep(s, xs[k - 1], es[k - 1], xs[k]);
    }
  }

  lemma NoTaskHealthy(g: Gov)
    requires g.task == NoTask
    ensures Healthy(g)
  {
  }

  /** A stop that leaves no callback behind starts a clean session: no fatal error before the
      monitor fails again, so nobody is refused by it. */
  lemma CleanStopStaysClean(s: Settings, xs: seq<Sys>, es: seq<Event>, i: nat, k: nat)
    requires IsRun(s, xs, es) && i < k <= |es| && es[i].action.StopSession? && xs[i].callbacks == []
    requires forall j :: i < j < k ==> !es[j].action.StopSession? && !MonitorFails(s, xs[j], es[j])
    ensures xs[k].g.fatal == None
  {
    hide Next, MonitorFails;
    StaleFatalExactly(s, xs, es, i, k);
  }

  /** A stop that leaves a callback behind does not: once the callback runs, the next session
      starts fatal, though its own monitor never failed. */
  lemma DirtyStopLeaks(s: Settings, x: Sys, stop: Event, at: real)
    requires s.Valid() && Enabled(x, stop) && stop.action.StopSession? && x.callbacks != [] && stop.at <= at
    ensures var y := Step(s, x, stop);
      Enabled(y, Event(at, DoneCallback)) && Step(s, y, Event(at, DoneCallback)).g.fatal.Some?
  {
  }

  /** The fatal error that an event records carries the dead monitor's own duration, or for a foreign
      error the time spent in CRISIS. */
  lemma RecordedDuration(s: Settings, x: Sys, e: Event, y: Sys)
    requires s.Valid() && Inv(s, x) && Next(s, x, e, y) && x.g.fatal == None && y.g.fatal.Some?
    ensures (e.action.DoneCallback? && x.callbacks != []) || (e.action.Attempt? && x.g.task.TaskFailed?)
    ensures var error := if e.action.DoneCallback? then x.callbacks[0] else x.g.task.error;
      y.g.fatal.value.duration ==
        if error.CrisisError? then error.duration
        else if x.g.mode == Crisis then e.at - x.g.crisisStart.value
        else 0.0
  {
    hide MaybeRegrow, Shrink, RecordOutcome, Release;
  }

  /** A stop leaves the governor as it was made, but for the events set so far and the success clock. */
  lemma StopStartsAfresh(s: Settings, x: Sys, e: Event, y: Sys)
    requires s.Valid() && Next(s, x, e, y) && e.action.StopSession?
    ensures y.g.mode == Running && y.g.limit == s.baseline && y.g.inUse == 0 && !y.g.paused
    ensures y.g.fatal == None && !y.g.fatalDelivered && y.g.task == NoTask && y.g.outcomes == [] && y.g.debt == 0
    ensures y.g == Init(s, x.g.lastSuccess).g.(generation := y.g.generation) && y.g.generation > x.g.generation
  {
  }

  const DEATH := CrisisError(0.0)

  /** A monitor that has just died; its callback is due. */
  function Dead(s: Settings, t: real): Sys {
    Sys(Initial(s, t).(task := TaskFailed(DEATH)), map[], [DEATH], t)
  }

  /** The stop came first: a fresh session with the old callback still due. */
  function Leftover(s: Settings, t: real): Sys {
    Sys(Initial(s, t).(generation := 2), map[], [DEATH], t)
  }

  /** The callback has run, and the next session has started. */
  function Haunted(s: Settings, t: real): Sys {
    Sys(Initial(s, t).(fatal := Some(Fatal(0.0)), generation := 3, task := TaskRunning), map[], [], t)
  }

  lemma DiesFirst(s: Settings, t: real, x: Sys)
    requires x == Init(s, t).(g := Initial(s, t).(task := TaskRunning))
    ensures Next(s, Init(s, t), Event(t, StartSession), x)
    ensures Next(s, x, Event(t, MonitorDies(DEATH)), Dead(s, t))
  {
  }

  lemma StopsFirst(s: Settings, t: real)
    ensures Next(s, Dead(s, t), Event(t, StopSession(false)), Leftover(s, t))
    ensures StopRaises(Dead(s, t).g, t, false) == Some(Fatal(0.0))
  {
  }

  lemma CallbackAfterStop(s: Settings, t: real, x: Sys)
    requires x == Haunted(s, t).(g := Haunted(s, t).g.(task := NoTask))
    ensures Next(s, Leftover(s, t), Event(t, DoneCallback), x)
    ensures Next(s, x, Event(t, StartSession), Haunted(s, t))
  {
  }

  /** The leak on a concrete run: the monitor dies, `stop_monitoring` runs before the dead
      task's callback and raises the error, and an acquire of the next session raises
      it again. */
  lemma StaleErrorRaisedTwice(s: Settings, t: real) returns (xs: seq<Sys>, es: seq<Event>)
    requires s.Valid()
    ensures IsRun(s, xs, es) && |es| == 6 && es[2].action.StopSession? && es[5].action.Attempt?
    ensures StopRaises(xs[2].g, t, false) == Some(Fatal(0.0))
    ensures xs[3].g.fatal == None && es[4].action.StartSession?
    ensures Raises(xs[5], es[5]) && AcquireVerdict(xs[5].g, t) == Raised(Fatal(0.0))
  {
    es := [Event(t, StartSession), Event(t, MonitorDies(DEATH)), Event(t, StopSession(false)),
           Event(t, DoneCallback), Event(t, StartSession), Event(t, Attempt(0))];
    var begun := Init(s, t).(g := Initial(s, t).(task := TaskRunning));
    var stale := Haunted(s, t).(g := Haunted(s, t).g.(task := NoTask));
    DiesFirst(s, t, begun);
    StopsFirst(s, t);
    CallbackAfterStop(s, t, stale);
    hide Step, Next, StopRaises;
    var last := LastStep(s, Haunted(s, t), es[5]);
    xs := [Init(s, t), begun, Dead(s, t), Leftover(s, t), stale, Haunted(s, t), last];
  }

  lemma LastStep(s: Settings, x: Sys, e: Event) returns (y: Sys)
    requires Enabled(x, e)
    ensures Next(s, x, e, y)
  {
    y := Step(s, x, e);
  }
}
