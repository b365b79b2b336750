/** Who holds a slot over a whole run: no lost wakeup, and when `_in_use` counts the holders. */
module GovernorSlots {
  import opened Common
  import opened GovernorModel
  import opened GovernorSystem

  /** No lost wakeup: a waiter asleep on the current event finds the gate closed or every
      slot in use, and no fatal error is pending for it. */
  lemma NoLostWakeup(s: Settings, xs: seq<Sys>, es: seq<Event>, k: nat, w: nat)
    requires IsRun(s, xs, es) && k <= |es|
    requires w in xs[k].waiters && xs[k].waiters[w] == Parked(xs[k].g.generation)
    ensures xs[k].g.fatal == None
    ensures xs[k].g.mode == Paused || xs[k].g.mode == Crisis || xs[k].g.inUse >= xs[k].g.limit
  {
    hide Next;
    InvAt(s, xs, es, k);
  }

  /** So an open slot is never slept through: any waiter may re-check, and gets in. */
  lemma OpenSlotAdmits(s: Settings, xs: seq<Sys>, es: seq<Event>, k: nat, w: nat, at: real)
    requires IsRun(s, xs, es) && k <= |es| && w in xs[k].waiters && xs[k].waiters[w].Parked?
    requires var g := xs[k].g; g.fatal == None && !g.task.TaskFailed? && !g.paused && g.inUse < g.limit
    requires xs[k].now <= at
    ensures Enabled(xs[k], Event(at, Attempt(w))) && Admits(xs[k], Event(at, Attempt(w)))
  {
    hide Next;
    InvAt(s, xs, es, k);
  }

  // ----- Holders -----

  function Holders(x: Sys): set<nat> {
    set w | w in x.waiters && x.waiters[w].Holding?
  }

  /** `_in_use` counts the holders. */
  predicate Exact(x: Sys) {
    x.g.inUse == |Holders(x)|
  }

  function HoldersAfter(x: Sys, e: Event): set<nat> {
    match e.action
    case Attempt(w) => if Admits(x, e) then Holders(x) + {w} else Holders(x) - {w}
    case Finish(w, _) => Holders(x) - {w}
    case _ => Holders(x)
  }

  lemma HoldersStep(s: Settings, x: Sys, e: Event, y: Sys)
    requires Next(s, x, e, y)
    ensures Holders(y) == HoldersAfter(x, e)
    ensures e.action.Attempt? ==> e.action.w !in Holders(x)
    ensures e.action.Finish? ==> e.action.w in Holders(x)
  {
    hide NewGov;
  }

  function InUseAfter(x: Sys, e: Event): int {
    match e.action
    case Attempt(_) => if Admits(x, e) then x.g.inUse + 1 else x.g.inUse
    case Finish(_, _) => Max(0, x.g.inUse - 1)
    case StopSession(_) => 0
    case _ => x.g.inUse
  }

  lemma InUseStep(s: Settings, x: Sys, e: Event, y: Sys)
    requires Next(s, x, e, y)
    ensures y.g.inUse == InUseAfter(x, e)
  {
    hide MaybeRegrow, Shrink, RecordOutcome, Release;
  }

  /** An exact count stays exact unless a session is stopped while somebody holds a slot. */
  lemma ExactStep(s: Settings, x: Sys, e: Event, y: Sys)
    requires Next(s, x, e, y) && Exact(x)
    ensures Exact(y) <==> (e.action.StopSession? ==> Holders(x) == {})
  {
    hide Next;
    HoldersStep(s, x, e, y);
    InUseStep(s, x, e, y);
  }

  /** Every stop of the run comes when nobody holds a slot. */
  ghost predicate StopsWhenIdle(xs: seq<Sys>, es: seq<Event>, n: nat)
    requires n <= |es| < |xs|
  {
    forall k :: 0 <= k < n && es[k].action.StopSession? ==> Holders(xs[k]) == {}
  }

  lemma {:induction false} IdleStopsKeepCount(s: Settings, xs: seq<Sys>, es: seq<Event>, k: nat)
    requires IsRun(s, xs, es) && k <= |es| && StopsWhenIdle(xs, es, k)
    ensures Exact(xs[k])
  {
    hide Next;
    if k == 0 {
      assert Holders(xs[0]) == {};
    } else {
      assert Next(s, xs[k - 1], es[k - 1], xs[k]);
      IdleStopsKeepCount(s, xs, es, k - 1);
      ExactStep(s, xs[k - 1], es[k - 1], xs[k]);
    }
  }

  /** `_in_use` equals the number of holders in every state of a run exactly when every
      session of the run is stopped with no slot held. */
  lemma InUseCountsHolders(s: Settings, xs: seq<Sys>, es: seq<Event>)
    requires IsRun(s, xs, es)
    ensures (forall k :: 0 <= k <= |es| ==> Exact(xs[k])) <==> StopsWhenIdle(xs, es, |es|)
  {
    hide Next, Exact;
    if StopsWhenIdle(xs, es, |es|) {
      forall k | 0 <= k <= |es| ensures Exact(xs[k]) {
        IdleStopsKeepCount(s, xs, es, k);
      }
    }
    if forall k :: 0 <= k <= |es| ==> Exact(xs[k]) {
      forall k | 0 <= k < |es| && es[k].action.StopSession? ensures Holders(xs[k]) == {} {
        assert Next(s, xs[k], es[k], xs[k + 1]);
        assert Exact(xs[k]) && Exact(xs[k + 1]);
        ExactStep(s, xs[k], es[k], xs[k + 1]);
      }
    }
  }

  /** Then no more agents hold a slot than `max_parallel`. */
  lemma HoldersBounded(s: Settings, xs: seq<Sys>, es: seq<Event>, k: nat)
    requires IsRun(s, xs, es) && k <= |es| && StopsWhenIdle(xs, es, k)
    ensures |Holders(xs[k])| <= s.maxParallel
  {
    hide Next;
    InvAt(s, xs, es, k);
    IdleStopsKeepCount(s, xs, es, k);
  }

  function FirstAgents(n: nat): (r: set<nat>)
    ensures |r| == n
    ensures forall w: nat :: w in r <==> w < n
  {
    if n == 0 then {} else FirstAgents(n - 1) + {n - 1}
  }

  /** A slot is free for the next agent, and nothing has gone wrong. */
  predicate Quiet(s: Settings, g: Gov) {
    g.fatal == None && g.task == NoTask && !g.paused && g.inUse == 0 && g.limit == s.baseline
  }

  lemma AdmitThenStop(s: Settings, x: Sys, n: nat) returns (y: Sys, z: Sys)
    requires s.Valid() && Quiet(s, x.g) && x.waiters.Keys == Holders(x) == FirstAgents(n)
    ensures Next(s, x, Event(x.now, Attempt(n)), y) && Next(s, y, Event(x.now, StopSession(false)), z)
    ensures z.now == x.now && Quiet(s, z.g) && z.waiters.Keys == Holders(z) == FirstAgents(n + 1)
  {
    y := Step(s, x, Event(x.now, Attempt(n)));
    HoldersStep(s, x, Event(x.now, Attempt(n)), y);
    assert y.waiters == x.waiters[n := Holding];
    z := Step(s, y, Event(x.now, StopSession(false)));
    HoldersStep(s, y, Event(x.now, StopSession(false)), z);
  }

  /** Stopping under holders is not harmless: under any settings there are runs with any number of
      holders at once, so also with more than `max_parallel`. */
  lemma {:induction false} StopUnderHolderOverAdmits(s: Settings, t: real, n: nat)
    returns (xs: seq<Sys>, es: seq<Event>)
    requires s.Valid()
    ensures IsRun(s, xs, es) && |Holders(xs[|es|])| == n
    ensures xs[|es|].now == t && Quiet(s, xs[|es|].g) && xs[|es|].waiters.Keys == Holders(xs[|es|]) == FirstAgents(n)
  {
    if n == 0 {
      xs, es := [Init(s, t)], [];
    } else {
      xs, es := StopUnderHolderOverAdmits(s, t, n - 1);
      var y, z := AdmitThenStop(s, xs[|es|], n - 1);
      var e, f := Event(t, Attempt(n - 1)), Event(t, StopSession(false));
      hide Next, Init;
      RunOn(s, xs, es, e, y);
      RunOn(s, xs + [y], es + [e], f, z);
      xs, es := xs + [y] + [z], es + [e] + [f];
    }
  }

  lemma RunOn(s: Settings, xs: seq<Sys>, es: seq<Event>, e: Event, y: Sys)
    requires IsRun(s, xs, es) && Next(s, xs[|es|], e, y)
    ensures IsRun(s, xs + [y], es + [e])
  {
    hide Next, Init;
    forall k | 0 <= k < |es + [e]| ensures Next(s, (xs + [y])[k], (es + [e])[k], (xs + [y])[k + 1]) {
      if k < |es| {
        assert Next(s, xs[k], es[k], xs[k + 1]);
      }
    }
  }

  // ----- A dead monitor is heard -----

  /** A failed monitor has left either its error or a done callback still to run. */
  predicate Announced(x: Sys) {
    x.g.task.TaskFailed? ==> x.g.fatal.Some? || x.callbacks != []
  }

  lemma AnnouncedStep(s: Settings, x: Sys, e: Event, y: Sys)
    requires Next(s, x, e, y) && Announced(x)
    ensures Announced(y)
  {
    hide RecordOutcome;
  }

  lemma {:induction false} AnnouncedAt(s: Settings, xs: seq<Sys>, es: seq<Event>, k: nat)
    requires IsRun(s, xs, es) && k <= |es|
    ensures Announced(xs[k])
  {
    hide Next, Announced;
    if k == 0 {
      StartsAnnounced(s, xs[0].now);
    } else {
      AnnouncedAt(s, xs, es, k - 1);
      assert Next(s, xs[k - 1], es[k - 1], xs[k]);
      AnnouncedStep(s, xs[k - 1], es[k - 1], xs[k]);
    }
  }

  lemma StartsAnnounced(s: Settings, now: real)
    ensures Announced(Init(s, now))
  {
  }

  /** In every reachable state with a dead monitor, a waiter asleep on the current event will hear of
      it: a done callback is due, and running it sets the error and the event, so that the waiter
      re-checks and raises. */
  lemma DeadMonitorIsHeard(s: Settings, xs: seq<Sys>, es: seq<Event>, k: nat, w: nat, at: real)
    requires IsRun(s, xs, es) && k <= |es| && xs[k].g.task.TaskFailed? && xs[k].now <= at
    requires w in xs[k].waiters && xs[k].waiters[w] == Parked(xs[k].g.generation)
    ensures Enabled(xs[k], Event(at, DoneCallback))
    ensures var y := Step(s, xs[k], Event(at, DoneCallback));
      && y.g.fatal.Some? && Enabled(y, Event(at, Attempt(w)))
      && AcquireVerdict(y.g, at) == Raised(y.g.fatal.value)
  {
    hide Next;
    AnnouncedAt(s, xs, es, k);
    InvAt(s, xs, es, k);
  }

  // ----- A fatal error closes the door -----

  lemma FatalStep(s: Settings, x: Sys, e: Event, y: Sys)
    requires Next(s, x, e, y) && x.g.fatal.Some? && !e.action.StopSession?
    ensures y.g.fatal == x.g.fatal
    ensures !Admits(x, e)
    ensures e.action.Attempt? ==> AcquireVerdict(x.g, e.at) == Raised(x.g.fatal.value) && e.action.w !in y.waiters
  {
    hide MaybeRegrow, Shrink, RecordOutcome, Release;
  }

  /** Once the fatal error is set, until the session is reset nothing is admitted and every
      attempt or re-check raises that same error and stops waiting. */
  lemma {:induction false} FatalUntilReset(s: Settings, xs: seq<Sys>, es: seq<Event>, i: nat, k: nat)
    requires IsRun(s, xs, es) && i <= k < |es| && xs[i].g.fatal.Some?
    requires forall j :: i <= j <= k ==> !es[j].action.StopSession?
    ensures xs[k].g.fatal == xs[i].g.fatal && xs[k + 1].g.fatal == xs[i].g.fatal && !Admits(xs[k], es[k])
    ensures es[k].action.Attempt? ==>
      && AcquireVerdict(xs[k].g, es[k].at) == Raised(xs[i].g.fatal.value)
      && es[k].action.w !in xs[k + 1].waiters
  {
    hide Next;
    if k > i {
      FatalUntilReset(s, xs, es, i, k - 1);
    }
    assert Next(s, xs[k], es[k], xs[k + 1]);
    FatalStep(s, xs[k], es[k], xs[k + 1]);
  }
}
