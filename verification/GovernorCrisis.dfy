/** The crisis abort over whole runs: when it fires, what it proves about the past, and that
    an escalated pause cannot avoid it. */
module GovernorCrisis {
  import opened Common
  import opened GovernorModel
  import opened GovernorSystem

  predicate Succeeds(e: Event) {
    e.action.Finish? && e.action.success
  }

  predicate AbortsAt(s: Settings, x: Sys, e: Event) {
    e.action.MonitorCheck? && Aborts(s, x.g, e.at)
  }

  /** After event `i` and up to state `k` the gate is closed and no acquire is admitted. */
  ghost predicate ShutFrom(xs: seq<Sys>, es: seq<Event>, i: int, k: int)
    requires |xs| == |es| + 1 && k <= |es|
  {
    && 0 <= i < k
    && (forall j :: i < j <= k ==> xs[j].g.paused)
    && (forall j :: i < j < k ==> !Admits(xs[j], es[j]))
  }

  /** The clock that counts how long the gate has been shut. */
  function ShutClock(g: Gov): Option<real> {
    if g.mode == Paused then g.pausedSince else g.crisisStart
  }

  lemma ShutClockStep(s: Settings, x: Sys, e: Event, y: Sys)
    requires s.Valid() && Inv(s, x) && Next(s, x, e, y) && ClosedMode(y.g.mode)
    ensures ShutClock(y.g).Some?
    ensures || ShutClock(y.g) == Some(e.at)
            || (ClosedMode(x.g.mode) && ShutClock(y.g) == ShutClock(x.g))
  {
    hide MaybeRegrow, Shrink, RecordOutcome, Release;
  }

  /** In PAUSED and CRISIS, the running clock started at an event since when nothing
      was admitted. An escalated pause keeps the clock of the pause. */
  lemma {:induction false} ShutSince(s: Settings, xs: seq<Sys>, es: seq<Event>, k: nat) returns (i: nat)
    requires IsRun(s, xs, es) && k <= |es| && ClosedMode(xs[k].g.mode)
    ensures ShutFrom(xs, es, i, k) && ShutClock(xs[k].g) == Some(es[i].at)
  {
    hide Next;
    if k == 0 {
      assert false;
    } else {
      var x, e := xs[k - 1], es[k - 1];
      assert Next(s, x, e, xs[k]);
      InvAt(s, xs, es, k - 1);
      InvAt(s, xs, es, k);
      ShutClockStep(s, x, e, xs[k]);
      if ShutClock(xs[k].g) == Some(e.at) {
        i := k - 1;
      } else {
        i := ShutSince(s, xs, es, k - 1);
        ClosedGateAdmitsNothing(s, x, e);
      }
    }
  }

  lemma ClosedGateAdmitsNothing(s: Settings, x: Sys, e: Event)
    requires x.g.paused
    ensures !Admits(x, e)
  {
  }

  lemma LastSuccessStep(s: Settings, x: Sys, e: Event, y: Sys)
    requires Next(s, x, e, y)
    ensures y.g.lastSuccess == if Succeeds(e) then e.at else x.g.lastSuccess
  {
    hide MaybeRegrow, Shrink, RecordOutcome, Release;
  }

  /** The success clock holds the latest successful release of the whole run, or the start. */
  lemma {:induction false} LastSuccessAt(s: Settings, xs: seq<Sys>, es: seq<Event>, k: nat)
    requires IsRun(s, xs, es) && k <= |es|
    ensures xs[0].now <= xs[k].g.lastSuccess
    ensures forall j :: 0 <= j < k && Succeeds(es[j]) ==> es[j].at <= xs[k].g.lastSuccess
    ensures || xs[k].g.lastSuccess == xs[0].now
            || exists j :: 0 <= j < k && Succeeds(es[j]) && es[j].at == xs[k].g.lastSuccess
  {
    hide Next, Inv;
    if k > 0 {
      var x, e := xs[k - 1], es[k - 1];
      assert Next(s, x, e, xs[k]);
      LastSuccessAt(s, xs, es, k - 1);
      LastSuccessStep(s, x, e, xs[k]);
      InvAt(s, xs, es, k - 1);
      SuccessInPast(s, x, e, xs[k]);
    }
  }

  lemma SuccessInPast(s: Settings, x: Sys, e: Event, y: Sys)
    requires Inv(s, x) && Next(s, x, e, y)
    ensures x.g.lastSuccess <= e.at
  {
  }

  lemma AbortMeans(s: Settings, x: Sys, e: Event, y: Sys)
    requires Next(s, x, e, y) && AbortsAt(s, x, e)
    ensures x.g.mode == Crisis && x.g.crisisStart.Some?
    ensures e.at - x.g.crisisStart.value > s.crisisTimeout && e.at - x.g.lastSuccess > s.crisisTimeout
    ensures y.g.task == TaskFailed(CrisisError(e.at - x.g.crisisStart.value))
  {
  }

  /** Whenever the abort is raised, one earlier event shut the gate and since then nothing was
      admitted, that span is past the timeout and is the reported duration, and no
      release has succeeded within the timeout. */
  lemma AbortIsJustified(s: Settings, xs: seq<Sys>, es: seq<Event>, k: nat) returns (i: nat)
    requires IsRun(s, xs, es) && k < |es| && AbortsAt(s, xs[k], es[k])
    ensures ShutFrom(xs, es, i, k) && es[k].at - es[i].at > s.crisisTimeout
    ensures forall j :: 0 <= j < k && Succeeds(es[j]) ==> es[k].at - es[j].at > s.crisisTimeout
    ensures xs[k + 1].g.task == TaskFailed(CrisisError(es[k].at - es[i].at))
  {
    hide Next, AbortsAt;
    assert Next(s, xs[k], es[k], xs[k + 1]);
    AbortMeans(s, xs[k], es[k], xs[k + 1]);
    i := ShutSince(s, xs, es, k);
    LastSuccessAt(s, xs, es, k);
  }

  /** In CRISIS a check aborts exactly when the crisis clock, the run and every success so far
      are all older than the timeout; the reading plays no part. */
  lemma AbortExactly(s: Settings, xs: seq<Sys>, es: seq<Event>, k: nat)
    requires IsRun(s, xs, es) && k < |es| && es[k].action.MonitorCheck? && xs[k].g.mode == Crisis
    ensures xs[k].g.crisisStart.Some?
    ensures AbortsAt(s, xs[k], es[k]) <==>
      && es[k].at - xs[k].g.crisisStart.value > s.crisisTimeout
      && es[k].at - xs[0].now > s.crisisTimeout
      && forall j :: 0 <= j < k && Succeeds(es[j]) ==> es[k].at - es[j].at > s.crisisTimeout
  {
    hide Next;
    InvAt(s, xs, es, k);
    LastSuccessAt(s, xs, es, k);
  }

  // ----- Escalation -----

  /** The check that turns a stuck pause into a crisis, without kernel pressure. */
  predicate Escalates(x: Sys, e: Event, y: Sys) {
    && x.g.mode == Paused && y.g.mode == Crisis
    && e.action.MonitorCheck? && !e.action.reading.IsCrisis()
  }

  lemma EscalationStep(s: Settings, x: Sys, e: Event, y: Sys)
    requires Next(s, x, e, y) && Escalates(x, e, y)
    ensures y.g.crisisStart.Some? && y.g.crisisStart == x.g.pausedSince
    ensures e.at - y.g.crisisStart.value > s.crisisTimeout && e.at - y.g.lastSuccess > s.crisisTimeout
  {
  }

  predicate LeavesCrisisAlone(e: Event) {
    !e.action.MonitorCheck? && !e.action.StopSession? && !Succeeds(e)
  }

  lemma CrisisPersists(s: Settings, x: Sys, e: Event, y: Sys)
    requires Next(s, x, e, y) && LeavesCrisisAlone(e)
    ensures y.g.mode == x.g.mode && y.g.crisisStart == x.g.crisisStart && y.g.lastSuccess == x.g.lastSuccess
  {
    hide MaybeRegrow, Shrink, RecordOutcome, Release;
  }

  lemma {:induction false} EscalationLasts(s: Settings, xs: seq<Sys>, es: seq<Event>, i: nat, k: nat)
    requires IsRun(s, xs, es) && i < k <= |es| && Escalates(xs[i], es[i], xs[i + 1])
    requires forall j :: i < j < k ==> LeavesCrisisAlone(es[j])
    ensures xs[k].g.mode == Crisis && xs[k].g.crisisStart.Some?
    ensures es[i].at - xs[k].g.crisisStart.value > s.crisisTimeout && es[i].at - xs[k].g.lastSuccess > s.crisisTimeout
    ensures es[i].at <= xs[k].now
  {
    hide Next, Escalates, LeavesCrisisAlone;
    assert Next(s, xs[k - 1], es[k - 1], xs[k]);
    StepClock(s, xs[k - 1], es[k - 1], xs[k]);
    if k == i + 1 {
      EscalationStep(s, xs[i], es[i], xs[k]);
      EscalatedMode(xs[i], es[i], xs[k]);
    } else {
      EscalationLasts(s, xs, es, i, k - 1);
      CrisisPersists(s, xs[k - 1], es[k - 1], xs[k]);
    }
  }

  lemma EscalatedMode(x: Sys, e: Event, y: Sys)
    requires Escalates(x, e, y)
    ensures y.g.mode == Crisis
  {
  }

  lemma StepClock(s: Settings, x: Sys, e: Event, y: Sys)
    requires Next(s, x, e, y)
    ensures x.now <= e.at == y.now
  {
  }

  /** After an escalation with no success since, the next check of the session aborts,
      whatever it reads. */
  lemma EscalatedPauseAborts(s: Settings, xs: seq<Sys>, es: seq<Event>, i: nat, k: nat)
    requires IsRun(s, xs, es) && i < k < |es| && Escalates(xs[i], es[i], xs[i + 1])
    requires es[k].action.MonitorCheck? && forall j :: i < j < k ==> LeavesCrisisAlone(es[j])
    ensures AbortsAt(s, xs[k], es[k])
  {
    hide Next, Escalates, LeavesCrisisAlone;
    EscalationLasts(s, xs, es, i, k);
    assert Next(s, xs[k], es[k], xs[k + 1]);
    StepClock(s, xs[k], es[k], xs[k + 1]);
  }
}
