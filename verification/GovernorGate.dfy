/** What the monitor's readings do, over whole runs and in the raw fields of a reading: when the
    gate is shut, which state a check leads to, and when calm readings raise the limit. */
module GovernorGate {
  import opened Common
  import opened GovernorModel
  import opened GovernorSystem
  import opened GovernorCrisis
  import opened GovernorRecovery

  // ----- The gate -----

  /** Event `i` is the session's latest check before state `k`. */
  ghost predicate LatestCheck(es: seq<Event>, i: int, k: nat) {
    && 0 <= i < k <= |es| && es[i].action.MonitorCheck?
    && forall j :: i < j < k ==> !es[j].action.MonitorCheck? && !es[j].action.StopSession?
  }

  lemma GateAfterCheck(s: Settings, x: Sys, e: Event, y: Sys)
    requires s.Valid() && Inv(s, x) && Next(s, x, e, y) && e.action.MonitorCheck?
    ensures var r := e.action.reading;
      y.g.paused <==>
        || y.g.task.TaskFailed?
        || r.pressure != Green
        || (r.used >= r.pauseAt && x.g.mode != Recovering)
  {
  }

  lemma GateStays(s: Settings, x: Sys, e: Event, y: Sys)
    requires Next(s, x, e, y) && !e.action.MonitorCheck? && !e.action.StopSession?
    ensures y.g.paused == x.g.paused
  {
    hide MaybeRegrow, Shrink, RecordOutcome, Release;
  }

  /** From a check to the next check or stop the gate is shut exactly when that check aborted, read
      kernel pressure, or read a pause-zone percentage outside RECOVERING; and a shut gate admits nobody. */
  lemma {:induction false} GateFollowsReading(s: Settings, xs: seq<Sys>, es: seq<Event>, i: nat, k: nat)
    requires IsRun(s, xs, es) && LatestCheck(es, i, k)
    ensures var r := es[i].action.reading;
      xs[k].g.paused <==>
        || xs[i + 1].g.task.TaskFailed?
        || r.pressure != Green
        || (r.used >= r.pauseAt && xs[i].g.mode != Recovering)
    ensures xs[k].g.paused ==> forall j :: i < j < k ==> !Admits(xs[j], es[j])
  {
    hide Next, Inv;
    assert Next(s, xs[k - 1], es[k - 1], xs[k]);
    if i == k - 1 {
      InvAt(s, xs, es, i);
      GateAfterCheck(s, xs[i], es[i], xs[k]);
    } else {
      GateFollowsReading(s, xs, es, i, k - 1);
      GateStays(s, xs[k - 1], es[k - 1], xs[k]);
      if xs[k].g.paused {
        ClosedGateAdmitsNothing(s, xs[k - 1], es[k - 1]);
      }
    }
  }

  /** Nothing else shuts it: a shut gate goes back to a check of the session that read kernel pressure
      or a pause-zone percentage. */
  lemma {:induction false} ShutByReading(s: Settings, xs: seq<Sys>, es: seq<Event>, k: nat) returns (i: nat)
    requires IsRun(s, xs, es) && k <= |es| && xs[k].g.paused
    ensures i < k && es[i].action.MonitorCheck? && forall j :: i <= j < k ==> !es[j].action.StopSession?
    ensures var r := es[i].action.reading; r.pressure != Green || r.used >= r.pauseAt
  {
    hide Next, Inv;
    if k == 0 {
      assert false;
    } else {
      var x, e := xs[k - 1], es[k - 1];
      assert Next(s, x, e, xs[k]);
      InvAt(s, xs, es, k - 1);
      if ReadsShut(e) {
        i := k - 1;
        StopOpens(s, x, e, xs[k]);
      } else {
        ShutBefore(s, x, e, xs[k]);
        i := ShutByReading(s, xs, es, k - 1);
      }
    }
  }

  predicate ReadsShut(e: Event) {
    e.action.MonitorCheck? && (e.action.reading.pressure != Green || e.action.reading.used >= e.action.reading.pauseAt)
  }

  lemma StopOpens(s: Settings, x: Sys, e: Event, y: Sys)
    requires Next(s, x, e, y)
    ensures e.action.StopSession? ==> !y.g.paused
  {
  }

  lemma ShutBefore(s: Settings, x: Sys, e: Event, y: Sys)
    requires s.Valid() && Inv(s, x) && Next(s, x, e, y) && !ReadsShut(e) && y.g.paused
    ensures x.g.paused && !e.action.StopSession?
  {
    StopOpens(s, x, e, y);
    if e.action.MonitorCheck? {
      hide Next;
      AbortsShut(s, x, e, y);
    } else {
      GateStays(s, x, e, y);
    }
  }

  lemma AbortsShut(s: Settings, x: Sys, e: Event, y: Sys)
    requires s.Valid() && Inv(s, x) && Next(s, x, e, y) && !ReadsShut(e) && e.action.MonitorCheck? && y.g.paused
    ensures x.g.paused
  {
    GateAfterCheck(s, x, e, y);
  }

  // ----- The states -----

  /** RUNNING, THROTTLED and PAUSED follow the percentage. */
  predicate Follows(m: Mode) {
    m == Running || m == Throttled || m == Paused
  }

  /** The documented transitions, in the raw fields of the reading, for a check that does not abort. */
  lemma TransitionTable(s: Settings, x: Sys, e: Event, y: Sys)
    requires s.Valid() && Inv(s, x) && Next(s, x, e, y) && e.action.MonitorCheck? && !y.g.task.TaskFailed?
    ensures var r, m := e.action.reading, x.g.mode;
      && (r.pressure != Green ==> y.g.mode == Crisis)
      && (r.pressure == Green && Follows(m) ==>
            && (y.g.mode == Running <==> r.used < r.pauseAt && r.used < r.throttleAt)
            && (y.g.mode == Throttled <==> r.throttleAt <= r.used < r.pauseAt)
            && (y.g.mode == Paused || (m == Paused && y.g.mode == Crisis) <==> r.used >= r.pauseAt))
      && (r.pressure == Green && m == Crisis ==> y.g.mode == if r.used < r.pauseAt then Recovering else Crisis)
      && (r.pressure == Green && m == Recovering ==>
            y.g.mode == if y.g.limit >= s.baseline then Running else Recovering)
  {
  }

  /** A pause escalates exactly when the pause, the run and every success so far are all older than the
      timeout. */
  lemma EscalatesExactly(s: Settings, xs: seq<Sys>, es: seq<Event>, k: nat)
    requires IsRun(s, xs, es) && k < |es| && es[k].action.MonitorCheck? && xs[k].g.mode == Paused
    requires es[k].action.reading.pressure == Green && es[k].action.reading.used >= es[k].action.reading.pauseAt
    ensures xs[k].g.pausedSince.Some?
    ensures xs[k + 1].g.mode == Crisis <==>
      && es[k].at - xs[k].g.pausedSince.value > s.crisisTimeout
      && es[k].at - xs[0].now > s.crisisTimeout
      && forall j :: 0 <= j < k && Succeeds(es[j]) ==> es[k].at - es[j].at > s.crisisTimeout
  {
    hide Next, Inv;
    InvAt(s, xs, es, k);
    LastSuccessAt(s, xs, es, k);
    assert Next(s, xs[k], es[k], xs[k + 1]);
    EscalatesByClocks(s, xs[k], es[k], xs[k + 1]);
  }

  lemma EscalatesByClocks(s: Settings, x: Sys, e: Event, y: Sys)
    requires s.Valid() && Inv(s, x) && Next(s, x, e, y) && e.action.MonitorCheck? && x.g.mode == Paused
    requires e.action.reading.pressure == Green && e.action.reading.used >= e.action.reading.pauseAt
    ensures x.g.pausedSince.Some?
    ensures y.g.mode == Crisis <==>
      e.at - x.g.pausedSince.value > s.crisisTimeout && e.at - x.g.lastSuccess > s.crisisTimeout
  {
  }

  // ----- Scaling up -----

  /** A RUNNING check that reads below the scale-up percentage, and so below the zones. */
  predicate Calm(x: Sys, e: Event) {
    && e.action.MonitorCheck? && x.g.mode == Running && e.action.reading.pressure == Green
    && e.action.reading.used < Lowest(e.action.reading)
  }

  function Lowest(r: Reading): real {
    if r.throttleAt < r.scaleUpAt && r.throttleAt <= r.pauseAt then r.throttleAt
    else if r.pauseAt < r.scaleUpAt then r.pauseAt
    else r.scaleUpAt
  }

  /** From event `i` to state `k` no stop, and no check but calm ones that left the limit alone. */
  ghost predicate CalmStreak(xs: seq<Sys>, es: seq<Event>, i: int, k: nat)
    requires |xs| == |es| + 1 && k <= |es|
  {
    0 <= i <= k && forall j :: i <= j < k ==> Unbroken(xs[j], es[j], xs[j + 1])
  }

  predicate Unbroken(x: Sys, e: Event, y: Sys) {
    !e.action.StopSession? && (e.action.MonitorCheck? ==> Calm(x, e) && y.g.limit == x.g.limit)
  }

  lemma CountedStep(s: Settings, x: Sys, e: Event, y: Sys)
    requires s.Valid() && Inv(s, x) && Next(s, x, e, y)
    ensures y.g.greenChecks ==
      if Unbroken(x, e, y) then x.g.greenChecks + (if e.action.MonitorCheck? then 1 else 0) else 0
  {
    hide MaybeRegrow, Shrink, RecordOutcome, Release;
  }

  lemma {:induction false} StreakAt(s: Settings, xs: seq<Sys>, es: seq<Event>, k: nat) returns (i: int)
    requires IsRun(s, xs, es) && k <= |es|
    ensures 0 <= i <= k && CalmStreak(xs, es, i, k) && Checks(es[i..k]) == xs[k].g.greenChecks
  {
    hide Next, Inv, Unbroken;
    i := k;
    if k > 0 {
      assert Next(s, xs[k - 1], es[k - 1], xs[k]);
      InvAt(s, xs, es, k - 1);
      CountedStep(s, xs[k - 1], es[k - 1], xs[k]);
      if Unbroken(xs[k - 1], es[k - 1], xs[k]) {
        i := StreakAt(s, xs, es, k - 1);
        assert es[i..k][..k - 1 - i] == es[i..k - 1];
      }
    }
  }

  lemma {:induction false} StreakAtMost(s: Settings, xs: seq<Sys>, es: seq<Event>, i: int, k: nat)
    requires IsRun(s, xs, es) && k <= |es| && CalmStreak(xs, es, i, k)
    ensures Checks(es[i..k]) <= xs[k].g.greenChecks
  {
    hide Next, Inv, Unbroken;
    InvAt(s, xs, es, k);
    if i < k {
      assert Next(s, xs[k - 1], es[k - 1], xs[k]);
      InvAt(s, xs, es, k - 1);
      CountedStep(s, xs[k - 1], es[k - 1], xs[k]);
      StreakAtMost(s, xs, es, i, k - 1);
      assert es[i..k][..k - 1 - i] == es[i..k - 1];
    } else {
      CountNotNegative(s, xs[k]);
    }
  }

  lemma CountNotNegative(s: Settings, x: Sys)
    requires Inv(s, x)
    ensures x.g.greenChecks >= 0
  {
  }

  lemma RaiseByCount(s: Settings, x: Sys, e: Event, y: Sys)
    requires s.Valid() && Inv(s, x) && Next(s, x, e, y) && e.action.MonitorCheck? && x.g.mode == Running
    ensures y.g.limit > x.g.limit <==>
      Calm(x, e) && x.g.limit < s.maxParallel && x.g.greenChecks + 1 >= s.scaleUpChecks
    ensures y.g.limit > x.g.limit ==> y.g.limit == Min(s.maxParallel, x.g.limit + s.step)
    ensures y.g.limit < x.g.limit ==> y.g.mode == Crisis
  {
  }

  /** A RUNNING check raises the limit exactly when it is calm, there is room, and with it the calm checks
      in a row, none of which raised the limit, number `scaleUpChecks`; then it raises it by one step. */
  lemma ScalesUpExactly(s: Settings, xs: seq<Sys>, es: seq<Event>, k: nat)
    requires IsRun(s, xs, es) && k < |es| && es[k].action.MonitorCheck? && xs[k].g.mode == Running
    ensures xs[k + 1].g.limit > xs[k].g.limit <==>
      && Calm(xs[k], es[k]) && xs[k].g.limit < s.maxParallel
      && exists i :: 0 <= i <= k && CalmStreak(xs, es, i, k) && Checks(es[i..k]) + 1 >= s.scaleUpChecks
    ensures xs[k + 1].g.limit > xs[k].g.limit ==> xs[k + 1].g.limit == Min(s.maxParallel, xs[k].g.limit + s.step)
  {
    hide Next, Inv, Calm, CalmStreak;
    assert Next(s, xs[k], es[k], xs[k + 1]);
    InvAt(s, xs, es, k);
    RaiseByCount(s, xs[k], es[k], xs[k + 1]);
    var most := StreakAt(s, xs, es, k);
    forall i | 0 <= i <= k && CalmStreak(xs, es, i, k) ensures Checks(es[i..k]) <= xs[k].g.greenChecks {
      StreakAtMost(s, xs, es, i, k);
    }
  }

  /** Outside RUNNING only CRISIS and RECOVERING move the limit. */
  lemma OtherChecksKeepLimit(s: Settings, x: Sys, e: Event, y: Sys)
    requires s.Valid() && Inv(s, x) && Next(s, x, e, y) && e.action.MonitorCheck?
    requires x.g.mode == Throttled || x.g.mode == Paused
    ensures y.g.limit == if y.g.mode == Crisis then 1 else x.g.limit
  {
  }
}
