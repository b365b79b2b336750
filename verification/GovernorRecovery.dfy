/** How the limit moves: the ramp out of a crisis takes an exact number of checks, and which
    events can lift the limit past the level it had before a failure shrink. */
module GovernorRecovery {
  import opened Common
  import opened GovernorModel
  import opened GovernorSystem

  // ----- Recovery from a crisis -----

  /** The limit after `c` recovery checks. */
  function Ramp(s: Settings, c: nat): int {
    Min(s.baseline, 1 + c * s.step)
  }

  /** max(2, ceil((baseline - 1) / step)). */
  function RecoveryChecks(s: Settings): int
    requires s.step > 0
  {
    Max(2, (s.baseline + s.step - 2) / s.step)
  }

  lemma RampNext(s: Settings, c: nat)
    requires s.Valid()
    ensures Ramp(s, c + 1) == Min(s.baseline, Ramp(s, c) + s.step)
  {
    assert (c + 1) * s.step == c * s.step + s.step;
  }

  lemma RampTop(s: Settings, c: nat)
    requires s.Valid()
    ensures Ramp(s, c) == s.baseline <==> c >= (s.baseline + s.step - 2) / s.step
  {
    var q := (s.baseline + s.step - 2) / s.step;
    assert q * s.step <= s.baseline + s.step - 2 < q * s.step + s.step;
    if c >= q {
      assert c * s.step >= q * s.step;
    } else {
      assert (c + 1) * s.step <= q * s.step;
      assert (c + 1) * s.step == c * s.step + s.step;
    }
  }

  /** The event does not disturb a recovery: no stop, no kernel pressure, no abort, the first
      check also below the pause zone, and no failure shrink. Acquires and releases
      interleave freely. */
  predicate Undisturbed(s: Settings, x: Sys, e: Event, y: Sys) {
    match e.action
    case StopSession(_) => false
    case MonitorCheck(r) => !r.IsCrisis() && (x.g.mode == Crisis ==> !r.IsPauseZone() && !Aborts(s, x.g, e.at))
    case Finish(_, _) => y.g.limit >= x.g.limit
    case _ => true
  }

  function Checks(es: seq<Event>): nat {
    if es == [] then 0 else Checks(es[..|es| - 1]) + (if es[|es| - 1].action.MonitorCheck? then 1 else 0)
  }

  /** Where a recovery stands after `c` checks. */
  predicate RecoveryAt(s: Settings, g: Gov, c: nat)
    requires s.step > 0
  {
    && g.debt == 0 && g.limit == Ramp(s, c)
    && g.mode == if c == 0 then Crisis else if c < RecoveryChecks(s) then Recovering else Running
  }

  lemma RecoveryStep(s: Settings, x: Sys, e: Event, y: Sys, c: nat)
    requires s.Valid() && Next(s, x, e, y) && Undisturbed(s, x, e, y) && RecoveryAt(s, x.g, c)
    requires e.action.MonitorCheck? && c < RecoveryChecks(s)
    ensures RecoveryAt(s, y.g, c + 1)
  {
    hide Ramp, RecoveryChecks;
    RampFacts(s, c);
  }

  lemma RampFacts(s: Settings, c: nat)
    requires s.Valid()
    ensures 2 <= RecoveryChecks(s) && 1 <= Ramp(s, c) <= s.baseline && Ramp(s, 0) == 1
    ensures Ramp(s, c + 1) == Min(s.baseline, Ramp(s, c) + s.step)
    ensures c + 1 >= RecoveryChecks(s) <==> c >= 1 && Ramp(s, c + 1) == s.baseline
  {
    RampNext(s, c);
    RampTop(s, c + 1);
  }

  lemma RecoveryIdle(s: Settings, x: Sys, e: Event, y: Sys, c: nat)
    requires s.Valid() && Next(s, x, e, y) && Undisturbed(s, x, e, y) && RecoveryAt(s, x.g, c)
    requires !e.action.MonitorCheck?
    ensures RecoveryAt(s, y.g, c)
  {
    hide Ramp, RecoveryChecks, PushOutcome, FailingWindow;
  }

  /** From any crisis of any run, undisturbed: after `c` checks the limit is exactly
      min(baseline, 1 + c * step), and the governor is RUNNING at the baseline after
      exactly max(2, ceil((baseline - 1) / step)) checks, never before. */
  lemma {:induction false} RecoveryIsExact(s: Settings, xs: seq<Sys>, es: seq<Event>, i: nat, k: nat)
    requires IsRun(s, xs, es) && i <= k <= |es| && xs[i].g.mode == Crisis
    requires forall j :: i <= j < k ==> Undisturbed(s, xs[j], es[j], xs[j + 1])
    requires Checks(es[i..k]) <= RecoveryChecks(s)
    ensures RecoveryAt(s, xs[k].g, Checks(es[i..k]))
  {
    hide Next, Undisturbed, RecoveryAt, RecoveryChecks;
    if k == i {
      InvAt(s, xs, es, i);
      CrisisStart(s, xs[i].g);
    } else {
      assert es[i..k][..k - i - 1] == es[i..k - 1];
      assert Next(s, xs[k - 1], es[k - 1], xs[k]);
      RecoveryIsExact(s, xs, es, i, k - 1);
      var c := Checks(es[i..k - 1]);
      if es[k - 1].action.MonitorCheck? {
        RecoveryStep(s, xs[k - 1], es[k - 1], xs[k], c);
      } else {
        RecoveryIdle(s, xs[k - 1], es[k - 1], xs[k], c);
      }
    }
  }

  lemma CrisisStart(s: Settings, g: Gov)
    requires s.Valid() && ModeInv(s, g) && g.mode == Crisis
    ensures RecoveryAt(s, g, 0)
  {
  }

  // ----- The level a regrow can reach -----

  /** The limit plus the slots still owed: what regrowing alone would lead back to. */
  function Level(g: Gov): int {
    g.limit + g.debt
  }

  predicate ChecksUp(x: Sys, e: Event, y: Sys) {
    e.action.MonitorCheck? && y.g.limit > x.g.limit
  }

  /** Inside a session the level rises exactly when a monitor check raises the limit. */
  lemma LevelRises(s: Settings, x: Sys, e: Event, y: Sys)
    requires s.Valid() && Inv(s, x) && Next(s, x, e, y) && !e.action.StopSession?
    ensures Level(y.g) > Level(x.g) <==> ChecksUp(x, e, y)
  {
    match e.action {
      case Finish(_, success) => ReleaseLevel(s, x.g, success, e.at);
      case MonitorCheck(r) => CheckLevel(s, x.g, r, e.at);
      case _ =>
    }
  }

  lemma CheckLevel(s: Settings, g: Gov, r: Reading, at: real)
    requires s.Valid() && ModeInv(s, g)
    ensures Level(Check(s, g, r, at)) > Level(g) <==> Check(s, g, r, at).limit > g.limit
  {
  }

  lemma ReleaseLevel(s: Settings, g: Gov, success: bool, at: real)
    requires s.Valid() && ModeInv(s, g)
    ensures Level(Release(s, g, success, at)) <= Level(g)
  {
    hide PushOutcome, FailingWindow;
  }

  /** Slots a monitor check added. */
  function RaisedBy(x: Sys, e: Event, y: Sys): nat {
    if ChecksUp(x, e, y) then y.g.limit - x.g.limit else 0
  }

  /** Slots written off: all but one on entering CRISIS, and the debt forgiven at the maximum. */
  function WrittenOffBy(s: Settings, x: Sys, e: Event, y: Sys): int {
    match e.action
    case MonitorCheck(_) => if y.g.mode == Crisis && x.g.mode != Crisis then Level(x.g) - 1 else 0
    case Finish(_, _) => if y.g.debt == 0 && x.g.limit == s.maxParallel == y.g.limit then x.g.debt else 0
    case _ => 0
  }

  function Raised(xs: seq<Sys>, es: seq<Event>, i: nat, k: nat): nat
    requires i <= k <= |es| < |xs|
  {
    if k == i then 0 else Raised(xs, es, i, k - 1) + RaisedBy(xs[k - 1], es[k - 1], xs[k])
  }

  function WrittenOff(s: Settings, xs: seq<Sys>, es: seq<Event>, i: nat, k: nat): int
    requires i <= k <= |es| < |xs|
  {
    if k == i then 0 else WrittenOff(s, xs, es, i, k - 1) + WrittenOffBy(s, xs[k - 1], es[k - 1], xs[k])
  }

  /** Releases neither create nor lose slots, except for debt forgiven at the maximum. */
  lemma LevelAfterRelease(s: Settings, g: Gov, success: bool, at: real)
    requires s.Valid() && ModeInv(s, g)
    ensures var h := Release(s, g, success, at);
      Level(h) == Level(g) - (if h.debt == 0 && g.limit == s.maxParallel == h.limit then g.debt else 0)
  {
    hide PushOutcome, FailingWindow;
  }

  lemma LevelAfterCheck(s: Settings, g: Gov, r: Reading, at: real)
    requires s.Valid() && ModeInv(s, g)
    ensures var h := Check(s, g, r, at);
      Level(h) == Level(g) + Max(0, h.limit - g.limit)
        - (if h.mode == Crisis && g.mode != Crisis then Level(g) - 1 else 0)
  {
  }

  lemma LevelStep(s: Settings, x: Sys, e: Event, y: Sys)
    requires s.Valid() && Inv(s, x) && Next(s, x, e, y) && !e.action.StopSession?
    ensures Level(y.g) == Level(x.g) + RaisedBy(x, e, y) - WrittenOffBy(s, x, e, y)
    ensures WrittenOffBy(s, x, e, y) >= 0
  {
    hide Check, Release;
    match e.action {
      case Finish(_, success) => LevelAfterRelease(s, x.g, success, e.at);
      case MonitorCheck(r) => LevelAfterCheck(s, x.g, r, e.at);
      case _ =>
    }
  }

  /** Inside a session every change of the level is accounted for. */
  lemma {:induction false} LevelAccount(s: Settings, xs: seq<Sys>, es: seq<Event>, i: nat, k: nat)
    requires IsRun(s, xs, es) && i <= k <= |es|
    requires forall j :: i <= j < k ==> !es[j].action.StopSession?
    ensures Level(xs[k].g) == Level(xs[i].g) + Raised(xs, es, i, k) - WrittenOff(s, xs, es, i, k)
    ensures WrittenOff(s, xs, es, i, k) >= 0
  {
    hide Next, RaisedBy, WrittenOffBy, Level;
    if k > i {
      assert Next(s, xs[k - 1], es[k - 1], xs[k]);
      InvAt(s, xs, es, k - 1);
      LevelAccount(s, xs, es, i, k - 1);
      LevelStep(s, xs[k - 1], es[k - 1], xs[k]);
    }
  }

  /** The limit passes its earlier level (the limit before the shrinks, when nothing was owed)
      exactly when checks have added more slots than are still owed or were written off. */
  lemma PassesLevelExactly(s: Settings, xs: seq<Sys>, es: seq<Event>, i: nat, k: nat)
    requires IsRun(s, xs, es) && i <= k <= |es|
    requires forall j :: i <= j < k ==> !es[j].action.StopSession?
    ensures xs[k].g.limit > Level(xs[i].g) <==>
      Raised(xs, es, i, k) > xs[k].g.debt + WrittenOff(s, xs, es, i, k)
  {
    hide Next;
    LevelAccount(s, xs, es, i, k);
  }

  /** What a regrow in a given state adds: one step out of the debt, within the maximum. */
  function Growth(s: Settings, g: Gov): int {
    Min(s.step, Min(g.debt, s.maxParallel - g.limit))
  }

  /** So a regrow is about to pass the earlier level exactly when, before it, checks have added more
      than would still be owed after it or was written off. */
  lemma RegrowPassesExactly(s: Settings, xs: seq<Sys>, es: seq<Event>, i: nat, k: nat)
    requires IsRun(s, xs, es) && i <= k < |es|
    requires forall j :: i <= j < k ==> !es[j].action.StopSession?
    requires es[k].action.Finish? && xs[k + 1].g.limit > xs[k].g.limit
    ensures xs[k + 1].g.limit == xs[k].g.limit + Growth(s, xs[k].g)
    ensures xs[k + 1].g.limit > Level(xs[i].g) <==>
      Raised(xs, es, i, k) > xs[k].g.debt - Growth(s, xs[k].g) + WrittenOff(s, xs, es, i, k)
  {
    hide Next, Raised, WrittenOff;
    assert Next(s, xs[k], es[k], xs[k + 1]);
    InvAt(s, xs, es, k);
    LevelAccount(s, xs, es, i, k);
    RegrowGrows(s, xs[k], es[k], xs[k + 1]);
  }

  lemma RegrowGrows(s: Settings, x: Sys, e: Event, y: Sys)
    requires s.Valid() && Inv(s, x) && Next(s, x, e, y) && e.action.Finish? && y.g.limit > x.g.limit
    ensures y.g.limit == x.g.limit + Growth(s, x.g)
  {
    hide PushOutcome, FailingWindow;
  }

  lemma {:induction false} NoneRaised(xs: seq<Sys>, es: seq<Event>, i: nat, k: nat)
    requires i <= k <= |es| < |xs| && forall j :: i <= j < k ==> !ChecksUp(xs[j], es[j], xs[j + 1])
    ensures Raised(xs, es, i, k) == 0
  {
    if k > i {
      NoneRaised(xs, es, i, k - 1);
    }
  }

  /** In particular, as long as no check raises the limit, regrowing never takes it past the level
      before the shrinks. */
  lemma RegrowWithinLevel(s: Settings, xs: seq<Sys>, es: seq<Event>, i: nat, k: nat)
    requires IsRun(s, xs, es) && i <= k <= |es|
    requires forall j :: i <= j < k ==> !es[j].action.StopSession? && !ChecksUp(xs[j], es[j], xs[j + 1])
    ensures Level(xs[k].g) <= Level(xs[i].g) && xs[k].g.limit <= Level(xs[i].g)
  {
    hide Next, ChecksUp;
    InvAt(s, xs, es, k);
    NoneRaised(xs, es, i, k);
    LevelAccount(s, xs, es, i, k);
  }

  // A run on which a regrow overshoots: four failures shrink 8 slots to 6, calm checks
  // grow them back to 8, and the debt still outstanding then grows them to 10.

  const OVERSHOOT := Settings(8, 16, 1, 300.0, 2, 20.0, 4, 1)
  const CALM := Reading(10.0, Green, 80.0, 90.0, 60.0)

  function OvershootEvents(t: real): seq<Event> {
    [Event(t, StartSession), Event(t, Attempt(0)), Event(t, Attempt(1)), Event(t, Attempt(2)),
     Event(t, Attempt(3)), Event(t, Attempt(4)),
     Event(t, Finish(0, false)), Event(t, Finish(1, false)), Event(t, Finish(2, false)),
     Event(t, Finish(3, false)), Event(t, MonitorCheck(CALM)), Event(t, Finish(4, true))]
  }

  /** Five holders of a session at its baseline. */
  lemma OvershootPrefix(t: real) returns (xs: seq<Sys>)
    ensures |xs| == 7 && xs[0] == Init(OVERSHOOT, t)
    ensures forall k :: 0 <= k < 6 ==> Next(OVERSHOOT, xs[k], OvershootEvents(t)[k], xs[k + 1])
    ensures xs[6].now == t && xs[6].g == Initial(OVERSHOOT, t).(task := TaskRunning, inUse := 5)
    ensures xs[6].waiters == map[0 := Holding, 1 := Holding, 2 := Holding, 3 := Holding, 4 := Holding]
  {
    var es, s := OvershootEvents(t), OVERSHOOT;
    var x0 := Init(s, t);
    var x1 := Step(s, x0, es[0]);
    var x2 := Step(s, x1, es[1]);
    var x3 := Step(s, x2, es[2]);
    var x4 := Step(s, x3, es[3]);
    var x5 := Step(s, x4, es[4]);
    xs := [x0, x1, x2, x3, x4, x5, Step(s, x5, es[5])];
  }

  lemma FourFailures()
    ensures FailingWindow(OVERSHOOT, PushOutcome(4, [false, false, false], false))
  {
    var q := [false, false, false, false];
    assert q[..3] == [false, false, false] && q[..3][..2] == [false, false] && q[..2][..1] == [false];
    assert Failures([false]) == 1;
    assert Failures([false, false]) == 2;
    assert Failures([false, false, false]) == 3;
    assert Failures(q) == 4;
    assert PushOutcome(4, [false, false, false], false) == q;
  }

  /** One more failed release, short of a full window, changes nothing but the window. */
  lemma OneFailure(t: real, x: Sys, w: nat) returns (y: Sys)
    requires x.now == t && w in x.waiters && x.waiters[w].Holding? && |x.g.outcomes| < 3
    requires x.g.limit == 8 && x.g.debt == 0 && x.g.mode == Running && x.g.successes == 0
    ensures Next(OVERSHOOT, x, Event(t, Finish(w, false)), y) && y.now == t && y.waiters == x.waiters - {w}
    ensures y.g.limit == 8 && y.g.debt == 0 && y.g.mode == Running && y.g.successes == 0
    ensures y.g.task == x.g.task && y.g.greenChecks == x.g.greenChecks && y.g.outcomes == x.g.outcomes + [false]
  {
    hide Failures;
    y := Step(OVERSHOOT, x, Event(t, Finish(w, false)));
  }

  lemma OvershootShrink(t: real, x6: Sys) returns (x7: Sys, x8: Sys, x9: Sys, x10: Sys)
    requires x6.now == t && x6.g == Initial(OVERSHOOT, t).(task := TaskRunning, inUse := 5)
    requires x6.waiters == map[0 := Holding, 1 := Holding, 2 := Holding, 3 := Holding, 4 := Holding]
    ensures var es := OvershootEvents(t);
      && Next(OVERSHOOT, x6, es[6], x7) && Next(OVERSHOOT, x7, es[7], x8)
      && Next(OVERSHOOT, x8, es[8], x9) && Next(OVERSHOOT, x9, es[9], x10)
    ensures x9.g.limit == 8 && x10.g.limit == 6 && x10.g.debt == 2 && x10.g.mode == Running && x10.now == t
    ensures x10.g.task == TaskRunning && x10.g.greenChecks == 0 && x10.g.successes == 0
    ensures 4 in x10.waiters && x10.waiters[4] == Holding
  {
    hide Next;
    x7 := OneFailure(t, x6, 0);
    x8 := OneFailure(t, x7, 1);
    x9 := OneFailure(t, x8, 2);
    assert x9.g.outcomes == [false, false, false];
    x10 := FourthFailure(t, x9);
  }

  lemma FourthFailure(t: real, x: Sys) returns (y: Sys)
    requires x.now == t && 3 in x.waiters && x.waiters[3].Holding? && x.g.outcomes == [false, false, false]
    requires x.g.limit == 8 && x.g.debt == 0 && x.g.mode == Running && x.g.successes == 0
    ensures Next(OVERSHOOT, x, Event(t, Finish(3, false)), y) && y.now == t && y.waiters == x.waiters - {3}
    ensures y.g.limit == 6 && y.g.debt == 2 && y.g.mode == Running && y.g.successes == 0
    ensures y.g.task == x.g.task && y.g.greenChecks == x.g.greenChecks
  {
    hide Failures, FailingWindow;
    FourFailures();
    y := Step(OVERSHOOT, x, Event(t, Finish(3, false)));
  }

  /** So "never above the pre-shrink level" does not hold of every regrow. */
  lemma RegrowOvershoots(t: real) returns (xs: seq<Sys>)
    ensures IsRun(OVERSHOOT, xs, OvershootEvents(t))
    ensures xs[9].g.limit == 8 && xs[10].g.limit == 6 && xs[12].g.limit == 10
  {
    hide Failures, FailingWindow;
    var es, s := OvershootEvents(t), OVERSHOOT;
    xs := OvershootPrefix(t);
    var x7, x8, x9, x10 := OvershootShrink(t, xs[6]);
    var x11 := Step(s, x10, es[10]);
    assert x11.g.limit == 8 && x11.g.debt == 2;
    var x12 := Step(s, x11, es[11]);
    xs := xs + [x7, x8, x9, x10, x11, x12];
  }
}
