/** Failure accounting over a whole session. The ledger below is read off a run from outside:
    the outcomes released and the changes of the limit that releases caused. */
module GovernorAccounting {
  import opened Common
  import opened GovernorModel
  import opened GovernorSystem

  /** `shrinkEnds` and `regrowEnds` hold how many outcomes the session had seen when a release
      lowered or raised the limit; `clearedAt` is the same for the last failing window, and `spentAt` for
      the last streak of successes that was used up; `forgiven` counts slots that were shrunk and will
      not be regrown. */
  datatype Ledger = Ledger(
    outcomes: seq<bool>, clearedAt: nat, spentAt: nat,
    shrinkEnds: seq<nat>, shrunk: nat, regrowEnds: seq<nat>, regrown: nat, forgiven: nat)
  {
    /** Slots shrunk and not yet regrown or forgiven. */
    function Owed(): int {
      shrunk - regrown - forgiven
    }
  }

  const EMPTY := Ledger([], 0, 0, [], 0, [], 0, 0)

  predicate Failed(success: bool) {
    !success
  }

  /** The share of failures is at or above the threshold. */
  predicate FailedShare(s: Settings, q: seq<bool>) {
    (Count(q, Failed) * 100) as real >= s.failurePercent * |q| as real
  }

  /** The failure that makes `all` end in a full failing window since the last one. */
  predicate Fails(s: Settings, all: seq<bool>, clearedAt: nat) {
    && all != [] && Failed(all[|all| - 1]) && 0 <= s.window <= |all| - clearedAt
    && FailedShare(s, all[|all| - s.window..])
  }

  /** Behind the last failure. */
  function FailureEnd(q: seq<bool>): (n: nat)
    ensures n <= |q|
  {
    if q == [] then 0 else if Failed(q[|q| - 1]) then |q| else FailureEnd(q[..|q| - 1])
  }

  /** A regrow falls due while the limit already is the maximum: what is owed is forgiven. */
  predicate Forgives(s: Settings, g: Gov, success: bool) {
    && success && g.successes + 1 >= s.regrowSuccesses && g.limit == s.maxParallel
    && (g.mode == Running || g.mode == Throttled)
  }

  /** Enters one release that took the governor from `g` to `h`. */
  function Enter(s: Settings, l: Ledger, g: Gov, h: Gov, success: bool): Ledger {
    var all := l.outcomes + [success];
    var change := h.limit - g.limit;
    Ledger(
      all,
      if Fails(s, all, l.clearedAt) then |all| else l.clearedAt,
      if change > 0 || (Forgives(s, g, success) && l.Owed() > 0) then |all| else l.spentAt,
      if change < 0 then l.shrinkEnds + [|all|] else l.shrinkEnds,
      if change < 0 then l.shrunk - change else l.shrunk,
      if change > 0 then l.regrowEnds + [|all|] else l.regrowEnds,
      if change > 0 then l.regrown + change else l.regrown,
      if Forgives(s, g, success) then l.forgiven + Max(0, l.Owed()) else l.forgiven)
  }

  /** Entering CRISIS forgives all that is owed. */
  function LedgerStep(s: Settings, l: Ledger, x: Sys, e: Event, y: Sys): Ledger {
    match e.action
    case StopSession(_) => EMPTY
    case Finish(_, success) => Enter(s, l, x.g, y.g, success)
    case MonitorCheck(_) =>
      if y.g.mode == Crisis && x.g.mode != Crisis then l.(forgiven := l.forgiven + Max(0, l.Owed())) else l
    case _ => l
  }

  /** The ledger of the session that state `k` belongs to. */
  function LedgerAt(s: Settings, xs: seq<Sys>, es: seq<Event>, k: nat): Ledger
    requires k <= |es| < |xs|
  {
    if k == 0 then EMPTY
    else LedgerStep(s, LedgerAt(s, xs, es, k - 1), xs[k - 1], es[k - 1], xs[k])
  }

  // ----- What the ledger always satisfies -----

  /** Blocks of `size` outcomes that end at `ends` and do not overlap, all inside `limit`. */
  predicate DisjointBlocks(ends: seq<nat>, size: int, limit: nat) {
    && 0 < size
    && (forall i :: 0 <= i < |ends| ==> size <= ends[i] <= limit)
    && (forall i, j :: 0 <= i < j < |ends| ==> ends[i] + size <= ends[j])
  }

  predicate TrueBetween(q: seq<bool>, from: int, to: int)
    requires 0 <= from && to <= |q|
  {
    forall i :: from <= i < to ==> q[i]
  }

  /** The deque is the latest outcomes since the last clear, at most a window of them. */
  predicate WindowInv(s: Settings, g: Gov, l: Ledger) {
    && l.clearedAt <= |l.outcomes|
    && |g.outcomes| == Min(s.window, |l.outcomes| - l.clearedAt)
    && g.outcomes == l.outcomes[|l.outcomes| - |g.outcomes|..]
  }

  /** Each shrink had a block of its own: a full window at or above the failure threshold. */
  predicate ShrinkInv(s: Settings, l: Ledger) {
    && l.clearedAt <= |l.outcomes|
    && DisjointBlocks(l.shrinkEnds, s.window, l.clearedAt)
    && forall i :: 0 <= i < |l.shrinkEnds| ==>
         FailedShare(s, l.outcomes[l.shrinkEnds[i] - s.window..l.shrinkEnds[i]])
  }

  /** Each regrow had a block of its own: consecutive successes, none of them among the
      successes counted toward the next one, which are those since the last failure or used-up streak. */
  predicate RegrowInv(s: Settings, g: Gov, l: Ledger) {
    && 0 <= g.successes == |l.outcomes| - Max(FailureEnd(l.outcomes), l.spentAt)
    && TrueBetween(l.outcomes, |l.outcomes| - g.successes, |l.outcomes|)
    && DisjointBlocks(l.regrowEnds, s.regrowSuccesses, |l.outcomes| - g.successes)
    && forall i :: 0 <= i < |l.regrowEnds| ==>
         TrueBetween(l.outcomes, l.regrowEnds[i] - s.regrowSuccesses, l.regrowEnds[i])
  }

  /** The debt is exactly the slots shrunk and neither regrown nor forgiven. */
  predicate DebtInv(g: Gov, l: Ledger) {
    0 <= g.debt == l.Owed()
  }

  predicate LedgerInv(s: Settings, g: Gov, l: Ledger) {
    WindowInv(s, g, l) && ShrinkInv(s, l) && RegrowInv(s, g, l) && DebtInv(g, l)
  }

  /** A regrow falls due: something is owed and the streak is long enough, in a state that regrows. */
  predicate Due(s: Settings, g: Gov, success: bool) {
    success && g.debt > 0 && g.successes + 1 >= s.regrowSuccesses && (g.mode == Running || g.mode == Throttled)
  }

  /** What a release does to the accounting fields, without the rest of the state. */
  lemma ReleaseFacts(s: Settings, g: Gov, success: bool, at: real)
    requires s.Valid() && ModeInv(s, g)
    ensures var h, q := Release(s, g, success, at), PushOutcome(s.window, g.outcomes, success);
      var failing := !success && FailingWindow(s, q);
      && h.outcomes == (if failing then [] else q)
      && h.limit - g.limit == LimitChange(s, g, success, failing)
      && h.successes == (if !success || Due(s, g, success) then 0 else g.successes + 1)
      && (h.limit < g.limit ==> h.debt == g.debt + (g.limit - h.limit))
      && (h.limit > g.limit ==> h.debt == g.debt - (h.limit - g.limit))
      && (h.limit == g.limit ==> h.debt == if Forgives(s, g, success) then 0 else g.debt)
      && 0 <= h.debt
  {
  }

  /** By how much a release moves the limit. */
  function LimitChange(s: Settings, g: Gov, success: bool, failing: bool): int {
    if failing && g.mode != Crisis then -Min(s.step, g.limit - 1)
    else if Due(s, g, success) then Min(s.step, Min(g.debt, s.maxParallel - g.limit))
    else 0
  }

  /** The full window of the deque is the end of the whole history. */
  lemma FailingIsFails(s: Settings, g: Gov, l: Ledger, success: bool)
    requires s.Valid() && WindowInv(s, g, l)
    ensures !success && FailingWindow(s, PushOutcome(s.window, g.outcomes, success)) <==>
      Fails(s, l.outcomes + [success], l.clearedAt)
  {
    var all, q := l.outcomes + [success], PushOutcome(s.window, g.outcomes, success);
    QueueIsTail(s, g, l, success);
    FailuresCounted(q);
    hide PushOutcome, Failures, WindowInv;
  }

  lemma QueueIsTail(s: Settings, g: Gov, l: Ledger, success: bool)
    requires s.Valid() && WindowInv(s, g, l)
    ensures var all, q := l.outcomes + [success], PushOutcome(s.window, g.outcomes, success);
      && l.clearedAt <= |l.outcomes| && |q| <= s.window
      && (|q| >= s.window <==> |all| - l.clearedAt >= s.window)
      && (|q| >= s.window ==> q == all[|all| - s.window..])
  {
  }

  lemma {:induction false} FailuresCounted(q: seq<bool>)
    ensures Failures(q) == Count(q, Failed)
  {
    if q != [] {
      FailuresCounted(q[..|q| - 1]);
    }
  }

  lemma WindowStep(s: Settings, g: Gov, h: Gov, l: Ledger, success: bool)
    requires s.Valid() && WindowInv(s, g, l)
    requires h.outcomes ==
      if Fails(s, l.outcomes + [success], l.clearedAt) then [] else PushOutcome(s.window, g.outcomes, success)
    ensures WindowInv(s, h, Enter(s, l, g, h, success))
  {
    hide Fails, Forgives;
  }

  lemma ShrinkStep(s: Settings, g: Gov, h: Gov, l: Ledger, success: bool)
    requires s.Valid() && ShrinkInv(s, l)
    requires h.limit < g.limit ==> Fails(s, l.outcomes + [success], l.clearedAt)
    ensures ShrinkInv(s, Enter(s, l, g, h, success))
  {
    hide FailedShare, Forgives, Fails;
    var m := Enter(s, l, g, h, success);
    forall i | 0 <= i < |l.shrinkEnds|
      ensures m.outcomes[l.shrinkEnds[i] - s.window..l.shrinkEnds[i]] ==
        l.outcomes[l.shrinkEnds[i] - s.window..l.shrinkEnds[i]]
    {
    }
    if h.limit < g.limit {
      FailsIsFull(s, m.outcomes, l.clearedAt);
      assert m.outcomes[|m.outcomes| - s.window..|m.outcomes|] == m.outcomes[|m.outcomes| - s.window..];
    }
  }

  lemma FailsIsFull(s: Settings, all: seq<bool>, clearedAt: nat)
    requires Fails(s, all, clearedAt)
    ensures 0 <= s.window <= |all| - clearedAt && FailedShare(s, all[|all| - s.window..])
  {
  }

  lemma RegrowStep(s: Settings, g: Gov, h: Gov, l: Ledger, success: bool)
    requires s.Valid() && RegrowInv(s, g, l) && DebtInv(g, l)
    requires h.successes == if !success || Due(s, g, success) then 0 else g.successes + 1
    requires h.limit > g.limit ==> Due(s, g, success)
    requires Due(s, g, success) && h.limit <= g.limit ==> g.limit == s.maxParallel
    ensures RegrowInv(s, h, Enter(s, l, g, h, success))
  {
    hide TrueBetween, Fails, DisjointBlocks, FailureEnd, Forgives;
    StreakStep(s, g, h, l, success);
    BlocksStep(s, g, h, l, success);
  }

  lemma StreakStep(s: Settings, g: Gov, h: Gov, l: Ledger, success: bool)
    requires s.Valid() && RegrowInv(s, g, l) && DebtInv(g, l)
    requires h.successes == if !success || Due(s, g, success) then 0 else g.successes + 1
    requires h.limit > g.limit ==> Due(s, g, success)
    requires Due(s, g, success) && h.limit <= g.limit ==> g.limit == s.maxParallel
    ensures var m := Enter(s, l, g, h, success);
      && 0 <= h.successes == |m.outcomes| - Max(FailureEnd(m.outcomes), m.spentAt)
      && TrueBetween(m.outcomes, |m.outcomes| - h.successes, |m.outcomes|)
  {
    hide TrueBetween, Fails, DisjointBlocks;
    var m := Enter(s, l, g, h, success);
    assert m.outcomes[..|l.outcomes|] == l.outcomes;
    StreakGrows(l.outcomes, success, |l.outcomes| - g.successes);
  }

  lemma BlocksStep(s: Settings, g: Gov, h: Gov, l: Ledger, success: bool)
    requires s.Valid() && RegrowInv(s, g, l)
    requires h.successes == 0 || h.successes == g.successes + 1
    requires h.limit > g.limit ==> success && g.successes + 1 >= s.regrowSuccesses && h.successes == 0
    ensures var m := Enter(s, l, g, h, success);
      && DisjointBlocks(m.regrowEnds, s.regrowSuccesses, |m.outcomes| - h.successes)
      && forall i :: 0 <= i < |m.regrowEnds| ==>
           TrueBetween(m.outcomes, m.regrowEnds[i] - s.regrowSuccesses, m.regrowEnds[i])
  {
    hide TrueBetween, Fails, FailureEnd, Forgives;
    var m := Enter(s, l, g, h, success);
    StreakGrows(l.outcomes, success, |l.outcomes| - g.successes);
    forall i | 0 <= i < |l.regrowEnds|
      ensures TrueBetween(m.outcomes, l.regrowEnds[i] - s.regrowSuccesses, l.regrowEnds[i])
    {
      StreakStays(l.outcomes, success, l.regrowEnds[i] - s.regrowSuccesses, l.regrowEnds[i]);
    }
    StreakEnd(m.outcomes, |l.outcomes| - g.successes, |m.outcomes| - s.regrowSuccesses);
  }

  lemma StreakGrows(q: seq<bool>, success: bool, from: nat)
    requires from <= |q| && TrueBetween(q, from, |q|)
    ensures success ==> TrueBetween(q + [success], from, |q| + 1)
    ensures TrueBetween(q + [success], |q| + 1, |q| + 1)
  {
  }

  lemma StreakStays(q: seq<bool>, success: bool, from: nat, to: nat)
    requires from <= to <= |q| && TrueBetween(q, from, to)
    ensures TrueBetween(q + [success], from, to)
  {
  }

  lemma StreakEnd(q: seq<bool>, from: nat, later: int)
    ensures from <= later <= |q| && TrueBetween(q, from, |q|) ==> TrueBetween(q, later, |q|)
  {
  }

  lemma LedgerInvFinish(s: Settings, x: Sys, e: Event, y: Sys, l: Ledger)
    requires s.Valid() && Next(s, x, e, y) && Inv(s, x) && LedgerInv(s, x.g, l) && e.action.Finish?
    ensures LedgerInv(s, y.g, LedgerStep(s, l, x, e, y))
  {
    var success := e.action.success;
    ReleaseFacts(s, x.g, success, e.at);
    hide Release, RecordOutcome, WindowInv, ShrinkInv, RegrowInv, FailingWindow, Fails, PushOutcome;
    FailingIsFails(s, x.g, l, success);
    WindowStep(s, x.g, y.g, l, success);
    ShrinkStep(s, x.g, y.g, l, success);
    RegrowStep(s, x.g, y.g, l, success);
    DebtStep(s, x.g, y.g, l, success);
  }

  lemma DebtStep(s: Settings, g: Gov, h: Gov, l: Ledger, success: bool)
    requires DebtInv(g, l) && 0 <= h.debt
    requires h.limit < g.limit ==> h.debt == g.debt + (g.limit - h.limit) && !Forgives(s, g, success)
    requires h.limit > g.limit ==> h.debt == g.debt - (h.limit - g.limit) && !Forgives(s, g, success)
    requires h.limit == g.limit ==> h.debt == if Forgives(s, g, success) then 0 else g.debt
    ensures DebtInv(h, Enter(s, l, g, h, success))
  {
    hide Forgives, Fails;
  }

  /** Nothing but a release or a stop touches the outcomes, and only entering CRISIS the debt. */
  lemma OtherEventsKeepAccounts(s: Settings, x: Sys, e: Event, y: Sys)
    requires Next(s, x, e, y) && Inv(s, x) && !e.action.Finish? && !e.action.StopSession?
    ensures y.g.outcomes == x.g.outcomes && y.g.successes == x.g.successes
    ensures y.g.debt == if e.action.MonitorCheck? && y.g.mode == Crisis && x.g.mode != Crisis then 0 else x.g.debt
  {
    hide Release;
  }

  lemma LedgerInvOther(s: Settings, x: Sys, e: Event, y: Sys, l: Ledger)
    requires Next(s, x, e, y) && Inv(s, x) && LedgerInv(s, x.g, l) && !e.action.Finish? && !e.action.StopSession?
    ensures LedgerInv(s, y.g, LedgerStep(s, l, x, e, y))
  {
    hide Next, Inv, FailedShare, TrueBetween, DisjointBlocks, FailureEnd;
    OtherEventsKeepAccounts(s, x, e, y);
  }

  lemma EmptyLedgerInv(s: Settings, g: Gov)
    requires s.Valid() && g.outcomes == [] && g.successes == 0 && g.debt == 0
    ensures LedgerInv(s, g, EMPTY)
  {
  }

  lemma StopClears(s: Settings, x: Sys, e: Event, y: Sys)
    requires Next(s, x, e, y) && e.action.StopSession?
    ensures y.g.outcomes == [] && y.g.successes == 0 && y.g.debt == 0
  {
  }

  lemma {:induction false} LedgerInvAt(s: Settings, xs: seq<Sys>, es: seq<Event>, k: nat)
    requires IsRun(s, xs, es) && k <= |es|
    ensures LedgerInv(s, xs[k].g, LedgerAt(s, xs, es, k))
  {
    hide Next, Inv, LedgerInv;
    if k == 0 {
      EmptyLedgerInv(s, xs[0].g);
    } else {
      var x, e, y := xs[k - 1], es[k - 1], xs[k];
      assert Next(s, x, e, y);
      InvAt(s, xs, es, k - 1);
      LedgerInvAt(s, xs, es, k - 1);
      if e.action.Finish? {
        LedgerInvFinish(s, x, e, y, LedgerAt(s, xs, es, k - 1));
      } else if e.action.StopSession? {
        StopClears(s, x, e, y);
        EmptyLedgerInv(s, y.g);
      } else {
        LedgerInvOther(s, x, e, y, LedgerAt(s, xs, es, k - 1));
      }
    }
  }

  /** Disjoint blocks inside a length: that many blocks fit. */
  lemma {:induction false} BlocksFit(ends: seq<nat>, size: int, limit: nat)
    requires size > 0 && DisjointBlocks(ends, size, limit)
    ensures |ends| * size <= limit
  {
    if |ends| > 0 {
      var n := |ends| - 1;
      var last := ends[n];
      assert DisjointBlocks(ends[..n], size, last - size);
      BlocksFit(ends[..n], size, last - size);
      assert |ends| * size == n * size + size;
    }
  }

  /** The failure accounting of a whole session: every shrink is paid for by a full failing
      window of its own, every regrow by its own run of successes, and no more slots
      come back than were taken. */
  lemma SessionAccounting(s: Settings, xs: seq<Sys>, es: seq<Event>, k: nat)
    requires IsRun(s, xs, es) && k <= |es|
    ensures var l := LedgerAt(s, xs, es, k);
      && ShrinkInv(s, l)
      && |l.shrinkEnds| * s.window <= |l.outcomes|
      && RegrowInv(s, xs[k].g, l)
      && |l.regrowEnds| * s.regrowSuccesses <= |l.outcomes|
      && l.regrown <= l.shrunk && xs[k].g.debt == l.Owed()
  {
    hide Next;
    LedgerInvAt(s, xs, es, k);
    var l := LedgerAt(s, xs, es, k);
    BlocksFit(l.shrinkEnds, s.window, l.clearedAt);
    BlocksFit(l.regrowEnds, s.regrowSuccesses, |l.outcomes| - xs[k].g.successes);
  }

  /** A failed release lowers the limit exactly when the session's outcomes since the last failing window
      fill a window and the share of failures at their end reaches the threshold, outside CRISIS and
      above one slot; it lowers it by one step, never below one slot. */
  lemma ShrinksExactly(s: Settings, xs: seq<Sys>, es: seq<Event>, k: nat)
    requires IsRun(s, xs, es) && k < |es| && es[k].action.Finish?
    ensures var l, g, h := LedgerAt(s, xs, es, k), xs[k].g, xs[k + 1].g;
      var all := l.outcomes + [es[k].action.success];
      && (h.limit < g.limit <==>
            !es[k].action.success && g.mode != Crisis && g.limit > 1 && |all| - l.clearedAt >= s.window
            && (Count(all[|all| - s.window..], Failed) * 100) as real >= s.failurePercent * s.window as real)
      && (h.limit < g.limit ==> h.limit == Max(1, g.limit - s.step))
  {
    hide Next;
    assert Next(s, xs[k], es[k], xs[k + 1]);
    InvAt(s, xs, es, k);
    LedgerInvAt(s, xs, es, k);
    ReleaseMoves(s, xs[k], es[k], xs[k + 1], LedgerAt(s, xs, es, k));
    FailedShareOfWindow(s, LedgerAt(s, xs, es, k).outcomes + [es[k].action.success]);
  }

  lemma FailedShareOfWindow(s: Settings, all: seq<bool>)
    requires s.Valid()
    ensures |all| >= s.window ==>
      (FailedShare(s, all[|all| - s.window..]) <==>
        (Count(all[|all| - s.window..], Failed) * 100) as real >= s.failurePercent * s.window as real)
  {
  }

  lemma ReleaseMoves(s: Settings, x: Sys, e: Event, y: Sys, l: Ledger)
    requires s.Valid() && Next(s, x, e, y) && Inv(s, x) && LedgerInv(s, x.g, l) && e.action.Finish?
    ensures y.g.limit - x.g.limit ==
      LimitChange(s, x.g, e.action.success, Fails(s, l.outcomes + [e.action.success], l.clearedAt))
    ensures 1 <= x.g.limit <= s.maxParallel && x.g.debt == l.Owed()
    ensures x.g.successes == |l.outcomes| - Max(FailureEnd(l.outcomes), l.spentAt)
  {
    ReleaseFacts(s, x.g, e.action.success, e.at);
    FailingIsFails(s, x.g, l, e.action.success);
    hide Release, RecordOutcome, FailingWindow, Fails, PushOutcome, LimitChange;
  }

  /** A release raises the limit exactly when it succeeds in RUNNING or THROTTLED below the maximum with
      slots owed, and the successes since the last failure or used-up streak are now enough; it raises it
      by one step, by no more than is owed and never above the maximum. */
  lemma RegrowsExactly(s: Settings, xs: seq<Sys>, es: seq<Event>, k: nat)
    requires IsRun(s, xs, es) && k < |es| && es[k].action.Finish?
    ensures var l, g, h := LedgerAt(s, xs, es, k), xs[k].g, xs[k + 1].g;
      && (h.limit > g.limit <==>
            es[k].action.success && (g.mode == Running || g.mode == Throttled)
            && l.shrunk - l.regrown - l.forgiven > 0 && g.limit < s.maxParallel
            && |l.outcomes| + 1 - Max(FailureEnd(l.outcomes), l.spentAt) >= s.regrowSuccesses)
      && (h.limit > g.limit ==>
            h.limit == Min(s.maxParallel, g.limit + Min(s.step, l.shrunk - l.regrown - l.forgiven)))
  {
    hide Next, Fails;
    assert Next(s, xs[k], es[k], xs[k + 1]);
    InvAt(s, xs, es, k);
    LedgerInvAt(s, xs, es, k);
    ReleaseMoves(s, xs[k], es[k], xs[k + 1], LedgerAt(s, xs, es, k));
    if es[k].action.success {
      SuccessNeverFails(s, LedgerAt(s, xs, es, k).outcomes, LedgerAt(s, xs, es, k).clearedAt);
    }
  }

  lemma SuccessNeverFails(s: Settings, outcomes: seq<bool>, clearedAt: nat)
    ensures !Fails(s, outcomes + [true], clearedAt)
  {
  }
}
