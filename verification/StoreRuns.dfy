/** What holds of a state store over every sequence of calls (src/alphaswarm/state.py). */
module StoreRuns {
  import opened Common
  import opened StoreModel

  // ----- The rationale feed -----

  function PushCount(calls: seq<Call>): nat {
    if calls == [] then 0 else PushCount(calls[..|calls| - 1]) + (if calls[|calls| - 1].op.PushRationale? then 1 else 0)
  }

  /** Every entry pushed since the last SEEDING, numbered over the life of the store. */
  function Feed(calls: seq<Call>): seq<Entry> {
    if calls == [] then []
    else
      var n := |calls| - 1;
      match calls[n].op
      case SetPhase(p) => if p == Seeding then [] else Feed(calls[..n])
      case PushRationale(e, ts) => Feed(calls[..n]) + [e.(number := PushCount(calls), ts := ts)]
      case _ => Feed(calls[..n])
  }

  function LastOf<T>(s: seq<T>, max: nat): seq<T> {
    if |s| <= max then s else s[|s| - max..]
  }

  lemma WindowEffect(s: Store, c: Call)
    ensures c.op.PushRationale? ==>
      Apply(s, c).window == Append(s.window, c.op.entry.(number := s.pushes + 1, ts := c.op.ts), RATIONALE_MAX)
    ensures c.op == SetPhase(Seeding) ==> Apply(s, c).window == []
    ensures !c.op.PushRationale? && c.op != SetPhase(Seeding) ==> Apply(s, c).window == s.window
    ensures Apply(s, c).pushes == s.pushes + (if c.op.PushRationale? then 1 else 0)
  {
    hide Written, Assign, FreshRoster, AllPending, Prune, Append;
  }

  lemma AppendKeepsLast<T>(s: seq<T>, item: T, max: nat)
    requires max > 0
    ensures Append(LastOf(s, max), item, max) == LastOf(s + [item], max)
  {
  }

  /** The window is always the latest 50 entries of the feed. */
  lemma {:induction false} WindowIsLatest(calls: seq<Call>)
    ensures After(calls).window == LastOf(Feed(calls), 50)
    ensures After(calls).pushes == PushCount(calls)
  {
    hide Apply, Append;
    if calls != [] {
      var n := |calls| - 1;
      WindowIsLatest(calls[..n]);
      WindowEffect(After(calls[..n]), calls[n]);
      if calls[n].op.PushRationale? {
        AppendKeepsLast(Feed(calls[..n]), Feed(calls)[|Feed(calls)| - 1], RATIONALE_MAX);
      }
    }
  }

  /** The feed is numbered without gaps, ending at the number of pushes so far. */
  lemma {:induction false} FeedIsConsecutive(calls: seq<Call>)
    ensures |Feed(calls)| <= PushCount(calls)
    ensures forall i :: 0 <= i < |Feed(calls)| ==> Feed(calls)[i].number == PushCount(calls) - |Feed(calls)| + 1 + i
  {
    if calls != [] {
      FeedIsConsecutive(calls[..|calls| - 1]);
    }
  }

  // ----- Tokens per second -----

  function SpentStep(spent: seq<(real, nat)>, c: Call): seq<(real, nat)> {
    match c.op
    case SetPhase(p) => if p == Seeding then [] else spent
    case RecordTokens(k) => if k > 0 then spent + [(c.now, k as nat)] else spent
    case _ => spent
  }

  /** Every positive count recorded since the last SEEDING, with its time. */
  function Spent(calls: seq<Call>): seq<(real, nat)> {
    if calls == [] then [] else SpentStep(Spent(calls[..|calls| - 1]), calls[|calls| - 1])
  }

  /** The counts recorded in the last ten seconds. */
  function Recent(history: seq<(real, nat)>, now: real): seq<(real, nat)> {
    if history == [] then []
    else
      var n := |history| - 1;
      Recent(history[..n], now) + (if history[n].0 > now - TPS_WINDOW then [history[n]] else [])
  }

  ghost predicate Stamped(history: seq<(real, nat)>, clock: real) {
    && (forall i, j :: 0 <= i <= j < |history| ==> history[i].0 <= history[j].0)
    && forall i :: 0 <= i < |history| ==> history[i].0 <= clock
  }

  lemma {:induction false} RecentOfAll(history: seq<(real, nat)>, now: real)
    requires forall i :: 0 <= i < |history| ==> history[i].0 > now - TPS_WINDOW
    ensures Recent(history, now) == history
  {
    if history != [] {
      RecentOfAll(history[..|history| - 1], now);
    }
  }

  lemma {:induction false} RecentDropsFirst(history: seq<(real, nat)>, now: real)
    requires history != [] && history[0].0 <= now - TPS_WINDOW
    ensures Recent(history, now) == Recent(history[1..], now)
  {
    var n := |history| - 1;
    if n > 0 {
      RecentDropsFirst(history[..n], now);
      assert history[..n][1..] == history[1..][..n - 1];
    }
  }

  /** Dropping from the front is filtering, because stamps never decrease. */
  lemma {:induction false} PruneIsRecent(tokens: seq<(real, nat)>, clock: real, now: real)
    requires Stamped(tokens, clock)
    ensures Prune(tokens, now) == Recent(tokens, now)
    ensures Stamped(Prune(tokens, now), clock)
  {
    if tokens != [] && tokens[0].0 <= now - TPS_WINDOW {
      RecentDropsFirst(tokens, now);
      PruneIsRecent(tokens[1..], clock, now);
    } else {
      RecentOfAll(tokens, now);
    }
  }

  /** Filtering early loses nothing that a later filter keeps. */
  lemma {:induction false} RecentTwice(history: seq<(real, nat)>, now: real, later: real)
    requires now <= later
    ensures Recent(Recent(history, now), later) == Recent(history, later)
  {
    if history != [] {
      var n := |history| - 1;
      RecentTwice(history[..n], now, later);
      if history[n].0 > now - TPS_WINDOW {
        assert Recent(history, now)[..|Recent(history, now)| - 1] == Recent(history[..n], now);
      } else {
        assert Recent(history, now) == Recent(history[..n], now);
      }
    }
  }

  lemma RecentAppend(history: seq<(real, nat)>, item: (real, nat), now: real)
    ensures Recent(history + [item], now) == Recent(history, now) + (if item.0 > now - TPS_WINDOW then [item] else [])
  {
    assert (history + [item])[..|history|] == history;
  }

  lemma TokensEffect(s: Store, c: Call)
    ensures c.op.RecordTokens? && c.op.count > 0 ==>
      Apply(s, c).tokens == Prune(s.tokens + [(c.now, c.op.count as nat)], c.now)
    ensures c.op.TakeSnapshot? ==> Apply(s, c).tokens == Prune(s.tokens, c.now)
    ensures c.op == SetPhase(Seeding) ==> Apply(s, c).tokens == []
    ensures !(c.op.RecordTokens? && c.op.count > 0) && !c.op.TakeSnapshot? && c.op != SetPhase(Seeding) ==>
      Apply(s, c).tokens == s.tokens
  {
    hide Written, Assign, FreshRoster, AllPending, Prune, Append;
  }

  lemma TokensStep(s: Store, spent: seq<(real, nat)>, c: Call, later: real)
    requires Stamped(s.tokens, c.now) && Stamped(spent, c.now) && c.now <= later
    requires Recent(s.tokens, later) == Recent(spent, later)
    ensures var next := Apply(s, c).tokens;
      && Stamped(next, later) && Stamped(SpentStep(spent, c), later)
      && Recent(next, later) == Recent(SpentStep(spent, c), later)
  {
    hide Apply, Prune, Recent;
    TokensEffect(s, c);
    if c.op.RecordTokens? && c.op.count > 0 {
      var item := (c.now, c.op.count as nat);
      PruneIsRecent(s.tokens + [item], c.now, c.now);
      RecentTwice(s.tokens + [item], c.now, later);
      RecentAppend(s.tokens, item, later);
      RecentAppend(spent, item, later);
    } else if c.op.TakeSnapshot? {
      PruneIsRecent(s.tokens, c.now, c.now);
      RecentTwice(s.tokens, c.now, later);
    }
  }

  /** Between calls the window has lost only tokens that are too old by then. */
  lemma {:induction false} WindowKeepsRecent(calls: seq<Call>, later: real)
    requires Ordered(calls) && forall i :: 0 <= i < |calls| ==> calls[i].now <= later
    ensures Stamped(After(calls).tokens, later) && Stamped(Spent(calls), later)
    ensures Recent(After(calls).tokens, later) == Recent(Spent(calls), later)
  {
    hide Apply, Recent, SpentStep;
    if calls != [] {
      var n := |calls| - 1;
      hide Stamped;
      WindowKeepsRecent(calls[..n], calls[n].now);
      WindowKeepsRecent(calls[..n], later);
      TokensStep(After(calls[..n]), Spent(calls[..n]), calls[n], later);
    }
  }

  /** A whole number of tokens over ten seconds has one decimal, so rounding loses nothing. */
  lemma RoundingIsExact(tokens: nat)
    ensures RoundToTenth(tokens as real / TPS_WINDOW) == tokens as real / TPS_WINDOW
  {
    var x := tokens as real / TPS_WINDOW;
    assert x * 10.0 == tokens as real;
    assert (x * 10.0).Floor == tokens;
  }

  /** The tps of a snapshot is the sum over the whole history of the last ten seconds, over ten. */
  lemma TpsIsExact(calls: seq<Call>, now: real)
    requires Ordered(calls) && forall i :: 0 <= i < |calls| ==> calls[i].now <= now
    ensures Tps(After(calls), now) == Total(Recent(Spent(calls), now)) as real / TPS_WINDOW
  {
    hide After, Spent, Prune, Recent, Total, RoundToTenth;
    WindowKeepsRecent(calls, now);
    RoundingIsExact(Total(Recent(Spent(calls), now)));
    PruneIsRecent(After(calls).tokens, now, now);
  }

  // ----- The elapsed clock -----

  ghost predicate ClockInv(s: Store, clock: real) {
    && (s.start.Some? ==> s.start.value <= clock)
    && (s.final.Some? ==> s.start.Some? && 0.0 <= s.final.value <= clock - s.start.value)
  }

  lemma ClockStep(s: Store, c: Call, clock: real)
    requires ClockInv(s, clock) && clock <= c.now
    ensures ClockInv(Apply(s, c), c.now)
    ensures c.op != SetPhase(Seeding) ==> Elapsed(s, c.now) <= Elapsed(Apply(s, c), c.now)
    ensures c.op == SetPhase(Seeding) ==> Elapsed(Apply(s, c), c.now) == 0.0
  {
    hide Written, Assign, FreshRoster, AllPending, Prune, Append;
  }

  ghost predicate NoSeeding(calls: seq<Call>) {
    forall i :: 0 <= i < |calls| ==> calls[i].op != SetPhase(Seeding)
  }

  lemma {:induction false} ClockInvAfter(calls: seq<Call>, now: real)
    requires Ordered(calls) && forall i :: 0 <= i < |calls| ==> calls[i].now <= now
    ensures ClockInv(After(calls), now)
  {
    hide Apply;
    if calls != [] {
      var n := |calls| - 1;
      ClockInvAfter(calls[..n], calls[n].now);
      ClockStep(After(calls[..n]), calls[n], calls[n].now);
    }
  }

  lemma {:induction false} ElapsedGrows(calls: seq<Call>, k: nat, t: real, now: real)
    requires k <= |calls| && Ordered(calls) && NoSeeding(calls[k..])
    requires t <= now && forall i :: 0 <= i < |calls| ==> calls[i].now <= now
    requires forall i :: 0 <= i < |calls| ==> if i < k then calls[i].now <= t else t <= calls[i].now
    ensures Elapsed(After(calls[..k]), t) <= Elapsed(After(calls), now)
    decreases |calls|
  {
    hide Apply, Elapsed;
    if k == |calls| {
      assert calls[..k] == calls;
      ClockInvAfter(calls, t);
      WaitOnly(After(calls), t, now);
    } else {
      var n := |calls| - 1;
      var c := calls[n];
      assert calls[k..][n - k] == c;
      assert calls[..n][..k] == calls[..k];
      assert forall i :: 0 <= i < n - k ==> calls[..n][k..][i] == calls[k..][i];
      ElapsedGrows(calls[..n], k, t, c.now);
      ClockInvAfter(calls[..n], c.now);
      ClockStep(After(calls[..n]), c, c.now);
      WaitOnly(After(calls), c.now, now);
    }
  }

  lemma WaitOnly(s: Store, t: real, now: real)
    requires ClockInv(s, t) && t <= now
    ensures 0.0 <= Elapsed(s, t) <= Elapsed(s, now)
  {
  }

  // ----- The roster -----

  function Ids(r: Roster): seq<string> {
    seq(|r|, i requires 0 <= i < |r| => r[i].0)
  }

  lemma {:induction false} AssignKeepsOrder(r: Roster, id: string, state: AgentState)
    ensures Ids(Assign(r, id, state)) == if id in Ids(r) then Ids(r) else Ids(r) + [id]
  {
    if r != [] {
      assert Ids(r) == [r[0].0] + Ids(r[1..]);
      if r[0].0 != id {
        AssignKeepsOrder(r[1..], id, state);
        var rest := Assign(r[1..], id, state);
        assert Ids([r[0]] + rest) == [r[0].0] + Ids(rest);
      } else {
        assert Ids([(id, state)] + r[1..]) == [id] + Ids(r[1..]);
      }
    }
  }

  /** `begin_run` installs the roster in order, each id once, all pending. */
  lemma {:induction false} BeginRunInstalls(ids: seq<string>)
    ensures Ids(FreshRoster(ids)) == Firsts(ids) && Distinct(Firsts(ids))
    ensures forall id :: id in Firsts(ids) <==> id in ids
    ensures forall i :: 0 <= i < |FreshRoster(ids)| ==> FreshRoster(ids)[i].1 == Pending
  {
    FirstsAreDistinct(ids);
    if ids != [] {
      var n := |ids| - 1;
      BeginRunInstalls(ids[..n]);
      AssignKeepsOrder(FreshRoster(ids[..n]), ids[n], Pending);
      AssignPending(FreshRoster(ids[..n]), ids[n]);
    }
  }

  lemma {:induction false} AssignPending(r: Roster, id: string)
    requires forall i :: 0 <= i < |r| ==> r[i].1 == Pending
    ensures forall i :: 0 <= i < |Assign(r, id, Pending)| ==> Assign(r, id, Pending)[i].1 == Pending
  {
    if r != [] && r[0].0 != id {
      AssignPending(r[1..], id);
    }
  }

  ghost predicate UpdatesOnly(calls: seq<Call>, roster: seq<string>) {
    forall i :: 0 <= i < |calls| ==>
      !calls[i].op.BeginRun? && (calls[i].op.UpdateAgent? ==> calls[i].op.id in roster)
  }

  lemma RosterEffect(s: Store, c: Call)
    requires !c.op.BeginRun? && (c.op.UpdateAgent? ==> c.op.id in Ids(s.roster))
    ensures Ids(Apply(s, c).roster) == Ids(s.roster)
  {
    hide Written, Assign, FreshRoster, Prune, Append;
    if c.op.UpdateAgent? {
      AssignKeepsOrder(s.roster, c.op.id, Decided(c.op.signal, c.op.confidence));
    }
  }

  /** From `begin_run` on, every snapshot lists the same agents in the same order, however the
      phases change, as long as only roster agents decide. */
  lemma {:induction false} RosterIsStable(calls: seq<Call>, k: nat, ids: seq<string>)
    requires k < |calls| && calls[k].op == BeginRun(ids) && UpdatesOnly(calls[k + 1..], Firsts(ids))
    ensures Ids(After(calls).roster) == Firsts(ids) && Distinct(Firsts(ids))
    decreases |calls|
  {
    hide Apply;
    FirstsAreDistinct(ids);
    var n := |calls| - 1;
    if k == n {
      BeginRunInstalls(ids);
      BeginRunEffect(After(calls[..n]), calls[n]);
      assert Apply(After(calls[..n]), calls[n]).roster == FreshRoster(ids);
    } else {
      assert calls[k + 1..][n - k - 1] == calls[n];
      assert calls[..n][k + 1..] == calls[k + 1..][..n - k - 1];
      RosterIsStable(calls[..n], k, ids);
      RosterEffect(After(calls[..n]), calls[n]);
    }
  }

  lemma BeginRunEffect(s: Store, c: Call)
    requires c.op.BeginRun?
    ensures Apply(s, c).roster == FreshRoster(c.op.ids)
  {
  }
}
