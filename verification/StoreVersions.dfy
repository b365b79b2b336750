/** Version numbers drawn from one counter by every store of the process (src/alphaswarm/state.py):
    equal versions mean one store and one visible state. */
module StoreVersions {
  import opened Common
  import opened StoreModel

  /** A store of either class. */
  datatype AnyStore = Live(store: Store) | Replaying(replayed: Replayed)

  datatype AnyCall = LiveCall(call: Call) | ReplayCall(op: ReplayOp)

  datatype Slot = Slot(store: AnyStore, version: nat)

  /** Every store made so far, of either class, and the next value of the counter. */
  datatype Process = Process(slots: seq<Slot>, next: nat)

  datatype Event =
    | CreateLive
    | CreateReplay(cycle: string, rounds: int, signals: seq<((string, int), AgentState)>)
    | On(index: nat, call: AnyCall)

  const BOOT := Process([], 1)

  /** Every field of a snapshot except elapsed time and tps. */
  function ViewOf(s: AnyStore): Frame {
    match s
    case Live(store) => Visible(store)
    case Replaying(replayed) => ReplayFrame(replayed)
  }

  function ApplyAny(s: AnyStore, c: AnyCall): AnyStore {
    if s.Live? && c.LiveCall? then Live(Apply(s.store, c.call))
    else if s.Replaying? && c.ReplayCall? then Replaying(ApplyReplay(s.replayed, c.op))
    else s
  }

  predicate Draws(s: AnyStore, c: AnyCall) {
    if s.Live? && c.LiveCall? then Bumps(c.call.op)
    else s.Replaying? && c.ReplayCall? && !c.op.ReplaySnapshot?
  }

  /** A replay store takes a version for everything but a snapshot. */
  lemma ReplayDrawsExactly(s: Replayed, op: ReplayOp)
    ensures Draws(Replaying(s), ReplayCall(op)) <==> op != ReplaySnapshot
  {
  }

  function CallSlot(slot: Slot, call: AnyCall, next: nat): Slot {
    Slot(ApplyAny(slot.store, call), if Draws(slot.store, call) then next else slot.version)
  }

  function Step(p: Process, e: Event): Process {
    match e
    case CreateLive => Process(p.slots + [Slot(Live(NewStore()), p.next)], p.next + 1)
    case CreateReplay(cycle, rounds, signals) =>
      Process(p.slots + [Slot(Replaying(NewReplay(cycle, rounds, signals)), p.next)], p.next + 1)
    case On(i, call) =>
      if i >= |p.slots| then p
      else Process(p.slots[i := CallSlot(p.slots[i], call, p.next)],
                   if Draws(p.slots[i].store, call) then p.next + 1 else p.next)
  }

  function At(events: seq<Event>, n: nat): Process
    requires n <= |events|
  {
    if n == 0 then BOOT else Step(At(events, n - 1), events[n - 1])
  }

  /** A call that takes no version changes nothing a snapshot shows. */
  lemma QuietCallsAreInvisible(s: AnyStore, c: AnyCall)
    requires !Draws(s, c)
    ensures ViewOf(ApplyAny(s, c)) == ViewOf(s)
  {
  }

  ghost predicate Distinct(p: Process) {
    && (forall i :: 0 <= i < |p.slots| ==> p.slots[i].version < p.next)
    && forall i, j :: 0 <= i < j < |p.slots| ==> p.slots[i].version != p.slots[j].version
  }

  /** What `later` may still share with `p`: a store keeps its version and view, or has a newer one. */
  ghost predicate Follows(p: Process, later: Process) {
    && |p.slots| <= |later.slots| && p.next <= later.next
    && (forall i :: 0 <= i < |p.slots| ==>
          later.slots[i].version >= p.next
          || (later.slots[i].version == p.slots[i].version && ViewOf(later.slots[i].store) == ViewOf(p.slots[i].store)))
    && forall i :: |p.slots| <= i < |later.slots| ==> later.slots[i].version >= p.next
  }

  lemma DistinctStep(p: Process, e: Event)
    requires Distinct(p)
    ensures Distinct(Step(p, e))
  {
    hide ApplyAny, Draws, ViewOf, NewStore, NewReplay;
  }

  lemma FollowsStep(p: Process, later: Process, e: Event)
    requires Follows(p, later)
    ensures Follows(p, Step(later, e))
  {
    hide ApplyAny, Draws, ViewOf, NewStore, NewReplay;
    if e.On? && e.index < |later.slots| && !Draws(later.slots[e.index].store, e.call) {
      QuietCallsAreInvisible(later.slots[e.index].store, e.call);
    }
  }

  lemma {:induction false} DistinctAt(events: seq<Event>, n: nat)
    requires n <= |events|
    ensures Distinct(At(events, n))
  {
    hide Step;
    if n > 0 {
      DistinctAt(events, n - 1);
      DistinctStep(At(events, n - 1), events[n - 1]);
    } else {
      assert BOOT.slots == [];
    }
  }

  lemma {:induction false} FollowsAt(events: seq<Event>, m: nat, n: nat)
    requires m <= n <= |events|
    ensures Follows(At(events, m), At(events, n))
    decreases n
  {
    hide Step, ViewOf;
    if m < n {
      FollowsAt(events, m, n - 1);
      FollowsStep(At(events, m), At(events, n - 1), events[n - 1]);
    }
  }

  /** Over any life of the process: one version is never seen on two stores, and two snapshots of
      a store at one version agree on every field but elapsed time and tps. */
  lemma VersionNamesOneView(events: seq<Event>, m: nat, n: nat, i: nat, j: nat)
    requires m <= n <= |events| && i < |At(events, m).slots| && j < |At(events, n).slots|
    requires At(events, m).slots[i].version == At(events, n).slots[j].version
    ensures i == j && ViewOf(At(events, m).slots[i].store) == ViewOf(At(events, n).slots[j].store)
  {
    hide At, ViewOf;
    DistinctAt(events, m);
    FollowsAt(events, m, n);
  }

  /** A call that takes a version moves its store past every version drawn before. */
  lemma VersionsGrow(events: seq<Event>, m: nat, n: nat, i: nat)
    requires m < n <= |events| && i < |At(events, m).slots|
    requires events[n - 1].On? && events[n - 1].index == i
    requires i < |At(events, n - 1).slots| && Draws(At(events, n - 1).slots[i].store, events[n - 1].call)
    ensures i < |At(events, n).slots| && At(events, n).slots[i].version > At(events, m).slots[i].version
  {
    hide ApplyAny, Draws, ViewOf;
    DistinctAt(events, m);
    FollowsAt(events, m, n - 1);
  }

  // ----- One store's life -----

  /** The calls made on live store `i`. */
  function CallsOn(events: seq<Event>, n: nat, i: nat): seq<Call>
    requires n <= |events|
  {
    if n == 0 then []
    else
      var e := events[n - 1];
      CallsOn(events, n - 1, i)
        + (if e.On? && e.index == i && e.call.LiveCall? && i < |At(events, n - 1).slots| then [e.call.call] else [])
  }

  lemma LiveAfter(p: Process, e: Event, i: nat)
    ensures var q := Step(p, e);
      && |p.slots| <= |q.slots|
      && (i < |q.slots| && q.slots[i].store.Live? ==>
            q.slots[i].store.store ==
              if i >= |p.slots| then NewStore()
              else if e.On? && e.index == i && e.call.LiveCall? then Apply(p.slots[i].store.store, e.call.call)
              else p.slots[i].store.store)
      && (i < |p.slots| ==> (q.slots[i].store.Live? <==> p.slots[i].store.Live?))
  {
    hide Apply, ApplyReplay, Draws, NewReplay, NewStore;
  }

  /** Stores do not interfere: each live store is what its own calls made of it. */
  lemma {:induction false} StoresAreSeparate(events: seq<Event>, n: nat, i: nat)
    requires n <= |events|
    ensures i < |At(events, n).slots| && At(events, n).slots[i].store.Live? ==>
      At(events, n).slots[i].store.store == After(CallsOn(events, n, i))
    ensures i >= |At(events, n).slots| ==> CallsOn(events, n, i) == []
  {
    hide Apply, Step, CallSlot;
    if n > 0 {
      StoresAreSeparate(events, n - 1, i);
      var e, p := events[n - 1], At(events, n - 1);
      LiveAfter(p, e, i);
      if e.On? && e.index == i && e.call.LiveCall? && i < |p.slots| {
        assert CallsOn(events, n, i)[..|CallsOn(events, n, i)| - 1] == CallsOn(events, n - 1, i);
      } else {
        assert CallsOn(events, n, i) == CallsOn(events, n - 1, i);
      }
    }
  }
}
