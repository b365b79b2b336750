/** src/alphaswarm/state.py as classes: the same fields, updated in place, each method proved to do
    what StoreModel says. */
module StateStoreClass {
  import opened Common
  import opened StoreModel

  /** The process-wide `itertools.count(1)`. */
  class VersionCounter {
    var next: nat

    constructor ()
      ensures next == 1
    {
      next := 1;
    }

    method Draw() returns (version: nat)
      modifies this
      ensures version == old(next) && next == version + 1
    {
      version := next;
      next := next + 1;
    }
  }

  class StateStore {
    const versions: VersionCounter
    var version: nat
    var roster: Roster
    var phase: Phase
    var panel: Panel
    var start: Option<real>
    var final: Option<real>
    var window: seq<Entry>
    var audit: seq<Source>
    var tokens: seq<(real, nat)>
    var applied: seq<Shock>
    var pushes: nat

    function View(): Store
      reads this
    {
      Store(roster, phase, panel, start, final, window, audit, tokens, applied, pushes)
    }

    /** The effect of `op`: the new fields, and a new version exactly when the call takes one. */
    twostate predicate Did(op: Op, now: real)
      reads this, versions
    {
      && View() == Apply(old(View()), Call(op, now))
      && version == (if Bumps(op) then old(versions.next) else old(version))
      && versions.next == old(versions.next) + (if Bumps(op) then 1 else 0)
    }

    constructor (versions: VersionCounter)
      modifies versions
      ensures this.versions == versions && View() == NewStore()
      ensures version == old(versions.next) && versions.next == version + 1
    {
      this.versions := versions;
      roster, phase, start, final := [], Idle, None, None;
      panel := Panel(0, None, "", None, IDLE_JOB, IDLE_JOB, 3, None, None, 0);
      window, audit, tokens, applied, pushes := [], [], [], [], 0;
      new;
      Bump();
    }

    method Bump()
      modifies `version, versions
      ensures version == old(versions.next) && versions.next == version + 1
    {
      version := versions.Draw();
    }

    method UpdateAgentState(id: string, signal: Signal, confidence: real, ghost now: real)
      modifies this, versions
      ensures Did(UpdateAgent(id, signal, confidence), now)
    {
      roster := Assign(roster, id, Decided(signal, confidence));
      Bump();
    }

    method BeginRun(ids: seq<string>, ghost now: real)
      modifies this, versions
      ensures Did(Op.BeginRun(ids), now)
    {
      roster := FreshRoster(ids);
      Bump();
    }

    method SetPhase(next: Phase, now: real)
      modifies this, versions
      ensures Did(Op.SetPhase(next), now)
    {
      hide AllPending, Seeded, Timed;
      phase := next;
      if next == Seeding {
        StartRun(now);
      }
      if next == Round1 || next == Round2 || next == Round3 {
        roster := AllPending(roster);
      }
      RunClock(next, now);
      Bump();
    }

    method StartRun(now: real)
      modifies `start, `final, `tokens, `panel, `window, `audit, `applied, `roster
      ensures View() == Seeded(old(View()), now)
    {
      hide AllPending;
      start := Some(now);
      final := None;
      tokens := [];
      panel := panel.(summaries := "", cycle := None, edges := 0);
      window := [];
      audit := [];
      applied := [];
      roster := AllPending(roster);
    }

    method RunClock(next: Phase, now: real)
      modifies `start, `final
      ensures View() == Timed(old(View()), next, now)
    {
      if start == None && next != Idle && next != Replay {
        start := Some(now);
      }
      if next == Complete && start.Some? {
        final := Some(now - start.value);
      }
    }

    /** Any of the one-line setters. */
    method Set(setter: Setter, ghost now: real)
      modifies this, versions
      ensures Did(Write(setter), now)
    {
      panel := Written(panel, setter);
      Bump();
    }

    method PushRationale(entry: Entry, ts: real, ghost now: real)
      modifies this, versions
      ensures Did(Op.PushRationale(entry, ts), now)
    {
      pushes := pushes + 1;
      window := Append(window, entry.(number := pushes, ts := ts), RATIONALE_MAX);
      Bump();
    }

    method RecordTokens(count: int, now: real)
      modifies this, versions
      ensures Did(Op.RecordTokens(count), now)
    {
      if count <= 0 {
        return;
      }
      tokens := tokens + [(now, count as nat)];
      PruneTokenWindow(now);
      Bump();
    }

    method PruneTokenWindow(now: real)
      modifies `tokens
      ensures tokens == Prune(old(tokens), now)
    {
      var cutoff := now - TPS_WINDOW;
      while tokens != [] && tokens[0].0 <= cutoff
        invariant Prune(tokens, now) == Prune(old(tokens), now)
        decreases |tokens|
      {
        tokens := tokens[1..];
      }
    }

    method RecordAppliedShock(text: string, round: int, ghost now: real)
      modifies this, versions
      ensures Did(RecordShock(text, round), now)
    {
      applied := applied + [Shock(text, round)];
      Bump();
    }

    /** `ok` is false when the audit buffer takes the result for a secret and raises. */
    method RecordDataSource(entry: Source, ghost now: real) returns (ok: bool)
      modifies this, versions
      ensures Did(RecordSource(entry), now) && ok == !LooksSecret(entry.result)
    {
      hide LooksSecret;
      if LooksSecret(entry.result) {
        return false;
      }
      audit := Append(audit, entry, AUDIT_MAX);
      Bump();
      return true;
    }

    /** Peeks at every field; prunes the token window on the way. */
    method Snapshot(now: real) returns (frame: Frame, elapsed: real, tps: real)
      modifies `tokens
      ensures Did(TakeSnapshot, now)
      ensures frame == Visible(View()) == Visible(old(View()))
      ensures elapsed == Elapsed(old(View()), now) && tps == Tps(old(View()), now)
    {
      elapsed := if final.Some? then final.value
                 else if start.Some? && start.value != 0.0 then now - start.value
                 else 0.0;
      PruneTokenWindow(now);
      var sum := 0;
      for i := 0 to |tokens|
        invariant sum == Total(tokens[..i])
      {
        assert tokens[..i + 1][..i] == tokens[..i];
        sum := sum + tokens[i].1;
      }
      assert tokens[..|tokens|] == tokens;
      tps := RoundToTenth(sum as real / TPS_WINDOW);
      frame := Frame(roster, phase, panel, window, audit, applied, WindowOpen(phase, panel.numRounds));
    }
  }
}
