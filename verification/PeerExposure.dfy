/** `compute_exposure_metrics` of src/alphaswarm/peers.py: a round's exposure counts, and that
    no shown peer is lost or counted twice between the brackets. */
module PeerExposure {
  import opened Common
  import opened PeerSelection
  import opened PeerRounds

  /** How many of the shown peers belong to bracket `b`. */
  function SlotsIn(shown: seq<string>, bracketOf: map<string, string>, b: string): nat {
    if shown == [] then 0
    else
      var n := |shown| - 1;
      SlotsIn(shown[..n], bracketOf, b) + (if shown[n] in bracketOf && bracketOf[shown[n]] == b then 1 else 0)
  }

  function TotalSlots(exposures: seq<seq<string>>, bracketOf: map<string, string>, b: string): nat {
    if exposures == [] then 0
    else TotalSlots(exposures[..|exposures| - 1], bracketOf, b) + SlotsIn(exposures[|exposures| - 1], bracketOf, b)
  }

  /** How many readers saw somebody of bracket `b`. */
  function ReadersSeeing(exposures: seq<seq<string>>, bracketOf: map<string, string>, b: string): nat {
    if exposures == [] then 0
    else
      var n := |exposures| - 1;
      ReadersSeeing(exposures[..n], bracketOf, b) + (if SlotsIn(exposures[n], bracketOf, b) > 0 then 1 else 0)
  }

  function OnRoster(exposures: seq<seq<string>>, bracketOf: map<string, string>): set<string> {
    set i, k | 0 <= i < |exposures| && 0 <= k < |exposures[i]| && exposures[i][k] in bracketOf :: exposures[i][k]
  }

  /** Counts one reader: a slot per shown peer, and the brackets seen. */
  method CountReader(shown: seq<string>, bracketOf: map<string, string>, slots: map<string, nat>, distinct: set<string>)
    returns (slots': map<string, nat>, seen: set<string>, distinct': set<string>)
    requires bracketOf.Values <= slots.Keys
    ensures slots'.Keys == slots.Keys
    ensures forall b :: b in slots ==> slots'[b] == slots[b] + SlotsIn(shown, bracketOf, b)
    ensures seen <= slots.Keys && forall b :: b in slots ==> (b in seen <==> SlotsIn(shown, bracketOf, b) > 0)
    ensures distinct' == distinct + (set x | x in shown && x in bracketOf)
  {
    slots', seen, distinct' := slots, {}, distinct;
    for k := 0 to |shown|
      invariant slots'.Keys == slots.Keys
      invariant forall b :: b in slots ==> slots'[b] == slots[b] + SlotsIn(shown[..k], bracketOf, b)
      invariant seen <= slots.Keys && forall b :: b in slots ==> (b in seen <==> SlotsIn(shown[..k], bracketOf, b) > 0)
      invariant distinct' == distinct + (set x | x in shown[..k] && x in bracketOf)
    {
      assert shown[..k + 1][..k] == shown[..k];
      var x := shown[k];
      if x in bracketOf {
        var b := bracketOf[x];
        assert b in bracketOf.Values;
        slots' := slots'[b := slots'[b] + 1];
        seen := seen + {b};
        distinct' := distinct' + {x};
      }
    }
    assert shown[..|shown|] == shown;
  }

  lemma RosterBrackets(ps: seq<Persona>)
    ensures IdBrackets(ps).Values <= AsSet(Brackets(ps))
  {
    var m := IdBrackets(ps);
    forall b | b in m.Values ensures b in AsSet(Brackets(ps)) {
      var x :| x in m && m[x] == b;
      var i :| 0 <= i < |ps| && ps[i].id == x && ps[i].bracket == m[x];
    }
  }

  method ComputeExposureMetrics(exposures: seq<seq<string>>, ps: seq<Persona>)
    returns (slots: map<string, nat>, readers: map<string, nat>, distinct: nat)
    ensures slots.Keys == readers.Keys == AsSet(Brackets(ps))
    ensures forall b :: b in slots ==> slots[b] == TotalSlots(exposures, IdBrackets(ps), b)
    ensures forall b :: b in readers ==> readers[b] == ReadersSeeing(exposures, IdBrackets(ps), b)
    ensures distinct == |OnRoster(exposures, IdBrackets(ps))|
  {
    hide IdBrackets, Brackets;
    RosterBrackets(ps);
    slots, readers, distinct := CountRound(exposures, IdBrackets(ps), Brackets(ps));
  }

  method CountRound(exposures: seq<seq<string>>, bracketOf: map<string, string>, brackets: seq<string>)
    returns (slots: map<string, nat>, readers: map<string, nat>, distinct: nat)
    requires bracketOf.Values <= AsSet(brackets)
    ensures slots.Keys == readers.Keys == AsSet(brackets)
    ensures forall b :: b in slots ==> slots[b] == TotalSlots(exposures, bracketOf, b)
    ensures forall b :: b in readers ==> readers[b] == ReadersSeeing(exposures, bracketOf, b)
    ensures distinct == |OnRoster(exposures, bracketOf)|
  {
    hide OnRoster, TotalSlots, ReadersSeeing, SlotsIn;
    slots := map b | b in brackets :: 0;
    readers := map b | b in brackets :: 0;
    var shownPeers: set<string> := {};
    NoReadersYet(bracketOf);
    assert exposures[..0] == [];
    for i := 0 to |exposures|
      invariant slots.Keys == readers.Keys == AsSet(brackets)
      invariant forall b :: b in slots ==> slots[b] == TotalSlots(exposures[..i], bracketOf, b)
      invariant forall b :: b in readers ==> readers[b] == ReadersSeeing(exposures[..i], bracketOf, b)
      invariant shownPeers == OnRoster(exposures[..i], bracketOf)
    {
      OneMoreReader(exposures, bracketOf, i);
      var seen;
      slots, seen, shownPeers := CountReader(exposures[i], bracketOf, slots, shownPeers);
      readers := map b | b in readers :: readers[b] + (if b in seen then 1 else 0);
    }
    assert exposures[..|exposures|] == exposures;
    distinct := |shownPeers|;
  }

  lemma NoReadersYet(bracketOf: map<string, string>)
    ensures OnRoster([], bracketOf) == {}
    ensures forall b :: TotalSlots([], bracketOf, b) == 0 && ReadersSeeing([], bracketOf, b) == 0
  {
  }

  lemma OneMoreReader(exposures: seq<seq<string>>, bracketOf: map<string, string>, i: nat)
    requires i < |exposures|
    ensures OnRoster(exposures[..i + 1], bracketOf)
      == OnRoster(exposures[..i], bracketOf) + (set x | x in exposures[i] && x in bracketOf)
    ensures forall b ::
      TotalSlots(exposures[..i + 1], bracketOf, b) == TotalSlots(exposures[..i], bracketOf, b)
        + SlotsIn(exposures[i], bracketOf, b)
    ensures forall b ::
      ReadersSeeing(exposures[..i + 1], bracketOf, b)
        == ReadersSeeing(exposures[..i], bracketOf, b) + (if SlotsIn(exposures[i], bracketOf, b) > 0 then 1 else 0)
  {
    var a, b := exposures[..i], exposures[..i + 1];
    assert b[..i] == a;
    forall x | x in OnRoster(b, bracketOf)
      ensures x in OnRoster(a, bracketOf) + (set x | x in exposures[i] && x in bracketOf)
    {
      var j, k :| 0 <= j < |b| && 0 <= k < |b[j]| && b[j][k] in bracketOf && b[j][k] == x;
      if j < i {
        assert a[j] == b[j];
      } else {
        assert b[j] == exposures[i];
      }
    }
    forall x | x in OnRoster(a, bracketOf) ensures x in OnRoster(b, bracketOf) {
      var j, k :| 0 <= j < |a| && 0 <= k < |a[j]| && a[j][k] in bracketOf && a[j][k] == x;
      assert b[j] == a[j];
    }
    forall x | x in exposures[i] && x in bracketOf ensures x in OnRoster(b, bracketOf) {
      var k :| 0 <= k < |exposures[i]| && exposures[i][k] == x;
      assert b[i] == exposures[i];
    }
  }

  // ----- Conservation -----

  function SumOver(bs: seq<string>, exposures: seq<seq<string>>, bracketOf: map<string, string>): nat {
    if bs == [] then 0
    else SumOver(bs[..|bs| - 1], exposures, bracketOf) + TotalSlots(exposures, bracketOf, bs[|bs| - 1])
  }

  /** How many of the shown peers are on the roster. */
  function Known(shown: seq<string>, bracketOf: map<string, string>): nat {
    if shown == [] then 0
    else Known(shown[..|shown| - 1], bracketOf) + (if shown[|shown| - 1] in bracketOf then 1 else 0)
  }

  /** All slots of the round that a roster peer filled. */
  function Shown(exposures: seq<seq<string>>, bracketOf: map<string, string>): nat {
    if exposures == [] then 0
    else Shown(exposures[..|exposures| - 1], bracketOf) + Known(exposures[|exposures| - 1], bracketOf)
  }

  function ReaderSum(bs: seq<string>, shown: seq<string>, bracketOf: map<string, string>): nat {
    if bs == [] then 0 else ReaderSum(bs[..|bs| - 1], shown, bracketOf) + SlotsIn(shown, bracketOf, bs[|bs| - 1])
  }

  /** Appending one shown peer adds one slot, to its own bracket only. */
  lemma {:induction false} OnePeerOneSlot(bs: seq<string>, shown: seq<string>, x: string,
      bracketOf: map<string, string>)
    requires Distinct(bs)
    ensures ReaderSum(bs, shown + [x], bracketOf)
      == ReaderSum(bs, shown, bracketOf) + (if x in bracketOf && bracketOf[x] in bs then 1 else 0)
  {
    if bs != [] {
      var n := |bs| - 1;
      OnePeerOneSlot(bs[..n], shown, x, bracketOf);
      assert (shown + [x])[..|shown|] == shown;
      assert bs == bs[..n] + [bs[n]];
    }
  }

  lemma {:induction false} ReaderConserved(bs: seq<string>, shown: seq<string>, bracketOf: map<string, string>)
    requires Distinct(bs) && bracketOf.Values <= AsSet(bs)
    ensures ReaderSum(bs, shown, bracketOf) == Known(shown, bracketOf)
  {
    if shown == [] {
      NoSlots(bs, bracketOf);
    } else {
      var n := |shown| - 1;
      ReaderConserved(bs, shown[..n], bracketOf);
      OnePeerOneSlot(bs, shown[..n], shown[n], bracketOf);
      assert shown == shown[..n] + [shown[n]];
      assert shown[n] in bracketOf ==> bracketOf[shown[n]] in bracketOf.Values;
    }
  }

  lemma {:induction false} NoSlots(bs: seq<string>, bracketOf: map<string, string>)
    ensures ReaderSum(bs, [], bracketOf) == 0
  {
    if bs != [] {
      NoSlots(bs[..|bs| - 1], bracketOf);
    }
  }

  lemma {:induction false} SplitLastReader(bs: seq<string>, exposures: seq<seq<string>>, bracketOf: map<string, string>)
    requires exposures != []
    ensures SumOver(bs, exposures, bracketOf)
      == SumOver(bs, exposures[..|exposures| - 1], bracketOf) + ReaderSum(bs, exposures[|exposures| - 1], bracketOf)
  {
    if bs != [] {
      SplitLastReader(bs[..|bs| - 1], exposures, bracketOf);
    }
  }

  lemma {:induction false} NoReaders(bs: seq<string>, bracketOf: map<string, string>)
    ensures SumOver(bs, [], bracketOf) == 0
  {
    if bs != [] {
      NoReaders(bs[..|bs| - 1], bracketOf);
    }
  }

  /** The bracket slots add up to the number of roster peers shown. */
  lemma {:induction false} ExposureConserved(ps: seq<Persona>, exposures: seq<seq<string>>)
    ensures SumOver(Brackets(ps), exposures, IdBrackets(ps)) == Shown(exposures, IdBrackets(ps))
  {
    hide IdBrackets, Brackets;
    if exposures == [] {
      NoReaders(Brackets(ps), IdBrackets(ps));
    } else {
      var n := |exposures| - 1;
      ExposureConserved(ps, exposures[..n]);
      SplitLastReader(Brackets(ps), exposures, IdBrackets(ps));
      RosterBrackets(ps);
      ReaderConserved(Brackets(ps), exposures[n], IdBrackets(ps));
    }
  }

  /** Everybody a reader of the round is shown is on the roster, so no shown peer is lost: the bracket
      slots add up to the lengths of the exposures. */
  lemma RoundSlotsAddUp(inp: Inputs, blocks: seq<Option<string>>, exposures: seq<seq<string>>)
    requires |blocks| == |exposures| == |inp.personas|
    requires forall i :: 0 <= i < |exposures| ==>
      ReaderOk(inp.personas[i].id, inp.personas, inp.prev, inp.sim, blocks[i], exposures[i])
    ensures SumOver(Brackets(inp.personas), exposures, IdBrackets(inp.personas)) == Lengths(exposures)
  {
    ExposureConserved(inp.personas, exposures);
    var m := IdBrackets(inp.personas);
    forall i, k | 0 <= i < |exposures| && 0 <= k < |exposures[i]| ensures exposures[i][k] in m {
      assert ReaderOk(inp.personas[i].id, inp.personas, inp.prev, inp.sim, blocks[i], exposures[i]);
      assert exposures[i][k] in exposures[i];
    }
    AllOnRoster(exposures, m);
  }

  function Lengths(exposures: seq<seq<string>>): nat {
    if exposures == [] then 0 else Lengths(exposures[..|exposures| - 1]) + |exposures[|exposures| - 1]|
  }

  lemma {:induction false} AllOnRoster(exposures: seq<seq<string>>, bracketOf: map<string, string>)
    requires forall i, k :: 0 <= i < |exposures| && 0 <= k < |exposures[i]| ==> exposures[i][k] in bracketOf
    ensures Shown(exposures, bracketOf) == Lengths(exposures)
  {
    if exposures != [] {
      var n := |exposures| - 1;
      AllOnRoster(exposures[..n], bracketOf);
      AllKnown(exposures[n], bracketOf);
    }
  }

  lemma {:induction false} AllKnown(shown: seq<string>, bracketOf: map<string, string>)
    requires forall k :: 0 <= k < |shown| ==> shown[k] in bracketOf
    ensures Known(shown, bracketOf) == |shown|
  {
    if shown != [] {
      AllKnown(shown[..|shown| - 1], bracketOf);
    }
  }
}
