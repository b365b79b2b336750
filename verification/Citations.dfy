/** `filter_citations` of src/alphaswarm/metrics.py: only peers the reader was shown may be cited,
    each once. `norm` stands for stripping and lower-casing an id. */
module Citations {
  import opened Common

  /** The shown ids by normalized id; the last one wins. */
  function Canonical(shown: seq<string>, norm: string -> string): (m: map<string, string>)
    ensures forall k :: k in m ==> m[k] in shown && norm(m[k]) == k
    ensures forall i :: 0 <= i < |shown| ==> norm(shown[i]) in m
  {
    if shown == [] then map[]
    else
      var n := |shown| - 1;
      assert shown == shown[..n] + [shown[n]];
      Canonical(shown[..n], norm)[norm(shown[n]) := shown[n]]
  }

  /** The first mention of a shown peer other than the reader. */
  predicate Counts(cited: seq<string>, i: int, shown: map<string, string>, self: string, norm: string -> string) {
    && 0 <= i < |cited| && norm(cited[i]) != norm(self) && norm(cited[i]) in shown
    && forall j :: 0 <= j < i ==> norm(cited[j]) != norm(cited[i])
  }

  /** The shown ids of the citations that count, in order of mention. */
  function Surviving(cited: seq<string>, shown: map<string, string>, self: string,
      norm: string -> string): seq<string> {
    if cited == [] then []
    else
      var n := |cited| - 1;
      Surviving(cited[..n], shown, self, norm)
        + (if Counts(cited, n, shown, self, norm) then [shown[norm(cited[n])]] else [])
  }

  method FilterCitations(cited: seq<string>, shown: seq<string>, self: string, norm: string -> string)
    returns (kept: seq<string>, dropped: nat)
    ensures kept == Surviving(cited, Canonical(shown, norm), self, norm)
    ensures |kept| + dropped == |cited|
  {
    hide Canonical;
    var canonical := Canonical(shown, norm);
    kept := [];
    var seen: set<string> := {};
    for i := 0 to |cited|
      invariant kept == Surviving(cited[..i], canonical, self, norm) && |kept| <= i
      invariant forall k :: k in seen <==>
        k != norm(self) && k in canonical && exists j :: 0 <= j < i && norm(cited[j]) == k
    {
      assert cited[..i + 1][..i] == cited[..i];
      var key := norm(cited[i]);
      assert Counts(cited[..i + 1], i, canonical, self, norm)
        <==> !(key == norm(self) || key in seen || key !in canonical);
      if !(key == norm(self) || key in seen || key !in canonical) {
        seen := seen + {key};
        kept := kept + [canonical[key]];
      }
    }
    assert cited[..|cited|] == cited;
    dropped := |cited| - |kept|;
  }

  predicate Mentioned(cited: seq<string>, key: string, norm: string -> string) {
    exists j :: 0 <= j < |cited| && norm(cited[j]) == key
  }

  /** Shown peers in their shown spelling, none of them the reader, no two the same id. */
  ghost predicate ValidList(kept: seq<string>, shown: map<string, string>, self: string, norm: string -> string) {
    && (forall i :: 0 <= i < |kept| ==> ValidPeer(kept[i], shown, self, norm))
    && forall i, j :: 0 <= i < j < |kept| ==> norm(kept[i]) != norm(kept[j])
  }

  predicate ValidPeer(id: string, shown: map<string, string>, self: string, norm: string -> string) {
    norm(id) != norm(self) && norm(id) in shown && shown[norm(id)] == id
  }

  /** What survives is valid and was mentioned. */
  lemma {:induction false} SurvivorsAreValid(cited: seq<string>, shown: map<string, string>, self: string,
      norm: string -> string)
    requires forall k :: k in shown ==> norm(shown[k]) == k
    ensures var kept := Surviving(cited, shown, self, norm);
      ValidList(kept, shown, self, norm) && forall i :: 0 <= i < |kept| ==> Mentioned(cited, norm(kept[i]), norm)
  {
    if cited != [] {
      var n := |cited| - 1;
      var before := Surviving(cited[..n], shown, self, norm);
      SurvivorsAreValid(cited[..n], shown, self, norm);
      forall i | 0 <= i < |before|
        ensures Mentioned(cited, norm(before[i]), norm)
        ensures Counts(cited, n, shown, self, norm) ==> norm(before[i]) != norm(cited[n])
      {
        assert Mentioned(cited[..n], norm(before[i]), norm);
        var j :| 0 <= j < n && norm(cited[..n][j]) == norm(before[i]);
        assert norm(cited[j]) == norm(before[i]);
      }
      assert Mentioned(cited, norm(cited[n]), norm);
    }
  }

  lemma {:induction false} NothingToDrop(kept: seq<string>, shown: map<string, string>, self: string,
      norm: string -> string)
    requires ValidList(kept, shown, self, norm)
    ensures Surviving(kept, shown, self, norm) == kept
  {
    if kept != [] {
      var n := |kept| - 1;
      NothingToDrop(kept[..n], shown, self, norm);
      assert ValidPeer(kept[n], shown, self, norm);
      assert kept == kept[..n] + [kept[n]];
    }
  }

  /** Filtering filtered citations drops nothing more. */
  lemma FilterTwice(cited: seq<string>, shown: seq<string>, self: string, norm: string -> string)
    ensures var kept := Surviving(cited, Canonical(shown, norm), self, norm);
      Surviving(kept, Canonical(shown, norm), self, norm) == kept
  {
    hide Canonical, Surviving, Counts, ValidList, Mentioned;
    SurvivorsAreValid(cited, Canonical(shown, norm), self, norm);
    NothingToDrop(Surviving(cited, Canonical(shown, norm), self, norm), Canonical(shown, norm), self, norm);
  }

  /** Every shown peer the reader cites, in any spelling, survives. */
  lemma {:induction false} EveryShownCitationSurvives(cited: seq<string>, i: nat, shown: seq<string>, self: string,
      norm: string -> string)
    requires i < |cited| && norm(cited[i]) != norm(self) && norm(cited[i]) in Canonical(shown, norm)
    ensures Canonical(shown, norm)[norm(cited[i])] in Surviving(cited, Canonical(shown, norm), self, norm)
    decreases |cited|, i
  {
    hide Canonical;
    var n := |cited| - 1;
    if i < n {
      assert cited[..n][i] == cited[i];
      EveryShownCitationSurvives(cited[..n], i, shown, self, norm);
    } else if j :| 0 <= j < i && norm(cited[j]) == norm(cited[i]) {
      EveryShownCitationSurvives(cited, j, shown, self, norm);
    }
  }

  // ----- Order and spelling -----

  ghost predicate FirstMention(cited: seq<string>, i: int, key: string, norm: string -> string) {
    0 <= i < |cited| && norm(cited[i]) == key && forall j :: 0 <= j < i ==> norm(cited[j]) != key
  }

  lemma {:induction false} MentionOf(cited: seq<string>, shown: map<string, string>, self: string,
      norm: string -> string, k: nat) returns (i: int)
    requires (forall key :: key in shown ==> norm(shown[key]) == key) && k < |Surviving(cited, shown, self, norm)|
    ensures FirstMention(cited, i, norm(Surviving(cited, shown, self, norm)[k]), norm)
  {
    var n := |cited| - 1;
    var before := Surviving(cited[..n], shown, self, norm);
    if k < |before| {
      i := MentionOf(cited[..n], shown, self, norm, k);
      assert forall j :: 0 <= j < n ==> cited[..n][j] == cited[j];
    } else {
      i := n;
    }
  }

  /** Survivors stand in the order in which they were first mentioned. */
  lemma {:induction false} KeepsMentionOrder(cited: seq<string>, shown: map<string, string>, self: string,
      norm: string -> string, k: nat, l: nat) returns (i: int, j: int)
    requires (forall key :: key in shown ==> norm(shown[key]) == key) && k < l < |Surviving(cited, shown, self, norm)|
    ensures i < j && FirstMention(cited, i, norm(Surviving(cited, shown, self, norm)[k]), norm)
    ensures FirstMention(cited, j, norm(Surviving(cited, shown, self, norm)[l]), norm)
  {
    hide FirstMention;
    var n := |cited| - 1;
    var before := Surviving(cited[..n], shown, self, norm);
    i := MentionOf(cited, shown, self, norm, k);
    j := MentionOf(cited, shown, self, norm, l);
    if l < |before| {
      var a, b := KeepsMentionOrder(cited[..n], shown, self, norm, k, l);
      SameMention(cited, n, a, i, norm(before[k]), norm);
      SameMention(cited, n, b, j, norm(before[l]), norm);
    } else {
      var a := MentionOf(cited[..n], shown, self, norm, k);
      SameMention(cited, n, a, i, norm(before[k]), norm);
      LastMention(cited, shown, self, norm, j);
    }
  }

  lemma SameMention(cited: seq<string>, n: nat, a: int, i: int, key: string, norm: string -> string)
    requires n <= |cited| && FirstMention(cited[..n], a, key, norm) && FirstMention(cited, i, key, norm)
    ensures a == i < n
  {
    assert forall j :: 0 <= j < n ==> cited[..n][j] == cited[j];
  }

  lemma LastMention(cited: seq<string>, shown: map<string, string>, self: string, norm: string -> string, j: int)
    requires cited != [] && forall key :: key in shown ==> norm(shown[key]) == key
    requires Counts(cited, |cited| - 1, shown, self, norm)
    requires FirstMention(cited, j, norm(shown[norm(cited[|cited| - 1])]), norm)
    ensures j == |cited| - 1
  {
  }

  /** Of two shown spellings of one id the later counts. */
  lemma {:induction false} LastSpellingCounts(shown: seq<string>, norm: string -> string, i: nat)
    requires i < |shown| && forall j :: i < j < |shown| ==> norm(shown[j]) != norm(shown[i])
    ensures norm(shown[i]) in Canonical(shown, norm) && Canonical(shown, norm)[norm(shown[i])] == shown[i]
  {
    var n := |shown| - 1;
    if i < n {
      assert forall j :: 0 <= j < n ==> shown[..n][j] == shown[j];
      LastSpellingCounts(shown[..n], norm, i);
    }
  }
}
