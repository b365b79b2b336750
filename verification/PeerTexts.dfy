/** What a reader's prompt says, word for word, and what its peer weights and control share are. */
module PeerTexts {
  import opened Common
  import opened PeerSelection
  import opened PeerRendering
  import opened PeerRounds

  // ----- Numbers -----

  predicate Digits(s: string) {
    forall i :: 0 <= i < |s| ==> '0' <= s[i] <= '9'
  }

  /** The number that decimal digits stand for. */
  function Worth(s: string): nat
    requires Digits(s)
  {
    if s == "" then 0 else 10 * Worth(s[..|s| - 1]) + (s[|s| - 1] - '0') as int
  }

  /** Decimal notation reads back, and begins with 0 for zero alone. */
  lemma {:induction false} DecimalReads(n: nat)
    ensures var s := Decimal(n); s != "" && Digits(s) && Worth(s) == n && (s[0] == '0' ==> n == 0 && |s| == 1)
  {
    if n >= 10 {
      DecimalReads(n / 10);
      var s := Decimal(n);
      assert s[..|s| - 1] == Decimal(n / 10);
    } else {
      assert Decimal(n)[..0] == "";
    }
  }

  // ----- Lines -----

  lemma SignalWords()
    ensures Upper(Buy) == "BUY" && Upper(Sell) == "SELL" && Upper(Hold) == "HOLD" && Upper(ParseError) == "PARSE_ERROR"
  {
  }

  lemma HeaderReads(round: nat)
    ensures Header(round) == "Peer Decisions (Round " + Decimal(round) + "):"
  {
  }

  /** The beginning of a line under each setting of the two labels. */
  lemma LineBegins(rq: Request, i: nat)
    requires i < |rq.posts|
    ensures var p, number := rq.posts[i], Decimal(i + 1);
      rq.LinePrefix(i) ==
        match rq.labels
        case Labels(true, true) =>
          number + ". [" + p.agentId + "|" + p.bracket + "] " + p.signal + " (conf: " + p.confidence + ") \""
        case Labels(true, false) => number + ". [" + p.agentId + "|" + p.bracket + "] " + p.signal + " \""
        case Labels(false, true) => number + ". [" + p.agentId + "] " + p.signal + " (conf: " + p.confidence + ") \""
        case Labels(false, false) => number + ". [" + p.agentId + "] " + p.signal + " \""
  {
    hide Decimal;
  }

  /** A quote that takes all its room brings the block to one character below the budget. */
  lemma RoomIsAllThereIs(rq: Request, before: seq<string>, i: nat, quote: string)
    requires i < |rq.posts| && rq.Room(before, i) == |quote|
    ensures |Block(rq, before + [rq.LinePrefix(i) + quote + "\""])| == rq.budget - 1
  {
    hide Decimal, Prefix, Header;
    var line := rq.LinePrefix(i) + quote + "\"";
    BlockLength(rq, before + [line]);
    JoinAppend([Header(rq.sourceRound)] + before, line);
    assert [Header(rq.sourceRound)] + (before + [line]) == [Header(rq.sourceRound)] + before + [line];
  }

  lemma {:induction false} CutsAtSpace(s: string)
    ensures var r := BeforeLastSpace(s);
      if ' ' in s then |r| < |s| && s[|r|] == ' ' && ' ' !in s[|r| + 1..] else r == s
  {
    if ' ' in s && s[|s| - 1] != ' ' {
      var t := s[..|s| - 1];
      assert s == t + [s[|s| - 1]];
      CutsAtSpace(t);
      var r := BeforeLastSpace(t);
      assert s[|r| + 1..] == t[|r| + 1..] + [s[|s| - 1]];
    }
  }

  /** A quote too long for its room ends before the last space in it, unless that leaves nothing. */
  lemma FitsByWords(content: string, room: int)
    requires 0 < room < |content|
    ensures var r, cut := Fit(content, room), content[..room];
      || (r == cut && (' ' !in cut || (cut[0] == ' ' && ' ' !in cut[1..])))
      || (0 < |r| < room && r == cut[..|r|] && cut[|r|] == ' ' && ' ' !in cut[|r| + 1..])
  {
    CutsAtSpace(content[..room]);
  }

  /** Lines stand under each other. */
  lemma LinesJoin(lines: seq<string>, x: string)
    ensures Join([x]) == x
    ensures lines != [] ==> Join(lines + [x]) == Join(lines) + "\n" + x
  {
    if lines != [] {
      JoinAppend(lines, x);
    }
  }

  // ----- Posts -----

  /** Each chosen peer that decided and is on the roster gives one post, in order, with its own words. */
  lemma {:induction false} PostsExactly(ids: seq<string>, prev: map<string, Decision>, bracketOf: map<string, string>)
    requires forall i :: 0 <= i < |ids| ==> ids[i] in prev && ids[i] in bracketOf
    ensures var posts := PostsFor(ids, prev, bracketOf);
      |posts| == |ids| && forall i :: 0 <= i < |ids| ==>
        var d := prev[ids[i]];
        posts[i] == Post(ids[i], bracketOf[ids[i]], Upper(d.signal), d.confidence, d.rationale)
  {
    hide PostsFor, Upper;
    if ids == [] {
      NoPosts(prev, bracketOf);
    } else {
      var n := |ids| - 1;
      PostsExactly(ids[..n], prev, bracketOf);
      LastPost(ids, prev, bracketOf);
    }
  }

  lemma NoPosts(prev: map<string, Decision>, bracketOf: map<string, string>)
    ensures PostsFor([], prev, bracketOf) == []
  {
  }

  lemma LastPost(ids: seq<string>, prev: map<string, Decision>, bracketOf: map<string, string>)
    requires ids != [] && ids[|ids| - 1] in prev && ids[|ids| - 1] in bracketOf
    ensures var n := |ids| - 1; var d := prev[ids[n]];
      PostsFor(ids, prev, bracketOf) == PostsFor(ids[..n], prev, bracketOf)
        + [Post(ids[n], bracketOf[ids[n]], Upper(d.signal), d.confidence, d.rationale)]
  {
    hide Upper;
  }

  /** The reader's own previous position on one line. */
  lemma OwnPriorReads(d: Decision, round: nat, sanitize: string -> string)
    ensures OwnPriorLine(None, round, sanitize) == None
    ensures d.signal == ParseError ==> OwnPriorLine(Some(d), round, sanitize) == None
    ensures d.signal != ParseError ==>
      var head := "Your Round " + Decimal(round) + " position: " + Upper(d.signal) + " (conf " + d.confidence + ")";
      var said := sanitize(d.rationale);
      OwnPriorLine(Some(d), round, sanitize) == Some(if said == "" then head else head + ": " + said)
  {
    hide Decimal, Upper;
  }

  // ----- Weights -----

  /** An author's weight for a reader: its base reach, its global share, and the boost when this reader
      cited it; what others cite plays no part. */
  lemma WeightsExactly(inp: Inputs, reader: string, x: string)
    requires x in inp.base
    ensures x in inp.Weights(reader) && inp.Weights(reader)[x].Finite?
    ensures var share := if x in inp.global then inp.global[x] else 0.0;
      var cites := reader in inp.prev && x in inp.prev[reader].cited;
      inp.Weights(reader)[x].value - inp.base[x] - share == if cites then inp.sim.personalBoost else 0.0
  {
  }

  /** The share of control readers is `count * fraction` to the nearest, halves up, short of the last agent. */
  lemma SubsetSizeIsNearest(count: nat, fraction: real)
    ensures var k, share := SubsetSize(count, fraction), count as real * fraction;
      && (count < 2 || fraction <= 0.0 ==> k == 0)
      && (count >= 2 && fraction > 0.0 && share < count as real - 0.5 ==> k as real - 0.5 <= share < k as real + 0.5)
      && (count >= 2 && fraction > 0.0 && share >= count as real - 1.5 ==> k == count - 1)
  {
    var share := count as real * fraction;
    if count >= 2 && fraction > 0.0 {
      var k := (share + 0.5).Floor;
      assert k as real <= share + 0.5 < k as real + 1.0;
    }
  }
}
