/** `format_peer_context` of src/alphaswarm/peers.py: a peer block under a hard character
    budget, and the exposure it reports. */
module PeerRendering {
  import opened Common

  /** One candidate line; `signal` is upper case and `confidence` already has two decimals. */
  datatype Post = Post(agentId: string, bracket: string, signal: string, confidence: string, content: string)

  datatype Labels = Labels(showBracket: bool, showConfidence: bool)

  function Decimal(n: nat): string {
    if n < 10 then ['0' + n as char] else Decimal(n / 10) + ['0' + (n % 10) as char]
  }

  function Header(sourceRound: nat): string {
    "Peer Decisions (Round " + Decimal(sourceRound) + "):"
  }

  /** Everything of a line before the quoted rationale; `number` counts posts from 1. */
  function Prefix(number: nat, p: Post, labels: Labels): string {
    Decimal(number) + ". "
    + (if labels.showBracket then "[" + p.agentId + "|" + p.bracket + "]" else "[" + p.agentId + "]")
    + " " + p.signal
    + (if labels.showConfidence then " (conf: " + p.confidence + ")" else "")
    + " \""
  }

  /** `"\n".join(lines)`. */
  function Join(lines: seq<string>): string {
    if lines == [] then ""
    else if |lines| == 1 then lines[0]
    else Join(lines[..|lines| - 1]) + "\n" + lines[|lines| - 1]
  }

  /** `s.rsplit(" ", 1)[0]`. */
  function BeforeLastSpace(s: string): (r: string)
    ensures r <= s
  {
    if ' ' !in s then s
    else if s[|s| - 1] == ' ' then s[..|s| - 1]
    else BeforeLastSpace(s[..|s| - 1])
  }

  /** The content cut to `room` characters, at a word boundary when there is one. */
  function Fit(content: string, room: int): (r: string)
    requires room > 0
    ensures r <= content && |r| <= room && (content != "" ==> r != "")
    ensures |content| <= room ==> r == content
  {
    if |content| <= room then content
    else
      var cut := content[..room];
      var head := BeforeLastSpace(cut);
      if head != "" then head else cut
  }

  // ----- What a rendered block is -----

  datatype Request = Request(
    posts: seq<Post>, sourceRound: nat, budget: int, labels: Labels, guard: string, sanitize: string -> string)
  {
    function Quotable(i: nat): string
      requires i < |posts|
    {
      sanitize(posts[i].content)
    }

    function LinePrefix(i: nat): string
      requires i < |posts|
    {
      Prefix(i + 1, posts[i], labels)
    }

    /** The characters left for quoting post `i` once `before` is rendered, with the closing
        quote, the newlines and the closing `guard` set aside. */
    function Room(before: seq<string>, i: nat): int
      requires i < |posts|
    {
      budget - |guard| - |Join([Header(sourceRound)] + before)| - |LinePrefix(i)| - 4
    }

    function Line(before: seq<string>, i: nat): string
      requires i < |posts| && Room(before, i) > 0
    {
      LinePrefix(i) + Fit(Quotable(i), Room(before, i)) + "\""
    }
  }

  /** The posts among the first `n` that have something to quote, as ascending indices. */
  function Visible(rq: Request, n: nat): (idx: seq<nat>)
    requires n <= |rq.posts|
    ensures forall k :: 0 <= k < |idx| ==> idx[k] < n && rq.Quotable(idx[k]) != ""
    ensures forall i, j :: 0 <= i < j < |idx| ==> idx[i] < idx[j]
    ensures forall i :: 0 <= i < n && rq.Quotable(i) != "" ==> i in idx
  {
    if n == 0 then []
    else Visible(rq, n - 1) + (if rq.Quotable(n - 1) != "" then [n - 1] else [])
  }

  /** `lines` and `shown` are, one to one and in order, the visible posts among the first `n`,
      each quoted as far as its room allows. */
  predicate LinesOf(rq: Request, lines: seq<string>, shown: seq<string>, n: nat)
    requires n <= |rq.posts|
  {
    var idx := Visible(rq, n);
    && |lines| == |shown| == |idx|
    && forall k :: 0 <= k < |idx| ==>
         && shown[k] == rq.posts[idx[k]].agentId
         && rq.Room(lines[..k], idx[k]) > 0
         && lines[k] == rq.Line(lines[..k], idx[k])
  }

  lemma JoinAppend(lines: seq<string>, x: string)
    requires lines != []
    ensures Join(lines + [x]) == Join(lines) + "\n" + x
  {
    assert (lines + [x])[..|lines|] == lines;
  }

  lemma LinesGrow(rq: Request, lines: seq<string>, shown: seq<string>, n: nat)
    requires n < |rq.posts| && LinesOf(rq, lines, shown, n)
    requires rq.Quotable(n) != "" && rq.Room(lines, n) > 0
    ensures LinesOf(rq, lines + [rq.Line(lines, n)], shown + [rq.posts[n].agentId], n + 1)
  {
    hide Fit, Join, Prefix, Header, Decimal;
    var next := lines + [rq.Line(lines, n)];
    assert forall k :: 0 <= k <= |lines| ==> next[..k] == lines[..k];
    assert lines[..|lines|] == lines;
  }

  lemma SkipEmpty(rq: Request, lines: seq<string>, shown: seq<string>, n: nat)
    requires n < |rq.posts| && rq.Quotable(n) == "" && LinesOf(rq, lines, shown, n)
    ensures LinesOf(rq, lines, shown, n + 1)
  {
  }

  lemma NoLines(rq: Request)
    ensures LinesOf(rq, [], [], 0)
  {
  }

  lemma LineCount(rq: Request, lines: seq<string>, shown: seq<string>, n: nat)
    requires n <= |rq.posts| && LinesOf(rq, lines, shown, n)
    ensures |lines| == |shown|
  {
  }

  function Block(rq: Request, lines: seq<string>): string {
    Join([Header(rq.sourceRound)] + lines + [rq.guard])
  }

  lemma BlockLength(rq: Request, lines: seq<string>)
    ensures |Block(rq, lines)| == |Join([Header(rq.sourceRound)] + lines)| + 1 + |rq.guard|
  {
    JoinAppend([Header(rq.sourceRound)] + lines, rq.guard);
  }

  lemma LineLength(rq: Request, lines: seq<string>, i: nat)
    requires i < |rq.posts| && rq.Room(lines, i) > 0
    ensures |Join([Header(rq.sourceRound)] + (lines + [rq.Line(lines, i)]))|
      == |Join([Header(rq.sourceRound)] + lines)| + 1 + |rq.Line(lines, i)|
    ensures |rq.Line(lines, i)| <= |rq.LinePrefix(i)| + rq.Room(lines, i) + 1
  {
    JoinAppend([Header(rq.sourceRound)] + lines, rq.Line(lines, i));
    assert [Header(rq.sourceRound)] + (lines + [rq.Line(lines, i)])
        == [Header(rq.sourceRound)] + lines + [rq.Line(lines, i)];
  }

  /** Formats up to `maxPosts` posts into fewer than `budget` characters. `lines` are the
      rendered lines; `cutoff` is how many posts were looked at before the room ran out. */
  method FormatPeerContext(rq: Request, maxPosts: nat)
    returns (text: string, shown: seq<string>, ghost lines: seq<string>, ghost cutoff: nat)
    ensures cutoff <= Min(|rq.posts|, maxPosts) && LinesOf(rq, lines, shown, cutoff)
    ensures text == "" <==> shown == []
    ensures text != "" ==> text == Block(rq, lines) && |text| <= rq.budget - 1
    ensures cutoff < Min(|rq.posts|, maxPosts) ==> rq.Room(lines, cutoff) <= 0
  {
    hide LinesOf, Visible, Join, Prefix, Decimal, Fit, Header;
    text, shown, lines, cutoff := "", [], [], 0;
    var header := Header(rq.sourceRound);
    var remaining := rq.budget - (|header| + |rq.guard| + 2);
    var out := [header];
    var i := 0;
    NoLines(rq);
    SingleLine(header);
    while i < |rq.posts| && i < maxPosts
      invariant 0 <= i <= Min(|rq.posts|, maxPosts)
      invariant out == [header] + lines && LinesOf(rq, lines, shown, i) && |lines| == |shown|
      invariant remaining == rq.budget - |rq.guard| - 2 - |Join(out)|
      invariant lines != [] ==> remaining >= 0
    {
      if remaining <= 0 {
        break;
      }
      var content := rq.sanitize(rq.posts[i].content);
      if content != "" {
        var prefix := Prefix(i + 1, rq.posts[i], rq.labels);
        var available := remaining - |prefix| - 2;
        if available <= 0 {
          break;
        }
        var line := prefix + Fit(content, available) + "\"";
        LineLength(rq, lines, i);
        LinesGrow(rq, lines, shown, i);
        out, lines := out + [line], lines + [line];
        shown := shown + [rq.posts[i].agentId];
        remaining := remaining - (|line| + 1);
      } else {
        SkipEmpty(rq, lines, shown, i);
      }
      i := i + 1;
    }
    cutoff := i;
    BlockLength(rq, lines);
    if |out| > 1 {
      text := Join(out + [rq.guard]);
    }
  }

  lemma SingleLine(x: string)
    ensures Join([x]) == x
  {
  }
}
