/** The generated Markdown blocks of scripts/docs_sync.py: `_span`, `block_body`, `replace_block`
    and `sync` over all its files. */
module DocsBlocks {
  datatype Result<T> = Ok(value: T) | Malformed

  // ----- Searching -----

  ghost predicate At(text: string, m: string, i: int) {
    0 <= i && i + |m| <= |text| && text[i..i + |m|] == m
  }

  /** `text.count(m)`: occurrences that do not overlap. */
  function Count(text: string, m: string): nat
    requires m != ""
  {
    if |text| < |m| then 0
    else if text[..|m|] == m then 1 + Count(text[|m|..], m)
    else Count(text[1..], m)
  }

  /** `text.find(m)`. */
  function Find(text: string, m: string): int
    requires m != ""
  {
    if |text| < |m| then -1
    else if text[..|m|] == m then 0
    else var rest := Find(text[1..], m); if rest < 0 then -1 else rest + 1
  }

  /** A marker starts with its only '<' and has no line break. */
  predicate IsMarker(m: string) {
    |m| > 1 && m[0] == '<' && '<' !in m[1..] && '\n' !in m
  }

  lemma ShiftedAt(text: string, n: nat, m: string, i: int)
    requires n <= |text| && i >= 0
    ensures At(text[n..], m, i) <==> At(text, m, n + i)
  {
    if i + |m| <= |text| - n {
      assert text[n..][i..i + |m|] == text[n + i..n + i + |m|];
    }
  }

  lemma {:induction false} FindIsFirst(text: string, m: string)
    requires m != ""
    ensures var i := Find(text, m);
      && (i >= 0 ==> At(text, m, i))
      && (i < 0 ==> forall k :: !At(text, m, k))
      && forall k :: At(text, m, k) ==> 0 <= i <= k
    decreases |text|
  {
    if |text| >= |m| && text[..|m|] != m {
      FindIsFirst(text[1..], m);
      var rest := Find(text[1..], m);
      if rest >= 0 {
        ShiftedAt(text, 1, m, rest);
      }
      forall k | At(text, m, k) ensures rest >= 0 && rest + 1 <= k {
        assert k > 0;
        ShiftedAt(text, 1, m, k - 1);
      }
    }
  }

  lemma {:induction false} CountZero(text: string, m: string)
    requires m != ""
    ensures Count(text, m) == 0 <==> forall k :: !At(text, m, k)
    decreases |text|
  {
    if |text| >= |m| {
      if text[..|m|] == m {
        assert At(text, m, 0);
      } else {
        CountZero(text[1..], m);
        forall k ensures At(text, m, k) <==> k > 0 && At(text[1..], m, k - 1) {
          if k > 0 {
            ShiftedAt(text, 1, m, k - 1);
          }
        }
        if k :| At(text, m, k) {
          assert At(text[1..], m, k - 1);
        }
        if k :| At(text[1..], m, k) {
          assert At(text, m, k + 1);
        }
      }
    }
  }

  /** The only occurrence is at `i`. */
  ghost predicate Only(text: string, m: string, i: int) {
    At(text, m, i) && forall k :: At(text, m, k) ==> k == i
  }

  /** Markers never overlap. */
  lemma NoOverlap(text: string, m: string, other: string, at: int, k: int)
    requires IsMarker(m) && IsMarker(other) && At(text, m, at) && at < k < at + |m|
    ensures !At(text, other, k)
  {
    assert text[at..at + |m|][k - at] == m[1..][k - at - 1] && text[k] != '<';
    assert k + |other| <= |text| ==> text[k..k + |other|][0] != other[0];
  }

  /** For a marker, a count of one means one place, which is where it is found. */
  lemma {:induction false} CountOne(text: string, m: string)
    requires IsMarker(m)
    ensures Count(text, m) == 1 <==> Only(text, m, Find(text, m))
    decreases |text|
  {
    if |text| >= |m| {
      if text[..|m|] == m {
        assert At(text, m, 0);
        CountZero(text[|m|..], m);
        if Count(text[|m|..], m) == 0 {
          forall k | At(text, m, k) ensures k == 0 {
            if 0 < k < |m| {
              NoOverlap(text, m, m, 0, k);
            } else if k >= |m| {
              ShiftedAt(text, |m|, m, k - |m|);
            }
          }
        } else {
          var k :| At(text[|m|..], m, k);
          ShiftedAt(text, |m|, m, k);
          assert At(text, m, |m| + k);
        }
      } else {
        CountOne(text[1..], m);
        OnlyShifted(text, m, Find(text[1..], m));
      }
    }
  }

  lemma OnlyShifted(text: string, m: string, i: int)
    requires text != "" && !At(text, m, 0)
    ensures i >= 0 ==> (Only(text, m, i + 1) <==> Only(text[1..], m, i))
    ensures i < 0 ==> !Only(text[1..], m, i) && !Only(text, m, i)
  {
    forall k ensures At(text, m, k) <==> k > 0 && At(text[1..], m, k - 1) {
      if k > 0 {
        ShiftedAt(text, 1, m, k - 1);
      }
    }
    hide At;
    if i >= 0 && Only(text, m, i + 1) {
      forall k | At(text[1..], m, k) ensures k == i {
        assert At(text, m, k + 1);
      }
    }
  }

  /** The only occurrence is found. */
  lemma OnlyIsFound(text: string, m: string, i: int)
    requires IsMarker(m) && Only(text, m, i)
    ensures Find(text, m) == i && Count(text, m) == 1
  {
    FindIsFirst(text, m);
    CountOne(text, m);
  }

  // ----- Blocks -----

  predicate IsName(name: string) {
    '<' !in name && '\n' !in name
  }

  function Opening(name: string): (m: string)
    requires IsName(name)
    ensures IsMarker(m)
  {
    "<!-- " + name + ":start -->"
  }

  function Closing(name: string): (m: string)
    requires IsName(name)
    ensures IsMarker(m)
  {
    "<!-- " + name + ":end -->"
  }

  /** Where the body lies: from behind the opening marker to the closing one. */
  function Span(text: string, name: string): Result<(int, int)>
    requires IsName(name)
  {
    var o, c := Opening(name), Closing(name);
    if Count(text, o) != 1 || Count(text, c) != 1 then Malformed
    else if Find(text, c) < Find(text, o) then Malformed
    else Ok((Find(text, o) + |o|, Find(text, c)))
  }

  /** `strip("\n")`. */
  function StripBreaks(s: string): string {
    if s != "" && s[0] == '\n' then StripBreaks(s[1..])
    else if s != "" && s[|s| - 1] == '\n' then StripBreaks(s[..|s| - 1])
    else s
  }

  /** The markers stand once each, in order and not overlapping. */
  ghost predicate Stands(text: string, name: string, i: int, j: int)
    requires IsName(name)
  {
    && 0 <= |Opening(name)| <= i <= j <= |text|
    && Only(text, Opening(name), i - |Opening(name)|)
    && Only(text, Closing(name), j)
  }

  lemma DifferentMarkers(name: string, text: string, k: int)
    requires IsName(name) && At(text, Opening(name), k)
    ensures !At(text, Closing(name), k)
  {
    var o, c, n := Opening(name), Closing(name), 5 + |name| + 1;
    assert o[n] == 's' && c[n] == 'e';
    assert text[k..k + |o|][n] == text[k + n];
    assert k + |c| <= |text| ==> text[k..k + |c|][n] == text[k + n];
  }

  /** A span is found exactly where the markers stand. */
  lemma SpanExactly(text: string, name: string, i: int, j: int)
    requires IsName(name)
    ensures Span(text, name) == Ok((i, j)) <==> Stands(text, name, i, j)
  {
    hide Count, Find, At, Opening, Closing;
    var o, c := Opening(name), Closing(name);
    CountOne(text, o);
    CountOne(text, c);
    if Span(text, name) == Ok((i, j)) {
      MarkersInOrder(text, name, i - |o|, j);
    }
    if Stands(text, name, i, j) {
      OnlyIsFound(text, o, i - |o|);
      OnlyIsFound(text, c, j);
    }
  }

  lemma MarkersInOrder(text: string, name: string, at: int, end: int)
    requires IsName(name) && Only(text, Opening(name), at) && Only(text, Closing(name), end) && at <= end
    ensures 0 <= at && at + |Opening(name)| <= end <= |text|
  {
    var o, c := Opening(name), Closing(name);
    DifferentMarkers(name, text, at);
    if at < end < at + |o| {
      NoOverlap(text, o, c, at, end);
      assert false;
    }
  }

  function BlockBody(text: string, name: string): Result<string>
    requires IsName(name)
  {
    match Span(text, name)
    case Malformed => Malformed
    case Ok((i, j)) => SpanExactly(text, name, i, j); Ok(StripBreaks(text[i..j]))
  }

  function Spliced(text: string, i: int, j: int, body: string): string
    requires 0 <= i <= j <= |text|
  {
    text[..i] + "\n" + body + "\n" + text[j..]
  }

  function ReplaceBlock(text: string, name: string, body: string): Result<string>
    requires IsName(name)
  {
    match Span(text, name)
    case Malformed => Malformed
    case Ok((i, j)) => SpanExactly(text, name, i, j); Ok(Spliced(text, i, j, StripBreaks(body)))
  }

  // ----- What splicing does to markers -----

  /** No marker spans a line break. */
  lemma AtBreak(a: string, b: string, m: string, k: int)
    requires IsMarker(m)
    ensures At(a + "\n" + b, m, k) <==> At(a, m, k) || At(b, m, k - |a| - 1)
  {
    var t := a + "\n" + b;
    if 0 <= k && k + |m| <= |t| {
      if k + |m| <= |a| {
        assert t[k..k + |m|] == a[k..k + |m|];
      } else if k > |a| {
        assert t[k..k + |m|] == b[k - |a| - 1..k - |a| - 1 + |m|];
      } else {
        assert t[|a|] == '\n' == t[k..k + |m|][|a| - k];
      }
    }
  }

  /** Where a marker stands after the splice. */
  function Moved(p: int, m: string, i: int, j: int, body: string): int {
    if p + |m| <= i then p else p - j + i + |body| + 2
  }

  ghost predicate Free(body: string, m: string) {
    forall k :: !At(body, m, k)
  }

  lemma AtSplice(text: string, i: int, j: int, body: string, m: string, k: int)
    requires IsMarker(m) && 0 <= i <= j <= |text|
    ensures At(Spliced(text, i, j, body), m, k) <==>
      || At(text[..i], m, k)
      || At(body, m, k - i - 1)
      || (k - i - |body| - 2 >= 0 && At(text, m, k - i - |body| - 2 + j))
  {
    var rest := body + "\n" + text[j..];
    assert Spliced(text, i, j, body) == text[..i] + "\n" + rest;
    AtBreak(text[..i], rest, m, k);
    AtBreak(body, text[j..], m, k - i - 1);
    if k - i - |body| - 2 >= 0 {
      ShiftedAt(text, j, m, k - i - |body| - 2);
    }
  }

  lemma PrefixAt(text: string, i: int, m: string, k: int)
    requires 0 <= i <= |text|
    ensures At(text[..i], m, k) <==> At(text, m, k) && k + |m| <= i
  {
    if 0 <= k && k + |m| <= i {
      assert text[..i][k..k + |m|] == text[k..k + |m|];
    }
  }

  /** A marker outside the span stays unique exactly when the new body is free of it. */
  lemma OnlyAfterSplice(text: string, i: int, j: int, body: string, m: string, p: int)
    requires IsMarker(m) && 0 <= i <= j <= |text| && Only(text, m, p) && (p + |m| <= i || p >= j)
    ensures Free(body, m) ==> Only(Spliced(text, i, j, body), m, Moved(p, m, i, j, body))
    ensures !Free(body, m) ==> forall k :: !Only(Spliced(text, i, j, body), m, k)
  {
    var next, q := Spliced(text, i, j, body), Moved(p, m, i, j, body);
    forall k ensures At(next, m, k) <==> k == q || At(body, m, k - i - 1) {
      AtSplice(text, i, j, body, m, k);
      PrefixAt(text, i, m, k);
    }
    hide Spliced, Moved;
    if k :| At(body, m, k) {
      assert At(next, m, q) && At(next, m, k + i + 1);
      InsideBody(text, i, j, body, m, p, k);
    }
  }

  lemma InsideBody(text: string, i: int, j: int, body: string, m: string, p: int, k: int)
    requires |m| > 0 && 0 <= i <= j <= |text| && At(body, m, k) && (p + |m| <= i || p >= j)
    ensures k + i + 1 != Moved(p, m, i, j, body)
  {
  }

  // ----- Writing, then reading -----

  lemma {:induction false} StripPadded(s: string)
    ensures StripBreaks("\n" + StripBreaks(s) + "\n") == StripBreaks(s)
    decreases |s|
  {
    if s != "" && s[0] == '\n' {
      StripPadded(s[1..]);
    } else if s != "" && s[|s| - 1] == '\n' {
      StripPadded(s[..|s| - 1]);
    } else {
      var padded := "\n" + s + "\n";
      assert padded[1..] == s + "\n";
      if s == "" {
        assert (s + "\n")[1..] == "";
      } else {
        assert (s + "\n")[..|s|] == s;
      }
    }
  }

  lemma SplicedBody(text: string, i: int, j: int, body: string)
    requires 0 <= i <= j <= |text|
    ensures |Spliced(text, i, j, body)| == |text| - j + i + |body| + 2
    ensures Spliced(text, i, j, body)[i..i + |body| + 2] == "\n" + body + "\n"
  {
  }

  /** After the block is replaced its body reads back exactly when the new body holds neither of
      its own markers. */
  lemma RoundTrip(text: string, name: string, body: string)
    requires IsName(name) && Span(text, name).Ok?
    ensures ReplaceBlock(text, name, body).Ok?
    ensures BlockBody(ReplaceBlock(text, name, body).value, name) == Ok(StripBreaks(body))
      <==> Free(StripBreaks(body), Opening(name)) && Free(StripBreaks(body), Closing(name))
  {
    hide StripBreaks, Spliced, Free, Only, At, Opening, Closing, Span;
    var (i, j) := Span(text, name).value;
    SpanExactly(text, name, i, j);
    var o, c, inner := Opening(name), Closing(name), StripBreaks(body);
    var next := Spliced(text, i, j, inner);
    OnlyAfterSplice(text, i, j, inner, o, i - |o|);
    OnlyAfterSplice(text, i, j, inner, c, j);
    SplicedBody(text, i, j, inner);
    StripPadded(body);
    if Free(inner, o) && Free(inner, c) {
      SpanExactly(next, name, i, i + |inner| + 2);
    } else if Span(next, name).Ok? {
      var (x, y) := Span(next, name).value;
      SpanExactly(next, name, x, y);
      assert false;
    }
  }

  // ----- Blocks beside each other -----

  /** The whole of one block, markers included, lies before the other. */
  ghost predicate Apart(text: string, a: string, b: string)
    requires IsName(a) && IsName(b)
  {
    && Span(text, a).Ok? && Span(text, b).Ok?
    && (|| Span(text, a).value.1 + |Closing(a)| <= Span(text, b).value.0 - |Opening(b)|
        || Span(text, b).value.1 + |Closing(b)| <= Span(text, a).value.0 - |Opening(a)|)
  }

  ghost predicate FreeOf(body: string, name: string)
    requires IsName(name)
  {
    Free(body, Opening(name)) && Free(body, Closing(name))
  }

  /** Replacing one block moves another as a whole. */
  lemma OtherMoves(text: string, name: string, other: string, body: string)
    requires IsName(name) && IsName(other) && Apart(text, name, other) && FreeOf(StripBreaks(body), other)
    ensures var (i, j), (x, y) := Span(text, name).value, Span(text, other).value;
      var next, d := ReplaceBlock(text, name, body).value, i + |StripBreaks(body)| + 2 - j;
      && ReplaceBlock(text, name, body).Ok?
      && Span(next, other) == (if y + |Closing(other)| <= i - |Opening(name)| then Ok((x, y)) else Ok((x + d, y + d)))
      && BlockBody(next, other) == BlockBody(text, other)
  {
    hide StripBreaks, Spliced, Free, Only, At, Opening, Closing, Span;
    var (i, j) := Span(text, name).value;
    var (x, y) := Span(text, other).value;
    SpanExactly(text, name, i, j);
    SpanExactly(text, other, x, y);
    var o, c, inner := Opening(other), Closing(other), StripBreaks(body);
    var next, d := Spliced(text, i, j, inner), i + |inner| + 2 - j;
    OnlyAfterSplice(text, i, j, inner, o, x - |o|);
    OnlyAfterSplice(text, i, j, inner, c, y);
    SplicedBody(text, i, j, inner);
    if y + |c| <= i - |Opening(name)| {
      SpanExactly(next, other, x, y);
      SplicedBefore(text, i, j, inner, x, y);
    } else {
      SpanExactly(next, other, x + d, y + d);
      SplicedBehind(text, i, j, inner, x, y);
    }
  }

  lemma SplicedBefore(text: string, i: int, j: int, body: string, x: int, y: int)
    requires 0 <= x <= y <= i <= j <= |text|
    ensures y <= |Spliced(text, i, j, body)| && Spliced(text, i, j, body)[x..y] == text[x..y]
  {
  }

  lemma SplicedBehind(text: string, i: int, j: int, body: string, x: int, y: int)
    requires 0 <= i <= j <= x <= y <= |text|
    ensures var d := i + |body| + 2 - j;
      x + d >= 0 && y + d <= |Spliced(text, i, j, body)| && Spliced(text, i, j, body)[x + d..y + d] == text[x..y]
  {
  }

  // ----- What is left alone -----

  /** Every place of the text outside the two markers keeps what it holds. */
  lemma RestStays(text: string, name: string, body: string)
    requires IsName(name) && Span(text, name).Ok?
    ensures var (i, j), next := Span(text, name).value, ReplaceBlock(text, name, body);
      next.Ok? && 0 <= i <= j <= |text| && next.value == text[..i] + "\n" + StripBreaks(body) + "\n" + text[j..]
  {
    hide StripBreaks, Span;
    var (i, j) := Span(text, name).value;
    SpanExactly(text, name, i, j);
  }

  /** `strip("\n")` takes line breaks from both ends and nothing else. */
  lemma {:induction false} StripsBreaks(s: string) returns (a: nat, b: nat)
    ensures a <= b <= |s| && StripBreaks(s) == s[a..b]
    ensures (forall k :: 0 <= k < a || b <= k < |s| ==> s[k] == '\n')
    ensures a < b ==> s[a] != '\n' && s[b - 1] != '\n'
    decreases |s|
  {
    if s != "" && s[0] == '\n' {
      var t := s[1..];
      a, b := StripsBreaks(t);
      assert forall k :: 0 < k < |s| ==> s[k] == t[k - 1];
      a, b := a + 1, b + 1;
    } else if s != "" && s[|s| - 1] == '\n' {
      a, b := StripsBreaks(s[..|s| - 1]);
    } else {
      a, b := 0, |s|;
    }
  }

  /** The markers, letter for letter. */
  lemma MarkersRead(name: string)
    requires IsName(name)
    ensures Opening(name) == "<!-- " + name + ":start -->" && Closing(name) == "<!-- " + name + ":end -->"
  {
  }

  // ----- sync -----

  type Block = (string, string)

  datatype Synced = Synced(text: string, stale: seq<string>)

  predicate Named(blocks: seq<Block>) {
    forall i :: 0 <= i < |blocks| ==> IsName(blocks[i].0)
  }

  /** One block of `sync`: rewrite it when it is stale. */
  function SyncOne(s: Synced, block: Block): Result<Synced>
    requires IsName(block.0)
  {
    match BlockBody(s.text, block.0)
    case Malformed => Malformed
    case Ok(body) =>
      if body == StripBreaks(block.1) then Ok(s)
      else match ReplaceBlock(s.text, block.0, block.1)
        case Malformed => Malformed
        case Ok(text) => Ok(Synced(text, s.stale + [block.0]))
  }

  /** The loop of `sync` over the blocks of one file. */
  function Pass(text: string, blocks: seq<Block>): Result<Synced>
    requires Named(blocks)
  {
    if blocks == [] then Ok(Synced(text, []))
    else match Pass(text, blocks[..|blocks| - 1])
      case Malformed => Malformed
      case Ok(s) => SyncOne(s, blocks[|blocks| - 1])
  }

  /** The file has every block once, no two of them overlapping or nested. */
  ghost predicate Laid(text: string, blocks: seq<Block>)
    requires Named(blocks)
  {
    && (forall i :: 0 <= i < |blocks| ==> Span(text, blocks[i].0).Ok?)
    && forall i, j :: 0 <= i < |blocks| && 0 <= j < |blocks| && i != j ==> Apart(text, blocks[i].0, blocks[j].0)
  }

  /** No body holds a marker of any block of the file. */
  ghost predicate Clean(blocks: seq<Block>)
    requires Named(blocks)
  {
    forall i, j :: 0 <= i < |blocks| && 0 <= j < |blocks| ==> FreeOf(StripBreaks(blocks[i].1), blocks[j].0)
  }

  lemma ApartAfter(text: string, name: string, a: string, b: string, body: string)
    requires IsName(name) && IsName(a) && IsName(b)
    requires Apart(text, name, a) && Apart(text, name, b) && Apart(text, a, b)
    requires FreeOf(StripBreaks(body), a) && FreeOf(StripBreaks(body), b)
    ensures ReplaceBlock(text, name, body).Ok? && Apart(ReplaceBlock(text, name, body).value, a, b)
  {
    hide StripBreaks, Opening, Closing, Span, BlockBody, ReplaceBlock, FreeOf;
    OtherMoves(text, name, a, body);
    OtherMoves(text, name, b, body);
    InOrder(text, name);
    InOrder(text, a);
    InOrder(text, b);
  }

  lemma InOrder(text: string, name: string)
    requires IsName(name) && Span(text, name).Ok?
    ensures var (i, j) := Span(text, name).value; |Opening(name)| <= i <= j <= |text|
  {
    hide Count, Find, Opening, Closing;
    var (i, j) := Span(text, name).value;
    SpanExactly(text, name, i, j);
  }

  lemma ApartFromReplaced(text: string, name: string, other: string, body: string)
    requires IsName(name) && IsName(other) && Apart(text, name, other)
    requires FreeOf(StripBreaks(body), other) && FreeOf(StripBreaks(body), name)
    ensures ReplaceBlock(text, name, body).Ok? && Apart(ReplaceBlock(text, name, body).value, name, other)
    ensures Apart(ReplaceBlock(text, name, body).value, other, name)
  {
    hide StripBreaks, Opening, Closing, Span, BlockBody, ReplaceBlock, FreeOf;
    OtherMoves(text, name, other, body);
    OwnSpan(text, name, body);
    InOrder(text, name);
    InOrder(text, other);
  }

  lemma OwnSpan(text: string, name: string, body: string)
    requires IsName(name) && Span(text, name).Ok? && FreeOf(StripBreaks(body), name)
    ensures ReplaceBlock(text, name, body).Ok?
    ensures var i := Span(text, name).value.0;
      Span(ReplaceBlock(text, name, body).value, name) == Ok((i, i + |StripBreaks(body)| + 2))
  {
    hide StripBreaks, Spliced, Free, Only, At, Opening, Closing, Span;
    var (i, j) := Span(text, name).value;
    SpanExactly(text, name, i, j);
    var inner := StripBreaks(body);
    OnlyAfterSplice(text, i, j, inner, Opening(name), i - |Opening(name)|);
    OnlyAfterSplice(text, i, j, inner, Closing(name), j);
    SplicedBody(text, i, j, inner);
    SpanExactly(Spliced(text, i, j, inner), name, i, i + |inner| + 2);
  }

  /** Rewriting block `k` keeps the layout and every other body. */
  lemma RewriteOne(text: string, blocks: seq<Block>, k: nat)
    requires Named(blocks) && Clean(blocks) && Laid(text, blocks) && k < |blocks|
    ensures var next := ReplaceBlock(text, blocks[k].0, blocks[k].1);
      && next.Ok? && Laid(next.value, blocks)
      && BlockBody(next.value, blocks[k].0) == Ok(StripBreaks(blocks[k].1))
      && forall i :: 0 <= i < |blocks| && i != k ==> BlockBody(next.value, blocks[i].0) == BlockBody(text, blocks[i].0)
  {
    hide StripBreaks, Opening, Closing, Span, BlockBody, ReplaceBlock, Free;
    var (name, body) := blocks[k];
    RoundTrip(text, name, body);
    OwnSpan(text, name, body);
    var next := ReplaceBlock(text, name, body).value;
    forall i | 0 <= i < |blocks| && i != k
      ensures BlockBody(next, blocks[i].0) == BlockBody(text, blocks[i].0) && Span(next, blocks[i].0).Ok?
      ensures Apart(next, name, blocks[i].0) && Apart(next, blocks[i].0, name)
    {
      OtherMoves(text, name, blocks[i].0, body);
      ApartFromReplaced(text, name, blocks[i].0, body);
    }
    forall i, j | 0 <= i < |blocks| && 0 <= j < |blocks| && i != j && i != k && j != k
      ensures Apart(next, blocks[i].0, blocks[j].0)
    {
      ApartAfter(text, name, blocks[i].0, blocks[j].0, body);
    }
  }

  /** Halfway: blocks before `k` are up to date, the others as they were. */
  ghost predicate UpTo(text: string, blocks: seq<Block>, k: nat, s: Synced)
    requires Named(blocks) && k <= |blocks|
  {
    && Laid(s.text, blocks)
    && (forall i :: 0 <= i < k ==> BlockBody(s.text, blocks[i].0) == Ok(StripBreaks(blocks[i].1)))
    && (forall i :: k <= i < |blocks| ==> BlockBody(s.text, blocks[i].0) == BlockBody(text, blocks[i].0))
    && s.stale == Stale(text, blocks[..k])
  }

  /** The blocks whose body differs from the expected one. */
  function Stale(text: string, blocks: seq<Block>): seq<string>
    requires Named(blocks)
  {
    if blocks == [] then []
    else
      var (name, body) := blocks[|blocks| - 1];
      Stale(text, blocks[..|blocks| - 1]) + (if BlockBody(text, name) == Ok(StripBreaks(body)) then [] else [name])
  }

  lemma {:induction false} PassUpTo(text: string, blocks: seq<Block>, k: nat)
    requires Named(blocks) && Clean(blocks) && Laid(text, blocks) && k <= |blocks|
    ensures Pass(text, blocks[..k]).Ok? && UpTo(text, blocks, k, Pass(text, blocks[..k]).value)
  {
    hide StripBreaks, BlockBody, ReplaceBlock, Clean, Laid;
    if k > 0 {
      PassUpTo(text, blocks, k - 1);
      assert blocks[..k][..k - 1] == blocks[..k - 1];
      var s := Pass(text, blocks[..k - 1]).value;
      BodyThere(s.text, blocks, k - 1);
      RewriteOne(s.text, blocks, k - 1);
    }
  }

  lemma BodyThere(text: string, blocks: seq<Block>, k: nat)
    requires Named(blocks) && Laid(text, blocks) && k < |blocks|
    ensures BlockBody(text, blocks[k].0).Ok?
  {
    hide Span, StripBreaks;
  }

  // ----- Markers in bodies -----

  /** Where the markers of every block stand, side by side; they may stand elsewhere too. */
  ghost predicate Placed(text: string, blocks: seq<Block>, places: seq<(int, int)>)
    requires Named(blocks)
  {
    && |places| == |blocks|
    && (forall k :: 0 <= k < |blocks| ==> Marks(text, blocks[k].0, places[k]))
    && forall k, l :: 0 <= k < |blocks| && 0 <= l < |blocks| && k != l ==>
         Beside(blocks[k].0, places[k], blocks[l].0, places[l])
  }

  ghost predicate Marks(text: string, name: string, place: (int, int))
    requires IsName(name)
  {
    && |Opening(name)| <= place.0 <= place.1 <= |text|
    && At(text, Opening(name), place.0 - |Opening(name)|) && At(text, Closing(name), place.1)
  }

  ghost predicate Beside(a: string, at: (int, int), b: string, bt: (int, int))
    requires IsName(a) && IsName(b)
  {
    at.1 + |Closing(a)| <= bt.0 - |Opening(b)| || bt.1 + |Closing(b)| <= at.0 - |Opening(a)|
  }

  lemma LaidIsPlaced(text: string, blocks: seq<Block>) returns (places: seq<(int, int)>)
    requires Named(blocks) && Laid(text, blocks)
    ensures Placed(text, blocks, places)
  {
    hide Span, At, Opening, Closing;
    places := seq(|blocks|, k requires 0 <= k < |blocks| => Span(text, blocks[k].0).value);
    forall k | 0 <= k < |blocks| ensures Marks(text, blocks[k].0, places[k]) {
      SpanExactly(text, blocks[k].0, places[k].0, places[k].1);
    }
    forall k, l | 0 <= k < |blocks| && 0 <= l < |blocks| && k != l
      ensures Beside(blocks[k].0, places[k], blocks[l].0, places[l])
    {
      assert Apart(text, blocks[k].0, blocks[l].0);
    }
  }

  /** A span that is found is the place. */
  lemma SpanIsPlace(text: string, name: string, place: (int, int))
    requires IsName(name) && Marks(text, name, place) && Span(text, name).Ok?
    ensures Span(text, name) == Ok(place) && Stands(text, name, place.0, place.1)
    ensures 0 <= place.0 <= place.1 <= |text|
  {
    hide Span, At, Opening, Closing;
    var (i, j) := Span(text, name).value;
    SpanExactly(text, name, i, j);
  }

  /** Splicing moves whatever stands outside. */
  lemma MarkerMoves(text: string, i: int, j: int, body: string, m: string, p: int)
    requires IsMarker(m) && 0 <= i <= j <= |text| && At(text, m, p) && (p + |m| <= i || p >= j)
    ensures At(Spliced(text, i, j, body), m, Moved(p, m, i, j, body))
  {
    AtSplice(text, i, j, body, m, Moved(p, m, i, j, body));
    PrefixAt(text, i, m, p);
  }

  /** A place after block `name` at `own` has got the body `body`. */
  function Replaced(place: (int, int), own: (int, int), body: string): (int, int) {
    var d := own.0 + |body| + 2 - own.1;
    if place.1 <= own.0 then place else (place.0 + d, place.1 + d)
  }

  lemma OthersStayMarked(text: string, name: string, own: (int, int), other: string, place: (int, int), body: string)
    requires IsName(name) && IsName(other) && Marks(text, name, own) && Marks(text, other, place)
    requires Beside(name, own, other, place)
    ensures Marks(Spliced(text, own.0, own.1, body), other, Replaced(place, own, body))
    ensures Beside(name, (own.0, own.0 + |body| + 2), other, Replaced(place, own, body))
  {
    hide At, Opening, Closing, Spliced;
    MarkerMoves(text, own.0, own.1, body, Opening(other), place.0 - |Opening(other)|);
    MarkerMoves(text, own.0, own.1, body, Closing(other), place.1);
    SplicedBody(text, own.0, own.1, body);
  }

  lemma OwnStaysMarked(text: string, name: string, own: (int, int), body: string)
    requires IsName(name) && Marks(text, name, own)
    ensures Marks(Spliced(text, own.0, own.1, body), name, (own.0, own.0 + |body| + 2))
  {
    hide At, Opening, Closing, Spliced;
    MarkerMoves(text, own.0, own.1, body, Opening(name), own.0 - |Opening(name)|);
    MarkerMoves(text, own.0, own.1, body, Closing(name), own.1);
    SplicedBody(text, own.0, own.1, body);
  }

  /** Rewriting a block keeps all markers in place, whatever the new body holds. */
  lemma RewritePlaced(text: string, blocks: seq<Block>, places: seq<(int, int)>, k: nat, s: Synced)
    returns (after: seq<(int, int)>)
    requires Named(blocks) && Placed(text, blocks, places) && k < |blocks|
    requires s.text == text && SyncOne(s, blocks[k]).Ok?
    ensures Placed(SyncOne(s, blocks[k]).value.text, blocks, after)
  {
    hide At, Opening, Closing, Spliced, Span, Stands, StripBreaks, Marks, Beside, Replaced;
    after := places;
    var (name, body) := blocks[k];
    if SyncOne(s, blocks[k]).value != s {
      var own, inner := places[k], StripBreaks(body);
      SpanIsPlace(text, name, own);
      after := seq(|blocks|, l requires 0 <= l < |blocks| =>
        if l == k then (own.0, own.0 + |inner| + 2) else Replaced(places[l], own, inner));
      OwnStaysMarked(text, name, own, inner);
      forall l | 0 <= l < |blocks| && l != k
        ensures Marks(Spliced(text, own.0, own.1, inner), blocks[l].0, after[l])
        ensures Beside(blocks[k].0, after[k], blocks[l].0, after[l])
        ensures Beside(blocks[l].0, after[l], blocks[k].0, after[k])
      {
        OthersStayMarked(text, name, own, blocks[l].0, places[l], inner);
        BesideBack(blocks[k].0, after[k], blocks[l].0, after[l]);
      }
      forall l, m | 0 <= l < |blocks| && 0 <= m < |blocks| && l != m && l != k && m != k
        ensures Beside(blocks[l].0, after[l], blocks[m].0, after[m])
      {
        BothMove(name, own, blocks[l].0, places[l], blocks[m].0, places[m], text, inner);
      }
    }
  }

  lemma BesideBack(a: string, at: (int, int), b: string, bt: (int, int))
    requires IsName(a) && IsName(b) && Beside(a, at, b, bt)
    ensures Beside(b, bt, a, at)
  {
    hide Opening, Closing;
  }

  lemma BothMove(name: string, own: (int, int), a: string, at: (int, int), b: string, bt: (int, int), text: string,
                 body: string)
    requires IsName(name) && IsName(a) && IsName(b)
    requires Marks(text, name, own) && Marks(text, a, at) && Marks(text, b, bt)
    requires Beside(name, own, a, at) && Beside(name, own, b, bt) && Beside(a, at, b, bt)
    ensures Beside(a, Replaced(at, own, body), b, Replaced(bt, own, body))
  {
    hide At, Opening, Closing;
  }

  lemma {:induction false} PassPlaced(text: string, blocks: seq<Block>, k: nat) returns (places: seq<(int, int)>)
    requires Named(blocks) && Laid(text, blocks) && k <= |blocks| && Pass(text, blocks[..k]).Ok?
    ensures Placed(Pass(text, blocks[..k]).value.text, blocks, places)
  {
    hide Laid, SyncOne, Placed;
    if k == 0 {
      places := LaidIsPlaced(text, blocks);
    } else {
      assert blocks[..k][..k - 1] == blocks[..k - 1];
      places := PassPlaced(text, blocks, k - 1);
      var s := Pass(text, blocks[..k - 1]).value;
      places := RewritePlaced(s.text, blocks, places, k - 1, s);
    }
  }

  lemma {:induction false} StripInside(s: string) returns (n: nat)
    ensures n + |StripBreaks(s)| <= |s| && s[n..n + |StripBreaks(s)|] == StripBreaks(s)
    decreases |s|
  {
    n := 0;
    if s != "" && s[0] == '\n' {
      var rest := StripInside(s[1..]);
      n := rest + 1;
    } else if s != "" && s[|s| - 1] == '\n' {
      n := StripInside(s[..|s| - 1]);
    }
  }

  /** A body read back that holds a marker has it at a second place, inside its own block. */
  lemma MarkerInside(text: string, name: string, place: (int, int), body: string, m: string, k: int) returns (p: int)
    requires IsName(name) && Marks(text, name, place) && BlockBody(text, name) == Ok(body) && At(body, m, k)
    ensures At(text, m, p) && place.0 <= p && p + |m| <= place.1
  {
    hide At, Opening, Closing, Span, StripBreaks;
    SpanIsPlace(text, name, place);
    var (i, j) := place;
    var n := StripInside(text[i..j]);
    p := i + n + k;
    InsideSlices(text, i, j, n, body, m, k);
  }

  lemma InsideSlices(text: string, i: int, j: int, n: nat, body: string, m: string, k: int)
    requires 0 <= i <= j <= |text| && n + |body| <= j - i && text[i..j][n..n + |body|] == body && At(body, m, k)
    ensures At(text, m, i + n + k) && k >= 0 && i + n + k + |m| <= j
  {
    var s := text[i..j];
    assert s[n..][..|body|] == body && text[..j][i..] == s;
    PrefixAt(s[n..], |body|, m, k);
    ShiftedAt(s, n, m, k);
    ShiftedAt(text[..j], i, m, n + k);
    PrefixAt(text, j, m, i + n + k);
  }

  /** If every block reads back as it should, no body holds a marker. */
  lemma ReadBackIsClean(text: string, blocks: seq<Block>, places: seq<(int, int)>)
    requires Named(blocks) && Placed(text, blocks, places)
    requires forall l :: 0 <= l < |blocks| ==> BlockBody(text, blocks[l].0) == Ok(StripBreaks(blocks[l].1))
    ensures Clean(blocks)
  {
    hide At, Opening, Closing, StripBreaks, Span, Marks, Beside;
    forall k, l | 0 <= k < |blocks| && 0 <= l < |blocks| ensures FreeOf(StripBreaks(blocks[l].1), blocks[k].0) {
      FoundOnce(text, blocks[k].0, places[k]);
      forall p ensures !At(StripBreaks(blocks[l].1), Opening(blocks[k].0), p)
                    && !At(StripBreaks(blocks[l].1), Closing(blocks[k].0), p) {
        if At(StripBreaks(blocks[l].1), Opening(blocks[k].0), p) {
          var q := MarkerInside(text, blocks[l].0, places[l], StripBreaks(blocks[l].1), Opening(blocks[k].0), p);
          NotBoth(text, blocks, places, k, l, q);
        }
        if At(StripBreaks(blocks[l].1), Closing(blocks[k].0), p) {
          var q := MarkerInside(text, blocks[l].0, places[l], StripBreaks(blocks[l].1), Closing(blocks[k].0), p);
          NotBoth(text, blocks, places, k, l, q);
        }
      }
    }
  }

  lemma FoundOnce(text: string, name: string, place: (int, int))
    requires IsName(name) && Marks(text, name, place) && BlockBody(text, name).Ok?
    ensures Only(text, Opening(name), place.0 - |Opening(name)|) && Only(text, Closing(name), place.1)
  {
    hide At, Opening, Closing, Span, StripBreaks, Only;
    SpanIsPlace(text, name, place);
  }

  /** The places of one block lie outside every body. */
  lemma NotBoth(text: string, blocks: seq<Block>, places: seq<(int, int)>, k: nat, l: nat, q: int)
    requires Named(blocks) && Placed(text, blocks, places) && k < |blocks| && l < |blocks|
    ensures !(q == places[k].0 - |Opening(blocks[k].0)|
      && places[l].0 <= q && q + |Opening(blocks[k].0)| <= places[l].1)
    ensures !(q == places[k].1 && places[l].0 <= q && q + |Closing(blocks[k].0)| <= places[l].1)
  {
    hide At;
    assert |Opening(blocks[k].0)| > 0 && |Closing(blocks[k].0)| > 0;
    hide Opening, Closing;
    if k != l {
      assert Beside(blocks[k].0, places[k], blocks[l].0, places[l]);
    }
    assert Marks(text, blocks[k].0, places[k]) && Marks(text, blocks[l].0, places[l]);
  }

  // ----- sync over all files -----

  /** One entry of the expected blocks. */
  datatype Target = Target(file: string, name: string, body: string)

  /** The cached texts and the stale blocks, as file and name. */
  datatype Cache = Cache(texts: map<string, string>, stale: seq<(string, string)>)

  predicate AllNamed(targets: seq<Target>) {
    forall i :: 0 <= i < |targets| ==> IsName(targets[i].name)
  }

  /** An optional file that does not exist yet is passed over. */
  predicate Skipped(files: map<string, string>, optional: set<string>, t: Target) {
    t.file in optional && t.file !in files
  }

  function Visit(files: map<string, string>, optional: set<string>, c: Cache, t: Target): Result<Cache>
    requires IsName(t.name)
  {
    if Skipped(files, optional, t) then Ok(c)
    else if t.file !in c.texts && t.file !in files then Malformed
    else
      var text := if t.file in c.texts then c.texts[t.file] else files[t.file];
      match SyncOne(Synced(text, []), (t.name, t.body))
      case Malformed => Malformed
      case Ok(s) =>
        Ok(Cache(c.texts[t.file := s.text], if s.stale == [] then c.stale else c.stale + [(t.file, t.name)]))
  }

  function VisitAll(files: map<string, string>, optional: set<string>, targets: seq<Target>): Result<Cache>
    requires AllNamed(targets)
  {
    if targets == [] then Ok(Cache(map[], []))
    else match VisitAll(files, optional, targets[..|targets| - 1])
      case Malformed => Malformed
      case Ok(c) => Visit(files, optional, c, targets[|targets| - 1])
  }

  predicate Listed(stale: seq<(string, string)>, file: string) {
    exists i :: 0 <= i < |stale| && stale[i].0 == file
  }

  /** The files after `sync` with `write`: the stale ones are rewritten. */
  function Written(files: map<string, string>, c: Cache): map<string, string> {
    map f | f in files :: if f in c.texts && Listed(c.stale, f) then c.texts[f] else files[f]
  }

  /** `sync`: the stale blocks, and the files it leaves behind. */
  method Sync(files: map<string, string>, optional: set<string>, targets: seq<Target>, write: bool)
    returns (stale: Result<seq<(string, string)>>, after: map<string, string>)
    requires AllNamed(targets)
    ensures stale.Malformed? <==> VisitAll(files, optional, targets).Malformed?
    ensures stale.Malformed? ==> after == files
    ensures stale.Ok? ==>
      var c := VisitAll(files, optional, targets).value;
      stale.value == c.stale && after == if write then Written(files, c) else files
  {
    hide BlockBody, ReplaceBlock, StripBreaks, Written;
    var texts, late := map[], [];
    after := files;
    for k := 0 to |targets|
      invariant VisitAll(files, optional, targets[..k]) == Ok(Cache(texts, late))
    {
      assert targets[..k + 1][..k] == targets[..k];
      var t := targets[k];
      if t.file in optional && t.file !in files {
        continue;
      }
      if t.file !in texts && t.file !in files {
        VisitFails(files, optional, targets, k + 1);
        return Malformed, files;
      }
      var text := if t.file in texts then texts[t.file] else files[t.file];
      var current := BlockBody(text, t.name);
      if current.Malformed? {
        VisitFails(files, optional, targets, k + 1);
        return Malformed, files;
      }
      if current.value != StripBreaks(t.body) {
        var rewritten := ReplaceBlock(text, t.name, t.body);
        if rewritten.Malformed? {
          VisitFails(files, optional, targets, k + 1);
          return Malformed, files;
        }
        text, late := rewritten.value, late + [(t.file, t.name)];
      }
      texts := texts[t.file := text];
    }
    assert targets[..|targets|] == targets;
    stale := Ok(late);
    if write {
      after := Written(files, Cache(texts, late));
    }
  }

  lemma {:induction false} VisitFails(files: map<string, string>, optional: set<string>, targets: seq<Target>, k: nat)
    requires AllNamed(targets) && k <= |targets| && VisitAll(files, optional, targets[..k]).Malformed?
    ensures VisitAll(files, optional, targets).Malformed?
    decreases |targets|
  {
    if k == |targets| {
      assert targets[..k] == targets;
    } else {
      assert targets[..|targets| - 1][..k] == targets[..k];
      VisitFails(files, optional, targets[..|targets| - 1], k);
    }
  }

  /** The blocks of one file, in order. */
  function BlocksOf(targets: seq<Target>, file: string): (blocks: seq<Block>)
    requires AllNamed(targets)
    ensures Named(blocks)
  {
    if targets == [] then []
    else
      var t := targets[|targets| - 1];
      BlocksOf(targets[..|targets| - 1], file) + (if t.file == file then [(t.name, t.body)] else [])
  }

  /** Every file lays out its blocks side by side. */
  ghost predicate AllBeside(files: map<string, string>, targets: seq<Target>)
    requires AllNamed(targets)
  {
    forall f :: f in files ==> Laid(files[f], BlocksOf(targets, f))
  }

  /** No body holds a marker of its file. */
  ghost predicate AllClean(files: map<string, string>, targets: seq<Target>)
    requires AllNamed(targets)
  {
    forall f :: f in files ==> Clean(BlocksOf(targets, f))
  }

  /** Every file that is not optional is there. */
  predicate Supplied(files: map<string, string>, optional: set<string>, targets: seq<Target>) {
    forall i :: 0 <= i < |targets| ==> targets[i].file in files || targets[i].file in optional
  }

  ghost predicate AllLaid(files: map<string, string>, optional: set<string>, targets: seq<Target>)
    requires AllNamed(targets)
  {
    Supplied(files, optional, targets) && AllBeside(files, targets) && AllClean(files, targets)
  }

  lemma {:induction false} BlocksOfPrefix(targets: seq<Target>, k: nat, file: string) returns (m: nat)
    requires AllNamed(targets) && k <= |targets|
    ensures m <= |BlocksOf(targets, file)| && BlocksOf(targets[..k], file) == BlocksOf(targets, file)[..m]
    decreases |targets|
  {
    if k == |targets| {
      m := |BlocksOf(targets, file)|;
      assert targets[..k] == targets;
    } else {
      m := BlocksOfPrefix(targets[..|targets| - 1], k, file);
      assert targets[..|targets| - 1][..k] == targets[..k];
    }
  }

  /** What the cache holds of one file: the pass over its own blocks, once one of them was visited. */
  ghost predicate FileIs(files: map<string, string>, blocks: seq<Block>, c: Cache, f: string)
    requires Named(blocks)
  {
    if f in c.texts then
      && f in files && Pass(files[f], blocks).Ok?
      && c.texts[f] == Pass(files[f], blocks).value.text
      && (Pass(files[f], blocks).value.stale != [] <==> Listed(c.stale, f))
    else
      (f in files ==> blocks == []) && !Listed(c.stale, f)
  }

  ghost predicate CacheIs(files: map<string, string>, targets: seq<Target>, c: Cache)
    requires AllNamed(targets)
  {
    forall f :: FileIs(files, BlocksOf(targets, f), c, f)
  }

  lemma VisitOne(files: map<string, string>, optional: set<string>, targets: seq<Target>, k: nat, c: Cache)
    requires AllNamed(targets) && k < |targets|
    requires CacheIs(files, targets[..k], c) && Visit(files, optional, c, targets[k]).Ok?
    ensures CacheIs(files, targets[..k + 1], Visit(files, optional, c, targets[k]).value)
  {
    hide Visit, BlocksOf, FileIs, Pass, Laid, Clean;
    var t, was, now := targets[k], targets[..k], targets[..k + 1];
    assert FileIs(files, BlocksOf(was, t.file), c, t.file);
    BlocksOfNext(targets, k);
    if Skipped(files, optional, t) {
      VisitSkips(files, optional, c, t);
      forall f ensures FileIs(files, BlocksOf(now, f), c, f) {
        assert FileIs(files, BlocksOf(was, f), c, f);
        if f == t.file {
          SkippedFile(files, optional, BlocksOf(was, f), BlocksOf(now, f), c, t);
        }
      }
    } else {
      VisitThis(files, optional, BlocksOf(was, t.file), c, t);
      var d := Visit(files, optional, c, t).value;
      forall f ensures FileIs(files, BlocksOf(now, f), d, f) {
        if f != t.file {
          assert FileIs(files, BlocksOf(was, f), c, f);
          VisitLeaves(files, optional, BlocksOf(was, f), c, t, f);
        }
      }
    }
  }

  lemma BlocksOfNext(targets: seq<Target>, k: nat)
    requires AllNamed(targets) && k < |targets|
    ensures BlocksOf(targets[..k + 1], targets[k].file) ==
      BlocksOf(targets[..k], targets[k].file) + [(targets[k].name, targets[k].body)]
    ensures forall f :: f != targets[k].file ==> BlocksOf(targets[..k + 1], f) == BlocksOf(targets[..k], f)
  {
    assert targets[..k + 1][..k] == targets[..k];
  }

  lemma VisitSkips(files: map<string, string>, optional: set<string>, c: Cache, t: Target)
    requires IsName(t.name) && Skipped(files, optional, t)
    ensures Visit(files, optional, c, t) == Ok(c)
  {
  }

  /** A file that does not exist is in no cache, so its blocks do not matter. */
  lemma SkippedFile(files: map<string, string>, optional: set<string>, was: seq<Block>, now: seq<Block>,
                    c: Cache, t: Target)
    requires Named(was) && Named(now) && Skipped(files, optional, t) && FileIs(files, was, c, t.file)
    ensures FileIs(files, now, c, t.file)
  {
    hide Pass;
  }

  /** Visiting a target carries the pass over its file one block further. */
  lemma VisitThis(files: map<string, string>, optional: set<string>, blocks: seq<Block>, c: Cache, t: Target)
    requires Named(blocks) && IsName(t.name) && !Skipped(files, optional, t) && FileIs(files, blocks, c, t.file)
    ensures Visit(files, optional, c, t).Ok? <==>
      t.file in files && Pass(files[t.file], blocks + [(t.name, t.body)]).Ok?
    ensures Visit(files, optional, c, t).Ok? ==>
      FileIs(files, blocks + [(t.name, t.body)], Visit(files, optional, c, t).value, t.file)
  {
    hide Pass, SyncOne, StripBreaks, Listed;
    if t.file in files {
      PassOne(files[t.file], blocks, (t.name, t.body));
      PassNothing(files[t.file]);
      var text := if t.file in c.texts then c.texts[t.file] else files[t.file];
      var before := Pass(files[t.file], blocks).value;
      assert before.text == text;
      SyncOneStale(Synced(text, []), before, (t.name, t.body));
      ListedNext(c.stale, (t.file, t.name), t.file);
    }
  }

  lemma ListedNext(stale: seq<(string, string)>, entry: (string, string), file: string)
    ensures Listed(stale + [entry], file) <==> Listed(stale, file) || entry.0 == file
  {
    if entry.0 == file {
      assert (stale + [entry])[|stale|] == entry;
    }
    if Listed(stale, file) {
      var i :| 0 <= i < |stale| && stale[i].0 == file;
      assert (stale + [entry])[i].0 == file;
    }
  }

  /** It leaves every other file of the cache alone. */
  lemma VisitLeaves(files: map<string, string>, optional: set<string>, blocks: seq<Block>, c: Cache, t: Target,
                    f: string)
    requires Named(blocks) && IsName(t.name) && f != t.file && Visit(files, optional, c, t).Ok?
    requires FileIs(files, blocks, c, f)
    ensures FileIs(files, blocks, Visit(files, optional, c, t).value, f)
  {
    hide Pass, SyncOne, StripBreaks, Listed;
    ListedNext(c.stale, (t.file, t.name), f);
  }

  lemma PassNothing(text: string)
    ensures Pass(text, []) == Ok(Synced(text, []))
  {
  }

  lemma PassOne(text: string, blocks: seq<Block>, block: Block)
    requires Named(blocks) && IsName(block.0)
    ensures Pass(text, blocks + [block]) ==
      match Pass(text, blocks) case Malformed => Malformed case Ok(s) => SyncOne(s, block)
  {
    assert (blocks + [block])[..|blocks|] == blocks;
  }

  /** Rewriting depends on the text alone; the list of stale blocks only grows. */
  lemma SyncOneStale(a: Synced, b: Synced, block: Block)
    requires IsName(block.0) && a.text == b.text && a.stale == []
    ensures SyncOne(a, block).Ok? <==> SyncOne(b, block).Ok?
    ensures SyncOne(a, block).Ok? ==>
      && SyncOne(a, block).value.text == SyncOne(b, block).value.text
      && SyncOne(b, block).value.stale == b.stale + SyncOne(a, block).value.stale
  {
    hide BlockBody, ReplaceBlock, StripBreaks;
  }

  lemma VisitedFile(files: map<string, string>, optional: set<string>, targets: seq<Target>, k: nat)
    requires AllNamed(targets) && AllLaid(files, optional, targets) && k < |targets|
    requires !Skipped(files, optional, targets[k])
    ensures targets[k].file in files
    ensures Pass(files[targets[k].file], BlocksOf(targets[..k + 1], targets[k].file)).Ok?
  {
    hide Laid, Clean, Pass;
    var f := targets[k].file;
    var m := BlocksOfPrefix(targets, k + 1, f);
    PassUpTo(files[f], BlocksOf(targets, f), m);
  }

  /** As long as `sync` has not failed, its cache holds the passes. */
  lemma {:induction false} CacheAt(files: map<string, string>, optional: set<string>, targets: seq<Target>, k: nat)
    requires AllNamed(targets) && k <= |targets| && VisitAll(files, optional, targets[..k]).Ok?
    ensures CacheIs(files, targets[..k], VisitAll(files, optional, targets[..k]).value)
  {
    hide CacheIs, Visit;
    if k == 0 {
      NothingCached(files);
      assert targets[..0] == [];
    } else {
      assert targets[..k][..k - 1] == targets[..k - 1];
      CacheAt(files, optional, targets, k - 1);
      VisitOne(files, optional, targets, k - 1, VisitAll(files, optional, targets[..k - 1]).value);
    }
  }

  /** With clean bodies it does not fail. */
  lemma {:induction false} SyncSucceeds(files: map<string, string>, optional: set<string>, targets: seq<Target>, k: nat)
    requires AllNamed(targets) && AllLaid(files, optional, targets) && k <= |targets|
    ensures VisitAll(files, optional, targets[..k]).Ok?
  {
    hide AllLaid, Visit, Pass, FileIs, BlocksOf;
    if k == 0 {
      assert targets[..0] == [];
    } else {
      assert targets[..k][..k - 1] == targets[..k - 1];
      SyncSucceeds(files, optional, targets, k - 1);
      CacheAt(files, optional, targets, k - 1);
      var c, t := VisitAll(files, optional, targets[..k - 1]).value, targets[k - 1];
      assert FileIs(files, BlocksOf(targets[..k - 1], t.file), c, t.file);
      if Skipped(files, optional, t) {
        VisitSkips(files, optional, c, t);
      } else {
        VisitedFile(files, optional, targets, k - 1);
        BlocksOfNext(targets, k - 1);
        VisitThis(files, optional, BlocksOf(targets[..k - 1], t.file), c, t);
      }
    }
  }

  lemma NothingCached(files: map<string, string>)
    ensures CacheIs(files, [], Cache(map[], []))
  {
  }

  /** Whatever the files and bodies, unless `sync` fails it leaves every file as the pass over its own
      blocks, however the targets of several files interleave. */
  lemma WrittenIsPassed(files: map<string, string>, optional: set<string>, targets: seq<Target>, f: string)
    requires AllNamed(targets) && f in files && VisitAll(files, optional, targets).Ok?
    ensures Pass(files[f], BlocksOf(targets, f)).Ok?
    ensures Written(files, VisitAll(files, optional, targets).value)[f] ==
      Pass(files[f], BlocksOf(targets, f)).value.text
  {
    hide VisitAll, Pass;
    assert targets[..|targets|] == targets;
    CacheAt(files, optional, targets, |targets|);
    var blocks := BlocksOf(targets, f);
    PassNothing(files[f]);
    var c := VisitAll(files, optional, targets).value;
    assert FileIs(files, blocks, c, f);
    if Pass(files[f], blocks).value.stale == [] {
      NothingStale(files[f], blocks);
    }
  }

  lemma {:induction false} NothingStale(text: string, blocks: seq<Block>)
    requires Named(blocks) && Pass(text, blocks).Ok? && Pass(text, blocks).value.stale == []
    ensures Pass(text, blocks).value.text == text
    ensures forall i :: 0 <= i < |blocks| ==> BlockBody(text, blocks[i].0) == Ok(StripBreaks(blocks[i].1))
  {
    hide BlockBody, ReplaceBlock, StripBreaks;
    if blocks != [] {
      NothingStale(text, blocks[..|blocks| - 1]);
    }
  }

  /** In the written files every target reads back as it should. */
  lemma TargetUpToDate(files: map<string, string>, optional: set<string>, targets: seq<Target>, k: nat)
    requires AllNamed(targets) && AllLaid(files, optional, targets) && k < |targets| && targets[k].file in files
    ensures VisitAll(files, optional, targets).Ok?
    ensures BlockBody(Written(files, VisitAll(files, optional, targets).value)[targets[k].file], targets[k].name)
      == Ok(StripBreaks(targets[k].body))
  {
    hide Laid, Clean, VisitAll, Pass, BlockBody, StripBreaks, Written;
    var f := targets[k].file;
    SyncSucceeds(files, optional, targets, |targets|);
    assert targets[..|targets|] == targets;
    WrittenIsPassed(files, optional, targets, f);
    var blocks := BlocksOf(targets, f);
    PassUpTo(files[f], blocks, |blocks|);
    assert blocks[..|blocks|] == blocks;
    var i := BlockOfTarget(targets, k);
  }

  lemma {:induction false} BlockOfTarget(targets: seq<Target>, k: nat) returns (i: nat)
    requires AllNamed(targets) && k < |targets|
    ensures i < |BlocksOf(targets, targets[k].file)|
    ensures BlocksOf(targets, targets[k].file)[i] == (targets[k].name, targets[k].body)
  {
    var n := |targets| - 1;
    if k == n {
      i := |BlocksOf(targets, targets[k].file)| - 1;
    } else {
      i := BlockOfTarget(targets[..n], k);
    }
  }

  /** The targets whose block differs from the expected body, in order. */
  function OutOfDate(files: map<string, string>, targets: seq<Target>): seq<(string, string)>
    requires AllNamed(targets)
  {
    if targets == [] then []
    else
      var n := |targets| - 1;
      var t := targets[n];
      OutOfDate(files, targets[..n])
        + (if t.file in files && BlockBody(files[t.file], t.name) != Ok(StripBreaks(t.body)) then [(t.file, t.name)]
           else [])
  }

  /** `sync` reports exactly the blocks that were out of date before it began, although it compares
      each with a text it may have rewritten by then. */
  lemma {:induction false} ReportsOutOfDate(files: map<string, string>, optional: set<string>, targets: seq<Target>,
      k: nat)
    requires AllNamed(targets) && AllLaid(files, optional, targets) && k <= |targets|
    ensures VisitAll(files, optional, targets[..k]).Ok?
    ensures VisitAll(files, optional, targets[..k]).value.stale == OutOfDate(files, targets[..k])
  {
    SyncSucceeds(files, optional, targets, k);
    hide AllLaid, Visit, BlockBody, StripBreaks;
    if k == 0 {
      assert targets[..0] == [];
    } else {
      ReportsOutOfDate(files, optional, targets, k - 1);
      CacheAt(files, optional, targets, k - 1);
      assert targets[..k][..k - 1] == targets[..k - 1];
      ReportsOne(files, optional, targets, k - 1, VisitAll(files, optional, targets[..k - 1]).value);
    }
  }

  lemma ReportsOne(files: map<string, string>, optional: set<string>, targets: seq<Target>, k: nat, c: Cache)
    requires AllNamed(targets) && AllLaid(files, optional, targets) && k < |targets|
    requires CacheIs(files, targets[..k], c) && Visit(files, optional, c, targets[k]).Ok?
    ensures var t := targets[k];
      Visit(files, optional, c, t).value.stale == c.stale
        + (if t.file in files && BlockBody(files[t.file], t.name) != Ok(StripBreaks(t.body)) then [(t.file, t.name)]
           else [])
  {
    hide BlocksOf, Pass, Laid, Clean, BlockBody, StripBreaks, ReplaceBlock;
    var t := targets[k];
    assert FileIs(files, BlocksOf(targets[..k], t.file), c, t.file);
    if !Skipped(files, optional, t) {
      VisitedFile(files, optional, targets, k);
      StillAsBefore(files, optional, targets, k);
      PassNothing(files[t.file]);
    }
  }

  /** Rewriting the earlier blocks of a file has not touched the next one. */
  lemma StillAsBefore(files: map<string, string>, optional: set<string>, targets: seq<Target>, k: nat)
    requires AllNamed(targets) && AllLaid(files, optional, targets) && k < |targets| && targets[k].file in files
    ensures var t := targets[k];
      var s := Pass(files[t.file], BlocksOf(targets[..k], t.file));
      s.Ok? && BlockBody(s.value.text, t.name) == BlockBody(files[t.file], t.name)
  {
    hide Pass, Laid, Clean, BlockBody, StripBreaks, ReplaceBlock;
    var t := targets[k];
    var blocks := BlocksOf(targets, t.file);
    var m := BlocksOfPrefix(targets, k, t.file);
    var next := BlocksOfPrefix(targets, k + 1, t.file);
    BlocksOfNext(targets, k);
    assert next == m + 1;
    assert blocks[..next][m] == (t.name, t.body);
    PassUpTo(files[t.file], blocks, m);
  }

  /** Targets that all read back as they should leave nothing stale. */
  lemma {:induction false} NothingToDo(files: map<string, string>, optional: set<string>, targets: seq<Target>)
    requires AllNamed(targets)
    requires forall i :: 0 <= i < |targets| ==>
      if targets[i].file in files
        then BlockBody(files[targets[i].file], targets[i].name) == Ok(StripBreaks(targets[i].body))
      else targets[i].file in optional
    ensures VisitAll(files, optional, targets).Ok? && VisitAll(files, optional, targets).value.stale == []
    ensures forall f :: f in VisitAll(files, optional, targets).value.texts ==>
      f in files && VisitAll(files, optional, targets).value.texts[f] == files[f]
  {
    hide BlockBody, StripBreaks, ReplaceBlock;
    if targets != [] {
      var n := |targets| - 1;
      forall i | 0 <= i < n
        ensures if targets[..n][i].file in files
          then BlockBody(files[targets[..n][i].file], targets[..n][i].name) == Ok(StripBreaks(targets[..n][i].body))
          else targets[..n][i].file in optional
      {
        assert targets[..n][i] == targets[i];
      }
      NothingToDo(files, optional, targets[..n]);
    }
  }

  /** `sync` with `write` reports exactly the blocks that were out of date, and `sync` again finds nothing
      stale, whatever files, cached texts and missing optional files were involved. */
  lemma WriteThenCheck(files: map<string, string>, optional: set<string>, targets: seq<Target>)
    requires AllNamed(targets) && AllLaid(files, optional, targets)
    ensures VisitAll(files, optional, targets).Ok?
    ensures VisitAll(files, optional, targets).value.stale == OutOfDate(files, targets)
    ensures var written := Written(files, VisitAll(files, optional, targets).value);
      VisitAll(written, optional, targets).Ok? && VisitAll(written, optional, targets).value.stale == []
  {
    hide AllLaid, VisitAll, BlockBody, StripBreaks;
    ReportsOutOfDate(files, optional, targets, |targets|);
    assert targets[..|targets|] == targets;
    var written := Written(files, VisitAll(files, optional, targets).value);
    forall i | 0 <= i < |targets|
      ensures if targets[i].file in written
        then BlockBody(written[targets[i].file], targets[i].name) == Ok(StripBreaks(targets[i].body))
        else targets[i].file in optional
    {
      if targets[i].file in files {
        TargetUpToDate(files, optional, targets, i);
      } else {
        MissingIsOptional(files, optional, targets, i);
      }
    }
    NothingToDo(written, optional, targets);
  }

  lemma MissingIsOptional(files: map<string, string>, optional: set<string>, targets: seq<Target>, i: nat)
    requires AllNamed(targets) && AllLaid(files, optional, targets) && i < |targets| && targets[i].file !in files
    ensures targets[i].file in optional
  {
  }

  // ----- When it settles -----

  /** `sync` with `write` succeeds, and `sync` again finds nothing stale. */
  predicate Settles(files: map<string, string>, optional: set<string>, targets: seq<Target>)
    requires AllNamed(targets)
  {
    && VisitAll(files, optional, targets).Ok?
    && var written := Written(files, VisitAll(files, optional, targets).value);
      VisitAll(written, optional, targets).Ok? && VisitAll(written, optional, targets).value.stale == []
  }

  /** Over files that lay out their blocks side by side it settles if and only if every file that is
      not optional is there and no body holds a marker of its file. */
  lemma SettlesExactly(files: map<string, string>, optional: set<string>, targets: seq<Target>)
    requires AllNamed(targets) && AllBeside(files, targets)
    ensures Settles(files, optional, targets) <==> Supplied(files, optional, targets) && AllClean(files, targets)
  {
    hide AllBeside, VisitAll, Written, Laid, Clean, Supplied;
    if Supplied(files, optional, targets) && AllClean(files, targets) {
      WriteThenCheck(files, optional, targets);
    }
    if Settles(files, optional, targets) {
      SuccessIsSupplied(files, optional, targets);
      forall f | f in files ensures Clean(BlocksOf(targets, f)) {
        SettledIsClean(files, optional, targets, f);
      }
    }
  }

  lemma SuccessIsSupplied(files: map<string, string>, optional: set<string>, targets: seq<Target>)
    requires AllNamed(targets) && VisitAll(files, optional, targets).Ok?
    ensures Supplied(files, optional, targets)
  {
    hide Visit, FileIs;
    forall i | 0 <= i < |targets| ensures targets[i].file in files || targets[i].file in optional {
      if VisitAll(files, optional, targets[..i + 1]).Malformed? {
        VisitFails(files, optional, targets, i + 1);
      }
      assert targets[..i + 1][..i] == targets[..i];
      CacheAt(files, optional, targets, i);
      VisitedIsThere(files, optional, BlocksOf(targets[..i], targets[i].file),
        VisitAll(files, optional, targets[..i]).value, targets[i]);
    }
  }

  lemma VisitedIsThere(files: map<string, string>, optional: set<string>, blocks: seq<Block>, c: Cache, t: Target)
    requires Named(blocks) && IsName(t.name) && FileIs(files, blocks, c, t.file) && Visit(files, optional, c, t).Ok?
    ensures t.file in files || t.file in optional
  {
    hide Pass, SyncOne;
  }

  lemma SettledIsClean(files: map<string, string>, optional: set<string>, targets: seq<Target>, f: string)
    requires AllNamed(targets) && AllBeside(files, targets) && Settles(files, optional, targets) && f in files
    ensures Clean(BlocksOf(targets, f))
  {
    hide VisitAll, Pass, Laid, Clean, BlocksOf, Placed, BlockBody, StripBreaks;
    var blocks, c := BlocksOf(targets, f), VisitAll(files, optional, targets).value;
    var written := Written(files, c);
    WrittenIsPassed(files, optional, targets, f);
    assert blocks[..|blocks|] == blocks && targets[..|targets|] == targets;
    var places := PassPlaced(files[f], blocks, |blocks|);
    CacheAt(written, optional, targets, |targets|);
    assert FileIs(written, blocks, VisitAll(written, optional, targets).value, f);
    PassNothing(written[f]);
    NothingStale(written[f], blocks);
    ReadBackIsClean(written[f], blocks, places);
  }
}
