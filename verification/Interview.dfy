/** The interview conversation of src/alphaswarm/interview.py: its window, its summary, and what
    each provider outcome leaves behind. The session lock makes one `ask` one step. */
module Interview {
  import opened Common

  datatype Message = User(text: string) | Assistant(text: string)

  /** How the provider ended a call. A hard stop is re-raised; any other failure of the summary
      call is only logged. */
  datatype Outcome = Answer(text: string) | Failure | HardStop

  /** One `ask`: the question, the chat call, and the summary call if one is made. */
  datatype Turn = Turn(question: string, chat: Outcome, summary: Outcome)

  /** `blocks` is history: the blocks of messages folded into the summary, oldest first. */
  datatype Talk = Talk(history: seq<Message>, summary: Option<string>, blocks: seq<seq<Message>>)

  const WINDOW_SIZE := 12
  const TRIM_BLOCK_PAIRS := 6
  const SUMMARY_MAX_CHARS := 1500

  /** White space as `str.lstrip` sees it. */
  predicate IsSpace(c: char) {
    || '\U{9}' <= c <= '\U{D}' || '\U{1C}' <= c <= '\U{20}' || c == '\U{85}' || c == '\U{A0}' || c == '\U{1680}'
    || '\U{2000}' <= c <= '\U{200A}' || c == '\U{2028}' || c == '\U{2029}' || c == '\U{202F}' || c == '\U{205F}'
    || c == '\U{3000}'
  }

  /** Blanks, tabs and line ends of every kind are white space; letters, digits and signs are not. */
  lemma SpacesAre(c: char)
    ensures c == ' ' || c == '\t' || c == '\n' || c == '\r' ==> IsSpace(c)
    ensures c as int < 128 ==> (IsSpace(c) <==> 9 <= c as int <= 13 || 28 <= c as int <= 32)
  {
  }

  function LStrip(s: string): (r: string)
    ensures |r| <= |s| && r == s[|s| - |r|..]
  {
    if s != "" && IsSpace(s[0]) then LStrip(s[1..]) else s
  }

  /** The merged summary, cut to its newest characters. */
  function Merge(before: Option<string>, text: string): (r: string)
    ensures |r| <= SUMMARY_MAX_CHARS
  {
    var merged := if before.Some? then before.value + " " + text else text;
    if |merged| > SUMMARY_MAX_CHARS then LStrip(merged[|merged| - SUMMARY_MAX_CHARS..]) else merged
  }

  predicate Overfull(t: Talk) {
    |t.history| / 2 > WINDOW_SIZE
  }

  /** `_trim_window`. */
  function Trim(t: Talk, outcome: Outcome): Talk {
    if !Overfull(t) || !outcome.Answer? then t
    else
      var cut := 2 * TRIM_BLOCK_PAIRS;
      Talk(t.history[cut..], Some(Merge(t.summary, outcome.text)), t.blocks + [t.history[..cut]])
  }

  function Ask(t: Talk, turn: Turn): Talk {
    if !turn.chat.Answer? then t
    else Trim(t.(history := t.history + [User(turn.question), Assistant(turn.chat.text)]), turn.summary)
  }

  function Start(): Talk {
    Talk([], None, [])
  }

  function After(turns: seq<Turn>): Talk {
    if turns == [] then Start() else Ask(After(turns[..|turns| - 1]), turns[|turns| - 1])
  }

  // ----- The class -----

  class InterviewEngine {
    var history: seq<Message>
    var summary: Option<string>
    ghost var blocks: seq<seq<Message>>

    ghost function View(): Talk
      reads this
    {
      Talk(history, summary, blocks)
    }

    constructor ()
      ensures View() == Start()
    {
      history, summary, blocks := [], None, [];
    }

    /** What `ask` returns: the answer, or the error it raises. */
    method AskOnce(question: string, chat: Outcome, summaryCall: Outcome) returns (r: Outcome)
      modifies this
      ensures View() == Ask(old(View()), Turn(question, chat, summaryCall))
      ensures !chat.Answer? ==> r == chat
      ensures chat.Answer? ==>
        r == (if Overfull(old(Extended(question, chat.text))) && summaryCall.HardStop? then HardStop else chat)
    {
      if !chat.Answer? {
        return chat;
      }
      history := history + [User(question), Assistant(chat.text)];
      var raised := TrimWindow(summaryCall);
      return if raised.HardStop? then HardStop else chat;
    }

    ghost function Extended(question: string, answer: string): Talk
      reads this
    {
      View().(history := history + [User(question), Assistant(answer)])
    }

    method TrimWindow(call: Outcome) returns (raised: Outcome)
      modifies this
      ensures View() == Trim(old(View()), call)
      ensures raised == (if Overfull(old(View())) then call else Answer(""))
    {
      if |history| / 2 <= WINDOW_SIZE {
        return Answer("");
      }
      if !call.Answer? {
        return call;
      }
      var block := history[..2 * TRIM_BLOCK_PAIRS];
      var merged := if summary.Some? then summary.value + " " + call.text else call.text;
      if |merged| > SUMMARY_MAX_CHARS {
        merged := LStrip(merged[|merged| - SUMMARY_MAX_CHARS..]);
      }
      summary := Some(merged);
      history := history[2 * TRIM_BLOCK_PAIRS..];
      blocks := blocks + [block];
      return call;
    }
  }

  // ----- Whole conversations -----

  /** Everything said: the pairs of the turns whose chat call answered. */
  function Transcript(turns: seq<Turn>): seq<Message> {
    if turns == [] then []
    else
      var t := turns[|turns| - 1];
      Transcript(turns[..|turns| - 1]) + (if t.chat.Answer? then [User(t.question), Assistant(t.chat.text)] else [])
  }

  function Flatten(blocks: seq<seq<Message>>): seq<Message> {
    if blocks == [] then [] else Flatten(blocks[..|blocks| - 1]) + blocks[|blocks| - 1]
  }

  ghost predicate Paired(s: seq<Message>) {
    |s| % 2 == 0 && forall i :: 0 <= i < |s| ==> if i % 2 == 0 then s[i].User? else s[i].Assistant?
  }

  /** Turns whose answer came but whose summary call was due and failed. */
  function FailedTrims(turns: seq<Turn>): nat {
    if turns == [] then 0
    else
      var t, before := turns[|turns| - 1], After(turns[..|turns| - 1]);
      FailedTrims(turns[..|turns| - 1])
        + (if t.chat.Answer? && |before.history| / 2 >= 12 && !t.summary.Answer? then 1 else 0)
  }

  ghost predicate Sound(t: Talk, said: seq<Message>, failed: nat) {
    && Flatten(t.blocks) + t.history == said
    && Paired(t.history)
    && (forall i :: 0 <= i < |t.blocks| ==> |t.blocks[i]| == 12 && Paired(t.blocks[i]))
    && (t.summary.Some? <==> t.blocks != [])
    && (t.summary.Some? ==> |t.summary.value| <= 1500)
    && |t.history| / 2 <= 12 + failed
  }

  /** After any conversation, whatever calls failed: the folded blocks and the window together are
      the transcript, so every pair was folded at most once and none is lost; the window holds whole
      pairs and exceeds its size only by failed trims; the summary is bounded. */
  lemma {:induction false} ConversationIsSound(turns: seq<Turn>)
    ensures Sound(After(turns), Transcript(turns), FailedTrims(turns))
  {
    if turns != [] {
      var n := |turns| - 1;
      ConversationIsSound(turns[..n]);
      TurnKeepsSound(After(turns[..n]), turns[n], Transcript(turns[..n]), FailedTrims(turns[..n]));
    }
  }

  lemma TurnKeepsSound(t: Talk, turn: Turn, said: seq<Message>, failed: nat)
    requires Sound(t, said, failed)
    ensures var pair := if turn.chat.Answer? then [User(turn.question), Assistant(turn.chat.text)] else [];
      var more := if turn.chat.Answer? && |t.history| / 2 >= 12 && !turn.summary.Answer? then 1 else 0;
      Sound(Ask(t, turn), said + pair, failed + more)
  {
    hide Flatten, Merge;
    if turn.chat.Answer? {
      var pair := [User(turn.question), Assistant(turn.chat.text)];
      var longer := t.(history := t.history + pair);
      assert Flatten(t.blocks) + longer.history == said + pair;
      if Overfull(longer) && turn.summary.Answer? {
        FoldBlock(t.blocks, longer.history, 2 * TRIM_BLOCK_PAIRS);
      }
    } else {
      assert said + [] == said;
    }
  }

  lemma FoldBlock(blocks: seq<seq<Message>>, history: seq<Message>, cut: nat)
    requires cut <= |history|
    ensures Flatten(blocks + [history[..cut]]) + history[cut..] == Flatten(blocks) + history
  {
    assert (blocks + [history[..cut]])[..|blocks|] == blocks;
    assert history == history[..cut] + history[cut..];
  }

  // ----- Folding -----

  /** A turn folds the oldest six pairs exactly when its answer makes more than twelve and its summary call
      answers; otherwise no message and no summary is touched. */
  lemma FoldsExactly(t: Talk, turn: Turn)
    ensures var u := Ask(t, turn);
      var said := if turn.chat.Answer? then [User(turn.question), Assistant(turn.chat.text)] else [];
      if turn.chat.Answer? && (|t.history| + 2) / 2 > 12 && turn.summary.Answer? then
        && u.history == (t.history + said)[12..] && u.blocks == t.blocks + [(t.history + said)[..12]]
        && u.summary == Some(Merge(t.summary, turn.summary.text))
      else u.history == t.history + said && u.blocks == t.blocks && u.summary == t.summary
  {
    hide Merge;
    assert t.history + [] == t.history;
  }

  lemma {:induction false} StripsSpaces(s: string)
    ensures var r := LStrip(s);
      && (r == "" || !IsSpace(r[0]))
      && forall i :: 0 <= i < |s| - |r| ==> IsSpace(s[i])
  {
    if s != "" && IsSpace(s[0]) {
      StripsSpaces(s[1..]);
      var r := LStrip(s);
      forall i | 0 <= i < |s| - |r| ensures IsSpace(s[i]) {
        if i > 0 {
          assert s[1..][i - 1] == s[i];
        }
      }
    }
  }

  /** The newest text stays at the end: a merged summary is everything so far, or its last 1500 characters
      without the white space in front. */
  lemma MergeKeepsNewest(before: Option<string>, text: string)
    ensures var all, r := (if before == None then "" else before.value + " ") + text, Merge(before, text);
      && |r| <= |all| && r == all[|all| - |r|..]
      && (|all| <= 1500 ==> r == all)
      && (|all| > 1500 ==>
            && |r| <= 1500 && (r == "" || !IsSpace(r[0]))
            && forall i :: |all| - 1500 <= i < |all| - |r| ==> IsSpace(all[i]))
  {
    hide LStrip, IsSpace;
    var all := (if before == None then "" else before.value + " ") + text;
    assert before == None ==> all == text;
    if |all| > 1500 {
      TailStripped(all, 1500);
    }
  }

  lemma TailStripped(all: string, size: nat)
    requires |all| > size
    ensures var r := LStrip(all[|all| - size..]);
      && |r| <= size && r == all[|all| - |r|..] && (r == "" || !IsSpace(r[0]))
      && forall i :: |all| - size <= i < |all| - |r| ==> IsSpace(all[i])
  {
    hide LStrip, IsSpace;
    var tail := all[|all| - size..];
    StripsSpaces(tail);
    forall i | |all| - size <= i < |all| - |LStrip(tail)| ensures IsSpace(all[i]) {
      assert tail[i - (|all| - size)] == all[i];
    }
  }
}
