/** The session driver `hi()` of src/clhi/cli/clhi.py: one question and answer,
    then a loop of menu decisions, each followed by a new question, until the
    user quits. Everything the user, the editor and the language model supply
    is an input: the first question, a script of turns, and the chain as a
    function from the conversation buffer to the model's reply. A session that
    outlives its script stops in the `Pending` state, waiting for a decision. */
module Clhi {
  import opened Types
  import opened Text
  import opened CliUtils

  /** The entries of the "How would you like to proceed?" menu. */
  datatype Choice = Apply | Edit | FollowUp | Quit

  /** The value the menu returns for each entry. */
  function Key(c: Choice): string
  {
    match c
    case Apply => "a"
    case Edit => "e"
    case FollowUp => "f"
    case Quit => "q"
  }

  /** What one round of the loop reads: the menu selection (None when the
      menu is cancelled), the answer to the confirmation prompt, the editor's
      result, the follow-up content, and the next question. */
  datatype Turn = Turn(choice: Option<Choice>, confirmed: bool, edited: string, followup: string, answer: Option<string>)

  /** The value `rawselect(...).ask()` hands to `handle_user_response`. */
  function Selection(t: Turn): Option<string>
  {
    match t.choice
    case None => None
    case Some(c) => Some(Key(c))
  }

  /** How a session ends: `exit()` on an empty question, an exception, the
      user quitting, or (for a finite script) still waiting for a decision. */
  datatype Ending = Exited | Crashed(error: Error) | Finished | Pending

  /** What `handle_user_response` was called with: the buffer and the reply. */
  datatype Decision = Decision(buffer: seq<Message>, modelOutput: string)

  /** The observable outcome of a session: how it ended, the final buffer,
      every decision point, and every command handed to the process launcher. */
  datatype Record = Record(ending: Ending, buffer: seq<Message>, decisions: seq<Decision>, applied: seq<string>)

  /** The decision loop from a buffer whose latest reply is `modelOutput`. */
  function Loop(chain: seq<Message> -> string, turns: seq<Turn>, buffer: seq<Message>, modelOutput: string): Record
    decreases |turns|
  {
    if turns == [] then Record(Pending, buffer, [], [])
    else
      var t := turns[0];
      var e := Decide(Selection(t), modelOutput, t.confirmed, t.edited, t.followup);
      var decided := buffer + e.appended;
      var now := [Decision(buffer, modelOutput)];
      var launched := OptionToSeq(e.applied);
      if e.result.Failure? then Record(Crashed(e.result.error), decided, now, launched)
      else if e.result.value == Some(true) then Record(Finished, decided, now, launched)
      else if !Answered(t.answer) then Record(Exited, decided, now, launched)
      else
        var asked := decided + [Message(User, t.answer.value)];
        var reply := chain(asked);
        var rest := Loop(chain, turns[1..], asked + [Message(Assistant, reply)], reply);
        Record(rest.ending, rest.buffer, now + rest.decisions, launched + rest.applied)
  }

  /** A whole session: an empty buffer, the first question, then the loop. */
  function Run(chain: seq<Message> -> string, first: Option<string>, turns: seq<Turn>): Record
  {
    if !Answered(first) then Record(Exited, [], [], [])
    else
      var asked := [Message(User, first.value)];
      var reply := chain(asked);
      Loop(chain, turns, asked + [Message(Assistant, reply)], reply)
  }

  /** A record with earlier decisions and launches put in front. */
  function Prepend(decisions: seq<Decision>, applied: seq<string>, r: Record): Record
  {
    Record(r.ending, r.buffer, decisions + r.decisions, applied + r.applied)
  }

  /** `hi()`: starts with an empty buffer, asks the first question, then loops
      over menu decisions, breaking out when `handle_user_response` reports
      completion and asking a new question otherwise. */
  method Hi(chain: seq<Message> -> string, first: Option<string>, turns: seq<Turn>) returns (r: Record)
    ensures r == Run(chain, first, turns)
  {
    var session := new Session();
    var output := session.InvokeModel(first, chain);
    if output.None? {
      return Record(Exited, session.buffer, [], []);
    }
    var modelOutput := output.value;
    assert [] + [Message(User, first.value)] == [Message(User, first.value)];
    assert Run(chain, first, turns) == Loop(chain, turns, session.buffer, modelOutput);
    var decisions: seq<Decision> := [];
    var applied: seq<string> := [];
    var i := 0;
    assert turns[i..] == turns;
    ghost var start := Loop(chain, turns, session.buffer, modelOutput);
    assert [] + start.decisions == start.decisions && [] + start.applied == start.applied;
    while i < |turns|
      invariant 0 <= i <= |turns|
      invariant Run(chain, first, turns) == Prepend(decisions, applied, Loop(chain, turns[i..], session.buffer, modelOutput))
    {
      assert turns[i..][1..] == turns[i + 1..];
      var now := Decision(session.buffer, modelOutput);
      var ended, launched, next := Round(session, chain, turns[i..], modelOutput);
      if ended.Some? {
        return Record(ended.value, session.buffer, decisions + [now], applied + launched);
      }
      PrependTwice(decisions, [now], applied, launched, Loop(chain, turns[i + 1..], session.buffer, next));
      decisions := decisions + [now];
      applied := applied + launched;
      modelOutput := next;
      i := i + 1;
    }
    assert turns[i..] == [];
    r := Record(Pending, session.buffer, decisions, applied);
  }

  /** One pass of the loop body of `hi()`: the menu decision on the first
      turn and, unless it ends the session, the next question. `ended` says
      how the session ends when it does, `launched` is what the decision
      handed to the process launcher, and `next` is the model's new reply. */
  method Round(session: Session, chain: seq<Message> -> string, turns: seq<Turn>, modelOutput: string)
      returns (ended: Option<Ending>, launched: seq<string>, next: string)
    requires turns != []
    modifies session
    ensures var now := Decision(old(session.buffer), modelOutput);
      && (ended.Some? ==>
            Loop(chain, turns, old(session.buffer), modelOutput) == Record(ended.value, session.buffer, [now], launched))
      && (ended.None? ==>
            Loop(chain, turns, old(session.buffer), modelOutput)
            == Prepend([now], launched, Loop(chain, turns[1..], session.buffer, next)))
  {
    var t := turns[0];
    LoopStep(chain, turns, session.buffer, modelOutput);
    var completed, applied := session.HandleUserResponse(Selection(t), modelOutput, t.confirmed, t.edited, t.followup);
    launched := OptionToSeq(applied);
    next := "";
    if completed.Failure? {
      return Some(Crashed(completed.error)), launched, next;
    }
    if completed.value == Some(true) {
      return Some(Finished), launched, next;
    }
    var reply := session.InvokeModel(t.answer, chain);
    if reply.None? {
      return Some(Exited), launched, next;
    }
    next := reply.value;
    ended := None;
  }

  /** One round of the loop: what a turn that ends the session records, and
      how a turn that goes on puts its decision in front of the rest. */
  lemma LoopStep(chain: seq<Message> -> string, turns: seq<Turn>, buffer: seq<Message>, modelOutput: string)
    requires turns != []
    ensures var t := turns[0];
      var e := Decide(Selection(t), modelOutput, t.confirmed, t.edited, t.followup);
      var r := Loop(chain, turns, buffer, modelOutput);
      var ends := Record(r.ending, buffer + e.appended, [Decision(buffer, modelOutput)], OptionToSeq(e.applied));
      && (e.result.Failure? ==> r == ends && r.ending == Crashed(e.result.error))
      && (e.result == Success(Some(true)) ==> r == ends && r.ending == Finished)
      && (e.result.Success? && e.result.value != Some(true) && !Answered(t.answer) ==> r == ends && r.ending == Exited)
      && (e.result.Success? && e.result.value != Some(true) && Answered(t.answer) ==>
            var asked := buffer + e.appended + [Message(User, t.answer.value)];
            r == Prepend([Decision(buffer, modelOutput)], OptionToSeq(e.applied),
                         Loop(chain, turns[1..], asked + [Message(Assistant, chain(asked))], chain(asked))))
  {
  }

  lemma PrependTwice(d1: seq<Decision>, d2: seq<Decision>, a1: seq<string>, a2: seq<string>, r: Record)
    ensures Prepend(d1, a1, Prepend(d2, a2, r)) == Prepend(d1 + d2, a1 + a2, r)
  {
    assert d1 + (d2 + r.decisions) == (d1 + d2) + r.decisions;
    assert a1 + (a2 + r.applied) == (a1 + a2) + r.applied;
  }

  // ---------------------------------------------------------------------
  // The menu
  // ---------------------------------------------------------------------

  lemma KeyIsLowerCase(c: Choice)
    ensures Lower(Key(c)) == Key(c)
  {
    var k := Key(c);
    assert |k| == 1 && IsAsciiLower(k[0]);
    LowerIsLetter(k, k[0]);
  }

  /** Decisions from the menu always reach an arm of the dispatch: a cancelled
      menu raises, "q" and only "q" completes, and the fall-through `None` is
      never returned. */
  lemma MenuDecisions(t: Turn, modelOutput: string)
    ensures var e := Decide(Selection(t), modelOutput, t.confirmed, t.edited, t.followup);
      && (e.result == Failure(AttributeError) <==> t.choice == None)
      && (e.result == Success(Some(true)) <==> t.choice == Some(Quit))
      && e.result != Success(None)
  {
    if t.choice.Some? {
      KeyIsLowerCase(t.choice.value);
    }
  }

  // ---------------------------------------------------------------------
  // Properties of the loop
  // ---------------------------------------------------------------------

  /** The turn lets the loop go round again: a menu entry other than quitting
      and a non-empty next question. */
  predicate Continues(t: Turn)
  {
    t.choice.Some? && t.choice != Some(Quit) && Answered(t.answer)
  }

  /** The buffer at a decision ends with the reply being decided on. */
  predicate SeesOwnReply(d: Decision)
  {
    |d.buffer| > 0 && Last(d.buffer) == Message(Assistant, d.modelOutput)
  }

  /** Between two decision points the buffer grows by the decision's
      messages, the next question and the model's reply to it. */
  predicate Successive(t: Turn, d: Decision, next: Decision)
  {
    && Answered(t.answer)
    && next.buffer == d.buffer + Decide(Selection(t), d.modelOutput, t.confirmed, t.edited, t.followup).appended
                      + [Message(User, t.answer.value), Message(Assistant, next.modelOutput)]
  }

  /** Every decision of `r` sees a buffer ending with the reply it decides on. */
  predicate AllSeeOwnReply(r: Record)
  {
    forall k :: 0 <= k < |r.decisions| ==> SeesOwnReply(r.decisions[k])
  }

  /** At most one decision per turn, and consecutive decisions are related by
      the turn between them as `Successive` says. */
  predicate GrowsTurnByTurn(turns: seq<Turn>, r: Record)
  {
    && |r.decisions| <= |turns|
    && forall k :: 0 <= k < |r.decisions| - 1 ==> Successive(turns[k], r.decisions[k], r.decisions[k + 1])
  }

  /** How `r` ended agrees with the turns taken: it finished iff the last turn
      taken chose Quit, crashed with AttributeError iff that turn's menu was
      cancelled, is pending only after using every turn, and every turn before
      the last one continued the loop. */
  predicate EndsAsChosen(turns: seq<Turn>, r: Record)
  {
    && |r.decisions| <= |turns|
    && (r.ending == Finished <==> |r.decisions| > 0 && turns[|r.decisions| - 1].choice == Some(Quit))
    && (r.ending == Crashed(AttributeError) <==> |r.decisions| > 0 && turns[|r.decisions| - 1].choice == None)
    && (r.ending == Pending ==> |r.decisions| == |turns|)
    && (forall k :: 0 <= k < |r.decisions| - 1 ==> Continues(turns[k]))
  }

  /** Every buffer a decision of `r` saw is a prefix of the final buffer. */
  predicate AppendOnly(r: Record)
  {
    forall k :: 0 <= k < |r.decisions| ==> r.decisions[k].buffer <= r.buffer
  }

  /** One decision per turn at most, the first one on the starting buffer. */
  lemma {:induction false} LoopShape(chain: seq<Message> -> string, turns: seq<Turn>, buffer: seq<Message>, modelOutput: string)
    ensures |Loop(chain, turns, buffer, modelOutput).decisions| <= |turns|
    ensures turns != [] ==>
      (|Loop(chain, turns, buffer, modelOutput).decisions| >= 1
       && Loop(chain, turns, buffer, modelOutput).decisions[0] == Decision(buffer, modelOutput))
    decreases |turns|
  {
    if turns != [] {
      var t := turns[0];
      var e := Decide(Selection(t), modelOutput, t.confirmed, t.edited, t.followup);
      if e.result.Success? && e.result.value != Some(true) && Answered(t.answer) {
        var asked := buffer + e.appended + [Message(User, t.answer.value)];
        LoopShape(chain, turns[1..], asked + [Message(Assistant, chain(asked))], chain(asked));
      }
    }
  }

  lemma {:induction false} LoopSeesOwnReply(chain: seq<Message> -> string, turns: seq<Turn>, buffer: seq<Message>, modelOutput: string)
    requires |buffer| > 0 && Last(buffer) == Message(Assistant, modelOutput)
    ensures AllSeeOwnReply(Loop(chain, turns, buffer, modelOutput))
    decreases |turns|
  {
    if turns != [] {
      var t := turns[0];
      var e := Decide(Selection(t), modelOutput, t.confirmed, t.edited, t.followup);
      if e.result.Success? && e.result.value != Some(true) && Answered(t.answer) {
        var asked := buffer + e.appended + [Message(User, t.answer.value)];
        var next := asked + [Message(Assistant, chain(asked))];
        LoopSeesOwnReply(chain, turns[1..], next, chain(asked));
      }
    }
  }

  lemma {:induction false} LoopGrowth(chain: seq<Message> -> string, turns: seq<Turn>, buffer: seq<Message>, modelOutput: string)
    ensures GrowsTurnByTurn(turns, Loop(chain, turns, buffer, modelOutput))
    decreases |turns|
  {
    LoopShape(chain, turns, buffer, modelOutput);
    if turns != [] {
      var t := turns[0];
      var e := Decide(Selection(t), modelOutput, t.confirmed, t.edited, t.followup);
      if e.result.Success? && e.result.value != Some(true) && Answered(t.answer) {
        var asked := buffer + e.appended + [Message(User, t.answer.value)];
        var next := asked + [Message(Assistant, chain(asked))];
        var rest := Loop(chain, turns[1..], next, chain(asked));
        LoopGrowth(chain, turns[1..], next, chain(asked));
        LoopShape(chain, turns[1..], next, chain(asked));
        var r := Loop(chain, turns, buffer, modelOutput);
        assert r.decisions == [Decision(buffer, modelOutput)] + rest.decisions;
        assert next == buffer + e.appended + [Message(User, t.answer.value), Message(Assistant, chain(asked))];
        GrowsTurnByTurnCons(turns, r, rest, Decision(buffer, modelOutput));
      }
    }
  }

  /** A decision followed, as the first turn says, by the decisions of a
      record that grows turn by turn gives a record that grows turn by turn. */
  lemma GrowsTurnByTurnCons(turns: seq<Turn>, r: Record, rest: Record, d: Decision)
    requires turns != [] && r.decisions == [d] + rest.decisions
    requires rest.decisions != [] ==> Successive(turns[0], d, rest.decisions[0])
    requires GrowsTurnByTurn(turns[1..], rest)
    ensures GrowsTurnByTurn(turns, r)
  {
    forall k | 0 <= k < |r.decisions| - 1
      ensures Successive(turns[k], r.decisions[k], r.decisions[k + 1])
    {
      if k > 0 {
        assert turns[k] == turns[1..][k - 1];
      }
    }
  }

  lemma {:induction false} LoopEnding(chain: seq<Message> -> string, turns: seq<Turn>, buffer: seq<Message>, modelOutput: string)
    ensures EndsAsChosen(turns, Loop(chain, turns, buffer, modelOutput))
    decreases |turns|
  {
    if turns != [] {
      var t := turns[0];
      MenuDecisions(t, modelOutput);
      LoopStep(chain, turns, buffer, modelOutput);
      var e := Decide(Selection(t), modelOutput, t.confirmed, t.edited, t.followup);
      if e.result.Success? && e.result.value != Some(true) && Answered(t.answer) {
        var asked := buffer + e.appended + [Message(User, t.answer.value)];
        var next := asked + [Message(Assistant, chain(asked))];
        LoopEnding(chain, turns[1..], next, chain(asked));
        EndsAsChosenCons(turns, Loop(chain, turns, buffer, modelOutput),
                         Loop(chain, turns[1..], next, chain(asked)), Decision(buffer, modelOutput));
      }
    }
  }

  /** A turn that continues the loop, put in front of a record that ends as
      chosen, gives a record that ends as chosen. */
  lemma EndsAsChosenCons(turns: seq<Turn>, r: Record, rest: Record, d: Decision)
    requires turns != [] && Continues(turns[0])
    requires r.ending == rest.ending && r.decisions == [d] + rest.decisions
    requires EndsAsChosen(turns[1..], rest)
    ensures EndsAsChosen(turns, r)
  {
    if |rest.decisions| > 0 {
      assert turns[|r.decisions| - 1] == turns[1..][|rest.decisions| - 1];
    }
    forall k | 0 <= k < |r.decisions| - 1
      ensures Continues(turns[k])
    {
      if k > 0 {
        assert turns[k] == turns[1..][k - 1];
      }
    }
  }

  lemma {:induction false} LoopAppendOnly(chain: seq<Message> -> string, turns: seq<Turn>, buffer: seq<Message>, modelOutput: string)
    ensures buffer <= Loop(chain, turns, buffer, modelOutput).buffer
    ensures AppendOnly(Loop(chain, turns, buffer, modelOutput))
    decreases |turns|
  {
    if turns != [] {
      var t := turns[0];
      var e := Decide(Selection(t), modelOutput, t.confirmed, t.edited, t.followup);
      if e.result.Success? && e.result.value != Some(true) && Answered(t.answer) {
        var asked := buffer + e.appended + [Message(User, t.answer.value)];
        var next := asked + [Message(Assistant, chain(asked))];
        LoopAppendOnly(chain, turns[1..], next, chain(asked));
        assert buffer <= next;
      }
    }
  }

  // ---------------------------------------------------------------------
  // Properties of a whole session
  // ---------------------------------------------------------------------

  /** The buffer starts empty; an empty first question exits at once, and
      otherwise the first decision sees exactly the first question and reply. */
  lemma SessionStart(chain: seq<Message> -> string, first: Option<string>, turns: seq<Turn>)
    ensures !Answered(first) ==> Run(chain, first, turns) == Record(Exited, [], [], [])
    ensures Answered(first) && turns != [] ==>
      var asked := [Message(User, first.value)];
      Run(chain, first, turns).decisions[0] == Decision(asked + [Message(Assistant, chain(asked))], chain(asked))
  {
    if Answered(first) {
      var asked := [Message(User, first.value)];
      LoopShape(chain, turns, asked + [Message(Assistant, chain(asked))], chain(asked));
    }
  }

  /** Whenever the user is asked to decide, the last entry of the buffer is
      the assistant reply being decided on. */
  lemma DecisionsSeeOwnReply(chain: seq<Message> -> string, first: Option<string>, turns: seq<Turn>)
    ensures AllSeeOwnReply(Run(chain, first, turns))
  {
    if Answered(first) {
      var asked := [Message(User, first.value)];
      LoopSeesOwnReply(chain, turns, asked + [Message(Assistant, chain(asked))], chain(asked));
    }
  }

  /** Every round that does not end the session grows the buffer by the
      decision's messages plus the new question and the new reply. */
  lemma EachTurnGrowsBuffer(chain: seq<Message> -> string, first: Option<string>, turns: seq<Turn>)
    ensures GrowsTurnByTurn(turns, Run(chain, first, turns))
  {
    if Answered(first) {
      var asked := [Message(User, first.value)];
      LoopGrowth(chain, turns, asked + [Message(Assistant, chain(asked))], chain(asked));
    }
  }

  /** The loop ends normally only when the user picks Quit; every earlier
      round picked another entry and asked a new question; a cancelled menu
      crashes the session. */
  lemma OnlyQuitFinishes(chain: seq<Message> -> string, first: Option<string>, turns: seq<Turn>)
    ensures EndsAsChosen(turns, Run(chain, first, turns))
  {
    if Answered(first) {
      var asked := [Message(User, first.value)];
      LoopEnding(chain, turns, asked + [Message(Assistant, chain(asked))], chain(asked));
    }
  }

  /** The buffer is append-only: every buffer a decision saw is a prefix of
      the final one. */
  lemma BufferOnlyGrows(chain: seq<Message> -> string, first: Option<string>, turns: seq<Turn>)
    ensures AppendOnly(Run(chain, first, turns))
  {
    if Answered(first) {
      var asked := [Message(User, first.value)];
      LoopAppendOnly(chain, turns, asked + [Message(Assistant, chain(asked))], chain(asked));
    }
  }

  /** The roles of consecutive messages always differ. */
  predicate Alternates(buffer: seq<Message>)
  {
    forall k :: 0 <= k < |buffer| - 1 ==> buffer[k].role != buffer[k + 1].role
  }

  /** In any session, a follow-up that the loop goes on from appends the reply
      it follows up a second time, right after itself, so the final buffer
      does not alternate roles. */
  lemma FollowUpBreaksAlternation(chain: seq<Message> -> string, first: Option<string>, turns: seq<Turn>, k: nat)
    requires k + 1 < |Run(chain, first, turns).decisions| && k < |turns|
    requires turns[k].choice == Some(FollowUp)
    ensures !Alternates(Run(chain, first, turns).buffer)
  {
    var r := Run(chain, first, turns);
    DecisionsSeeOwnReply(chain, first, turns);
    EachTurnGrowsBuffer(chain, first, turns);
    BufferOnlyGrows(chain, first, turns);
    KeyIsLowerCase(FollowUp);
    var d, next, t := r.decisions[k], r.decisions[k + 1], turns[k];
    assert SeesOwnReply(d) && Successive(t, d, next);
    assert IsKey(Selection(t), "f");
    var n := |d.buffer|;
    assert next.buffer == d.buffer + [Message(Assistant, d.modelOutput), Message(User, t.followup)]
                          + [Message(User, t.answer.value), Message(Assistant, next.modelOutput)];
    assert next.buffer[n - 1] == Last(d.buffer) && next.buffer[n].role == Assistant;
    assert next.buffer <= r.buffer;
    assert r.buffer[n - 1].role == r.buffer[n].role;
  }

  /** In any session, a confirmed edit of an extractable reply that the loop
      goes on from puts the correction and the next question, both user
      messages, next to each other. */
  lemma EditBreaksAlternation(chain: seq<Message> -> string, first: Option<string>, turns: seq<Turn>, k: nat)
    requires k + 1 < |Run(chain, first, turns).decisions| && k < |turns|
    requires turns[k].choice == Some(Edit) && turns[k].confirmed
    requires Extract(Run(chain, first, turns).decisions[k].modelOutput).Success?
    ensures !Alternates(Run(chain, first, turns).buffer)
  {
    var r := Run(chain, first, turns);
    EachTurnGrowsBuffer(chain, first, turns);
    BufferOnlyGrows(chain, first, turns);
    KeyIsLowerCase(Edit);
    var d, next, t := r.decisions[k], r.decisions[k + 1], turns[k];
    assert Successive(t, d, next);
    assert IsKey(Selection(t), "e");
    var e := Decide(Selection(t), d.modelOutput, t.confirmed, t.edited, t.followup);
    assert |e.appended| == 1 && e.appended[0].role == User;
    var n := |d.buffer|;
    assert next.buffer == d.buffer + e.appended + [Message(User, t.answer.value), Message(Assistant, next.modelOutput)];
    assert next.buffer[n].role == User && next.buffer[n + 1].role == User;
    assert next.buffer <= r.buffer;
    assert r.buffer[n].role == r.buffer[n + 1].role;
  }

  /** A follow-up puts two assistant messages, and then two user messages,
      next to each other. */
  lemma FollowUpRepeatsRoles(chain: seq<Message> -> string, first: string, followup: string, answer: string)
    requires first != "" && answer != ""
    ensures var r := Run(chain, Some(first), [Turn(Some(FollowUp), false, "", followup, Some(answer))]);
      |r.buffer| == 6 && r.buffer[1].role == r.buffer[2].role == Assistant && r.buffer[3].role == r.buffer[4].role == User
      && !Alternates(r.buffer)
  {
    var turns := [Turn(Some(FollowUp), false, "", followup, Some(answer))];
    var asked := [Message(User, first)];
    var reply := chain(asked);
    var buffer := asked + [Message(Assistant, reply)];
    MenuDecisions(turns[0], reply);
    KeyIsLowerCase(FollowUp);
    assert turns[1..] == [];
    var e := Decide(Selection(turns[0]), reply, false, "", followup);
    assert IsKey(Selection(turns[0]), "f");
    assert e == Effect([Message(Assistant, reply), Message(User, followup)], None, Success(Some(false)));
    var r := Run(chain, Some(first), turns);
    var decided := buffer + [Message(Assistant, reply), Message(User, followup)];
    var asked2 := decided + [Message(User, answer)];
    assert r == Loop(chain, turns, buffer, reply);
    assert r.buffer == Loop(chain, [], asked2 + [Message(Assistant, chain(asked2))], chain(asked2)).buffer;
  }

  /** A confirmed edit puts the correction and the next question, both user
      messages, next to each other. */
  lemma EditRepeatsRoles(chain: seq<Message> -> string, first: string, edited: string, answer: string)
    requires first != "" && answer != ""
    requires Extract(chain([Message(User, first)])).Success?
    ensures var r := Run(chain, Some(first), [Turn(Some(Edit), true, edited, "", Some(answer))]);
      |r.buffer| == 5 && r.buffer[2].role == r.buffer[3].role == User && !Alternates(r.buffer)
  {
    var turns := [Turn(Some(Edit), true, edited, "", Some(answer))];
    var asked := [Message(User, first)];
    var reply := chain(asked);
    var buffer := asked + [Message(Assistant, reply)];
    KeyIsLowerCase(Edit);
    assert turns[1..] == [];
    var correction := Message(User, CorrectionMessage(Extract(reply).value, edited));
    var e := Decide(Selection(turns[0]), reply, true, edited, "");
    assert IsKey(Selection(turns[0]), "e");
    assert e == Effect([correction], Some(edited), Success(Some(false)));
    var r := Run(chain, Some(first), turns);
    var asked2 := buffer + [correction] + [Message(User, answer)];
    assert r == Loop(chain, turns, buffer, reply);
    assert r.buffer == Loop(chain, [], asked2 + [Message(Assistant, chain(asked2))], chain(asked2)).buffer;
  }

  /** Applying a fenced reply hands exactly the fenced command to the process
      launcher when the user confirms, and nothing otherwise. */
  lemma ApplyLaunchesFencedCommand(chain: seq<Message> -> string, first: string, command: string,
                                   explanation: string, confirmed: bool)
    requires first != ""
    requires NoLineBreak(command) && NoLineBreak(explanation)
    requires chain([Message(User, first)]) == Fence + "\n" + command + "\n" + Fence + "\n" + explanation
    ensures var r := Run(chain, Some(first), [Turn(Some(Apply), confirmed, "", "", None)]);
      r.ending == Exited && r.applied == (if confirmed then [command] else [])
      && r.buffer == [Message(User, first), Message(Assistant, chain([Message(User, first)]))]
  {
    ExtractFencedReply(command, explanation);
    KeyIsLowerCase(Apply);
  }

  /** A confirmed edit launches the edited command and records the correction
      of the fenced command in the buffer. */
  lemma EditRecordsCorrection(chain: seq<Message> -> string, first: string, command: string,
                              explanation: string, edited: string)
    requires first != ""
    requires NoLineBreak(command) && NoLineBreak(explanation)
    requires chain([Message(User, first)]) == Fence + "\n" + command + "\n" + Fence + "\n" + explanation
    ensures var r := Run(chain, Some(first), [Turn(Some(Edit), true, edited, "", None)]);
      r.ending == Exited && r.applied == [edited]
      && r.buffer == [Message(User, first), Message(Assistant, chain([Message(User, first)])),
                      Message(User, "I've corrected your generated command '" + command + "' to '" + edited)]
  {
    ExtractFencedReply(command, explanation);
    KeyIsLowerCase(Edit);
  }
}
