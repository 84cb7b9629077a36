/** The interaction helpers of src/clhi/cli/utils.py: pulling the command out
    of a reply, asking the model, and acting on the user's decision. The
    conversation buffer is the one piece of mutable state; it lives in the
    class `Session`. Prompts, the editor and the process launcher are inputs:
    the text the user typed, whether they confirmed, what the editor returned. */
module CliUtils {
  import opened Types
  import opened Text

  /** The marker that opens a fenced code block. */
  const Fence: string := "```"

  predicate HasFence(line: string)
  {
    Contains(line, Fence)
  }

  /** No line holds a fence marker. */
  predicate NoFence(lines: seq<string>)
  {
    forall k :: 0 <= k < |lines| ==> !HasFence(lines[k])
  }

  /** Line `i` is the first line of `lines` that holds a fence marker. */
  predicate FirstFenceAt(lines: seq<string>, i: nat)
  {
    i < |lines| && HasFence(lines[i]) && forall k :: 0 <= k < i ==> !HasFence(lines[k])
  }

  /** Index of the first line holding a fence marker, or `|lines|` when none does. */
  function FirstFence(lines: seq<string>): (k: nat)
    ensures k <= |lines|
    ensures k < |lines| ==> FirstFenceAt(lines, k)
    ensures k == |lines| ==> forall j :: 0 <= j < |lines| ==> !HasFence(lines[j])
  {
    if lines == [] || HasFence(lines[0]) then 0
    else
      var k := 1 + FirstFence(lines[1..]);
      assert forall j :: 1 <= j < |lines| ==> lines[j] == lines[1..][j - 1];
      k
  }

  /** What `extract_terminal_command` yields: `Success(Some(cmd))` for
      `(True, cmd)`, `Success(None)` for `(False, None)`, and the IndexError
      raised when the first marker is on the last line. */
  function Extract(response: string): (r: Result<Option<string>, Error>)
    ensures r == Success(None) <==> NoFence(SplitLines(response))
    ensures forall i: nat :: FirstFenceAt(SplitLines(response), i) ==>
      r == if i + 1 < |SplitLines(response)| then Success(Some(SplitLines(response)[i + 1])) else Failure(IndexError)
  {
    var lines := SplitLines(response);
    var k := FirstFence(lines);
    assert forall i: nat :: FirstFenceAt(lines, i) ==> i == k;
    if k == |lines| then Success(None)
    else
      assert HasFence(lines[k]);
      if k + 1 < |lines| then Success(Some(lines[k + 1]))
      else Failure(IndexError)
  }

  /** `extract_terminal_command`: scans the lines top down and returns the line
      after the first one holding a marker, reading past the end when there is none. */
  method ExtractTerminalCommand(response: string) returns (r: Result<Option<string>, Error>)
    ensures r == Extract(response)
  {
    var outputLines := SplitLines(response);
    for i := 0 to |outputLines|
      invariant forall k :: 0 <= k < i ==> !HasFence(outputLines[k])
    {
      if HasFence(outputLines[i]) {
        assert FirstFenceAt(outputLines, i);
        if i + 1 < |outputLines| {
          return Success(Some(outputLines[i + 1]));
        }
        return Failure(IndexError);
      }
    }
    return Success(None);
  }

  lemma FenceLine()
    ensures HasFence(Fence)
  {
    assert OccursAt(Fence, Fence, 0);
  }

  /** A fenced reply: the command is the line after the opening marker,
      e.g. "```\nls -la\n```\nLists files" yields "ls -la". */
  lemma ExtractFencedReply(command: string, explanation: string)
    requires NoLineBreak(command) && NoLineBreak(explanation)
    ensures Extract(Fence + "\n" + command + "\n" + Fence + "\n" + explanation) == Success(Some(command))
  {
    var response := Fence + "\n" + command + "\n" + Fence + "\n" + explanation;
    var second := Fence + "\n" + explanation;
    var first := command + "\n" + second;
    assert response == Fence + "\n" + first;
    assert NoLineBreak(Fence);
    SplitLinesFirst(Fence, first);
    SplitLinesFirst(command, second);
    FenceLine();
    var lines := SplitLines(response);
    assert lines == [Fence] + ([command] + SplitLines(second));
    assert FirstFenceAt(lines, 0);
  }

  /** A marker on the last line makes the lookup of the following line raise,
      e.g. for "some text ```". */
  lemma ExtractMarkerOnLastLine(text: string)
    requires NoLineBreak(text)
    ensures Extract(text + Fence) == Failure(IndexError)
  {
    var line := text + Fence;
    assert NoLineBreak(line);
    SplitLinesSingle(line);
    assert OccursAt(line, Fence, |text|);
    assert FirstFenceAt([line], 0);
  }

  /** A reply without backticks yields no command, e.g. "no markers here". */
  lemma ExtractWithoutBackticks(response: string)
    requires '`' !in response
    ensures Extract(response) == Success(None)
  {
    var lines := SplitLines(response);
    SplitLinesChars(response);
    forall k | 0 <= k < |lines|
      ensures !HasFence(lines[k])
    {
      MissingFirstCharNotContained(lines[k], Fence);
    }
  }

  // ---------------------------------------------------------------------
  // Acting on the user's decision
  // ---------------------------------------------------------------------

  /** Python's truthiness of the text a prompt returned (None or a string). */
  predicate Answered(answer: Option<string>)
  {
    answer.Some? && answer.value != ""
  }

  /** The user's reply is `key` once lower-cased. */
  predicate IsKey(userResp: Option<string>, key: string)
  {
    userResp.Some? && Lower(userResp.value) == key
  }

  /** How an f-string renders the extracted command (`None` when there was none). */
  function Show(command: Option<string>): string
  {
    match command
    case Some(c) => c
    case None => "None"
  }

  /** The message recording the user's correction (its closing quote is
      missing in the source, and so here). */
  function CorrectionMessage(command: Option<string>, edited: string): string
  {
    "I've corrected your generated command '" + Show(command) + "' to '" + edited
  }

  /** The effect of one decision: the messages appended to the buffer, the
      command handed to the process launcher, and what `handle_user_response`
      returns (`Some(true)`, `Some(false)`, `None`) or raises. */
  datatype Effect = Effect(appended: seq<Message>, applied: Option<string>, result: Result<Option<bool>, Error>)

  /** `handle_user_response` as a function of the user's reply, the model's
      reply, the answer to the confirmation prompt, the editor's output and the
      follow-up content. */
  function Decide(userResp: Option<string>, modelResponse: string, confirmed: bool,
                  edited: string, followup: string): (e: Effect)
    // only "q" ends the session
    ensures e.result == Success(Some(true)) <==> IsKey(userResp, "q")
    // `.lower()` on None raises before the `case None` arm is reached
    ensures userResp.None? ==> e.result == Failure(AttributeError)
    // a raised exception appends nothing and launches nothing
    ensures e.result.Failure? ==> e.appended == [] && e.applied == None
    // nothing is launched without the user's confirmation
    ensures e.applied.Some? ==> confirmed
    ensures IsKey(userResp, "q") ==> e.appended == [] && e.applied == None
    ensures IsKey(userResp, "a") || IsKey(userResp, "e") ==>
      (e.result.Failure? <==> Extract(modelResponse).Failure?)
      && (e.result.Success? ==> e.result.value == Some(false))
    ensures IsKey(userResp, "a") ==>
      && e.appended == []
      && (e.applied.Some? <==> confirmed && Extract(modelResponse).Success? && Extract(modelResponse).value.Some?)
      && (e.applied.Some? ==> Extract(modelResponse) == Success(Some(e.applied.value)))
    ensures IsKey(userResp, "e") ==>
      && (e.appended != [] <==> confirmed && Extract(modelResponse).Success?)
      && (e.appended != [] ==>
            e.appended == [Message(User, CorrectionMessage(Extract(modelResponse).value, edited))]
            && e.applied == Some(edited))
      && (e.appended == [] ==> e.applied == None)
    ensures IsKey(userResp, "f") ==>
      e == Effect([Message(Assistant, modelResponse), Message(User, followup)], None, Success(Some(false)))
    ensures userResp.Some? && Lower(userResp.value) !in {"q", "a", "e", "f"} ==>
      e == Effect([], None, Success(None))
  {
    match userResp
    case None => Effect([], None, Failure(AttributeError))
    case Some(resp) =>
      var userCommand := Lower(resp);
      if userCommand == "q" then Effect([], None, Success(Some(true)))
      else if userCommand == "a" then
        match Extract(modelResponse)
        case Failure(err) => Effect([], None, Failure(err))
        case Success(command) =>
          Effect([], if confirmed && command.Some? then command else None, Success(Some(false)))
      else if userCommand == "e" then
        match Extract(modelResponse)
        case Failure(err) => Effect([], None, Failure(err))
        case Success(command) =>
          if confirmed then
            Effect([Message(User, CorrectionMessage(command, edited))], Some(edited), Success(Some(false)))
          else Effect([], None, Success(Some(false)))
      else if userCommand == "f" then
        Effect([Message(Assistant, modelResponse), Message(User, followup)], None, Success(Some(false)))
      else Effect([], None, Success(None))
  }

  /** One session's conversation buffer (`context_buffer`), which the helpers
      below append to in place. */
  class Session {
    var buffer: seq<Message>

    constructor ()
      ensures buffer == []
    {
      buffer := [];
    }

    /** `invoke_model`: an empty or cancelled question ends the program with
        the buffer untouched; otherwise the question and the model's reply to
        the buffer holding it are appended, and the reply is returned. */
    method InvokeModel(answer: Option<string>, chain: seq<Message> -> string) returns (reply: Option<string>)
      modifies this
      ensures !Answered(answer) ==> reply == None && buffer == old(buffer)
      ensures Answered(answer) ==>
        var asked := old(buffer) + [Message(User, answer.value)];
        reply == Some(chain(asked)) && buffer == asked + [Message(Assistant, chain(asked))]
    {
      if !Answered(answer) {
        return None;
      }
      buffer := buffer + [Message(User, answer.value)];
      var modelResponse := chain(buffer);
      buffer := buffer + [Message(Assistant, modelResponse)];
      reply := Some(modelResponse);
    }

    /** `handle_user_response`: dispatches on the lower-cased reply, launching
        the command and appending messages as `Decide` describes. */
    method HandleUserResponse(userResp: Option<string>, modelResponse: string, confirmed: bool,
                              edited: string, followup: string)
        returns (completed: Result<Option<bool>, Error>, applied: Option<string>)
      modifies this
      ensures var e := Decide(userResp, modelResponse, confirmed, edited, followup);
        completed == e.result && applied == e.applied && buffer == old(buffer) + e.appended
    {
      if userResp.None? {
        return Failure(AttributeError), None;
      }
      var userCommand := Lower(userResp.value);
      applied := None;
      if userCommand == "q" {
        completed := Success(Some(true));
      } else if userCommand == "a" {
        var extracted := ExtractTerminalCommand(modelResponse);
        if extracted.Failure? {
          return Failure(extracted.error), None;
        }
        if extracted.value.Some? && confirmed {
          applied := extracted.value;
        }
        completed := Success(Some(false));
      } else if userCommand == "e" {
        var extracted := ExtractTerminalCommand(modelResponse);
        if extracted.Failure? {
          return Failure(extracted.error), None;
        }
        if confirmed {
          applied := Some(edited);
          buffer := buffer + [Message(User, CorrectionMessage(extracted.value, edited))];
        }
        completed := Success(Some(false));
      } else if userCommand == "f" {
        buffer := buffer + [Message(Assistant, modelResponse)];
        buffer := buffer + [Message(User, followup)];
        completed := Success(Some(false));
      } else {
        completed := Success(None);
      }
    }
  }
}
