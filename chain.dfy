/** Assembling the prompt inputs from the conversation buffer
    (src/clhi/backend/chain.py). The vector-search retriever is a function
    from the query text to the ranked documents it returns; the history file
    read by the shell is a sequence of lines. */
module Chain {
  import opened Types
  import opened TerminalUtils

  /** The `Command` and `Summary` metadata of one retrieved document. */
  datatype Document = Document(command: string, summary: string)

  /** The `{"commands": ..., "summaries": ...}` record `extract_cli_info` returns. */
  datatype CliInfo = CliInfo(commands: seq<string>, summaries: seq<string>)

  /** The question is the content of the last message, whatever its role. */
  function ExtractQuestion(messages: seq<Message>): string
    requires |messages| > 0
  {
    Last(messages).content
  }

  /** The chat history is every message but the last, in order (`input[:-1]`,
      which is empty for an empty buffer). */
  function ExtractChatHistory(messages: seq<Message>): (history: seq<Message>)
    ensures |messages| > 0 ==> history + [Last(messages)] == messages
    ensures messages == [] ==> history == []
  {
    if messages == [] then [] else messages[..|messages| - 1]
  }

  /** After a message is appended, the prompt's question is that message's
      content and its chat history is the buffer as it was before. */
  lemma PromptSeesLatestMessage(buffer: seq<Message>, latest: Message)
    ensures ExtractQuestion(buffer + [latest]) == latest.content
    ensures ExtractChatHistory(buffer + [latest]) == buffer
  {
    assert (buffer + [latest])[..|buffer|] == buffer;
  }

  /** `get_embeddings`: the retrieved documents taken apart into a list of
      commands and a list of summaries, both in rank order. */
  function GetEmbeddings(retrieve: string -> seq<Document>, userInput: string): (r: (seq<string>, seq<string>))
    ensures |r.0| == |retrieve(userInput)| && |r.1| == |retrieve(userInput)|
    ensures forall i :: 0 <= i < |r.0| ==> Document(r.0[i], r.1[i]) == retrieve(userInput)[i]
  {
    var docs := retrieve(userInput);
    (seq(|docs|, i requires 0 <= i < |docs| => docs[i].command),
     seq(|docs|, i requires 0 <= i < |docs| => docs[i].summary))
  }

  /** The history entries of all `commands`, in their order, each command's
      entries in history order; the first command whose lookup raises makes the
      whole lookup raise. */
  function HistoriesOf(file: seq<string>, commands: seq<string>): (r: Result<seq<string>, Error>)
    ensures r.Success? <==> forall k :: 0 <= k < |commands| ==> CommandHistory(file, commands[k]).Success?
    ensures r.Success? ==> |r.value| <= MaxMatches * |commands|
  {
    if commands == [] then Success([])
    else
      match CommandHistory(file, commands[0])
      case Failure(e) => Failure(e)
      case Success(head) =>
        match HistoriesOf(file, commands[1..])
        case Failure(e) => Failure(e)
        case Success(tail) =>
          assert forall k :: 1 <= k < |commands| ==> commands[k] == commands[1..][k - 1];
          Success(head + tail)
  }

  /** Two lookups run one after the other: the first failure wins, otherwise
      the entries are concatenated. */
  function Then(first: Result<seq<string>, Error>, second: Result<seq<string>, Error>): Result<seq<string>, Error>
  {
    if first.Failure? then first
    else if second.Failure? then second
    else Success(first.value + second.value)
  }

  /** Looking up a list of commands is looking up its two halves in turn. */
  lemma {:induction false} HistoriesOfAppend(file: seq<string>, front: seq<string>, back: seq<string>)
    ensures HistoriesOf(file, front + back) == Then(HistoriesOf(file, front), HistoriesOf(file, back))
  {
    if front != [] {
      assert (front + back)[0] == front[0];
      assert (front + back)[1..] == front[1..] + back;
      HistoriesOfAppend(file, front[1..], back);
      var head := CommandHistory(file, front[0]);
      var middle := HistoriesOf(file, front[1..]);
      var tail := HistoriesOf(file, back);
      if head.Success? && middle.Success? && tail.Success? {
        assert head.value + (middle.value + tail.value) == (head.value + middle.value) + tail.value;
      }
    } else {
      assert front + back == back;
      assert HistoriesOf(file, back).Success? ==> [] + HistoriesOf(file, back).value == HistoriesOf(file, back).value;
    }
  }

  /** Looking up one more command extends the entries with its history. */
  lemma HistoriesOfStep(file: seq<string>, done: seq<string>, command: string,
                        entries: seq<string>, more: seq<string>)
    requires HistoriesOf(file, done) == Success(entries)
    requires CommandHistory(file, command) == Success(more)
    ensures HistoriesOf(file, done + [command]) == Success(entries + more)
  {
    HistoriesOfAppend(file, done, [command]);
    assert [command][1..] == [];
    assert more + [] == more;
    assert HistoriesOf(file, [command]) == Success(more);
  }

  /** `extract_cli_info`: retrieves documents for the latest question and
      extends one list with the history entries of each retrieved command in
      rank order; the summaries are passed through unchanged. */
  method ExtractCliInfo(messages: seq<Message>, retrieve: string -> seq<Document>, file: seq<string>)
      returns (r: Result<CliInfo, Error>)
    requires |messages| > 0
    ensures var (commands, summaries) := GetEmbeddings(retrieve, ExtractQuestion(messages));
      && (r.Success? <==> HistoriesOf(file, commands).Success?)
      && (r.Failure? ==> r.error == IndexError)
      && (r.Success? ==> r.value == CliInfo(HistoriesOf(file, commands).value, summaries))
  {
    var question := ExtractQuestion(messages);
    var (commandList, summaries) := GetEmbeddings(retrieve, question);
    var output: seq<string> := [];
    for i := 0 to |commandList|
      invariant HistoriesOf(file, commandList[..i]) == Success(output)
    {
      var history := GetCommandHistory(commandList[i], file);
      if history.Failure? {
        return Failure(history.error);
      }
      assert commandList[..i + 1] == commandList[..i] + [commandList[i]];
      HistoriesOfStep(file, commandList[..i], commandList[i], output, history.value);
      output := output + history.value;
    }
    assert commandList[..|commandList|] == commandList;
    r := Success(CliInfo(output, summaries));
  }
}
