# clHi — a verified model of the session core

clHi is a terminal assistant. The user asks a question about the command line. A
retrieval-augmented language-model chain answers with a shell command wrapped in a
```` ``` ```` fenced block. The user then picks from a menu:

- apply the command,
- edit it in an editor and apply the result,
- ask a follow-up,
- quit.

This project models the parts of that loop that are plain logic and proves properties of them:

- **`CliUtils`** (`src/clhi/cli/utils.py`) pulls the command out of a reply, asks the model, and dispatches on the user's menu choice. The conversation buffer is a `class Session` whose methods append to it in place.
- **`Clhi`** (`src/clhi/cli/clhi.py`) is the session driver `hi()`. It takes a first question and a finite script of turns, and yields a record of the session:
  - how the session ended,
  - the final buffer,
  - the buffer and reply at every decision,
  - every command handed to the process launcher.
- **`Chain`** (`src/clhi/backend/chain.py`) builds the prompt inputs from the buffer. These are the latest question, the chat history, and the command-history entries of the retrieved commands.
- **`TerminalUtils`** (`src/clhi/backend/terminal_utils.py`) recovers past invocations of a command from the zsh history file.
- **`Text`** holds the Python string operations the core relies on: `splitlines`, `split`, `strip`, `lower` and `in`.
- **`Types`** holds messages, `Option`/`Result`, and the Python exceptions the core lets escape (`IndexError`, `AttributeError`).

The outside world enters only as inputs:

- The language-model chain is a function from the conversation buffer to the reply text.
- The vector-search retriever is a function from the question to the ranked documents.
- The zsh history file is a sequence of lines.
- Prompts, confirmations and the editor are fields of each scripted `Turn`.

Behaviours of the code a reader may not expect, which the model keeps:

- A reply whose first fence marker is on its last line makes `extract_terminal_command` read past the end of the line list, which raises `IndexError` (`utils.py:38-39`). It is not reported as "no command".
- `handle_user_response` calls `.lower()` before matching, so a cancelled menu (`None`) raises `AttributeError`. It never reaches the `case None` arm (`utils.py:44-48`).
- The buffer does not strictly alternate between user and assistant messages. A follow-up appends the model's reply a second time and then the follow-up text. A confirmed edit appends a user message just before the next question. (See `FollowUpBreaksAlternation` and `EditBreaksAlternation` for any turn of any session, and `FollowUpRepeatsRoles` and `EditRepeatsRoles` for a one-turn script.)
- A history line grep lets through that has no `;` raises `IndexError` (`terminal_utils.py:8`). Such a line is not skipped.

## Model

| member | source | states |
|---|---|---|
| Text.SplitLines | src/clhi/cli/utils.py:34 | Python's `splitlines`: no resulting line holds a line-break character |
| Text.SplitLinesChars | src/clhi/cli/utils.py:34 | splitting into lines invents no characters: every character of every line occurs in the text |
| Text.SplitLinesRoundTrip | src/clhi/cli/utils.py:34 | splitting lines that were each terminated by a newline, followed by a trailing fragment, gives back exactly those lines and then the fragment if it is non-empty |
| Text.Split | src/clhi/backend/terminal_utils.py:8 | `split(";")` gives at least one field; it gives exactly one field iff the separator is absent; no field contains the separator |
| Text.SplitJoin | src/clhi/backend/terminal_utils.py:8 | joining the fields of a split with the separator gives back the original string |
| Text.Strip | src/clhi/backend/terminal_utils.py:8 | `strip()` gives a result with no whitespace at either end that is a contiguous slice of the input with only whitespace removed around it |
| Text.StripIdempotent | src/clhi/backend/terminal_utils.py:8 | stripping twice is the same as stripping once |
| Text.StripPadded | src/clhi/backend/terminal_utils.py:8 | stripping whitespace padding from a trimmed text gives back that text |
| Text.Lower | src/clhi/cli/utils.py:44 | `lower()` keeps the length and lower-cases each ASCII upper-case letter, leaving every other character unchanged |
| Text.LowerIsLetter | src/clhi/cli/utils.py:44-51 | a reply lower-cases to a given one-letter menu key iff it is that letter or its upper-case form |
| TerminalUtils.HistoryQuery | src/clhi/backend/terminal_utils.py:4 | the shell pipeline is the prefix that pipes the history file into `grep -m` with the digit of `MaxMatches` (5, the bound `Grep` applies) and an opening quote, then the command followed by a space, then a closing quote |
| TerminalUtils.MatchingKeepsExactlyMatches | src/clhi/backend/terminal_utils.py:4 | the grep filter keeps every line containing the pattern, with its multiplicity, and no other line |
| TerminalUtils.Grep | src/clhi/backend/terminal_utils.py:4 | `grep -m 5` output is a prefix of the matching lines; it holds at most 5 lines, and all the matching lines when fewer than 5 exist |
| TerminalUtils.SecondField | src/clhi/backend/terminal_utils.py:8 | `line.split(";")[1].strip()` raises IndexError iff the line has no `;`; otherwise it gives a trimmed text without `;` |
| TerminalUtils.SecondFieldOfEntry | src/clhi/backend/terminal_utils.py:8 | for an extended-history entry `<meta>;<command>`, the parse gives the stripped command |
| TerminalUtils.SecondFieldTruncates | src/clhi/backend/terminal_utils.py:8 | a command that itself contains `;` is cut at its first `;` |
| TerminalUtils.ParseEntries | src/clhi/backend/terminal_utils.py:7-8 | parsing grep's output succeeds iff every line holds a `;`; it then gives one entry per line, each the line's second field, stripped; otherwise it raises IndexError |
| TerminalUtils.CommandHistory | src/clhi/backend/terminal_utils.py:3-10 | the history lookup succeeds iff every line grep lets through holds a `;`; on success it gives one parsed entry per such line, in order, at most 5; otherwise it raises IndexError |
| TerminalUtils.GetCommandHistory | src/clhi/backend/terminal_utils.py:3-10 | the loop that parses grep's output lines one at a time gives exactly `CommandHistory` |
| Chain.ExtractChatHistory | src/clhi/backend/chain.py:57-58 | the chat history followed by the last message is the whole buffer; the chat history of an empty buffer is empty |
| Chain.PromptSeesLatestMessage | src/clhi/backend/chain.py:52-58 | after a message is appended, the prompt's question is that message's content and its chat history is the buffer as it was before |
| Chain.GetEmbeddings | src/clhi/backend/chain.py:44-50 | the commands and the summaries have one entry per retrieved document, in rank order, each pair coming from the same document |
| Chain.HistoriesOf | src/clhi/backend/chain.py:67-68 | the combined lookup over all commands succeeds iff every command's lookup succeeds, and then holds at most 5 entries per command |
| Chain.HistoriesOfAppend | src/clhi/backend/chain.py:67-68 | looking up a list of commands is looking up its two parts in turn: the first failure wins, otherwise the entries are concatenated |
| Chain.ExtractCliInfo | src/clhi/backend/chain.py:62-69 | the loop extending one list with each retrieved command's history raises IndexError iff some command's lookup does; otherwise it gives those histories in rank order and passes the summaries through unchanged |
| CliUtils.FirstFence | src/clhi/cli/utils.py:35-38 | finds the index of the first line holding a fence marker, or the number of lines when no line holds one |
| CliUtils.Extract | src/clhi/cli/utils.py:31-41 | gives no command iff no line holds a marker; otherwise gives the line after the first marker line, or raises IndexError when that line is the last |
| CliUtils.ExtractTerminalCommand | src/clhi/cli/utils.py:31-41 | the top-down scan over the lines gives exactly `Extract` |
| CliUtils.ExtractFencedReply | src/clhi/cli/utils.py:31-39 | for a reply of the form marker, command, marker, explanation, the command is extracted |
| CliUtils.ExtractMarkerOnLastLine | src/clhi/cli/utils.py:38-39 | a marker on the only line of a reply raises IndexError |
| CliUtils.ExtractWithoutBackticks | src/clhi/cli/utils.py:41 | a reply without backticks yields no command |
| CliUtils.Decide | src/clhi/cli/utils.py:43-85 | only "q" (in any case) completes the session. A cancelled menu raises AttributeError. A raised extraction error appends and launches nothing. Nothing is launched without confirmation. "a" launches exactly the extracted command. "e" records the correction and launches the edited text. "f" appends the reply and the follow-up. Any other key changes nothing and returns None |
| CliUtils.Session.constructor | src/clhi/cli/clhi.py:42 | a session starts with an empty buffer |
| CliUtils.Session.InvokeModel | src/clhi/cli/utils.py:14-28 | an empty or cancelled question leaves the buffer untouched and ends the program; otherwise it appends the question, then the chain's reply to the buffer holding that question, and returns the reply |
| CliUtils.Session.HandleUserResponse | src/clhi/cli/utils.py:43-85 | returns what `Decide` returns, launches what `Decide` launches, and appends exactly `Decide`'s messages to the buffer |
| Clhi.Hi | src/clhi/cli/clhi.py:39-70 | the imperative driver loop over a `Session` produces exactly the session record `Run` defines |
| Clhi.Round | src/clhi/cli/clhi.py:51-70 | one pass of the loop body, on the session's buffer: when the decision or an empty next question ends the session, the session's record is that round's decision and launch; otherwise that round comes before the rest of the session from the new buffer and reply |
| Clhi.MenuDecisions | src/clhi/cli/clhi.py:51-61 | for menu selections: a cancelled menu is exactly the AttributeError case; Quit is exactly the completing case; the fall-through `None` never occurs |
| Clhi.LoopShape | src/clhi/cli/clhi.py:50-70 | the loop takes at most one decision per turn, and its first decision sees the starting buffer and reply |
| Clhi.LoopSeesOwnReply | src/clhi/cli/clhi.py:61-70 | when the starting buffer ends with the reply, every decision's buffer ends with the assistant reply being decided on |
| Clhi.LoopGrowth | src/clhi/cli/clhi.py:61-70 | between consecutive decisions the buffer grows by exactly the decision's messages, the new question and the model's reply |
| Clhi.LoopEnding | src/clhi/cli/clhi.py:50-63 | the loop finishes iff the last turn taken chose Quit; it crashes with AttributeError iff that turn's menu was cancelled; every earlier turn chose another entry and asked a new question |
| Clhi.LoopAppendOnly | src/clhi/cli/clhi.py:50-70 | the loop only appends: the starting buffer and every decision's buffer are prefixes of the final buffer |
| Clhi.SessionStart | src/clhi/cli/clhi.py:42-48 | an empty first question exits with an empty record; otherwise the first decision sees exactly the first question and the model's reply to it |
| Clhi.DecisionsSeeOwnReply | src/clhi/cli/clhi.py:43-61 | every decision of a session sees a buffer ending with the reply being decided on |
| Clhi.EachTurnGrowsBuffer | src/clhi/cli/clhi.py:61-70 | in a session, consecutive decisions differ by the decision's messages plus one question and one reply |
| Clhi.OnlyQuitFinishes | src/clhi/cli/clhi.py:50-63 | a session finishes normally iff the user picks Quit; a cancelled menu crashes it; every earlier round continued |
| Clhi.BufferOnlyGrows | src/clhi/cli/clhi.py:42-70 | every buffer a decision saw is a prefix of the final buffer |
| Clhi.FollowUpBreaksAlternation | src/clhi/cli/utils.py:81-85 | in any session, a follow-up at any turn after which the loop asks again leaves a final buffer that does not alternate roles: the reply it follows up is appended right after itself |
| Clhi.EditBreaksAlternation | src/clhi/cli/utils.py:76-78 | in any session, a confirmed edit of an extractable reply at any turn after which the loop asks again leaves a final buffer that does not alternate roles: the correction and the next question are adjacent user messages |
| Clhi.FollowUpRepeatsRoles | src/clhi/cli/utils.py:81-85 | a follow-up places two assistant messages and then two user messages next to each other, so the buffer does not alternate roles |
| Clhi.EditRepeatsRoles | src/clhi/cli/utils.py:76-78 | a confirmed edit followed by a question places two user messages next to each other |
| Clhi.ApplyLaunchesFencedCommand | src/clhi/cli/utils.py:51-62 | applying a fenced reply launches exactly the fenced command when confirmed, nothing otherwise, and leaves the buffer unchanged |
| Clhi.EditRecordsCorrection | src/clhi/cli/utils.py:67-79 | a confirmed edit launches the edited text and appends the correction message quoting the fenced command |

## Left out

- The prompt template, `build_chain`, the Databricks chat model and the output parser are not modelled. The whole chain is an arbitrary function from the buffer to the reply text that always returns.
- A chain call that raises is not modelled: `Run` has no `Crashed` ending for `chain.invoke` (`utils.py:24`). Such a call does raise in the source, for example when `extract_cli_info` meets a history line without `;` (the `IndexError` that `Chain.ExtractCliInfo` returns), or when retrieval or the network fails. In the source that exception ends `hi()` at `clhi.py:43` or `clhi.py:65`. The session properties hold for sessions in which every chain call returns.
- `get_vectorstore_retriever` and the vector-search index are not modelled. Retrieval is an arbitrary function from the question to ranked `Command`/`Summary` pairs.
- `apply_command` and `subprocess.Popen` are left out as process I/O. A launch is recorded as the command text. The history lookup reads the history file's lines directly instead of grep's output stream.
- `grep` is modelled as a plain substring filter over lines. Regular-expression metacharacters in the command and shell quoting of a command that contains `'` are not modelled.
- UTF-8 decoding of grep's output and the trailing newline of each output line are not modelled. History lines are already-decoded strings, and `strip()` would remove the newline anyway.
- Text.Lower: lower-cases only ASCII letters, because full Unicode case mapping does not affect the one-letter menu keys.
- `click.clear`, `questionary.print`, styles, logging, the "I did not find an executable command" text prompt (which is built but never asked) and the `dedent` import are terminal presentation only.
- `exit()` on an empty question is the `Exited` ending. The process does not terminate inside the model.
- `click.edit` returning `None` (editor closed without saving) is not modelled. The editor's result is always a string.
- In the "f" branch the source appends a `questionary.text(...)` question object, not its answer, because `.ask()` is missing. The model appends the follow-up text the user would have supplied.
- `hi()` loops forever until the user quits. The model runs a finite script of turns and ends in `Pending` when the script runs out.
- `RETRIEVED_DOCS` in `chain.py` is never used and is not modelled. `vector_search.py` and the data-preparation code are not part of this model.
- Chain.ExtractQuestion: the question is simply the last message's content (`input[-1]`). It carries no contract of its own; what it gives is stated by `PromptSeesLatestMessage`.
