/** Recovering a user's earlier invocations of a command from the zsh
    history file (src/clhi/backend/terminal_utils.py). The shell pipeline
    `cat ~/.zsh_history | grep -m 5 '<command> '` is modelled as a filter over
    the lines of the history file: the first five lines that contain the
    command followed by a space. */
module TerminalUtils {
  import opened Types
  import opened Text

  /** How many matching lines `grep -m 5` lets through. */
  const MaxMatches: nat := 5

  /** The decimal digit of a count below ten. */
  function Digit(n: nat): char
    requires n < 10
  {
    ('0' as int + n) as char
  }

  /** The start of the pipeline, up to the opening quote: grep's `-m` limit is
      `MaxMatches`, the same bound `Grep` applies below. */
  const QueryPrefix: string := "cat ~/.zsh_history | grep -m " + [Digit(MaxMatches)] + " '"

  /** What grep looks for: the command followed by one space, so that `ls`
      does not match `lsof`. */
  function Pattern(command: string): (p: string)
    ensures |p| == |command| + 1 && p[..|command|] == command && p[|command|] == ' '
  {
    command + " "
  }

  /** The shell pipeline handed to the process launcher: the history file piped
      into grep, with the search pattern between single quotes at the end. */
  function HistoryQuery(command: string): (q: string)
    ensures |q| == |QueryPrefix| + |Pattern(command)| + 1
    ensures q[..|QueryPrefix|] == QueryPrefix
    ensures q[|QueryPrefix|..|q| - 1] == Pattern(command)
    ensures q[|q| - 1] == '\''
  {
    QueryPrefix + command + " '"
  }

  /** The lines of `lines` that contain `pat`, in file order. */
  function Matching(lines: seq<string>, pat: string): (m: seq<string>)
    ensures |m| <= |lines|
    ensures forall k :: 0 <= k < |m| ==> Contains(m[k], pat)
  {
    if lines == [] then []
    else if Contains(lines[0], pat) then [lines[0]] + Matching(lines[1..], pat)
    else Matching(lines[1..], pat)
  }

  /** The filter keeps every matching line, duplicates included, and nothing else. */
  lemma {:induction false} MatchingKeepsExactlyMatches(lines: seq<string>, pat: string, x: string)
    ensures multiset(Matching(lines, pat))[x] == if Contains(x, pat) then multiset(lines)[x] else 0
  {
    if lines != [] {
      MatchingKeepsExactlyMatches(lines[1..], pat, x);
      assert lines == [lines[0]] + lines[1..];
    }
  }

  /** `grep -m max pat`: the first `max` matching lines, in file order. */
  function Grep(lines: seq<string>, pat: string, max: nat): (m: seq<string>)
    ensures |m| <= max
    ensures m <= Matching(lines, pat)
    ensures |m| == max || m == Matching(lines, pat)
  {
    var all := Matching(lines, pat);
    if |all| <= max then all else all[..max]
  }

  /** Python's `line.split(";")[1].strip()`: the text between the first and
      second `;`, without surrounding whitespace. A line without any `;` has
      no field 1, and the index raises. */
  function SecondField(line: string): (r: Result<string, Error>)
    ensures r.Failure? <==> ';' !in line
    ensures r.Failure? ==> r.error == IndexError
    ensures r.Success? ==> ';' !in r.value && Trimmed(r.value)
  {
    var fields := Split(line, ';');
    if |fields| < 2 then Failure(IndexError)
    else
      var f := Strip(fields[1]);
      assert ';' !in f by {
        var i: nat :| i <= |fields[1]| && StrippedAt(fields[1], f, i);
        assert forall c :: c in f ==> c in fields[1];
      }
      Success(f)
  }

  /** In zsh's extended history format `: <epoch>:<duration>;<command>`, the
      parse recovers the command, stripped, when it contains no `;`. */
  lemma SecondFieldOfEntry(meta: string, command: string)
    requires ';' !in meta && ';' !in command
    ensures SecondField(meta + [';'] + command) == Success(Strip(command))
  {
    SplitFirst(meta, ';', command);
  }

  /** A command that itself contains `;` is cut at its first `;`. */
  lemma SecondFieldTruncates(meta: string, head: string, tail: string)
    requires ';' !in meta && ';' !in head
    ensures SecondField(meta + [';'] + head + [';'] + tail) == Success(Strip(head))
  {
    assert meta + [';'] + head + [';'] + tail == meta + [';'] + (head + [';'] + tail);
    SplitFirst(meta, ';', head + [';'] + tail);
    SplitFirst(head, ';', tail);
  }

  /** Parsing grep's output lines: one entry per line, in order, or the
      IndexError of the first line without a `;`. */
  function ParseEntries(m: seq<string>): (r: Result<seq<string>, Error>)
    ensures r.Success? <==> forall k :: 0 <= k < |m| ==> ';' in m[k]
    ensures r.Failure? ==> r.error == IndexError
    ensures r.Success? ==> |r.value| == |m| && forall k :: 0 <= k < |m| ==> SecondField(m[k]) == Success(r.value[k])
  {
    if forall k | 0 <= k < |m| :: ';' in m[k] then
      Success(seq(|m|, k requires 0 <= k < |m| => SecondField(m[k]).value))
    else
      Failure(IndexError)
  }

  /** One line without `;` makes the whole parse raise. */
  lemma ParseRaises(m: seq<string>, i: nat)
    requires i < |m| && ';' !in m[i]
    ensures ParseEntries(m) == Failure(IndexError)
  {
  }

  /** Entries parsed one per line are the parse's result. */
  lemma ParseSucceeds(m: seq<string>, entries: seq<string>)
    requires |entries| == |m|
    requires forall k :: 0 <= k < |m| ==> SecondField(m[k]) == Success(entries[k])
    ensures ParseEntries(m) == Success(entries)
  {
    assert forall k :: 0 <= k < |m| ==> ';' in m[k];
    assert ParseEntries(m).value == entries;
  }

  /** What `get_command_history` returns for `command`, given the lines of the
      history file: one parsed entry per line grep lets through, in order, or
      the IndexError of the first matched line without a `;`. */
  function CommandHistory(file: seq<string>, command: string): (r: Result<seq<string>, Error>)
    ensures var m := Grep(file, Pattern(command), MaxMatches);
      && (r.Success? <==> forall k :: 0 <= k < |m| ==> ';' in m[k])
      && (r.Failure? ==> r.error == IndexError)
      && (r.Success? ==> |r.value| == |m| <= MaxMatches)
      && (r.Success? ==> forall k :: 0 <= k < |m| ==> SecondField(m[k]) == Success(r.value[k]))
  {
    ParseEntries(Grep(file, Pattern(command), MaxMatches))
  }

  /** `get_command_history`: runs the pipeline and parses each output line
      into one history entry, appending them in output order. */
  method GetCommandHistory(command: string, file: seq<string>) returns (r: Result<seq<string>, Error>)
    ensures r == CommandHistory(file, command)
  {
    var matched := Grep(file, Pattern(command), MaxMatches);
    var entries: seq<string> := [];
    for i := 0 to |matched|
      invariant |entries| == i
      invariant forall k :: 0 <= k < i ==> SecondField(matched[k]) == Success(entries[k])
    {
      var field := SecondField(matched[i]);
      if field.Failure? {
        ParseRaises(matched, i);
        return Failure(field.error);
      }
      entries := entries + [field.value];
    }
    ParseSucceeds(matched, entries);
    r := Success(entries);
  }
}
