/** The Python string operations the core relies on: `in` on strings,
    `str.splitlines`, `str.split` on one separator, `str.strip` and
    `str.lower`, each with the properties the rest of the model uses. */
module Text {
  import opened Types

  // ---------------------------------------------------------------------
  // Substring test: Python's `sub in s`
  // ---------------------------------------------------------------------

  /** `sub` occurs in `s` starting at index `i`. */
  predicate OccursAt(s: string, sub: string, i: nat)
  {
    i + |sub| <= |s| && s[i..i + |sub|] == sub
  }

  /** Python's `sub in s`. */
  predicate Contains(s: string, sub: string)
  {
    exists i: nat | i <= |s| :: OccursAt(s, sub, i)
  }

  /** A string that lacks the first character of a non-empty `sub` cannot contain it. */
  lemma MissingFirstCharNotContained(s: string, sub: string)
    requires |sub| > 0 && sub[0] !in s
    ensures !Contains(s, sub)
  {
    forall i: nat | i <= |s|
      ensures !OccursAt(s, sub, i)
    {
      assert i + |sub| <= |s| ==> s[i..i + |sub|][0] == s[i];
    }
  }

  // ---------------------------------------------------------------------
  // Line splitting: Python's `str.splitlines()`
  // ---------------------------------------------------------------------

  /** The line boundaries `str.splitlines` recognises (`\r\n` counts as one). */
  predicate IsLineBreak(c: char)
  {
    c == '\n' || c == '\r' || c == '\U{0B}' || c == '\U{0C}'
    || c == '\U{1C}' || c == '\U{1D}' || c == '\U{1E}'
    || c == '\U{85}' || c == '\U{2028}' || c == '\U{2029}'
  }

  predicate NoLineBreak(s: string)
  {
    forall j :: 0 <= j < |s| ==> !IsLineBreak(s[j])
  }

  /** Index of the first line boundary in `s`, or `|s|` when there is none. */
  function LineEnd(s: string): (k: nat)
    ensures k <= |s|
    ensures NoLineBreak(s[..k])
    ensures k < |s| ==> IsLineBreak(s[k])
  {
    if s == [] || IsLineBreak(s[0]) then 0
    else
      var k := 1 + LineEnd(s[1..]);
      assert s[..k] == [s[0]] + s[1..][..k - 1];
      k
  }

  /** Python's `s.splitlines()`: the lines of `s` without their boundaries;
      a final boundary does not start an extra empty line. */
  function SplitLines(s: string): (lines: seq<string>)
    ensures forall k :: 0 <= k < |lines| ==> NoLineBreak(lines[k])
    decreases |s|
  {
    if s == [] then []
    else
      var k := LineEnd(s);
      if k == |s| then [s]
      else [s[..k]] + SplitLines(s[k + BreakWidth(s, k)..])
  }

  /** How many characters the boundary at `k` takes: two for `\r\n`, else one. */
  function BreakWidth(s: string, k: nat): (w: nat)
    requires k < |s|
    ensures 1 <= w <= |s| - k
  {
    if s[k] == '\r' && k + 1 < |s| && s[k + 1] == '\n' then 2 else 1
  }

  /** Splitting into lines invents no characters: every character of every
      line comes from the text. */
  lemma {:induction false} SplitLinesChars(s: string)
    ensures forall k, c :: 0 <= k < |SplitLines(s)| && c in SplitLines(s)[k] ==> c in s
    decreases |s|
  {
    if s != [] {
      var k := LineEnd(s);
      if k < |s| {
        var rest := s[k + BreakWidth(s, k)..];
        SplitLinesChars(rest);
        assert SplitLines(s) == [s[..k]] + SplitLines(rest);
        assert forall c :: c in s[..k] ==> c in s;
        assert forall c :: c in rest ==> c in s;
      }
    }
  }

  /** Every line followed by a `\n`, as a file of complete lines is written. */
  function JoinTerminated(lines: seq<string>): string
  {
    if lines == [] then [] else lines[0] + "\n" + JoinTerminated(lines[1..])
  }

  /** A line ended by `\n` is split off as the first element. */
  lemma SplitLinesFirst(line: string, rest: string)
    requires NoLineBreak(line)
    ensures SplitLines(line + "\n" + rest) == [line] + SplitLines(rest)
  {
    var s := line + "\n" + rest;
    assert s[|line|] == '\n';
    var k := LineEnd(s);
    assert k == |line|;
    assert s[..k] == line;
    assert s[k + 1..] == rest;
  }

  /** A non-empty text without boundaries is a single line. */
  lemma SplitLinesSingle(line: string)
    requires NoLineBreak(line) && line != []
    ensures SplitLines(line) == [line]
  {
    assert LineEnd(line) == |line|;
  }

  /** Round trip: splitting lines that were joined with terminators, followed by
      an unterminated last line, gives back exactly those lines. */
  lemma {:induction false} SplitLinesRoundTrip(lines: seq<string>, tail: string)
    requires forall k :: 0 <= k < |lines| ==> NoLineBreak(lines[k])
    requires NoLineBreak(tail)
    ensures SplitLines(JoinTerminated(lines) + tail) == lines + (if tail == [] then [] else [tail])
  {
    var last: seq<string> := if tail == [] then [] else [tail];
    if lines == [] {
      assert JoinTerminated(lines) + tail == tail;
      if tail != [] {
        SplitLinesSingle(tail);
      }
      assert lines + last == last;
    } else {
      var rest := JoinTerminated(lines[1..]) + tail;
      JoinTerminatedCons(lines, tail);
      SplitLinesFirst(lines[0], rest);
      SplitLinesRoundTrip(lines[1..], tail);
      assert SplitLines(rest) == lines[1..] + last;
      HeadThenRest(lines, last);
    }
  }

  lemma HeadThenRest<T>(xs: seq<T>, ys: seq<T>)
    requires xs != []
    ensures [xs[0]] + (xs[1..] + ys) == xs + ys
  {
    assert xs == [xs[0]] + xs[1..];
  }

  lemma JoinTerminatedCons(lines: seq<string>, tail: string)
    requires lines != []
    ensures JoinTerminated(lines) + tail == lines[0] + "\n" + (JoinTerminated(lines[1..]) + tail)
  {
  }

  // ---------------------------------------------------------------------
  // Splitting on one character: Python's `s.split(sep)`
  // ---------------------------------------------------------------------

  /** Index of the first `c` in `s`, or `|s|` when there is none. */
  function IndexOf(s: string, c: char): (k: nat)
    ensures k <= |s|
    ensures c !in s[..k]
    ensures k < |s| ==> s[k] == c
  {
    if s == [] || s[0] == c then 0
    else
      var k := 1 + IndexOf(s[1..], c);
      assert s[..k] == [s[0]] + s[1..][..k - 1];
      k
  }

  /** Python's `s.split(sep)` for a one-character separator. */
  function Split(s: string, sep: char): (fields: seq<string>)
    ensures |fields| >= 1
    ensures |fields| == 1 <==> sep !in s
    ensures forall k :: 0 <= k < |fields| ==> sep !in fields[k]
    decreases |s|
  {
    var k := IndexOf(s, sep);
    if k == |s| then
      assert s[..k] == s;
      [s]
    else
      [s[..k]] + Split(s[k + 1..], sep)
  }

  /** Python's `sep.join(fields)` for a non-empty list of fields. */
  function Join(fields: seq<string>, sep: char): string
    requires |fields| >= 1
  {
    if |fields| == 1 then fields[0] else fields[0] + [sep] + Join(fields[1..], sep)
  }

  /** Round trip: joining the fields of a split with its separator gives back the text. */
  lemma {:induction false} SplitJoin(s: string, sep: char)
    ensures Join(Split(s, sep), sep) == s
    decreases |s|
  {
    var k := IndexOf(s, sep);
    if k == |s| {
      assert s[..k] == s;
    } else {
      SplitUnfold(s, sep);
      JoinCons(s[..k], Split(s[k + 1..], sep), sep);
      SplitJoin(s[k + 1..], sep);
      SliceAround(s, k);
    }
  }

  /** The first field of a text holding the separator is split off. */
  lemma SplitUnfold(s: string, sep: char)
    requires IndexOf(s, sep) < |s|
    ensures Split(s, sep) == [s[..IndexOf(s, sep)]] + Split(s[IndexOf(s, sep) + 1..], sep)
  {
  }

  lemma SliceAround(s: string, k: nat)
    requires k < |s|
    ensures s == s[..k] + [s[k]] + s[k + 1..]
  {
  }

  lemma JoinCons(field: string, rest: seq<string>, sep: char)
    requires |rest| >= 1
    ensures Join([field] + rest, sep) == field + [sep] + Join(rest, sep)
  {
    assert ([field] + rest)[1..] == rest;
  }

  /** A field free of the separator followed by the separator is split off first. */
  lemma SplitFirst(field: string, sep: char, rest: string)
    requires sep !in field
    ensures Split(field + [sep] + rest, sep) == [field] + Split(rest, sep)
  {
    var s := field + [sep] + rest;
    var k := IndexOf(s, sep);
    assert s[|field|] == sep;
    assert k == |field|;
    assert s[..k] == field;
    assert s[k + 1..] == rest;
  }

  // ---------------------------------------------------------------------
  // Whitespace stripping: Python's `s.strip()`
  // ---------------------------------------------------------------------

  /** The characters Python's `str.isspace` accepts, which `strip()` removes. */
  predicate IsSpace(c: char)
  {
    c == ' ' || ('\t' <= c <= '\r') || ('\U{1C}' <= c <= '\U{1F}')
    || c == '\U{85}' || c == '\U{A0}' || c == '\U{1680}'
    || ('\U{2000}' <= c <= '\U{200A}') || c == '\U{2028}' || c == '\U{2029}'
    || c == '\U{202F}' || c == '\U{205F}' || c == '\U{3000}'
  }

  predicate AllSpace(s: string)
  {
    forall k :: 0 <= k < |s| ==> IsSpace(s[k])
  }

  /** Neither end of `s` is whitespace. */
  predicate Trimmed(s: string)
  {
    s == [] || (!IsSpace(s[0]) && !IsSpace(s[|s| - 1]))
  }

  /** `s.lstrip()` */
  function TrimStart(s: string): (r: string)
    ensures |r| <= |s| && r == s[|s| - |r|..]
    ensures AllSpace(s[..|s| - |r|])
    ensures r == [] || !IsSpace(r[0])
  {
    if s != [] && IsSpace(s[0]) then
      var r := TrimStart(s[1..]);
      DropLeadingSpace(s, r);
      r
    else s
  }

  /** Leading whitespace of the tail, plus the whitespace before it. */
  lemma DropLeadingSpace(s: string, r: string)
    requires s != [] && IsSpace(s[0])
    requires |r| <= |s| - 1 && r == s[1..][|s| - 1 - |r|..] && AllSpace(s[1..][..|s| - 1 - |r|])
    ensures r == s[|s| - |r|..] && AllSpace(s[..|s| - |r|])
  {
    assert s[..|s| - |r|] == [s[0]] + s[1..][..|s| - 1 - |r|];
  }

  /** `s.rstrip()` */
  function TrimEnd(s: string): (r: string)
    ensures |r| <= |s| && r == s[..|r|]
    ensures AllSpace(s[|r|..])
    ensures r == [] || !IsSpace(r[|r| - 1])
  {
    if s != [] && IsSpace(s[|s| - 1]) then
      var r := TrimEnd(s[..|s| - 1]);
      assert s[|r|..] == s[..|s| - 1][|r|..] + [s[|s| - 1]];
      r
    else s
  }

  /** `r` is what is left of `s` between a whitespace prefix of length `i`
      and a whitespace suffix. */
  predicate StrippedAt(s: string, r: string, i: nat)
  {
    i + |r| <= |s| && s[i..i + |r|] == r && AllSpace(s[..i]) && AllSpace(s[i + |r|..])
  }

  /** Python's `s.strip()`: the text between the leading and trailing whitespace. */
  function Strip(s: string): (r: string)
    ensures Trimmed(r)
    ensures exists i: nat | i <= |s| :: StrippedAt(s, r, i)
  {
    var t := TrimStart(s);
    var r := TrimEnd(t);
    StrippedSlice(s, t, r);
    assert StrippedAt(s, r, |s| - |t|);
    r
  }

  /** Trimming the front and then the back leaves a slice between whitespace. */
  lemma StrippedSlice(s: string, t: string, r: string)
    requires |t| <= |s| && t == s[|s| - |t|..] && AllSpace(s[..|s| - |t|])
    requires t == [] || !IsSpace(t[0])
    requires |r| <= |t| && r == t[..|r|] && AllSpace(t[|r|..])
    requires r == [] || !IsSpace(r[|r| - 1])
    ensures StrippedAt(s, r, |s| - |t|)
    ensures Trimmed(r)
  {
    var i := |s| - |t|;
    assert s[i..i + |r|] == r;
    assert s[i + |r|..] == t[|r|..];
  }

  /** Stripping is idempotent. */
  lemma StripIdempotent(s: string)
    ensures Strip(Strip(s)) == Strip(s)
  {
    var r := Strip(s);
    assert TrimStart(r) == r;
    assert TrimEnd(r) == r;
  }

  lemma {:induction false} TrimStartPadded(pre: string, rest: string)
    requires AllSpace(pre)
    requires rest == [] || !IsSpace(rest[0])
    ensures TrimStart(pre + rest) == rest
    decreases |pre|
  {
    if pre != [] {
      assert (pre + rest)[1..] == pre[1..] + rest;
      TrimStartPadded(pre[1..], rest);
    }
  }

  lemma {:induction false} TrimEndPadded(rest: string, post: string)
    requires AllSpace(post)
    requires rest == [] || !IsSpace(rest[|rest| - 1])
    ensures TrimEnd(rest + post) == rest
    decreases |post|
  {
    if post != [] {
      assert (rest + post)[..|rest + post| - 1] == rest + post[..|post| - 1];
      TrimEndPadded(rest, post[..|post| - 1]);
    }
  }

  /** Stripping removes exactly the surrounding whitespace: a text with no
      whitespace at either end survives any whitespace padding unchanged. */
  lemma StripPadded(pre: string, mid: string, post: string)
    requires AllSpace(pre) && AllSpace(post) && Trimmed(mid)
    ensures Strip(pre + mid + post) == mid
  {
    if mid == [] {
      assert pre + mid + post == pre + post;
      TrimStartPadded(pre + post, []);
      assert pre + post + [] == pre + post;
      TrimEndPadded([], []);
    } else {
      assert pre + mid + post == pre + (mid + post);
      TrimStartPadded(pre, mid + post);
      TrimEndPadded(mid, post);
    }
  }

  // ---------------------------------------------------------------------
  // Lower-casing: Python's `s.lower()` restricted to ASCII letters
  // ---------------------------------------------------------------------

  predicate IsAsciiLower(c: char)
  {
    'a' <= c <= 'z'
  }

  function LowerChar(c: char): char
  {
    if 'A' <= c <= 'Z' then (c as int + 32) as char else c
  }

  function UpperChar(c: char): char
    requires IsAsciiLower(c)
  {
    (c as int - 32) as char
  }

  /** Python's `s.lower()` on the ASCII letters. */
  function Lower(s: string): (r: string)
    ensures |r| == |s|
    ensures forall i :: 0 <= i < |s| ==> r[i] == LowerChar(s[i])
  {
    seq(|s|, i requires 0 <= i < |s| => LowerChar(s[i]))
  }

  /** A one-letter command matches after lower-casing exactly when it was
      typed in either case. */
  lemma LowerIsLetter(s: string, c: char)
    requires IsAsciiLower(c)
    ensures Lower(s) == [c] <==> s == [c] || s == [UpperChar(c)]
  {
    if Lower(s) == [c] {
      assert |s| == 1;
      assert LowerChar(s[0]) == c;
      if 'A' <= s[0] <= 'Z' {
        assert s[0] as int + 32 == c as int;
        assert s == [UpperChar(c)];
      } else {
        assert s == [c];
      }
    }
    if s == [c] || s == [UpperChar(c)] {
      assert Lower(s)[0] == c;
    }
  }
}
