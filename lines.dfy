/**
 * Line-delimited text: the exported universe list (each key followed by a
 * newline, written into an in-memory text buffer) and the blacklist file
 * (its text split into lines with Python's `str.splitlines` rules).
 */
module Lines {
  import opened Frames

  /** The line boundaries of Python's `str.splitlines`. */
  predicate IsLineBreak(ch: char)
  {
    ch == '\n' || ch == '\r' || ch == '\U{B}' || ch == '\U{C}' || ch == '\U{1C}' || ch == '\U{1D}'
    || ch == '\U{1E}' || ch == '\U{85}' || ch == '\U{2028}' || ch == '\U{2029}'
  }

  /** A string that fits on one line. */
  predicate SingleLine(s: string)
  {
    forall i :: 0 <= i < |s| ==> !IsLineBreak(s[i])
  }

  /** The index of the first line boundary in `s`, or `|s|` when there is none. */
  function LineEnd(s: string): (i: nat)
    ensures i <= |s|
    ensures SingleLine(s[..i])
    ensures i < |s| ==> IsLineBreak(s[i])
  {
    if s == [] || IsLineBreak(s[0]) then 0
    else
      var j := LineEnd(s[1..]);
      assert s[..j + 1] == [s[0]] + s[1..][..j];
      j + 1
  }

  /**
   * `str.splitlines()`: the lines of `s` without their terminators; `"\r\n"` ends one
   * line, a final terminator does not open an empty line, and `""` has no lines.
   */
  function SplitLines(s: string): (lines: seq<string>)
    ensures forall j :: 0 <= j < |lines| ==> SingleLine(lines[j])
    decreases |s|
  {
    if s == [] then []
    else
      var i := LineEnd(s);
      var next := if i == |s| then |s|
                  else if s[i] == '\r' && i + 1 < |s| && s[i + 1] == '\n' then i + 2
                  else i + 1;
      [s[..i]] + SplitLines(s[next..])
  }

  /** The export format: every key followed by `"\n"`, in order. */
  function JoinLines(keys: seq<string>): string
  {
    if keys == [] then "" else keys[0] + "\n" + JoinLines(keys[1..])
  }

  /** `set(text.splitlines())`: the blacklist read from the file's text. */
  function ParseBlacklist(text: string): (blacklist: set<string>)
    ensures forall x :: x in blacklist ==> SingleLine(x)
  {
    Elements(SplitLines(text))
  }

  /** Appending one key appends exactly its line. */
  lemma {:induction false} JoinLinesSnoc(keys: seq<string>, k: string)
    ensures JoinLines(keys + [k]) == JoinLines(keys) + k + "\n"
  {
    if keys == [] {
      assert keys + [k] == [k];
    } else {
      assert (keys + [k])[1..] == keys[1..] + [k];
      JoinLinesSnoc(keys[1..], k);
    }
  }

  /** Splitting the exported text gives back the key sequence, when no key spans two lines. */
  lemma {:induction false} SplitJoinRoundTrip(keys: seq<string>)
    requires forall j :: 0 <= j < |keys| ==> SingleLine(keys[j])
    ensures SplitLines(JoinLines(keys)) == keys
  {
    if keys != [] {
      var k := keys[0];
      var rest := JoinLines(keys[1..]);
      var s := k + "\n" + rest;
      assert s == JoinLines(keys);
      LineEndOfSingleLine(k, rest);
      SplitAtNewline(s);
      assert s[..|k|] == k;
      assert s[|k| + 1..] == rest;
      SplitJoinRoundTrip(keys[1..]);
    }
  }

  /** Unfolds `SplitLines` once when the first line ends in a plain newline. */
  lemma SplitAtNewline(s: string)
    requires LineEnd(s) < |s| && s[LineEnd(s)] == '\n'
    ensures SplitLines(s) == [s[..LineEnd(s)]] + SplitLines(s[LineEnd(s) + 1..])
  {
  }

  /** The first line boundary of `k + "\n" + rest` is the newline after `k`. */
  lemma {:induction false} LineEndOfSingleLine(k: string, rest: string)
    requires SingleLine(k)
    ensures LineEnd(k + "\n" + rest) == |k|
  {
    if k != [] {
      assert (k + "\n" + rest)[1..] == k[1..] + "\n" + rest;
      LineEndOfSingleLine(k[1..], rest);
    }
  }

  /** Every line boundary in `s` is a plain newline. */
  predicate OnlyNewlineBreaks(s: string)
  {
    forall i :: 0 <= i < |s| && IsLineBreak(s[i]) ==> s[i] == '\n'
  }

  lemma OnlyNewlineBreaksSuffix(s: string, n: nat)
    requires OnlyNewlineBreaks(s) && n <= |s|
    ensures OnlyNewlineBreaks(s[n..])
  {
    forall j | 0 <= j < |s| - n && IsLineBreak(s[n..][j]) ensures s[n..][j] == '\n' {
      assert s[n..][j] == s[n + j];
    }
  }

  /**
   * The other direction: text whose only line boundary is `"\n"` and which is
   * empty or ends in a newline is rebuilt exactly from its lines.
   */
  lemma {:induction false} JoinSplitRoundTrip(s: string)
    requires OnlyNewlineBreaks(s)
    requires s == [] || s[|s| - 1] == '\n'
    ensures JoinLines(SplitLines(s)) == s
    decreases |s|
  {
    if s != [] {
      var i := LineEnd(s);
      assert i < |s|;
      assert s[i] == '\n';
      var rest := s[i + 1..];
      assert s == s[..i] + "\n" + rest;
      SplitAtNewline(s);
      OnlyNewlineBreaksSuffix(s, i + 1);
      assert rest != [] ==> rest[|rest| - 1] == s[|s| - 1];
      JoinSplitRoundTrip(rest);
      JoinLinesCons(s[..i], SplitLines(rest));
    }
  }

  lemma JoinLinesCons(line: string, lines: seq<string>)
    ensures JoinLines([line] + lines) == line + "\n" + JoinLines(lines)
  {
    assert ([line] + lines)[1..] == lines;
  }

  /** Reading the exported list back as a blacklist yields exactly the exported keys. */
  lemma ExportThenParse(keys: seq<string>)
    requires forall j :: 0 <= j < |keys| ==> SingleLine(keys[j])
    ensures ParseBlacklist(JoinLines(keys)) == Elements(keys)
  {
    SplitJoinRoundTrip(keys);
  }

  /** An in-memory text buffer that is only ever written at its end. */
  class TextBuffer {
    var text: string

    constructor ()
      ensures text == ""
    {
      text := "";
    }

    method Write(s: string)
      modifies this
      ensures text == old(text) + s
    {
      text := text + s;
    }
  }

  /** Writes every snapshot key, in snapshot order and without filtering, one per line. */
  method ExportUniverse(keys: seq<string>) returns (text: string)
    ensures text == JoinLines(keys)
  {
    var universe := new TextBuffer();
    for i := 0 to |keys|
      invariant universe.text == JoinLines(keys[..i])
    {
      JoinLinesSnoc(keys[..i], keys[i]);
      assert keys[..i + 1] == keys[..i] + [keys[i]];
      universe.Write(keys[i] + "\n");
    }
    assert keys[..|keys|] == keys;
    text := universe.text;
  }
}
