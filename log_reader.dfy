/**
 * `LogReaderService.isValidContent` / `getInvalidContentReason`: a log is
 * worth summarising when, after every line that begins with `#` is emptied
 * (`replace(/^#.*$/gm, '')`) and the result trimmed, at least
 * `MinContentLength` characters remain.
 */
module LogReader {
  import opened Strings

  /** `CONTENT_THRESHOLDS.MIN_CONTENT_LENGTH`. */
  const MinContentLength: nat := 50

  /** Index of the first line terminator, or the length when there is none. */
  function FirstBreak(s: string): (n: nat)
    ensures n <= |s|
    ensures forall i :: 0 <= i < n ==> !IsLineTerminator(s[i])
    ensures n < |s| ==> IsLineTerminator(s[n])
    decreases |s|
  {
    if s == [] || IsLineTerminator(s[0]) then 0 else 1 + FirstBreak(s[1..])
  }

  /** A line that `/^#.*$/` matches loses its text. */
  function ClearLine(line: string): string {
    if line != [] && line[0] == '#' then "" else line
  }

  /**
   * `content.replace(/^#.*$/gm, '')`: each line (text between line
   * terminators) that begins with `#` is emptied; terminators stay.
   */
  function ClearHashLines(s: string): (r: string)
    ensures |r| <= |s|
    decreases |s|
  {
    var n := FirstBreak(s);
    if n == |s| then ClearLine(s)
    else ClearLine(s[..n]) + [s[n]] + ClearHashLines(s[n + 1..])
  }

  /** The lines of a text: the pieces between its line terminators. */
  function Lines(s: string): (r: seq<string>)
    ensures |r| >= 1
    decreases |s|
  {
    var n := FirstBreak(s);
    if n == |s| then [s] else [s[..n]] + Lines(s[n + 1..])
  }

  /** The line terminators of a text, in order. */
  function Breaks(s: string): string
    decreases |s|
  {
    var n := FirstBreak(s);
    if n == |s| then [] else [s[n]] + Breaks(s[n + 1..])
  }

  /** A line (text without terminators) followed by a terminator and the rest. */
  lemma FirstBreakOfLine(line: string, t: char, rest: string)
    requires forall i :: 0 <= i < |line| ==> !IsLineTerminator(line[i])
    requires IsLineTerminator(t)
    ensures var s := line + [t] + rest;
      FirstBreak(s) == |line| && s[..|line|] == line && s[|line|] == t && s[|line| + 1..] == rest
    decreases |line|
  {
    var s := line + [t] + rest;
    if line != [] {
      assert s[1..] == line[1..] + [t] + rest;
      FirstBreakOfLine(line[1..], t, rest);
    }
  }

  lemma FirstBreakOfLineEnd(line: string)
    requires forall i :: 0 <= i < |line| ==> !IsLineTerminator(line[i])
    ensures FirstBreak(line) == |line|
  {
  }

  /** Splitting a line followed by a terminator off the front of a text. */
  lemma LinesCons(line: string, t: char, rest: string)
    requires forall i :: 0 <= i < |line| ==> !IsLineTerminator(line[i])
    requires IsLineTerminator(t)
    ensures Lines(line + [t] + rest) == [line] + Lines(rest)
    ensures Breaks(line + [t] + rest) == [t] + Breaks(rest)
  {
    FirstBreakOfLine(line, t, rest);
  }

  /**
   * Line by line: the result has the same lines as the input, except that
   * every line beginning with `#` is now empty. Lines that do not begin
   * with `#` are kept exactly.
   */
  lemma {:induction false} ClearHashLinesByLine(s: string)
    ensures var r := ClearHashLines(s);
      && |Lines(r)| == |Lines(s)|
      && (forall i :: 0 <= i < |Lines(s)| ==> Lines(r)[i] == ClearLine(Lines(s)[i]))
    decreases |s|
  {
    var n := FirstBreak(s);
    var kept := ClearLine(s[..n]);
    if n == |s| {
      FirstBreakOfLineEnd(kept);
    } else {
      var tail := s[n + 1..];
      var rest := ClearHashLines(tail);
      ClearHashLinesByLine(tail);
      LinesCons(kept, s[n], rest);
      ConsLines(Lines(s), s[..n], Lines(tail), Lines(ClearHashLines(s)), kept, Lines(rest));
    }
  }

  lemma ConsLines(ls: seq<string>, l: string, ls': seq<string>, lr: seq<string>, k: string, lr': seq<string>)
    requires ls == [l] + ls' && lr == [k] + lr' && k == ClearLine(l)
    requires |lr'| == |ls'| && forall i :: 0 <= i < |ls'| ==> lr'[i] == ClearLine(ls'[i])
    ensures |lr| == |ls| && forall i :: 0 <= i < |ls| ==> lr[i] == ClearLine(ls[i])
  {
    forall i | 1 <= i < |ls| ensures lr[i] == ClearLine(ls[i]) {
      assert ls[i] == ls'[i - 1];
    }
  }

  /** The line terminators are all kept, in order. */
  lemma {:induction false} ClearHashLinesKeepsBreaks(s: string)
    ensures Breaks(ClearHashLines(s)) == Breaks(s)
    decreases |s|
  {
    var n := FirstBreak(s);
    var kept := ClearLine(s[..n]);
    if n == |s| {
      FirstBreakOfLineEnd(kept);
    } else {
      ClearHashLinesKeepsBreaks(s[n + 1..]);
      LinesCons(kept, s[n], ClearHashLines(s[n + 1..]));
    }
  }

  /** The text `isValidContent` and `getInvalidContentReason` measure. */
  function StrippedContent(s: string): string {
    Trim(ClearHashLines(s), JavaScript)
  }

  /** `isValidContent`: at least `MinContentLength` characters remain (inclusive). */
  predicate IsValidContent(s: string)
    ensures IsValidContent(s) ==> |s| >= MinContentLength
  {
    |StrippedContent(s)| >= MinContentLength
  }

  const ReasonPrefix := "要約する内容がありません（文字数: "

  /** `getInvalidContentReason`: the measured length, in decimal. */
  function InvalidContentReason(s: string): (r: string)
    ensures StartsWith(r, ReasonPrefix)
    ensures OccursAt(r, NatToString(|StrippedContent(s)|), |ReasonPrefix|)
    ensures |r| == |ReasonPrefix| + |NatToString(|StrippedContent(s)|)| + 1 && r[|r| - 1] == '）'
  {
    var r := ReasonPrefix + NatToString(|StrippedContent(s)|) + "）";
    assert r[|ReasonPrefix|..|ReasonPrefix| + |NatToString(|StrippedContent(s)|)|]
      == NatToString(|StrippedContent(s)|);
    r
  }

  /**
   * The number the reason shows reads back as the measured length, and the
   * content is valid exactly when that number is at least the minimum.
   */
  lemma ReasonNamesTheLength(s: string, n: nat)
    requires InvalidContentReason(s) == ReasonPrefix + NatToString(n) + "）"
    ensures n == |StrippedContent(s)|
    ensures IsValidContent(s) <==> n >= MinContentLength
  {
    var m := |StrippedContent(s)|;
    var r := InvalidContentReason(s);
    assert r == ReasonPrefix + NatToString(m) + "）";
    assert r[|ReasonPrefix|..|r| - 1] == NatToString(n);
    assert r[|ReasonPrefix|..|r| - 1] == NatToString(m);
    NatToStringValue(n);
    NatToStringValue(m);
  }

  /**
   * Whitespace around the remaining text never counts: what is measured is
   * a slice of the cleared text with only whitespace cut from either end,
   * and itself starts and ends with non-whitespace.
   */
  lemma SurroundingSpaceNeverCounts(s: string)
    ensures IsTrimmed(StrippedContent(s), JavaScript)
    ensures exists a: nat, b: nat ::
      (a <= b <= |ClearHashLines(s)| && StrippedContent(s) == ClearHashLines(s)[a..b]
       && AllSpace(ClearHashLines(s)[..a], JavaScript) && AllSpace(ClearHashLines(s)[b..], JavaScript))
  {
    TrimIsSlice(ClearHashLines(s), JavaScript);
  }

  /** A line that begins with `#` or is whitespace only. */
  predicate Ignorable(line: string) {
    (line != [] && line[0] == '#') || AllSpace(line, JavaScript)
  }

  /** A log made only of `#` lines and whitespace is never valid. */
  lemma {:induction false} OnlyHeadingsIsInvalid(s: string)
    requires forall i :: 0 <= i < |Lines(s)| ==> Ignorable(Lines(s)[i])
    ensures StrippedContent(s) == []
    ensures !IsValidContent(s)
  {
    ClearedIsSpace(s);
    TrimOfAllSpace(ClearHashLines(s), JavaScript);
  }

  lemma {:induction false} ClearedIsSpace(s: string)
    requires forall i :: 0 <= i < |Lines(s)| ==> Ignorable(Lines(s)[i])
    ensures AllSpace(ClearHashLines(s), JavaScript)
    decreases |s|
  {
    var n := FirstBreak(s);
    assert Lines(s)[0] == s[..n];
    if n < |s| {
      var tail := Lines(s[n + 1..]);
      assert Lines(s) == [s[..n]] + tail;
      forall i | 0 <= i < |tail| ensures Ignorable(tail[i]) {
        assert tail[i] == Lines(s)[i + 1];
      }
      ClearedIsSpace(s[n + 1..]);
      var r := ClearHashLines(s);
      var head := ClearLine(s[..n]);
      assert r == head + [s[n]] + ClearHashLines(s[n + 1..]);
      forall i | 0 <= i < |r| ensures IsSpace(r[i], JavaScript) {
        if i < |head| {
          assert r[i] == head[i];
        } else if i > |head| {
          assert r[i] == ClearHashLines(s[n + 1..])[i - |head| - 1];
        }
      }
    }
  }
}
