/**
 * `refactor-log-final.py` (and `refactor-all-large.py`, which repeats its
 * four passes): code blocks cut to their first three lines, repeated
 * consecutive `## /dev` project headers turned into rules, long section
 * bodies cut at a paragraph break, and empty sections and repeated rules
 * removed.
 */
module RefactorFinal {
  import opened Strings
  import opened LogText

  // -------------------------------------------- aggressive_code_truncation

  /** Blocks with at most this many (stripped) lines are left alone. */
  const MaxBlockLines := 5

  /** The line that replaces the rest of a long block. */
  function TotalLinesText(n: nat): string {
    "... (" + NatToString(n) + " lines total)"
  }

  /** The lines of a block body once stripped of surrounding whitespace. */
  function StrippedLines(body: string): seq<string> {
    Split(Trim(body, Python), "\n")
  }

  /** The text `replace_code_block` returns for a long block. */
  function ShortBlockText(lang: string, head: seq<string>, total: nat): string {
    "```" + lang + "\n" + Join(head, "\n") + "\n" + TotalLinesText(total) + "\n```"
  }

  /** The same text, line by line. */
  function ShortBlockLines(lang: string, head: seq<string>, total: nat): seq<string> {
    [Fence + lang] + head + [TotalLinesText(total), Fence]
  }

  /**
   * `replace_code_block`: a block whose stripped body has at most 5 lines is
   * given back as matched; a longer one becomes, line by line, the opening
   * fence with its tag, the first 3 stripped lines, a line giving the
   * number of stripped lines, and the closing fence.
   */
  function ShortenBlock(whole: string, lang: string, body: string): (r: string)
    ensures |StrippedLines(body)| <= MaxBlockLines ==> r == whole
    ensures var lines := StrippedLines(body);
      |lines| > MaxBlockLines && '\n' !in lang ==>
        Split(r, "\n") == ShortBlockLines(lang, lines[..3], |lines|)
  {
    var lines := StrippedLines(body);
    var n := |lines|;
    if n <= MaxBlockLines then whole
    else
      var r := ShortBlockText(lang, lines[..3], n);
      JoinShortBlock(lang, lines[..3], n);
      if '\n' !in lang then
        SplitPiecesLackSeparator(Trim(body, Python), '\n');
        ShortBlockSplits(lang, lines, n); r
      else r
  }

  lemma JoinShortBlock(lang: string, head: seq<string>, total: nat)
    requires head != []
    ensures Join(ShortBlockLines(lang, head, total), "\n") == ShortBlockText(lang, head, total)
  {
    var t := TotalLinesText(total);
    var a := [Fence + lang] + head;
    JoinConcat([Fence + lang], head, "\n");
    JoinConcat(a, [t, Fence], "\n");
    assert [t, Fence][1..] == [Fence];
    assert ShortBlockLines(lang, head, total) == a + [t, Fence];
    ShortTextShape(lang, Join(head, "\n"), t);
  }

  /** The calculated join, regrouped as the f-string writes it. */
  lemma ShortTextShape(lang: string, h: string, t: string)
    ensures Fence + lang + "\n" + h + "\n" + (t + "\n" + Fence) == "```" + lang + "\n" + h + "\n" + t + "\n```"
  {
  }

  lemma ShortBlockSplits(lang: string, lines: seq<string>, total: nat)
    requires |lines| > MaxBlockLines && '\n' !in lang
    requires forall i :: 0 <= i < |lines| ==> '\n' !in lines[i]
    ensures var l := ShortBlockLines(lang, lines[..3], total); Split(Join(l, "\n"), "\n") == l
  {
    var l := ShortBlockLines(lang, lines[..3], total);
    var t := TotalLinesText(total);
    assert '\n' !in t by {
      var d := NatToString(total);
      assert t == "... (" + d + " lines total)";
      forall k | 0 <= k < |t| ensures t[k] != '\n' {
        if 5 <= k < 5 + |d| {
          assert t[k] == d[k - 5];
        }
      }
    }
    forall i | 0 <= i < |l| ensures '\n' !in l[i] {
      if 1 <= i < 4 {
        assert l[i] == lines[i - 1];
      }
    }
    SplitJoin(l, '\n');
  }

  /** `aggressive_code_truncation`: `re.sub` of the code-block pattern with `replace_code_block`. */
  function TruncatedBlocks(content: string): string {
    RewriteCodeBlocks(content, 0, ShortenBlock)
  }

  /** Each long block of the log comes out as its fence, 3 lines, the total and the closing fence. */
  lemma LongBlockShortened(content: string, b: CodeBlock)
    requires b in CodeBlocks(content, 0)
    ensures var lines := StrippedLines(b.body);
      |lines| > MaxBlockLines ==>
        Split(ShortenBlock(content[b.start..b.end], b.lang, b.body), "\n")
          == ShortBlockLines(b.lang, lines[..3], |lines|)
  {
    LangHasNoBreak(content, b);
  }

  /** A log whose code blocks all have at most 5 stripped lines is left exactly as it was. */
  lemma ShortBlocksUnchanged(content: string)
    requires forall b :: b in CodeBlocks(content, 0) ==> |StrippedLines(b.body)| <= MaxBlockLines
    ensures TruncatedBlocks(content) == content
  {
    forall b | b in CodeBlocks(content, 0) ensures Keeps(ShortenBlock, content, b) { }
    RewriteKeepsText(content, 0, ShortenBlock);
  }

  // ---------------------------------------- merge_consecutive_same_project

  const DevPrefix := "## /dev "

  /** What a repeated project header becomes. */
  const Rule := "\n---\n"

  predicate IsDevHeader(line: string) {
    StartsWith(line, DevPrefix)
  }

  /** `line[8:].strip()`. */
  function Project(line: string): string
    requires IsDevHeader(line)
  {
    Trim(line[|DevPrefix|..], Python)
  }

  /**
   * The output lines for `lines`, `current` being the project of the run of
   * `/dev` sections in progress (`None` before any, and after another
   * header).
   */
  function MergedLines(lines: seq<string>, current: Option<string>): (r: seq<string>)
    ensures |r| == |lines|
    decreases |lines|
  {
    if lines == [] then []
    else
      var line := lines[0];
      if IsDevHeader(line) then
        if Some(Project(line)) == current then [Rule] + MergedLines(lines[1..], current)
        else [line] + MergedLines(lines[1..], Some(Project(line)))
      else if StartsWith(line, "## ") then [line] + MergedLines(lines[1..], None)
      else [line] + MergedLines(lines[1..], current)
  }

  /** One step of the scan, at line i. */
  lemma MergedStep(lines: seq<string>, i: nat, current: Option<string>)
    requires i < |lines|
    ensures var line, rest := lines[i], lines[i + 1..];
      MergedLines(lines[i..], current) ==
        if IsDevHeader(line) then
          if Some(Project(line)) == current then [Rule] + MergedLines(rest, current)
          else [line] + MergedLines(rest, Some(Project(line)))
        else if StartsWith(line, "## ") then [line] + MergedLines(rest, None)
        else [line] + MergedLines(rest, current)
  {
    assert lines[i..][0] == lines[i] && lines[i..][1..] == lines[i + 1..];
  }

  /** The text `merge_consecutive_same_project` returns. */
  function MergedText(content: string): string {
    Join(MergedLines(Split(content, "\n"), None), "\n")
  }

  /** `merge_consecutive_same_project`. */
  method MergeConsecutiveSameProject(content: string) returns (r: string)
    ensures r == MergedText(content)
  {
    var lines := Split(content, "\n");
    var result: seq<string> := [];
    var currentProject: Option<string> := None;
    for i := 0 to |lines|
      invariant result + MergedLines(lines[i..], currentProject) == MergedLines(lines, None)
    {
      var line := lines[i];
      MergedStep(lines, i, currentProject);
      if IsDevHeader(line) {
        var project := Project(line);
        if Some(project) == currentProject {
          Regroup(result, [Rule], [], MergedLines(lines[i + 1..], currentProject));
          result := result + [Rule];
        } else {
          Regroup(result, [line], [], MergedLines(lines[i + 1..], Some(project)));
          currentProject := Some(project);
          result := result + [line];
        }
      } else if StartsWith(line, "## ") {
        Regroup(result, [line], [], MergedLines(lines[i + 1..], None));
        currentProject := None;
        result := result + [line];
      } else {
        Regroup(result, [line], [], MergedLines(lines[i + 1..], currentProject));
        result := result + [line];
      }
    }
    assert lines[|lines|..] == [];
    assert result + [] == result;
    r := Join(result, "\n");
  }

  /**
   * The project whose `/dev` run is open after `before`: that of the last
   * `## ` header, when it is a `/dev` header.
   */
  function OpenProject(before: seq<string>): Option<string>
    decreases |before|
  {
    if before == [] then None
    else
      var last := before[|before| - 1];
      if IsDevHeader(last) then Some(Project(last))
      else if StartsWith(last, "## ") then None
      else OpenProject(before[..|before| - 1])
  }

  /** A line after `before`: a `/dev` header of the open project is a rule, anything else stays. */
  function MergedLine(before: seq<string>, line: string): string {
    if IsDevHeader(line) && OpenProject(before) == Some(Project(line)) then Rule else line
  }

  /**
   * Line by line: line i of the output is a rule exactly when line i is a
   * `/dev` header whose project equals the one of the last `## ` header
   * before it; otherwise it is line i unchanged.
   */
  lemma MergedLineByLine(lines: seq<string>)
    ensures var r := MergedLines(lines, None);
      forall i :: 0 <= i < |lines| ==> r[i] == MergedLine(lines[..i], lines[i])
  {
    MergedFrom(lines, 0);
    assert lines[0..] == lines;
  }

  lemma {:induction false} MergedFrom(lines: seq<string>, j: nat)
    requires j <= |lines|
    ensures var r := MergedLines(lines[j..], OpenProject(lines[..j]));
      forall i :: j <= i < |lines| ==> r[i - j] == MergedLine(lines[..i], lines[i])
    decreases |lines| - j
  {
    if j < |lines| {
      MergedFrom(lines, j + 1);
      MergedCons(lines, j);
      var r := MergedLines(lines[j..], OpenProject(lines[..j]));
      var r' := MergedLines(lines[j + 1..], OpenProject(lines[..j + 1]));
      forall i | j < i < |lines| ensures r[i - j] == MergedLine(lines[..i], lines[i]) {
        assert r[i - j] == r'[i - (j + 1)];
      }
    }
  }

  /** The output from line j: line j merged, then the output from line j + 1. */
  lemma MergedCons(lines: seq<string>, j: nat)
    requires j < |lines|
    ensures MergedLines(lines[j..], OpenProject(lines[..j]))
      == [MergedLine(lines[..j], lines[j])] + MergedLines(lines[j + 1..], OpenProject(lines[..j + 1]))
  {
    OpenProjectStep(lines, j);
    MergedStep(lines, j, OpenProject(lines[..j]));
  }

  /** The open project after one more line. */
  lemma OpenProjectStep(lines: seq<string>, j: nat)
    requires j < |lines|
    ensures OpenProject(lines[..j + 1]) ==
      if IsDevHeader(lines[j]) then Some(Project(lines[j]))
      else if StartsWith(lines[j], "## ") then None
      else OpenProject(lines[..j])
  {
    assert lines[..j + 1][..j] == lines[..j];
  }

  /** With no `/dev` header repeating the open project, nothing changes. */
  lemma MergeKeepsDistinct(lines: seq<string>)
    requires NoRepeatedProject(lines)
    ensures MergedLines(lines, None) == lines
  {
    MergedLineByLine(lines);
  }

  /** No `/dev` header names the project already open above it. */
  predicate NoRepeatedProject(lines: seq<string>) {
    forall i :: 0 <= i < |lines| && IsDevHeader(lines[i]) ==> OpenProject(lines[..i]) != Some(Project(lines[i]))
  }

  /** A log without repeated project headers comes out of the merge as it went in. */
  lemma DistinctProjectsUnchanged(content: string)
    requires NoRepeatedProject(Split(content, "\n"))
    ensures MergedText(content) == content
  {
    MergeKeepsDistinct(Split(content, "\n"));
    JoinSplit(content, "\n");
  }

  // ------------------------------------------------ truncate_long_sections

  /** `max_section_chars`: longer bodies are cut. */
  const MaxSectionChars := 3000

  const ParagraphBreak := "\n\n"

  /** The note that replaces the cut-off end of a body. */
  function OmittedNote(n: nat): string {
    "\n\n... (" + GroupedThousands(n) + " chars omitted) ...\n"
  }

  /**
   * Where a long body is cut: at the last paragraph break that starts
   * within the first 3000 characters when it starts after character 1500,
   * else at 3000.
   */
  function CutPoint(body: string): (cut: nat)
    requires |body| > MaxSectionChars
    ensures MaxSectionChars / 2 < cut <= MaxSectionChars
    ensures cut < MaxSectionChars ==> cut + 2 <= MaxSectionChars && OccursAt(body, ParagraphBreak, cut)
    ensures forall j: nat ::
      MaxSectionChars / 2 < j && j + 2 <= MaxSectionChars && OccursAt(body, ParagraphBreak, j) ==> j <= cut < MaxSectionChars
  {
    var t := body[..MaxSectionChars];
    var last := LastIndexOf(t, ParagraphBreak, |t|);
    forall j: nat | j + 2 <= MaxSectionChars ensures OccursAt(body, ParagraphBreak, j) == OccursAt(t, ParagraphBreak, j) {
      OccursAtPrefix(body, t, ParagraphBreak, j);
    }
    if last.Some? && last.value > MaxSectionChars / 2 then last.value else MaxSectionChars
  }

  /**
   * A body after `truncate_long_sections`: unchanged up to 3000
   * characters; longer, its text up to the cut point followed by a note
   * giving the number of characters left out, which with the kept ones
   * make up the whole body.
   */
  function TruncatedBody(body: string): (r: string)
    ensures |body| <= MaxSectionChars ==> r == body
    ensures |body| > MaxSectionChars ==> var cut := CutPoint(body);
      r == body[..cut] + OmittedNote(|body| - cut)
  {
    if |body| <= MaxSectionChars then body
    else
      var cut := CutPoint(body);
      body[..cut] + OmittedNote(|body| - cut)
  }

  /** The parts `truncate_long_sections` appends for `parts[i..]`. */
  function TruncatedFrom(parts: seq<string>, i: nat): (r: seq<string>)
    requires i <= |parts|
    ensures |r| == |parts| - i
    decreases |parts| - i
  {
    if i == |parts| then []
    else if StartsWith(parts[i], "## ") then
      if i + 1 == |parts| then [parts[i]]
      else [parts[i], TruncatedBody(parts[i + 1])] + TruncatedFrom(parts, i + 2)
    else [parts[i]] + TruncatedFrom(parts, i + 1)
  }

  function TruncatedParts(parts: seq<string>): seq<string> {
    TruncatedFrom(parts, 0)
  }

  /** The text `truncate_long_sections` returns. */
  function TruncatedSections(content: string): string {
    Concat(TruncatedParts(SplitHeaders(content)))
  }

  /**
   * One step of `truncate_long_sections` at part i: a header with the body
   * after it truncated, a header at the end alone, or any other part as it
   * is; with the index after them.
   */
  method TruncateAt(sections: seq<string>, i: nat) returns (taken: seq<string>, next: nat)
    requires i < |sections|
    ensures i < next <= |sections|
    ensures taken + TruncatedFrom(sections, next) == TruncatedFrom(sections, i)
  {
    var part := sections[i];
    if StartsWith(part, "## ") && i + 1 < |sections| {
      var body := TruncatedBody(sections[i + 1]);
      taken, next := [part, body], i + 2;
    } else {
      taken, next := [part], i + 1;
    }
  }

  /** `truncate_long_sections`. */
  method TruncateLongSections(content: string) returns (r: string)
    ensures r == TruncatedSections(content)
  {
    var sections := SplitHeaders(content);
    var result: seq<string> := [];
    var i := 0;
    while i < |sections|
      invariant i <= |sections|
      invariant result + TruncatedFrom(sections, i) == TruncatedParts(sections)
      decreases |sections| - i
    {
      var taken, next := TruncateAt(sections, i);
      Regroup(result, taken, [], TruncatedFrom(sections, next));
      result := result + taken;
      i := next;
    }
    assert result + [] == result;
    r := Concat(result);
  }

  /** No part longer than 3000 characters: the parts are kept as they are. */
  lemma {:induction false} ShortPartsKept(parts: seq<string>, i: nat)
    requires i <= |parts|
    requires forall j :: i <= j < |parts| ==> |parts[j]| <= MaxSectionChars
    ensures TruncatedFrom(parts, i) == parts[i..]
    decreases |parts| - i
  {
    if i < |parts| {
      if StartsWith(parts[i], "## ") && i + 1 < |parts| {
        ShortPartsKept(parts, i + 2);
        assert parts[i..] == [parts[i], parts[i + 1]] + parts[i + 2..];
      } else if StartsWith(parts[i], "## ") {
        assert parts[i..] == [parts[i]];
      } else {
        ShortPartsKept(parts, i + 1);
        assert parts[i..] == [parts[i]] + parts[i + 1..];
      }
    }
  }

  /** A log none of whose pieces is longer than 3000 characters comes out unchanged. */
  lemma ShortSectionsUnchanged(content: string)
    requires forall i :: 0 <= i < |SplitHeaders(content)| ==> |SplitHeaders(content)[i]| <= MaxSectionChars
    ensures TruncatedSections(content) == content
  {
    ShortPartsKept(SplitHeaders(content), 0);
    PiecesConcat(content, 0);
  }

  /** Parts i, i + 2, i + 4, ... all start with `## `. */
  predicate HeadersFrom(parts: seq<string>, i: nat)
    decreases |parts| - i
  {
    i >= |parts| || (StartsWith(parts[i], "## ") && HeadersFrom(parts, i + 2))
  }

  /** Header and body pairs from part i on, each body passed through `body`. */
  function PairsOut(parts: seq<string>, i: nat, body: string -> string): (r: seq<string>)
    requires i <= |parts|
    ensures |r| == |parts| - i
    decreases |parts| - i
  {
    if i == |parts| then []
    else if i + 1 == |parts| then [parts[i]]
    else [parts[i], body(parts[i + 1])] + PairsOut(parts, i + 2, body)
  }

  /** From a header at i on, with headers every other part, the loop takes header and body pairs. */
  lemma {:induction false} PairsTaken(parts: seq<string>, i: nat)
    requires i <= |parts| && HeadersFrom(parts, i)
    ensures TruncatedFrom(parts, i) == PairsOut(parts, i, TruncatedBody)
    decreases |parts| - i
  {
    if i + 1 < |parts| {
      PairsTaken(parts, i + 2);
    }
  }

  /** Part k of the pairs from i: a header kept, or a body passed through `body`. */
  lemma {:induction false} PairsOutAt(parts: seq<string>, i: nat, k: nat, body: string -> string)
    requires i + k < |parts|
    ensures PairsOut(parts, i, body)[k] == if k % 2 == 0 then parts[i + k] else body(parts[i + k])
    decreases k
  {
    if k >= 2 {
      PairsOutAt(parts, i + 2, k - 2, body);
      assert PairsOut(parts, i, body)[k] == PairsOut(parts, i + 2, body)[k - 2];
      ParityStep(k);
    }
  }

  lemma ParityPrev(k: nat)
    requires k >= 1
    ensures (k - 1) % 2 == 1 - k % 2
  {
  }

  lemma ParityStep(k: nat)
    requires k >= 2
    ensures (k - 2) % 2 == k % 2
  {
  }

  /** Headers at every odd part from i on. */
  lemma {:induction false} OddHeaders(parts: seq<string>, i: nat)
    requires i % 2 == 1
    requires forall j :: 0 <= j < |parts| && j % 2 == 1 ==> StartsWith(parts[j], "## ")
    ensures HeadersFrom(parts, i)
    decreases |parts| - i
  {
    if i < |parts| {
      OddHeaders(parts, i + 2);
    }
  }

  /** The text before the first header never starts with `## ` unless the log opens with a bare `## ` line. */
  lemma FirstPieceNotHeader(s: string)
    requires !StartsWith(s, "## ") || HeaderAt(s, 0)
    ensures !StartsWith(SplitHeaders(s)[0], "## ")
  {
  }

  /**
   * Section by section: cutting a log (that does not open with a bare
   * `## ` line) into pieces, the text before the first header and every
   * header line are kept, and every section body is truncated.
   */
  lemma SectionsTruncated(content: string)
    requires !StartsWith(content, "## ") || HeaderAt(content, 0)
    ensures var parts := SplitHeaders(content); var r := TruncatedParts(parts);
      forall i :: 0 <= i < |parts| ==> r[i] == if i > 0 && i % 2 == 0 then TruncatedBody(parts[i]) else parts[i]
  {
    var parts := SplitHeaders(content);
    FirstPieceNotHeader(content);
    PiecesAlternate(content, 0);
    FirstThenPairs(parts);
  }

  /**
   * The case SectionsTruncated leaves out: when the log opens with a bare
   * `## ` line and has a header after it, the first piece starts with `## `,
   * so the loop pairs it with that header. The header is passed through
   * TruncatedBody and the body under it is kept uncut.
   */
  lemma BareFirstLineShiftsPairs(content: string)
    requires StartsWith(content, "## ") && !HeaderAt(content, 0)
    requires FirstHeader(content, 0).Some?
    ensures var parts := SplitHeaders(content); var r := TruncatedParts(parts);
      && |parts| >= 3 && StartsWith(parts[0], "## ") && IsHeaderLine(parts[1])
      && r[1] == TruncatedBody(parts[1]) && r[2] == parts[2]
  {
    var parts := SplitHeaders(content);
    var p := FirstHeader(content, 0).value;
    var e := LineEnd(content, p + 3);
    assert parts == [content[..p], content[p..e]] + Pieces(content, e);
    assert content[..3][0] == '#' && content[..3][1] == '#' && content[..3][2] == ' ';
    assert p >= 4;
    assert parts[0][..3] == content[..3];
    PiecesAlternate(content, 0);
    assert IsBodyPiece(parts[2]);
    assert TruncatedFrom(parts, 0) == [parts[0], TruncatedBody(parts[1])] + TruncatedFrom(parts, 2);
  }

  /** A first part that is not a header, then header and body pairs. */
  lemma FirstThenPairs(parts: seq<string>)
    requires parts != [] && !StartsWith(parts[0], "## ")
    requires forall i :: 0 <= i < |parts| && i % 2 == 1 ==> StartsWith(parts[i], "## ")
    ensures var r := TruncatedParts(parts);
      forall i :: 0 <= i < |parts| ==> r[i] == if i > 0 && i % 2 == 0 then TruncatedBody(parts[i]) else parts[i]
  {
    OddHeaders(parts, 1);
    PairsTaken(parts, 1);
    assert TruncatedParts(parts) == [parts[0]] + PairsOut(parts, 1, TruncatedBody);
    forall i | 0 <= i < |parts| {
      AfterFirstAt(parts, i, TruncatedBody);
    }
  }

  /** Part i of the first part followed by the pairs after it. */
  lemma AfterFirstAt(parts: seq<string>, i: nat, body: string -> string)
    requires i < |parts|
    ensures ([parts[0]] + PairsOut(parts, 1, body))[i] == if i > 0 && i % 2 == 0 then body(parts[i]) else parts[i]
  {
    if i > 0 {
      PairsOutAt(parts, 1, i - 1, body);
      ParityPrev(i);
      assert ([parts[0]] + PairsOut(parts, 1, body))[i] == PairsOut(parts, 1, body)[i - 1];
    }
  }

  // ------------------------------------------------- remove_empty_sections

  /** All of `s[a..b]` is line breaks. */
  predicate AllBreaks(s: string, a: nat, b: nat) {
    forall k :: a <= k < b && k < |s| ==> s[k] == '\n'
  }

  /** End of the run of line breaks from i: where greedy `\n+` stops. */
  function BreaksEnd(s: string, i: nat): (e: nat)
    requires i <= |s|
    ensures i <= e <= |s| && AllBreaks(s, i, e)
    ensures e < |s| ==> s[e] != '\n'
    decreases |s| - i
  {
    if i < |s| && s[i] == '\n' then BreaksEnd(s, i + 1) else i
  }

  /**
   * The match of `(^## .+$)\n+(?=^## )` (multiline) at p, given by where it
   * ends: a header line, at least one line break, and a next line that
   * starts with `## `. There is none exactly when no such run of line
   * breaks after the header line reaches a `## `.
   */
  function EmptySectionAt(s: string, p: nat): (r: Option<nat>)
    requires p <= |s|
    ensures r.Some? ==>
      HeaderAt(s, p) && LineEnd(s, p + 3) < r.value && AllBreaks(s, LineEnd(s, p + 3), r.value) && OccursAt(s, "## ", r.value)
    ensures r.None? && HeaderAt(s, p) ==> var e := LineEnd(s, p + 3);
      forall q: nat :: e < q && AllBreaks(s, e, q) ==> !OccursAt(s, "## ", q)
  {
    if !HeaderAt(s, p) then None
    else
      var e := LineEnd(s, p + 3);
      var q := BreaksEnd(s, e);
      if e < q && OccursAt(s, "## ", q) then Some(q)
      else
        NoHeaderInRun(s, e, q);
        None
  }

  /** Inside or after a run of line breaks ending at q, only q itself can start a `## `. */
  lemma NoHeaderInRun(s: string, e: nat, q: nat)
    requires e <= |s| && q == BreaksEnd(s, e)
    requires !(e < q && OccursAt(s, "## ", q))
    ensures forall j: nat :: e < j && AllBreaks(s, e, j) ==> !OccursAt(s, "## ", j)
  {
    forall j: nat | e < j && AllBreaks(s, e, j) ensures !OccursAt(s, "## ", j) {
      if j < q {
        assert j < |s| && s[j] == '\n';
      }
    }
  }

  /** First `re.sub` of `remove_empty_sections`: every match is deleted, scanning on from its end. */
  function DropEmptySections(s: string, from: nat): (r: string)
    requires from <= |s|
    ensures |r| <= |s| - from
    decreases |s| - from
  {
    if from == |s| then ""
    else match EmptySectionAt(s, from)
      case Some(q) => DropEmptySections(s, q)
      case None => [s[from]] + DropEmptySections(s, from + 1)
  }

  /** A log in which no header is followed by blank lines and another header loses nothing. */
  lemma {:induction false} NoEmptySectionKept(s: string, from: nat)
    requires from <= |s|
    requires forall p: nat :: p <= |s| ==> EmptySectionAt(s, p).None?
    ensures DropEmptySections(s, from) == s[from..]
    decreases |s| - from
  {
    if from < |s| {
      assert EmptySectionAt(s, from).None?;
      NoEmptySectionKept(s, from + 1);
      assert s[from..] == [s[from]] + s[from + 1..];
    }
  }

  /** `k` copies of `t` one after the other. */
  function Repeat(t: string, k: nat): (r: string)
    ensures |r| == k * |t|
  {
    if k == 0 then "" else t + Repeat(t, k - 1)
  }

  /** How many rules follow one another from p: what greedy `(\n---\n)+` takes. */
  function RuleRun(s: string, p: nat): (k: nat)
    ensures p + k * |Rule| <= |s| || k == 0
    ensures k > 0 <==> OccursAt(s, Rule, p)
    decreases |s| - p
  {
    if OccursAt(s, Rule, p) then 1 + RuleRun(s, p + |Rule|) else 0
  }

  /** Second `re.sub` of `remove_empty_sections`: each run of rules becomes one rule. */
  function CollapseRules(s: string, from: nat): (r: string)
    requires from <= |s|
    ensures |r| <= |s| - from
    decreases |s| - from
  {
    if from == |s| then ""
    else if OccursAt(s, Rule, from) then Rule + CollapseRules(s, from + RuleRun(s, from) * |Rule|)
    else [s[from]] + CollapseRules(s, from + 1)
  }

  /** `k` rules in a row, not followed by another, come out as one. */
  lemma RulesCollapse(s: string, p: nat, k: nat)
    requires k >= 1 && p + k * |Rule| <= |s|
    requires s[p..p + k * |Rule|] == Repeat(Rule, k) && !OccursAt(s, Rule, p + k * |Rule|)
    ensures CollapseRules(s, p) == Rule + CollapseRules(s, p + k * |Rule|)
  {
    RuleRunOfRepeat(s, p, k);
  }

  lemma {:induction false} RuleRunOfRepeat(s: string, p: nat, k: nat)
    requires p + k * |Rule| <= |s|
    requires s[p..p + k * |Rule|] == Repeat(Rule, k) && !OccursAt(s, Rule, p + k * |Rule|)
    ensures RuleRun(s, p) == k
    decreases k
  {
    if k > 0 {
      assert |Rule| == 5;
      var t := s[p..p + k * 5];
      assert t == Rule + Repeat(Rule, k - 1);
      assert t[..5] == s[p..p + 5];
      assert t[5..] == s[p + 5..p + k * 5];
      assert OccursAt(s, Rule, p);
      RuleRunOfRepeat(s, p + 5, k - 1);
    }
  }

  /** Two rules back to back. */
  const DoubleRule := Rule + Rule

  /** A log with no two rules back to back keeps all its rules. */
  lemma {:induction false} SingleRulesKept(s: string, from: nat)
    requires from <= |s|
    requires forall p: nat :: p <= |s| ==> !OccursAt(s, DoubleRule, p)
    ensures CollapseRules(s, from) == s[from..]
    decreases |s| - from
  {
    if from < |s| {
      if OccursAt(s, Rule, from) {
        SingleRule(s, from);
        SingleRulesKept(s, from + |Rule|);
        assert s[from..] == s[from..from + |Rule|] + s[from + |Rule|..];
      } else {
        SingleRulesKept(s, from + 1);
        assert s[from..] == [s[from]] + s[from + 1..];
      }
    }
  }

  /** A rule not followed by another is a run of one. */
  lemma SingleRule(s: string, p: nat)
    requires OccursAt(s, Rule, p) && !OccursAt(s, DoubleRule, p)
    ensures RuleRun(s, p) == 1
  {
  }

  /** `remove_empty_sections`. */
  function RemoveEmptySections(content: string): (r: string)
    ensures |r| <= |content|
  {
    var dropped := DropEmptySections(content, 0);
    CollapseRules(dropped, 0)
  }

  /** A log in which no empty section and no two rules back to back occur is left as it is. */
  lemma NothingToRemove(content: string)
    requires forall p: nat :: p <= |content| ==> EmptySectionAt(content, p).None?
    requires forall p: nat :: p <= |content| ==> !OccursAt(content, DoubleRule, p)
    ensures RemoveEmptySections(content) == content
  {
    NoEmptySectionKept(content, 0);
    SingleRulesKept(content, 0);
  }

  // ------------------------------------------------------------------ main

  /** The four passes of `main`, in order: code blocks, projects, long sections, empty sections. */
  function FinalRefactor(content: string): string {
    RemoveEmptySections(TruncatedSections(MergedText(TruncatedBlocks(content))))
  }

  /**
   * The steps of `main` on the text read from the backup: the refactored
   * text, with the sizes before and after that `main` reports.
   */
  method RefactorTalkLog(content: string) returns (r: string, originalSize: nat, newSize: nat)
    ensures r == FinalRefactor(content)
    ensures originalSize == |content| && newSize == |r|
  {
    originalSize := |content|;
    r := TruncatedBlocks(content);
    r := MergeConsecutiveSameProject(r);
    r := TruncateLongSections(r);
    r := RemoveEmptySections(r);
    newSize := |r|;
  }

  /**
   * A log that none of the four passes has anything to do to (short code
   * blocks, no repeated project header, short sections, no empty section,
   * no doubled rule) comes out unchanged.
   */
  lemma PlainLogUnchanged(content: string)
    requires forall b :: b in CodeBlocks(content, 0) ==> |StrippedLines(b.body)| <= MaxBlockLines
    requires NoRepeatedProject(Split(content, "\n"))
    requires forall i :: 0 <= i < |SplitHeaders(content)| ==> |SplitHeaders(content)[i]| <= MaxSectionChars
    requires forall p: nat :: p <= |content| ==> EmptySectionAt(content, p).None?
    requires forall p: nat :: p <= |content| ==> !OccursAt(content, DoubleRule, p)
    ensures FinalRefactor(content) == content
  {
    ShortBlocksUnchanged(content);
    DistinctProjectsUnchanged(content);
    ShortSectionsUnchanged(content);
    NothingToRemove(content);
  }
}
