/**
 * `refactor-log-aggressive.py`: four passes that shrink a conversation log
 * — long code blocks cut to head and tail, long table runs cut after ten
 * rows, long `**Claude**:` responses cut to head and tail, and section
 * bodies that repeat an earlier one replaced by a note.
 */
module RefactorAggressive {
  import opened Strings
  import opened LogText

  // ------------------------------------------------- truncate_code_blocks

  /** `max_lines` of `truncate_code_blocks`. */
  const MaxCodeLines := 20

  function OmittedLinesText(n: nat): string {
    "... (" + NatToString(n) + " lines omitted) ..."
  }

  /** The text `replace_code_block` returns for a long block. */
  function LongBlockText(lang: string, head: seq<string>, omitted: nat, tail: seq<string>): string {
    "```" + lang + "\n" + Join(head, "\n") + "\n\n" + OmittedLinesText(omitted) + "\n\n" + Join(tail, "\n") + "\n```"
  }

  /** The same text, line by line. */
  function LongBlockLines(lang: string, head: seq<string>, omitted: nat, tail: seq<string>): seq<string> {
    [Fence + lang] + head + ["", OmittedLinesText(omitted), ""] + tail + [Fence]
  }

  /**
   * `replace_code_block`: a block whose body splits into at most 20 lines is
   * given back as matched; a longer one becomes, line by line, the opening
   * fence with its tag, the first 10 lines, a blank line, the omitted-count
   * line, a blank line, the last 5 lines and the closing fence.
   */
  function ShortenCodeBlock(whole: string, lang: string, body: string): (r: string)
    ensures |Split(body, "\n")| <= MaxCodeLines ==> r == whole
    ensures var lines := Split(body, "\n"); var n := |lines|;
      n > MaxCodeLines && '\n' !in lang ==>
        Split(r, "\n") == LongBlockLines(lang, lines[..10], n - 15, lines[n - 5..])
  {
    var lines := Split(body, "\n");
    var n := |lines|;
    if n <= MaxCodeLines then whole
    else
      var r := LongBlockText(lang, lines[..10], n - 15, lines[n - 5..]);
      SplitPiecesLackSeparator(body, '\n');
      JoinLongBlock(lang, lines[..10], n - 15, lines[n - 5..]);
      if '\n' !in lang then LongBlockSplits(lang, lines, n - 15); r
      else r
  }

  lemma JoinLongBlock(lang: string, head: seq<string>, omitted: nat, tail: seq<string>)
    requires head != [] && tail != []
    ensures Join(LongBlockLines(lang, head, omitted, tail), "\n") == LongBlockText(lang, head, omitted, tail)
  {
    var o := OmittedLinesText(omitted);
    var a := [Fence + lang] + head;
    var b := a + ["", o, ""];
    var c := b + tail;
    assert LongBlockLines(lang, head, omitted, tail) == c + [Fence];
    JoinConcat([Fence + lang], head, "\n");
    JoinBlankAround(o);
    JoinConcat(a, ["", o, ""], "\n");
    JoinConcat(b, tail, "\n");
    JoinConcat(c, [Fence], "\n");
    var h, t := Join(head, "\n"), Join(tail, "\n");
    calc {
      Join(c + [Fence], "\n");
      Join(c, "\n") + "\n" + Fence;
      Join(b, "\n") + "\n" + t + "\n" + Fence;
      Join(a, "\n") + "\n" + ("\n" + o + "\n") + "\n" + t + "\n" + Fence;
      Fence + lang + "\n" + h + "\n" + ("\n" + o + "\n") + "\n" + t + "\n" + Fence;
      { TextShape(lang, h, o, t); }
      "```" + lang + "\n" + h + "\n\n" + o + "\n\n" + t + "\n```";
    }
  }

  /** Blank lines around a line, joined. */
  lemma JoinBlankAround(o: string)
    ensures Join(["", o, ""], "\n") == "\n" + o + "\n"
  {
    var m := ["", o, ""];
    assert m[1..] == [o, ""] && m[1..][1..] == [""];
    assert Join([o, ""], "\n") == o + "\n" + "";
    assert Join(m, "\n") == "" + "\n" + Join([o, ""], "\n");
  }

  /** The calculated join, regrouped as the f-string writes it. */
  lemma TextShape(lang: string, h: string, o: string, t: string)
    ensures Fence + lang + "\n" + h + "\n" + ("\n" + o + "\n") + "\n" + t + "\n" + Fence
      == "```" + lang + "\n" + h + "\n\n" + o + "\n\n" + t + "\n```"
  {
  }

  lemma LongBlockSplits(lang: string, lines: seq<string>, omitted: nat)
    requires |lines| > MaxCodeLines && '\n' !in lang
    requires forall i :: 0 <= i < |lines| ==> '\n' !in lines[i]
    ensures var l := LongBlockLines(lang, lines[..10], omitted, lines[|lines| - 5..]);
      Split(Join(l, "\n"), "\n") == l
  {
    var n := |lines|;
    var l := LongBlockLines(lang, lines[..10], omitted, lines[n - 5..]);
    forall i | 0 <= i < |l| ensures '\n' !in l[i] {
      if 1 <= i < 11 {
        assert l[i] == lines[i - 1];
      } else if 14 <= i < 19 {
        assert l[i] == lines[n - 5 + i - 14];
      }
    }
    SplitJoin(l, '\n');
  }

  /** `truncate_code_blocks`: `re.sub` of the code-block pattern with `replace_code_block`. */
  function TruncatedCode(content: string): string {
    RewriteCodeBlocks(content, 0, ShortenCodeBlock)
  }

  /** The lines of a matched body never contain a line break, so the line-level ensures applies. */
  lemma ShortenedBlockLines(content: string, b: CodeBlock)
    requires b in CodeBlocks(content, 0)
    ensures var lines := Split(b.body, "\n"); var n := |lines|;
      n > MaxCodeLines ==>
        Split(ShortenCodeBlock(content[b.start..b.end], b.lang, b.body), "\n")
          == LongBlockLines(b.lang, lines[..10], n - 15, lines[n - 5..])
  {
    LangHasNoBreak(content, b);
  }

  /** A log whose code blocks all have at most 20 lines is left exactly as it was. */
  lemma ShortCodeBlocksUnchanged(content: string)
    requires forall b :: b in CodeBlocks(content, 0) ==> |Split(b.body, "\n")| <= MaxCodeLines
    ensures TruncatedCode(content) == content
  {
    forall b | b in CodeBlocks(content, 0) ensures Keeps(ShortenCodeBlock, content, b) { }
    RewriteKeepsText(content, 0, ShortenCodeBlock);
  }

  // ------------------------------------------------- truncate_long_outputs

  /** `line.startswith('|') and '|' in line[1:]`. */
  predicate IsTableRow(line: string) {
    line != [] && line[0] == '|' && '|' in line[1..]
  }

  const RowsOmitted := "| ... (rows omitted) ... |"

  /**
   * The lines `truncate_long_outputs` keeps, `run` table rows having just
   * gone by: rows 1 to 10 of a run stay, the 11th becomes the omission row,
   * later ones go; any other line is kept and ends the run.
   */
  function KeptRows(lines: seq<string>, run: nat): (r: seq<string>)
    decreases |lines|
  {
    if lines == [] then []
    else if IsTableRow(lines[0]) then RowOut(run + 1, lines[0]) + KeptRows(lines[1..], run + 1)
    else [lines[0]] + KeptRows(lines[1..], 0)
  }

  /** What the n-th row of a run turns into. */
  function RowOut(n: nat, line: string): seq<string> {
    if n <= 10 then [line] else if n == 11 then [RowsOmitted] else []
  }

  /** One step of the scan, at line i. */
  lemma KeptRowsStep(lines: seq<string>, i: nat, run: nat)
    requires i < |lines|
    ensures KeptRows(lines[i..], run) ==
      if IsTableRow(lines[i]) then RowOut(run + 1, lines[i]) + KeptRows(lines[i + 1..], run + 1)
      else [lines[i]] + KeptRows(lines[i + 1..], 0)
  {
    assert lines[i..][0] == lines[i] && lines[i..][1..] == lines[i + 1..];
  }

  /** `truncate_long_outputs`. The unused `max_chars` parameter is not modelled. */
  method TruncateLongOutputs(content: string) returns (r: string)
    ensures r == Join(KeptRows(Split(content, "\n"), 0), "\n")
  {
    var lines := Split(content, "\n");
    var result: seq<string> := [];
    var consecutiveTableRows: nat := 0;
    for i := 0 to |lines|
      invariant result + KeptRows(lines[i..], consecutiveTableRows) == KeptRows(lines, 0)
    {
      var line := lines[i];
      KeptRowsStep(lines, i, consecutiveTableRows);
      if IsTableRow(line) {
        consecutiveTableRows := consecutiveTableRows + 1;
        Regroup(result, RowOut(consecutiveTableRows, line), [], KeptRows(lines[i + 1..], consecutiveTableRows));
        if consecutiveTableRows <= 10 {
          result := result + [line];
        } else if consecutiveTableRows == 11 {
          result := result + [RowsOmitted];
        } else {
          assert result + [] == result;
        }
      } else {
        Regroup(result, [line], [], KeptRows(lines[i + 1..], 0));
        consecutiveTableRows := 0;
        result := result + [line];
      }
    }
    assert lines[|lines|..] == [];
    assert result + [] == result;
    r := Join(result, "\n");
  }

  /** What a run of table rows contributes, `run` rows having gone before it. */
  function RunKept(rows: seq<string>, run: nat): seq<string> {
    var k := if run >= 10 then 0 else if 10 - run < |rows| then 10 - run else |rows|;
    rows[..k] + (if run <= 10 < run + |rows| then [RowsOmitted] else [])
  }

  /** A run of table rows keeps its first rows up to the tenth of the run, then one omission row. */
  lemma {:induction false} RowRun(rows: seq<string>, run: nat, tail: seq<string>)
    requires forall i :: 0 <= i < |rows| ==> IsTableRow(rows[i])
    ensures KeptRows(rows + tail, run) == RunKept(rows, run) + KeptRows(tail, run + |rows|)
    decreases |rows|
  {
    if rows == [] {
      assert rows + tail == tail;
    } else {
      var rest := rows[1..];
      assert (rows + tail)[0] == rows[0] && (rows + tail)[1..] == rest + tail;
      RowRun(rest, run + 1, tail);
      RunKeptCons(rows, run);
      Regroup(RowOut(run + 1, rows[0]), RunKept(rest, run + 1), [], KeptRows(tail, run + |rows|));
    }
  }

  /** The first row of a run, then the rest of it. */
  lemma RunKeptCons(rows: seq<string>, run: nat)
    requires rows != []
    ensures RunKept(rows, run) == RowOut(run + 1, rows[0]) + RunKept(rows[1..], run + 1)
  {
    if run + 1 <= 10 {
      var k := if 10 - run < |rows| then 10 - run else |rows|;
      assert rows[..k] == [rows[0]] + rows[1..][..k - 1];
    }
  }

  /**
   * A run of table rows followed by another line: at most its first 10 rows
   * stay, then one omission row if the run was longer, then the line, and
   * the count starts again.
   */
  lemma TableRunKept(rows: seq<string>, line: string, rest: seq<string>)
    requires forall i :: 0 <= i < |rows| ==> IsTableRow(rows[i])
    requires !IsTableRow(line)
    ensures KeptRows(rows + [line] + rest, 0)
      == (if |rows| <= 10 then rows else rows[..10] + [RowsOmitted]) + [line] + KeptRows(rest, 0)
  {
    RowRun(rows, 0, [line] + rest);
    assert rows + [line] + rest == rows + ([line] + rest);
    assert ([line] + rest)[1..] == rest;
    var kept := RunKept(rows, 0);
    assert kept == if |rows| <= 10 then rows else rows[..10] + [RowsOmitted];
    Regroup(kept, [line], [], KeptRows(rest, 0));
  }

  /** Lines that are not table rows. */
  function NonTableLines(lines: seq<string>): (r: seq<string>)
    ensures |r| <= |lines|
    decreases |lines|
  {
    if lines == [] then []
    else (if IsTableRow(lines[0]) then [] else [lines[0]]) + NonTableLines(lines[1..])
  }

  /** Every line that is not a table row is kept, in order, and nothing else is added. */
  lemma {:induction false} NonTableLinesKept(lines: seq<string>, run: nat)
    ensures NonTableLines(KeptRows(lines, run)) == NonTableLines(lines)
    decreases |lines|
  {
    if lines != [] {
      NonTableLinesKept(lines[1..], if IsTableRow(lines[0]) then run + 1 else 0);
      var kept := KeptRows(lines, run);
      var head := if IsTableRow(lines[0])
        then (if run + 1 <= 10 then [lines[0]] else if run + 1 == 11 then [RowsOmitted] else [])
        else [lines[0]];
      var tail := KeptRows(lines[1..], if IsTableRow(lines[0]) then run + 1 else 0);
      assert kept == head + tail;
      NonTableAppend(head, tail);
      assert RowsOmitted[1..][|RowsOmitted| - 2] == '|';
    }
  }

  lemma {:induction false} NonTableAppend(a: seq<string>, b: seq<string>)
    ensures NonTableLines(a + b) == NonTableLines(a) + NonTableLines(b)
    decreases |a|
  {
    if a == [] {
      assert a + b == b;
    } else {
      assert (a + b)[1..] == a[1..] + b;
      NonTableAppend(a[1..], b);
    }
  }

  /** A text without table rows passes unchanged. */
  lemma {:induction false} NoTableRowsUnchanged(lines: seq<string>, run: nat)
    requires forall i :: 0 <= i < |lines| ==> !IsTableRow(lines[i])
    ensures KeptRows(lines, run) == lines
    decreases |lines|
  {
    if lines != [] {
      NoTableRowsUnchanged(lines[1..], 0);
    }
  }

  // ------------------------------------------- compress_response_block

  /** `max_lines` of `compress_response_block`. */
  const MaxResponseLines := 50

  function OmittedBlockLine(n: nat): string {
    "\n" + OmittedLinesText(n) + "\n"
  }

  /**
   * `compress_response_block`: a block of at most 50 lines is kept; a longer
   * one becomes its first 30 lines, one line stating how many were left
   * out, and its last 10 — the count is exactly the lines dropped between.
   */
  function CompressResponseBlock(lines: seq<string>): (r: seq<string>)
    ensures |r| <= |lines|
    ensures |lines| <= MaxResponseLines ==> r == lines
    ensures var n := |lines|; n > MaxResponseLines ==>
      && |r| == 41 && r[..30] == lines[..30] && r[31..] == lines[n - 10..]
      && r[30] == OmittedBlockLine(|lines[30..n - 10]|)
      && lines == r[..30] + lines[30..n - 10] + r[31..]
  {
    var n := |lines|;
    if n <= MaxResponseLines then lines
    else
      var r := lines[..30] + [OmittedBlockLine(n - 40)] + lines[n - 10..];
      assert r[31..] == lines[n - 10..];
      assert lines == lines[..30] + lines[30..n - 10] + lines[n - 10..];
      r
  }

  // ------------------------------------------ compress_claude_responses

  predicate StartsResponse(line: string) {
    StartsWith(line, "**Claude**:")
  }

  predicate EndsResponse(line: string) {
    StartsWith(line, "**ユーザー**:") || StartsWith(line, "## ")
  }

  /**
   * The output lines of `compress_claude_responses` for `lines`, with
   * `block` the response lines gathered so far (non-empty exactly while a
   * response is open).
   */
  function CompressedLines(lines: seq<string>, block: seq<string>): seq<string>
    decreases |lines|
  {
    if lines == [] then Flushed(block)
    else
      var line := lines[0];
      if StartsResponse(line) then Flushed(block) + CompressedLines(lines[1..], [line])
      else if block != [] then
        if EndsResponse(line) then CompressResponseBlock(block) + [line] + CompressedLines(lines[1..], [])
        else CompressedLines(lines[1..], block + [line])
      else [line] + CompressedLines(lines[1..], [])
  }

  /** What an open response contributes when it is closed: nothing when none is open. */
  function Flushed(block: seq<string>): seq<string> {
    if block != [] then CompressResponseBlock(block) else []
  }

  /** One step of the scan, at line i. */
  lemma CompressedStep(lines: seq<string>, i: nat, block: seq<string>)
    requires i < |lines|
    ensures var line, rest := lines[i], lines[i + 1..];
      CompressedLines(lines[i..], block) ==
        if StartsResponse(line) then Flushed(block) + CompressedLines(rest, [line])
        else if block != [] then
          if EndsResponse(line) then CompressResponseBlock(block) + [line] + CompressedLines(rest, [])
          else CompressedLines(rest, block + [line])
        else [line] + CompressedLines(rest, [])
  {
    assert lines[i..][0] == lines[i] && lines[i..][1..] == lines[i + 1..];
  }

  /** `compress_claude_responses`. */
  method CompressClaudeResponses(content: string) returns (r: string)
    ensures r == Join(CompressedLines(Split(content, "\n"), []), "\n")
  {
    var lines := Split(content, "\n");
    var result: seq<string> := [];
    var inClaudeResponse := false;
    var claudeLines: seq<string> := [];
    for i := 0 to |lines|
      invariant inClaudeResponse <==> claudeLines != []
      invariant result + CompressedLines(lines[i..], claudeLines) == CompressedLines(lines, [])
    {
      var line := lines[i];
      CompressedStep(lines, i, claudeLines);
      if StartsResponse(line) {
        if claudeLines != [] {
          var compressed := CompressResponseBlock(claudeLines);
          Regroup(result, compressed, [], CompressedLines(lines[i + 1..], [line]));
          result := result + compressed;
          claudeLines := [];
        }
        inClaudeResponse := true;
        claudeLines := [line];
      } else if inClaudeResponse {
        if EndsResponse(line) {
          var compressed := CompressResponseBlock(claudeLines);
          Regroup(result, compressed, [line], CompressedLines(lines[i + 1..], []));
          result := result + compressed;
          claudeLines := [];
          inClaudeResponse := false;
          result := result + [line];
        } else {
          claudeLines := claudeLines + [line];
        }
      } else {
        Regroup(result, [line], [], CompressedLines(lines[i + 1..], []));
        result := result + [line];
      }
    }
    assert lines[|lines|..] == [];
    if claudeLines != [] {
      var compressed := CompressResponseBlock(claudeLines);
      result := result + compressed;
    } else {
      assert result + [] == result;
    }
    r := Join(result, "\n");
  }

  /** Compression never adds lines. */
  lemma {:induction false} CompressedLinesBound(lines: seq<string>, block: seq<string>)
    ensures |CompressedLines(lines, block)| <= |block| + |lines|
    decreases |lines|
  {
    if lines != [] {
      var line := lines[0];
      if StartsResponse(line) {
        CompressedLinesBound(lines[1..], [line]);
      } else if block != [] && !EndsResponse(line) {
        CompressedLinesBound(lines[1..], block + [line]);
      } else {
        CompressedLinesBound(lines[1..], []);
      }
    }
  }

  /** A log of at most 50 lines (counting an open response) is never shortened. */
  lemma {:induction false} ShortLogUnchanged(lines: seq<string>, block: seq<string>)
    requires |block| + |lines| <= MaxResponseLines
    ensures CompressedLines(lines, block) == block + lines
    decreases |lines|
  {
    if lines == [] {
      assert block + lines == block;
    } else {
      var line := lines[0];
      assert lines == [line] + lines[1..];
      if StartsResponse(line) {
        ShortLogUnchanged(lines[1..], [line]);
      } else if block != [] && !EndsResponse(line) {
        ShortLogUnchanged(lines[1..], block + [line]);
      } else {
        ShortLogUnchanged(lines[1..], []);
      }
    }
  }

  /** Lines outside any response are copied one for one. */
  lemma {:induction false} OutsideResponsesCopied(pre: seq<string>, rest: seq<string>)
    requires forall i :: 0 <= i < |pre| ==> !StartsResponse(pre[i])
    ensures CompressedLines(pre + rest, []) == pre + CompressedLines(rest, [])
    decreases |pre|
  {
    if pre == [] {
      assert pre + rest == rest;
    } else {
      assert (pre + rest)[1..] == pre[1..] + rest;
      OutsideResponsesCopied(pre[1..], rest);
    }
  }

  /** Lines inside an open response are gathered, not emitted. */
  lemma {:induction false} InsideResponseGathered(inner: seq<string>, rest: seq<string>, block: seq<string>)
    requires block != []
    requires forall i :: 0 <= i < |inner| ==> !StartsResponse(inner[i]) && !EndsResponse(inner[i])
    ensures CompressedLines(inner + rest, block) == CompressedLines(rest, block + inner)
    decreases |inner|
  {
    if inner == [] {
      assert inner + rest == rest;
      assert block + inner == block;
    } else {
      assert (inner + rest)[1..] == inner[1..] + rest;
      assert block + [inner[0]] + inner[1..] == block + inner;
      InsideResponseGathered(inner[1..], rest, block + [inner[0]]);
    }
  }

  /**
   * A response runs from its `**Claude**:` line up to, not including, the
   * next user turn or `## ` header; it is compressed as one block, the line
   * that ends it is kept, and the lines before it are copied unchanged.
   */
  lemma ResponseCompressedAsBlock(pre: seq<string>, response: seq<string>, end: string, post: seq<string>)
    requires forall i :: 0 <= i < |pre| ==> !StartsResponse(pre[i])
    requires response != [] && StartsResponse(response[0])
    requires forall i :: 1 <= i < |response| ==> !StartsResponse(response[i]) && !EndsResponse(response[i])
    requires EndsResponse(end)
    ensures CompressedLines(pre + response + [end] + post, [])
      == pre + CompressResponseBlock(response) + [end] + CompressedLines(post, [])
  {
    var tail := response + [end] + post;
    assert pre + response + [end] + post == pre + tail;
    OutsideResponsesCopied(pre, tail);
    ResponseThenRest(response, end, post);
  }

  /** A response at the front of the text, with the line that ends it. */
  lemma ResponseThenRest(response: seq<string>, end: string, post: seq<string>)
    requires response != [] && StartsResponse(response[0])
    requires forall i :: 1 <= i < |response| ==> !StartsResponse(response[i]) && !EndsResponse(response[i])
    requires EndsResponse(end)
    ensures CompressedLines(response + [end] + post, [])
      == CompressResponseBlock(response) + [end] + CompressedLines(post, [])
  {
    var first := response[0];
    var rest := response[1..] + ([end] + post);
    assert response + [end] + post == [first] + rest;
    ResponseOpens(first, rest);
    InsideResponseGathered(response[1..], [end] + post, [first]);
    assert [first] + response[1..] == response;
    ResponseCloses(response, end, post);
  }

  lemma ResponseOpens(line: string, rest: seq<string>)
    requires StartsResponse(line)
    ensures CompressedLines([line] + rest, []) == CompressedLines(rest, [line])
  {
    assert ([line] + rest)[1..] == rest;
  }

  lemma ResponseCloses(block: seq<string>, end: string, post: seq<string>)
    requires block != [] && EndsResponse(end)
    ensures CompressedLines([end] + post, block) == CompressResponseBlock(block) + [end] + CompressedLines(post, [])
  {
    EndIsNotStart(end);
    assert ([end] + post)[1..] == post;
  }

  /** A user turn or header line never opens a response. */
  lemma EndIsNotStart(line: string)
    requires EndsResponse(line)
    ensures !StartsResponse(line)
  {
    if |line| >= 11 {
      assert line[..11][0] == line[0] && line[..11][2] == line[2];
      if StartsWith(line, "## ") {
        assert line[..3][0] == line[0];
      } else {
        assert line[..9][2] == line[2];
      }
    }
  }

  // ---------------------------------------- deduplicate_similar_sections

  /** `f'\n(Similar to section at line {n})\n'`. */
  function SimilarNote(n: nat): string {
    "\n(Similar to section at line " + NatToString(n) + ")\n"
  }

  /** Bodies whose keys are this long or shorter are never replaced. */
  const MinSimilarLength := 200

  /** The body the header at i takes, and where the scan goes on after it. */
  function BodyAfter(pieces: seq<string>, i: nat): string
    requires i < |pieces|
  {
    if i + 1 < |pieces| then pieces[i + 1] else ""
  }

  function AfterSection(pieces: seq<string>, i: nat): (n: nat)
    requires i < |pieces|
    ensures i < n <= |pieces|
  {
    if i + 2 <= |pieces| then i + 2 else |pieces|
  }

  /**
   * The output parts of `deduplicate_similar_sections` from piece i on, with
   * `seen` mapping each key met so far to the position in the output list of
   * its section's header (the latest unreplaced one), and `len` parts
   * already output.
   */
  function DedupPieces(pieces: seq<string>, i: nat, seen: map<string, nat>, len: nat): seq<string>
    requires i <= |pieces|
    decreases |pieces| - i
  {
    if i == |pieces| then []
    else if StartsWith(pieces[i], "## ") then
      var header := pieces[i];
      var body := BodyAfter(pieces, i);
      var key := Normalized(body);
      var next := AfterSection(pieces, i);
      if key in seen && |key| > MinSimilarLength then
        [header, SimilarNote(seen[key])] + DedupPieces(pieces, next, seen, len + 2)
      else
        [header, body] + DedupPieces(pieces, next, seen[key := len], len + 2)
    else [pieces[i]] + DedupPieces(pieces, i + 1, seen, len + 1)
  }

  lemma DedupKept(pieces: seq<string>, i: nat, seen: map<string, nat>, len: nat)
    requires i < |pieces| && StartsWith(pieces[i], "## ")
    requires var key := Normalized(BodyAfter(pieces, i)); !(key in seen && |key| > MinSimilarLength)
    ensures DedupPieces(pieces, i, seen, len) == [pieces[i], BodyAfter(pieces, i)]
      + DedupPieces(pieces, AfterSection(pieces, i), seen[Normalized(BodyAfter(pieces, i)) := len], len + 2)
  {
  }

  lemma DedupReplaced(pieces: seq<string>, i: nat, seen: map<string, nat>, len: nat)
    requires i < |pieces| && StartsWith(pieces[i], "## ")
    requires var key := Normalized(BodyAfter(pieces, i)); key in seen && |key| > MinSimilarLength
    ensures DedupPieces(pieces, i, seen, len) == [pieces[i], SimilarNote(seen[Normalized(BodyAfter(pieces, i))])]
      + DedupPieces(pieces, AfterSection(pieces, i), seen, len + 2)
  {
  }

  lemma DedupOther(pieces: seq<string>, i: nat, seen: map<string, nat>, len: nat)
    requires i < |pieces| && !StartsWith(pieces[i], "## ")
    ensures DedupPieces(pieces, i, seen, len) == [pieces[i]] + DedupPieces(pieces, i + 1, seen, len + 1)
  {
  }

  function DedupedSections(content: string): string {
    Concat(DedupPieces(SplitHeaders(content), 0, map[], 0))
  }

  /** `deduplicate_similar_sections`. */
  method DeduplicateSimilarSections(content: string) returns (r: string)
    ensures r == DedupedSections(content)
  {
    var sections := SplitHeaders(content);
    var result: seq<string> := [];
    var seenContentHashes: map<string, nat> := map[];
    var i := 0;
    while i < |sections|
      invariant i <= |sections|
      invariant result + DedupPieces(sections, i, seenContentHashes, |result|) == DedupPieces(sections, 0, map[], 0)
      decreases |sections| - i
    {
      var section := sections[i];
      if StartsWith(section, "## ") {
        var header := section;
        var body := BodyAfter(sections, i);
        var normalized := Normalized(body);
        var next := AfterSection(sections, i);
        if normalized in seenContentHashes && |normalized| > MinSimilarLength {
          var note := SimilarNote(seenContentHashes[normalized]);
          DedupReplaced(sections, i, seenContentHashes, |result|);
          AppendTwo(result, header, note, DedupPieces(sections, next, seenContentHashes, |result| + 2));
          result := result + [header] + [note];
        } else {
          var seen' := seenContentHashes[normalized := |result|];
          DedupKept(sections, i, seenContentHashes, |result|);
          AppendTwo(result, header, body, DedupPieces(sections, next, seen', |result| + 2));
          seenContentHashes := seen';
          result := result + [header] + [body];
        }
        i := next;
      } else {
        DedupOther(sections, i, seenContentHashes, |result|);
        AppendTwo(result, section, "", DedupPieces(sections, i + 1, seenContentHashes, |result| + 1));
        result := result + [section];
        i := i + 1;
      }
    }
    assert result + [] == result;
    r := Concat(result);
  }

  /** Growing the output list by one or two parts keeps the rest in place. */
  lemma AppendTwo(r: seq<string>, a: string, b: string, tail: seq<string>)
    ensures r + [a] + [b] + tail == r + ([a, b] + tail) && |r + [a] + [b]| == |r| + 2
    ensures r + [a] + tail == r + ([a] + tail) && |r + [a]| == |r| + 1
  {
  }

  /** Piece j is read as a body when the piece before it starts like a header. */
  predicate FollowsHeader(pieces: seq<string>, j: int) {
    0 < j < |pieces| && StartsWith(pieces[j - 1], "## ")
  }

  /** No long body repeats the key of an earlier body. */
  predicate NoRepeatedBody(pieces: seq<string>) {
    forall j, k ::
      (0 <= j < k < |pieces| && FollowsHeader(pieces, j) && FollowsHeader(pieces, k)
       && |Normalized(pieces[k])| > MinSimilarLength) ==> Normalized(pieces[j]) != Normalized(pieces[k])
  }

  /** Every long key in `seen` is the key of a body before piece i. */
  predicate SeenBefore(pieces: seq<string>, i: nat, seen: map<string, nat>) {
    forall key :: key in seen && |key| > MinSimilarLength ==>
      exists j :: 0 <= j < i && FollowsHeader(pieces, j) && Normalized(pieces[j]) == key
  }

  /** The body after the header at i is not replaced, and its key joins the earlier ones. */
  lemma NotReplaced(pieces: seq<string>, i: nat, seen: map<string, nat>, len: nat)
    requires i < |pieces| && StartsWith(pieces[i], "## ")
    requires NoRepeatedBody(pieces) && SeenBefore(pieces, i, seen)
    ensures var key := Normalized(BodyAfter(pieces, i));
      && !(key in seen && |key| > MinSimilarLength)
      && SeenBefore(pieces, AfterSection(pieces, i), seen[key := len])
  {
    var key := Normalized(BodyAfter(pieces, i));
    if i + 1 < |pieces| {
      assert FollowsHeader(pieces, i + 1);
      assert forall j :: 0 <= j < i && FollowsHeader(pieces, j) && |key| > MinSimilarLength ==>
          Normalized(pieces[j]) != key;
    } else {
      NormalizedEmpty("");
    }
  }

  /** A section passed through adds its header and body to what follows. */
  lemma KeptConcat(pieces: seq<string>, i: nat, tail: seq<string>)
    requires i < |pieces|
    requires Concat(tail) == Concat(pieces[AfterSection(pieces, i)..])
    ensures Concat([pieces[i], BodyAfter(pieces, i)] + tail) == Concat(pieces[i..])
  {
    var next := AfterSection(pieces, i);
    ConcatPair(pieces[i], BodyAfter(pieces, i), tail);
    if i + 1 < |pieces| {
      assert pieces[i..] == [pieces[i], pieces[i + 1]] + pieces[next..];
      ConcatPair(pieces[i], pieces[i + 1], pieces[next..]);
    } else {
      assert pieces[i..] == [pieces[i]];
      assert pieces[next..] == [];
      assert Concat([pieces[i]]) == pieces[i] + Concat([]);
    }
  }

  /** A piece passed through alone adds itself to what follows. */
  lemma OtherConcat(pieces: seq<string>, i: nat, tail: seq<string>)
    requires i < |pieces|
    requires Concat(tail) == Concat(pieces[i + 1..])
    ensures Concat([pieces[i]] + tail) == Concat(pieces[i..])
  {
    assert ([pieces[i]] + tail)[1..] == tail;
    assert pieces[i..][1..] == pieces[i + 1..];
  }

  lemma {:induction false} NoRepeatKeepsPieces(pieces: seq<string>, i: nat, seen: map<string, nat>, len: nat)
    requires i <= |pieces| && NoRepeatedBody(pieces) && SeenBefore(pieces, i, seen)
    ensures Concat(DedupPieces(pieces, i, seen, len)) == Concat(pieces[i..])
    decreases |pieces| - i
  {
    if i < |pieces| {
      if StartsWith(pieces[i], "## ") {
        var key := Normalized(BodyAfter(pieces, i));
        NotReplaced(pieces, i, seen, len);
        DedupKept(pieces, i, seen, len);
        NoRepeatKeepsPieces(pieces, AfterSection(pieces, i), seen[key := len], len + 2);
        KeptConcat(pieces, i, DedupPieces(pieces, AfterSection(pieces, i), seen[key := len], len + 2));
      } else {
        DedupOther(pieces, i, seen, len);
        NoRepeatKeepsPieces(pieces, i + 1, seen, len + 1);
        OtherConcat(pieces, i, DedupPieces(pieces, i + 1, seen, len + 1));
      }
    }
  }

  /** When no long body repeats an earlier one, nothing is replaced and the text comes back whole. */
  lemma DistinctSectionsUnchanged(content: string)
    requires NoRepeatedBody(SplitHeaders(content))
    ensures DedupedSections(content) == content
  {
    NoRepeatKeepsPieces(SplitHeaders(content), 0, map[], 0);
    PiecesConcat(content, 0);
    assert SplitHeaders(content)[0..] == SplitHeaders(content);
  }

  // ------------------------------------------ the shape of the deduplicated list

  /**
   * The parts the scan of `deduplicate_similar_sections` reads from piece i
   * on, before any replacement: a header with the body it takes (empty past
   * the end of the list), any other piece alone.
   */
  function ReadParts(pieces: seq<string>, i: nat): seq<string>
    requires i <= |pieces|
    decreases |pieces| - i
  {
    if i == |pieces| then []
    else if StartsWith(pieces[i], "## ") then
      [pieces[i], BodyAfter(pieces, i)] + ReadParts(pieces, AfterSection(pieces, i))
    else [pieces[i]] + ReadParts(pieces, i + 1)
  }

  /** Which of those parts are bodies taken by the header just before them. */
  function BodySlots(pieces: seq<string>, i: nat): (r: seq<bool>)
    requires i <= |pieces|
    ensures |r| == |ReadParts(pieces, i)|
    decreases |pieces| - i
  {
    if i == |pieces| then []
    else if StartsWith(pieces[i], "## ") then [false, true] + BodySlots(pieces, AfterSection(pieces, i))
    else [false] + BodySlots(pieces, i + 1)
  }

  /** The parts read are the pieces themselves, with one empty body added when the last piece is a header. */
  lemma {:induction false} ReadPartsArePieces(pieces: seq<string>, i: nat)
    requires i <= |pieces|
    ensures var r := ReadParts(pieces, i);
      && |pieces| - i <= |r| <= |pieces| - i + 1
      && r[..|pieces| - i] == pieces[i..]
      && (|r| > |pieces| - i ==> r[|r| - 1] == "" && StartsWith(pieces[|pieces| - 1], "## "))
    decreases |pieces| - i
  {
    if i < |pieces| {
      var r := ReadParts(pieces, i);
      if StartsWith(pieces[i], "## ") {
        var next := AfterSection(pieces, i);
        ReadPartsArePieces(pieces, next);
        var t := ReadParts(pieces, next);
        assert r == [pieces[i], BodyAfter(pieces, i)] + t;
        if i + 1 < |pieces| {
          assert pieces[i..] == [pieces[i], pieces[i + 1]] + pieces[next..];
          assert r[..|pieces| - i] == [pieces[i], pieces[i + 1]] + t[..|pieces| - next];
        } else {
          assert next == |pieces| && t == [];
        }
      } else {
        ReadPartsArePieces(pieces, i + 1);
        var t := ReadParts(pieces, i + 1);
        assert r == [pieces[i]] + t;
        assert pieces[i..] == [pieces[i]] + pieces[i + 1..];
        assert r[..|pieces| - i] == [pieces[i]] + t[..|pieces| - (i + 1)];
      }
    }
  }

  /** Every body slot comes right after a header slot, which is not itself a body. */
  lemma {:induction false} BodiesFollowHeaders(pieces: seq<string>, i: nat)
    requires i <= |pieces|
    ensures var parts := ReadParts(pieces, i); var bodies := BodySlots(pieces, i);
      (bodies == [] || !bodies[0])
      && forall k :: 0 <= k < |bodies| && bodies[k] ==>
        k > 0 && !bodies[k - 1] && StartsWith(parts[k - 1], "## ")
    decreases |pieces| - i
  {
    if i < |pieces| {
      var parts := ReadParts(pieces, i);
      var bodies := BodySlots(pieces, i);
      if StartsWith(pieces[i], "## ") {
        var next := AfterSection(pieces, i);
        BodiesFollowHeaders(pieces, next);
        var p := ReadParts(pieces, next);
        var b := BodySlots(pieces, next);
        assert parts == [pieces[i], BodyAfter(pieces, i)] + p;
        assert bodies == [false, true] + b;
        forall k | 0 <= k < |bodies| && bodies[k]
          ensures k > 0 && !bodies[k - 1] && StartsWith(parts[k - 1], "## ")
        {
          if k > 2 {
            assert bodies[k] == b[k - 2] && bodies[k - 1] == b[k - 3] && parts[k - 1] == p[k - 3];
          }
        }
      } else {
        BodiesFollowHeaders(pieces, i + 1);
        var p := ReadParts(pieces, i + 1);
        var b := BodySlots(pieces, i + 1);
        assert parts == [pieces[i]] + p;
        assert bodies == [false] + b;
        forall k | 0 <= k < |bodies| && bodies[k]
          ensures k > 0 && !bodies[k - 1] && StartsWith(parts[k - 1], "## ")
        {
          if k > 1 {
            assert bodies[k] == b[k - 1] && bodies[k - 1] == b[k - 2] && parts[k - 1] == p[k - 2];
          }
        }
      }
    }
  }

  /** The first body before slot k whose key is `key`, or k when there is none. */
  function FirstBody(parts: seq<string>, bodies: seq<bool>, key: string, k: nat): (f: nat)
    requires k <= |parts| == |bodies|
    ensures f <= k
    ensures f < k ==> bodies[f] && Normalized(parts[f]) == key
  {
    if k == 0 then 0
    else
      var f := FirstBody(parts, bodies, key, k - 1);
      if f < k - 1 then f
      else if bodies[k - 1] && Normalized(parts[k - 1]) == key then k - 1
      else k
  }

  /** No body before the one FirstBody finds has the key. */
  lemma {:induction false} FirstBodyIsFirst(parts: seq<string>, bodies: seq<bool>, key: string, k: nat)
    requires k <= |parts| == |bodies|
    ensures forall j :: 0 <= j < FirstBody(parts, bodies, key, k) ==> !(bodies[j] && Normalized(parts[j]) == key)
  {
    if k > 0 {
      FirstBodyIsFirst(parts, bodies, key, k - 1);
    }
  }

  /**
   * What `deduplicate_similar_sections` makes of part k: a body whose key is
   * longer than the limit and was the key of an earlier body becomes the note
   * naming the output position of that earlier body's header; every other
   * part, headers included, stays as it is.
   */
  function ExpectedPart(parts: seq<string>, bodies: seq<bool>, k: nat): string
    requires k < |parts| == |bodies| && !bodies[0]
  {
    var key := Normalized(parts[k]);
    var f := FirstBody(parts, bodies, key, k);
    if bodies[k] && |key| > MinSimilarLength && f < k then SimilarNote(f - 1) else parts[k]
  }

  /** `seen_content_hashes` after `len` output parts: each long key met, at its first body's header. */
  ghost predicate SeenFirst(parts: seq<string>, bodies: seq<bool>, seen: map<string, nat>, len: nat)
    requires len <= |parts| == |bodies|
  {
    forall key :: |key| > MinSimilarLength ==>
      && (key in seen <==> FirstBody(parts, bodies, key, len) < len)
      && (key in seen ==> seen[key] + 1 == FirstBody(parts, bodies, key, len))
  }

  /** A part that is not a body adds nothing to what was seen. */
  lemma SeenPastHeader(parts: seq<string>, bodies: seq<bool>, seen: map<string, nat>, len: nat)
    requires len < |parts| == |bodies| && !bodies[len]
    requires SeenFirst(parts, bodies, seen, len)
    ensures SeenFirst(parts, bodies, seen, len + 1)
  {
    forall key | |key| > MinSimilarLength
      ensures FirstBody(parts, bodies, key, len + 1) == (if FirstBody(parts, bodies, key, len) < len then FirstBody(parts, bodies, key, len) else len + 1)
    {
    }
  }

  /** A body kept records its key at its header when the key is new. */
  lemma SeenPastKept(parts: seq<string>, bodies: seq<bool>, seen: map<string, nat>, len: nat)
    requires len + 1 < |parts| == |bodies| && bodies[len + 1]
    requires var key := Normalized(parts[len + 1]); !(key in seen && |key| > MinSimilarLength)
    requires SeenFirst(parts, bodies, seen, len + 1)
    ensures SeenFirst(parts, bodies, seen[Normalized(parts[len + 1]) := len], len + 2)
  {
    var key := Normalized(parts[len + 1]);
    var seen' := seen[key := len];
    forall key' | |key'| > MinSimilarLength
      ensures (key' in seen' <==> FirstBody(parts, bodies, key', len + 2) < len + 2)
      ensures key' in seen' ==> seen'[key'] + 1 == FirstBody(parts, bodies, key', len + 2)
    {
      var f := FirstBody(parts, bodies, key', len + 1);
      assert (key' in seen <==> f < len + 1) && (key' in seen ==> seen[key'] + 1 == f);
      if key' == key {
        assert f == len + 1;
        assert FirstBody(parts, bodies, key', len + 2) == len + 1;
      } else {
        assert FirstBody(parts, bodies, key', len + 2) == (if f < len + 1 then f else len + 2);
        assert (key' in seen' <==> key' in seen) && (key' in seen ==> seen'[key'] == seen[key']);
      }
    }
  }

  /** A body replaced had its key seen already, so nothing new is recorded. */
  lemma SeenPastReplaced(parts: seq<string>, bodies: seq<bool>, seen: map<string, nat>, len: nat)
    requires len + 1 < |parts| == |bodies|
    requires var key := Normalized(parts[len + 1]); key in seen && |key| > MinSimilarLength
    requires SeenFirst(parts, bodies, seen, len + 1)
    ensures SeenFirst(parts, bodies, seen, len + 2)
  {
    var key := Normalized(parts[len + 1]);
    forall key' | |key'| > MinSimilarLength
      ensures FirstBody(parts, bodies, key', len + 2) ==
        (if FirstBody(parts, bodies, key', len + 1) < len + 1 then FirstBody(parts, bodies, key', len + 1)
         else if key' == key && bodies[len + 1] then len + 1 else len + 2)
    {
    }
  }

  /** The header at slot len and its body come out as the reference says. */
  lemma HeaderPartsExpected(parts: seq<string>, bodies: seq<bool>, seen: map<string, nat>, len: nat)
    requires len + 1 < |parts| == |bodies| && !bodies[0] && !bodies[len] && bodies[len + 1]
    requires SeenFirst(parts, bodies, seen, len + 1)
    ensures ExpectedPart(parts, bodies, len) == parts[len]
    ensures var key := Normalized(parts[len + 1]);
      ExpectedPart(parts, bodies, len + 1) ==
        if key in seen && |key| > MinSimilarLength then SimilarNote(seen[key]) else parts[len + 1]
  {
    var key := Normalized(parts[len + 1]);
    var f := FirstBody(parts, bodies, key, len + 1);
    if |key| > MinSimilarLength {
      assert (key in seen <==> f < len + 1) && (key in seen ==> seen[key] + 1 == f);
    }
  }

  /** The scan at a header: its slot, then its body's slot, then the rest. */
  lemma ReadHeader(pieces: seq<string>, i: nat, parts: seq<string>, bodies: seq<bool>, len: nat)
    requires i < |pieces| && StartsWith(pieces[i], "## ")
    requires len <= |parts| == |bodies|
    requires parts[len..] == ReadParts(pieces, i) && bodies[len..] == BodySlots(pieces, i)
    ensures len + 2 <= |parts|
    ensures parts[len] == pieces[i] && parts[len + 1] == BodyAfter(pieces, i)
    ensures !bodies[len] && bodies[len + 1]
    ensures parts[len + 2..] == ReadParts(pieces, AfterSection(pieces, i))
    ensures bodies[len + 2..] == BodySlots(pieces, AfterSection(pieces, i))
  {
    var next := AfterSection(pieces, i);
    assert parts[len..] == [pieces[i], BodyAfter(pieces, i)] + ReadParts(pieces, next);
    assert bodies[len..] == [false, true] + BodySlots(pieces, next);
    assert parts[len + 2..] == parts[len..][2..];
    assert bodies[len + 2..] == bodies[len..][2..];
  }

  /** The scan at any other piece: its slot, then the rest. */
  lemma ReadOther(pieces: seq<string>, i: nat, parts: seq<string>, bodies: seq<bool>, len: nat)
    requires i < |pieces| && !StartsWith(pieces[i], "## ")
    requires len <= |parts| == |bodies|
    requires parts[len..] == ReadParts(pieces, i) && bodies[len..] == BodySlots(pieces, i)
    ensures len + 1 <= |parts|
    ensures parts[len] == pieces[i] && !bodies[len]
    ensures parts[len + 1..] == ReadParts(pieces, i + 1)
    ensures bodies[len + 1..] == BodySlots(pieces, i + 1)
  {
    assert parts[len..] == [pieces[i]] + ReadParts(pieces, i + 1);
    assert bodies[len..] == [false] + BodySlots(pieces, i + 1);
    assert parts[len + 1..] == parts[len..][1..];
    assert bodies[len + 1..] == bodies[len..][1..];
  }

  /** One part in front of a list that matches the reference from slot len + 1. */
  lemma PrefixOne(parts: seq<string>, bodies: seq<bool>, len: nat, a: string, tail: seq<string>)
    requires len < |parts| == |bodies| && !bodies[0] && ExpectedPart(parts, bodies, len) == a
    requires MatchesFrom(tail, parts, bodies, len + 1)
    ensures MatchesFrom([a] + tail, parts, bodies, len)
  {
    forall k | 0 <= k < |[a] + tail|
      ensures ([a] + tail)[k] == ExpectedPart(parts, bodies, len + k)
    {
      if k == 0 {
        assert ([a] + tail)[0] == a;
      } else {
        assert ([a] + tail)[k] == tail[k - 1];
        assert tail[k - 1] == ExpectedPart(parts, bodies, len + 1 + (k - 1));
      }
    }
  }

  /** Two parts in front of a list that matches the reference from slot len + 2. */
  lemma PrefixTwo(parts: seq<string>, bodies: seq<bool>, len: nat, a: string, b: string, tail: seq<string>)
    requires len + 1 < |parts| == |bodies| && !bodies[0]
    requires ExpectedPart(parts, bodies, len) == a && ExpectedPart(parts, bodies, len + 1) == b
    requires MatchesFrom(tail, parts, bodies, len + 2)
    ensures MatchesFrom([a, b] + tail, parts, bodies, len)
  {
    PrefixOne(parts, bodies, len + 1, b, tail);
    PrefixOne(parts, bodies, len, a, [b] + tail);
    assert [a] + ([b] + tail) == [a, b] + tail;
  }

  /** The scan stands at piece i with `len` parts out, reading the slots from `len` on. */
  ghost predicate ScanAt(pieces: seq<string>, i: nat, seen: map<string, nat>, len: nat,
                         parts: seq<string>, bodies: seq<bool>)
  {
    && i <= |pieces| && len <= |parts| == |bodies| && (bodies == [] || !bodies[0])
    && parts[len..] == ReadParts(pieces, i) && bodies[len..] == BodySlots(pieces, i)
    && SeenFirst(parts, bodies, seen, len)
  }

  /** `out` is the reference's list from slot len on. */
  ghost predicate MatchesFrom(out: seq<string>, parts: seq<string>, bodies: seq<bool>, len: nat) {
    && len <= |parts| == |bodies| && (bodies == [] || !bodies[0])
    && |out| == |parts| - len
    && forall k :: 0 <= k < |out| ==> out[k] == ExpectedPart(parts, bodies, len + k)
  }

  /** The key `seen` holds after the section at piece i. */
  function SeenAfter(pieces: seq<string>, i: nat, seen: map<string, nat>, len: nat): map<string, nat>
    requires i < |pieces|
  {
    var key := Normalized(BodyAfter(pieces, i));
    if key in seen && |key| > MinSimilarLength then seen else seen[key := len]
  }

  lemma ScanHeaderStep(pieces: seq<string>, i: nat, seen: map<string, nat>, len: nat,
                       parts: seq<string>, bodies: seq<bool>)
    requires ScanAt(pieces, i, seen, len, parts, bodies) && i < |pieces| && StartsWith(pieces[i], "## ")
    ensures ScanAt(pieces, AfterSection(pieces, i), SeenAfter(pieces, i, seen, len), len + 2, parts, bodies)
    ensures ExpectedPart(parts, bodies, len) == pieces[i]
    ensures var key := Normalized(BodyAfter(pieces, i));
      ExpectedPart(parts, bodies, len + 1) ==
        if key in seen && |key| > MinSimilarLength then SimilarNote(seen[key]) else BodyAfter(pieces, i)
  {
    ReadHeader(pieces, i, parts, bodies, len);
    SeenPastHeader(parts, bodies, seen, len);
    HeaderPartsExpected(parts, bodies, seen, len);
    var key := Normalized(BodyAfter(pieces, i));
    if key in seen && |key| > MinSimilarLength {
      SeenPastReplaced(parts, bodies, seen, len);
    } else {
      SeenPastKept(parts, bodies, seen, len);
    }
  }

  lemma MatchHeaderStep(pieces: seq<string>, i: nat, seen: map<string, nat>, len: nat,
                        parts: seq<string>, bodies: seq<bool>)
    requires i < |pieces| && StartsWith(pieces[i], "## ") && len + 2 <= |parts|
    requires ExpectedPart.requires(parts, bodies, len) && ExpectedPart(parts, bodies, len) == pieces[i]
    requires var key := Normalized(BodyAfter(pieces, i));
      ExpectedPart(parts, bodies, len + 1) ==
        if key in seen && |key| > MinSimilarLength then SimilarNote(seen[key]) else BodyAfter(pieces, i)
    requires MatchesFrom(DedupPieces(pieces, AfterSection(pieces, i), SeenAfter(pieces, i, seen, len), len + 2), parts, bodies, len + 2)
    ensures MatchesFrom(DedupPieces(pieces, i, seen, len), parts, bodies, len)
  {
    var key := Normalized(BodyAfter(pieces, i));
    var next := AfterSection(pieces, i);
    if key in seen && |key| > MinSimilarLength {
      DedupReplaced(pieces, i, seen, len);
      assert SeenAfter(pieces, i, seen, len) == seen;
      PrefixTwo(parts, bodies, len, pieces[i], SimilarNote(seen[key]), DedupPieces(pieces, next, seen, len + 2));
    } else {
      DedupKept(pieces, i, seen, len);
      assert SeenAfter(pieces, i, seen, len) == seen[key := len];
      PrefixTwo(parts, bodies, len, pieces[i], BodyAfter(pieces, i), DedupPieces(pieces, next, seen[key := len], len + 2));
    }
  }

  lemma ScanOtherStep(pieces: seq<string>, i: nat, seen: map<string, nat>, len: nat,
                      parts: seq<string>, bodies: seq<bool>)
    requires ScanAt(pieces, i, seen, len, parts, bodies) && i < |pieces| && !StartsWith(pieces[i], "## ")
    ensures ScanAt(pieces, i + 1, seen, len + 1, parts, bodies)
    ensures ExpectedPart(parts, bodies, len) == pieces[i]
  {
    ReadOther(pieces, i, parts, bodies, len);
    SeenPastHeader(parts, bodies, seen, len);
  }

  lemma MatchOtherStep(pieces: seq<string>, i: nat, seen: map<string, nat>, len: nat,
                       parts: seq<string>, bodies: seq<bool>)
    requires i < |pieces| && !StartsWith(pieces[i], "## ") && len + 1 <= |parts|
    requires ExpectedPart.requires(parts, bodies, len) && ExpectedPart(parts, bodies, len) == pieces[i]
    requires MatchesFrom(DedupPieces(pieces, i + 1, seen, len + 1), parts, bodies, len + 1)
    ensures MatchesFrom(DedupPieces(pieces, i, seen, len), parts, bodies, len)
  {
    DedupOther(pieces, i, seen, len);
    PrefixOne(parts, bodies, len, pieces[i], DedupPieces(pieces, i + 1, seen, len + 1));
  }

  /**
   * From piece i on, with `seen` holding the first body of each long key met
   * in the first `len` slots, every output part is the reference's part.
   */
  lemma {:induction false} DedupMatches(pieces: seq<string>, i: nat, seen: map<string, nat>, len: nat,
                                        parts: seq<string>, bodies: seq<bool>)
    requires ScanAt(pieces, i, seen, len, parts, bodies)
    ensures MatchesFrom(DedupPieces(pieces, i, seen, len), parts, bodies, len)
    decreases |pieces| - i
  {
    if i < |pieces| {
      if StartsWith(pieces[i], "## ") {
        ScanHeaderStep(pieces, i, seen, len, parts, bodies);
        DedupMatches(pieces, AfterSection(pieces, i), SeenAfter(pieces, i, seen, len), len + 2, parts, bodies);
        MatchHeaderStep(pieces, i, seen, len, parts, bodies);
      } else {
        ScanOtherStep(pieces, i, seen, len, parts, bodies);
        DedupMatches(pieces, i + 1, seen, len + 1, parts, bodies);
        MatchOtherStep(pieces, i, seen, len, parts, bodies);
      }
    } else {
      assert parts[len..] == [];
    }
  }

  /**
   * `deduplicate_similar_sections` keeps every part the scan reads, in order,
   * except that a body whose key is longer than 200 characters and repeats
   * the key of an earlier body becomes the note naming the output position
   * of that earlier body's header.
   */
  lemma DedupedShape(content: string)
    ensures var pieces := SplitHeaders(content);
      var parts := ReadParts(pieces, 0); var bodies := BodySlots(pieces, 0);
      var out := DedupPieces(pieces, 0, map[], 0);
      && |pieces| <= |parts| <= |pieces| + 1 && parts[..|pieces|] == pieces
      && (bodies == [] || !bodies[0])
      && (forall k :: 0 <= k < |bodies| && bodies[k] ==> k > 0 && StartsWith(parts[k - 1], "## "))
      && |out| == |parts|
      && (forall k :: 0 <= k < |out| ==> out[k] == ExpectedPart(parts, bodies, k))
      && (forall k :: 0 <= k < |out| && !bodies[k] ==> out[k] == parts[k])
      && DedupedSections(content) == Concat(out)
  {
    var pieces := SplitHeaders(content);
    var parts := ReadParts(pieces, 0);
    var bodies := BodySlots(pieces, 0);
    ReadPartsArePieces(pieces, 0);
    assert pieces[0..] == pieces;
    BodiesFollowHeaders(pieces, 0);
    assert parts[0..] == parts && bodies[0..] == bodies;
    DedupMatches(pieces, 0, map[], 0, parts, bodies);
  }

  // ------------------------------------------------------------------ main

  /** The steps of `main`, in its order. */
  method AggressiveRefactor(content: string) returns (r: string)
    ensures r == DedupedSections(Join(CompressedLines(Split(
      Join(KeptRows(Split(TruncatedCode(content), "\n"), 0), "\n"), "\n"), []), "\n"))
  {
    var c := TruncatedCode(content);
    c := TruncateLongOutputs(c);
    c := CompressClaudeResponses(c);
    r := DeduplicateSimilarSections(c);
  }

  /**
   * A log with no code block, no table row, no `**Claude**:` line and no
   * repeated long section body passes through all four steps unchanged.
   */
  lemma PlainLogUnchanged(content: string)
    requires CodeBlocks(content, 0) == []
    requires forall i :: 0 <= i < |Split(content, "\n")| ==>
      !IsTableRow(Split(content, "\n")[i]) && !StartsResponse(Split(content, "\n")[i])
    requires NoRepeatedBody(SplitHeaders(content))
    ensures DedupedSections(Join(CompressedLines(Split(
      Join(KeptRows(Split(TruncatedCode(content), "\n"), 0), "\n"), "\n"), []), "\n")) == content
  {
    var lines := Split(content, "\n");
    ShortCodeBlocksUnchanged(content);
    NoTableRowsUnchanged(lines, 0);
    JoinSplit(content, "\n");
    OutsideResponsesCopied(lines, []);
    assert lines + [] == lines;
    DistinctSectionsUnchanged(content);
  }
}
