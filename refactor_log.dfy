/**
 * `refactor-log.py`: a talk log is cut into its `## ` sections,
 * consecutive `/dev` sections of one project are merged into one entry,
 * repeated long paragraphs are dropped, and the entries are written out
 * under the log's date header.
 */
module RefactorLog {
  import opened Strings
  import RefactorFinal

  // -------------------------------------------------------- parse_sections

  /** One `## ` section: its header line, its stripped text, and the header's line number. */
  datatype Section = Section(header: string, content: string, line: nat)

  predicate IsHeader(line: string) {
    StartsWith(line, "## ")
  }

  /** The header being read (its line and number) while scanning. */
  datatype Open = Open(header: string, line: nat)

  /** The section the scan has been reading, once its end is reached. */
  function Flush(current: Option<Open>, body: seq<string>): seq<Section> {
    match current
    case None => []
    case Some(o) => [Section(o.header, Trim(Join(body, "\n"), Python), o.line)]
  }

  /**
   * The sections `parse_sections` appends from line i on, `current` being
   * the header read last (if any) and `body` the lines gathered under it.
   */
  function ParseFrom(lines: seq<string>, i: nat, current: Option<Open>, body: seq<string>): seq<Section>
    requires i <= |lines|
    decreases |lines| - i
  {
    if i == |lines| then Flush(current, body)
    else if IsHeader(lines[i]) then Flush(current, body) + ParseFrom(lines, i + 1, Some(Open(lines[i], i)), [])
    else if current.Some? then ParseFrom(lines, i + 1, current, body + [lines[i]])
    else ParseFrom(lines, i + 1, current, body)
  }

  /** `parse_sections`. */
  method ParseSections(content: string) returns (sections: seq<Section>)
    ensures sections == ParseFrom(Split(content, "\n"), 0, None, [])
  {
    var lines := Split(content, "\n");
    sections := [];
    var current: Option<Open> := None;
    var body: seq<string> := [];
    for i := 0 to |lines|
      invariant sections + ParseFrom(lines, i, current, body) == ParseFrom(lines, 0, None, [])
    {
      var line := lines[i];
      if IsHeader(line) {
        Regroup(sections, Flush(current, body), [], ParseFrom(lines, i + 1, Some(Open(line, i)), []));
        sections := sections + Flush(current, body);
        current := Some(Open(line, i));
        body := [];
      } else if current.Some? {
        body := body + [line];
      }
    }
    Regroup(sections, Flush(current, body), [], []);
    assert Flush(current, body) + [] == Flush(current, body);
    sections := sections + Flush(current, body);
  }

  /** First header line at or after j, or the end. */
  function NextHeader(lines: seq<string>, j: nat): (n: nat)
    requires j <= |lines|
    ensures j <= n <= |lines|
    ensures n < |lines| ==> IsHeader(lines[n])
    ensures forall k :: j <= k < n ==> !IsHeader(lines[k])
    decreases |lines| - j
  {
    if j == |lines| || IsHeader(lines[j]) then j else NextHeader(lines, j + 1)
  }

  /**
   * The sections from the header at h on, read off directly: each header
   * line, the lines up to the next header joined and stripped, and the
   * header's line number.
   */
  function SectionsAt(lines: seq<string>, h: nat): (r: seq<Section>)
    requires h < |lines| && IsHeader(lines[h])
    ensures r != [] && r[0].line == h
    ensures forall k :: 0 <= k < |r| ==> h <= r[k].line < |lines| && r[k].header == lines[r[k].line] && IsHeader(r[k].header)
    ensures forall k :: 0 <= k < |r| - 1 ==> r[k].line < r[k + 1].line
    decreases |lines| - h
  {
    var n := NextHeader(lines, h + 1);
    var first := Section(lines[h], Trim(Join(lines[h + 1..n], "\n"), Python), h);
    if n == |lines| then [first] else [first] + SectionsAt(lines, n)
  }

  /** No header lies strictly between lines a and b. */
  predicate NoHeaderBetween(lines: seq<string>, a: nat, b: nat) {
    forall l :: a < l < b && l < |lines| ==> !IsHeader(lines[l])
  }

  /** No header is skipped: none lies between two sections or after the last one. */
  predicate Gapless(lines: seq<string>, r: seq<Section>) {
    && r != []
    && (forall k :: 0 <= k < |r| - 1 ==> NoHeaderBetween(lines, r[k].line, r[k + 1].line))
    && NoHeaderBetween(lines, r[|r| - 1].line, |lines|)
  }

  lemma {:induction false} SectionsAtSkipNoHeader(lines: seq<string>, h: nat)
    requires h < |lines| && IsHeader(lines[h])
    ensures Gapless(lines, SectionsAt(lines, h))
    decreases |lines| - h
  {
    var n := NextHeader(lines, h + 1);
    if n < |lines| {
      SectionsAtSkipNoHeader(lines, n);
      SkipNoHeaderStep(lines, h);
    } else {
      assert SectionsAt(lines, h)[0].line == h;
    }
  }

  lemma SkipNoHeaderStep(lines: seq<string>, h: nat)
    requires h < |lines| && IsHeader(lines[h])
    requires NextHeader(lines, h + 1) < |lines|
    requires Gapless(lines, SectionsAt(lines, NextHeader(lines, h + 1)))
    ensures Gapless(lines, SectionsAt(lines, h))
  {
    var n := NextHeader(lines, h + 1);
    var r := SectionsAt(lines, h);
    var t := SectionsAt(lines, n);
    assert r == [r[0]] + t;
    GaplessCons(lines, r[0], t);
  }

  lemma GaplessCons(lines: seq<string>, s: Section, t: seq<Section>)
    requires Gapless(lines, t) && NoHeaderBetween(lines, s.line, t[0].line)
    ensures Gapless(lines, [s] + t)
  {
    var r := [s] + t;
    forall k | 0 <= k < |r| - 1 ensures NoHeaderBetween(lines, r[k].line, r[k + 1].line) {
      if k > 0 {
        assert r[k] == t[k - 1] && r[k + 1] == t[k];
      }
    }
    assert r[|r| - 1] == t[|t| - 1];
  }

  /** The sections of a log, read off directly: nothing before the first header counts. */
  function Sections(lines: seq<string>): seq<Section> {
    var h := NextHeader(lines, 0);
    if h == |lines| then [] else SectionsAt(lines, h)
  }

  /**
   * With header `o` open and `body` the lines read under it so far, the
   * scan finishes that section at the next header and then reads the
   * sections from there.
   */
  lemma {:induction false} ParseOpen(lines: seq<string>, i: nat, o: Open, body: seq<string>)
    requires o.line < i <= |lines| && body + lines[i..NextHeader(lines, i)] == lines[o.line + 1..NextHeader(lines, i)]
    ensures var n := NextHeader(lines, i);
      ParseFrom(lines, i, Some(o), body)
        == [Section(o.header, Trim(Join(lines[o.line + 1..n], "\n"), Python), o.line)]
           + (if n == |lines| then [] else SectionsAt(lines, n))
    decreases |lines| - i, 1
  {
    var n := NextHeader(lines, i);
    if i == |lines| {
      assert body == body + lines[i..n];
    } else if IsHeader(lines[i]) {
      assert body == body + lines[i..n];
      OpenedAt(lines, i);
    } else {
      assert lines[i..n] == [lines[i]] + lines[i + 1..n];
      assert (body + [lines[i]]) + lines[i + 1..n] == body + lines[i..n];
      ParseOpen(lines, i + 1, o, body + [lines[i]]);
    }
  }

  /** A header at h opens a section that runs to the next header. */
  lemma {:induction false} OpenedAt(lines: seq<string>, h: nat)
    requires h < |lines| && IsHeader(lines[h])
    ensures ParseFrom(lines, h + 1, Some(Open(lines[h], h)), []) == SectionsAt(lines, h)
    decreases |lines| - h, 0
  {
    var n := NextHeader(lines, h + 1);
    assert [] + lines[h + 1..n] == lines[h + 1..n];
    ParseOpen(lines, h + 1, Open(lines[h], h), []);
  }

  /** With no header read yet, the scan skips to the first header. */
  lemma {:induction false} ParseBeforeFirst(lines: seq<string>, i: nat)
    requires i <= |lines|
    ensures var h := NextHeader(lines, i);
      ParseFrom(lines, i, None, []) == if h == |lines| then [] else SectionsAt(lines, h)
    decreases |lines| - i
  {
    if i < |lines| {
      if IsHeader(lines[i]) {
        OpenedAt(lines, i);
        assert Flush(None, []) == [];
      } else {
        ParseBeforeFirst(lines, i + 1);
      }
    }
  }

  /**
   * `parse_sections` gives one section per header line, in order: the
   * header, the lines up to the next header joined and stripped, and its
   * line number; lines before the first header are dropped.
   */
  lemma ParsedSections(content: string)
    ensures ParseFrom(Split(content, "\n"), 0, None, []) == Sections(Split(content, "\n"))
  {
    ParseBeforeFirst(Split(content, "\n"), 0);
  }

  /** Every header `parse_sections` returns is one line of the log. */
  lemma ParsedHeadersAreLines(content: string)
    ensures HeadersAreLines(Sections(Split(content, "\n")))
  {
    SplitPiecesLackSeparator(content, '\n');
  }

  // ------------------------------------------------------ get_project_name

  /** Headers hold no line break. */
  predicate HeadersAreLines(sections: seq<Section>) {
    forall k :: 0 <= k < |sections| ==> '\n' !in sections[k].header
  }

  const DevTag := "## /dev"

  /**
   * Group 1 of `re.match(r'^## /dev\s+(.+)$', header)` on a one-line
   * header: the greedy `\s+` takes the whole run of whitespace after the
   * tag and gives its last character back when nothing else is left for
   * `(.+)`. There is a match exactly when the tag is followed by
   * whitespace and at least two characters in all.
   */
  function DevMatch(header: string): (g: Option<string>)
    requires '\n' !in header
    ensures g.Some? <==> StartsWith(header, DevTag) && |header| >= |DevTag| + 2 && IsSpace(header[|DevTag|], Python)
    ensures g.Some? ==> Trim(g.value, Python) == Trim(header[|DevTag|..], Python)
  {
    if !StartsWith(header, DevTag) then None
    else
      var tail := header[|DevTag|..];
      var w := LeadingSpaces(tail, Python);
      if w == 0 then None
      else if w < |tail| then
        TrimSkipsSpaces(tail, w);
        Some(tail[w..])
      else if w >= 2 then
        assert tail[..w] == tail;
        TrimOfAllSpace(tail, Python);
        TrimOfAllSpace(tail[w - 1..], Python);
        Some(tail[w - 1..])
      else None
  }

  /** Leading whitespace makes no difference to a strip. */
  lemma {:induction false} TrimSkipsSpaces(s: string, k: nat)
    requires k <= |s| && AllSpace(s[..k], Python)
    ensures Trim(s[k..], Python) == Trim(s, Python)
    decreases k
  {
    if k > 0 {
      assert IsSpace(s[..k][0], Python);
      assert s[1..][..k - 1] == s[..k][1..];
      TrimSkipsSpaces(s[1..], k - 1);
      assert s[1..][k - 1..] == s[k..];
    }
  }

  /** `get_project_name`: the stripped name after `## /dev`, or the header itself. */
  function GetProjectName(header: string): (r: string)
    requires '\n' !in header
    ensures DevMatch(header).Some? ==> r == Trim(header[|DevTag|..], Python)
    ensures DevMatch(header).None? ==> r == header
  {
    match DevMatch(header)
    case Some(g) => Trim(g, Python)
    case None => header
  }

  /**
   * For a `## /dev ` header with a name after it, the name is the one
   * `refactor-log-final.py` takes from `line[8:].strip()`.
   */
  lemma SameProjectAsFinal(header: string)
    requires '\n' !in header && StartsWith(header, "## /dev ") && |header| > 8
    ensures GetProjectName(header) == RefactorFinal.Project(header)
  {
    assert header[..|DevTag|] == DevTag;
    assert IsSpace(header[7], Python);
    assert header[7..][..1] == [header[7]];
    TrimSkipsSpaces(header[7..], 1);
    assert header[7..][1..] == header[8..];
  }

  // -------------------------------------------------------- merge_sections

  /** One section of the refactored log. */
  datatype Entry = Entry(header: string, content: string)

  /** What joins the texts of merged sections. */
  const EntrySeparator := "\n\n---\n\n"

  predicate IsDev(s: Section) {
    StartsWith(s.header, "## /dev ")
  }

  function NonEmpty(c: string): seq<string> {
    if c != "" then [c] else []
  }

  /** The entry for the run being merged, if it has a header and some text. */
  function Close(header: Option<string>, contents: seq<string>): seq<Entry> {
    if header.Some? && contents != [] then [Entry(header.value, Join(contents, EntrySeparator))] else []
  }

  /** A section outside any run: kept when it has text. */
  function Single(s: Section): seq<Entry> {
    if s.content != "" then [Entry(s.header, s.content)] else []
  }

  /**
   * The project a section is merged under: for a `## /dev ` header, the
   * name `get_project_name` reads from it; none for any other section.
   * The definitions below take this as a parameter `key`, so that they
   * can be reasoned about without the name's parsing.
   */
  function DevProject(s: Section): Option<string> {
    if IsDev(s) && '\n' !in s.header then Some(GetProjectName(s.header)) else None
  }

  /**
   * The entries `merge_sections` appends from section i on, given the
   * project, header and texts of the run in progress.
   */
  function MergeFrom(ss: seq<Section>, key: Section -> Option<string>, i: nat,
                     project: Option<string>, header: Option<string>, contents: seq<string>): seq<Entry>
    requires i <= |ss|
    decreases |ss| - i
  {
    if i == |ss| then Close(header, contents)
    else
      var s := ss[i];
      if key(s).Some? && key(s) == project then MergeFrom(ss, key, i + 1, project, header, contents + NonEmpty(s.content))
      else if key(s).Some? then Close(header, contents) + MergeFrom(ss, key, i + 1, key(s), Some(s.header), NonEmpty(s.content))
      else Close(header, contents) + Single(s) + MergeFrom(ss, key, i + 1, None, None, [])
  }

  /** A section that does not continue the run closes it; the loop then goes on as from scratch. */
  lemma MergeStep(ss: seq<Section>, key: Section -> Option<string>, i: nat,
                  project: Option<string>, header: Option<string>, contents: seq<string>)
    requires i < |ss|
    requires !(key(ss[i]).Some? && key(ss[i]) == project)
    ensures MergeFrom(ss, key, i, project, header, contents) == Close(header, contents) + MergeFrom(ss, key, i, None, None, [])
  {
    if key(ss[i]).Some? {
      MergeStepOpens(ss, key, i, project, header, contents);
    } else {
      MergeStepSingle(ss, key, i, project, header, contents);
    }
  }

  lemma MergeStepOpens(ss: seq<Section>, key: Section -> Option<string>, i: nat,
                       project: Option<string>, header: Option<string>, contents: seq<string>)
    requires i < |ss|
    requires key(ss[i]).Some? && key(ss[i]) != project
    ensures MergeFrom(ss, key, i, project, header, contents) == Close(header, contents) + MergeFrom(ss, key, i, None, None, [])
  {
    var s := ss[i];
    var rest := MergeFrom(ss, key, i + 1, key(s), Some(s.header), NonEmpty(s.content));
    assert Close(None, []) == [];
    assert MergeFrom(ss, key, i, None, None, []) == [] + rest;
    assert MergeFrom(ss, key, i, project, header, contents) == Close(header, contents) + rest;
  }

  lemma MergeStepSingle(ss: seq<Section>, key: Section -> Option<string>, i: nat,
                        project: Option<string>, header: Option<string>, contents: seq<string>)
    requires i < |ss|
    requires key(ss[i]).None?
    ensures MergeFrom(ss, key, i, project, header, contents) == Close(header, contents) + MergeFrom(ss, key, i, None, None, [])
  {
    var s := ss[i];
    var closed := Close(header, contents);
    var rest := MergeFrom(ss, key, i + 1, None, None, []);
    assert Close(None, []) == [];
    assert MergeFrom(ss, key, i, None, None, []) == [] + Single(s) + rest;
    assert MergeFrom(ss, key, i, project, header, contents) == closed + Single(s) + rest;
    assert [] + Single(s) + rest == Single(s) + rest;
    Regroup(closed, Single(s), [], rest);
  }

  /**
   * The loop body of `merge_sections` at section i: a `/dev` section of the
   * current project adds its text to the run; any other section closes the
   * run, and then opens a new one if it is a `/dev` section or is emitted
   * on its own if not. Returns what is emitted and the new run state.
   */
  method MergeAt(ss: seq<Section>, i: nat, project: Option<string>, header: Option<string>, contents: seq<string>)
    returns (emitted: seq<Entry>, project': Option<string>, header': Option<string>, contents': seq<string>)
    requires i < |ss| && HeadersAreLines(ss)
    ensures emitted + MergeFrom(ss, DevProject, i + 1, project', header', contents') == MergeFrom(ss, DevProject, i, project, header, contents)
  {
    var section := ss[i];
    var p := GetProjectName(section.header);
    var isDevProject := IsDev(section);
    assert DevProject(section) == if isDevProject then Some(p) else None;
    if isDevProject && Some(p) == project {
      emitted, project', header', contents' := [], project, header, contents + NonEmpty(section.content);
    } else {
      emitted := Close(header, contents);
      if isDevProject {
        project', header', contents' := Some(p), Some(section.header), NonEmpty(section.content);
      } else {
        Regroup(emitted, Single(section), [], MergeFrom(ss, DevProject, i + 1, None, None, []));
        emitted := emitted + Single(section);
        project', header', contents' := None, None, [];
      }
    }
  }

  /** `merge_sections`. */
  method MergeSections(sections: seq<Section>) returns (merged: seq<Entry>)
    requires HeadersAreLines(sections)
    ensures merged == MergeFrom(sections, DevProject, 0, None, None, [])
  {
    if sections == [] {
      return [];
    }
    merged := [];
    var currentProject: Option<string> := None;
    var currentContents: seq<string> := [];
    var currentHeader: Option<string> := None;
    for i := 0 to |sections|
      invariant merged + MergeFrom(sections, DevProject, i, currentProject, currentHeader, currentContents)
        == MergeFrom(sections, DevProject, 0, None, None, [])
    {
      var emitted;
      emitted, currentProject, currentHeader, currentContents := MergeAt(sections, i, currentProject, currentHeader, currentContents);
      Regroup(merged, emitted, [], MergeFrom(sections, DevProject, i + 1, currentProject, currentHeader, currentContents));
      merged := merged + emitted;
    }
    var closed := Close(currentHeader, currentContents);
    assert closed + [] == closed;
    merged := merged + closed;
  }

  /** Where a run of project p that has reached section j ends. */
  function RunEnd(ss: seq<Section>, key: Section -> Option<string>, j: nat, p: string): (e: nat)
    requires j <= |ss|
    ensures j <= e <= |ss|
    decreases |ss| - j
  {
    if j < |ss| && key(ss[j]) == Some(p) then RunEnd(ss, key, j + 1, p) else j
  }

  /** Every section from j up to the end of the run is of its project. */
  lemma {:induction false} RunContinues(ss: seq<Section>, key: Section -> Option<string>, j: nat, p: string, k: nat)
    requires j <= |ss| && j <= k < RunEnd(ss, key, j, p)
    ensures key(ss[k]) == Some(p)
    decreases |ss| - j
  {
    if j < k {
      RunContinues(ss, key, j + 1, p, k);
    }
  }

  /** The section at the end of a run, if any, is not of its project. */
  lemma {:induction false} RunStops(ss: seq<Section>, key: Section -> Option<string>, j: nat, p: string)
    requires j <= |ss|
    ensures RunEnd(ss, key, j, p) < |ss| ==> key(ss[RunEnd(ss, key, j, p)]) != Some(p)
    decreases |ss| - j
  {
    if j < |ss| && key(ss[j]) == Some(p) {
      RunStops(ss, key, j + 1, p);
    }
  }

  /** The non-empty texts of sections i up to j, in order. */
  function TextsBetween(ss: seq<Section>, i: nat, j: nat): (r: seq<string>)
    requires i <= j <= |ss|
    ensures forall k :: 0 <= k < |r| ==> r[k] != ""
    decreases j - i
  {
    if i == j then [] else NonEmpty(ss[i].content) + TextsBetween(ss, i + 1, j)
  }

  /**
   * The entries of the merged log, read off directly: a `/dev` section
   * opens a run that takes in the following `/dev` sections of the same
   * project and becomes one entry under the first header, with the run's
   * non-empty texts joined by a rule; any other section is an entry of its
   * own. Runs and sections without text give no entry.
   */
  function Merged(ss: seq<Section>, key: Section -> Option<string>, i: nat): (r: seq<Entry>)
    requires i <= |ss|
    ensures forall k :: 0 <= k < |r| ==> r[k].content != ""
    decreases |ss| - i
  {
    if i == |ss| then []
    else
      var s := ss[i];
      if key(s).Some? then
        var e := RunEnd(ss, key, i + 1, key(s).value);
        var texts := TextsBetween(ss, i, e);
        JoinNonEmpty(texts);
        Close(Some(s.header), texts) + Merged(ss, key, e)
      else Single(s) + Merged(ss, key, i + 1)
  }

  /** Non-empty texts joined are not empty. */
  lemma JoinNonEmpty(texts: seq<string>)
    requires forall k :: 0 <= k < |texts| ==> texts[k] != ""
    ensures texts != [] ==> Join(texts, EntrySeparator) != ""
  {
    if |texts| > 1 {
      assert |Join(texts, EntrySeparator)| >= |texts[0]|;
    }
  }

  /** What the loop gives inside a run of project p under `header` that has gathered `texts`. */
  predicate RunMerges(ss: seq<Section>, key: Section -> Option<string>, i: nat, p: string, header: string, texts: seq<string>)
    requires i <= |ss|
  {
    var e := RunEnd(ss, key, i, p);
    MergeFrom(ss, key, i, Some(p), Some(header), texts) == Close(Some(header), texts + TextsBetween(ss, i, e)) + Merged(ss, key, e)
  }

  /**
   * Inside a run of project p under `header`, with `texts` gathered so far,
   * the loop closes the run where it ends and then goes on as from scratch.
   */
  lemma {:induction false} MergeInRun(ss: seq<Section>, key: Section -> Option<string>, i: nat, p: string, header: string, texts: seq<string>)
    requires i <= |ss|
    ensures RunMerges(ss, key, i, p, header, texts)
    decreases |ss| - i, 1, 0
  {
    if i == |ss| {
      RunAtEnd(ss, key, p, header, texts);
    } else if key(ss[i]) == Some(p) {
      MergeInRun(ss, key, i + 1, p, header, texts + NonEmpty(ss[i].content));
      RunGoesOn(ss, key, i, p, header, texts);
    } else {
      MergeStart(ss, key, i);
      RunCloses(ss, key, i, p, header, texts);
    }
  }

  lemma RunAtEnd(ss: seq<Section>, key: Section -> Option<string>, p: string, header: string, texts: seq<string>)
    ensures RunMerges(ss, key, |ss|, p, header, texts)
  {
    assert texts + [] == texts;
    assert Close(Some(header), texts) + [] == Close(Some(header), texts);
  }

  /** A section of the run's project adds its text and the run goes on. */
  lemma RunGoesOn(ss: seq<Section>, key: Section -> Option<string>, i: nat, p: string, header: string, texts: seq<string>)
    requires i < |ss| && key(ss[i]) == Some(p)
    requires RunMerges(ss, key, i + 1, p, header, texts + NonEmpty(ss[i].content))
    ensures RunMerges(ss, key, i, p, header, texts)
  {
    var e := RunEnd(ss, key, i, p);
    var more := texts + NonEmpty(ss[i].content);
    assert MergeFrom(ss, key, i, Some(p), Some(header), texts) == MergeFrom(ss, key, i + 1, Some(p), Some(header), more);
    assert e == RunEnd(ss, key, i + 1, p);
    assert more + TextsBetween(ss, i + 1, e) == texts + TextsBetween(ss, i, e);
  }

  /** Any other section ends the run. */
  lemma RunCloses(ss: seq<Section>, key: Section -> Option<string>, i: nat, p: string, header: string, texts: seq<string>)
    requires i < |ss| && key(ss[i]) != Some(p)
    requires MergeFrom(ss, key, i, None, None, []) == Merged(ss, key, i)
    ensures RunMerges(ss, key, i, p, header, texts)
  {
    assert RunEnd(ss, key, i, p) == i;
    assert TextsBetween(ss, i, i) == [];
    assert texts + [] == texts;
    MergeStep(ss, key, i, Some(p), Some(header), texts);
  }

  /** From a fresh state at section i, the loop produces the merged entries from i on. */
  lemma {:induction false} MergeStart(ss: seq<Section>, key: Section -> Option<string>, i: nat)
    requires i <= |ss|
    ensures MergeFrom(ss, key, i, None, None, []) == Merged(ss, key, i)
    decreases |ss| - i, 0, 1
  {
    if i < |ss| {
      if key(ss[i]).Some? {
        MergeStartOpen(ss, key, i);
      } else {
        MergeStart(ss, key, i + 1);
        MergeSingle(ss, key, i);
      }
    }
  }

  /** `MergeStart` at a section that opens a run. */
  lemma {:induction false} MergeStartOpen(ss: seq<Section>, key: Section -> Option<string>, i: nat)
    requires i < |ss| && key(ss[i]).Some?
    ensures MergeFrom(ss, key, i, None, None, []) == Merged(ss, key, i)
    decreases |ss| - i, 0, 0
  {
    var s := ss[i];
    var p := key(s).value;
    var e := RunEnd(ss, key, i + 1, p);
    var run := Close(Some(s.header), NonEmpty(s.content) + TextsBetween(ss, i + 1, e)) + Merged(ss, key, e);
    MergeOpens(ss, key, i);
    assert MergeFrom(ss, key, i, None, None, []) == MergeFrom(ss, key, i + 1, Some(p), Some(s.header), NonEmpty(s.content));
    MergeInRun(ss, key, i + 1, p, s.header, NonEmpty(s.content));
    assert RunMerges(ss, key, i + 1, p, s.header, NonEmpty(s.content));
    assert MergeFrom(ss, key, i + 1, Some(p), Some(s.header), NonEmpty(s.content)) == run;
    MergedOpens(ss, key, i);
  }

  /** A section with a project, met outside a run, opens one. */
  lemma MergeOpens(ss: seq<Section>, key: Section -> Option<string>, i: nat)
    requires i < |ss| && key(ss[i]).Some?
    ensures MergeFrom(ss, key, i, None, None, []) == MergeFrom(ss, key, i + 1, key(ss[i]), Some(ss[i].header), NonEmpty(ss[i].content))
  {
    assert Close(None, []) == [];
  }

  /** The merged entry of the run a section with a project opens. */
  lemma MergedOpens(ss: seq<Section>, key: Section -> Option<string>, i: nat)
    requires i < |ss| && key(ss[i]).Some?
    ensures var e := RunEnd(ss, key, i + 1, key(ss[i]).value);
      Merged(ss, key, i) == Close(Some(ss[i].header), NonEmpty(ss[i].content) + TextsBetween(ss, i + 1, e)) + Merged(ss, key, e)
  {
  }

  /** A section without a project, met outside a run, is emitted alone. */
  lemma MergeSingle(ss: seq<Section>, key: Section -> Option<string>, i: nat)
    requires i < |ss| && key(ss[i]).None?
    ensures MergeFrom(ss, key, i, None, None, []) == Single(ss[i]) + MergeFrom(ss, key, i + 1, None, None, [])
    ensures Merged(ss, key, i) == Single(ss[i]) + Merged(ss, key, i + 1)
  {
    assert Close(None, []) == [];
    assert [] + Single(ss[i]) == Single(ss[i]);
  }

  /**
   * `merge_sections` gives the merged entries: consecutive `/dev` sections
   * of one project become one entry under the first header, and every
   * entry has text.
   */
  lemma SectionsMerged(ss: seq<Section>, key: Section -> Option<string>)
    ensures MergeFrom(ss, key, 0, None, None, []) == Merged(ss, key, 0)
    ensures forall k :: 0 <= k < |Merged(ss, key, 0)| ==> Merged(ss, key, 0)[k].content != ""
  {
    MergeStart(ss, key, 0);
  }

  /** The section each merged entry starts from. */
  function Origins(ss: seq<Section>, key: Section -> Option<string>, i: nat): (o: seq<nat>)
    requires i <= |ss|
    ensures forall k :: 0 <= k < |o| ==> i <= o[k] < |ss|
    decreases |ss| - i
  {
    if i == |ss| then []
    else
      var s := ss[i];
      if key(s).Some? then
        var e := RunEnd(ss, key, i + 1, key(s).value);
        (if TextsBetween(ss, i, e) != [] then [i] else []) + Origins(ss, key, e)
      else (if s.content != "" then [i] else []) + Origins(ss, key, i + 1)
  }

  /** The entries from section i on: the first one, if any, then those from `next`. */
  lemma MergedHead(ss: seq<Section>, key: Section -> Option<string>, i: nat) returns (next: nat, head: seq<Entry>)
    requires i < |ss|
    ensures i < next <= |ss|
    ensures |head| <= 1 && (head != [] ==> head[0].header == ss[i].header)
    ensures Merged(ss, key, i) == head + Merged(ss, key, next)
    ensures Origins(ss, key, i) == (if head != [] then [i] else []) + Origins(ss, key, next)
  {
    var s := ss[i];
    next := if key(s).Some? then RunEnd(ss, key, i + 1, key(s).value) else i + 1;
    head := if key(s).Some? then Close(Some(s.header), TextsBetween(ss, i, next)) else Single(s);
  }

  /**
   * Merging keeps the order of the log: entry k stands under the header of
   * section `Origins(ss, key, i)[k]`, and those sections come in increasing
   * order.
   */
  /**
   * Entries m start, one for one, from the sections of ss at the
   * increasing positions o, and carry their headers.
   */
  predicate StartsFrom(m: seq<Entry>, o: seq<nat>, ss: seq<Section>) {
    && |o| == |m|
    && (forall k :: 0 <= k < |m| ==> o[k] < |ss| && m[k].header == ss[o[k]].header)
    && (forall k :: 0 <= k < |o| - 1 ==> o[k] < o[k + 1])
  }

  lemma {:induction false} MergedInOrder(ss: seq<Section>, key: Section -> Option<string>, i: nat)
    requires i <= |ss|
    ensures StartsFrom(Merged(ss, key, i), Origins(ss, key, i), ss)
    decreases |ss| - i
  {
    if i < |ss| {
      var next, head := MergedHead(ss, key, i);
      MergedInOrder(ss, key, next);
      StartsFromCons(ss, i, head, Merged(ss, key, next), Origins(ss, key, next));
    }
  }

  /** An entry from section i put before entries from later sections. */
  lemma StartsFromCons(ss: seq<Section>, i: nat, head: seq<Entry>, m: seq<Entry>, o: seq<nat>)
    requires i < |ss| && StartsFrom(m, o, ss)
    requires forall k :: 0 <= k < |o| ==> i < o[k]
    requires |head| <= 1 && (head != [] ==> head[0].header == ss[i].header)
    ensures StartsFrom(head + m, (if head != [] then [i] else []) + o, ss)
  {
    var first: seq<nat> := if head != [] then [i] else [];
    forall k | 0 <= k < |head + m|
      ensures (first + o)[k] < |ss| && (head + m)[k].header == ss[(first + o)[k]].header
    {
      if k >= |head| {
        assert (head + m)[k] == m[k - |head|];
        assert (first + o)[k] == o[k - |head|];
      }
    }
    if head != [] && o != [] {
      assert (first + o)[0] == i && (first + o)[1] == o[0];
    }
    forall k | 0 <= k < |first + o| - 1
      ensures (first + o)[k] < (first + o)[k + 1]
    {
      if k >= |first| {
        assert (first + o)[k] == o[k - |first|];
        assert (first + o)[k + 1] == o[k + 1 - |first|];
      }
    }
  }

  // --------------------------------------------------- deduplicate_content

  const ParagraphSeparator := "\n\n"

  /** Paragraphs shorter than this are never checked for repeats. */
  const MinRepeatChars := 100

  /** A paragraph checked for repeats: long enough and not a heading. */
  predicate Checked(p: string) {
    |p| >= MinRepeatChars && !StartsWith(p, "#")
  }

  /** What paragraphs are compared by: the text without surrounding whitespace. */
  function Key(p: string): string {
    Trim(p, Python)
  }

  /** The keys of the checked paragraphs among the first n. */
  ghost function SeenKeys(paras: seq<string>, n: nat, key: string -> string): set<string>
    requires n <= |paras|
  {
    set j | 0 <= j < n && Checked(paras[j]) :: key(paras[j])
  }

  /** Paragraph i stays: it is not checked, or no earlier checked paragraph has its key. */
  predicate KeptAt(paras: seq<string>, i: nat, key: string -> string)
    requires i < |paras|
  {
    !Checked(paras[i]) || forall j :: 0 <= j < i && Checked(paras[j]) ==> key(paras[j]) != key(paras[i])
  }

  /**
   * The paragraphs among the first n that stay, in order, when `key` is
   * what they are compared by (`Key` in the script).
   */
  function Deduped(paras: seq<string>, n: nat, key: string -> string): (r: seq<string>)
    requires n <= |paras|
    ensures |r| <= n
  {
    if n == 0 then [] else Deduped(paras, n - 1, key) + (if KeptAt(paras, n - 1, key) then [paras[n - 1]] else [])
  }

  /** What stays is taken from the paragraphs. */
  lemma {:induction false} DedupedFromParas(paras: seq<string>, n: nat, k: nat, key: string -> string)
    requires n <= |paras| && k < |Deduped(paras, n, key)|
    ensures exists j :: 0 <= j < n && paras[j] == Deduped(paras, n, key)[k]
  {
    var prev := Deduped(paras, n - 1, key);
    if k < |prev| {
      DedupedFromParas(paras, n - 1, k, key);
      assert Deduped(paras, n, key)[k] == prev[k];
    } else {
      assert Deduped(paras, n, key)[k] == paras[n - 1];
    }
  }

  /** The text of an entry with repeated long paragraphs dropped. */
  function DedupedText(content: string): string {
    var paras := Split(content, ParagraphSeparator);
    Join(Deduped(paras, |paras|, Key), ParagraphSeparator)
  }

  /**
   * `deduplicate_content`: the paragraphs are scanned once, remembering
   * the keys of the long ones seen so far; a long paragraph whose key was
   * seen is dropped.
   */
  method DeduplicateContent(content: string) returns (r: string)
    ensures r == DedupedText(content)
  {
    var paragraphs := Split(content, ParagraphSeparator);
    var seen: set<string> := {};
    var unique: seq<string> := [];
    assert SeenKeys(paragraphs, 0, Key) == {};
    for i := 0 to |paragraphs|
      invariant unique == Deduped(paragraphs, i, Key)
      invariant seen == SeenKeys(paragraphs, i, Key)
    {
      seen, unique := DedupAt(paragraphs, i, seen, unique);
    }
    assert unique == Deduped(paragraphs, |paragraphs|, Key);
    r := Join(unique, ParagraphSeparator);
  }

  /** One paragraph of `deduplicate_content`'s loop. */
  method DedupAt(paragraphs: seq<string>, i: nat, seen: set<string>, unique: seq<string>) returns (seen': set<string>, unique': seq<string>)
    requires i < |paragraphs|
    requires unique == Deduped(paragraphs, i, Key) && seen == SeenKeys(paragraphs, i, Key)
    ensures unique' == Deduped(paragraphs, i + 1, Key) && seen' == SeenKeys(paragraphs, i + 1, Key)
  {
    var para := paragraphs[i];
    SeenStep(paragraphs, i, Key);
    seen', unique' := seen, unique;
    if |para| < MinRepeatChars || StartsWith(para, "#") {
      unique' := unique + [para];
      return;
    }
    var paraKey := Trim(para, Python);
    if paraKey !in seen {
      seen' := seen + {paraKey};
      unique' := unique + [para];
    }
  }

  /** One more paragraph: what it adds to the seen keys, and whether it stays. */
  lemma SeenStep(paras: seq<string>, i: nat, key: string -> string)
    requires i < |paras|
    ensures SeenKeys(paras, i + 1, key) == SeenKeys(paras, i, key) + (if Checked(paras[i]) then {key(paras[i])} else {})
    ensures KeptAt(paras, i, key) <==> !Checked(paras[i]) || key(paras[i]) !in SeenKeys(paras, i, key)
  {
    if Checked(paras[i]) && key(paras[i]) in SeenKeys(paras, i, key) {
      var j :| 0 <= j < i && Checked(paras[j]) && key(paras[j]) == key(paras[i]);
    }
  }

  /** No two long paragraphs left have the same key. */
  lemma {:induction false} DedupedNoRepeats(paras: seq<string>, n: nat, key: string -> string)
    requires n <= |paras|
    ensures NoRepeatedParagraph(Deduped(paras, n, key), key)
  {
    if n > 0 {
      DedupedNoRepeats(paras, n - 1, key);
      var prev := Deduped(paras, n - 1, key);
      var r := Deduped(paras, n, key);
      forall a, b | 0 <= a < b < |r| && Checked(r[a]) && Checked(r[b])
        ensures key(r[a]) != key(r[b])
      {
        if b >= |prev| {
          assert r[b] == paras[n - 1] && r[a] == prev[a];
          DedupedFromParas(paras, n - 1, a, key);
          var j :| 0 <= j < n - 1 && paras[j] == prev[a];
          assert KeptAt(paras, n - 1, key);
          assert Checked(paras[j]);
          assert key(paras[j]) != key(paras[n - 1]);
        } else {
          assert r[a] == prev[a] && r[b] == prev[b];
        }
      }
      assert NoRepeatedParagraph(r, key);
    }
  }

  /** Paragraph p is in r, or is a long one whose key a long paragraph of r has. */
  predicate Covered(r: seq<string>, p: string, key: string -> string) {
    p in r || (Checked(p) && exists k :: 0 <= k < |r| && Checked(r[k]) && key(r[k]) == key(p))
  }

  lemma CoveredGrows(prev: seq<string>, r: seq<string>, p: string, key: string -> string)
    requires prev <= r && Covered(prev, p, key)
    ensures Covered(r, p, key)
  {
    if p !in prev {
      var k :| 0 <= k < |prev| && Checked(prev[k]) && key(prev[k]) == key(p);
      assert r[k] == prev[k];
    } else {
      var k :| 0 <= k < |prev| && prev[k] == p;
      assert r[k] == prev[k];
    }
  }

  /** A long paragraph with the key of a covered long paragraph is covered. */
  lemma CoveredByKey(r: seq<string>, p: string, q: string, key: string -> string)
    requires Covered(r, p, key) && Checked(p) && Checked(q) && key(p) == key(q)
    ensures Covered(r, q, key)
  {
    if p in r {
      var k :| 0 <= k < |r| && r[k] == p;
    }
  }

  /** Paragraph j of the first n is covered by what stays of them. */
  lemma {:induction false} DedupedCovers(paras: seq<string>, n: nat, j: nat, key: string -> string)
    requires j < n <= |paras|
    ensures Covered(Deduped(paras, n, key), paras[j], key)
  {
    if j < n - 1 {
      DedupedCovers(paras, n - 1, j, key);
      CoveredLater(paras, n, paras[j], key);
    } else if !KeptAt(paras, j, key) {
      var i := EarlierSameKey(paras, j, key);
      DedupedCovers(paras, n - 1, i, key);
      CoveredLater(paras, n, paras[i], key);
      CoveredByKey(Deduped(paras, n, key), paras[i], paras[j], key);
    } else {
      var r := Deduped(paras, n, key);
      assert r == Deduped(paras, n - 1, key) + [paras[j]];
      assert r[|r| - 1] == paras[j];
    }
  }

  /** What the first n - 1 paragraphs cover stays covered with one more. */
  lemma CoveredLater(paras: seq<string>, n: nat, p: string, key: string -> string)
    requires 0 < n <= |paras| && Covered(Deduped(paras, n - 1, key), p, key)
    ensures Covered(Deduped(paras, n, key), p, key)
  {
    var prev := Deduped(paras, n - 1, key);
    var r := Deduped(paras, n, key);
    assert r == prev + (if KeptAt(paras, n - 1, key) then [paras[n - 1]] else []);
    assert prev <= r;
    CoveredGrows(prev, r, p, key);
  }

  /** A paragraph that does not stay has an earlier long one with its key. */
  lemma EarlierSameKey(paras: seq<string>, j: nat, key: string -> string) returns (i: nat)
    requires j < |paras| && !KeptAt(paras, j, key)
    ensures i < j && Checked(paras[i]) && Checked(paras[j]) && key(paras[i]) == key(paras[j])
  {
    i :| 0 <= i < j && Checked(paras[i]) && key(paras[i]) == key(paras[j]);
  }

  /**
   * Nothing else is lost: every paragraph either stays, or is a long one
   * whose key stays with an earlier long paragraph.
   */
  lemma DedupedKeepsKeys(paras: seq<string>, n: nat, key: string -> string)
    requires n <= |paras|
    ensures forall j :: 0 <= j < n ==> Covered(Deduped(paras, n, key), paras[j], key)
  {
    forall j | 0 <= j < n {
      DedupedCovers(paras, n, j, key);
    }
  }

  /** Long paragraphs with distinct keys throughout. */
  predicate NoRepeatedParagraph(paras: seq<string>, key: string -> string) {
    forall i, j :: 0 <= i < j < |paras| && Checked(paras[i]) && Checked(paras[j]) ==> key(paras[i]) != key(paras[j])
  }

  /** Without a repeated long paragraph every paragraph stays. */
  lemma {:induction false} DistinctParagraphsKept(paras: seq<string>, n: nat, key: string -> string)
    requires n <= |paras| && NoRepeatedParagraph(paras, key)
    ensures Deduped(paras, n, key) == paras[..n]
  {
    if n > 0 {
      DistinctParagraphsKept(paras, n - 1, key);
      assert KeptAt(paras, n - 1, key);
      assert paras[..n - 1] + [paras[n - 1]] == paras[..n];
    }
  }

  /** A text without a repeated long paragraph comes back unchanged. */
  lemma DistinctTextUnchanged(content: string)
    requires NoRepeatedParagraph(Split(content, ParagraphSeparator), Key)
    ensures DedupedText(content) == content
  {
    var paras := Split(content, ParagraphSeparator);
    DistinctParagraphsKept(paras, |paras|, Key);
    assert paras[..|paras|] == paras;
    JoinSplit(content, ParagraphSeparator);
  }

  // --------------------------------------------------------- format_output

  /**
   * The lines an entry is written as: header, blank, its text as `text`
   * renders it, blank.
   */
  function EntryLines(e: Entry, text: string -> string): seq<string> {
    [e.header, "", text(e.content), ""]
  }

  /**
   * The lines written for the first n entries; entries without text are
   * skipped. The script renders texts with `DedupedText`.
   */
  function Formatted(merged: seq<Entry>, n: nat, text: string -> string): seq<string>
    requires n <= |merged|
  {
    if n == 0 then []
    else Formatted(merged, n - 1, text) + (if merged[n - 1].content == "" then [] else EntryLines(merged[n - 1], text))
  }

  /** The four lines `format_output` writes for an entry with text. */
  method WriteEntry(e: Entry) returns (lines: seq<string>)
    ensures lines == EntryLines(e, DedupedText)
  {
    var deduped := DeduplicateContent(e.content);
    lines := [e.header, "", deduped, ""];
  }

  /** One entry of `format_output`'s loop: an entry without text is skipped. */
  method FormatAt(merged: seq<Entry>, i: nat, dateHeader: string, output: seq<string>) returns (output': seq<string>)
    requires i < |merged| && output == [dateHeader, ""] + Formatted(merged, i, DedupedText)
    ensures output' == [dateHeader, ""] + Formatted(merged, i + 1, DedupedText)
  {
    if merged[i].content == "" {
      return output;
    }
    var lines := WriteEntry(merged[i]);
    output' := output + lines;
  }

  /** `format_output`: the date header and a blank line, then every entry with text. */
  method FormatOutput(merged: seq<Entry>, dateHeader: string) returns (r: string)
    ensures r == Join([dateHeader, ""] + Formatted(merged, |merged|, DedupedText), "\n")
  {
    var output := [dateHeader, ""];
    for i := 0 to |merged|
      invariant output == [dateHeader, ""] + Formatted(merged, i, DedupedText)
    {
      output := FormatAt(merged, i, dateHeader, output);
    }
    r := Join(output, "\n");
  }

  /** Entries that all have text are written as four lines each. */
  lemma {:induction false} FormatLength(merged: seq<Entry>, n: nat, text: string -> string)
    requires n <= |merged|
    requires forall k :: 0 <= k < |merged| ==> merged[k].content != ""
    ensures |Formatted(merged, n, text)| == 4 * n
  {
    if n > 0 {
      FormatLength(merged, n - 1, text);
    }
  }

  /** Entry k of entries that all have text is written at lines 4k to 4k+3. */
  lemma {:induction false} FormattedAt(merged: seq<Entry>, n: nat, k: nat, text: string -> string)
    requires k < n <= |merged|
    requires forall j :: 0 <= j < |merged| ==> merged[j].content != ""
    ensures 4 * k + 4 <= |Formatted(merged, n, text)|
    ensures Formatted(merged, n, text)[4 * k..4 * k + 4] == EntryLines(merged[k], text)
  {
    FormatLength(merged, n, text);
    FormatLength(merged, n - 1, text);
    if k < n - 1 {
      FormattedAt(merged, n - 1, k, text);
    }
  }

  // ------------------------------------------------------------------ main

  /** The first line of a text is the text up to its first line break, or all of it. */
  lemma {:induction false} FirstLine(s: string)
    ensures var first := Split(s, "\n")[0];
      '\n' !in first && (s == first || StartsWith(s, first + "\n"))
    decreases |s|
  {
    SplitPiecesLackSeparator(s, '\n');
    if !StartsWith(s, "\n") && s != [] {
      FirstLine(s[1..]);
      assert s == [s[0]] + s[1..];
    }
  }

  /**
   * The date header: the log's first line when it is a `# ` heading,
   * `# Log` otherwise.
   */
  function DateHeader(content: string): (r: string)
    ensures StartsWith(content, "# ") ==> '\n' !in r && (content == r || StartsWith(content, r + "\n"))
    ensures !StartsWith(content, "# ") ==> r == "# Log"
    ensures StartsWith(r, "# ")
  {
    FirstLine(content);
    var first := Split(content, "\n")[0];
    HeadingFirstLine(content, first);
    if StartsWith(first, "# ") then first else "# Log"
  }

  /** A `# ` heading that goes on past its first line has that line start with `# `. */
  lemma HeadingFirstLine(content: string, first: string)
    requires content == first || StartsWith(content, first + "\n")
    ensures StartsWith(content, "# ") ==> StartsWith(first, "# ")
  {
    if StartsWith(content, "# ") && content != first {
      assert content[|first|] == (first + "\n")[|first|] == '\n';
      assert content[0] == '#' && content[1] == ' ';
      assert |first| >= 2;
      assert first[..2] == (first + "\n")[..2] == content[..2];
    }
  }

  /** What `refactor-log.py` writes in place of a talk log. */
  function RefactoredLog(content: string): string {
    var merged := Merged(Sections(Split(content, "\n")), DevProject, 0);
    Join([DateHeader(content), ""] + Formatted(merged, |merged|, DedupedText), "\n")
  }

  /**
   * The script's pipeline on the text it read: date header, sections,
   * merged entries, output; with the sizes before and after.
   */
  method RefactorLogFile(content: string) returns (output: string, originalSize: nat, newSize: nat)
    ensures output == RefactoredLog(content)
    ensures originalSize == |content| && newSize == |output|
  {
    originalSize := |content|;
    var dateHeader := DateHeader(content);
    var sections := ParseSections(content);
    ParsedSections(content);
    ParsedHeadersAreLines(content);
    var merged := MergeSections(sections);
    SectionsMerged(sections, DevProject);
    output := FormatOutput(merged, dateHeader);
    newSize := |output|;
  }

  /**
   * After the date header and a blank line, the rewritten log holds, for
   * each merged entry, in the order of the sections it starts from, that
   * section's header, a blank line, the entry's deduplicated text and a
   * blank line.
   */
  lemma RefactoredLayout(ss: seq<Section>, k: nat)
    requires k < |Merged(ss, DevProject, 0)|
    ensures var m := Merged(ss, DevProject, 0);
      var o := Origins(ss, DevProject, 0);
      |Formatted(m, |m|, DedupedText)| == 4 * |m| && k < |o| &&
      Formatted(m, |m|, DedupedText)[4 * k..4 * k + 4] == [ss[o[k]].header, "", DedupedText(m[k].content), ""]
  {
    SectionsMerged(ss, DevProject);
    MergedInOrder(ss, DevProject, 0);
    var m := Merged(ss, DevProject, 0);
    FormatLength(m, |m|, DedupedText);
    FormattedAt(m, |m|, k, DedupedText);
  }
}
