/**
 * `DailyNoteService`: the summary section written into the daily note, where
 * it goes (right under the target heading's line, or appended with the
 * heading), and the substring test that tells whether a day was already
 * summarised.
 *
 * Dates are abstract: a day is an `int`, and `dayName(d)` stands for
 * `moment.format('YYYY-MM-DD')` of day d. The vault is a map from file
 * path to file content.
 */
module DailyNote {
  import opened Strings

  /** `### <date> 作業サマリー`, the text `isSummaryExists` looks for. */
  function SummaryHeading(date: string): string {
    "### " + date + " 作業サマリー"
  }

  /**
   * `buildSummarySection`: a blank line, the dated summary heading, a blank
   * line, the summary and a final line break.
   */
  function BuildSummarySection(date: string, summary: string): (r: string)
    ensures |r| == |SummaryHeading(date)| + |summary| + 4
    ensures r[0] == '\n' && OccursAt(r, SummaryHeading(date), 1)
    ensures r[|SummaryHeading(date)| + 1..|SummaryHeading(date)| + 3] == "\n\n"
    ensures OccursAt(r, summary, |SummaryHeading(date)| + 3) && r[|r| - 1] == '\n'
  {
    var r := "\n" + SummaryHeading(date) + "\n\n" + summary + "\n";
    assert r[1..1 + |SummaryHeading(date)|] == SummaryHeading(date);
    r
  }

  // ------------------------------------------------------ heading line match

  /** `^` of a multiline JavaScript regular expression at position p. */
  predicate LineStartAt(s: string, p: nat)
    requires p <= |s|
  {
    p == 0 || IsLineTerminator(s[p - 1])
  }

  /** `$` of a multiline JavaScript regular expression at position e. */
  predicate LineEndAt(s: string, e: nat)
    requires e <= |s|
  {
    e == |s| || IsLineTerminator(s[e])
  }

  /** `^<escaped heading>$` (flag `m`) matches at p: a whole line equal to the heading. */
  predicate HeadingAt(s: string, heading: string, p: nat) {
    OccursAt(s, heading, p) && LineStartAt(s, p) && LineEndAt(s, p + |heading|)
  }

  /** The first heading line at or after `from`, as `RegExp.exec` finds it. */
  function FindHeading(s: string, heading: string, from: nat): (r: Option<nat>)
    ensures r.Some? ==> from <= r.value && HeadingAt(s, heading, r.value)
    ensures r.Some? ==> forall k: nat :: from <= k < r.value ==> !HeadingAt(s, heading, k)
    ensures r.None? ==> forall k: nat :: from <= k ==> !HeadingAt(s, heading, k)
    decreases |s| - from
  {
    if from + |heading| > |s| then None
    else if HeadingAt(s, heading, from) then Some(from)
    else FindHeading(s, heading, from + 1)
  }

  /** Any heading line is found, so `test` and `replace` agree on the match. */
  lemma HeadingLineIsFound(s: string, heading: string, p: nat)
    requires HeadingAt(s, heading, p)
    ensures FindHeading(s, heading, 0).Some?
    ensures FindHeading(s, heading, 0).value <= p
  {
  }

  // --------------------------------------------------------------- insertion

  /**
   * `insertSummary`: after the first line equal to the heading; otherwise
   * heading and section form the note when it is blank (`trim() === ''`),
   * or follow it after a blank line.
   */
  function InsertSummary(content: string, heading: string, section: string): (r: string)
    ensures Contains(r, section)
  {
    match FindHeading(content, heading, 0)
    case Some(p) => InsertAt(content, p + |heading|, section)
    case None =>
      ContainsInMiddle(heading, section, [], section, 0);
      assert heading + section + [] == heading + section;
      if Trim(content, JavaScript) == "" then heading + section
      else AppendSection(content, heading, section)
  }

  /** `${content}\n\n${heading}${section}`: the note, a blank line, heading and section. */
  function AppendSection(content: string, heading: string, section: string): (r: string)
    ensures StartsWith(r, content) && r[|content|..] == "\n\n" + heading + section
    ensures Contains(r, section)
  {
    var r := content + "\n\n" + heading + section;
    assert r[|content|..] == "\n\n" + heading + section;
    ContainsInMiddle(content + "\n\n" + heading, section, "", section, 0);
    assert r == content + "\n\n" + heading + section + "";
    r
  }

  /** `section` spliced into `s` at position e. */
  function InsertAt(s: string, e: nat, section: string): (r: string)
    requires e <= |s|
    ensures |r| == |s| + |section|
    ensures r[..e] == s[..e] && r[e..e + |section|] == section && r[e + |section|..] == s[e..]
    ensures Contains(r, section)
  {
    var r := s[..e] + section + s[e..];
    assert r[e..e + |section|] == section;
    assert OccursAt(r, section, e);
    r
  }

  /**
   * With a heading line in the note, the section is inserted right after the
   * first such line: the text before it is the note up to the end of that
   * line, and taking the section out gives the note back.
   */
  lemma InsertUnderHeading(content: string, heading: string, section: string)
    requires FindHeading(content, heading, 0).Some?
    ensures var p := FindHeading(content, heading, 0).value;
      var e := p + |heading|;
      var r := InsertSummary(content, heading, section);
      && HeadingAt(content, heading, p)
      && (forall k: nat :: k < p ==> !HeadingAt(content, heading, k))
      && |r| == |content| + |section|
      && r[..e] == content[..e]
      && r[e..e + |section|] == section
      && r[..e] + r[e + |section|..] == content
  {
    var p := FindHeading(content, heading, 0).value;
    var e := p + |heading|;
    assert content[..e] + content[e..] == content;
  }

  /** Without a heading line, a blank note becomes exactly heading + section. */
  lemma InsertIntoBlankNote(content: string, heading: string, section: string)
    requires FindHeading(content, heading, 0).None?
    requires AllSpace(content, JavaScript)
    ensures InsertSummary(content, heading, section) == heading + section
  {
    TrimOfAllSpace(content, JavaScript);
  }

  /**
   * Without a heading line, a note with any other character is kept as a
   * prefix, followed by a blank line, the heading and the section.
   */
  lemma InsertAfterNote(content: string, heading: string, section: string)
    requires FindHeading(content, heading, 0).None?
    requires !AllSpace(content, JavaScript)
    ensures var r := InsertSummary(content, heading, section);
      StartsWith(r, content) && r[|content|..] == "\n\n" + heading + section
  {
    TrimOfNotAllSpace(content, JavaScript);
  }

  /**
   * A section that starts with a line break (as every built section does)
   * leaves the heading as a line of the result, so a later insertion goes
   * under the same heading.
   */
  lemma HeadingSurvivesInsert(content: string, heading: string, section: string)
    requires section != [] && section[0] == '\n'
    ensures FindHeading(InsertSummary(content, heading, section), heading, 0).Some?
  {
    var r := InsertSummary(content, heading, section);
    match FindHeading(content, heading, 0)
    case Some(p) =>
      var e := p + |heading|;
      assert r == content[..e] + section + content[e..];
      assert r[p..e] == content[p..e];
      assert p > 0 ==> r[p - 1] == content[p - 1];
      assert r[e] == '\n';
      HeadingLineIsFound(r, heading, p);
    case None =>
      if Trim(content, JavaScript) == "" {
        assert r == heading + section;
        assert r[..|heading|] == heading;
        assert r[|heading|] == '\n';
        HeadingLineIsFound(r, heading, 0);
      } else {
        var p := |content| + 2;
        assert r == content + "\n\n" + heading + section;
        assert r[p..p + |heading|] == heading;
        assert r[p - 1] == '\n';
        assert r[p + |heading|] == '\n';
        HeadingLineIsFound(r, heading, p);
      }
  }

  // ------------------------------------------------------------------- vault

  /** Path of a file in the vault: `<folder>/<name>.md`. */
  function NotePath(folder: string, name: string): string {
    folder + "/" + name + ".md"
  }

  /**
   * `writeSummary`: the note dated the day after the log (created empty
   * when missing) receives the log day's section under the heading.
   */
  function WriteSummary(vault: map<string, string>, folder: string, heading: string,
                        dayName: int -> string, logDay: int, summary: string): (v: map<string, string>)
    ensures var path := NotePath(folder, dayName(logDay + 1));
      && v.Keys == vault.Keys + {path}
      && (forall q :: q in vault && q != path ==> v[q] == vault[q])
      && v[path] == InsertSummary(if path in vault then vault[path] else "", heading,
                                  BuildSummarySection(dayName(logDay), summary))
  {
    var path := NotePath(folder, dayName(logDay + 1));
    var content := if path in vault then vault[path] else "";
    vault[path := InsertSummary(content, heading, BuildSummarySection(dayName(logDay), summary))]
  }

  /** `isSummaryExists`: the next day's note exists and contains the dated heading. */
  predicate IsSummaryExists(vault: map<string, string>, folder: string, dayName: int -> string, logDay: int) {
    var path := NotePath(folder, dayName(logDay + 1));
    path in vault && Contains(vault[path], SummaryHeading(dayName(logDay)))
  }

  /**
   * Writing a log day's summary and then checking for it look at the same
   * note (the one dated the next day), so the check then succeeds.
   */
  lemma SummaryExistsAfterWrite(vault: map<string, string>, folder: string, heading: string,
                                dayName: int -> string, logDay: int, summary: string)
    ensures IsSummaryExists(WriteSummary(vault, folder, heading, dayName, logDay, summary),
                            folder, dayName, logDay)
  {
    var section := BuildSummarySection(dayName(logDay), summary);
    ContainsTransitive(WriteSummary(vault, folder, heading, dayName, logDay, summary)[NotePath(folder, dayName(logDay + 1))],
                       section, SummaryHeading(dayName(logDay)));
  }
}
