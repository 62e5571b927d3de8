/**
 * `GlmApiService.cleanXmlTags`: the LLM reply is normalised to Markdown in a
 * fixed order. Each regular-expression replacement of the source is a
 * left-to-right scanner here, matching where the regex engine would match and
 * resuming where it would resume.
 */
module ResponseNormalizer {
  import opened Strings

  // -------------------------------------------------- step 1: code fences

  /** "```" followed by "xml" in any ASCII case (`/```xml\s*\/gi`). */
  predicate XmlFenceAt(s: string) {
    && |s| >= 6 && s[..3] == "```"
    && (s[3] == 'x' || s[3] == 'X')
    && (s[4] == 'm' || s[4] == 'M')
    && (s[5] == 'l' || s[5] == 'L')
  }

  /** No XML fence starts anywhere in the text. */
  predicate NoXmlFence(s: string) {
    forall k :: 0 <= k < |s| ==> !XmlFenceAt(s[k..])
  }

  /** `content.replace(/```xml\s*\/gi, '')`. */
  function RemoveXmlFences(s: string): (r: string)
    ensures |r| <= |s|
    ensures NoXmlFence(s) ==> r == s
    decreases |s|
  {
    if s == [] then []
    else if XmlFenceAt(s) then
      assert s[0..] == s;
      RemoveXmlFences(TrimStart(s[6..], JavaScript))
    else
      NoXmlFenceTail(s);
      [s[0]] + RemoveXmlFences(s[1..])
  }

  lemma NoXmlFenceTail(s: string)
    requires s != []
    ensures NoXmlFence(s) ==> NoXmlFence(s[1..])
  {
    if NoXmlFence(s) {
      forall k | 0 <= k < |s| - 1 ensures !XmlFenceAt(s[1..][k..]) {
        assert s[1..][k..] == s[k + 1..];
      }
    }
  }

  /** No XML fence starts before position n. */
  predicate NoXmlFenceBefore(s: string, n: nat) {
    forall k :: 0 <= k < n && k <= |s| ==> !XmlFenceAt(s[k..])
  }

  /**
   * The text in front of the first XML fence is kept verbatim; the fence
   * and the whitespace after it are removed, and the scan goes on after them.
   */
  lemma XmlFenceRemoved(a: string, fence: string, w: string, b: string)
    requires |fence| == 6 && XmlFenceAt(fence)
    requires NoXmlFenceBefore(a + fence + w + b, |a|)
    requires AllSpace(w, JavaScript) && (b == [] || !IsSpace(b[0], JavaScript))
    ensures RemoveXmlFences(a + fence + w + b) == a + RemoveXmlFences(b)
  {
    var rest := fence + w + b;
    assert a + fence + w + b == a + rest;
    XmlFenceFreeTextKept(a, rest);
    XmlFenceAtFront(fence, w, b);
  }

  /** Text in which no XML fence starts is kept verbatim. */
  lemma {:induction false} XmlFenceFreeTextKept(a: string, rest: string)
    requires NoXmlFenceBefore(a + rest, |a|)
    ensures RemoveXmlFences(a + rest) == a + RemoveXmlFences(rest)
    decreases |a|
  {
    if a == [] {
      assert a + rest == rest;
    } else {
      ConsConcat(a, rest);
      XmlFenceShift(a[0], a[1..] + rest, |a|);
      XmlFenceFreeTextKept(a[1..], rest);
      XmlFenceFreeTextKeptStep(a, rest);
    }
  }

  lemma XmlFenceFreeTextKeptStep(a: string, rest: string)
    requires a != [] && NoXmlFenceBefore(a + rest, |a|)
    requires RemoveXmlFences(a[1..] + rest) == a[1..] + RemoveXmlFences(rest)
    ensures RemoveXmlFences(a + rest) == a + RemoveXmlFences(rest)
  {
    var t := a[1..] + rest;
    ConsConcat(a, rest);
    ConsConcat(a, RemoveXmlFences(rest));
    XmlFenceShift(a[0], t, |a|);
    XmlFenceKeepsChar(a[0], t);
  }


  lemma XmlFenceShift(c: char, t: string, n: nat)
    requires n >= 1 && NoXmlFenceBefore([c] + t, n)
    ensures !XmlFenceAt([c] + t) && NoXmlFenceBefore(t, n - 1)
  {
    var s := [c] + t;
    assert s[0..] == s;
    forall k | 0 <= k < n - 1 && k <= |t| ensures !XmlFenceAt(t[k..]) {
      assert t[k..] == s[k + 1..];
    }
  }

  lemma XmlFenceAtFront(fence: string, w: string, b: string)
    requires |fence| == 6 && XmlFenceAt(fence)
    requires AllSpace(w, JavaScript) && (b == [] || !IsSpace(b[0], JavaScript))
    ensures RemoveXmlFences(fence + w + b) == RemoveXmlFences(b)
  {
    var s := fence + (w + b);
    assert fence + w + b == s;
    XmlFenceThenText(fence, w + b);
    TrimStartOfSpace(w, b, JavaScript);
    XmlFenceDropped(s);
  }

  lemma XmlFenceThenText(fence: string, rest: string)
    requires |fence| == 6 && XmlFenceAt(fence)
    ensures XmlFenceAt(fence + rest) && (fence + rest)[6..] == rest
  {
    var s := fence + rest;
    assert s[..3] == fence[..3];
    assert s[3] == fence[3] && s[4] == fence[4] && s[5] == fence[5];
  }

  lemma XmlFenceDropped(s: string)
    requires XmlFenceAt(s)
    ensures RemoveXmlFences(s) == RemoveXmlFences(TrimStart(s[6..], JavaScript))
  {
  }

  lemma XmlFenceKeepsChar(c: char, t: string)
    requires !XmlFenceAt([c] + t)
    ensures RemoveXmlFences([c] + t) == [c] + RemoveXmlFences(t)
  {
    var s := [c] + t;
    assert s[1..] == t;
    assert RemoveXmlFences(s) == [s[0]] + RemoveXmlFences(s[1..]);
  }

  /** `.replace(/```\s*\/g, '')`. */
  function RemoveFences(s: string): (r: string)
    ensures |r| <= |s|
    ensures !HasFence(s) ==> r == s
    decreases |s|
  {
    if s == [] then []
    else if StartsWith(s, "```") then RemoveFences(TrimStart(s[3..], JavaScript))
    else [s[0]] + RemoveFences(s[1..])
  }

  /** A fence "```" starts somewhere in the text. */
  predicate HasFence(s: string)
    decreases |s|
  {
    s != [] && (StartsWith(s, "```") || HasFence(s[1..]))
  }

  /** HasFence is Contains for the fence. */
  lemma HasFenceIsContains(s: string)
    ensures HasFence(s) <==> Contains(s, "```")
  {
    if HasFence(s) {
      HasFenceContains(s);
    }
    if Contains(s, "```") {
      var k: nat :| k <= |s| && OccursAt(s, "```", k);
      OccursAtHasFence(s, k);
    }
  }

  lemma {:induction false} HasFenceContains(s: string)
    requires HasFence(s)
    ensures Contains(s, "```")
    decreases |s|
  {
    if StartsWith(s, "```") {
      assert OccursAt(s, "```", 0);
    } else {
      HasFenceContains(s[1..]);
      ContainsTail(s, "```");
    }
  }

  lemma {:induction false} OccursAtHasFence(s: string, k: nat)
    requires OccursAt(s, "```", k)
    ensures HasFence(s)
    decreases k
  {
    if k > 0 {
      assert s[1..][k - 1..k + 2] == s[k..k + 3];
      OccursAtHasFence(s[1..], k - 1);
    }
  }

  /** No fence starts before position n. */
  predicate NoFenceBefore(s: string, n: nat) {
    forall k :: 0 <= k < n && k <= |s| ==> !StartsWith(s[k..], "```")
  }

  /**
   * The text in front of the first fence is kept verbatim; the fence and the
   * whitespace after it are removed, and the scan goes on after them.
   */
  lemma FenceRemoved(a: string, w: string, b: string)
    requires NoFenceBefore(a + "```" + w + b, |a|)
    requires AllSpace(w, JavaScript) && (b == [] || !IsSpace(b[0], JavaScript))
    ensures RemoveFences(a + "```" + w + b) == a + RemoveFences(b)
  {
    var rest := "```" + w + b;
    assert a + "```" + w + b == a + rest;
    FenceFreeTextKept(a, rest);
    FenceAtFront(w, b);
  }

  /** Text in which no fence starts is kept verbatim. */
  lemma {:induction false} FenceFreeTextKept(a: string, rest: string)
    requires NoFenceBefore(a + rest, |a|)
    ensures RemoveFences(a + rest) == a + RemoveFences(rest)
    decreases |a|
  {
    if a == [] {
      assert a + rest == rest;
    } else {
      ConsConcat(a, rest);
      FenceShift(a[0], a[1..] + rest, |a|);
      FenceFreeTextKept(a[1..], rest);
      FenceFreeTextKeptStep(a, rest);
    }
  }

  lemma FenceFreeTextKeptStep(a: string, rest: string)
    requires a != [] && NoFenceBefore(a + rest, |a|)
    requires RemoveFences(a[1..] + rest) == a[1..] + RemoveFences(rest)
    ensures RemoveFences(a + rest) == a + RemoveFences(rest)
  {
    var t := a[1..] + rest;
    ConsConcat(a, rest);
    ConsConcat(a, RemoveFences(rest));
    FenceShift(a[0], t, |a|);
    FenceKeepsChar(a[0], t);
  }


  lemma FenceShift(c: char, t: string, n: nat)
    requires n >= 1 && NoFenceBefore([c] + t, n)
    ensures !StartsWith([c] + t, "```") && NoFenceBefore(t, n - 1)
  {
    var s := [c] + t;
    assert s[0..] == s;
    forall k | 0 <= k < n - 1 && k <= |t| ensures !StartsWith(t[k..], "```") {
      assert t[k..] == s[k + 1..];
    }
  }

  lemma FenceAtFront(w: string, b: string)
    requires AllSpace(w, JavaScript) && (b == [] || !IsSpace(b[0], JavaScript))
    ensures RemoveFences("```" + w + b) == RemoveFences(b)
  {
    var s := "```" + w + b;
    assert s[..3] == "```";
    assert StartsWith(s, "```");
    assert s[3..] == w + b;
    TrimStartOfSpace(w, b, JavaScript);
    assert RemoveFences(s) == RemoveFences(TrimStart(s[3..], JavaScript));
  }

  lemma FenceKeepsChar(c: char, t: string)
    requires !StartsWith([c] + t, "```")
    ensures RemoveFences([c] + t) == [c] + RemoveFences(t)
  {
    var s := [c] + t;
    assert s[1..] == t;
    assert RemoveFences(s) == [s[0]] + RemoveFences(s[1..]);
  }

  lemma RemoveFencesHead(s: string)
    ensures RemoveFences(s) != [] && RemoveFences(s)[0] == '`' ==> s != [] && s[0] == '`'
  {
  }

  /** Two leading backquotes of the output come from two leading backquotes of the input. */
  lemma RemoveFencesTwoHead(s: string)
    ensures |RemoveFences(s)| >= 2 && RemoveFences(s)[0] == '`' && RemoveFences(s)[1] == '`'
      ==> |s| >= 2 && s[0] == '`' && s[1] == '`'
  {
    if s != [] && !StartsWith(s, "```") {
      RemoveFencesHead(s[1..]);
    }
  }

  /** After the second fence pass no "```" is left in the text. */
  lemma {:induction false} RemoveFencesLeavesNoFence(s: string)
    ensures !Contains(RemoveFences(s), "```")
    decreases |s|
  {
    if s == [] {
    } else if StartsWith(s, "```") {
      RemoveFencesLeavesNoFence(TrimStart(s[3..], JavaScript));
    } else {
      RemoveFencesLeavesNoFence(s[1..]);
      NoFenceCons(s);
    }
  }

  lemma NoFenceCons(s: string)
    requires s != [] && !StartsWith(s, "```")
    requires !Contains(RemoveFences(s[1..]), "```")
    ensures !Contains(RemoveFences(s), "```")
  {
    var v := s[1..];
    var r := RemoveFences(v);
    assert RemoveFences(s) == [s[0]] + r;
    assert !OccursAt([s[0]] + r, "```", 0) by {
      RemoveFencesTwoHead(v);
      assert s == [s[0]] + v;
      HeadNotFence(s[0], v, r);
    }
    ContainsCons(s[0], r, "```");
  }

  /** No fence at the front of `[c] + r` when `r` opens with no more backquotes than `v`. */
  lemma HeadNotFence(c: char, v: string, r: string)
    requires !StartsWith([c] + v, "```")
    requires |r| >= 2 && r[0] == '`' && r[1] == '`' ==> |v| >= 2 && v[0] == '`' && v[1] == '`'
    ensures !OccursAt([c] + r, "```", 0)
  {
    if |r| >= 2 {
      assert ([c] + r)[..3] == [c, r[0], r[1]];
      if r[0] == '`' && r[1] == '`' {
        assert ([c] + v)[..3] == [c, v[0], v[1]];
      }
    }
  }

  // ------------------------------------------------ step 2: <summary> unwrap

  /**
   * `content.match(/<summary>([\s\S]*?)<\/summary>/)`: when an opening tag
   * has a closing tag after it, the text is replaced by what lies between the
   * first opening tag and the first closing tag after it.
   */
  function UnwrapSummary(s: string): (r: string)
    ensures r == s || !Contains(r, "</summary>")
    ensures !Contains(s, "<summary>") || !Contains(s, "</summary>") ==> r == s
  {
    match IndexOf(s, "<summary>", 0)
    case None => s
    case Some(i) =>
      match IndexOf(s, "</summary>", i + 9)
      case None => s
      case Some(j) =>
        IndexOfGap(s, "</summary>", i + 9, j);
        s[i + 9..j]
  }

  /**
   * With an opening tag that has no earlier one, and a closing tag that has
   * no earlier one after it, the text becomes exactly what lies between them.
   */
  lemma SummaryUnwrapped(before: string, inner: string, after: string)
    requires !Contains(before + "<summary", "<summary>")
    requires !Contains(inner, "</summary>")
    ensures UnwrapSummary(before + "<summary>" + inner + "</summary>" + after) == inner
  {
    var s := before + "<summary>" + inner + "</summary>" + after;
    var i := |before|;
    var j := i + 9 + |inner|;
    assert s[..i + 8] == before + "<summary";
    assert s[i..i + 9] == "<summary>";
    assert s[i + 9..j] == inner;
    assert s[j..j + 10] == "</summary>";
    FirstOpenAt(s, "<summary>", i);
    FirstCloseAt(s, "</summary>", i + 9, j);
  }

  // ---------------------------------------------- step 3: tag -> heading table

  datatype TagMapping = TagMapping(tag: string, heading: string)

  /** The ordered table of known tags; an empty heading inlines the text. */
  const TagTable: seq<TagMapping> := [
    TagMapping("type", ""),
    TagMapping("request", "#### リクエスト"),
    TagMapping("title", "#### タイトル"),
    TagMapping("change", "#### 変更種別"),
    TagMapping("description", ""),
    TagMapping("summary", ""),
    TagMapping("investigated", "**🔍 調査内容**"),
    TagMapping("learned", "**📚 学んだこと**"),
    TagMapping("completed", "**🔧 完了した作業**"),
    TagMapping("next_steps", "**⏳ 残タスク**"),
    TagMapping("notes", "**📝 備考**"),
    TagMapping("analysis", "**📊 分析**"),
    TagMapping("metrics", "**📈 メトリクス**"),
    TagMapping("files_modified", "**📁 変更ファイル**"),
    TagMapping("files_updated", "**📁 更新ファイル**"),
    TagMapping("files", "**📁 関連ファイル**"),
    TagMapping("tags", "**🏷️ タグ**"),
    TagMapping("added", "**🆕 追加した機能**"),
    TagMapping("fixed", "**🔧 修正・改善**"),
    TagMapping("removed", "**🗑️ 削除**"),
    TagMapping("changed", "**✏️ 変更**"),
    TagMapping("details", "**📋 詳細**"),
    TagMapping("impact", "**💥 影響**")
  ]

  function OpenTag(m: TagMapping): (r: string) ensures r != [] { "<" + m.tag + ">" }
  function CloseTag(m: TagMapping): (r: string) ensures r != [] { "</" + m.tag + ">" }

  /** One inner line: trimmed, and marked "- " unless empty or already a dash item. */
  function BulletLine(line: string): string {
    var t := Trim(line, JavaScript);
    if t != "" && !StartsWith(t, "-") then "- " + t else t
  }

  /** `.map(BulletLine).filter(line => line)`. */
  function Bullets(lines: seq<string>): seq<string>
    decreases |lines|
  {
    if lines == [] then []
    else
      var b := BulletLine(lines[0]);
      (if b == "" then [] else [b]) + Bullets(lines[1..])
  }

  /** The trimmed inner lines that are not blank, in order. */
  function NonBlankLines(lines: seq<string>): seq<string>
    decreases |lines|
  {
    if lines == [] then []
    else
      var t := Trim(lines[0], JavaScript);
      (if t == "" then [] else [t]) + NonBlankLines(lines[1..])
  }

  /**
   * The k-th bullet is the k-th non-blank inner line, trimmed, and prefixed
   * with "- " unless it already starts with a dash; blank lines are dropped.
   */
  lemma {:induction false} BulletsMarkNonBlankLines(lines: seq<string>)
    ensures |Bullets(lines)| == |NonBlankLines(lines)|
    ensures forall k :: 0 <= k < |Bullets(lines)| ==>
      var t := NonBlankLines(lines)[k];
      t != [] && Bullets(lines)[k] == (if t[0] == '-' then t else "- " + t)
    ensures forall k :: 0 <= k < |Bullets(lines)| ==>
      Bullets(lines)[k] != [] && Bullets(lines)[k][0] == '-'
    decreases |lines|
  {
    if lines != [] {
      BulletsMarkNonBlankLines(lines[1..]);
    }
  }

  /** The replacement callback for one `<tag>inner</tag>` occurrence. */
  function Render(m: TagMapping, inner: string): (r: string)
    ensures m.heading == "" ==> IsTrimmed(r, JavaScript) && |r| <= |inner|
    ensures m.heading == "" ==> r == Trim(inner, JavaScript)
    ensures m.heading != "" ==> StartsWith(r, m.heading + "\n")
  {
    var t := Trim(inner, JavaScript);
    if m.heading == "" then t
    else m.heading + "\n" + Join(Bullets(Split(t, "\n")), "\n")
  }

  /**
   * With a heading, the rendering is the heading line followed by the
   * bullet lines of the trimmed inner text (BulletsMarkNonBlankLines says
   * what each is); with no bullet line, the heading and a bare line break.
   */
  lemma RenderedLines(m: TagMapping, inner: string)
    requires m.heading != "" && '\n' !in m.heading
    ensures var bullets := Bullets(Split(Trim(inner, JavaScript), "\n"));
      && (bullets == [] ==> Render(m, inner) == m.heading + "\n")
      && (bullets != [] ==> Split(Render(m, inner), "\n") == [m.heading] + bullets)
  {
    var t := Trim(inner, JavaScript);
    var lines := Split(t, "\n");
    var bullets := Bullets(lines);
    if bullets != [] {
      SplitPiecesLackSeparator(t, '\n');
      BulletsLackBreak(lines);
      var parts := [m.heading] + bullets;
      assert parts[1..] == bullets;
      SplitJoin(parts, '\n');
    }
  }

  /** Bullet lines made from lines without a line break have none either. */
  lemma {:induction false} BulletsLackBreak(lines: seq<string>)
    requires forall i :: 0 <= i < |lines| ==> '\n' !in lines[i]
    ensures forall k :: 0 <= k < |Bullets(lines)| ==> '\n' !in Bullets(lines)[k]
    decreases |lines|
  {
    if lines != [] {
      BulletsLackBreak(lines[1..]);
      TrimLacks(lines[0], '\n', JavaScript);
      var b := BulletLine(lines[0]);
      var rest := Bullets(lines[1..]);
      assert Bullets(lines) == (if b == "" then [] else [b]) + rest;
    }
  }

  /**
   * `text.replace(/<open>([\s\S]*?)<close>/g, render)` for literal delimiters:
   * every opening delimiter that has a closing one after it is replaced,
   * together with the first such closing delimiter, scanning left to right.
   */
  function ReplaceMatches(s: string, open: string, close: string, render: string -> string): string
    requires open != [] && close != []
    decreases |s|
  {
    match MatchSpan(s, open, close)
    case None => s
    case Some((i, j)) =>
      s[..i] + render(s[i + |open|..j]) + ReplaceMatches(s[j + |close|..], open, close, render)
  }

  /**
   * Where the first match lies: the first opening delimiter, and the first
   * closing delimiter after it (`[\s\S]*?` is lazy).
   */
  function MatchSpan(s: string, open: string, close: string): (r: Option<(nat, nat)>)
    requires open != [] && close != []
    ensures r.Some? ==> r.value.0 + |open| <= r.value.1 && r.value.1 + |close| <= |s|
  {
    match IndexOf(s, open, 0)
    case None => None
    case Some(i) =>
      match IndexOf(s, close, i + |open|)
      case None => None
      case Some(j) => Some((i, j))
  }

  /** The replacement for one tag of the table. */
  function ReplaceTag(s: string, m: TagMapping): string {
    ReplaceMatches(s, OpenTag(m), CloseTag(m), inner => Render(m, inner))
  }

  /** Text without an opening delimiter is left unchanged. */
  lemma ReplaceMatchesAbsent(s: string, open: string, close: string, render: string -> string)
    requires open != [] && close != []
    requires !Contains(s, open)
    ensures ReplaceMatches(s, open, close, render) == s
  {
    match IndexOf(s, open, 0)
    case None =>
    case Some(_) => assert false;
  }

  /**
   * The first complete match is rendered; the text before it is kept
   * verbatim and the scan resumes after the closing delimiter. The closing
   * delimiter's last character must not occur earlier in it (true of every
   * `</tag>` whose name has no '>').
   */
  lemma {:induction false} ReplaceMatchesFirst(open: string, close: string, render: string -> string,
                                               before: string, inner: string, after: string)
    requires open != [] && close != []
    requires close[|close| - 1] !in close[..|close| - 1]
    requires !Contains(before + open[..|open| - 1], open)
    requires !Contains(inner, close)
    ensures ReplaceMatches(before + open + inner + close + after, open, close, render)
      == before + render(inner) + ReplaceMatches(after, open, close, render)
  {
    var s := before + open + inner + close + after;
    var i := |before|;
    var j := i + |open| + |inner|;
    assert s[..i] == before;
    assert s[i + |open|..j] == inner;
    assert s[j + |close|..] == after;
    assert MatchSpan(s, open, close) == Some((i, j)) by {
      MatchSpanOfFirst(open, close, before, inner, after);
    }
    ReplaceMatchesStep(s, open, close, render, i, j);
  }

  lemma MatchSpanOfFirst(open: string, close: string, before: string, inner: string, after: string)
    requires open != [] && close != []
    requires close[|close| - 1] !in close[..|close| - 1]
    requires !Contains(before + open[..|open| - 1], open)
    requires !Contains(inner, close)
    ensures MatchSpan(before + open + inner + close + after, open, close)
      == Some((|before|, |before| + |open| + |inner|))
  {
    var s := before + open + inner + close + after;
    var i := |before|;
    var j := i + |open| + |inner|;
    assert s[..i + |open| - 1] == before + open[..|open| - 1];
    assert s[i..i + |open|] == open;
    assert s[i + |open|..j] == inner;
    assert s[j..j + |close|] == close;
    assert MatchSpan(s, open, close) == Some((i, j)) by {
      FirstOpenAt(s, open, i);
      FirstCloseAt(s, close, i + |open|, j);
      MatchSpanOf(s, open, close, i, j);
    }
  }

  lemma MatchSpanOf(s: string, open: string, close: string, i: nat, j: nat)
    requires open != [] && close != []
    requires IndexOf(s, open, 0) == Some(i) && IndexOf(s, close, i + |open|) == Some(j)
    ensures MatchSpan(s, open, close) == Some((i, j))
  {
  }

  lemma {:induction false} ReplaceMatchesStep(s: string, open: string, close: string,
                                              render: string -> string, i: nat, j: nat)
    requires open != [] && close != []
    requires MatchSpan(s, open, close) == Some((i, j))
    ensures ReplaceMatches(s, open, close, render)
      == s[..i] + render(s[i + |open|..j]) + ReplaceMatches(s[j + |close|..], open, close, render)
  {
  }

  /** The same for the tags of the table, rendered by Render. */
  lemma ReplaceTagFirstOccurrence(m: TagMapping, before: string, inner: string, after: string)
    requires '>' !in m.tag
    requires !Contains(before + OpenTag(m)[..|OpenTag(m)| - 1], OpenTag(m))
    requires !Contains(inner, CloseTag(m))
    ensures ReplaceTag(before + OpenTag(m) + inner + CloseTag(m) + after, m)
      == before + Render(m, inner) + ReplaceTag(after, m)
  {
    var c := CloseTag(m);
    forall p | 0 <= p < |c| - 1 ensures c[p] != '>' {
      if p >= 2 {
        assert c[p] == m.tag[p - 2];
      }
    }
    ReplaceMatchesFirst(OpenTag(m), c, inner => Render(m, inner), before, inner, after);
  }

  /** An occurrence of `o` at i with none ending before it is the first one. */
  lemma FirstOpenAt(s: string, o: string, i: nat)
    requires o != [] && OccursAt(s, o, i)
    requires !Contains(s[..i + |o| - 1], o)
    ensures IndexOf(s, o, 0) == Some(i)
  {
    var t := s[..i + |o| - 1];
    forall k: nat | k < i ensures !OccursAt(s, o, k) {
      OccursAtPrefix(s, t, o, k);
    }
    IndexOfFirst(s, o, 0, i);
  }

  /**
   * An occurrence of `c` at j with none inside s[from..j] is the first one
   * from `from` on, when the last character of `c` occurs only at its end.
   */
  lemma FirstCloseAt(s: string, c: string, from: nat, j: nat)
    requires c != [] && c[|c| - 1] !in c[..|c| - 1]
    requires from <= j && OccursAt(s, c, j)
    requires !Contains(s[from..j], c)
    ensures IndexOf(s, c, from) == Some(j)
  {
    forall k: nat | from <= k < j ensures !OccursAt(s, c, k) {
      if k + |c| <= j {
        CloseNotInside(s, c, from, j, k);
      } else {
        CloseNotAcross(s, c, j, k);
      }
    }
    IndexOfFirst(s, c, from, j);
  }

  lemma CloseNotInside(s: string, c: string, from: nat, j: nat, k: nat)
    requires from <= k && k + |c| <= j <= |s|
    requires !Contains(s[from..j], c)
    ensures !OccursAt(s, c, k)
  {
    var inner := s[from..j];
    var m: nat := k - from;
    var t, u := s[k..k + |c|], inner[m..m + |c|];
    forall p | 0 <= p < |c| ensures t[p] == u[p] {
      assert inner[m + p] == s[k + p];
    }
    assert t == u;
    assert m <= |inner| && !OccursAt(inner, c, m);
  }

  /** An occurrence cannot overlap the start of the one at j. */
  lemma CloseNotAcross(s: string, c: string, j: nat, k: nat)
    requires c != [] && c[|c| - 1] !in c[..|c| - 1]
    requires OccursAt(s, c, j) && k < j < k + |c|
    ensures !OccursAt(s, c, k)
  {
    var p := k + |c| - 1 - j;
    assert s[j..j + |c|][p] == s[k + |c| - 1];
    assert c[..|c| - 1][p] == c[p];
    if k + |c| <= |s| {
      assert s[k..k + |c|][|c| - 1] == s[k + |c| - 1];
    }
  }

  /** The table applied in order (`for (const {tag, heading} of tagMappings)`). */
  function ApplyTable(s: string, table: seq<TagMapping>): string
    decreases |table|
  {
    if table == [] then s
    else ReplaceTag(ApplyTable(s, table[..|table| - 1]), table[|table| - 1])
  }

  // ------------------------------------------- step 4: strip leftover tags

  /** End index of a `<[^>]+>` match at the start of `s`. */
  function TagEnd(s: string): (r: Option<nat>)
    ensures r.Some? ==> 2 <= r.value < |s| && s[0] == '<' && s[1] != '>' && s[r.value] == '>'
    ensures r.Some? ==> '>' !in s[1..r.value]
    ensures r.None? && |s| >= 2 && s[0] == '<' && s[1] != '>' ==> '>' !in s[1..]
  {
    if |s| >= 2 && s[0] == '<' && s[1] != '>' then
      assert s[1..] == [s[1]] + s[2..];
      match IndexOfChar(s[2..], '>')
      case None => None
      case Some(k) =>
        assert s[1..k + 2] == [s[1]] + s[2..][..k];
        Some(k + 2)
    else None
  }

  /** `result.replace(/<[^>]+>/g, '')`. */
  function StripTags(s: string): (r: string)
    ensures forall c :: c in r ==> c in s
    ensures !HasTag(s) ==> r == s
    decreases |s|
  {
    if s == [] then []
    else match TagEnd(s)
      case Some(e) => StripTags(s[e + 1..])
      case None => [s[0]] + StripTags(s[1..])
  }

  /** A `<[^>]+>` match starts somewhere in the text. */
  predicate HasTag(s: string)
    decreases |s|
  {
    s != [] && (TagEnd(s).Some? || HasTag(s[1..]))
  }

  /** Text that is TagFree has no match to strip. */
  lemma {:induction false} TagFreeHasNoTag(s: string)
    requires TagFree(s)
    ensures !HasTag(s)
    decreases |s|
  {
    if s != [] {
      TagEndBreaksTagFree(s);
      TagFreeTail(s);
      TagFreeHasNoTag(s[1..]);
    }
  }

  lemma TagEndBreaksTagFree(s: string)
    ensures TagEnd(s).Some? ==> !TagFree(s)
  {
    if TagEnd(s).Some? {
      var e := TagEnd(s).value;
      assert s[1..][e - 1] == '>';
    }
  }

  lemma TagFreeTail(s: string)
    requires s != []
    ensures TagFree(s) ==> TagFree(s[1..])
  {
    if TagFree(s) {
      TagFreeSlice(s, 1, |s|);
      assert s[1..|s|] == s[1..];
    }
  }

  /** Text without '<' is kept verbatim, and the scan goes on after it. */
  lemma {:induction false} StripTagsKeepsText(a: string, b: string)
    requires '<' !in a
    ensures StripTags(a + b) == a + StripTags(b)
    decreases |a|
  {
    if a == [] {
      assert a + b == b;
    } else {
      StripTagsKeepsText(a[1..], b);
      StripTagsKeepsTextStep(a, b);
    }
  }

  lemma StripTagsKeepsTextStep(a: string, b: string)
    requires a != [] && '<' !in a
    requires StripTags(a[1..] + b) == a[1..] + StripTags(b)
    ensures StripTags(a + b) == a + StripTags(b)
  {
    var t := a[1..] + b;
    ConsConcat(a, b);
    ConsConcat(a, StripTags(b));
    StripTagsKeepsChar(a[0], t);
  }


  lemma StripTagsKeepsChar(c: char, t: string)
    requires c != '<'
    ensures StripTags([c] + t) == [c] + StripTags(t)
  {
    var s := [c] + t;
    assert s[1..] == t;
    assert TagEnd(s) == None;
    assert StripTags(s) == [s[0]] + StripTags(s[1..]);
  }

  /** A `<…>` tag, with one or more characters other than '>' inside, is removed. */
  lemma StripTagsDropsTag(x: string, b: string)
    requires x != [] && '>' !in x
    ensures StripTags("<" + x + ">" + b) == StripTags(b)
  {
    var s := "<" + x + ">" + b;
    assert s[1] == x[0];
    assert s[2..] == x[1..] + ">" + b;
    IndexOfCharAfter(x[1..], '>', b);
    assert TagEnd(s) == Some(|x| + 1);
    assert s[|x| + 2..] == b;
  }

  lemma IndexOfCharAfter(x: string, c: char, b: string)
    requires c !in x
    ensures IndexOfChar(x + [c] + b, c) == Some(|x|)
    decreases |x|
  {
    if x != [] {
      assert (x + [c] + b)[1..] == x[1..] + [c] + b;
      IndexOfCharAfter(x[1..], c, b);
    }
  }

  /**
   * Every '<' is either directly followed by '>' or has no '>' after it;
   * equivalently no `<[^>]+>` match is left (TagFreeHasNoMatch).
   */
  predicate TagFree(s: string) {
    forall i :: 0 <= i < |s| && s[i] == '<' ==>
      (i + 1 < |s| && s[i + 1] == '>') || '>' !in s[i + 1..]
  }

  /** Some `<`, then one or more characters other than `>`, then `>`. */
  predicate HasTagMatch(s: string) {
    exists i, j :: 0 <= i && i + 1 < j < |s| && s[i] == '<' && s[j] == '>' && '>' !in s[i + 1..j]
  }

  lemma TagFreeHasNoMatch(s: string)
    requires TagFree(s)
    ensures !HasTagMatch(s)
  {
    forall i, j | 0 <= i && i + 1 < j < |s| && s[i] == '<' && s[j] == '>'
      ensures '>' in s[i + 1..j]
    {
      assert s[j] == s[i + 1..][j - i - 1];
      assert s[i + 1] == s[i + 1..j][0];
    }
  }

  lemma TagFreeCons(c: char, r: string)
    requires TagFree(r)
    requires c == '<' ==> (r != [] && r[0] == '>') || '>' !in r
    ensures TagFree([c] + r)
  {
    var s := [c] + r;
    forall i | 0 <= i < |s| && s[i] == '<'
      ensures (i + 1 < |s| && s[i + 1] == '>') || '>' !in s[i + 1..]
    {
      assert s[i + 1..] == r[i..];
      if i > 0 {
        assert s[i] == r[i - 1];
      }
    }
  }

  lemma TagFreeSlice(s: string, a: nat, b: nat)
    requires TagFree(s) && a <= b <= |s|
    ensures TagFree(s[a..b])
  {
    var t := s[a..b];
    forall i | 0 <= i < |t| && t[i] == '<'
      ensures (i + 1 < |t| && t[i + 1] == '>') || '>' !in t[i + 1..]
    {
      assert t[i] == s[a + i];
      assert t[i + 1..] == s[a + i + 1..b];
      assert s[a + i + 1..] == s[a + i + 1..b] + s[b..];
    }
  }

  lemma {:induction false} StripTagsIsTagFree(s: string)
    ensures TagFree(StripTags(s))
    decreases |s|
  {
    if s != [] {
      match TagEnd(s)
      case Some(e) =>
        StripTagsIsTagFree(s[e + 1..]);
        TagFreeDropped(s, e);
      case None =>
        StripTagsIsTagFree(s[1..]);
        TagFreeKeptChar(s);
    }
  }

  lemma TagFreeDropped(s: string, e: nat)
    requires s != [] && TagEnd(s) == Some(e)
    requires TagFree(StripTags(s[e + 1..]))
    ensures TagFree(StripTags(s))
  {
    assert StripTags(s) == StripTags(s[e + 1..]);
  }

  /** A character that starts no tag keeps the output free of tags. */
  lemma TagFreeKeptChar(s: string)
    requires s != [] && TagEnd(s).None?
    requires TagFree(StripTags(s[1..]))
    ensures TagFree(StripTags(s))
  {
    var r' := StripTags(s[1..]);
    assert StripTags(s) == [s[0]] + r';
    if s[0] == '<' && |s| >= 2 && s[1] == '>' {
      assert TagEnd(s[1..]) == None;
      assert r' == [s[1]] + StripTags(s[2..]) by { assert s[1..][1..] == s[2..]; }
    }
    TagFreeCons(s[0], r');
  }

  // ------------------------------------------ step 5: collapse blank lines

  function LeadingNewlines(s: string): (n: nat)
    ensures n <= |s|
    ensures forall i :: 0 <= i < n ==> s[i] == '\n'
    ensures n < |s| ==> s[n] != '\n'
    decreases |s|
  {
    if s != [] && s[0] == '\n' then 1 + LeadingNewlines(s[1..]) else 0
  }

  /** `result.replace(/\n{3,}/g, '\n\n')`. */
  function CollapseNewlines(s: string): (r: string)
    ensures forall c :: c in r ==> c in s
    ensures !HasTripleNewline(s) ==> r == s
    decreases |s|
  {
    if s == [] then []
    else
      var n := LeadingNewlines(s);
      if n >= 3 then "\n\n" + CollapseNewlines(s[n..])
      else [s[0]] + CollapseNewlines(s[1..])
  }

  /** Some run of three line feeds starts somewhere in the text. */
  predicate HasTripleNewline(s: string)
    decreases |s|
  {
    s != [] && ((|s| >= 3 && s[0] == '\n' && s[1] == '\n' && s[2] == '\n') || HasTripleNewline(s[1..]))
  }

  /** The two ways of saying that no three line feeds are adjacent agree. */
  lemma {:induction false} NoTripleHasNone(s: string)
    requires NoTripleNewline(s)
    ensures !HasTripleNewline(s)
    decreases |s|
  {
    if s != [] {
      NoTripleSlice(s, 1, |s|);
      assert s[1..|s|] == s[1..];
      NoTripleHasNone(s[1..]);
    }
  }

  /** Text without a line feed is kept verbatim, and the scan goes on after it. */
  lemma {:induction false} CollapseKeepsLine(a: string, b: string)
    requires '\n' !in a
    ensures CollapseNewlines(a + b) == a + CollapseNewlines(b)
    decreases |a|
  {
    if a == [] {
      assert a + b == b;
    } else {
      CollapseKeepsLine(a[1..], b);
      CollapseKeepsLineStep(a, b);
    }
  }

  lemma CollapseKeepsLineStep(a: string, b: string)
    requires a != [] && '\n' !in a
    requires CollapseNewlines(a[1..] + b) == a[1..] + CollapseNewlines(b)
    ensures CollapseNewlines(a + b) == a + CollapseNewlines(b)
  {
    var t := a[1..] + b;
    ConsConcat(a, b);
    ConsConcat(a, CollapseNewlines(b));
    CollapseKeepsChar(a[0], t);
  }


  /** A character that starts no run of three line feeds is kept. */
  lemma CollapseKeepsChar(c: char, t: string)
    requires c != '\n' || LeadingNewlines(t) < 2
    ensures CollapseNewlines([c] + t) == [c] + CollapseNewlines(t)
  {
    var s := [c] + t;
    assert s[1..] == t;
    if c == '\n' {
      LeadingCons(t);
    }
    assert LeadingNewlines(s) < 3;
    assert CollapseNewlines(s) == [s[0]] + CollapseNewlines(s[1..]);
  }

  lemma LeadingCons(t: string)
    ensures LeadingNewlines(['\n'] + t) == 1 + LeadingNewlines(t)
  {
    assert (['\n'] + t)[1..] == t;
  }

  /** A run of three or more line feeds becomes exactly two. */
  lemma CollapseRun(w: string, b: string)
    requires |w| >= 3 && forall i :: 0 <= i < |w| ==> w[i] == '\n'
    requires b == [] || b[0] != '\n'
    ensures CollapseNewlines(w + b) == "\n\n" + CollapseNewlines(b)
  {
    var s := w + b;
    RunLength(w, b);
    assert s[|w|..] == b;
  }

  /** The leading line feeds of `w + b` are exactly `w`. */
  lemma {:induction false} RunLength(w: string, b: string)
    requires forall i :: 0 <= i < |w| ==> w[i] == '\n'
    requires b == [] || b[0] != '\n'
    ensures LeadingNewlines(w + b) == |w|
    decreases |w|
  {
    if w == [] {
      assert w + b == b;
    } else {
      assert (w + b)[1..] == w[1..] + b;
      RunLength(w[1..], b);
    }
  }

  /** A run of at most two line feeds is kept. */
  lemma {:induction false} CollapseShortRun(w: string, b: string)
    requires |w| <= 2 && forall i :: 0 <= i < |w| ==> w[i] == '\n'
    requires b == [] || b[0] != '\n'
    ensures CollapseNewlines(w + b) == w + CollapseNewlines(b)
    decreases |w|
  {
    if w == [] {
      assert w + b == b;
    } else {
      CollapseShortRun(w[1..], b);
      CollapseShortRunStep(w, b);
    }
  }

  lemma CollapseShortRunStep(w: string, b: string)
    requires 1 <= |w| <= 2 && forall i :: 0 <= i < |w| ==> w[i] == '\n'
    requires b == [] || b[0] != '\n'
    requires CollapseNewlines(w[1..] + b) == w[1..] + CollapseNewlines(b)
    ensures CollapseNewlines(w + b) == w + CollapseNewlines(b)
  {
    var t := w[1..] + b;
    RunLength(w[1..], b);
    CollapseKeepsChar(w[0], t);
    ConsConcat(w, b);
    ConsConcat(w, CollapseNewlines(b));
  }

  /** No three consecutive line feeds. */
  predicate NoTripleNewline(s: string) {
    forall i :: 0 <= i && i + 2 < |s| ==> !(s[i] == '\n' && s[i + 1] == '\n' && s[i + 2] == '\n')
  }

  lemma {:induction false} CollapseLeading(s: string)
    ensures LeadingNewlines(CollapseNewlines(s)) ==
      (if LeadingNewlines(s) >= 3 then 2 else LeadingNewlines(s))
    decreases |s|
  {
    if s == [] {
    } else if LeadingNewlines(s) >= 3 {
      LeadingOfLongRun(s);
    } else if s[0] == '\n' {
      CollapseLeading(s[1..]);
      LeadingOfShortRun(s);
    } else {
      assert CollapseNewlines(s) == [s[0]] + CollapseNewlines(s[1..]);
    }
  }

  lemma LeadingOfLongRun(s: string)
    requires LeadingNewlines(s) >= 3
    ensures LeadingNewlines(CollapseNewlines(s)) == 2
  {
    var t := s[LeadingNewlines(s)..];
    var c := CollapseNewlines(t);
    assert CollapseNewlines(s) == "\n\n" + c;
    assert LeadingNewlines(c) == 0 by {
      if t != [] {
        assert c == [t[0]] + CollapseNewlines(t[1..]);
      }
    }
    var r := "\n\n" + c;
    assert r[1..] == "\n" + c;
    assert r[1..][1..] == c;
  }

  lemma LeadingOfShortRun(s: string)
    requires s != [] && s[0] == '\n' && LeadingNewlines(s) < 3
    requires LeadingNewlines(CollapseNewlines(s[1..])) == LeadingNewlines(s[1..])
    ensures LeadingNewlines(CollapseNewlines(s)) == LeadingNewlines(s)
  {
    var r := [s[0]] + CollapseNewlines(s[1..]);
    assert CollapseNewlines(s) == r;
    assert r[1..] == CollapseNewlines(s[1..]);
  }

  lemma NoTripleCons(c: char, r: string)
    requires NoTripleNewline(r)
    requires c == '\n' ==> LeadingNewlines(r) < 2
    ensures NoTripleNewline([c] + r)
  {
    var s := [c] + r;
    forall i | 0 <= i && i + 2 < |s|
      ensures !(s[i] == '\n' && s[i + 1] == '\n' && s[i + 2] == '\n')
    {
      if i > 0 {
        assert s[i] == r[i - 1] && s[i + 1] == r[i] && s[i + 2] == r[i + 1];
      } else if c == '\n' {
        assert s[1] == r[0] && s[2] == r[1];
      }
    }
  }

  lemma {:induction false} CollapseHasNoTriple(s: string)
    ensures NoTripleNewline(CollapseNewlines(s))
    decreases |s|
  {
    var n := LeadingNewlines(s);
    if s == [] {
    } else if n >= 3 {
      var t := s[n..];
      CollapseHasNoTriple(t);
      CollapseLeading(t);
      var x := CollapseNewlines(t);
      NoTripleCons('\n', x);
      NoTripleCons('\n', "\n" + x);
      assert "\n\n" + x == ['\n'] + (['\n'] + x);
    } else {
      CollapseHasNoTriple(s[1..]);
      CollapseLeading(s[1..]);
      NoTripleCons(s[0], CollapseNewlines(s[1..]));
    }
  }

  lemma {:induction false} CollapseKeepsTagFree(s: string)
    requires TagFree(s)
    ensures TagFree(CollapseNewlines(s))
    decreases |s|
  {
    var n := LeadingNewlines(s);
    if s == [] {
    } else if n >= 3 {
      var t := s[n..];
      TagFreeSlice(s, n, |s|);
      assert s[n..|s|] == t;
      CollapseKeepsTagFree(t);
      var x := CollapseNewlines(t);
      TagFreeCons('\n', x);
      TagFreeCons('\n', "\n" + x);
      assert "\n\n" + x == ['\n'] + (['\n'] + x);
    } else {
      TagFreeSlice(s, 1, |s|);
      assert s[1..|s|] == s[1..];
      CollapseKeepsTagFree(s[1..]);
      var x := CollapseNewlines(s[1..]);
      if s[0] == '<' {
        if |s| >= 2 && s[1] == '>' {
          assert LeadingNewlines(s[1..]) == 0;
          assert x == [s[1]] + CollapseNewlines(s[2..]) by { assert s[1..][1..] == s[2..]; }
        } else {
          assert '>' !in s[1..];
        }
      }
      TagFreeCons(s[0], x);
    }
  }

  lemma NoTripleSlice(s: string, a: nat, b: nat)
    requires NoTripleNewline(s) && a <= b <= |s|
    ensures NoTripleNewline(s[a..b])
  {
    var t := s[a..b];
    forall i | 0 <= i && i + 2 < |t|
      ensures !(t[i] == '\n' && t[i + 1] == '\n' && t[i + 2] == '\n')
    {
      assert t[i] == s[a + i] && t[i + 1] == s[a + i + 1] && t[i + 2] == s[a + i + 2];
    }
  }

  lemma NoTripleMeansNotContained(s: string)
    requires NoTripleNewline(s)
    ensures !Contains(s, "\n\n\n")
  {
    forall k: nat | k <= |s| ensures !OccursAt(s, "\n\n\n", k) {
      if k + 3 <= |s| {
        assert s[k..k + 3] == [s[k], s[k + 1], s[k + 2]];
      }
    }
  }

  // ------------------------------------------------------------ whole pass

  /** The normaliser as one expression, step by step in the source's order. */
  function CleanXml(content: string): string {
    var unfenced := RemoveFences(RemoveXmlFences(content));
    var mapped := ApplyTable(UnwrapSummary(unfenced), TagTable);
    Trim(CollapseNewlines(StripTags(mapped)), JavaScript)
  }

  /**
   * What the normaliser guarantees of every reply: the result is trimmed,
   * has no run of three line feeds, and no `<…>` tag is left in it.
   */
  lemma {:induction false} CleanXmlIsCanonical(content: string)
    ensures var r := CleanXml(content);
      IsTrimmed(r, JavaScript) && !Contains(r, "\n\n\n") && !HasTagMatch(r)
  {
    var mapped := ApplyTable(UnwrapSummary(RemoveFences(RemoveXmlFences(content))), TagTable);
    var stripped := StripTags(mapped);
    StripTagsIsTagFree(mapped);
    var collapsed := CollapseNewlines(stripped);
    CollapseHasNoTriple(stripped);
    CollapseKeepsTagFree(stripped);
    var r := Trim(collapsed, JavaScript);
    TrimIsSlice(collapsed, JavaScript);
    var a: nat, b: nat :| a <= b <= |collapsed| && r == collapsed[a..b];
    NoTripleSlice(collapsed, a, b);
    TagFreeSlice(collapsed, a, b);
    NoTripleMeansNotContained(r);
    TagFreeHasNoMatch(r);
  }

  /**
   * A reply with nothing to rewrite (no code fence, no `<…>` tag, no run of
   * three line feeds) comes out as the reply trimmed.
   */
  lemma PlainReplyIsTrimmed(content: string)
    requires !Contains(content, "```") && TagFree(content) && NoTripleNewline(content)
    ensures CleanXml(content) == Trim(content, JavaScript)
  {
    FenceFreeHasNoXmlFence(content);
    HasFenceIsContains(content);
    assert RemoveFences(RemoveXmlFences(content)) == content;
    TagFreeLacksTag(content, "<summary>");
    assert UnwrapSummary(content) == content;
    forall m | m in TagTable ensures !Contains(content, OpenTag(m)) {
      TagTableNames(m);
      OpenTagShape(m);
      TagFreeLacksTag(content, OpenTag(m));
    }
    ApplyTableUnchanged(content, TagTable);
    TagFreeHasNoTag(content);
    NoTripleHasNone(content);
  }

  lemma FenceFreeHasNoXmlFence(s: string)
    requires !Contains(s, "```")
    ensures NoXmlFence(s)
  {
    forall k | 0 <= k < |s| ensures !XmlFenceAt(s[k..]) {
      if k + 3 <= |s| {
        assert !OccursAt(s, "```", k);
        assert s[k..k + 3] == s[k..][..3];
      }
    }
  }

  /** Every name in the table starts with a lower-case letter. */
  lemma TagTableNames(m: TagMapping)
    requires m in TagTable
    ensures m.tag != [] && 'a' <= m.tag[0] <= 'z'
  {
    var k :| 0 <= k < |TagTable| && TagTable[k] == m;
    if k < 12 {
      TagNamesBelow(k);
    } else {
      TagNamesFrom(k);
    }
  }

  lemma TagNamesBelow(k: nat)
    requires k < 12
    ensures TagTable[k].tag != [] && 'a' <= TagTable[k].tag[0] <= 'z'
  {
  }

  lemma TagNamesFrom(k: nat)
    requires 12 <= k < |TagTable|
    ensures TagTable[k].tag != [] && 'a' <= TagTable[k].tag[0] <= 'z'
  {
  }

  /** An opening tag whose name does not start with '>' is a `<[^>]+>` match. */
  lemma OpenTagShape(m: TagMapping)
    requires m.tag != [] && m.tag[0] != '>'
    ensures |OpenTag(m)| >= 3 && OpenTag(m)[0] == '<' && OpenTag(m)[1] != '>'
    ensures OpenTag(m)[|OpenTag(m)| - 1] == '>'
  {
  }

  /** Tag-free text contains no `<…>` tag of any particular name. */
  lemma TagFreeLacksTag(s: string, t: string)
    requires TagFree(s)
    requires |t| >= 3 && t[0] == '<' && t[1] != '>' && t[|t| - 1] == '>'
    ensures !Contains(s, t)
  {
  }

  /** The table leaves text without any of its opening tags unchanged. */
  lemma {:induction false} ApplyTableUnchanged(s: string, table: seq<TagMapping>)
    requires forall m :: m in table ==> !Contains(s, OpenTag(m))
    ensures ApplyTable(s, table) == s
    decreases |table|
  {
    if table != [] {
      var m := table[|table| - 1];
      ApplyTableUnchanged(s, table[..|table| - 1]);
      ReplaceMatchesAbsent(s, OpenTag(m), CloseTag(m), inner => Render(m, inner));
    }
  }

  /**
   * The normaliser as the source writes it: the table is applied by a loop
   * that reassigns `result` once per mapping, in table order.
   */
  method CleanXmlTags(content: string) returns (result: string)
    ensures result == CleanXml(content)
    ensures IsTrimmed(result, JavaScript) && !Contains(result, "\n\n\n") && !HasTagMatch(result)
  {
    var c := RemoveXmlFences(content);
    c := RemoveFences(c);
    c := UnwrapSummary(c);
    result := ApplyMappings(c, TagTable);
    result := StripTags(result);
    result := CollapseNewlines(result);
    result := Trim(result, JavaScript);
    CleanXmlIsCanonical(content);
  }

  /** `for (const {tag, heading} of tagMappings) result = result.replace(…)`. */
  method ApplyMappings(s: string, table: seq<TagMapping>) returns (result: string)
    ensures result == ApplyTable(s, table)
  {
    result := s;
    for k := 0 to |table|
      invariant result == ApplyTable(s, table[..k])
    {
      assert table[..k + 1][..k] == table[..k];
      result := ReplaceTag(result, table[k]);
    }
    assert table[..|table|] == table;
  }
}
