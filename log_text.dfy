/**
 * The regular expressions the Python log scripts share, written out as
 * scanners over the text:
 *
 *  - the fenced code block `` ```(\w*)\n(.*?)``` `` under `re.DOTALL`,
 *    rewritten by `re.sub` with a replacement function;
 *  - `re.split(r'(^## .+$)', content, flags=re.MULTILINE)`, which cuts a
 *    log into the text before the first header, then header lines and the
 *    text that follows each;
 *  - `re.sub(r'\s+', ' ', body.strip())[:500]`, the key under which two
 *    section bodies count as similar.
 */
module LogText {
  import opened Strings

  // ------------------------------------------------------------ code fences

  const Fence := "```"

  /** `\w`, restricted to ASCII letters, digits and the underscore. */
  predicate IsWordChar(c: char) {
    ('a' <= c <= 'z') || ('A' <= c <= 'Z') || ('0' <= c <= '9') || c == '_'
  }

  /** End of the run of word characters starting at i: where greedy `\w*` stops. */
  function WordEnd(s: string, i: nat): (e: nat)
    requires i <= |s|
    ensures i <= e <= |s|
    ensures forall k :: i <= k < e ==> IsWordChar(s[k])
    ensures e < |s| ==> !IsWordChar(s[e])
    decreases |s| - i
  {
    if i < |s| && IsWordChar(s[i]) then WordEnd(s, i + 1) else i
  }

  /** One match of the code-block pattern: `s[start..end]`, its language tag and its body. */
  datatype CodeBlock = CodeBlock(start: nat, lang: string, body: string, end: nat)

  /**
   * The match of the code-block pattern that starts at p, if any. The tag
   * is all the word characters after the opening fence (a shorter tag would
   * leave a word character where the line break must be), and the lazy body
   * ends at the first closing fence after the line break.
   */
  function CodeBlockAt(s: string, p: nat): (r: Option<CodeBlock>)
    requires p <= |s|
    ensures r.Some? ==> var b := r.value;
      && b.start == p && p < b.end <= |s|
      && s[p..b.end] == Fence + b.lang + "\n" + b.body + Fence
      && (forall k :: 0 <= k < |b.lang| ==> IsWordChar(b.lang[k]))
      && !Contains(b.body, Fence)
    ensures r.None? && OccursAt(s, Fence, p) && WordEnd(s, p + 3) < |s| && s[WordEnd(s, p + 3)] == '\n'
      ==> forall k: nat :: WordEnd(s, p + 3) < k ==> !OccursAt(s, Fence, k)
  {
    if !OccursAt(s, Fence, p) then None
    else
      var q := WordEnd(s, p + 3);
      if q == |s| || s[q] != '\n' then None
      else match IndexOf(s, Fence, q + 1)
        case None => None
        case Some(j) =>
          MatchText(s, p, q, j);
          LazyBody(s, q + 1, j);
          Some(CodeBlock(p, s[p + 3..q], s[q + 1..j], j + 3))
  }

  lemma MatchText(s: string, p: nat, q: nat, j: nat)
    requires p + 3 <= q < j && j + 3 <= |s|
    requires OccursAt(s, Fence, p) && s[q] == '\n' && OccursAt(s, Fence, j)
    ensures s[p..j + 3] == Fence + s[p + 3..q] + "\n" + s[q + 1..j] + Fence
  {
    assert s[p..j + 3] == s[p..p + 3] + s[p + 3..q] + [s[q]] + s[q + 1..j] + s[j..j + 3];
  }

  /** The lazy body stops at the first closing fence, so it holds none. */
  lemma LazyBody(s: string, from: nat, j: nat)
    requires from <= j <= |s|
    requires forall k: nat :: from <= k < j ==> !OccursAt(s, Fence, k)
    ensures !Contains(s[from..j], Fence)
  {
    forall k: nat | k <= j - from ensures !OccursAt(s[from..j], Fence, k) {
      if k + |Fence| <= j - from {
        SliceOfSlice(s, from, j, k, k + |Fence|);
        assert !OccursAt(s, Fence, from + k);
      }
    }
  }

  /**
   * `re.sub(pattern, replace, s[from..], flags=re.DOTALL)`: at each position
   * the match found there is replaced by `render(whole, lang, body)` and the
   * scan resumes after it; elsewhere the character is copied.
   */
  function RewriteCodeBlocks(s: string, from: nat, render: (string, string, string) -> string): string
    requires from <= |s|
    decreases |s| - from
  {
    if from == |s| then ""
    else match CodeBlockAt(s, from)
      case Some(b) => render(s[from..b.end], b.lang, b.body) + RewriteCodeBlocks(s, b.end, render)
      case None => [s[from]] + RewriteCodeBlocks(s, from + 1, render)
  }

  /** The matches `re.sub` visits, in order. */
  function CodeBlocks(s: string, from: nat): (r: seq<CodeBlock>)
    requires from <= |s|
    ensures forall i :: 0 <= i < |r| ==> from <= r[i].start < r[i].end <= |s|
    decreases |s| - from
  {
    if from == |s| then []
    else match CodeBlockAt(s, from)
      case Some(b) => [b] + CodeBlocks(s, b.end)
      case None => CodeBlocks(s, from + 1)
  }

  /** `render` gives block b of s back unchanged. */
  predicate Keeps(render: (string, string, string) -> string, s: string, b: CodeBlock) {
    b.start <= b.end <= |s| && render(s[b.start..b.end], b.lang, b.body) == s[b.start..b.end]
  }

  /** A rewrite that gives every visited block back unchanged leaves the text unchanged. */
  lemma {:induction false} RewriteKeepsText(s: string, from: nat, render: (string, string, string) -> string)
    requires from <= |s|
    requires forall b :: b in CodeBlocks(s, from) ==> Keeps(render, s, b)
    ensures RewriteCodeBlocks(s, from, render) == s[from..]
    decreases |s| - from
  {
    if from < |s| {
      var next := NextFrom(s, from);
      LaterBlocks(s, from);
      RewriteKeepsText(s, next, render);
      KeptStep(s, from, render);
    }
  }

  /** Where the scan goes on after position `from`: past the match, or one character on. */
  function NextFrom(s: string, from: nat): (r: nat)
    requires from < |s|
    ensures from < r <= |s|
  {
    match CodeBlockAt(s, from)
    case Some(b) => b.end
    case None => from + 1
  }

  /** The matches after the next position are matches from `from` too. */
  lemma LaterBlocks(s: string, from: nat)
    requires from < |s|
    ensures forall b :: b in CodeBlocks(s, NextFrom(s, from)) ==> b in CodeBlocks(s, from)
  {
  }

  /** Rewriting from `from` gives the text back when rewriting from the next position does. */
  lemma KeptStep(s: string, from: nat, render: (string, string, string) -> string)
    requires from < |s|
    requires forall b :: b in CodeBlocks(s, from) ==> Keeps(render, s, b)
    requires RewriteCodeBlocks(s, NextFrom(s, from), render) == s[NextFrom(s, from)..]
    ensures RewriteCodeBlocks(s, from, render) == s[from..]
  {
    if CodeBlockAt(s, from).Some? {
      var b := CodeBlockAt(s, from).value;
      assert b in CodeBlocks(s, from);
      KeptBlockStep(s, from, render, b);
    } else {
      KeptCharStep(s, from, render);
    }
  }

  lemma KeptBlockStep(s: string, from: nat, render: (string, string, string) -> string, b: CodeBlock)
    requires from < |s| && CodeBlockAt(s, from) == Some(b) && Keeps(render, s, b)
    requires RewriteCodeBlocks(s, b.end, render) == s[b.end..]
    ensures RewriteCodeBlocks(s, from, render) == s[from..]
  {
    var rest := RewriteCodeBlocks(s, b.end, render);
    assert RewriteCodeBlocks(s, from, render) == render(s[from..b.end], b.lang, b.body) + rest;
    KeptMatch(s, b, render, rest);
  }

  lemma KeptCharStep(s: string, from: nat, render: (string, string, string) -> string)
    requires from < |s| && CodeBlockAt(s, from).None?
    requires RewriteCodeBlocks(s, from + 1, render) == s[from + 1..]
    ensures RewriteCodeBlocks(s, from, render) == s[from..]
  {
    assert RewriteCodeBlocks(s, from, render) == [s[from]] + RewriteCodeBlocks(s, from + 1, render);
    assert s[from..] == [s[from]] + s[from + 1..];
  }

  /** A block given back unchanged, followed by the rest given back unchanged. */
  lemma KeptMatch(s: string, b: CodeBlock, render: (string, string, string) -> string, rest: string)
    requires Keeps(render, s, b) && rest == s[b.end..]
    ensures render(s[b.start..b.end], b.lang, b.body) + rest == s[b.start..]
  {
    assert s[b.start..] == s[b.start..b.end] + s[b.end..];
  }

  /** The tag of a matched block is made of word characters only. */
  lemma LangHasNoBreak(content: string, b: CodeBlock)
    requires b in CodeBlocks(content, 0)
    ensures '\n' !in b.lang
  {
    BlocksAreMatches(content, 0, b);
    assert forall k :: 0 <= k < |b.lang| ==> IsWordChar(b.lang[k]);
  }

  /** Every block `re.sub` visits is a match of the pattern. */
  lemma {:induction false} BlocksAreMatches(s: string, from: nat, b: CodeBlock)
    requires from <= |s| && b in CodeBlocks(s, from)
    ensures b.start <= |s| && CodeBlockAt(s, b.start) == Some(b)
    decreases |s| - from
  {
    if from < |s| {
      match CodeBlockAt(s, from)
      case Some(b') =>
        if b != b' {
          BlocksAreMatches(s, b'.end, b);
        }
      case None =>
        BlocksAreMatches(s, from + 1, b);
    }
  }

  // ----------------------------------------------------------- header split

  /** `^## .+$` (multiline) matches the line that starts at p. */
  predicate HeaderAt(s: string, p: nat) {
    p + 4 <= |s| && (p == 0 || s[p - 1] == '\n')
    && s[p] == '#' && s[p + 1] == '#' && s[p + 2] == ' ' && s[p + 3] != '\n'
  }

  /** A whole header line as `re.split` captures it. */
  predicate IsHeaderLine(t: string) {
    |t| >= 4 && StartsWith(t, "## ") && forall k :: 0 <= k < |t| ==> t[k] != '\n'
  }

  /** A piece between two headers: empty, or starting with the line break that ends the header. */
  predicate IsBodyPiece(t: string) {
    t == [] || t[0] == '\n'
  }

  /** Where `$` matches first from p on: the next line break, or the end. */
  function LineEnd(s: string, p: nat): (e: nat)
    requires p <= |s|
    ensures p <= e <= |s|
    ensures forall k :: p <= k < e ==> s[k] != '\n'
    ensures e < |s| ==> s[e] == '\n'
    decreases |s| - p
  {
    if p == |s| || s[p] == '\n' then p else LineEnd(s, p + 1)
  }

  /** Leftmost header line at or after `from`. */
  function FirstHeader(s: string, from: nat): (r: Option<nat>)
    ensures r.Some? ==> from <= r.value && HeaderAt(s, r.value)
    ensures r.Some? ==> forall k: nat :: from <= k < r.value ==> !HeaderAt(s, k)
    ensures r.None? ==> forall k: nat :: from <= k ==> !HeaderAt(s, k)
    decreases |s| - from
  {
    if from + 4 > |s| then None
    else if HeaderAt(s, from) then Some(from)
    else FirstHeader(s, from + 1)
  }

  /** `re.split` of `s[from..]` with the header kept as a captured group. */
  function Pieces(s: string, from: nat): (r: seq<string>)
    requires from <= |s|
    ensures |r| % 2 == 1
    decreases |s| - from
  {
    match FirstHeader(s, from)
    case None => [s[from..]]
    case Some(p) =>
      var e := LineEnd(s, p + 3);
      [s[from..p], s[p..e]] + Pieces(s, e)
  }

  function SplitHeaders(s: string): seq<string> {
    Pieces(s, 0)
  }

  /** Joining the pieces back (`''.join`) gives the text: nothing is lost or moved. */
  lemma {:induction false} PiecesConcat(s: string, from: nat)
    requires from <= |s|
    ensures Concat(Pieces(s, from)) == s[from..]
    decreases |s| - from
  {
    match FirstHeader(s, from)
    case None =>
      assert Concat([s[from..]]) == s[from..] + Concat([]);
    case Some(p) =>
      var e := LineEnd(s, p + 3);
      PiecesConcat(s, e);
      ConcatPair(s[from..p], s[p..e], Pieces(s, e));
      SliceThree(s, from, p, e);
  }

  /**
   * Odd-numbered pieces are header lines; later even-numbered pieces are
   * empty or begin with a line break (so they never start with `## `).
   */
  predicate Alternates(r: seq<string>) {
    && (forall i :: 0 <= i < |r| && i % 2 == 1 ==> IsHeaderLine(r[i]))
    && (forall i :: 0 < i < |r| && i % 2 == 0 ==> IsBodyPiece(r[i]))
  }

  /** The pieces `re.split` returns alternate. */
  lemma {:induction false} PiecesAlternate(s: string, from: nat)
    requires from <= |s|
    ensures Alternates(Pieces(s, from))
    decreases |s| - from
  {
    match FirstHeader(s, from)
    case None =>
    case Some(p) =>
      var e := LineEnd(s, p + 3);
      PiecesAlternate(s, e);
      HeaderLine(s, p);
      FirstPieceIsBody(s, e);
      var r := Pieces(s, from);
      assert r == [s[from..p], s[p..e]] + Pieces(s, e);
      AlternatesCons(s[from..p], s[p..e], Pieces(s, e));
  }

  lemma AlternatesCons(a: string, h: string, rest: seq<string>)
    requires IsHeaderLine(h) && rest != [] && IsBodyPiece(rest[0]) && Alternates(rest)
    ensures Alternates([a, h] + rest)
  {
    var r := [a, h] + rest;
    forall i | 2 <= i < |r| ensures r[i] == rest[i - 2] { }
  }

  /** The captured header runs from p to the end of its line. */
  lemma HeaderLine(s: string, p: nat)
    requires HeaderAt(s, p)
    ensures IsHeaderLine(s[p..LineEnd(s, p + 3)])
  {
    var h := s[p..LineEnd(s, p + 3)];
    assert h[..3] == s[p..p + 3];
    forall k | 0 <= k < |h| ensures h[k] != '\n' {
      assert h[k] == s[p + k];
    }
  }

  /** What follows a header line starts with its line break. */
  lemma FirstPieceIsBody(s: string, from: nat)
    requires from <= |s|
    requires from == |s| || s[from] == '\n'
    ensures IsBodyPiece(Pieces(s, from)[0])
  {
  }

  // ---------------------------------------------------- whitespace squeeze

  /** `re.sub(r'\s+', ' ', s)`: each run of whitespace becomes one space. */
  function SqueezeSpace(s: string): (r: string)
    ensures |r| <= |s| && (r == [] <==> s == [])
    ensures r != [] ==> (r[0] == ' ' <==> IsSpace(s[0], Python))
    ensures forall i :: 0 <= i < |r| && IsSpace(r[i], Python) ==> r[i] == ' '
    ensures forall i :: 0 <= i < |r| - 1 && r[i] == ' ' ==> r[i + 1] != ' '
    ensures Unspaced(r, Python) == Unspaced(s, Python)
    decreases |s|
  {
    if s == [] then []
    else if IsSpace(s[0], Python) then
      var n := LeadingSpaces(s, Python);
      UnspacedSkip(s, n, Python);
      UnspacedCons(' ', SqueezeSpace(s[n..]), Python);
      [' '] + SqueezeSpace(s[n..])
    else
      UnspacedCons(s[0], SqueezeSpace(s[1..]), Python);
      UnspacedCons(s[0], s[1..], Python);
      assert [s[0]] + s[1..] == s;
      [s[0]] + SqueezeSpace(s[1..])
  }

  /**
   * A run of whitespace between two words becomes exactly one space, and
   * the text on either side is squeezed on its own.
   */
  lemma SqueezeRunBetween(x: string, w: string, y: string)
    requires x == [] || !IsSpace(x[|x| - 1], Python)
    requires w != [] && AllSpace(w, Python)
    requires y == [] || !IsSpace(y[0], Python)
    ensures SqueezeSpace(x + w + y) == SqueezeSpace(x) + " " + SqueezeSpace(y)
  {
    ConcatAssoc(x, w, y);
    SqueezeSplit(x, w + y);
    SqueezeRun(w, y);
    ConcatAssoc(SqueezeSpace(x), " ", SqueezeSpace(y));
  }

  /** A whole whitespace run at the front becomes one space. */
  lemma SqueezeRun(w: string, y: string)
    requires w != [] && AllSpace(w, Python)
    requires y == [] || !IsSpace(y[0], Python)
    ensures SqueezeSpace(w + y) == " " + SqueezeSpace(y)
  {
    var s := w + y;
    assert s[..|w|] == w;
    LeadingSpacesUnique(s, |w|, Python);
    assert s[|w|..] == y;
    SqueezeSpaceRun(s, |w|);
  }

  /** Text ending in a non-space squeezes independently of what follows it. */
  lemma {:induction false} SqueezeSplit(x: string, y: string)
    requires x == [] || !IsSpace(x[|x| - 1], Python)
    ensures SqueezeSpace(x + y) == SqueezeSpace(x) + SqueezeSpace(y)
    decreases |x|
  {
    if x == [] {
      assert x + y == y;
    } else if !IsSpace(x[0], Python) {
      SqueezeSplit(x[1..], y);
      SqueezeWordStep(x, y);
    } else {
      var n := RunBeforeWord(x);
      SqueezeSplit(x[n..], y);
      SqueezeRunStep(x, y, n);
    }
  }

  lemma SqueezeWordStep(x: string, y: string)
    requires x != [] && !IsSpace(x[0], Python)
    requires SqueezeSpace(x[1..] + y) == SqueezeSpace(x[1..]) + SqueezeSpace(y)
    ensures SqueezeSpace(x + y) == SqueezeSpace(x) + SqueezeSpace(y)
  {
    var s := x + y;
    var a, b := SqueezeSpace(x[1..]), SqueezeSpace(y);
    assert s[0] == x[0] && s[1..] == x[1..] + y;
    SqueezeWord(s);
    SqueezeWord(x);
    ConcatAssoc([x[0]], a, b);
  }

  /** A non-space character is copied. */
  lemma SqueezeWord(s: string)
    requires s != [] && !IsSpace(s[0], Python)
    ensures SqueezeSpace(s) == [s[0]] + SqueezeSpace(s[1..])
  {
  }

  /** The leading run of a text that ends in a non-space stops inside it. */
  lemma RunBeforeWord(x: string) returns (n: nat)
    requires x != [] && !IsSpace(x[|x| - 1], Python)
    ensures n == LeadingSpaces(x, Python) && n < |x|
  {
    n := LeadingSpaces(x, Python);
  }

  lemma SqueezeRunStep(x: string, y: string, n: nat)
    requires x != [] && IsSpace(x[0], Python)
    requires n == LeadingSpaces(x, Python) && n < |x|
    requires SqueezeSpace(x[n..] + y) == SqueezeSpace(x[n..]) + SqueezeSpace(y)
    ensures SqueezeSpace(x + y) == SqueezeSpace(x) + SqueezeSpace(y)
  {
    var s := x + y;
    var a, b := SqueezeSpace(x[n..]), SqueezeSpace(y);
    assert SqueezeSpace(s) == " " + (a + b) by {
      assert LeadingSpaces(s, Python) == n by {
        assert s[..n] == x[..n] && s[n] == x[n];
        LeadingSpacesUnique(s, n, Python);
      }
      assert s[n..] == x[n..] + y;
      SqueezeSpaceRun(s, n);
    }
    assert SqueezeSpace(x) == " " + a by {
      SqueezeSpaceRun(x, n);
    }
    ConcatAssoc(" ", a, b);
  }

  /** A leading whitespace run of length n becomes one space. */
  lemma SqueezeSpaceRun(s: string, n: nat)
    requires s != [] && IsSpace(s[0], Python) && n == LeadingSpaces(s, Python)
    ensures SqueezeSpace(s) == " " + SqueezeSpace(s[n..])
  {
  }

  /** `re.sub(r'\s+', ' ', body.strip())[:500]`. */
  function Normalized(body: string): (r: string)
    ensures |r| <= 500
  {
    var c := SqueezeSpace(Trim(body, Python));
    if |c| <= 500 then c else c[..500]
  }

  /** Only a body of whitespace has an empty key. */
  lemma NormalizedEmpty(body: string)
    ensures Normalized(body) == [] <==> AllSpace(body, Python)
  {
    if AllSpace(body, Python) {
      TrimOfAllSpace(body, Python);
    } else {
      TrimOfNotAllSpace(body, Python);
    }
  }
}
