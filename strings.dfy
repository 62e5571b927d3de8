/**
 * String primitives shared by the TypeScript services and the Python log
 * scripts: the two whitespace classes (JavaScript `trim`/`\s` and Python
 * `strip`/`\s`), prefix and substring search, split/join on a separator,
 * and decimal rendering of counts.
 */
module Strings {

  /** Whose notion of whitespace a trim or a `\s` uses. */
  datatype Flavor = JavaScript | Python

  /** `\s` / `String.prototype.trim` (JavaScript) and `str.isspace` (Python). */
  predicate IsSpace(c: char, f: Flavor) {
    || c == ' '
    || ('\t' <= c <= '\r')
    || c == '\U{00A0}' || c == '\U{1680}'
    || ('\U{2000}' <= c <= '\U{200A}')
    || c == '\U{2028}' || c == '\U{2029}' || c == '\U{202F}' || c == '\U{205F}'
    || c == '\U{3000}'
    || (f == JavaScript && c == '\U{FEFF}')
    || (f == Python && (('\U{001C}' <= c <= '\U{001F}') || c == '\U{0085}'))
  }

  predicate AllSpace(s: string, f: Flavor) {
    forall i :: 0 <= i < |s| ==> IsSpace(s[i], f)
  }

  /** The line terminators of JavaScript regular expressions (`.`, `^`, `$`). */
  predicate IsLineTerminator(c: char) {
    c == '\n' || c == '\r' || c == '\U{2028}' || c == '\U{2029}'
  }

  predicate StartsWith(s: string, prefix: string) {
    |prefix| <= |s| && s[..|prefix|] == prefix
  }

  predicate OccursAt(s: string, pat: string, k: nat) {
    k + |pat| <= |s| && s[k..k + |pat|] == pat
  }

  predicate Contains(s: string, pat: string) {
    exists k: nat :: k <= |s| && OccursAt(s, pat, k)
  }

  /** An occurrence in `[c] + r` is either at the front or inside `r`. */
  lemma ContainsCons(c: char, r: string, pat: string)
    requires !Contains(r, pat)
    requires !OccursAt([c] + r, pat, 0)
    ensures !Contains([c] + r, pat)
  {
    var s := [c] + r;
    forall k: nat | 1 <= k <= |s| && OccursAt(s, pat, k) ensures false {
      assert s[k..k + |pat|] == r[k - 1..k - 1 + |pat|];
      assert OccursAt(r, pat, k - 1);
    }
  }

  lemma SliceOfSlice(s: string, a: nat, b: nat, i: nat, j: nat)
    requires a <= b <= |s| && i <= j <= b - a
    ensures s[a..b][i..j] == s[a + i..a + j]
  {
    var t := s[a..b];
    forall m | 0 <= m < j - i ensures t[i..j][m] == s[a + i..a + j][m] {
      assert t[i..j][m] == t[i + m] == s[a + i + m];
    }
  }

  /** An occurrence in the middle part is an occurrence in the whole. */
  lemma ContainsInMiddle(a: string, b: string, c: string, pat: string, k: nat)
    requires OccursAt(b, pat, k)
    ensures Contains(a + b + c, pat)
  {
    var s := a + b + c;
    assert s[|a| + k..|a| + k + |pat|] == b[k..k + |pat|];
    assert OccursAt(s, pat, |a| + k);
  }

  /** An occurrence of an occurrence is an occurrence. */
  lemma ContainsTransitive(s: string, t: string, pat: string)
    requires Contains(s, t) && Contains(t, pat)
    ensures Contains(s, pat)
  {
    var i: nat :| i <= |s| && OccursAt(s, t, i);
    var j: nat :| j <= |t| && OccursAt(t, pat, j);
    forall m | 0 <= m < |pat| ensures s[i + j + m] == pat[m] {
      assert s[i + j + m] == s[i..i + |t|][j + m];
      assert t[j + m] == t[j..j + |pat|][m];
    }
    assert s[i + j..i + j + |pat|] == pat;
    assert OccursAt(s, pat, i + j);
  }

  // ---------------------------------------------------------------- trimming

  /** The text with every whitespace character removed, the rest in order. */
  function Unspaced(s: string, f: Flavor): string
    decreases |s|
  {
    if s == [] then [] else (if IsSpace(s[0], f) then [] else [s[0]]) + Unspaced(s[1..], f)
  }

  lemma UnspacedCons(c: char, x: string, f: Flavor)
    ensures Unspaced([c] + x, f) == (if IsSpace(c, f) then [] else [c]) + Unspaced(x, f)
  {
    assert ([c] + x)[1..] == x;
  }

  /** A whitespace prefix adds nothing to `Unspaced`. */
  lemma {:induction false} UnspacedSkip(s: string, n: nat, f: Flavor)
    requires n <= |s| && AllSpace(s[..n], f)
    ensures Unspaced(s, f) == Unspaced(s[n..], f)
    decreases n
  {
    if n > 0 {
      assert IsSpace(s[0], f) by { assert s[..n][0] == s[0]; }
      var t := s[1..][..n - 1];
      forall i | 0 <= i < |t| ensures IsSpace(t[i], f) {
        assert t[i] == s[..n][i + 1];
      }
      UnspacedSkip(s[1..], n - 1, f);
      assert s[1..][n - 1..] == s[n..];
    }
  }

  lemma ConcatAssoc<T>(a: seq<T>, b: seq<T>, c: seq<T>)
    ensures a + (b + c) == (a + b) + c
  {
  }

  lemma ConsConcat<T>(a: seq<T>, x: seq<T>)
    requires a != []
    ensures a + x == [a[0]] + (a[1..] + x)
  {
  }

  /** An occurrence in the tail is an occurrence in the whole. */
  lemma ContainsTail(s: string, pat: string)
    requires s != []
    ensures Contains(s[1..], pat) ==> Contains(s, pat)
  {
    if Contains(s[1..], pat) {
      var k: nat :| k <= |s[1..]| && OccursAt(s[1..], pat, k);
      assert s[k + 1..k + 1 + |pat|] == s[1..][k..k + |pat|];
      assert OccursAt(s, pat, k + 1);
    }
  }

  /** Whitespace in front of a text that starts with no whitespace is what trimStart drops. */
  lemma {:induction false} TrimStartOfSpace(w: string, b: string, f: Flavor)
    requires AllSpace(w, f) && (b == [] || !IsSpace(b[0], f))
    ensures TrimStart(w + b, f) == b
    decreases |w|
  {
    if w != [] {
      assert (w + b)[1..] == w[1..] + b;
      TrimStartOfSpace(w[1..], b, f);
    } else {
      assert w + b == b;
    }
  }

  /** Number of leading whitespace characters. */
  function LeadingSpaces(s: string, f: Flavor): (n: nat)
    ensures n <= |s|
    ensures AllSpace(s[..n], f)
    ensures n < |s| ==> !IsSpace(s[n], f)
    decreases |s|
  {
    if s != [] && IsSpace(s[0], f) then 1 + LeadingSpaces(s[1..], f) else 0
  }

  /** The length of the leading whitespace run is fixed by where the run stops. */
  lemma LeadingSpacesUnique(s: string, m: nat, f: Flavor)
    requires m <= |s| && AllSpace(s[..m], f) && (m < |s| ==> !IsSpace(s[m], f))
    ensures LeadingSpaces(s, f) == m
  {
  }

  /** `s.trimStart()` / `s.lstrip()`. */
  function TrimStart(s: string, f: Flavor): (r: string)
    ensures |r| <= |s| && r == s[|s| - |r|..]
    ensures r != [] ==> !IsSpace(r[0], f)
    ensures AllSpace(s[..|s| - |r|], f)
  {
    s[LeadingSpaces(s, f)..]
  }

  /** `s.trim()` (JavaScript) / `s.strip()` (Python). */
  function Trim(s: string, f: Flavor): (r: string)
    ensures IsTrimmed(r, f) && |r| <= |s|
    decreases |s|
  {
    if s != [] && IsSpace(s[0], f) then Trim(s[1..], f)
    else if s != [] && IsSpace(s[|s| - 1], f) then Trim(s[..|s| - 1], f)
    else s
  }

  /** Trimming adds no character. */
  lemma TrimLacks(s: string, c: char, f: Flavor)
    requires c !in s
    ensures c !in Trim(s, f)
  {
    TrimIsSlice(s, f);
    var a: nat, b: nat :| a <= b <= |s| && Trim(s, f) == s[a..b];
    forall k | 0 <= k < b - a ensures Trim(s, f)[k] != c {
      assert Trim(s, f)[k] == s[a + k];
    }
  }

  predicate IsTrimmed(s: string, f: Flavor) {
    s != [] ==> !IsSpace(s[0], f) && !IsSpace(s[|s| - 1], f)
  }

  /**
   * The trimmed text is a slice of the original with only whitespace cut
   * away on either side; with IsTrimmed this pins the slice down.
   */
  lemma {:induction false} TrimIsSlice(s: string, f: Flavor)
    ensures exists a: nat, b: nat ::
      (a <= b <= |s| && Trim(s, f) == s[a..b] && AllSpace(s[..a], f) && AllSpace(s[b..], f))
    decreases |s|
  {
    if s != [] && IsSpace(s[0], f) {
      var t := s[1..];
      TrimIsSlice(t, f);
      var a: nat, b: nat :|
        a <= b <= |t| && Trim(t, f) == t[a..b] && AllSpace(t[..a], f) && AllSpace(t[b..], f);
      SpaceSliceFront(s, a, b, f);
    } else if s != [] && IsSpace(s[|s| - 1], f) {
      var t := s[..|s| - 1];
      TrimIsSlice(t, f);
      var a: nat, b: nat :|
        a <= b <= |t| && Trim(t, f) == t[a..b] && AllSpace(t[..a], f) && AllSpace(t[b..], f);
      SpaceSliceBack(s, a, b, f);
    } else {
      assert Trim(s, f) == s[0..|s|];
    }
  }

  lemma SpaceSliceFront(s: string, a: nat, b: nat, f: Flavor)
    requires s != [] && IsSpace(s[0], f) && a <= b <= |s| - 1
    requires AllSpace(s[1..][..a], f) && AllSpace(s[1..][b..], f)
    ensures s[1..][a..b] == s[a + 1..b + 1]
    ensures AllSpace(s[..a + 1], f) && AllSpace(s[b + 1..], f)
  {
    assert s[..a + 1] == [s[0]] + s[1..][..a];
    assert s[b + 1..] == s[1..][b..];
  }

  lemma SpaceSliceBack(s: string, a: nat, b: nat, f: Flavor)
    requires s != [] && IsSpace(s[|s| - 1], f) && a <= b <= |s| - 1
    requires AllSpace(s[..|s| - 1][..a], f) && AllSpace(s[..|s| - 1][b..], f)
    ensures s[..|s| - 1][a..b] == s[a..b]
    ensures AllSpace(s[..a], f) && AllSpace(s[b..], f)
  {
    assert s[..a] == s[..|s| - 1][..a];
    assert s[b..] == s[..|s| - 1][b..] + [s[|s| - 1]];
  }

  lemma {:induction false} TrimOfAllSpace(s: string, f: Flavor)
    requires AllSpace(s, f)
    ensures Trim(s, f) == []
    decreases |s|
  {
    if s != [] {
      TrimOfAllSpace(s[1..], f);
    }
  }

  /** A text with a non-space character never trims to nothing. */
  lemma {:induction false} TrimOfNotAllSpace(s: string, f: Flavor)
    requires !AllSpace(s, f)
    ensures Trim(s, f) != []
    decreases |s|
  {
    var i :| 0 <= i < |s| && !IsSpace(s[i], f);
    if IsSpace(s[0], f) {
      assert s[1..][i - 1] == s[i];
      TrimOfNotAllSpace(s[1..], f);
    } else if IsSpace(s[|s| - 1], f) {
      assert s[..|s| - 1][i] == s[i];
      TrimOfNotAllSpace(s[..|s| - 1], f);
    }
  }

  /** Whitespace appended at the end never survives a trim. */
  lemma {:induction false} TrimIgnoresTrailingSpace(s: string, w: string, f: Flavor)
    requires AllSpace(w, f)
    ensures Trim(s + w, f) == Trim(s, f)
    decreases |s| + |w|
  {
    if s == [] {
      assert s + w == w;
      TrimOfAllSpace(w, f);
    } else if IsSpace(s[0], f) {
      assert (s + w)[1..] == s[1..] + w;
      TrimIgnoresTrailingSpace(s[1..], w, f);
    } else if w != [] {
      var w' := w[..|w| - 1];
      assert (s + w)[..|s + w| - 1] == s + w';
      assert (s + w)[|s + w| - 1] == w[|w| - 1];
      TrimIgnoresTrailingSpace(s, w', f);
    } else {
      assert s + w == s;
    }
  }

  // ------------------------------------------------------------------ search

  /** First index `k >= from` at which `pat` occurs in `s`. */
  function IndexOf(s: string, pat: string, from: nat): (r: Option<nat>)
    requires pat != []
    ensures r.Some? ==> from <= r.value && OccursAt(s, pat, r.value)
    ensures r.Some? ==> forall k: nat :: from <= k < r.value ==> !OccursAt(s, pat, k)
    ensures r.None? ==> forall k: nat :: from <= k ==> !OccursAt(s, pat, k)
    decreases |s| - from
  {
    if from + |pat| > |s| then None
    else if OccursAt(s, pat, from) then Some(from)
    else IndexOf(s, pat, from + 1)
  }

  /** An occurrence with none before it (from `from` on) is what `IndexOf` finds. */
  lemma IndexOfFirst(s: string, pat: string, from: nat, i: nat)
    requires pat != [] && from <= i && OccursAt(s, pat, i)
    requires forall k: nat :: from <= k < i ==> !OccursAt(s, pat, k)
    ensures IndexOf(s, pat, from) == Some(i)
    decreases i - from
  {
    if from < i {
      IndexOfFirst(s, pat, from + 1, i);
    }
  }

  /** Nothing before the first occurrence found from `from` on is an occurrence. */
  lemma IndexOfGap(s: string, pat: string, from: nat, j: nat)
    requires pat != [] && IndexOf(s, pat, from) == Some(j)
    ensures !Contains(s[from..j], pat)
  {
    var r := s[from..j];
    forall k: nat | k <= |r| ensures !OccursAt(r, pat, k) {
      if k + |pat| <= |r| {
        var m: nat := from + k;
        assert m < j && !OccursAt(s, pat, m);
        assert s[m..m + |pat|] == r[k..k + |pat|];
      }
    }
  }

  /** Occurrences that end inside a prefix are the prefix's own occurrences. */
  lemma OccursAtPrefix(s: string, t: string, pat: string, k: nat)
    requires |t| <= |s| && t == s[..|t|] && k + |pat| <= |t|
    ensures OccursAt(s, pat, k) == OccursAt(t, pat, k)
  {
    assert s[k..k + |pat|] == t[k..k + |pat|];
  }

  /** First index of a character, `-1` in the source when absent. */
  function IndexOfChar(s: string, c: char): (r: Option<nat>)
    ensures r.Some? ==> r.value < |s| && s[r.value] == c && c !in s[..r.value]
    ensures r.None? ==> c !in s
    decreases |s|
  {
    if s == [] then None
    else if s[0] == c then Some(0)
    else match IndexOfChar(s[1..], c)
      case None => None
      case Some(k) => assert s[..k + 1] == [s[0]] + s[1..][..k]; Some(k + 1)
  }

  /** Last index below k at which `pat` occurs: Python's `rfind` with k = `len(s)`. */
  function LastIndexOf(s: string, pat: string, k: nat): (r: Option<nat>)
    requires pat != []
    ensures r.Some? ==> r.value < k && OccursAt(s, pat, r.value)
    ensures r.Some? ==> forall j: nat :: r.value < j < k ==> !OccursAt(s, pat, j)
    ensures r.None? ==> forall j: nat :: j < k ==> !OccursAt(s, pat, j)
    decreases k
  {
    if k == 0 then None
    else if OccursAt(s, pat, k - 1) then Some(k - 1)
    else LastIndexOf(s, pat, k - 1)
  }

  // ----------------------------------------------------------- split / join

  /** `s.split(sep)` in both languages, for a non-empty separator. */
  function Split(s: string, sep: string): (r: seq<string>)
    requires sep != []
    ensures |r| >= 1
    decreases |s|
  {
    if StartsWith(s, sep) then [""] + Split(s[|sep|..], sep)
    else if s == [] then [""]
    else var rest := Split(s[1..], sep); [[s[0]] + rest[0]] + rest[1..]
  }

  /** `sep.join(parts)` / `parts.join(sep)`. */
  function Join(parts: seq<string>, sep: string): string
    decreases |parts|
  {
    if parts == [] then ""
    else if |parts| == 1 then parts[0]
    else parts[0] + sep + Join(parts[1..], sep)
  }

  /** `''.join(parts)`. */
  function Concat(parts: seq<string>): string
    decreases |parts|
  {
    if parts == [] then "" else parts[0] + Concat(parts[1..])
  }

  lemma {:induction false} JoinSplit(s: string, sep: string)
    requires sep != []
    ensures Join(Split(s, sep), sep) == s
    decreases |s|
  {
    if StartsWith(s, sep) {
      JoinSplit(s[|sep|..], sep);
      JoinEmptyHead(Split(s[|sep|..], sep), sep);
      assert s == s[..|sep|] + s[|sep|..];
    } else if s != [] {
      JoinSplit(s[1..], sep);
      JoinGrowHead(s[0], Split(s[1..], sep), sep);
      assert s == [s[0]] + s[1..];
    }
  }

  lemma JoinEmptyHead(rest: seq<string>, sep: string)
    requires rest != []
    ensures Join([""] + rest, sep) == sep + Join(rest, sep)
  {
    assert ([""] + rest)[1..] == rest;
  }

  lemma JoinGrowHead(c: char, rest: seq<string>, sep: string)
    requires rest != []
    ensures Join([[c] + rest[0]] + rest[1..], sep) == [c] + Join(rest, sep)
  {
    var r := [[c] + rest[0]] + rest[1..];
    if |rest| >= 2 {
      assert r[1..] == rest[1..];
    }
  }

  /** Joining two non-empty lists is joining each and putting the separator between. */
  lemma {:induction false} JoinConcat(a: seq<string>, b: seq<string>, sep: string)
    requires a != [] && b != []
    ensures Join(a + b, sep) == Join(a, sep) + sep + Join(b, sep)
    decreases |a|
  {
    if |a| == 1 {
      assert (a + b)[1..] == b;
    } else {
      assert (a + b)[1..] == a[1..] + b;
      JoinConcat(a[1..], b, sep);
    }
  }

  /** Moving a finished part of the output to the front of the list. */
  lemma Regroup<T>(r: seq<T>, x: seq<T>, y: seq<T>, tail: seq<T>)
    ensures r + x + tail == r + (x + tail)
    ensures r + x + y + tail == r + (x + y + tail)
  {
  }

  /** Two parts in front of a list, concatenated. */
  lemma ConcatPair(a: string, b: string, tail: seq<string>)
    ensures Concat([a, b] + tail) == a + b + Concat(tail)
  {
    assert ([a, b] + tail)[1..] == [b] + tail;
    assert ([b] + tail)[1..] == tail;
  }

  /** A slice cut at two inner positions. */
  lemma SliceThree(s: string, a: nat, b: nat, c: nat)
    requires a <= b <= c <= |s|
    ensures s[a..] == s[a..b] + s[b..c] + s[c..]
  {
  }

  lemma ConcatAppend(a: seq<string>, b: seq<string>)
    ensures Concat(a + b) == Concat(a) + Concat(b)
    decreases |a|
  {
    if a != [] {
      assert (a + b)[1..] == a[1..] + b;
      ConcatAppend(a[1..], b);
      calc {
        Concat(a + b);
        { assert a + b != []; }
        (a + b)[0] + Concat((a + b)[1..]);
        { assert (a + b)[0] == a[0]; }
        a[0] + (Concat(a[1..]) + Concat(b));
        (a[0] + Concat(a[1..])) + Concat(b);
      }
    } else {
      assert a + b == b;
    }
  }

  lemma JoinAppendOne(a: seq<string>, x: string, sep: string)
    ensures Join(a + [x], sep) == if a == [] then x else Join(a, sep) + sep + x
    decreases |a|
  {
    if |a| >= 2 {
      assert (a + [x])[1..] == a[1..] + [x];
      JoinAppendOne(a[1..], x, sep);
    } else if |a| == 1 {
      assert (a + [x])[1..] == [x];
    }
  }

  lemma ConcatAppendOne(a: seq<string>, x: string)
    ensures Concat(a + [x]) == Concat(a) + x
  {
    ConcatAppend(a, [x]);
  }

  /** A separator character after a piece without it starts the next piece. */
  lemma {:induction false} SplitAtFirst(x: string, c: char, y: string)
    requires c !in x
    ensures Split(x + [c] + y, [c]) == [x] + Split(y, [c])
    decreases |x|
  {
    var s := x + [c] + y;
    if x == [] {
      assert s[..1] == [c] && s[1..] == y;
    } else {
      assert s[..1] == [x[0]] && s[1..] == x[1..] + [c] + y;
      SplitAtFirst(x[1..], c, y);
      assert [x[0]] + x[1..] == x;
    }
  }

  /** A text without the separator character is one piece. */
  lemma {:induction false} SplitWithout(x: string, c: char)
    requires c !in x
    ensures Split(x, [c]) == [x]
    decreases |x|
  {
    if x != [] {
      assert x[..1] == [x[0]];
      SplitWithout(x[1..], c);
      assert [x[0]] + x[1..] == x;
    }
  }

  /** Joining pieces free of the separator character, then splitting, gives them back. */
  lemma {:induction false} SplitJoin(parts: seq<string>, c: char)
    requires parts != []
    requires forall i :: 0 <= i < |parts| ==> c !in parts[i]
    ensures Split(Join(parts, [c]), [c]) == parts
    decreases |parts|
  {
    if |parts| == 1 {
      SplitWithout(parts[0], c);
    } else {
      SplitJoin(parts[1..], c);
      SplitAtFirst(parts[0], c, Join(parts[1..], [c]));
      assert [parts[0]] + parts[1..] == parts;
    }
  }

  /** The pieces of a split never contain a one-character separator. */
  lemma {:induction false} SplitPiecesLackSeparator(s: string, c: char)
    ensures forall i :: 0 <= i < |Split(s, [c])| ==> c !in Split(s, [c])[i]
    decreases |s|
  {
    if StartsWith(s, [c]) {
      SplitPiecesLackSeparator(s[1..], c);
      var rest := Split(s[1..], [c]);
      assert Split(s, [c]) == [""] + rest;
      forall i | 1 <= i < |Split(s, [c])| ensures c !in Split(s, [c])[i] {
        assert Split(s, [c])[i] == rest[i - 1];
      }
    } else if s != [] {
      SplitPiecesLackSeparator(s[1..], c);
      var rest := Split(s[1..], [c]);
      assert s[..1] == [s[0]];
      assert s[0] != c;
      assert Split(s, [c]) == [[s[0]] + rest[0]] + rest[1..];
      forall i | 1 <= i < |Split(s, [c])| ensures c !in Split(s, [c])[i] {
        assert Split(s, [c])[i] == rest[i];
      }
    }
  }

  // ---------------------------------------------------------------- decimal

  function DigitChar(d: nat): (c: char)
    requires d < 10
    ensures '0' <= c <= '9'
  {
    "0123456789"[d]
  }

  /** `str(n)` / template-literal rendering of a non-negative integer. */
  function NatToString(n: nat): (r: string)
    ensures r != []
    ensures forall i :: 0 <= i < |r| ==> '0' <= r[i] <= '9'
    decreases n
  {
    if n < 10 then [DigitChar(n)] else NatToString(n / 10) + [DigitChar(n % 10)]
  }

  /** The number a string of decimal digits denotes. */
  function DigitsValue(s: string): nat
    requires forall i :: 0 <= i < |s| ==> '0' <= s[i] <= '9'
    decreases |s|
  {
    if s == [] then 0 else DigitsValue(s[..|s| - 1]) * 10 + (s[|s| - 1] as int - '0' as int)
  }

  function Pow10(n: nat): (r: nat)
    ensures r >= 1
  {
    if n == 0 then 1 else 10 * Pow10(n - 1)
  }

  lemma DigitCharValue(d: nat)
    requires d < 10
    ensures DigitChar(d) as int - '0' as int == d
  {
  }

  /** Rendering a number and reading the digits back gives the number. */
  lemma {:induction false} NatToStringValue(n: nat)
    ensures DigitsValue(NatToString(n)) == n
    decreases n
  {
    var r := NatToString(n);
    if n < 10 {
      DigitCharValue(n);
      assert r[..0] == [];
    } else {
      NatToStringValue(n / 10);
      DigitCharValue(n % 10);
      assert r[..|r| - 1] == NatToString(n / 10);
    }
  }

  /** Appending a digit multiplies the value by ten and adds the digit. */
  lemma DigitsValueSnoc(s: string, d: nat)
    requires d < 10 && forall i :: 0 <= i < |s| ==> '0' <= s[i] <= '9'
    ensures DigitsValue(s + [DigitChar(d)]) == DigitsValue(s) * 10 + d
  {
    var t := s + [DigitChar(d)];
    assert t[..|t| - 1] == s;
    DigitCharValue(d);
  }

  lemma ThreeDigits(n: nat)
    requires n < 1000
    ensures (n / 100 * 10 + n / 10 % 10) * 10 + n % 10 == n
  {
    assert n / 10 == n / 100 * 10 + n / 10 % 10;
    assert n == n / 10 * 10 + n % 10;
  }

  /** The three padded digits read back as the number. */
  lemma Pad3Value(n: nat)
    requires n < 1000
    ensures |Pad3(n)| == 3 && DigitsValue(Pad3(n)) == n
  {
    var a, b, c := n / 100, n / 10 % 10, n % 10;
    DigitsValueSnoc([], a);
    DigitsValueSnoc([DigitChar(a)], b);
    DigitsValueSnoc([DigitChar(a), DigitChar(b)], c);
    ThreeDigits(n);
    assert [] + [DigitChar(a)] == [DigitChar(a)];
    assert [DigitChar(a)] + [DigitChar(b)] == [DigitChar(a), DigitChar(b)];
    assert [DigitChar(a), DigitChar(b)] + [DigitChar(c)] == Pad3(n);
  }


  /** Three digits with leading zeros. */
  function Pad3(n: nat): (r: string)
    requires n < 1000
  {
    [DigitChar(n / 100), DigitChar(n / 10 % 10), DigitChar(n % 10)]
  }

  /** Python's `f'{n:,}'`: decimal digits grouped by thousands with commas. */
  function GroupedThousands(n: nat): (r: string)
    ensures r != []
    decreases n
  {
    if n < 1000 then NatToString(n) else GroupedThousands(n / 1000) + "," + Pad3(n % 1000)
  }

  datatype Option<+T> = None | Some(value: T)
}
