/** String primitives of the Python runtime that the chunking pipeline leans on:
    whitespace, `str.split()`, `str.strip()`, `str.lower()`, `str.join`,
    `str.splitlines(keepends=True)` and list slicing from the end. */
module Text {

  /** Python's `str.isspace()` for one character: the separators of `split()`
      and the characters `strip()` removes. */
  predicate IsSpace(c: char) {
    || c == ' '
    || ('\t' <= c <= '\r')
    || ('\U{1C}' <= c <= '\U{1F}')
    || c == '\U{85}'
    || c == '\U{A0}'
    || c == '\U{1680}'
    || ('\U{2000}' <= c <= '\U{200A}')
    || c == '\U{2028}'
    || c == '\U{2029}'
    || c == '\U{202F}'
    || c == '\U{205F}'
    || c == '\U{3000}'
  }

  /** A word as `split()` returns it: non-empty, no whitespace inside. */
  predicate IsWord(w: string) {
    |w| > 0 && forall i :: 0 <= i < |w| ==> !IsSpace(w[i])
  }

  /** Length of the longest whitespace-free prefix of `s`. */
  function WordLen(s: string): (n: nat)
    ensures n <= |s|
    ensures forall i :: 0 <= i < n ==> !IsSpace(s[i])
    ensures n < |s| ==> IsSpace(s[n])
  {
    if |s| == 0 || IsSpace(s[0]) then 0 else 1 + WordLen(s[1..])
  }

  /** Python's `s.split()` with no separator: the maximal whitespace-free runs, in order. */
  function Words(s: string): (ws: seq<string>)
    ensures forall i :: 0 <= i < |ws| ==> IsWord(ws[i])
    decreases |s|
  {
    if |s| == 0 then []
    else if IsSpace(s[0]) then Words(s[1..])
    else
      var n := WordLen(s);
      [s[..n]] + Words(s[n..])
  }

  /** `len(s.split())`. */
  function WordCount(s: string): nat {
    |Words(s)|
  }

  /** The source's running total: the sum of the word counts of a list of fragments. */
  function WordTotal(xs: seq<string>): nat {
    if |xs| == 0 then 0 else WordTotal(xs[..|xs| - 1]) + WordCount(xs[|xs| - 1])
  }

  /** Python's `sep.join(parts)`. */
  function JoinSep(sep: string, parts: seq<string>): string {
    if |parts| == 0 then ""
    else if |parts| == 1 then parts[0]
    else parts[0] + sep + JoinSep(sep, parts[1..])
  }

  /** Python's `"".join(parts)`. */
  function Concat(parts: seq<string>): string {
    if |parts| == 0 then "" else parts[0] + Concat(parts[1..])
  }

  function Flatten<T>(xss: seq<seq<T>>): seq<T> {
    if |xss| == 0 then [] else xss[0] + Flatten(xss[1..])
  }

  /** Python's `xs[-k:]` for `k > 0`: the last `min(k, len(xs))` elements. */
  function LastN<T>(xs: seq<T>, k: nat): (r: seq<T>)
    requires k > 0
    ensures |r| == if k < |xs| then k else |xs|
    ensures xs == xs[..|xs| - |r|] + r
  {
    if k >= |xs| then xs else xs[|xs| - k..]
  }

  /** Python's `s.lstrip()`. */
  function TrimStart(s: string): string {
    if |s| > 0 && IsSpace(s[0]) then TrimStart(s[1..]) else s
  }

  /** Python's `s.rstrip()`. */
  function TrimEnd(s: string): string {
    if |s| > 0 && IsSpace(s[|s| - 1]) then TrimEnd(s[..|s| - 1]) else s
  }

  /** Python's `s.strip()`. */
  function Strip(s: string): string {
    TrimEnd(TrimStart(s))
  }

  predicate IsBlank(s: string) {
    forall i :: 0 <= i < |s| ==> IsSpace(s[i])
  }

  /** `str.lower()` restricted to ASCII letters. */
  function LowerChar(c: char): char {
    if 'A' <= c <= 'Z' then (c as int + 32) as char else c
  }

  function Lower(s: string): string {
    seq(|s|, i requires 0 <= i < |s| => LowerChar(s[i]))
  }

  /** The line boundaries of Python's `str.splitlines()`. */
  predicate IsLineBreak(c: char) {
    || c == '\n' || c == '\r' || c == '\U{0B}' || c == '\U{0C}'
    || ('\U{1C}' <= c <= '\U{1E}') || c == '\U{85}'
    || c == '\U{2028}' || c == '\U{2029}'
  }

  /** Index of the first line-boundary character of `s`, or `|s|` if none. */
  function BreakIndex(s: string): (i: nat)
    ensures i <= |s|
    ensures forall j :: 0 <= j < i ==> !IsLineBreak(s[j])
    ensures i < |s| ==> IsLineBreak(s[i])
  {
    if |s| == 0 || IsLineBreak(s[0]) then 0 else 1 + BreakIndex(s[1..])
  }

  /** Length of the first line of a non-empty `s`, its terminator included
      (`"\r\n"` counts as one terminator). */
  function FirstLineLen(s: string): (n: nat)
    requires |s| > 0
    ensures 0 < n <= |s|
    ensures n < |s| ==> IsLineBreak(s[n - 1])
  {
    var i := BreakIndex(s);
    if i == |s| then |s|
    else if s[i] == '\r' && i + 1 < |s| && s[i + 1] == '\n' then i + 2
    else i + 1
  }

  /** Python's `s.splitlines(keepends=True)`: the lines, terminators kept. */
  function SplitLines(s: string): seq<string>
    decreases |s|
  {
    if |s| == 0 then []
    else
      var n := FirstLineLen(s);
      [s[..n]] + SplitLines(s[n..])
  }

  /** The lines concatenate back to `s`. */
  lemma {:induction false} SplitLinesConcat(s: string)
    ensures Concat(SplitLines(s)) == s
    decreases |s|
  {
    if |s| > 0 {
      var n := FirstLineLen(s);
      SplitLinesConcat(s[n..]);
      var lines := SplitLines(s);
      assert lines == [s[..n]] + SplitLines(s[n..]);
      assert lines[1..] == SplitLines(s[n..]);
      assert Concat(lines) == s[..n] + s[n..];
      assert s[..n] + s[n..] == s;
    }
  }

  /** No line is empty, and every line but the last ends in a line boundary. */
  lemma {:induction false} SplitLinesEnds(s: string)
    ensures forall k :: 0 <= k < |SplitLines(s)| ==> |SplitLines(s)[k]| > 0
    ensures forall k :: 0 <= k < |SplitLines(s)| - 1 ==> IsLineBreak(SplitLines(s)[k][|SplitLines(s)[k]| - 1])
    decreases |s|
  {
    if |s| > 0 {
      var n := FirstLineLen(s);
      var rest := SplitLines(s[n..]);
      SplitLinesEnds(s[n..]);
      var lines := SplitLines(s);
      assert lines == [s[..n]] + rest;
      assert forall k :: 1 <= k < |lines| ==> lines[k] == rest[k - 1];
      assert n == |s| ==> rest == [];
    }
  }

  /** The lines concatenate back to `s`, none is empty, and every line but the
      last ends in a line boundary. */
  lemma SplitLinesSpec(s: string)
    ensures Concat(SplitLines(s)) == s
    ensures forall k :: 0 <= k < |SplitLines(s)| ==> |SplitLines(s)[k]| > 0
    ensures forall k :: 0 <= k < |SplitLines(s)| - 1 ==> IsLineBreak(SplitLines(s)[k][|SplitLines(s)[k]| - 1])
  {
    SplitLinesConcat(s);
    SplitLinesEnds(s);
  }

  // ---------------------------------------------------------------------------
  // Facts about words, joins and stripping
  // ---------------------------------------------------------------------------

  /** A whitespace-free prefix followed by whitespace (or nothing) is the first word. */
  lemma WordLenOfPrefix(w: string, t: string)
    requires forall i :: 0 <= i < |w| ==> !IsSpace(w[i])
    requires |t| == 0 || IsSpace(t[0])
    ensures WordLen(w + t) == |w|
  {
    assert forall i :: 0 <= i < |w| ==> (w + t)[i] == w[i];
    if |t| > 0 {
      assert (w + t)[|w|] == t[0];
    }
  }

  lemma WordsOfWord(w: string)
    requires IsWord(w)
    ensures Words(w) == [w]
  {
    WordLenOfPrefix(w, "");
    assert w + "" == w;
    assert w[..|w|] == w;
    assert w[|w|..] == "";
  }

  /** Appending whitespace never changes `split()`. */
  lemma {:induction false} WordsAppendSpace(s: string, c: char)
    requires IsSpace(c)
    ensures Words(s + [c]) == Words(s)
    decreases |s|
  {
    if |s| == 0 {
      assert [c][1..] == "";
    } else if IsSpace(s[0]) {
      assert (s + [c])[1..] == s[1..] + [c];
      WordsAppendSpace(s[1..], c);
    } else {
      var n := WordLen(s);
      assert s + [c] == s[..n] + (s[n..] + [c]);
      WordLenOfPrefix(s[..n], s[n..] + [c]);
      assert (s + [c])[..n] == s[..n];
      assert (s + [c])[n..] == s[n..] + [c];
      WordsAppendSpace(s[n..], c);
    }
  }

  /** Splitting words joined by single spaces gives the words back. */
  lemma {:induction false} WordsOfJoin(ws: seq<string>)
    requires forall i :: 0 <= i < |ws| ==> IsWord(ws[i])
    ensures Words(JoinSep(" ", ws)) == ws
  {
    if |ws| == 0 {
    } else if |ws| == 1 {
      WordsOfWord(ws[0]);
    } else {
      var w := ws[0];
      var rest := JoinSep(" ", ws[1..]);
      var s := w + (" " + rest);
      assert JoinSep(" ", ws) == s;
      WordLenOfPrefix(w, " " + rest);
      assert s[..|w|] == w;
      assert s[|w|..] == " " + rest;
      assert (" " + rest)[1..] == rest;
      WordsOfJoin(ws[1..]);
      assert ws == [w] + ws[1..];
    }
  }

  /** A list of words has as many words in total as it has entries. */
  lemma {:induction false} WordTotalOfWords(ws: seq<string>)
    requires forall i :: 0 <= i < |ws| ==> IsWord(ws[i])
    ensures WordTotal(ws) == |ws|
  {
    if |ws| > 0 {
      WordTotalOfWords(ws[..|ws| - 1]);
      WordsOfWord(ws[|ws| - 1]);
    }
  }

  lemma WordTotalAppend(xs: seq<string>, x: string)
    ensures WordTotal(xs + [x]) == WordTotal(xs) + WordCount(x)
  {
    assert (xs + [x])[..|xs|] == xs;
  }

  lemma {:induction false} JoinNonEmpty(sep: string, parts: seq<string>)
    requires |parts| > 0 && |parts[0]| > 0
    ensures |JoinSep(sep, parts)| > 0
  {
  }

  /** `sep.join(a + b)` for non-empty `a` and `b`. */
  lemma {:induction false} JoinAppend(sep: string, a: seq<string>, b: seq<string>)
    requires |a| > 0 && |b| > 0
    ensures JoinSep(sep, a + b) == JoinSep(sep, a) + sep + JoinSep(sep, b)
  {
    if |a| == 1 {
      assert (a + b)[1..] == b;
    } else {
      assert (a + b)[1..] == a[1..] + b;
      JoinAppend(sep, a[1..], b);
    }
  }

  lemma {:induction false} ConcatAppend(a: seq<string>, b: seq<string>)
    ensures Concat(a + b) == Concat(a) + Concat(b)
  {
    if |a| == 0 {
      assert a + b == b;
    } else {
      assert (a + b)[1..] == a[1..] + b;
      ConcatAppend(a[1..], b);
    }
  }

  lemma {:induction false} FlattenAppend<T>(a: seq<seq<T>>, b: seq<seq<T>>)
    ensures Flatten(a + b) == Flatten(a) + Flatten(b)
  {
    if |a| == 0 {
      assert a + b == b;
    } else {
      assert (a + b)[1..] == a[1..] + b;
      FlattenAppend(a[1..], b);
    }
  }

  /** `lstrip` drops exactly the leading whitespace. */
  lemma {:induction false} TrimStartSpec(s: string)
    ensures var r := TrimStart(s);
      && |r| <= |s| && r == s[|s| - |r|..]
      && (|r| > 0 ==> !IsSpace(r[0]))
      && forall i :: 0 <= i < |s| - |r| ==> IsSpace(s[i])
    decreases |s|
  {
    if |s| > 0 && IsSpace(s[0]) {
      TrimStartSpec(s[1..]);
    }
  }

  /** `rstrip` drops exactly the trailing whitespace. */
  lemma {:induction false} TrimEndSpec(s: string)
    ensures var r := TrimEnd(s);
      && |r| <= |s| && r == s[..|r|]
      && (|r| > 0 ==> !IsSpace(r[|r| - 1]))
      && forall i :: |r| <= i < |s| ==> IsSpace(s[i])
    decreases |s|
  {
    if |s| > 0 && IsSpace(s[|s| - 1]) {
      TrimEndSpec(s[..|s| - 1]);
    }
  }

  /** `strip()` yields the empty string exactly on whitespace-only input. */
  lemma StripBlank(s: string)
    ensures Strip(s) == "" <==> IsBlank(s)
  {
    var t := TrimStart(s);
    TrimStartSpec(s);
    TrimEndSpec(t);
    assert Strip(s) == TrimEnd(t);
  }

  /** A stripped string has nothing left to strip. */
  lemma StripIdempotent(s: string)
    ensures Strip(Strip(s)) == Strip(s)
  {
    var t := TrimStart(s);
    var r := TrimEnd(t);
    TrimStartSpec(s);
    TrimEndSpec(t);
    if |r| > 0 {
      assert r[0] == t[0];
      assert TrimStart(r) == r;
      assert TrimEnd(r) == r;
    }
  }

  /** Concatenating the pieces of a flattened list equals concatenating the
      concatenations of its parts. */
  lemma {:induction false} ConcatFlatten(xss: seq<seq<string>>, parts: seq<string>)
    requires |parts| == |xss|
    requires forall k :: 0 <= k < |xss| ==> parts[k] == Concat(xss[k])
    ensures Concat(Flatten(xss)) == Concat(parts)
  {
    if |xss| > 0 {
      ConcatFlatten(xss[1..], parts[1..]);
      ConcatAppend(xss[0], Flatten(xss[1..]));
    }
  }

  /** Joining a flattened list equals joining the joins of its parts, when no
      part is empty. */
  lemma {:induction false} JoinFlatten(sep: string, xss: seq<seq<string>>, parts: seq<string>)
    requires forall k :: 0 <= k < |xss| ==> |xss[k]| > 0
    requires |parts| == |xss|
    requires forall k :: 0 <= k < |xss| ==> parts[k] == JoinSep(sep, xss[k])
    ensures JoinSep(sep, Flatten(xss)) == JoinSep(sep, parts)
  {
    if |xss| == 1 {
      assert Flatten(xss) == xss[0] + [];
      assert xss[0] + [] == xss[0];
    } else if |xss| > 1 {
      JoinFlatten(sep, xss[1..], parts[1..]);
      assert |Flatten(xss[1..])| > 0 by {
        assert Flatten(xss[1..]) == xss[1] + Flatten(xss[2..]);
      }
      JoinAppend(sep, xss[0], Flatten(xss[1..]));
    }
  }

  /** A concatenation is at least as long as any of its parts. */
  lemma {:induction false} ConcatLength(xs: seq<string>, i: nat)
    requires i < |xs|
    ensures |Concat(xs)| >= |xs[i]|
  {
    if i > 0 {
      ConcatLength(xs[1..], i - 1);
    }
  }
}
