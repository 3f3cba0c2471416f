/** The Python `str` operations the engine applies to tool output:
    `splitlines()`, `split()`, `split(sep)`, `strip()`, `startswith`,
    the `in` substring test and `lower()`. */
module Text {

  /** `str.isspace` for one character; also the class `\s` of Python's
      regular expressions on `str` patterns. */
  predicate IsSpace(c: char) {
    ('\t' <= c <= '\r') || ('\U{1c}' <= c <= ' ') || c == '\U{85}' || c == '\U{a0}'
    || c == '\U{1680}' || ('\U{2000}' <= c <= '\U{200a}') || c == '\U{2028}'
    || c == '\U{2029}' || c == '\U{202f}' || c == '\U{205f}' || c == '\U{3000}'
  }

  /** The line boundaries of `str.splitlines()` ("\r\n" counts as one). */
  predicate IsLineBreak(c: char) {
    ('\n' <= c <= '\r') || ('\U{1c}' <= c <= '\U{1e}') || c == '\U{85}'
    || c == '\U{2028}' || c == '\U{2029}'
  }

  predicate NoLineBreak(s: string) {
    forall k :: 0 <= k < |s| ==> !IsLineBreak(s[k])
  }

  predicate NoSpace(s: string) {
    forall k :: 0 <= k < |s| ==> !IsSpace(s[k])
  }

  /** Length of the longest prefix of `s` free of line breaks. */
  function LineLength(s: string): (n: nat)
    ensures n <= |s| && NoLineBreak(s[..n])
    ensures n < |s| ==> IsLineBreak(s[n])
  {
    if s == [] || IsLineBreak(s[0]) then 0
    else
      var n := 1 + LineLength(s[1..]);
      assert s[..n] == [s[0]] + s[1..][..n - 1];
      n
  }

  /** `s.splitlines()`: no empty last line for a trailing break, `[]` for "". */
  function SplitLines(s: string): (lines: seq<string>)
    ensures forall j :: 0 <= j < |lines| ==> NoLineBreak(lines[j])
    ensures s == [] <==> lines == []
    decreases |s|
  {
    if s == [] then []
    else
      var n := LineLength(s);
      if n == |s| then [s]
      else
        var next := if s[n] == '\r' && n + 1 < |s| && s[n + 1] == '\n' then n + 2 else n + 1;
        [s[..n]] + SplitLines(s[next..])
  }

  /** A text without line breaks is one line. */
  lemma SplitLinesLast(a: string)
    requires a != [] && NoLineBreak(a)
    ensures SplitLines(a) == [a]
  {
    LineLengthAll(a);
    Whole(a);
  }

  /** The first line ends at the first line break; "\r\n" is one break. */
  lemma SplitLinesCons(a: string, c: char, b: string)
    requires NoLineBreak(a) && IsLineBreak(c)
    ensures SplitLines(a + [c] + b) == [a] + SplitLines(if c == '\r' && b != [] && b[0] == '\n' then b[1..] else b)
  {
    var s := a + [c] + b;
    var rest := if c == '\r' && b != [] && b[0] == '\n' then b[1..] else b;
    var next := if c == '\r' && b != [] && b[0] == '\n' then |a| + 2 else |a| + 1;
    LineBreakAt(a, c, b);
    assert s[next..] == rest by {
      PiecesOf(a, c, b, []);
    }
    SplitLinesAt(s, |a|, next);
  }

  /** Where the first line of `a + [c] + b` ends, and where the next one starts. */
  lemma LineBreakAt(a: string, c: char, b: string)
    requires NoLineBreak(a) && IsLineBreak(c)
    ensures LineLength(a + [c] + b) == |a| && (a + [c] + b)[..|a|] == a
    ensures (a + [c] + b)[|a|] == c && (|a| + 1 < |a + [c] + b| <==> b != [])
    ensures b != [] ==> (a + [c] + b)[|a| + 1] == b[0]
  {
    LineLengthSep(a, c, b);
  }

  /** `SplitLines` cut at the first line break `n`, the next line starting at `next`. */
  lemma SplitLinesAt(s: string, n: nat, next: nat)
    requires n < |s| && LineLength(s) == n
    requires next == if s[n] == '\r' && n + 1 < |s| && s[n + 1] == '\n' then n + 2 else n + 1
    ensures SplitLines(s) == [s[..n]] + SplitLines(s[next..])
  {
  }

  /** A break-free text is one line long. */
  lemma {:induction false} LineLengthAll(a: string)
    requires NoLineBreak(a)
    ensures LineLength(a) == |a|
  {
    if a != [] {
      LineLengthAll(a[1..]);
    }
  }

  /** The line of `a + [c] + b` ends at the break `c`. */
  lemma {:induction false} LineLengthSep(a: string, c: char, b: string)
    requires NoLineBreak(a) && IsLineBreak(c)
    ensures LineLength(a + [c] + b) == |a|
  {
    var s := a + [c] + b;
    if a != [] {
      assert s[1..] == a[1..] + [c] + b;
      LineLengthSep(a[1..], c, b);
    }
  }

  /** Length of the longest prefix of `s` free of whitespace. */
  function WordLength(s: string): (n: nat)
    ensures n <= |s| && NoSpace(s[..n])
    ensures n < |s| ==> IsSpace(s[n])
  {
    if s == [] || IsSpace(s[0]) then 0
    else
      var n := 1 + WordLength(s[1..]);
      assert s[..n] == [s[0]] + s[1..][..n - 1];
      n
  }

  /** `s.split()`: the maximal runs of non-whitespace characters, in order. */
  function Fields(s: string): (fs: seq<string>)
    ensures forall j :: 0 <= j < |fs| ==> fs[j] != [] && NoSpace(fs[j])
    decreases |s|
  {
    if s == [] then []
    else if IsSpace(s[0]) then Fields(s[1..])
    else
      var n := WordLength(s);
      [s[..n]] + Fields(s[n..])
  }

  /** A non-empty word is its own single field. */
  lemma FieldsWord(w: string)
    requires w != [] && NoSpace(w)
    ensures Fields(w) == [w]
  {
    WordLengthAll(w);
    Whole(w);
  }

  lemma {:induction false} WordLengthAll(w: string)
    requires NoSpace(w)
    ensures WordLength(w) == |w|
  {
    if w != [] {
      WordLengthAll(w[1..]);
    }
  }

  /** A whitespace character separates the fields on its two sides: with
      `Fields("") == []` and `FieldsWord` this determines `str.split()`. */
  lemma {:induction false} FieldsSep(a: string, c: char, b: string)
    requires IsSpace(c)
    ensures Fields(a + [c] + b) == Fields(a) + Fields(b)
    decreases |a|
  {
    var s := a + [c] + b;
    if a == [] {
      assert s[1..] == b;
    } else if IsSpace(a[0]) {
      assert s[1..] == a[1..] + [c] + b;
      FieldsSep(a[1..], c, b);
    } else {
      var n := WordLength(a);
      WordLengthSep(a, c, b);
      assert s[..n] == a[..n];
      assert s[n..] == a[n..] + [c] + b;
      FieldsSep(a[n..], c, b);
    }
  }

  lemma {:induction false} WordLengthSep(a: string, c: char, b: string)
    requires IsSpace(c)
    ensures WordLength(a + [c] + b) == WordLength(a)
  {
    var s := a + [c] + b;
    if a != [] && !IsSpace(a[0]) {
      assert s[1..] == a[1..] + [c] + b;
      WordLengthSep(a[1..], c, b);
    }
  }

  /** Position of the first `c` in `s`. */
  function IndexOf(s: string, c: char): (k: nat)
    requires c in s
    ensures k < |s| && s[k] == c
    ensures forall j :: 0 <= j < k ==> s[j] != c
  {
    if s[0] == c then 0 else 1 + IndexOf(s[1..], c)
  }

  /** `s.split(sep)` with a one-character separator: every piece, empty ones included. */
  function SplitOn(s: string, sep: char): (parts: seq<string>)
    ensures |parts| >= 1
    ensures forall j :: 0 <= j < |parts| ==> sep !in parts[j]
    decreases |s|
  {
    if sep !in s then [s]
    else
      var k := IndexOf(s, sep);
      [s[..k]] + SplitOn(s[k + 1..], sep)
  }

  // Small facts about slices and concatenation, kept apart so that the proofs
  // using them need no reasoning about sequence equality of their own.

  /** `s` cut around its character at `k`. */
  lemma CutAt(s: string, k: nat)
    requires k < |s|
    ensures s == s[..k] + [s[k]] + s[k + 1..]
  {
  }

  /** `s` cut in two at `k`. */
  lemma SplitAt(s: string, k: nat)
    requires k <= |s|
    ensures s == s[..k] + s[k..]
  {
  }

  /** The pieces of `head + [c] + rest`, and of that joined with a tail `t`. */
  lemma PiecesOf(head: string, c: char, rest: string, t: string)
    ensures (head + [c] + rest)[..|head|] == head
    ensures (head + [c] + rest)[|head| + 1..] == rest
    ensures head + [c] + rest + t == head + ([c] + rest + t)
    ensures (head + [c] + rest + t)[|head|] == c
    ensures (head + [c] + rest + t)[|head| + 1..] == rest + t
  {
    var q := head + [c] + rest;
    assert q[|head| + 1..] == rest;
    assert (q + t)[|head| + 1..] == rest + t;
  }

  /** Dropping the first character of a concatenation. */
  lemma TailOfConcat(g: string, t: string)
    requires g != []
    ensures (g + t)[1..] == g[1..] + t
  {
  }

  /** A prefix of `x` that runs through its character `c` at `r` into the rest. */
  lemma PrefixThrough(x: string, r: nat, c: char, k: nat, m: nat)
    requires r < |x| && x[r] == c && k <= |x| - r - 1 && m == r + 1 + k
    ensures x[..m] == x[..r] + [c] + x[r + 1..][..k]
  {
    assert x[r + 1..][..k] == x[r + 1..m];
    assert x[..m] == x[..r] + x[r..r + 1] + x[r + 1..m];
  }

  /** A prefix of a prefix. */
  lemma PrefixOfPrefix(x: string, r: nat, m: nat)
    requires m <= r <= |x|
    ensures x[..m] == x[..r][..m]
  {
  }

  /** The whole-string prefix, and the empty tail. */
  lemma AllTaken<T>(s: seq<T>)
    ensures s[..|s|] == s
  {
  }

  lemma Whole(s: string)
    ensures s[..|s|] == s && s + [] == s
  {
  }

  /** A split into exactly two pieces cuts at the one separator. */
  lemma SplitOnTwo(s: string, sep: char) returns (k: nat)
    requires |SplitOn(s, sep)| == 2
    ensures k < |s| && s[k] == sep && sep !in s[..k] && sep !in s[k + 1..]
    ensures SplitOn(s, sep) == [s[..k], s[k + 1..]]
  {
    k := IndexOf(s, sep);
    var rest := SplitOn(s[k + 1..], sep);
    assert SplitOn(s, sep) == [s[..k]] + rest;
    SplitOnSingle(s[k + 1..], sep);
  }

  lemma SplitOnSingle(s: string, sep: char)
    ensures |SplitOn(s, sep)| == 1 <==> sep !in s
    ensures sep !in s ==> SplitOn(s, sep) == [s]
  {
  }

  /** Joining the pieces with the separator gives the string back. */
  function Join(parts: seq<string>, sep: char): string
    requires |parts| >= 1
  {
    if |parts| == 1 then parts[0] else parts[0] + [sep] + Join(parts[1..], sep)
  }

  lemma {:induction false} SplitOnJoin(s: string, sep: char)
    ensures Join(SplitOn(s, sep), sep) == s
    decreases |s|
  {
    if sep in s {
      var k := IndexOf(s, sep);
      SplitOnJoin(s[k + 1..], sep);
      CutAt(s, k);
    }
  }

  /** Cutting `s` at a first separator that follows a separator-free `head`. */
  lemma SplitOnCons(head: string, sep: char, rest: string)
    requires sep !in head
    ensures SplitOn(head + [sep] + rest, sep) == [head] + SplitOn(rest, sep)
  {
    var s := head + [sep] + rest;
    PiecesOf(head, sep, rest, []);
    assert s[|head|] == sep;
    var k := IndexOf(s, sep);
    if k < |head| {
      assert false;
    } else if k > |head| {
      assert false;
    }
  }

  function TrimLeft(s: string): (r: string)
    ensures |r| <= |s| && r == s[|s| - |r|..]
    ensures r == [] || !IsSpace(r[0])
    ensures forall k :: 0 <= k < |s| - |r| ==> IsSpace(s[k])
  {
    if s != [] && IsSpace(s[0]) then TrimLeft(s[1..]) else s
  }

  function TrimRight(s: string): (r: string)
    ensures |r| <= |s| && r == s[..|r|]
    ensures r == [] || !IsSpace(r[|r| - 1])
    ensures forall k :: |r| <= k < |s| ==> IsSpace(s[k])
  {
    if s != [] && IsSpace(s[|s| - 1]) then TrimRight(s[..|s| - 1]) else s
  }

  /** `r` stands at position `a` of `s`, with only whitespace before and after it. */
  predicate Surrounded(s: string, a: nat, r: string) {
    a + |r| <= |s| && r == s[a..a + |r|] &&
    (forall k :: 0 <= k < a ==> IsSpace(s[k])) && (forall k :: a + |r| <= k < |s| ==> IsSpace(s[k]))
  }

  /** `s.strip()`: `s` less its leading and trailing whitespace, so a slice of `s`
      that neither starts nor ends with whitespace and has only whitespace around it. */
  function Strip(s: string): (r: string)
    ensures |r| <= |s|
    ensures r == [] || (!IsSpace(r[0]) && !IsSpace(r[|r| - 1]))
    ensures exists a: nat :: Surrounded(s, a, r)
  {
    var t := TrimLeft(s);
    var r := TrimRight(t);
    StripSurrounded(s, t, r);
    r
  }

  lemma StripSurrounded(s: string, t: string, r: string)
    requires |t| <= |s| && t == s[|s| - |t|..] && (forall k :: 0 <= k < |s| - |t| ==> IsSpace(s[k]))
    requires |r| <= |t| && r == t[..|r|] && (forall k :: |r| <= k < |t| ==> IsSpace(t[k]))
    ensures Surrounded(s, |s| - |t|, r)
  {
    var a := |s| - |t|;
    assert r == s[a..a + |r|];
    forall k | a + |r| <= k < |s| ensures IsSpace(s[k]) {
      assert s[k] == t[k - a];
    }
  }

  predicate StartsWith(s: string, prefix: string) {
    |prefix| <= |s| && s[..|prefix|] == prefix
  }

  /** `needle in s` for strings: `needle` starts at some position of `s`. */
  predicate Contains(s: string, needle: string)
    decreases |s|
  {
    StartsWith(s, needle) || (s != [] && Contains(s[1..], needle))
  }

  function LowerChar(c: char): char {
    if 'A' <= c <= 'Z' then (c as int + 32) as char else c
  }

  /** `s.lower()` on the ASCII letters; every other character is kept. */
  function Lower(s: string): (r: string)
    ensures |r| == |s|
    ensures forall k :: 0 <= k < |s| ==> r[k] == LowerChar(s[k])
  {
    if s == [] then [] else [LowerChar(s[0])] + Lower(s[1..])
  }
}
