/**
 * Character-level helpers used by the pose-file reader and the pix4d exporter:
 * the `\s*` prefix of a regular expression, str.split on one separator,
 * suffix matching for `*.jpg` patterns and Python's ordering of strings.
 */
module Text {
  import opened Base

  /**
   * The characters `\s` matches in a Python 3 `re` pattern on `str`: those for which
   * `str.isspace` holds, i.e. the ASCII whitespace and separator controls plus the
   * Unicode space and line/paragraph separators.
   */
  predicate IsSpace(c: char) {
    || '\U{0009}' <= c <= '\U{000D}'      // \t \n \v \f \r
    || '\U{001C}' <= c <= '\U{0020}'      // file, group, record, unit separators; space
    || c == '\U{0085}' || c == '\U{00A0}' || c == '\U{1680}'
    || '\U{2000}' <= c <= '\U{200A}'
    || c == '\U{2028}' || c == '\U{2029}' || c == '\U{202F}' || c == '\U{205F}' || c == '\U{3000}'
  }

  /** What is left of `s` after the longest whitespace prefix, the part `^\s*` consumes. */
  function SkipSpace(s: string): (r: string)
    ensures |r| <= |s| && r == s[|s| - |r|..]
    ensures forall k :: 0 <= k < |s| - |r| ==> IsSpace(s[k])
    ensures r == [] || !IsSpace(r[0])
  {
    if s != [] && IsSpace(s[0]) then SkipSpace(s[1..]) else s
  }

  /** `re.match('^\s*' + prefix, s)` succeeds. */
  predicate MatchesAfterSpace(s: string, prefix: string) {
    var rest := SkipSpace(s);
    |prefix| <= |rest| && rest[..|prefix|] == prefix
  }

  /** `prefix` occurs at position k of `s` and only whitespace comes before it. */
  predicate OccursAfterSpace(s: string, prefix: string, k: nat) {
    k + |prefix| <= |s| && s[k..k + |prefix|] == prefix &&
    forall j :: 0 <= j < k ==> IsSpace(s[j])
  }

  /**
   * The regular-expression reading of `^\s*P`: some position starts P and everything
   * before it is whitespace. Since P starts with a non-space character, the match is
   * the one found after the longest whitespace prefix.
   */
  lemma {:induction false} MatchesAfterSpaceIff(s: string, prefix: string)
    requires prefix != [] && !IsSpace(prefix[0])
    ensures MatchesAfterSpace(s, prefix) <==> exists k: nat :: OccursAfterSpace(s, prefix, k)
  {
    var rest := SkipSpace(s);
    var n := |s| - |rest|;
    if MatchesAfterSpace(s, prefix) {
      assert s[n..n + |prefix|] == rest[..|prefix|];
      assert OccursAfterSpace(s, prefix, n);
    }
    if exists k: nat :: OccursAfterSpace(s, prefix, k) {
      var k: nat :| OccursAfterSpace(s, prefix, k);
      assert s[k] == s[k..k + |prefix|][0] == prefix[0];
      assert rest[..|prefix|] == s[k..k + |prefix|];
    }
  }

  /** Position of the first occurrence of `c` in `s`. */
  function IndexOf(s: string, c: char): (i: nat)
    requires c in s
    ensures i < |s| && s[i] == c && c !in s[..i]
  {
    if s[0] == c then 0 else 1 + IndexOf(s[1..], c)
  }

  /** Python's `s.split(sep)` for a one-character separator. */
  function Split(s: string, sep: char): (parts: seq<string>)
    ensures |parts| >= 1
    ensures forall k :: 0 <= k < |parts| ==> sep !in parts[k]
    decreases |s|
  {
    if sep !in s then [s]
    else
      var i := IndexOf(s, sep);
      [s[..i]] + Split(s[i + 1..], sep)
  }

  /** Python's `sep.join(parts)`. */
  function Join(parts: seq<string>, sep: char): string
    requires |parts| >= 1
  {
    if |parts| == 1 then parts[0] else parts[0] + [sep] + Join(parts[1..], sep)
  }

  /** Splitting loses nothing: joining the fields back gives the line. */
  lemma {:induction false} JoinSplit(s: string, sep: char)
    ensures Join(Split(s, sep), sep) == s
    decreases |s|
  {
    if sep in s {
      var i := IndexOf(s, sep);
      var rest := Split(s[i + 1..], sep);
      var parts := Split(s, sep);
      assert parts == [s[..i]] + rest;
      assert parts[1..] == rest;
      JoinSplit(s[i + 1..], sep);
      assert Join(parts, sep) == s[..i] + [sep] + Join(rest, sep);
      assert s == s[..i] + [sep] + s[i + 1..];
    }
  }

  /** Fields free of the separator are recovered by splitting their join. */
  lemma {:induction false} SplitJoin(parts: seq<string>, sep: char)
    requires |parts| >= 1
    requires forall k :: 0 <= k < |parts| ==> sep !in parts[k]
    ensures Split(Join(parts, sep), sep) == parts
  {
    if |parts| > 1 {
      var tail := parts[1..];
      var rest := Join(tail, sep);
      assert Join(parts, sep) == parts[0] + [sep] + rest;
      SplitJoin(tail, sep);
      SplitAfterField(parts[0], sep, rest);
      assert parts == [parts[0]] + tail;
    }
  }

  /** A field free of the separator, the separator, then the rest: split takes the field off. */
  lemma SplitAfterField(field: string, sep: char, rest: string)
    requires sep !in field
    ensures Split(field + [sep] + rest, sep) == [field] + Split(rest, sep)
  {
    var s := field + [sep] + rest;
    var n := |field|;
    assert s[n] == sep;
    assert s[..n] == field;
    FirstIndex(s, sep, n);
    assert s[n + 1..] == rest;
  }

  /** The first occurrence of `c` is where it occurs with no earlier occurrence. */
  lemma {:induction false} FirstIndex(s: string, c: char, n: nat)
    requires n < |s| && s[n] == c && c !in s[..n]
    ensures IndexOf(s, c) == n
  {
    if n > 0 {
      assert s[0] in s[..n];
      assert s[1..][..n - 1] == s[..n][1..];
      FirstIndex(s[1..], c, n - 1);
    }
  }

  /** `fnmatch(name, '*' + suffix)` for a suffix without wildcard characters. */
  predicate EndsWith(name: string, suffix: string) {
    |suffix| <= |name| && name[|name| - |suffix|..] == suffix
  }

  /** Python's `a <= b` on strings: code-point lexicographic order, a prefix first. */
  predicate LexLe(a: string, b: string) {
    a == [] || (b != [] && (a[0] < b[0] || (a[0] == b[0] && LexLe(a[1..], b[1..]))))
  }

  lemma {:induction false} LexLeTotal(a: string, b: string)
    ensures LexLe(a, b) || LexLe(b, a)
  {
    if a != [] && b != [] && a[0] == b[0] {
      LexLeTotal(a[1..], b[1..]);
    }
  }

  lemma {:induction false} LexLeTransitive(a: string, b: string, c: string)
    requires LexLe(a, b) && LexLe(b, c)
    ensures LexLe(a, c)
  {
    if a != [] && a[0] == b[0] && b[0] == c[0] {
      LexLeTransitive(a[1..], b[1..], c[1..]);
    }
  }

  lemma {:induction false} LexLeAntisymmetric(a: string, b: string)
    requires LexLe(a, b) && LexLe(b, a)
    ensures a == b
  {
    if a != [] {
      LexLeAntisymmetric(a[1..], b[1..]);
      assert a == [a[0]] + a[1..] && b == [b[0]] + b[1..];
    }
  }

  predicate SortedNames(s: seq<string>) {
    forall i, j :: 0 <= i < j < |s| ==> LexLe(s[i], s[j])
  }

  /** Inserts `x` before the first element it does not follow. */
  function InsertName(x: string, s: seq<string>): (r: seq<string>)
    requires SortedNames(s)
    ensures SortedNames(r)
    ensures multiset(r) == multiset(s) + multiset{x}
  {
    if s == [] then [x]
    else if LexLe(x, s[0]) then
      assert forall j :: 0 <= j < |s| ==> LexLe(x, s[j]) by {
        forall j | 0 <= j < |s| ensures LexLe(x, s[j]) {
          if j > 0 { LexLeTransitive(x, s[0], s[j]); }
        }
      }
      [x] + s
    else
      LexLeTotal(x, s[0]);
      var tail := InsertName(x, s[1..]);
      assert s == [s[0]] + s[1..];
      HeadBoundsTail(s[0], s[1..], x, tail);
      [s[0]] + tail
  }

  /** A name below every element and below x stays below any arrangement of them. */
  lemma HeadBoundsTail(h: string, rest: seq<string>, x: string, tail: seq<string>)
    requires forall j :: 0 <= j < |rest| ==> LexLe(h, rest[j])
    requires LexLe(h, x)
    requires multiset(tail) == multiset(rest) + multiset{x}
    ensures forall j :: 0 <= j < |tail| ==> LexLe(h, tail[j])
  {
    forall j | 0 <= j < |tail| ensures LexLe(h, tail[j]) {
      assert tail[j] in multiset(tail);
      if tail[j] != x {
        assert tail[j] in multiset(rest);
        var k :| 0 <= k < |rest| && rest[k] == tail[j];
      }
    }
  }

  /** Python's `files.sort()`: the sorted permutation of the names. */
  function SortNames(s: seq<string>): (r: seq<string>)
    ensures SortedNames(r)
    ensures multiset(r) == multiset(s)
  {
    if s == [] then []
    else
      assert s == [s[0]] + s[1..];
      InsertName(s[0], SortNames(s[1..]))
  }

  /** The first of two sorted arrangements of the same names is the same name. */
  lemma SortedHeadsEqual(s: seq<string>, t: seq<string>)
    requires SortedNames(s) && SortedNames(t)
    requires multiset(s) == multiset(t) && s != []
    ensures t != [] && s[0] == t[0]
  {
    assert s[0] in multiset(t) && t != [];
    assert t[0] in multiset(s);
    var a :| 0 <= a < |t| && t[a] == s[0];
    var b :| 0 <= b < |s| && s[b] == t[0];
    if a == 0 {
      return;
    }
    assert LexLe(t[0], s[0]);
    if b == 0 {
      return;
    }
    assert LexLe(s[0], t[0]);
    LexLeAntisymmetric(s[0], t[0]);
  }

  /** Sorting determines the order: two sorted arrangements of the same names are equal. */
  lemma {:induction false} SortedNamesUnique(s: seq<string>, t: seq<string>)
    requires SortedNames(s) && SortedNames(t)
    requires multiset(s) == multiset(t)
    ensures s == t
  {
    if s == [] {
      assert |t| == |multiset(t)| == 0;
    } else {
      SortedHeadsEqual(s, t);
      SameTails(s, t);
      SortedNamesUnique(s[1..], t[1..]);
    }
  }
}
