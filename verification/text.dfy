/** The string and path operations the lint rules perform on file text:
    substring search (`includes`, `indexOf`, `substring`, counting literal
    matches), ASCII case mapping, JavaScript `trim`, `split('\n')`, and the
    POSIX `path.basename` / `path.extname` used to route files to rules. */
module Text {

  function Min(a: int, b: int): int
  {
    if a <= b then a else b
  }

  // ---------------------------------------------------------------------------
  // Substring search
  // ---------------------------------------------------------------------------

  /** `p` occurs in `s` starting at index `i`. */
  predicate OccursAt(s: string, p: string, i: nat)
  {
    i + |p| <= |s| && s[i..i + |p|] == p
  }

  /** `s.startsWith(p)`. */
  predicate StartsWith(s: string, p: string)
  {
    OccursAt(s, p, 0)
  }

  /** `s.includes(p)`; also a literal regular expression's `test`. */
  predicate Contains(s: string, p: string)
  {
    exists i: nat | i <= |s| :: OccursAt(s, p, i)
  }

  /** The first occurrence of `p` in `s` at or after `k`, or -1. */
  function IndexFrom(s: string, p: string, k: nat): (r: int)
    ensures r == -1 || (k <= r && OccursAt(s, p, r))
    ensures r >= 0 ==> forall j: nat :: k <= j < r ==> !OccursAt(s, p, j)
    ensures r == -1 ==> forall j: nat :: k <= j ==> !OccursAt(s, p, j)
    decreases |s| - k
  {
    if k + |p| > |s| then -1
    else if OccursAt(s, p, k) then k
    else IndexFrom(s, p, k + 1)
  }

  /** `s.indexOf(p)`: the first occurrence of `p`, or -1 when there is none. */
  function IndexOf(s: string, p: string): (r: int)
    ensures r == -1 <==> !Contains(s, p)
    ensures r >= 0 ==> OccursAt(s, p, r) && forall j: nat :: j < r ==> !OccursAt(s, p, j)
  {
    var r := IndexFrom(s, p, 0);
    assert r >= 0 ==> r <= |s|;
    r
  }

  /** `s.match(/p/g).length` for a literal pattern `p`: the number of
      non-overlapping occurrences found scanning left to right. */
  function Count(s: string, p: string): (n: nat)
    requires |p| > 0
    ensures n > 0 <==> Contains(s, p)
    decreases |s|
  {
    var i := IndexOf(s, p);
    if i < 0 then 0 else 1 + Count(s[i + |p|..], p)
  }

  /** Every occurrence of `q` inside an occurrence of `p` is an occurrence of
      `q` in the surrounding text. */
  lemma ContainsInner(s: string, p: string, q: string, k: nat)
    requires Contains(s, p)
    requires OccursAt(p, q, k)
    ensures Contains(s, q)
  {
    var i: nat :| i <= |s| && OccursAt(s, p, i);
    forall j | 0 <= j < |q|
      ensures s[i + k + j] == q[j]
    {
      assert s[i + k + j] == s[i..i + |p|][k + j];
    }
    assert s[i + k..i + k + |q|] == q;
    assert OccursAt(s, q, i + k);
  }

  /** JavaScript `s.substring(start, end)`: both ends are clamped to
      `[0, |s|]` and swapped when out of order. */
  function JsSubstring(s: string, start: int, end: int): (r: string)
    ensures |r| <= |s|
  {
    var a := Clamp(start, |s|);
    var b := Clamp(end, |s|);
    if a <= b then s[a..b] else s[b..a]
  }

  function Clamp(i: int, n: nat): (r: nat)
    ensures r <= n
  {
    if i < 0 then 0 else if i > n then n else i
  }

  // ---------------------------------------------------------------------------
  // Case mapping and trimming
  // ---------------------------------------------------------------------------

  function LowerChar(c: char): char
  {
    if 'A' <= c <= 'Z' then (c as int + 32) as char else c
  }

  function UpperChar(c: char): char
  {
    if 'a' <= c <= 'z' then (c as int - 32) as char else c
  }

  /** `s.toLowerCase()` on the ASCII letters. */
  function Lower(s: string): (r: string)
    ensures |r| == |s|
  {
    seq(|s|, i requires 0 <= i < |s| => LowerChar(s[i]))
  }

  /** `s.toUpperCase()` on the ASCII letters. */
  function Upper(s: string): (r: string)
    ensures |r| == |s|
  {
    seq(|s|, i requires 0 <= i < |s| => UpperChar(s[i]))
  }

  /** The characters JavaScript's `trim` removes: white space and line
      terminators, including the Unicode space separators. */
  predicate IsJsSpace(c: char)
  {
    var n := c as int;
    n == 0x20 || 0x09 <= n <= 0x0D || n == 0xA0 || n == 0x1680
    || 0x2000 <= n <= 0x200A || n == 0x2028 || n == 0x2029
    || n == 0x202F || n == 0x205F || n == 0x3000 || n == 0xFEFF
  }

  /** `s` with its leading white space removed. */
  function TrimStart(s: string): (r: string)
    ensures |r| <= |s| && r == s[|s| - |r|..]
    ensures forall i :: 0 <= i < |s| - |r| ==> IsJsSpace(s[i])
    ensures |r| > 0 ==> !IsJsSpace(r[0])
  {
    if |s| > 0 && IsJsSpace(s[0]) then TrimStart(s[1..]) else s
  }

  /** `s` with its trailing white space removed. */
  function TrimEnd(s: string): (r: string)
    ensures |r| <= |s| && r == s[..|r|]
    ensures forall i :: |r| <= i < |s| ==> IsJsSpace(s[i])
    ensures |r| > 0 ==> !IsJsSpace(r[|r| - 1])
  {
    if |s| > 0 && IsJsSpace(s[|s| - 1]) then TrimEnd(s[..|s| - 1]) else s
  }

  /** `s.trim()`. */
  function Trim(s: string): string
  {
    TrimEnd(TrimStart(s))
  }

  // ---------------------------------------------------------------------------
  // Lines
  // ---------------------------------------------------------------------------

  /** The number of occurrences of `c` in `s`. */
  function CountChar(s: string, c: char): nat
  {
    if |s| == 0 then 0 else (if s[0] == c then 1 else 0) + CountChar(s[1..], c)
  }

  /** `s.split(sep)` for a one-character separator: always at least one
      piece, one more than there are separators, none containing `sep`. */
  function Split(s: string, sep: char): (r: seq<string>)
    ensures |r| == CountChar(s, sep) + 1
    ensures forall k :: 0 <= k < |r| ==> sep !in r[k]
    decreases |s|
  {
    if |s| == 0 then [""]
    else
      var rest := Split(s[1..], sep);
      if s[0] == sep then [""] + rest
      else [[s[0]] + rest[0]] + rest[1..]
  }

  /** `parts.join(sep)`. */
  function Join(parts: seq<string>, sep: char): string
    requires |parts| >= 1
  {
    if |parts| == 1 then parts[0] else parts[0] + [sep] + Join(parts[1..], sep)
  }

  /** Splitting loses nothing: joining the pieces gives the text back. */
  lemma {:induction false} SplitJoin(s: string, sep: char)
    ensures Join(Split(s, sep), sep) == s
    decreases |s|
  {
    if |s| > 0 {
      var rest := Split(s[1..], sep);
      SplitJoin(s[1..], sep);
      var r := Split(s, sep);
      if s[0] == sep {
        assert r[1..] == rest;
      } else if |rest| > 1 {
        assert r[1..] == rest[1..];
        assert Join(rest, sep) == rest[0] + [sep] + Join(rest[1..], sep);
        assert Join(r, sep) == [s[0]] + rest[0] + [sep] + Join(rest[1..], sep);
      }
    }
  }

  /** A prefix has no more separators than the whole text. */
  lemma {:induction false} CountCharPrefix(s: string, c: char, k: nat)
    requires k <= |s|
    ensures CountChar(s[..k], c) <= CountChar(s, c)
    decreases k
  {
    if k > 0 {
      assert s[..k][1..] == s[1..][..k - 1];
      CountCharPrefix(s[1..], c, k - 1);
    }
  }

  // ---------------------------------------------------------------------------
  // Paths
  // ---------------------------------------------------------------------------

  function StripTrailingSlashes(p: string): (r: string)
    ensures |r| <= |p| && r == p[..|r|]
    ensures |r| == 0 || r[|r| - 1] != '/'
  {
    if |p| > 0 && p[|p| - 1] == '/' then StripTrailingSlashes(p[..|p| - 1]) else p
  }

  /** The text after the last `/` of `p`. */
  function LastSegment(p: string): (r: string)
    ensures |r| <= |p| && r == p[|p| - |r|..]
    ensures '/' !in r
    ensures |r| < |p| ==> p[|p| - |r| - 1] == '/'
  {
    if |p| == 0 || p[|p| - 1] == '/' then ""
    else LastSegment(p[..|p| - 1]) + [p[|p| - 1]]
  }

  /** POSIX `path.basename(p)`: the last segment once trailing slashes are
      dropped. */
  function Basename(p: string): (r: string)
    ensures '/' !in r
  {
    LastSegment(StripTrailingSlashes(p))
  }

  /** The index of the last `c` in `s`, or -1. */
  function LastIndexOf(s: string, c: char): (r: int)
    ensures -1 <= r < |s|
    ensures r >= 0 ==> s[r] == c && c !in s[r + 1..]
    ensures r == -1 ==> c !in s
  {
    if |s| == 0 then -1
    else if s[|s| - 1] == c then |s| - 1
    else LastIndexOf(s[..|s| - 1], c)
  }

  /** `part` has a `.` somewhere after its first character. */
  predicate HasInnerDot(part: string)
  {
    exists i | 0 < i < |part| :: part[i] == '.'
  }

  /** The extension of a base name: from its last `.` to its end, or empty
      when it has no `.`, starts with its only `.` (a dot-file), or is `..`.
      The three ensures fix the result: a suffix that starts with the only
      `.` it holds is the suffix from the last `.`. */
  function Extension(part: string): (r: string)
    ensures r != "" <==> part != ".." && HasInnerDot(part)
    ensures r == "" || (r[0] == '.' && '.' !in r[1..])
    ensures |r| < |part| || r == ""
    ensures r == part[|part| - |r|..]
  {
    var d := LastIndexOf(part, '.');
    LastDotInner(part);
    if d <= 0 || part == ".." then
      assert part[|part|..] == "";
      ""
    else
      var r := part[d..];
      assert r[1..] == part[d + 1..];
      assert |part| - |r| == d;
      r
  }

  /** The last `.` lies after the first character exactly when some `.`
      does. */
  lemma LastDotInner(part: string)
    ensures LastIndexOf(part, '.') > 0 <==> HasInnerDot(part)
  {
  }

  /** POSIX `path.extname(p)`: the extension of the base name, so never
      longer than it and free of `/`. */
  function Extname(p: string): (r: string)
    ensures r == Extension(Basename(p))
    ensures |r| < |Basename(p)| || r == ""
    ensures '/' !in r
  {
    var part := Basename(p);
    var r := Extension(part);
    assert forall c | c in r :: c in part;
    r
  }

  /** Text between a fixed prefix and suffix is determined by the whole. */
  lemma SandwichInjective(p: string, a: string, b: string, q: string)
    requires p + a + q == p + b + q
    ensures a == b
  {
    assert |a| == |b|;
    assert a == (p + a + q)[|p|..|p| + |a|];
    assert b == (p + b + q)[|p|..|p| + |b|];
  }

  /** Text after a fixed prefix is determined by the whole. */
  lemma PrefixInjective(p: string, a: string, b: string)
    requires p + a == p + b
    ensures a == b
  {
    assert a == (p + a)[|p|..];
    assert b == (p + b)[|p|..];
  }

  /** Text before a fixed suffix is determined by the whole. */
  lemma SuffixInjective(a: string, b: string, q: string)
    requires a + q == b + q
    ensures a == b
  {
    assert a == (a + q)[..|a|];
    assert b == (b + q)[..|b|];
  }
}
