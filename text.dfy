/** String operations the scripts take from Python's `str` and `pathlib`:
    suffix tests, `split(sep)[0]`, `Path(p).name`, `'\n'.join`, `strip()` and
    `split(maxsplit=1)`. Strings are sequences of characters. */
module Text {

  predicate StartsWith(s: string, prefix: string) {
    |prefix| <= |s| && s[..|prefix|] == prefix
  }

  /** `s.endswith(suffix)` */
  predicate EndsWith(s: string, suffix: string) {
    |suffix| <= |s| && s[|s| - |suffix|..] == suffix
  }

  /** `sep` occurs in `s` starting at position `i`. */
  predicate OccursAt(s: string, sep: string, i: nat) {
    i <= |s| && StartsWith(s[i..], sep)
  }

  /** `s.split(sep)[0]`: the part of `s` before the first occurrence of `sep`,
      or all of `s` when `sep` does not occur (Python rejects an empty `sep`). */
  function BeforeFirst(s: string, sep: string): (r: string)
    requires sep != []
    ensures r <= s
    ensures forall i: nat :: i < |r| ==> !OccursAt(s, sep, i)
    ensures r == s || OccursAt(s, sep, |r|)
    decreases |s|
  {
    if |s| < |sep| then s
    else if s[..|sep|] == sep then []
    else
      var t := BeforeFirst(s[1..], sep);
      assert forall i: nat :: 0 < i <= |t| ==> (OccursAt(s, sep, i) <==> OccursAt(s[1..], sep, i - 1)) by {
        forall i: nat | 0 < i <= |t| ensures OccursAt(s, sep, i) <==> OccursAt(s[1..], sep, i - 1) {
          if i <= |s| {
            assert s[i..] == s[1..][i - 1..];
          }
        }
      }
      [s[0]] + t
  }

  /** A non-empty `s` whose suffix is `sep` contains `sep`, so `split(sep)[0]`
      stops at its first occurrence, at the latest where the suffix begins. */
  lemma {:induction false} BeforeFirstOfSuffixed(s: string, sep: string)
    requires sep != [] && EndsWith(s, sep)
    ensures |BeforeFirst(s, sep)| <= |s| - |sep|
    ensures OccursAt(s, sep, |BeforeFirst(s, sep)|)
  {
    assert OccursAt(s, sep, |s| - |sep|);
  }

  // ---------------------------------------------------------------------
  // Path(p).name

  function DropTrailingSlashes(p: string): (r: string)
    ensures r <= p
    ensures r == [] || r[|r| - 1] != '/'
    ensures forall i :: |r| <= i < |p| ==> p[i] == '/'
  {
    if |p| > 0 && p[|p| - 1] == '/' then DropTrailingSlashes(p[..|p| - 1]) else p
  }

  /** The characters after the last '/' of `p`. */
  function LastComponent(p: string): (r: string)
    ensures EndsWith(p, r)
    ensures '/' !in r
    ensures |r| == |p| || p[|p| - |r| - 1] == '/'
  {
    if p == [] || p[|p| - 1] == '/' then []
    else
      var q := p[..|p| - 1];
      var t := LastComponent(q);
      DropOfSnoc(q, p[|p| - 1], |q| - |t|);
      assert p == q + [p[|p| - 1]];
      t + [p[|p| - 1]]
  }

  lemma DropOfSnoc(q: string, c: char, k: nat)
    requires k <= |q|
    ensures (q + [c])[k..] == q[k..] + [c]
  {
  }

  /** `Path(p).name`: the last component of `p`, trailing slashes ignored.
      (Normalisation of `.` components and `//` is not modelled.) */
  function Basename(p: string): (r: string)
    ensures '/' !in r
    ensures EndsWith(DropTrailingSlashes(p), r)
    ensures |r| == |DropTrailingSlashes(p)| || DropTrailingSlashes(p)[|DropTrailingSlashes(p)| - |r| - 1] == '/'
  {
    LastComponent(DropTrailingSlashes(p))
  }

  /** `os.path.join(a, b)` on POSIX, for two components. */
  function JoinPath(a: string, b: string): string {
    if StartsWith(b, "/") then b
    else if a == [] || EndsWith(a, "/") then a + b
    else a + "/" + b
  }

  /** Joining a directory that ends in '/' with a base name is concatenation. */
  lemma JoinPathWithBasename(dir: string, p: string)
    requires EndsWith(dir, "/")
    ensures JoinPath(dir, Basename(p)) == dir + Basename(p)
  {
    var b := Basename(p);
    assert !StartsWith(b, "/") by {
      if b != [] { assert b[0] in b; }
    }
  }

  // ---------------------------------------------------------------------
  // sep.join(lines) and its inverse

  /** The characters of all the lines together. */
  function TotalLength(lines: seq<string>): nat {
    if lines == [] then 0 else |lines[0]| + TotalLength(lines[1..])
  }

  /** `[sep].join(lines)`: the lines in order, one separator between each
      two and none after the last; the text begins with the first line. */
  function Join(lines: seq<string>, sep: char): (r: string)
    ensures |lines| >= 1 ==> |r| == TotalLength(lines) + |lines| - 1
    ensures |lines| >= 1 ==> StartsWith(r, lines[0])
  {
    if |lines| == 0 then ""
    else if |lines| == 1 then lines[0]
    else lines[0] + [sep] + Join(lines[1..], sep)
  }

  function FirstIndex(s: string, c: char): (i: nat)
    requires c in s
    ensures i < |s| && s[i] == c && c !in s[..i]
    ensures forall j :: 0 <= j < i ==> s[j] != c
  {
    if s[0] == c then 0
    else
      var j := FirstIndex(s[1..], c);
      assert s[..j + 1] == [s[0]] + s[1..][..j];
      j + 1
  }

  /** `s.split(sep)` for a one-character separator. */
  function Split(s: string, sep: char): (r: seq<string>)
    ensures |r| >= 1
    ensures forall k :: 0 <= k < |r| ==> sep !in r[k]
    decreases |s|
  {
    if sep !in s then [s]
    else
      var i := FirstIndex(s, sep);
      [s[..i]] + Split(s[i + 1..], sep)
  }

  lemma FirstIndexOfJoined(a: string, sep: char, b: string)
    requires sep !in a
    ensures sep in a + [sep] + b
    ensures FirstIndex(a + [sep] + b, sep) == |a|
  {
    var s := a + [sep] + b;
    assert s[|a|] == sep;
    forall j | 0 <= j < |a| ensures s[j] != sep {
      assert s[j] == a[j];
    }
  }

  /** Splitting the joined text gives the lines back, when no line contains the
      separator: the text holds exactly |lines| - 1 separators, one between each
      pair of adjacent lines, and none at the end. */
  lemma {:induction false} SplitJoin(lines: seq<string>, sep: char)
    requires |lines| >= 1
    requires forall k :: 0 <= k < |lines| ==> sep !in lines[k]
    ensures Split(Join(lines, sep), sep) == lines
  {
    if |lines| > 1 {
      SplitJoin(lines[1..], sep);
      SplitAtFirst(lines[0], sep, Join(lines[1..], sep));
      assert lines == [lines[0]] + lines[1..];
    }
  }

  /** Splitting at a first separator gives the text before it, then the
      split of the rest. */
  lemma SplitAtFirst(a: string, sep: char, b: string)
    requires sep !in a
    ensures Split(a + [sep] + b, sep) == [a] + Split(b, sep)
  {
    FirstIndexOfJoined(a, sep, b);
    var s := a + [sep] + b;
    assert s[..|a|] == a;
    assert s[|a| + 1..] == b;
  }

  /** The joined text ends with the last line itself. */
  lemma {:induction false} JoinEndsWithLastLine(lines: seq<string>, sep: char)
    requires |lines| >= 1
    ensures EndsWith(Join(lines, sep), lines[|lines| - 1])
  {
    if |lines| > 1 {
      JoinEndsWithLastLine(lines[1..], sep);
      var j := Join(lines[1..], sep);
      var s := lines[0] + [sep] + j;
      var l := lines[|lines| - 1];
      assert s[|s| - |l|..] == j[|j| - |l|..];
    }
  }

  // ---------------------------------------------------------------------
  // str.strip() and str.split(maxsplit=1)

  /** `c.isspace()` in Python: the ASCII whitespace and separator controls and
      the Unicode space characters. */
  predicate IsSpace(c: char) {
    var n := c as int;
    n == 0x20 || 0x09 <= n <= 0x0D || 0x1C <= n <= 0x1F || n == 0x85 || n == 0xA0 ||
    n == 0x1680 || 0x2000 <= n <= 0x200A || n == 0x2028 || n == 0x2029 ||
    n == 0x202F || n == 0x205F || n == 0x3000
  }

  predicate AllSpace(s: string) {
    forall i :: 0 <= i < |s| ==> IsSpace(s[i])
  }

  predicate NoSpace(s: string) {
    forall i :: 0 <= i < |s| ==> !IsSpace(s[i])
  }

  /** The first position at or after `i` that holds no whitespace. */
  function SkipSpace(s: string, i: nat): (j: nat)
    requires i <= |s|
    ensures i <= j <= |s|
    ensures forall k :: i <= k < j ==> IsSpace(s[k])
    ensures j == |s| || !IsSpace(s[j])
    decreases |s| - i
  {
    if i == |s| || !IsSpace(s[i]) then i else SkipSpace(s, i + 1)
  }

  /** The first position at or after `i` that holds whitespace. */
  function SkipWord(s: string, i: nat): (j: nat)
    requires i <= |s|
    ensures i <= j <= |s|
    ensures forall k :: i <= k < j ==> !IsSpace(s[k])
    ensures j == |s| || IsSpace(s[j])
    decreases |s| - i
  {
    if i == |s| || IsSpace(s[i]) then i else SkipWord(s, i + 1)
  }

  /** The end of `s[..j]` once its trailing whitespace is dropped. */
  function TrimRight(s: string, j: nat): (k: nat)
    requires j <= |s|
    ensures k <= j
    ensures forall m :: k <= m < j ==> IsSpace(s[m])
    ensures k == 0 || !IsSpace(s[k - 1])
  {
    if j == 0 || !IsSpace(s[j - 1]) then j else TrimRight(s, j - 1)
  }

  /** `s.strip()`: `s` without its leading and trailing whitespace. */
  function Strip(s: string): (r: string)
    ensures r == [] <==> AllSpace(s)
    ensures r == [] || (!IsSpace(r[0]) && !IsSpace(r[|r| - 1]))
    ensures var a := SkipSpace(s, 0);
            a + |r| <= |s| && r == s[a..a + |r|] &&
            AllSpace(s[..a]) && AllSpace(s[a + |r|..])
  {
    var a := SkipSpace(s, 0);
    var b := TrimRight(s, |s|);
    if a == |s| then [] else s[a..b]
  }

  /** `s.split(maxsplit=1)`: leading whitespace is skipped, the first word is
      split off at the whitespace run after it, and the rest is kept as it is
      (trailing whitespace included); a whitespace-only `s` gives no parts. */
  function SplitFirstWord(s: string): (r: seq<string>)
    ensures |r| <= 2
    ensures r == [] <==> AllSpace(s)
    ensures forall k :: 0 <= k < |r| ==> r[k] != [] && !IsSpace(r[k][0])
    ensures r != [] ==> NoSpace(r[0])
  {
    var a := SkipSpace(s, 0);
    if a == |s| then []
    else
      var b := SkipWord(s, a);
      var c := SkipSpace(s, b);
      if c == |s| then [s[a..b]]
      else
        [s[a..b], s[c..]]
  }

  /** A text that `split(maxsplit=1)` leaves whole is, after its leading
      whitespace, its one part followed by whitespace only. */
  lemma {:induction false} SplitFirstWordSingle(s: string)
    requires |SplitFirstWord(s)| == 1
    ensures StartsWith(s[SkipSpace(s, 0)..], SplitFirstWord(s)[0])
    ensures AllSpace(s[SkipSpace(s, 0) + |SplitFirstWord(s)[0]|..])
  {
    var a := SkipSpace(s, 0);
    var b := SkipWord(s, a);
    assert SplitFirstWord(s)[0] == s[a..b];
    assert s[a..][..b - a] == s[a..b];
  }

  /** A text that `split(maxsplit=1)` cuts in two is, after its leading
      whitespace, the first part, a non-empty whitespace run and the second
      part: the word ends at the first whitespace after `a`, the rest starts at
      the first non-whitespace after that. */
  lemma {:induction false} SplitFirstWordPair(s: string, a: nat, b: nat, c: nat)
    requires a == SkipSpace(s, 0) && a < |s| && b == SkipWord(s, a) && c == SkipSpace(s, b) && c < |s|
    ensures SplitFirstWord(s) == [s[a..b], s[c..]]
    ensures a < b < c && AllSpace(s[b..c])
    ensures s[a..] == s[a..b] + s[b..c] + s[c..]
  {
    assert !IsSpace(s[a]);
    assert b < |s| && IsSpace(s[b]);
    SlicesConcat(s, a, b, c);
  }

  lemma SlicesConcat(s: string, a: nat, b: nat, c: nat)
    requires a <= b <= c <= |s|
    ensures s[a..] == s[a..b] + s[b..c] + s[c..]
  {
    assert s[a..] == s[a..b] + s[b..];
    assert s[b..] == s[b..c] + s[c..];
  }
}
