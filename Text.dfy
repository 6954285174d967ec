/**
 * String helpers with the semantics of the Python `str` operations the
 * progress parser uses: `in`, `split(',')`, `strip()`, `replace`,
 * `os.path.basename` (POSIX) and the character classes `\s`, `\d` and
 * `[A-Za-z0-9]` of Python's `re` module.
 */
module Text {

  /** Python's `str.isspace()`, which is also what `\s` and `strip()` use. */
  predicate IsSpace(c: char) {
    var n := c as int;
    (9 <= n <= 13) || (28 <= n <= 32) || n == 0x85 || n == 0xA0 || n == 0x1680
    || (0x2000 <= n <= 0x200A) || n == 0x2028 || n == 0x2029 || n == 0x202F
    || n == 0x205F || n == 0x3000
  }

  /** `\d`, restricted to the ASCII digits. */
  predicate IsDigit(c: char) {
    '0' <= c <= '9'
  }

  /** `[A-Za-z0-9]` */
  predicate IsAlnum(c: char) {
    ('A' <= c <= 'Z') || ('a' <= c <= 'z') || IsDigit(c)
  }

  /** ASCII upper-casing of one character. */
  function Upper(c: char): (u: char)
    ensures 'a' <= c <= 'z' ==> u as int == c as int - 32 && 'A' <= u <= 'Z'
    ensures !('a' <= c <= 'z') ==> u == c
  {
    if 'a' <= c <= 'z' then (c as int - 32) as char else c
  }

  predicate StartsWith(s: string, t: string) {
    |t| <= |s| && s[..|t|] == t
  }

  /** Python's `t in s` for strings: the empty text is in every text, and no longer text is. */
  predicate Contains(s: string, t: string)
    ensures Contains(s, t) ==> |t| <= |s|
    ensures t == [] ==> Contains(s, t)
    decreases |s|
  {
    StartsWith(s, t) || (|s| > 0 && Contains(s[1..], t))
  }

  /** `t` occurs in `s` at position `i`. */
  predicate OccursAt(s: string, t: string, i: nat) {
    i + |t| <= |s| && s[i..i + |t|] == t
  }

  /** `Contains` holds exactly when `t` occurs at some position of `s`. */
  lemma {:induction false} ContainsIff(s: string, t: string)
    ensures Contains(s, t) <==> exists i: nat :: OccursAt(s, t, i)
  {
    assert StartsWith(s, t) <==> OccursAt(s, t, 0);
    if |s| > 0 {
      ContainsIff(s[1..], t);
      if Contains(s[1..], t) {
        var i: nat :| OccursAt(s[1..], t, i);
        assert s[i + 1..i + 1 + |t|] == s[1..][i..i + |t|];
        assert OccursAt(s, t, i + 1);
      }
      forall i: nat | 0 < i && OccursAt(s, t, i)
        ensures Contains(s[1..], t)
      {
        assert s[1..][i - 1..i - 1 + |t|] == s[i..i + |t|];
        assert OccursAt(s[1..], t, i - 1);
      }
    } else {
      assert OccursAt(s, t, 0) <==> t == [];
    }
  }

  /** A witness position is enough to establish `Contains`. */
  lemma ContainsAt(s: string, t: string, i: nat)
    requires OccursAt(s, t, i)
    ensures Contains(s, t)
  {
    ContainsIff(s, t);
  }

  /** The first index of `c` in `s`, or `|s|` when it does not occur. */
  function IndexOf(s: string, c: char): (i: nat)
    ensures i <= |s|
    ensures i < |s| ==> s[i] == c
    ensures forall k :: 0 <= k < i ==> s[k] != c
  {
    if s == [] then 0
    else if s[0] == c then 0
    else 1 + IndexOf(s[1..], c)
  }

  /** Python's `s.split(c)` for a one-character separator. */
  function Split(s: string, c: char): (parts: seq<string>)
    ensures |parts| >= 1
    ensures forall k :: 0 <= k < |parts| ==> c !in parts[k]
    decreases |s|
  {
    var i := IndexOf(s, c);
    if i == |s| then [s] else [s[..i]] + Split(s[i + 1..], c)
  }

  /** Python's `c.join(parts)`. */
  function Join(parts: seq<string>, c: char): string
    requires |parts| >= 1
  {
    if |parts| == 1 then parts[0] else parts[0] + [c] + Join(parts[1..], c)
  }

  /** Splitting and joining again gives back the original text. */
  lemma {:induction false} JoinSplit(s: string, c: char)
    ensures Join(Split(s, c), c) == s
    decreases |s|
  {
    var i := IndexOf(s, c);
    if i < |s| {
      var parts := Split(s, c);
      var rest := Split(s[i + 1..], c);
      assert parts == [s[..i]] + rest;
      assert parts[1..] == rest;
      JoinSplit(s[i + 1..], c);
      assert Join(parts, c) == s[..i] + [c] + s[i + 1..];
      assert s == s[..i] + [c] + s[i + 1..];
    }
  }

  /** The index after the run of whitespace that starts at `i`. */
  function SkipSpace(s: string, i: nat): (j: nat)
    requires i <= |s|
    ensures i <= j <= |s|
    ensures forall k :: i <= k < j ==> IsSpace(s[k])
    ensures j < |s| ==> !IsSpace(s[j])
    decreases |s| - i
  {
    if i < |s| && IsSpace(s[i]) then SkipSpace(s, i + 1) else i
  }

  /** The index after the run of non-whitespace that starts at `i`. */
  function SkipNonSpace(s: string, i: nat): (j: nat)
    requires i <= |s|
    ensures i <= j <= |s|
    ensures forall k :: i <= k < j ==> !IsSpace(s[k])
    ensures j < |s| ==> IsSpace(s[j])
    decreases |s| - i
  {
    if i < |s| && !IsSpace(s[i]) then SkipNonSpace(s, i + 1) else i
  }

  /** The whitespace run from `i` ends at `j` when `j` is the first non-whitespace. */
  lemma {:induction false} SkipSpaceTo(s: string, i: nat, j: nat)
    requires i <= j <= |s|
    requires forall k :: i <= k < j ==> IsSpace(s[k])
    requires j < |s| ==> !IsSpace(s[j])
    ensures SkipSpace(s, i) == j
    decreases j - i
  {
    if i < j {
      SkipSpaceTo(s, i + 1, j);
    }
  }

  /** The non-whitespace run from `i` ends at `j` when `j` is the first whitespace. */
  lemma {:induction false} SkipNonSpaceTo(s: string, i: nat, j: nat)
    requires i <= j <= |s|
    requires forall k :: i <= k < j ==> !IsSpace(s[k])
    requires j < |s| ==> IsSpace(s[j])
    ensures SkipNonSpace(s, i) == j
    decreases j - i
  {
    if i < j {
      SkipNonSpaceTo(s, i + 1, j);
    }
  }

  /** The length of the run of digits that starts at `i`. */
  function DigitRun(s: string, i: nat): (n: nat)
    requires i <= |s|
    ensures i + n <= |s|
    ensures forall k :: i <= k < i + n ==> IsDigit(s[k])
    ensures i + n < |s| ==> !IsDigit(s[i + n])
    decreases |s| - i
  {
    if i < |s| && IsDigit(s[i]) then 1 + DigitRun(s, i + 1) else 0
  }

  /** The length of the run of digits that ends just before `j`. */
  function DigitRunBefore(s: string, j: nat): (n: nat)
    requires j <= |s|
    ensures n <= j
    ensures forall k :: j - n <= k < j ==> IsDigit(s[k])
    ensures n < j ==> !IsDigit(s[j - n - 1])
  {
    if j > 0 && IsDigit(s[j - 1]) then 1 + DigitRunBefore(s, j - 1) else 0
  }

  /** The index of the last `c` in `s`; `s` must contain one. */
  function LastIndexOf(s: string, c: char): (i: nat)
    requires c in s
    ensures i < |s| && s[i] == c
    ensures forall k :: i < k < |s| ==> s[k] != c
  {
    if s[|s| - 1] == c then |s| - 1
    else
      assert c in s[..|s| - 1] by {
        var k :| 0 <= k < |s| && s[k] == c;
        assert s[..|s| - 1][k] == c;
      }
      LastIndexOf(s[..|s| - 1], c)
  }

  /** The length of the run of `[A-Za-z0-9]` that starts at `i`. */
  function AlnumRun(s: string, i: nat): (n: nat)
    requires i <= |s|
    ensures i + n <= |s|
    ensures forall k :: i <= k < i + n ==> IsAlnum(s[k])
    ensures i + n < |s| ==> !IsAlnum(s[i + n])
    decreases |s| - i
  {
    if i < |s| && IsAlnum(s[i]) then 1 + AlnumRun(s, i + 1) else 0
  }

  /** The length of the run of `[A-Za-z0-9]` that ends just before `j`. */
  function AlnumRunBefore(s: string, j: nat): (n: nat)
    requires j <= |s|
    ensures n <= j
    ensures forall k :: j - n <= k < j ==> IsAlnum(s[k])
    ensures n < j ==> !IsAlnum(s[j - n - 1])
  {
    if j > 0 && IsAlnum(s[j - 1]) then 1 + AlnumRunBefore(s, j - 1) else 0
  }

  /** Python's `s.lstrip()`: drops the leading whitespace and nothing else. */
  function StripLeft(s: string): (r: string)
    ensures |r| <= |s| && r == s[|s| - |r|..]
    ensures forall k :: 0 <= k < |s| - |r| ==> IsSpace(s[k])
    ensures r != [] ==> !IsSpace(r[0])
  {
    if s != [] && IsSpace(s[0]) then StripLeft(s[1..]) else s
  }

  /** Python's `s.rstrip()`: drops the trailing whitespace and nothing else. */
  function StripRight(s: string): (r: string)
    ensures |r| <= |s| && r == s[..|r|]
    ensures forall k :: |r| <= k < |s| ==> IsSpace(s[k])
    ensures r != [] ==> !IsSpace(r[|r| - 1])
  {
    if s != [] && IsSpace(s[|s| - 1]) then StripRight(s[..|s| - 1]) else s
  }

  /** Python's `s.strip()`. */
  function Strip(s: string): string {
    StripRight(StripLeft(s))
  }

  /** A text with no whitespace at either end is its own stripped text. */
  lemma StripTrimmed(s: string)
    requires s == [] || (!IsSpace(s[0]) && !IsSpace(s[|s| - 1]))
    ensures Strip(s) == s
  {
  }

  /** The stripped text has no whitespace at its ends, and is empty exactly for blank text. */
  lemma StripEnds(s: string)
    ensures var r := Strip(s);
      && (r == [] || (!IsSpace(r[0]) && !IsSpace(r[|r| - 1])))
      && (r == [] <==> forall k :: 0 <= k < |s| ==> IsSpace(s[k]))
  {
    var l := StripLeft(s);
    assert Strip(s) == [] ==> l == [];
  }

  /** Python's `s.replace(pat, rep)`: leftmost, non-overlapping occurrences. */
  function ReplaceAll(s: string, pat: string, rep: string): string
    requires |pat| > 0
    decreases |s|
  {
    if |s| < |pat| then s
    else if s[..|pat|] == pat then rep + ReplaceAll(s[|pat|..], pat, rep)
    else [s[0]] + ReplaceAll(s[1..], pat, rep)
  }

  /** A string without an occurrence of the pattern is left unchanged. */
  lemma {:induction false} ReplaceAbsent(s: string, pat: string, rep: string)
    requires |pat| > 0 && !Contains(s, pat)
    ensures ReplaceAll(s, pat, rep) == s
    decreases |s|
  {
    if |s| >= |pat| {
      ReplaceAbsent(s[1..], pat, rep);
      assert [s[0]] + s[1..] == s;
    }
  }

  /** An occurrence at the front is replaced, and the rest is processed on its own. */
  lemma ReplaceFront(pat: string, rep: string, y: string)
    requires |pat| > 0
    ensures ReplaceAll(pat + y, pat, rep) == rep + ReplaceAll(y, pat, rep)
  {
    assert (pat + y)[..|pat|] == pat && (pat + y)[|pat|..] == y;
  }

  /** A text that does not start with the pattern keeps its first character. */
  lemma ReplaceSkip(s: string, pat: string, rep: string)
    requires |pat| > 0 && |s| >= |pat| && s[..|pat|] != pat
    ensures ReplaceAll(s, pat, rep) == [s[0]] + ReplaceAll(s[1..], pat, rep)
  {
  }

  /** No occurrence starting inside `x` means none starting inside `x[1..]`. */
  lemma NoOccurrenceTail(x: string, pat: string)
    requires x != []
    requires forall i :: 0 <= i < |x| ==> !OccursAt(x + pat, pat, i)
    ensures forall i :: 0 <= i < |x[1..]| ==> !OccursAt(x[1..] + pat, pat, i)
  {
    forall i | 0 <= i < |x[1..]| ensures !OccursAt(x[1..] + pat, pat, i) {
      assert (x[1..] + pat)[i..i + |pat|] == (x + pat)[i + 1..i + 1 + |pat|];
      assert !OccursAt(x + pat, pat, i + 1);
    }
  }

  /**
   * The leftmost occurrence is replaced: when `pat` starts nowhere inside
   * `x`, not even overlapping into the `pat` that follows, the text
   * `x + pat + y` becomes `x + rep` followed by the replacement of `y`.
   */
  lemma {:induction false} ReplaceLeftmost(x: string, pat: string, rep: string, y: string)
    requires |pat| > 0
    requires forall i :: 0 <= i < |x| ==> !OccursAt(x + pat, pat, i)
    ensures ReplaceAll(x + pat + y, pat, rep) == x + rep + ReplaceAll(y, pat, rep)
    decreases |x|
  {
    if x == [] {
      assert x + pat + y == pat + y;
      ReplaceFront(pat, rep, y);
    } else {
      var s := x + pat + y;
      assert s[..|pat|] == (x + pat)[..|pat|];
      assert !OccursAt(x + pat, pat, 0);
      ReplaceSkip(s, pat, rep);
      assert s[1..] == x[1..] + pat + y;
      NoOccurrenceTail(x, pat);
      ReplaceLeftmost(x[1..], pat, rep, y);
      assert [x[0]] + (x[1..] + rep) == x + rep;
    }
  }

  /** A text without the first character of `t` does not contain `t`. */
  lemma NoHeadNoContains(s: string, t: string)
    requires |t| > 0 && t[0] !in s
    ensures !Contains(s, t)
  {
    ContainsIff(s, t);
  }

  /** Replacing a pattern that does not start with `x` keeps the first character `x`. */
  lemma ReplaceKeepsHead(s: string, pat: string, rep: string)
    requires |pat| > 0 && |s| > 0 && pat[0] != s[0]
    ensures |ReplaceAll(s, pat, rep)| > 0 && ReplaceAll(s, pat, rep)[0] == s[0]
  {
  }

  /**
   * A two-character text `ab` survives a replacement when `a` does not occur
   * in the pattern and `b` does not start it. This is why the speed field
   * still mentions "/s" after its unit names are shortened.
   */
  lemma {:induction false} ReplaceKeepsPair(s: string, pat: string, rep: string, a: char, b: char)
    requires |pat| > 0 && a !in pat && pat[0] != b
    requires Contains(s, [a, b])
    ensures Contains(ReplaceAll(s, pat, rep), [a, b])
    decreases |s|
  {
    ContainsIff(s, [a, b]);
    var j: nat :| OccursAt(s, [a, b], j);
    assert s[j] == s[j..j + 2][0] == a && s[j + 1] == s[j..j + 2][1] == b;
    var r := ReplaceAll(s, pat, rep);
    if |s| < |pat| {
    } else if s[..|pat|] == pat {
      assert a !in s[..|pat|];
      assert j >= |pat|;
      var u := s[|pat|..];
      assert u[j - |pat|..j - |pat| + 2] == s[j..j + 2];
      ContainsAt(u, [a, b], j - |pat|);
      ReplaceKeepsPair(u, pat, rep, a, b);
      var t := ReplaceAll(u, pat, rep);
      ContainsIff(t, [a, b]);
      var m: nat :| OccursAt(t, [a, b], m);
      assert r == rep + t;
      assert r[|rep| + m..|rep| + m + 2] == t[m..m + 2];
      ContainsAt(r, [a, b], |rep| + m);
    } else if j == 0 {
      ReplaceKeepsHead(s[1..], pat, rep);
      var t := ReplaceAll(s[1..], pat, rep);
      assert r == [a] + t;
      assert r[0..2] == [a, b];
      ContainsAt(r, [a, b], 0);
    } else {
      var u := s[1..];
      assert u[j - 1..j + 1] == s[j..j + 2];
      ContainsAt(u, [a, b], j - 1);
      ReplaceKeepsPair(u, pat, rep, a, b);
      var t := ReplaceAll(u, pat, rep);
      ContainsIff(t, [a, b]);
      var m: nat :| OccursAt(t, [a, b], m);
      assert r == [s[0]] + t;
      assert r[1 + m..m + 3] == t[m..m + 2];
      ContainsAt(r, [a, b], 1 + m);
    }
  }

  /**
   * POSIX `os.path.basename`: the text after the last '/'. The result is a
   * suffix of `s` without '/', and it is all of `s` or is preceded by '/'.
   */
  function Basename(s: string): (r: string)
    ensures |r| <= |s| && r == s[|s| - |r|..]
    ensures '/' !in r
    ensures |r| < |s| ==> s[|s| - |r| - 1] == '/'
  {
    if s == [] then []
    else if s[|s| - 1] == '/' then []
    else
      var b := Basename(s[..|s| - 1]);
      assert s[|s| - 1 - |b|..] == b + [s[|s| - 1]];
      b + [s[|s| - 1]]
  }

  /** `s[a..b]` is a maximal run of non-whitespace: whitespace or an end of `s` on each side. */
  predicate IsRun(s: string, a: nat, b: nat) {
    && a < b <= |s|
    && (forall k :: a <= k < b ==> !IsSpace(s[k]))
    && (a == 0 || IsSpace(s[a - 1]))
    && (b == |s| || IsSpace(s[b]))
  }

  /** Where each run of non-whitespace from `i` on starts and ends. */
  function WordSpans(s: string, i: nat): (sp: seq<(nat, nat)>)
    requires i <= |s|
    ensures forall k :: 0 <= k < |sp| ==> i <= sp[k].0 < sp[k].1 <= |s|
    decreases |s| - i
  {
    var a := SkipSpace(s, i);
    if a == |s| then []
    else
      var b := SkipNonSpace(s, a);
      [(a, b)] + WordSpans(s, b)
  }

  /** Each span from `i` on is a maximal run; `i` must not cut a run. */
  lemma {:induction false} WordSpansAreRuns(s: string, i: nat)
    requires i <= |s|
    requires i == 0 || i == |s| || IsSpace(s[i - 1]) || IsSpace(s[i])
    ensures forall k :: 0 <= k < |WordSpans(s, i)| ==> IsRun(s, WordSpans(s, i)[k].0, WordSpans(s, i)[k].1)
    decreases |s| - i
  {
    var a := SkipSpace(s, i);
    if a < |s| {
      var b := SkipNonSpace(s, a);
      var rest := WordSpans(s, b);
      var sp := WordSpans(s, i);
      assert sp == [(a, b)] + rest;
      WordSpansAreRuns(s, b);
      assert a > i ==> IsSpace(s[a - 1]);
      assert IsRun(s, a, b);
      forall k | 0 < k < |sp| ensures IsRun(s, sp[k].0, sp[k].1) {
        assert sp[k] == rest[k - 1];
      }
    }
  }

  /** Each span ends before the next one starts, with whitespace in between. */
  lemma {:induction false} WordSpansOrdered(s: string, i: nat)
    requires i <= |s|
    ensures forall k :: 0 <= k < |WordSpans(s, i)| - 1 ==> WordSpans(s, i)[k].1 < WordSpans(s, i)[k + 1].0
    decreases |s| - i
  {
    var a := SkipSpace(s, i);
    if a < |s| {
      var b := SkipNonSpace(s, a);
      var rest := WordSpans(s, b);
      var sp := WordSpans(s, i);
      assert sp == [(a, b)] + rest;
      WordSpansOrdered(s, b);
      if rest != [] {
        assert rest[0].0 == SkipSpace(s, b) && !IsSpace(s[rest[0].0]);
      }
      forall k | 0 <= k < |sp| - 1 ensures sp[k].1 < sp[k + 1].0 {
        assert sp[k + 1] == rest[k];
        if k > 0 {
          assert sp[k] == rest[k - 1];
        }
      }
    }
  }

  /** Position `p` lies in one of the spans. */
  predicate Covered(sp: seq<(nat, nat)>, p: nat) {
    exists k :: 0 <= k < |sp| && sp[k].0 <= p < sp[k].1
  }

  /** Every non-whitespace position from `i` on lies in one of the spans. */
  lemma {:induction false} WordSpansCover(s: string, i: nat)
    requires i <= |s|
    ensures forall p: nat :: i <= p < |s| && !IsSpace(s[p]) ==> Covered(WordSpans(s, i), p)
    decreases |s| - i
  {
    var a := SkipSpace(s, i);
    var sp := WordSpans(s, i);
    if a < |s| {
      var b := SkipNonSpace(s, a);
      var rest := WordSpans(s, b);
      assert sp == [(a, b)] + rest;
      WordSpansCover(s, b);
      forall p: nat | i <= p < |s| && !IsSpace(s[p]) ensures Covered(sp, p) {
        assert p >= a;
        if p < b {
          assert sp[0].0 <= p < sp[0].1;
        } else {
          assert Covered(rest, p);
          var k :| 0 <= k < |rest| && rest[k].0 <= p < rest[k].1;
          assert sp[k + 1] == rest[k];
        }
      }
    }
  }

  /** `re.split(r'\s+', s)` on stripped text: the text of each run, in order. */
  function Words(s: string): (ws: seq<string>)
    ensures forall k :: 0 <= k < |ws| ==> ws[k] != [] && forall c :: c in ws[k] ==> !IsSpace(c)
  {
    var sp := WordSpans(s, 0);
    WordSpansAreRuns(s, 0);
    seq(|sp|, k requires 0 <= k < |sp| => s[sp[k].0..sp[k].1])
  }

  /**
   * The words are the maximal runs of non-whitespace of `s`, in order: each
   * word is the text of a run, the runs are separated, and every
   * non-whitespace character of `s` belongs to one of them.
   */
  lemma WordsAreRuns(s: string)
    ensures var ws := Words(s); var sp := WordSpans(s, 0);
      && |ws| == |sp|
      && (forall k :: 0 <= k < |ws| ==> ws[k] == s[sp[k].0..sp[k].1] && IsRun(s, sp[k].0, sp[k].1))
      && (forall k :: 0 <= k < |sp| - 1 ==> sp[k].1 < sp[k + 1].0)
      && (forall p: nat :: p < |s| && !IsSpace(s[p]) ==> Covered(sp, p))
  {
    WordSpansAreRuns(s, 0);
    WordSpansOrdered(s, 0);
    WordSpansCover(s, 0);
  }
}
