/**
 * `TransferEngine.parse_rclone_progress`: classifies one line of rclone
 * output. An aggregate "Transferred:" line becomes a progress event built
 * from its comma-separated fields; otherwise three filename patterns are
 * tried in turn; anything else yields no event.
 *
 * Each regular expression of the original is written out as a scanner with
 * Python's leftmost, backtracking semantics for that one pattern.
 */
module ProgressParser {
  import opened Text
  import opened Outcomes

  datatype Event =
    | Progress(percent: nat, speed: string, eta: string)
    | File(name: string)

  const Marker: string := "Transferred:"
  const DefaultSpeed: string := "0 B/s"
  const UnknownEta: string := "---"

  // ---------------------------------------------------------------------------
  // Percentage field: re.search(r'(\d{1,3})\%', p)

  function Pow10(n: nat): (r: nat)
    ensures r >= 1
  {
    if n == 0 then 1 else 10 * Pow10(n - 1)
  }

  predicate AllDigits(s: string) {
    forall k :: 0 <= k < |s| ==> IsDigit(s[k])
  }

  /** Python's `int(d)` for a string of ASCII digits. */
  function DigitsValue(d: string): (v: nat)
    requires AllDigits(d)
    ensures v < Pow10(|d|)
  {
    if d == [] then 0
    else
      var init := d[..|d| - 1];
      assert AllDigits(init) by {
        forall k | 0 <= k < |init| ensures IsDigit(init[k]) {
          assert init[k] == d[k];
        }
      }
      var v0 := DigitsValue(init);
      assert IsDigit(d[|d| - 1]);
      var digit := d[|d| - 1] as int - '0' as int;
      assert v0 * 10 + digit < Pow10(|d|) by {
        assert v0 <= Pow10(|init|) - 1;
        assert v0 * 10 <= Pow10(|init|) * 10 - 10;
      }
      v0 * 10 + digit
  }

  /** The pattern matches when the search reaches position `i`. */
  predicate PercentAt(p: string, i: nat)
    requires i <= |p|
  {
    var n := DigitRun(p, i);
    1 <= n <= 3 && i + n < |p| && p[i + n] == '%'
  }

  /** Leftmost search for the pattern from position `i`; the value of group 1. */
  function PercentFrom(p: string, i: nat): (r: Option<nat>)
    requires i <= |p|
    ensures r.Some? ==> r.value < 1000
    decreases |p| - i
  {
    if i == |p| then None
    else if PercentAt(p, i) then
      var n := DigitRun(p, i);
      var d := p[i..i + n];
      assert AllDigits(d) by {
        forall k | 0 <= k < |d| ensures IsDigit(d[k]) {
          assert d[k] == p[i + k];
        }
      }
      assert Pow10(n) <= 1000 by {
        assert n == 1 || n == 2 || n == 3;
      }
      Some(DigitsValue(p[i..i + n]))
    else PercentFrom(p, i + 1)
  }

  function PercentIn(p: string): (r: Option<nat>)
    ensures r.Some? ==> r.value < 1000
  {
    PercentFrom(p, 0)
  }

  /** Position `j` holds a '%' immediately preceded by a digit. */
  predicate SignAfterDigit(p: string, j: nat) {
    0 < j < |p| && p[j] == '%' && IsDigit(p[j - 1])
  }

  /** The up-to-three digits that stand immediately before position `j`. */
  function DigitsBefore(p: string, j: nat): (d: string)
    requires j <= |p|
    ensures |d| <= 3 && AllDigits(d)
  {
    var k := Min(3, DigitRunBefore(p, j));
    var d := p[j - k..j];
    assert AllDigits(d) by {
      forall m | 0 <= m < |d| ensures IsDigit(d[m]) {
        assert d[m] == p[j - k + m];
      }
    }
    d
  }

  lemma PercentSkip(p: string, i: nat, i0: nat)
    requires i <= i0 <= |p|
    requires forall m :: i <= m < i0 ==> !PercentAt(p, m)
    ensures PercentFrom(p, i) == PercentFrom(p, i0)
    decreases i0 - i
  {
    if i < i0 {
      PercentSkip(p, i + 1, i0);
    }
  }

  /** A run of digits from `i` that stops at the non-digit at `j` has length `j - i`. */
  lemma {:induction false} DigitRunUpTo(p: string, i: nat, j: nat)
    requires i <= j < |p| && !IsDigit(p[j])
    requires forall k :: i <= k < j ==> IsDigit(p[k])
    ensures DigitRun(p, i) == j - i
    decreases j - i
  {
    if i < j {
      DigitRunUpTo(p, i + 1, j);
    }
  }

  /** Where the search can match if `j` is the first '%' after a digit. */
  lemma PercentAtOnlyFrom(p: string, j: nat, m: nat)
    requires SignAfterDigit(p, j)
    requires forall m' :: 0 <= m' < j ==> !SignAfterDigit(p, m')
    requires m <= |p|
    ensures PercentAt(p, m) ==> m >= j - Min(3, DigitRunBefore(p, j))
  {
    if PercentAt(p, m) {
      var n := DigitRun(p, m);
      assert SignAfterDigit(p, m + n);
      assert m + n >= j;
      assert !(m <= j < m + n);
      if m <= j {
        assert m + n == j;
        var b := DigitRunBefore(p, j);
        assert !(b < n && m <= j - b - 1);
        assert b >= n;
      }
    }
  }

  /**
   * The percentage is read at the first '%' that follows a digit, from the
   * (at most three) digits just before it.
   */
  lemma PercentIsFirstSign(p: string, j: nat)
    requires SignAfterDigit(p, j)
    requires forall m :: 0 <= m < j ==> !SignAfterDigit(p, m)
    ensures PercentIn(p) == Some(DigitsValue(DigitsBefore(p, j)))
  {
    var k := Min(3, DigitRunBefore(p, j));
    var i0 := j - k;
    assert IsDigit(p[j - 1]);
    DigitRunUpTo(p, i0, j);
    assert PercentAt(p, i0);
    forall m | 0 <= m < i0
      ensures !PercentAt(p, m)
    {
      PercentAtOnlyFrom(p, j, m);
    }
    PercentSkip(p, 0, i0);
  }

  lemma {:induction false} NoSignFrom(p: string, i: nat)
    requires i <= |p|
    requires forall m :: 0 <= m < |p| ==> !SignAfterDigit(p, m)
    ensures PercentFrom(p, i) == None
    decreases |p| - i
  {
    if i < |p| {
      if PercentAt(p, i) {
        assert SignAfterDigit(p, i + DigitRun(p, i));
      }
      NoSignFrom(p, i + 1);
    }
  }

  /** Without a '%' right after a digit there is no percentage. */
  lemma NoSignNoPercent(p: string)
    requires forall m :: 0 <= m < |p| ==> !SignAfterDigit(p, m)
    ensures PercentIn(p) == None
  {
    NoSignFrom(p, 0);
  }

  // ---------------------------------------------------------------------------
  // ETA field: p.upper().startswith('ETA') or re.match(r'^\d{1,2}:\d{2}(:\d{2})?$', p),
  // then re.search(r'ETA\s*[:\-]?\s*(\S+)', p, re.IGNORECASE)

  /** "ETA", ignoring case, at position `i`. */
  predicate EtaAt(p: string, i: nat) {
    i + 3 <= |p| && Upper(p[i]) == 'E' && Upper(p[i + 1]) == 'T' && Upper(p[i + 2]) == 'A'
  }

  /** `$`: the end of the text, or just before a final newline. */
  predicate EndAt(p: string, k: nat) {
    k == |p| || (k + 1 == |p| && p[k] == '\n')
  }

  /** `^\d{1,2}:\d{2}(:\d{2})?$` with `h` digits for the first group. */
  predicate ClockWith(p: string, h: nat)
    requires h == 1 || h == 2
  {
    h + 3 <= |p| && AllDigits(p[..h]) && p[h] == ':' && AllDigits(p[h + 1..h + 3])
    && (EndAt(p, h + 3)
        || (h + 6 <= |p| && p[h + 3] == ':' && AllDigits(p[h + 4..h + 6]) && EndAt(p, h + 6)))
  }

  predicate ClockLike(p: string) {
    ClockWith(p, 1) || ClockWith(p, 2)
  }

  /** A field that the ETA branch accepts. */
  predicate EtaLike(p: string) {
    EtaAt(p, 0) || ClockLike(p)
  }

  /** The `(\S+)` group starting at `x`: a non-empty piece of `p` without whitespace. */
  function WordAt(p: string, x: nat): (g: string)
    requires x < |p| && !IsSpace(p[x])
    ensures g != [] && (forall k :: 0 <= k < |g| ==> !IsSpace(g[k])) && Contains(p, g)
  {
    var e := SkipNonSpace(p, x);
    assert OccursAt(p, p[x..e], x);
    ContainsAt(p, p[x..e], x);
    p[x..e]
  }

  /** Group 1 of `ETA\s*[:\-]?\s*(\S+)` when the search tries position `i`. */
  function EtaGroupAt(p: string, i: nat): (g: Option<string>)
    requires i <= |p|
    ensures g.Some? ==> g.value != [] && (forall k :: 0 <= k < |g.value| ==> !IsSpace(g.value[k])) && Contains(p, g.value)
  {
    if !EtaAt(p, i) then None
    else
      var q := SkipSpace(p, i + 3);
      if q == |p| then None
      else if p[q] == ':' || p[q] == '-' then
        var r := SkipSpace(p, q + 1);
        if r < |p| then Some(WordAt(p, r))
        else Some(WordAt(p, q))
      else Some(WordAt(p, q))
  }

  function EtaSearch(p: string, i: nat): (g: Option<string>)
    requires i <= |p|
    ensures g.Some? ==> g.value != [] && (forall k :: 0 <= k < |g.value| ==> !IsSpace(g.value[k])) && Contains(p, g.value)
    decreases |p| - i
  {
    if i == |p| then None
    else
      match EtaGroupAt(p, i)
      case Some(g) => Some(g)
      case None => EtaSearch(p, i + 1)
  }

  /**
   * The ETA text taken from an ETA-like field: the whole field, or a
   * non-empty piece of it without whitespace.
   */
  function EtaText(p: string): (r: string)
    ensures r == p || (r != [] && (forall k :: 0 <= k < |r| ==> !IsSpace(r[k])) && Contains(p, r))
  {
    EtaSearch(p, 0).GetOr(p)
  }

  // ---------------------------------------------------------------------------
  // The aggregate line

  /** The values found so far by the loop over the fields. */
  datatype Fields = Fields(percent: Option<nat>, speed: Option<string>, eta: Option<string>)

  const NoFields: Fields := Fields(None, None, None)

  /** One iteration of the loop over the fields, with its `continue`s. */
  function Absorb(f: Fields, p: string): Fields {
    var m := PercentIn(p);
    if m.Some? && f.percent.None? then f.(percent := m)
    else if Contains(p, "/s") && f.speed.None? then f.(speed := Some(p))
    else if EtaLike(p) then f.(eta := Some(EtaText(p)))
    else f
  }

  /** The whole loop over `parts`, as a left fold. */
  function Scan(parts: seq<string>): (f: Fields)
    ensures f.percent.Some? ==> f.percent.value < 1000
  {
    if parts == [] then NoFields
    else Absorb(Scan(parts[..|parts| - 1]), parts[|parts| - 1])
  }

  /** `[p.strip() for p in line.split(',')]` */
  function FieldsOf(line: string): seq<string> {
    var xs := Split(line, ',');
    seq(|xs|, k requires 0 <= k < |xs| => Strip(xs[k]))
  }

  /**
   * `speed.replace("MBytes", "MB").replace("KBytes", "KB").replace("GBytes", "GB")`.
   * Shortening the unit names keeps the "/s" of a speed.
   */
  function NormalizeSpeed(s: string): (r: string)
    ensures Contains(s, "/s") ==> Contains(r, "/s")
  {
    var s1 := ReplaceAll(s, "MBytes", "MB");
    var s2 := ReplaceAll(s1, "KBytes", "KB");
    if Contains(s, "/s") then
      ReplaceKeepsPair(s, "MBytes", "MB", '/', 's');
      ReplaceKeepsPair(s1, "KBytes", "KB", '/', 's');
      ReplaceKeepsPair(s2, "GBytes", "GB", '/', 's');
      ReplaceAll(s2, "GBytes", "GB")
    else ReplaceAll(s2, "GBytes", "GB")
  }

  /** The progress event of an aggregate line, with the fallback defaults. */
  function Aggregate(line: string): (e: Event)
    ensures e.Progress? && e.percent < 1000
  {
    var f := Scan(FieldsOf(line));
    Progress(f.percent.GetOr(0), NormalizeSpeed(f.speed.GetOr(DefaultSpeed)), f.eta.GetOr(UnknownEta))
  }

  // ---------------------------------------------------------------------------
  // Per-file lines

  /** `:\s*\d{1,3}%` starting at the colon at position `c`. */
  predicate ColonPercentAt(line: string, c: nat) {
    c < |line| && line[c] == ':'
    && var d := SkipSpace(line, c + 1);
       var n := DigitRun(line, d);
       1 <= n <= 3 && d + n < |line| && line[d + n] == '%'
  }

  /**
   * The lazy `(?P<path>.+?)` from `s`, tried with the path ending before `c`:
   * a non-empty path without a newline that `:\s*\d{1,3}%` follows.
   */
  function LazyPathFrom(line: string, s: nat, c: nat): (r: Option<string>)
    requires s < c <= |line|
    requires forall k :: s <= k < c - 1 ==> line[k] != '\n'
    ensures r.Some? ==> ':' in line
    ensures r.Some? ==> r.value != [] && '\n' !in r.value
    decreases |line| - c
  {
    if line[c - 1] == '\n' then None
    else if ColonPercentAt(line, c) then
      NoNewlineIn(line, s, c);
      assert line[c] == ':';
      Some(line[s..c])
    else if c < |line| then LazyPathFrom(line, s, c + 1)
    else None
  }

  /** The path the lazy group takes is followed by `:\s*\d{1,3}%`. */
  lemma {:induction false} LazyPathFollowed(line: string, s: nat, c: nat)
    requires s < c <= |line|
    requires forall k :: s <= k < c - 1 ==> line[k] != '\n'
    ensures LazyPathFrom(line, s, c).Some? ==>
      s + |LazyPathFrom(line, s, c).value| <= |line|
      && ColonPercentAt(line, s + |LazyPathFrom(line, s, c).value|)
    decreases |line| - c
  {
    if line[c - 1] == '\n' {
    } else if ColonPercentAt(line, c) {
      assert |line[s..c]| == c - s;
    } else if c < |line| {
      LazyPathFollowed(line, s, c + 1);
    }
  }

  /** A piece of `line` whose characters are not newlines has no newline. */
  lemma NoNewlineIn(line: string, s: nat, c: nat)
    requires s < c <= |line|
    requires forall k :: s <= k < c ==> line[k] != '\n'
    ensures line[s..c] != [] && |line[s..c]| == c - s && '\n' !in line[s..c]
  {
    forall j | 0 <= j < c - s ensures line[s..c][j] != '\n' {
      assert line[s..c][j] == line[s + j];
    }
  }

  /** re.search(r'(?P<path>.+?):\s*\d{1,3}%', line).group('path') */
  function PathSearch(line: string, s: nat): (r: Option<string>)
    requires s <= |line|
    ensures r.Some? ==> ':' in line && r.value != [] && '\n' !in r.value
    decreases |line| - s
  {
    if s == |line| then None
    else
      match LazyPathFrom(line, s, s + 1)
      case Some(path) => Some(path)
      case None => PathSearch(line, s + 1)
  }

  /** The first ':' at or after `i`, or `|s|`. */
  function NextColon(s: string, i: nat): (e: nat)
    requires i <= |s|
    ensures i <= e <= |s|
    ensures e < |s| ==> s[e] == ':'
    ensures forall k :: i <= k < e ==> s[k] != ':'
    decreases |s| - i
  {
    if i == |s| || s[i] == ':' then i else NextColon(s, i + 1)
  }

  /** The last '.' in [lo, e) that is followed by a letter or digit. */
  function LastDotBefore(s: string, lo: nat, e: nat): (r: Option<nat>)
    requires lo <= e <= |s|
    ensures r.Some? ==> lo <= r.value < e && r.value + 1 < |s| && s[r.value] == '.'
    decreases e - lo
  {
    if e == lo then None
    else if s[e - 1] == '.' && e < |s| && IsAlnum(s[e]) then Some(e - 1)
    else LastDotBefore(s, lo, e - 1)
  }

  /** Where `([^\s:][^:]*\.[A-Za-z0-9]{1,5})` ends when it matches at `t`. */
  function FileTokenEnd(s: string, t: nat): (r: Option<nat>)
    requires t < |s|
    ensures r.Some? ==> t < r.value <= |s| && !IsSpace(s[t])
    ensures r.Some? ==> forall k :: t <= k < r.value ==> s[k] != ':'
  {
    if IsSpace(s[t]) || s[t] == ':' then None
    else
      match LastDotBefore(s, t + 1, NextColon(s, t + 1))
      case None => None
      case Some(d) => Some(d + 1 + Min(5, AlnumRun(s, d + 1)))
  }

  /**
   * The last match of re.findall(r'([^\s:][^:]*\.[A-Za-z0-9]{1,5})', s) from
   * `t` on, or `last` when there is none: a non-empty token without ':' that
   * does not start with whitespace.
   */
  function LastFileToken(s: string, t: nat, last: Option<string>): (r: Option<string>)
    requires t <= |s|
    ensures r.Some? ==> r == last || (r.value != [] && !IsSpace(r.value[0]) && ':' !in r.value)
    decreases |s| - t
  {
    if t == |s| then last
    else
      match FileTokenEnd(s, t)
      case Some(e) =>
        NoColonIn(s, t, e);
        LastFileToken(s, e, Some(s[t..e]))
      case None => LastFileToken(s, t + 1, last)
  }

  /** Where the colon of `([^\s:][^:]*\.[A-Za-z0-9]{1,5})\:` is when it matches at `t`. */
  function ColonTokenEnd(s: string, t: nat): (r: Option<nat>)
    requires t < |s|
    ensures r.Some? ==> t < r.value < |s| && s[r.value] == ':' && !IsSpace(s[t])
    ensures r.Some? ==> forall k :: t <= k < r.value ==> s[k] != ':'
  {
    if IsSpace(s[t]) || s[t] == ':' then None
    else
      var e := NextColon(s, t + 1);
      if e == |s| then None
      else
        var n := AlnumRunBefore(s, e);
        if 1 <= n <= 5 && e >= t + n + 2 && s[e - n - 1] == '.' then Some(e) else None
  }

  /**
   * The last group of re.findall(r'([^\s:][^:]*\.[A-Za-z0-9]{1,5})\:', s) from
   * `t` on, or `last` when there is none: a non-empty token without ':' that
   * does not start with whitespace, taken from a text with a ':'.
   */
  function LastColonToken(s: string, t: nat, last: Option<string>): (r: Option<string>)
    requires t <= |s|
    ensures r.Some? ==> r == last || ':' in s
    ensures r.Some? ==> r == last || (r.value != [] && !IsSpace(r.value[0]) && ':' !in r.value)
    decreases |s| - t
  {
    if t == |s| then last
    else
      match ColonTokenEnd(s, t)
      case Some(e) =>
        NoColonIn(s, t, e);
        LastColonToken(s, e + 1, Some(s[t..e]))
      case None => LastColonToken(s, t + 1, last)
  }

  /** A piece of `s` whose characters are not ':' does not contain ':'. */
  lemma NoColonIn(s: string, t: nat, e: nat)
    requires t < e <= |s| && !IsSpace(s[t])
    requires forall k :: t <= k < e ==> s[k] != ':'
    ensures s[t..e] != [] && !IsSpace(s[t..e][0]) && ':' !in s[t..e]
  {
    forall j | 0 <= j < e - t ensures s[t..e][j] != ':' {
      assert s[t..e][j] == s[t + j];
    }
  }

  /** `line.rsplit(':', 1)[0]` */
  function BeforeLastColon(line: string): string
    requires ':' in line
  {
    line[..LastIndexOf(line, ':')]
  }

  /** The basename of the last token containing '.' whose basename is not empty. */
  function LastDottedName(toks: seq<string>): (r: Option<string>)
    ensures r.Some? ==> r.value != [] && '/' !in r.value
  {
    if toks == [] then None
    else
      var tok := toks[|toks| - 1];
      if '.' in tok && Basename(tok) != [] then Some(Basename(tok))
      else LastDottedName(toks[..|toks| - 1])
  }

  /** The three filename patterns, tried in order. */
  function FileLine(line: string): (r: Option<Event>)
    ensures r.Some? ==> r.value.File? && r.value.name != [] && '/' !in r.value.name
    ensures r.Some? ==> ':' in line
  {
    var m1 := PathSearch(line, 0);
    var n1 :=
      if m1.None? then []
      else
        var path := Strip(m1.value);
        match LastFileToken(path, 0, None)
        case Some(tok) => Basename(tok)
        case None => Basename(path);
    if m1.Some? && n1 != [] then Some(File(n1))
    else
      var m2 := LastColonToken(line, 0, None);
      if m2.Some? && Basename(m2.value) != [] then Some(File(Basename(m2.value)))
      else if ('/' in line || '\\' in line) && ':' in line then
        match LastDottedName(Words(BeforeLastColon(line)))
        case Some(n) => Some(File(n))
        case None => None
      else None
  }

  // ---------------------------------------------------------------------------
  // The parser

  /**
   * `parse_rclone_progress(line)`. A line with the marker always gives a
   * progress event; a file event never comes from such a line, and always
   * names a non-empty basename.
   */
  function Parse(line: string): (r: Option<Event>)
    ensures Contains(line, Marker) <==> r.Some? && r.value.Progress?
    ensures r.Some? && r.value.Progress? ==> r.value.percent < 1000
    ensures r.Some? && r.value.File? ==> r.value.name != [] && '/' !in r.value.name && ':' in line
  {
    if Contains(line, Marker) then Some(Aggregate(line)) else FileLine(line)
  }

  /** The loop over the fields, with its `continue`s, as `parse_rclone_progress` runs it. */
  method ScanFields(parts: seq<string>) returns (f: Fields)
    ensures f == Scan(parts)
  {
    var percentage: Option<nat> := None;
    var speed: Option<string> := None;
    var eta: Option<string> := None;
    for i := 0 to |parts|
      invariant Fields(percentage, speed, eta) == Scan(parts[..i])
    {
      assert parts[..i + 1][..i] == parts[..i];
      var p := parts[i];
      var m := PercentIn(p);
      if m.Some? && percentage.None? {
        percentage := m;
        continue;
      }
      if Contains(p, "/s") && speed.None? {
        speed := Some(p);
        continue;
      }
      if EtaLike(p) {
        eta := Some(EtaText(p));
        continue;
      }
    }
    assert parts[..|parts|] == parts;
    f := Fields(percentage, speed, eta);
  }

  /** The parser as `parse_rclone_progress` runs it, with its defaults filled in after the loop. */
  method ParseLine(line: string) returns (r: Option<Event>)
    ensures r == Parse(line)
  {
    if !Contains(line, Marker) {
      return FileLine(line);
    }
    var f := ScanFields(FieldsOf(line));
    var pct := f.percent.GetOr(0);
    var sp := f.speed.GetOr(DefaultSpeed);
    var e := f.eta.GetOr(UnknownEta);
    sp := NormalizeSpeed(sp);
    r := Some(Progress(pct, sp, e));
  }
}
