/**
 * What the aggregate branch of the parser promises: which field each value
 * comes from, the defaults, and the shape of the returned events.
 */
module ProgressParserLemmas {
  import opened Text
  import opened Outcomes
  import opened ProgressParser

  // ---------------------------------------------------------------------------
  // Percentage: the first field that carries one

  lemma {:induction false} PercentAbsent(parts: seq<string>)
    ensures Scan(parts).percent.None? <==> forall j :: 0 <= j < |parts| ==> PercentIn(parts[j]).None?
  {
    if parts != [] {
      var init := parts[..|parts| - 1];
      PercentAbsent(init);
      assert forall j :: 0 <= j < |init| ==> init[j] == parts[j];
    }
  }

  /** The percentage is the one of the first field in which the pattern matches. */
  lemma {:induction false} PercentFromFirstField(parts: seq<string>, i: nat)
    requires i < |parts| && PercentIn(parts[i]).Some?
    requires forall j :: 0 <= j < i ==> PercentIn(parts[j]).None?
    ensures Scan(parts).percent == PercentIn(parts[i])
  {
    var init := parts[..|parts| - 1];
    assert forall j :: 0 <= j < |init| ==> init[j] == parts[j];
    if i == |parts| - 1 {
      PercentAbsent(init);
    } else {
      PercentFromFirstField(init, i);
    }
  }

  // ---------------------------------------------------------------------------
  // Speed: the first "/s" field not taken as the percentage

  /** A speed, once found, is one of the fields and mentions "/s". */
  lemma {:induction false} SpeedIsField(parts: seq<string>)
    ensures Scan(parts).speed.Some? ==> Scan(parts).speed.value in parts && Contains(Scan(parts).speed.value, "/s")
  {
    if parts != [] {
      var init := parts[..|parts| - 1];
      SpeedIsField(init);
      assert forall x :: x in init ==> x in parts;
    }
  }

  lemma {:induction false} SpeedAbsent(parts: seq<string>)
    requires forall j :: 0 <= j < |parts| ==> !Contains(parts[j], "/s")
    ensures Scan(parts).speed.None?
  {
    if parts != [] {
      var init := parts[..|parts| - 1];
      assert forall j :: 0 <= j < |init| ==> init[j] == parts[j];
      SpeedAbsent(init);
    }
  }

  /** The field at `i` is the one the percentage branch takes: the first with a match. */
  predicate IsPercentField(parts: seq<string>, i: nat)
    requires i < |parts|
  {
    PercentIn(parts[i]).Some? && forall j :: 0 <= j < i ==> PercentIn(parts[j]).None?
  }

  /**
   * The field at `i` is the one the speed branch takes: it mentions "/s", the
   * percentage branch does not take it, and every earlier "/s" field was taken
   * by the percentage branch.
   */
  predicate IsSpeedField(parts: seq<string>, i: nat)
    requires i < |parts|
  {
    && Contains(parts[i], "/s") && !IsPercentField(parts, i)
    && forall j :: 0 <= j < i && Contains(parts[j], "/s") ==> IsPercentField(parts, j)
  }

  /** Dropping the last field does not change which earlier fields the branches take. */
  lemma PrefixFields(parts: seq<string>)
    requires parts != []
    ensures var init := parts[..|parts| - 1];
      forall j :: 0 <= j < |init| ==>
        init[j] == parts[j] && IsPercentField(init, j) == IsPercentField(parts, j)
        && IsSpeedField(init, j) == IsSpeedField(parts, j)
  {
    var init := parts[..|parts| - 1];
    assert forall j :: 0 <= j < |init| ==> init[j] == parts[j];
  }

  /** No speed is picked exactly when every "/s" field is taken as the percentage. */
  lemma {:induction false} SpeedNoneIff(parts: seq<string>)
    ensures Scan(parts).speed.None? <==>
      forall j :: 0 <= j < |parts| && Contains(parts[j], "/s") ==> IsPercentField(parts, j)
  {
    if parts != [] {
      var init := parts[..|parts| - 1];
      var n := |parts| - 1;
      PrefixFields(parts);
      SpeedNoneIff(init);
      PercentAbsent(init);
      assert Scan(init).percent.None? <==> forall j :: 0 <= j < n ==> PercentIn(parts[j]).None?;
      assert IsPercentField(parts, n) <==> PercentIn(parts[n]).Some? && Scan(init).percent.None?;
    }
  }

  /** Which branch the last field takes, in terms of the fields before it. */
  lemma LastFieldTaken(parts: seq<string>)
    requires parts != []
    ensures var init := parts[..|parts| - 1]; var n := |parts| - 1;
      && (IsPercentField(parts, n) <==> PercentIn(parts[n]).Some? && Scan(init).percent.None?)
      && (IsSpeedField(parts, n) <==> Contains(parts[n], "/s") && !IsPercentField(parts, n) && Scan(init).speed.None?)
  {
    var init := parts[..|parts| - 1];
    var n := |parts| - 1;
    PrefixFields(parts);
    SpeedNoneIff(init);
    PercentAbsent(init);
    assert Scan(init).percent.None? <==> forall j :: 0 <= j < n ==> PercentIn(parts[j]).None?;
  }

  /**
   * The speed is the field the speed branch takes. A "/s" field that also
   * holds a percentage counts when the percentage was already set.
   */
  lemma {:induction false} SpeedFromFirstField(parts: seq<string>, i: nat)
    requires i < |parts| && IsSpeedField(parts, i)
    ensures Scan(parts).speed == Some(parts[i])
  {
    var init := parts[..|parts| - 1];
    PrefixFields(parts);
    if i == |parts| - 1 {
      LastFieldTaken(parts);
    } else {
      SpeedFromFirstField(init, i);
    }
  }

  // ---------------------------------------------------------------------------
  // ETA: no guard, so the last ETA-like field wins

  /** An ETA, once found, is the text taken from one of the ETA-like fields. */
  lemma {:induction false} EtaIsField(parts: seq<string>)
    ensures Scan(parts).eta.Some? ==>
      exists j :: 0 <= j < |parts| && EtaLike(parts[j]) && Scan(parts).eta.value == EtaText(parts[j])
  {
    if parts != [] {
      var init := parts[..|parts| - 1];
      EtaIsField(init);
      if Scan(parts).eta.Some? && Scan(parts).eta != Scan(init).eta {
        assert EtaLike(parts[|parts| - 1]);
      } else if Scan(parts).eta.Some? {
        var j :| 0 <= j < |init| && EtaLike(init[j]) && Scan(init).eta.value == EtaText(init[j]);
        assert init[j] == parts[j];
      }
    }
  }

  /**
   * An ETA-like field that neither the percentage nor the speed branch takes
   * decides the ETA when every later ETA-like field is taken by one of those
   * branches, whatever came before.
   */
  lemma {:induction false} EtaFromLastField(parts: seq<string>, i: nat)
    requires i < |parts| && EtaLike(parts[i])
    requires !IsPercentField(parts, i) && !IsSpeedField(parts, i)
    requires forall j :: i < j < |parts| && EtaLike(parts[j]) ==> IsPercentField(parts, j) || IsSpeedField(parts, j)
    ensures Scan(parts).eta == Some(EtaText(parts[i]))
  {
    var init := parts[..|parts| - 1];
    var n := |parts| - 1;
    PrefixFields(parts);
    LastFieldTaken(parts);
    if i < n {
      EtaFromLastField(init, i);
    }
  }

  /**
   * No ETA is picked exactly when every ETA-like field is taken by the
   * percentage or the speed branch.
   */
  lemma {:induction false} EtaNoneIff(parts: seq<string>)
    ensures Scan(parts).eta.None? <==>
      forall j :: 0 <= j < |parts| && EtaLike(parts[j]) ==> IsPercentField(parts, j) || IsSpeedField(parts, j)
  {
    if parts != [] {
      var init := parts[..|parts| - 1];
      var n := |parts| - 1;
      EtaNoneIff(init);
      LastFieldTaken(parts);
      assert Scan(parts).eta == Absorb(Scan(init), parts[n]).eta;
      assert Scan(parts).eta.None? <==>
        Scan(init).eta.None? && !(EtaLike(parts[n]) && !IsPercentField(parts, n) && !IsSpeedField(parts, n));
      PrefixFields(parts);
    }
  }

  // ---------------------------------------------------------------------------
  // The ETA text of one field: "ETA 00:12:34" and "00:12:34" both give the time

  /** No "ETA" at or after `i` means the search finds nothing. */
  lemma {:induction false} NoEtaFrom(p: string, i: nat)
    requires i <= |p|
    requires forall k :: i <= k < |p| ==> Upper(p[k]) != 'E'
    ensures EtaSearch(p, i) == None
    decreases |p| - i
  {
    if i < |p| {
      NoEtaFrom(p, i + 1);
    }
  }

  /** A clock time is made of digits, ':' and at most a final newline. */
  lemma ClockChars(p: string, h: nat)
    requires (h == 1 || h == 2) && ClockWith(p, h)
    ensures forall k :: 0 <= k < |p| ==> IsDigit(p[k]) || p[k] == ':' || p[k] == '\n'
  {
    forall k | 0 <= k < |p| ensures IsDigit(p[k]) || p[k] == ':' || p[k] == '\n' {
      if k < h {
        assert p[..h][k] == p[k];
      } else if h < k < h + 3 {
        assert p[h + 1..h + 3][k - h - 1] == p[k];
      } else if h + 3 < k < h + 6 {
        assert p[h + 4..h + 6][k - h - 4] == p[k];
      }
    }
  }

  /** A clock-time field is its own ETA text. */
  lemma ClockEtaIsField(p: string)
    requires ClockLike(p)
    ensures EtaText(p) == p
  {
    if ClockWith(p, 1) {
      ClockChars(p, 1);
    } else {
      ClockChars(p, 2);
    }
    NoEtaFrom(p, 0);
  }

  /**
   * "ETA" in any case, blanks, and a word that does not start with ':' or
   * '-': the ETA text is that word.
   */
  lemma EtaWordAfterMarker(p: string, q: nat, e: nat)
    requires EtaAt(p, 0) && 3 <= q < e <= |p|
    requires forall k :: 3 <= k < q ==> IsSpace(p[k])
    requires p[q] != ':' && p[q] != '-'
    requires forall k :: q <= k < e ==> !IsSpace(p[k])
    requires e == |p| || IsSpace(p[e])
    ensures EtaText(p) == p[q..e]
  {
    SkipSpaceTo(p, 3, q);
    SkipNonSpaceTo(p, q, e);
  }

  /**
   * "ETA" in any case, blanks, a ':' or '-', blanks, and a word: the ETA text
   * is that word, without the separator.
   */
  lemma EtaWordAfterSeparator(p: string, c: nat, q: nat, e: nat)
    requires EtaAt(p, 0) && 3 <= c < q < e <= |p|
    requires forall k :: 3 <= k < c ==> IsSpace(p[k])
    requires p[c] == ':' || p[c] == '-'
    requires forall k :: c < k < q ==> IsSpace(p[k])
    requires forall k :: q <= k < e ==> !IsSpace(p[k])
    requires e == |p| || IsSpace(p[e])
    ensures EtaText(p) == p[q..e]
  {
    SkipSpaceTo(p, 3, c);
    SkipSpaceTo(p, c + 1, q);
    SkipNonSpaceTo(p, q, e);
  }

  /** The normalisation of "ETA 00:12:34" gives "00:12:34". */
  lemma EtaOfMarkedClock()
    ensures EtaText("ETA 00:12:34") == "00:12:34"
  {
    var p := "ETA 00:12:34";
    EtaWordAfterMarker(p, 4, 12);
    assert p[4..12] == "00:12:34";
  }

  // ---------------------------------------------------------------------------
  // Speed normalisation: "MBytes", "KBytes" and "GBytes" become "MB", "KB" and "GB"

  /** The number in front of an rclone speed: digits and decimal points. */
  predicate DecimalText(n: string) {
    forall k :: 0 <= k < |n| ==> IsDigit(n[k]) || n[k] == '.'
  }

  /** The unit name of `n + " " + long + "/s"` is shortened by its own replace. */
  lemma ShortenUnit(n: string, long: string, short: string)
    requires DecimalText(n) && |long| > 2 && 'A' <= long[0] <= 'Z'
    ensures ReplaceAll(n + " " + long + "/s", long, short) == n + " " + short + "/s"
  {
    var x := n + " ";
    forall i | 0 <= i < |x| ensures !OccursAt(x + long, long, i) {
      assert (x + long)[i] == x[i];
    }
    ReplaceLeftmost(x, long, short, "/s");
  }

  /** A replace whose pattern starts with a letter absent from the speed leaves it alone. */
  lemma KeepUnit(n: string, unit: string, long: string, short: string)
    requires DecimalText(n) && |long| > 0 && 'A' <= long[0] <= 'Z' && long[0] !in unit
    ensures ReplaceAll(n + " " + unit + "/s", long, short) == n + " " + unit + "/s"
  {
    var t := n + " " + unit + "/s";
    forall k | 0 <= k < |t| ensures t[k] != long[0] {
      if k < |n| {
        assert t[k] == n[k];
      } else if |n| + 1 <= k < |n| + 1 + |unit| {
        assert t[k] == unit[k - |n| - 1];
      }
    }
    NoHeadNoContains(t, long);
    ReplaceAbsent(t, long, short);
  }

  /** "MBytes" in a speed becomes "MB". */
  lemma NormalizeMBytes(n: string)
    requires DecimalText(n)
    ensures NormalizeSpeed(n + " MBytes/s") == n + " MB/s"
  {
    assert n + " MBytes/s" == n + " " + "MBytes" + "/s";
    ShortenUnit(n, "MBytes", "MB");
    KeepUnit(n, "MB", "KBytes", "KB");
    KeepUnit(n, "MB", "GBytes", "GB");
    assert n + " " + "MB" + "/s" == n + " MB/s";
  }

  /** "KBytes" in a speed becomes "KB". */
  lemma NormalizeKBytes(n: string)
    requires DecimalText(n)
    ensures NormalizeSpeed(n + " KBytes/s") == n + " KB/s"
  {
    assert n + " KBytes/s" == n + " " + "KBytes" + "/s";
    KeepUnit(n, "KBytes", "MBytes", "MB");
    ShortenUnit(n, "KBytes", "KB");
    KeepUnit(n, "KB", "GBytes", "GB");
    assert n + " " + "KB" + "/s" == n + " KB/s";
  }

  /** "GBytes" in a speed becomes "GB". */
  lemma NormalizeGBytes(n: string)
    requires DecimalText(n)
    ensures NormalizeSpeed(n + " GBytes/s") == n + " GB/s"
  {
    assert n + " GBytes/s" == n + " " + "GBytes" + "/s";
    KeepUnit(n, "GBytes", "MBytes", "MB");
    KeepUnit(n, "GBytes", "KBytes", "KB");
    ShortenUnit(n, "GBytes", "GB");
    assert n + " " + "GB" + "/s" == n + " GB/s";
  }

  // ---------------------------------------------------------------------------
  // The parser's results

  lemma DefaultSpeedPerSecond()
    ensures Contains(DefaultSpeed, "/s")
  {
    assert OccursAt(DefaultSpeed, "/s", 3);
    ContainsAt(DefaultSpeed, "/s", 3);
  }

  /** The speed of every progress event mentions "/s", after normalisation too. */
  lemma SpeedMentionsPerSecond(line: string)
    requires Contains(line, Marker)
    ensures Contains(Parse(line).value.speed, "/s")
  {
    var f := Scan(FieldsOf(line));
    var raw := f.speed.GetOr(DefaultSpeed);
    assert Parse(line).value.speed == NormalizeSpeed(raw);
    SpeedIsField(FieldsOf(line));
    DefaultSpeedPerSecond();
    assert Contains(raw, "/s");
  }

  lemma DefaultSpeedUnchanged()
    ensures NormalizeSpeed(DefaultSpeed) == DefaultSpeed
  {
    assert !Contains(DefaultSpeed, "MBytes");
    ReplaceAbsent(DefaultSpeed, "MBytes", "MB");
    ReplaceAbsent(DefaultSpeed, "KBytes", "KB");
    ReplaceAbsent(DefaultSpeed, "GBytes", "GB");
  }

  /**
   * The fallbacks: 0 %, "0 B/s" and "---" whenever the loop leaves the value
   * unset, that is, when no field gives a percentage, when every "/s" field
   * went to the percentage, and when every ETA-like field went to the
   * percentage or the speed.
   */
  lemma AggregateDefaults(line: string)
    requires Contains(line, Marker)
    ensures var parts := FieldsOf(line);
      && ((forall j :: 0 <= j < |parts| ==> PercentIn(parts[j]).None?) ==> Parse(line).value.percent == 0)
      && ((forall j :: 0 <= j < |parts| && Contains(parts[j], "/s") ==> IsPercentField(parts, j))
          ==> Parse(line).value.speed == DefaultSpeed)
      && ((forall j :: 0 <= j < |parts| && EtaLike(parts[j]) ==> IsPercentField(parts, j) || IsSpeedField(parts, j))
          ==> Parse(line).value.eta == UnknownEta)
  {
    var parts := FieldsOf(line);
    PercentAbsent(parts);
    SpeedNoneIff(parts);
    EtaNoneIff(parts);
    DefaultSpeedUnchanged();
  }

  /**
   * An aggregate line without commas is one field, so its percentage is the
   * first percentage in the stripped line, whatever its size.
   */
  lemma SingleFieldPercent(line: string)
    requires Contains(line, Marker) && ',' !in line
    ensures Parse(line).value.percent == PercentIn(Strip(line)).GetOr(0)
  {
    assert IndexOf(line, ',') == |line|;
    assert Split(line, ',') == [line];
    var parts := FieldsOf(line);
    assert parts == [Strip(line)];
    if PercentIn(parts[0]).Some? {
      PercentFromFirstField(parts, 0);
    } else {
      PercentAbsent(parts);
    }
    assert Aggregate(line).percent == Scan(parts).percent.GetOr(0);
  }

  /** An aggregate line reporting more than 100 %. */
  const OverLine: string := "Transferred: 250%"

  lemma OverLineStripped()
    ensures Strip(OverLine) == OverLine
  {
    assert !IsSpace(OverLine[0]) && !IsSpace(OverLine[16]);
  }

  lemma OverLineMarked()
    ensures Contains(OverLine, Marker) && ',' !in OverLine
  {
    assert OccursAt(OverLine, Marker, 0);
    ContainsAt(OverLine, Marker, 0);
  }

  lemma OverLineNoEarlyPercent()
    ensures forall m :: 0 <= m < 13 ==> !PercentAt(OverLine, m)
  {
    forall m | 0 <= m < 13 ensures !PercentAt(OverLine, m) {
      assert !IsDigit(OverLine[m]);
    }
  }

  lemma OverLineDigits()
    ensures DigitRun(OverLine, 13) == 3 && OverLine[16] == '%'
  {
    assert DigitRun(OverLine, 16) == 0;
  }

  /** The first position where the pattern matches gives the percentage. */
  lemma PercentAtFirst(p: string, j: nat)
    requires j < |p| && PercentAt(p, j)
    requires forall m :: 0 <= m < j ==> !PercentAt(p, m)
    ensures PercentIn(p) == Some(DigitsValue(p[j..j + DigitRun(p, j)]))
  {
    PercentSkip(p, 0, j);
  }

  lemma OverLineMatch()
    ensures PercentIn(OverLine) == Some(DigitsValue(OverLine[13..16]))
  {
    OverLineNoEarlyPercent();
    OverLineDigits();
    PercentAtFirst(OverLine, 13);
  }

  lemma OverLineValue()
    ensures AllDigits(OverLine[13..16]) && DigitsValue(OverLine[13..16]) == 250
  {
    var d := OverLine[13..16];
    assert d[0] == '2' && d[1] == '5' && d[2] == '0';
    ThreeDigits(d);
  }

  lemma OverLinePercent()
    ensures PercentIn(OverLine) == Some(250)
  {
    OverLineMatch();
    OverLineValue();
  }

  /** `int(d)` of three digits, written out. */
  lemma ThreeDigits(d: string)
    requires |d| == 3 && AllDigits(d)
    ensures DigitsValue(d) == (d[0] as int - '0' as int) * 100 + (d[1] as int - '0' as int) * 10 + (d[2] as int - '0' as int)
  {
    var d2 := d[..2];
    var d1 := d2[..1];
    assert d1[..0] == [] && d1[0] == d[0] && d2[1] == d[1];
    assert DigitsValue(d1) == d[0] as int - '0' as int;
    assert DigitsValue(d2) == DigitsValue(d1) * 10 + (d[1] as int - '0' as int);
  }

  /**
   * The parser does not clamp: an aggregate line reporting 250 % gives a
   * progress event of 250; clamping into [0, 100] happens only in the window.
   */
  lemma PercentNotClamped()
    ensures Parse(OverLine).Some? && Parse(OverLine).value.Progress? && Parse(OverLine).value.percent == 250
  {
    OverLineMarked();
    OverLineStripped();
    OverLinePercent();
    SingleFieldPercent(OverLine);
  }
}
