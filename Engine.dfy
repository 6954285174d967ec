/**
 * The transfer engine's control state: the stop, pause and abort flags, the
 * requests that set or clear them, and the outcome of one copy run.
 *
 * The copy process is given as its launch: either it could not be started,
 * or it produced a stream of output lines and finally an exit code. Requests
 * from the user interface arrive on another thread; the stream interleaves
 * them with the lines at line boundaries. A request placed after the line at
 * which reading stops stands for one that arrives while the engine waits for
 * the process to end, so it still counts for the outcome.
 */
module Engine {
  import opened Outcomes
  import opened Text
  import opened ProgressParser

  datatype Request = PauseRequest | AbortRequest | StopRequest

  /** One thing the copy loop observes: an output line, or a user request. */
  datatype Item = Line(text: string) | Req(request: Request)

  datatype Launch = NotStarted | Started(output: seq<Item>, exitCode: int)

  /** How a copy run ends: the process's exit code, a control signal, or an error. */
  datatype CopyOutcome = Exited(code: int) | PauseSignal | AbortSignal | CopyError

  // ---------------------------------------------------------------------------
  // Specification of a run

  predicate HasRequest(s: seq<Item>) {
    exists k :: 0 <= k < |s| && s[k].Req?
  }

  /**
   * The lines the copy loop reads and handles: every line before the first
   * request. The line that comes after a request is taken from the stream but
   * dropped, and nothing after it is read.
   */
  function LinesRead(items: seq<Item>): seq<string> {
    if items == [] then []
    else match items[0]
      case Req(_) => []
      case Line(t) => [t] + LinesRead(items[1..])
  }

  /**
   * The lines read are exactly the longest run of lines at the start of the
   * stream: each is the text of the item at its position, and the item after
   * them, if any, is a request.
   */
  lemma {:induction false} LinesReadIsLeadingRun(items: seq<Item>)
    ensures |LinesRead(items)| <= |items|
    ensures forall k :: 0 <= k < |LinesRead(items)| ==> items[k] == Line(LinesRead(items)[k])
    ensures |LinesRead(items)| < |items| ==> items[|LinesRead(items)|].Req?
  {
    if items != [] && items[0].Line? {
      LinesReadIsLeadingRun(items[1..]);
      var r := LinesRead(items);
      assert r == [items[0].text] + LinesRead(items[1..]);
      forall k | 0 <= k < |r| ensures items[k] == Line(r[k]) {
        if k > 0 {
          assert items[1..][k - 1] == items[k];
        }
      }
    }
  }

  /** What one output line sends to the user interface, if anything. */
  function NoticeOf(line: string): seq<Event> {
    var s := Strip(line);
    if s == [] then []
    else match Parse(s)
      case Some(e) => [e]
      case None => []
  }

  /** The events sent for a sequence of lines, in order. */
  function Notices(lines: seq<string>): seq<Event> {
    if lines == [] then [] else Notices(lines[..|lines| - 1]) + NoticeOf(lines[|lines| - 1])
  }

  /**
   * The outcome the engine reports for a launch: an abort request wins over
   * a pause request, and with neither (a stop request included) the exit
   * code of the process is returned.
   */
  function CopyResult(launch: Launch): (o: CopyOutcome)
    ensures o == CopyError <==> launch.NotStarted?
    ensures o == AbortSignal <==> launch.Started? && Req(AbortRequest) in launch.output
    ensures o == PauseSignal <==>
      launch.Started? && Req(PauseRequest) in launch.output && Req(AbortRequest) !in launch.output
    ensures o.Exited? <==>
      launch.Started? && Req(PauseRequest) !in launch.output && Req(AbortRequest) !in launch.output
    ensures o.Exited? ==> o.code == launch.exitCode
  {
    match launch
    case NotStarted => CopyError
    case Started(items, code) =>
      if Req(AbortRequest) in items then AbortSignal
      else if Req(PauseRequest) in items then PauseSignal
      else Exited(code)
  }

  // ---------------------------------------------------------------------------
  // Facts about the specification that the loop needs

  lemma {:induction false} LinesReadAppend(a: seq<Item>, x: Item)
    ensures HasRequest(a) ==> LinesRead(a + [x]) == LinesRead(a)
    ensures !HasRequest(a) && x.Line? ==> LinesRead(a + [x]) == LinesRead(a) + [x.text]
    ensures !HasRequest(a) && x.Req? ==> LinesRead(a + [x]) == LinesRead(a)
  {
    if a == [] {
      assert [x][1..] == [];
    } else {
      assert (a + [x])[0] == a[0];
      assert (a + [x])[1..] == a[1..] + [x];
      if a[0].Line? {
        assert HasRequest(a[1..]) ==> HasRequest(a) by {
          if HasRequest(a[1..]) {
            var k :| 0 <= k < |a[1..]| && a[1..][k].Req?;
            assert a[k + 1].Req?;
          }
        }
        assert !HasRequest(a) ==> !HasRequest(a[1..]) by {
          if !HasRequest(a) {
            forall k | 0 <= k < |a[1..]| ensures !a[1..][k].Req? {
              assert a[1..][k] == a[k + 1];
            }
          }
        }
        LinesReadAppend(a[1..], x);
      }
    }
  }

  lemma {:induction false} LinesReadStable(a: seq<Item>, b: seq<Item>)
    requires HasRequest(a)
    ensures LinesRead(a + b) == LinesRead(a)
  {
    var k :| 0 <= k < |a| && a[k].Req?;
    if a[0].Line? {
      assert (a + b)[0] == a[0];
      assert (a + b)[1..] == a[1..] + b;
      assert a[1..][k - 1] == a[k];
      LinesReadStable(a[1..], b);
    } else {
      assert (a + b)[0] == a[0];
    }
  }

  lemma AppendAssoc<T>(a: seq<T>, b: seq<T>, c: seq<T>)
    ensures (a + b) + c == a + (b + c)
  {
  }

  lemma NoticesSnoc(lines: seq<string>, t: string, n: seq<Event>)
    requires n == NoticeOf(t)
    ensures Notices(lines + [t]) == Notices(lines) + n
  {
    assert (lines + [t])[..|lines|] == lines;
  }

  lemma NoRequestSnoc(a: seq<Item>, x: Item)
    requires x.Line? && !HasRequest(a)
    ensures !HasRequest(a + [x])
  {
    forall k | 0 <= k < |a + [x]| ensures !(a + [x])[k].Req? {
      if k < |a| {
        assert (a + [x])[k] == a[k];
      }
    }
  }

  /**
   * The parse step of the copy loop for one line: strip, skip if blank,
   * parse. At most one event is sent, and exactly when the stripped line is
   * not blank and parses; that event is the parse of the stripped line.
   */
  method Classify(line: string) returns (n: seq<Event>)
    ensures n == NoticeOf(line)
    ensures |n| <= 1
    ensures |n| == 1 <==> Strip(line) != [] && Parse(Strip(line)).Some?
    ensures |n| == 1 ==> n[0] == Parse(Strip(line)).value
  {
    var s := Strip(line);
    n := [];
    if s != [] {
      var ev := ParseLine(s);
      if ev.Some? {
        n := [ev.value];
      }
    }
  }

  /** How the lines read grow by one item of the stream. */
  lemma LinesReadNext(items: seq<Item>, i: nat)
    requires i < |items|
    ensures !HasRequest(items[..i]) && items[i].Line? ==>
      LinesRead(items[..i + 1]) == LinesRead(items[..i]) + [items[i].text]
    ensures HasRequest(items[..i]) || items[i].Req? ==> LinesRead(items[..i + 1]) == LinesRead(items[..i])
  {
    assert items[..i + 1] == items[..i] + [items[i]];
    LinesReadAppend(items[..i], items[i]);
  }

  /** A line does not change which requests have been seen. */
  lemma LineKeepsFlags(items: seq<Item>, i: nat)
    requires i < |items| && items[i].Line? && !HasRequest(items[..i])
    ensures !HasRequest(items[..i + 1])
    ensures forall q :: Req(q) in items[..i + 1] <==> Req(q) in items[..i]
  {
    assert items[..i + 1] == items[..i] + [items[i]];
    NoRequestSnoc(items[..i], items[i]);
  }

  /** Among the first `i` items, every line comes before every request. */
  predicate LinesBeforeRequests(items: seq<Item>, i: nat)
    requires i <= |items|
  {
    forall m, k :: 0 <= m < k < i && items[m].Req? ==> !items[k].Line?
  }

  /** Taking the item at `i` keeps every line seen so far ahead of the requests. */
  lemma LinesBeforeRequestsNext(items: seq<Item>, i: nat)
    requires i < |items| && LinesBeforeRequests(items, i)
    requires items[i].Line? ==> !HasRequest(items[..i])
    ensures LinesBeforeRequests(items, i + 1)
  {
    if items[i].Line? {
      forall m | 0 <= m < i ensures !items[m].Req? {
        assert items[..i][m] == items[m];
      }
    }
  }

  // ---------------------------------------------------------------------------
  // The engine

  class TransferEngine {
    var running: bool      // a copy process exists and has not ended
    var stopped: bool
    var paused: bool
    var aborted: bool
    var sent: seq<Event>   // events sent to the user interface, oldest first

    constructor ()
      ensures !running && !stopped && !paused && !aborted && sent == []
    {
      running, stopped, paused, aborted, sent := false, false, false, false, [];
    }

    /** Graceful stop: set the flag and end a running process. */
    method Stop()
      modifies this
      ensures stopped && !running
      ensures paused == old(paused) && aborted == old(aborted) && sent == old(sent)
    {
      stopped := true;
      running := false;
    }

    /** Pause request: set the flag and end a running process. */
    method Pause()
      modifies this
      ensures paused && !running
      ensures stopped == old(stopped) && aborted == old(aborted) && sent == old(sent)
    {
      paused := true;
      running := false;
    }

    /** Resume: clear the pause flag and nothing else; the caller starts a new run. */
    method Resume()
      modifies this
      ensures !paused
      ensures running == old(running) && stopped == old(stopped) && aborted == old(aborted)
      ensures sent == old(sent)
    {
      paused := false;
    }

    /** Abort request: set the flag and end a running process. */
    method Abort()
      modifies this
      ensures aborted && !running
      ensures stopped == old(stopped) && paused == old(paused) && sent == old(sent)
    {
      aborted := true;
      running := false;
    }

    /** A request arriving from the user interface. */
    method Handle(q: Request)
      modifies this
      ensures !running && sent == old(sent)
      ensures stopped == (old(stopped) || q == StopRequest)
      ensures paused == (old(paused) || q == PauseRequest)
      ensures aborted == (old(aborted) || q == AbortRequest)
    {
      match q
      case PauseRequest => Pause();
      case AbortRequest => Abort();
      case StopRequest => Stop();
    }

    /** Report one output line to the user interface, as the copy loop does. */
    method Report(ghost base: seq<Event>, ghost lines: seq<string>, line: string)
      requires sent == base + Notices(lines)
      modifies this
      ensures sent == base + Notices(lines + [line])
      ensures running == old(running) && stopped == old(stopped)
      ensures paused == old(paused) && aborted == old(aborted)
    {
      var n := Classify(line);
      NoticesSnoc(lines, line, n);
      AppendAssoc(base, Notices(lines), n);
      sent := sent + n;
    }

    predicate FlagsMatch(s: seq<Item>)
      reads this
    {
      && stopped == (Req(StopRequest) in s)
      && paused == (Req(PauseRequest) in s)
      && aborted == (Req(AbortRequest) in s)
    }

    /** A request in the stream sets its flag. */
    method HandleAt(items: seq<Item>, i: nat)
      requires i < |items| && items[i].Req? && FlagsMatch(items[..i])
      modifies this
      ensures FlagsMatch(items[..i + 1]) && HasRequest(items[..i + 1])
      ensures (stopped || paused || aborted) && sent == old(sent)
    {
      assert items[..i + 1] == items[..i] + [items[i]];
      assert items[..i + 1][i].Req?;
      Handle(items[i].request);
    }

    /** A line read while no flag is set is reported. */
    method ReportAt(ghost base: seq<Event>, items: seq<Item>, i: nat)
      requires i < |items| && items[i].Line? && !HasRequest(items[..i])
      requires FlagsMatch(items[..i])
      requires sent == base + Notices(LinesRead(items[..i]))
      modifies this
      ensures FlagsMatch(items[..i + 1]) && !HasRequest(items[..i + 1])
      ensures sent == base + Notices(LinesRead(items[..i + 1]))
    {
      LinesReadNext(items, i);
      LineKeepsFlags(items, i);
      Report(base, LinesRead(items[..i]), items[i].text);
    }

    /**
     * What holds after the read loop took the first `i` items: the flags are
     * those of the requests taken, a line was taken only while no flag was
     * set, and every line taken was reported.
     */
    predicate ReadSoFar(base: seq<Event>, items: seq<Item>, i: nat)
      reads this
    {
      && i <= |items|
      && FlagsMatch(items[..i])
      && ((stopped || paused || aborted) <==> HasRequest(items[..i]))
      && LinesBeforeRequests(items, i)
      && sent == base + Notices(LinesRead(items[..i]))
    }

    /**
     * One turn of the read loop on the item at `i`, when it does not end the
     * loop: a request sets its flag, a line is reported.
     */
    method Take(ghost base: seq<Event>, items: seq<Item>, i: nat)
      requires i < |items| && ReadSoFar(base, items, i)
      requires items[i].Line? ==> !(stopped || paused || aborted)
      modifies this
      ensures ReadSoFar(base, items, i + 1)
    {
      LinesBeforeRequestsNext(items, i);
      if items[i].Req? {
        LinesReadNext(items, i);
        HandleAt(items, i);
      } else {
        ReportAt(base, items, i);
      }
    }

    /**
     * The read loop: handle requests as they arrive and report lines, until a
     * line is seen while a flag is set. Returns the position of that line, or
     * the length of the stream when every item was taken.
     */
    method ReadOutput(items: seq<Item>) returns (i: nat)
      requires !stopped && !paused && !aborted
      modifies this
      ensures i <= |items|
      ensures FlagsMatch(items[..i])
      ensures i < |items| ==> items[i].Line? && HasRequest(items[..i])
      ensures LinesBeforeRequests(items, i)
      ensures sent == old(sent) + Notices(LinesRead(items[..i]))
    {
      i := 0;
      while i < |items|
        invariant ReadSoFar(old(sent), items, i)
        decreases |items| - i
      {
        if items[i].Line? && (stopped || paused || aborted) {
          return;
        }
        Take(old(sent), items, i);
        i := i + 1;
      }
    }

    /**
     * Requests that arrive after reading stopped, while the process is waited
     * on, still set their flags; the remaining lines are never read.
     */
    method DrainRequests(items: seq<Item>, i: nat)
      requires i <= |items| && FlagsMatch(items[..i])
      modifies this
      ensures FlagsMatch(items)
      ensures sent == old(sent)
    {
      var j := i;
      while j < |items|
        invariant i <= j <= |items|
        invariant FlagsMatch(items[..j])
        invariant sent == old(sent)
      {
        assert items[..j + 1] == items[..j] + [items[j]];
        if items[j].Req? {
          Handle(items[j].request);
        }
        j := j + 1;
      }
      assert items[..|items|] == items;
    }

    /**
     * One copy run: clear the flags, read and report lines until a line is
     * seen while a flag is set, wait for the process, then turn the flags
     * into the outcome.
     */
    method RunCopy(launch: Launch) returns (outcome: CopyOutcome)
      modifies this
      ensures outcome == CopyResult(launch)
      ensures !running
      ensures launch.NotStarted? ==> !stopped && !paused && !aborted && sent == old(sent)
      ensures launch.Started? ==> FlagsMatch(launch.output)
      ensures launch.Started? ==> sent == old(sent) + Notices(LinesRead(launch.output))
    {
      stopped, paused, aborted := false, false, false;
      if launch.NotStarted? {
        running := false;
        return CopyError;
      }
      var items := launch.output;
      running := true;
      var i := ReadOutput(items);
      ghost var read := LinesRead(items[..i]);
      if i < |items| {
        assert items == items[..i] + items[i..];
        LinesReadStable(items[..i], items[i..]);
      } else {
        assert items[..i] == items;
      }
      assert LinesRead(items) == read;
      DrainRequests(items, i);
      running := false;

      if aborted {
        return AbortSignal;
      }
      if paused {
        return PauseSignal;
      }
      return Exited(launch.exitCode);
    }
  }
}
