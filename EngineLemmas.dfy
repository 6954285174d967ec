/**
 * What the engine sends to the user interface: at most one event per line it
 * reads, each the parse of one of those lines, in the order of the lines.
 */
module EngineLemmas {
  import opened Outcomes
  import opened Text
  import opened ProgressParser
  import opened Engine

  /** A line sends nothing, or exactly the event its stripped text parses to. */
  lemma NoticeOfParses(line: string)
    ensures |NoticeOf(line)| <= 1
    ensures |NoticeOf(line)| == 1 <==> Strip(line) != [] && Parse(Strip(line)).Some?
    ensures |NoticeOf(line)| == 1 ==> NoticeOf(line)[0] == Parse(Strip(line)).value
  {
  }

  /**
   * Every event sent for a sequence of lines is the parse of one of them, and
   * no more events are sent than there are lines.
   */
  lemma {:induction false} NoticesFromLines(lines: seq<string>)
    ensures |Notices(lines)| <= |lines|
    ensures forall e :: e in Notices(lines) ==>
      exists k :: 0 <= k < |lines| && Parse(Strip(lines[k])) == Some(e)
  {
    if lines != [] {
      var init := lines[..|lines| - 1];
      var last := lines[|lines| - 1];
      NoticesFromLines(init);
      NoticeOfParses(last);
      forall e | e in Notices(lines)
        ensures exists k :: 0 <= k < |lines| && Parse(Strip(lines[k])) == Some(e)
      {
        if e in Notices(init) {
          var k :| 0 <= k < |init| && Parse(Strip(init[k])) == Some(e);
          assert lines[k] == init[k];
        } else {
          assert e in NoticeOf(last);
          assert Parse(Strip(lines[|lines| - 1])) == Some(e);
        }
      }
    }
  }

  /** Lines that parse to nothing send nothing. */
  lemma {:induction false} SilentLines(lines: seq<string>)
    requires forall k :: 0 <= k < |lines| ==> Parse(Strip(lines[k])).None?
    ensures Notices(lines) == []
  {
    if lines != [] {
      SilentLines(lines[..|lines| - 1]);
      NoticeOfParses(lines[|lines| - 1]);
    }
  }
}
