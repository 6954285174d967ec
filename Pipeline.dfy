/**
 * The application's transfer pipeline: starting a transfer from the form,
 * the stage sequence of one run (preflight, copy, verification, manifest),
 * pausing, resuming and aborting, and the delivery of progress events to
 * the window.
 *
 * Verification of the copy and creation of the manifest are external tools;
 * their results are inputs. The status messages the window shows are kept,
 * in order, in `statuses`. Scheduling work on the window's event loop is
 * modelled by `resetPending`: a reset is requested, and `ResetUi` is that
 * reset running.
 */
module Pipeline {
  import opened Outcomes
  import opened Text
  import opened ProgressParser
  import opened Preflight
  import opened Engine
  import opened ProgressBar

  /** The status line of the window. */
  datatype Status =
    | PreflightStatus     // "Preflight check..."
    | Transferring        // "Transferring..."
    | Verifying           // "Verifying..."
    | CreatingMhl         // "Creating MHL..."
    | Complete
    | Paused
    | Aborted
    | Failed
    | Resuming            // "Resuming..."

  /** The result of the manifest tool: not installed, failed or timed out, or done. */
  datatype Manifest = ToolMissing | CreateFailed | Created

  /** The statuses that end a run. */
  predicate IsFinal(s: Status) {
    s == Complete || s == Paused || s == Aborted || s == Failed
  }

  /**
   * The statuses shown from the copy on: a failure unless the copy exits
   * with 0, then verification, then the manifest.
   */
  function CopyStatuses(copy: CopyOutcome, verified: bool, manifest: Manifest): (r: seq<Status>)
    ensures r != [] && IsFinal(r[|r| - 1])
    ensures forall k :: 0 <= k < |r| - 1 ==> !IsFinal(r[k])
    ensures PreflightStatus !in r && Transferring !in r && Resuming !in r
    ensures Verifying in r <==> copy == Exited(0)
    ensures CreatingMhl in r <==> copy == Exited(0) && verified
    ensures Complete in r <==> copy == Exited(0) && verified && manifest == Created
    ensures Paused in r <==> copy == PauseSignal
    ensures Aborted in r <==> copy == AbortSignal
    ensures Failed in r <==> !(Complete in r || Paused in r || Aborted in r)
  {
    match copy
    case Exited(code) =>
      if code != 0 then [Failed]
      else if !verified then [Verifying, Failed]
      else if manifest != Created then [Verifying, CreatingMhl, Failed]
      else [Verifying, CreatingMhl, Complete]
    case PauseSignal => [Paused]
    case AbortSignal => [Aborted]
    case CopyError => [Failed]
  }

  /**
   * The statuses one run shows, in order. `preflightOk` is the preflight
   * verdict; it is not consulted on a resumed run, which skips preflight.
   * The copy outcome, the verification and the manifest are consulted only
   * when the run gets that far.
   */
  function RunStatuses(resume: bool, preflightOk: bool, copy: CopyOutcome, verified: bool, manifest: Manifest)
    : (r: seq<Status>)
    ensures r != [] && IsFinal(r[|r| - 1])
    ensures forall k :: 0 <= k < |r| - 1 ==> !IsFinal(r[k])
    ensures Resuming !in r
    ensures PreflightStatus in r <==> !resume
    ensures Transferring in r <==> resume || preflightOk
    ensures Verifying in r <==> (resume || preflightOk) && copy == Exited(0)
    ensures CreatingMhl in r <==> (resume || preflightOk) && copy == Exited(0) && verified
    ensures Complete in r <==> (resume || preflightOk) && copy == Exited(0) && verified && manifest == Created
    ensures Paused in r <==> (resume || preflightOk) && copy == PauseSignal
    ensures Aborted in r <==> (resume || preflightOk) && copy == AbortSignal
    ensures Failed in r <==> !(Complete in r || Paused in r || Aborted in r)
  {
    var tail := CopyStatuses(copy, verified, manifest);
    if resume then [Transferring] + tail
    else if !preflightOk then [PreflightStatus, Failed]
    else [PreflightStatus, Transferring] + tail
  }

  /** A run's statuses, cut where `run_transfer` shows them one by one. */
  lemma RunStatusesShape(before: seq<Status>, resume: bool, preflightOk: bool, copy: CopyOutcome,
                         verified: bool, manifest: Manifest)
    ensures var all := before + RunStatuses(resume, preflightOk, copy, verified, manifest);
      && (!resume && !preflightOk ==> all == before + [PreflightStatus] + [Failed])
      && (!resume && preflightOk ==>
            all == before + [PreflightStatus] + [Transferring] + CopyStatuses(copy, verified, manifest))
      && (resume ==> all == before + [Transferring] + CopyStatuses(copy, verified, manifest))
  {
    var tail := CopyStatuses(copy, verified, manifest);
    if resume {
      AppendAssoc(before, [Transferring], tail);
    } else if preflightOk {
      AppendAssoc(before, [PreflightStatus, Transferring], tail);
      assert before + [PreflightStatus, Transferring] == before + [PreflightStatus] + [Transferring];
    } else {
      assert before + [PreflightStatus, Failed] == before + [PreflightStatus] + [Failed];
    }
  }

  /** What pressing Start does with the form's contents. */
  datatype StartDecision = Start | AlreadyRunning | NoSource | NoDestination | BadTransferCount

  /** The form's placeholder texts, which do not name a directory. */
  const NoSourceText := "No source selected"
  const NoDestinationText := "No destination selected"

  /**
   * The checks of `start_transfer` on the stripped form texts, in order: a
   * running transfer that is not paused refuses a new start; then the
   * source, the destination, and the transfer count must be given.
   */
  function Decide(transferring: bool, paused: bool, src: string, dst: string, transfers: Option<int>)
    : (d: StartDecision)
    ensures d == Start <==>
      && !(transferring && !paused)
      && src != [] && src != NoSourceText
      && dst != [] && dst != NoDestinationText
      && transfers.Some?
    ensures d == AlreadyRunning <==> transferring && !paused
    ensures d == NoSource <==> !(transferring && !paused) && (src == [] || src == NoSourceText)
    ensures d == NoDestination <==>
      !(transferring && !paused) && src != [] && src != NoSourceText && (dst == [] || dst == NoDestinationText)
  {
    if transferring && !paused then AlreadyRunning
    else if src == [] || src == NoSourceText then NoSource
    else if dst == [] || dst == NoDestinationText then NoDestination
    else if transfers.None? then BadTransferCount
    else Start
  }

  datatype TransferArgs = TransferArgs(source: string, destination: string, transfers: int)

  /** The texts of the file, speed and ETA labels. */
  datatype Labels = Labels(currentFile: string, speed: string, eta: string)

  const IdleLabels := Labels("Waiting...", "0 MB/s", "--:--:--")

  class DitApp {
    var engine: TransferEngine?
    var isTransferring: bool
    var isPaused: bool
    var args: Option<TransferArgs>
    var statuses: seq<Status>
    var resetPending: bool
    var labels: Labels
    const bar: ProgressAnimator

    predicate Valid()
      reads this, bar
    {
      && (isPaused ==> isTransferring)
      && (isTransferring ==> engine != null)
      && bar.Valid()
    }

    constructor ()
      ensures Valid() && fresh(bar)
      ensures engine == null && !isTransferring && !isPaused && args == None
      ensures statuses == [] && !resetPending && labels == IdleLabels
      ensures bar.current == 0 && bar.target == 0 && !bar.animating
    {
      engine := null;
      isTransferring, isPaused := false, false;
      args := None;
      statuses := [];
      resetPending := false;
      labels := IdleLabels;
      bar := new ProgressAnimator();
    }

    /**
     * `start_transfer`: on a valid form, a fresh engine, the arguments kept
     * for a later resume, the transferring state, and the bar rewound to 0.
     * The caller then runs the transfer with `resume` false.
     */
    method StartTransfer(source: string, destination: string, transfers: Option<int>)
      returns (d: StartDecision)
      requires Valid()
      modifies this, bar
      ensures Valid()
      ensures d == Decide(old(isTransferring), old(isPaused), Strip(source), Strip(destination), transfers)
      ensures d == Start ==>
        && engine != null && fresh(engine)
        && !engine.running && !engine.stopped && !engine.paused && !engine.aborted && engine.sent == []
        && isTransferring && !isPaused
        && args == Some(TransferArgs(Strip(source), Strip(destination), transfers.value))
        && bar.current == 0 && bar.target == 0 && bar.animating == old(bar.animating)
      ensures d != Start ==>
        && engine == old(engine) && isTransferring == old(isTransferring) && isPaused == old(isPaused)
        && args == old(args) && bar.current == old(bar.current) && bar.target == old(bar.target)
        && bar.animating == old(bar.animating)
      ensures statuses == old(statuses) && resetPending == old(resetPending) && labels == old(labels)
    {
      var src := Strip(source);
      var dst := Strip(destination);
      d := Decide(isTransferring, isPaused, src, dst, transfers);
      if d == Start {
        Begin(TransferArgs(src, dst, transfers.value));
      }
    }

    /** The state change of an accepted start. */
    method Begin(a: TransferArgs)
      requires Valid()
      modifies this, bar
      ensures Valid()
      ensures engine != null && fresh(engine)
      ensures !engine.running && !engine.stopped && !engine.paused && !engine.aborted && engine.sent == []
      ensures isTransferring && !isPaused && args == Some(a)
      ensures bar.current == 0 && bar.target == 0 && bar.animating == old(bar.animating)
      ensures statuses == old(statuses) && resetPending == old(resetPending) && labels == old(labels)
    {
      var e := new TransferEngine();
      engine := e;
      args := Some(a);
      isTransferring := true;
      isPaused := false;
      bar.Rewind();
    }

    method Show(s: Status)
      modifies this
      ensures statuses == old(statuses) + [s]
      ensures engine == old(engine) && isTransferring == old(isTransferring) && isPaused == old(isPaused)
      ensures args == old(args) && resetPending == old(resetPending) && labels == old(labels)
    {
      statuses := statuses + [s];
    }

    /**
     * `run_transfer`: preflight unless resuming, the copy, and on exit code
     * 0 the verification and the manifest. A pause keeps the transfer
     * resumable and schedules no reset; every other ending schedules one.
     */
    method RunTransfer(resume: bool, fs: Snapshot, launch: Launch, verified: bool, manifest: Manifest)
      requires Valid() && engine != null
      modifies this, engine
      ensures Valid() && engine == old(engine)
      ensures args == old(args) && labels == old(labels)
      ensures statuses == old(statuses) + RunStatuses(resume, Check(fs).Ok?, CopyResult(launch), verified, manifest)
      ensures var paused := (resume || Check(fs).Ok?) && CopyResult(launch) == PauseSignal;
        && isPaused == (old(isPaused) || paused)
        && isTransferring == (old(isTransferring) || paused)
        && resetPending == (old(resetPending) || !isPaused)
      ensures !resume && Check(fs).Err? ==> unchanged(engine)
      ensures (resume || Check(fs).Ok?) ==> !engine.running
      ensures (resume || Check(fs).Ok?) && launch.NotStarted? ==>
        !engine.stopped && !engine.paused && !engine.aborted && engine.sent == old(engine.sent)
      ensures (resume || Check(fs).Ok?) && launch.Started? ==>
        engine.FlagsMatch(launch.output) && engine.sent == old(engine.sent) + Notices(LinesRead(launch.output))
    {
      ghost var before := statuses;
      RunStatusesShape(before, resume, Check(fs).Ok?, CopyResult(launch), verified, manifest);
      var reached := true;
      if !resume {
        reached := RunPreflight(fs);
      }
      if reached {
        RunCopyStage(launch, verified, manifest);
      }
      if !isPaused {
        resetPending := true;
      }
    }

    /** The preflight stage of `run_transfer`: whether the run goes on to the copy. */
    method RunPreflight(fs: Snapshot) returns (reached: bool)
      modifies this
      ensures reached == Check(fs).Ok?
      ensures reached ==> statuses == old(statuses) + [PreflightStatus]
      ensures !reached ==> statuses == old(statuses) + [PreflightStatus] + [Failed]
      ensures engine == old(engine) && isTransferring == old(isTransferring) && isPaused == old(isPaused)
      ensures args == old(args) && resetPending == old(resetPending) && labels == old(labels)
    {
      Show(PreflightStatus);
      var pre := PreflightCheck(fs);
      reached := pre.Ok?;
      if !reached {
        Show(Failed);
      }
    }

    /** The copy stage of `run_transfer` and the stages after it. */
    method RunCopyStage(launch: Launch, verified: bool, manifest: Manifest)
      requires Valid() && engine != null
      modifies this, engine
      ensures Valid() && engine == old(engine)
      ensures args == old(args) && labels == old(labels) && resetPending == old(resetPending)
      ensures statuses == old(statuses) + [Transferring] + CopyStatuses(CopyResult(launch), verified, manifest)
      ensures isPaused == (old(isPaused) || CopyResult(launch) == PauseSignal)
      ensures isTransferring == (old(isTransferring) || CopyResult(launch) == PauseSignal)
      ensures !engine.running
      ensures launch.NotStarted? ==>
        !engine.stopped && !engine.paused && !engine.aborted && engine.sent == old(engine.sent)
      ensures launch.Started? ==>
        engine.FlagsMatch(launch.output) && engine.sent == old(engine.sent) + Notices(LinesRead(launch.output))
    {
      Show(Transferring);
      var outcome := engine.RunCopy(launch);
      FinishCopy(outcome, verified, manifest);
    }

    /** The part of `run_transfer` after the copy: its stages and its ending. */
    method FinishCopy(outcome: CopyOutcome, verified: bool, manifest: Manifest)
      requires Valid() && engine != null
      modifies this
      ensures Valid()
      ensures statuses == old(statuses) + CopyStatuses(outcome, verified, manifest)
      ensures isPaused == (old(isPaused) || outcome == PauseSignal)
      ensures isTransferring == (old(isTransferring) || outcome == PauseSignal)
      ensures engine == old(engine) && args == old(args) && labels == old(labels)
      ensures resetPending == old(resetPending)
    {
      match outcome
      case Exited(code) =>
        if code != 0 {
          Show(Failed);
        } else {
          Show(Verifying);
          if !verified {
            Show(Failed);
          } else {
            Show(CreatingMhl);
            if manifest != Created {
              Show(Failed);
            } else {
              Show(Complete);
            }
          }
        }
      case PauseSignal =>
        isPaused := true;
        isTransferring := true;
        Show(Paused);
      case AbortSignal =>
        Show(Aborted);
      case CopyError =>
        Show(Failed);
    }

    /**
     * `toggle_pause`: with a transfer running and not paused, a confirmed
     * pause request goes to the engine; with the transfer paused, the engine
     * resumes and the kept arguments are returned for a resumed run.
     */
    method TogglePause(confirmed: bool) returns (relaunch: Option<TransferArgs>)
      requires Valid()
      modifies this, engine
      ensures Valid()
      ensures engine == old(engine) && args == old(args) && labels == old(labels)
      ensures isTransferring == old(isTransferring) && resetPending == old(resetPending)
      ensures old(engine) == null || !old(isTransferring) ==>
        relaunch == None && isPaused == old(isPaused) && statuses == old(statuses)
        && (engine != null ==> unchanged(engine))
      ensures old(engine) != null && old(isTransferring) && !old(isPaused) ==>
        && relaunch == None && !isPaused && statuses == old(statuses)
        && (confirmed ==> engine.paused && !engine.running)
        && engine.stopped == old(engine.stopped) && engine.aborted == old(engine.aborted)
        && engine.sent == old(engine.sent)
        && (!confirmed ==> unchanged(engine))
      ensures old(engine) != null && old(isTransferring) && old(isPaused) ==>
        && relaunch == old(args) && !isPaused && statuses == old(statuses) + [Resuming]
        && !engine.paused && engine.running == old(engine.running)
        && engine.stopped == old(engine.stopped) && engine.aborted == old(engine.aborted)
        && engine.sent == old(engine.sent)
    {
      relaunch := None;
      if engine == null || !isTransferring {
        return;
      }
      if !isPaused {
        if confirmed {
          engine.Pause();
        }
      } else {
        engine.Resume();
        isPaused := false;
        Show(Resuming);
        relaunch := args;
      }
    }

    /**
     * `abort_transfer`: a confirmed abort of a running transfer requests the
     * abort, shows "Aborted", forgets the arguments and schedules a reset.
     */
    method AbortTransfer(confirmed: bool)
      requires Valid()
      modifies this, engine
      ensures Valid()
      ensures engine == old(engine) && labels == old(labels) && isTransferring == old(isTransferring)
      ensures var acts := old(engine) != null && old(isTransferring) && confirmed;
        && (acts ==> engine.aborted && !engine.running && engine.paused == old(engine.paused)
                     && engine.stopped == old(engine.stopped) && engine.sent == old(engine.sent))
        && (acts ==> statuses == old(statuses) + [Aborted] && !isPaused && args == None && resetPending)
        && (!acts ==> statuses == old(statuses) && isPaused == old(isPaused) && args == old(args)
                      && resetPending == old(resetPending) && (engine != null ==> unchanged(engine)))
    {
      if engine != null && isTransferring && confirmed {
        engine.Abort();
        Show(Aborted);
        isPaused := false;
        args := None;
        resetPending := true;
      }
    }

    /** `reset_ui`: leave the transferring state, idle labels, bar back to 0. */
    method ResetUi()
      requires Valid()
      modifies this, bar
      ensures Valid()
      ensures !isTransferring && !isPaused && !resetPending && labels == IdleLabels
      ensures bar.target == 0 && bar.animating && bar.current == old(bar.current)
      ensures engine == old(engine) && args == old(args) && statuses == old(statuses)
    {
      isTransferring := false;
      isPaused := false;
      resetPending := false;
      bar.AnimateTo(0);
      labels := IdleLabels;
    }

    /**
     * The `progress` and `current_file` actions of the window's callback: a
     * progress event updates the speed and ETA labels and animates the bar
     * to the clamped percentage; a file event shows the file name.
     */
    method Deliver(e: Event)
      requires Valid()
      modifies this, bar
      ensures Valid()
      ensures e.Progress? ==>
        && labels == old(labels).(speed := e.speed, eta := e.eta)
        && bar.target == Clamp(e.percent) && bar.animating && bar.current == old(bar.current)
      ensures e.File? ==>
        && labels == old(labels).(currentFile := e.name)
        && bar.current == old(bar.current) && bar.target == old(bar.target) && bar.animating == old(bar.animating)
      ensures engine == old(engine) && isTransferring == old(isTransferring) && isPaused == old(isPaused)
      ensures args == old(args) && statuses == old(statuses) && resetPending == old(resetPending)
    {
      match e
      case Progress(p, sp, eta) =>
        labels := labels.(speed := sp, eta := eta);
        bar.AnimateTo(Clamp(p));
      case File(name) =>
        labels := labels.(currentFile := name);
    }
  }
}
