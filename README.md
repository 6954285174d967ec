# DIT offload: transfer core

A model of the logic inside `dit_offload.py`, a desktop tool that copies camera
cards to a destination with `rclone`, verifies the copy and writes an ASC-MHL
manifest. Four parts of that file are modelled; the window and the external
tools are not.

- **Progress-line parser** (`ProgressParser.dfy`, with `Text.dfy` for the Python
  `str` operations it uses). `parse_rclone_progress` classifies one line of rclone
  output:
  - a line containing `Transferred:` becomes a progress event, with a percentage, a
    speed and an ETA, each defaulted when missing;
  - a line naming a file becomes a file event carrying the file's basename;
  - any other line gives nothing.

  The regular expressions are written out as scanners with Python's leftmost,
  greedy and lazy matching. The aggregate branch is a method with the program's
  loop, proved equal to the function `Parse`.
  `ProgressParserLemmas.dfy` proves which field each value comes from, the defaults,
  and that the speed still mentions `/s`.
- **Preflight** (`Preflight.dfy`, `PreflightLemmas.dfy`). `preflight_check` runs on a
  snapshot of the filesystem. The snapshot holds:
  - the answers to the path queries;
  - the file entries of every directory the walk visits, where an unreadable size
    is skipped;
  - the destination's free space.

  The method with `preflight_check`'s nested loop is proved equal to the function
  `Check`. `Check` reports the first failing check in `preflight_check`'s order, or the
  total size and count of the readable files.
- **Transfer engine** (`Engine.dfy`, `EngineLemmas.dfy`). The engine is a class with
  the `stopped`, `paused` and `aborted` flags, the requests that set or clear them,
  and the copy run.
  - The copy process is its launch: it could not be started, or it produced a
    stream of output lines and an exit code.
  - Requests from the window thread appear in that stream between lines. Reading
    stops at the first line seen while a flag is set.
  - The outcome gives abort precedence over pause. Otherwise the exit code is
    returned, even after a stop.
  - The events sent to the window are exactly the parses of the lines read, in
    order.
- **Pipeline and progress bar** (`Pipeline.dfy`, `ProgressBar.dfy`). The
  application's `start_transfer`, `run_transfer`, `toggle_pause`, `abort_transfer`
  and `reset_ui` operate on a class holding the window's transfer state:
  - the status lines shown, in order;
  - whether a reset is scheduled;
  - the labels;
  - the progress bar, whose `step` animation is a small class with a proved
    terminating drive loop.

  Verification and manifest creation are external tools; their results are
  inputs.

`Outcomes.dfy` holds the `Option` and `Result` types.

Behaviours of the code worth knowing, modelled as the code does them:

- The parser does not clamp the percentage. Up to three digits are read, so
  `Transferred: 250%` gives 250 (`ProgressParserLemmas.PercentNotClamped`).
  Clamping into [0, 100] happens only in the window's callback.
- `run_rclone_copy` clears all three flags when it starts. A pause or abort
  requested during preflight is therefore lost.
- Verification and manifest creation never read the flags, so an abort requested
  during them does not stop the run.
- With only the stop flag set, the copy returns the process's exit code rather
  than a control signal.
- `start_transfer` is accepted while a transfer is paused. It creates a new engine
  and starts a run that is not a resume.

## Model

| member | source | states |
|---|---|---|
| Text.Upper | dit_offload.py:156 | `p.upper()` on one character: an ASCII lower-case letter becomes its own capital (its code minus 32), every other character is unchanged |
| Text.Contains | dit_offload.py:132 | Python's `t in s`: the empty text is in every text, and a text longer than `s` is not in it |
| Text.ContainsIff | dit_offload.py:132 | Python's `t in s` holds exactly when `t` occurs at some position of `s` |
| Text.Split | dit_offload.py:135 | `line.split(',')` yields at least one part and no part contains the separator |
| Text.JoinSplit | dit_offload.py:135 | joining the parts of `split` with the separator gives back the original line, so no character is lost |
| Text.StripLeft | dit_offload.py:135 | `lstrip` removes exactly a whitespace prefix: the result is a suffix, everything dropped is whitespace, and the result does not start with whitespace |
| Text.StripRight | dit_offload.py:135 | `rstrip` removes exactly a whitespace suffix: the result is a prefix, everything dropped is whitespace, and the result does not end with whitespace |
| Text.Strip | dit_offload.py:135 | `p.strip()` is `rstrip` after `lstrip`; what it removes is stated by `StripLeft`, `StripRight` and `StripEnds` |
| Text.StripTrimmed | dit_offload.py:135 | a text with no whitespace at either end is returned unchanged by `strip()` |
| Text.StripEnds | dit_offload.py:261 | a stripped line has no whitespace at either end, and is empty exactly when the line is all whitespace (the copy loop's `if line:`) |
| Text.ReplaceAll | dit_offload.py:174 | `s.replace(pat, rep)` replaces the leftmost non-overlapping occurrences; what it replaces is stated by `ReplaceFront` and `ReplaceLeftmost`, what it keeps by `ReplaceAbsent` and `ReplaceKeepsPair` |
| Text.ReplaceFront | dit_offload.py:174 | an occurrence at the front becomes the replacement, and the rest is replaced on its own |
| Text.ReplaceLeftmost | dit_offload.py:174 | the leftmost occurrence is replaced: when the pattern starts nowhere inside `x`, `x + pat + y` becomes `x + rep` followed by the replacement of `y` |
| Text.ReplaceAbsent | dit_offload.py:174 | `replace` leaves a text without the pattern unchanged |
| Text.ReplaceKeepsPair | dit_offload.py:174 | a two-character text `ab` survives `replace` when `a` is not in the pattern and `b` does not start it |
| Text.Basename | dit_offload.py:195 | POSIX `os.path.basename`: a suffix of the path with no `/`, preceded by `/` unless it is the whole path |
| Text.Words | dit_offload.py:216 | the tokens of `re.split(r'\s+', ...)` on stripped text: none is empty and none contains whitespace |
| Text.WordSpansAreRuns | dit_offload.py:216 | every span the word scanner finds is a maximal run of non-whitespace, with whitespace or an end of the text on both sides |
| Text.WordSpansOrdered | dit_offload.py:216 | the spans come in text order, each ending before the next starts |
| Text.WordSpansCover | dit_offload.py:216 | every non-whitespace character lies in one of the spans |
| Text.WordsAreRuns | dit_offload.py:216 | the tokens are exactly the texts of the maximal runs of non-whitespace, in order, and every non-whitespace character belongs to one of them |
| ProgressParser.DigitsValue | dit_offload.py:145 | `int()` of a string of `n` digits is below `10^n` |
| ProgressParser.PercentIn | dit_offload.py:142 | the value of group 1 of `(\d{1,3})\%` is below 1000 |
| ProgressParser.PercentIsFirstSign | dit_offload.py:142 | the percentage found is the value of the up-to-three digits before the first `%` that follows a digit |
| ProgressParser.NoSignNoPercent | dit_offload.py:142 | without a `%` immediately after a digit, the search finds no percentage |
| ProgressParser.EtaLike | dit_offload.py:156 | a field enters the ETA branch when it starts with `ETA` in any case, or is a clock time `h:mm` or `h:mm:ss` with one or two hour digits |
| ProgressParser.EtaGroupAt | dit_offload.py:158 | group 1 of `ETA\s*[:\-]?\s*(\S+)`, when it matches, is a non-empty piece of the field without whitespace; its value is stated by `EtaWordAfterMarker` and `EtaWordAfterSeparator` |
| ProgressParser.EtaText | dit_offload.py:156-162 | the ETA taken from a field is the whole field, or a non-empty piece of it without whitespace; which one is stated by `ClockEtaIsField` and the two `EtaWord` lemmas |
| ProgressParser.NormalizeSpeed | dit_offload.py:174 | shortening the unit names keeps the `/s` of a speed; the shortening itself is stated by `NormalizeMBytes`, `NormalizeKBytes` and `NormalizeGBytes` |
| ProgressParser.LazyPathFrom | dit_offload.py:188 | the lazy path group is non-empty, has no newline, and comes from a line with a `:` |
| ProgressParser.LazyPathFollowed | dit_offload.py:188 | the path the lazy group takes is followed, inside the line, by `:\s*\d{1,3}%` |
| ProgressParser.PathSearch | dit_offload.py:188 | the path found is non-empty, has no newline, and comes from a line with a `:` |
| ProgressParser.LastFileToken | dit_offload.py:193-195 | the last file token of a path is non-empty, has no `:` and does not start with whitespace |
| ProgressParser.LastColonToken | dit_offload.py:204-206 | the last token before a colon is non-empty, has no `:`, does not start with whitespace, and comes from a line with a `:` |
| ProgressParser.FileLine | dit_offload.py:186-227 | a per-file line yields only a file event, whose name is a non-empty basename without `/`, and only when the line has a `:` |
| ProgressParser.LastDottedName | dit_offload.py:216-221 | the last-resort pattern returns a non-empty basename without `/` |
| ProgressParser.Scan | dit_offload.py:140-163 | the percentage picked by the field loop is below 1000 |
| ProgressParser.Aggregate | dit_offload.py:132-176 | an aggregate line always gives a progress event with a percentage below 1000 |
| ProgressParser.Parse | dit_offload.py:128-227 | a line gives a progress event exactly when it contains `Transferred:`; a file event never comes from such a line, and carries a non-empty name without `/` from a line with a `:` |
| ProgressParser.ScanFields | dit_offload.py:136-162 | the program's loop over the comma-separated fields, with its `continue`s, computes the fields of `Scan`, the fold that the field lemmas describe |
| ProgressParser.ParseLine | dit_offload.py:132-176 | the loop and the defaults filled in after it compute the same result as `Parse` |
| ProgressParserLemmas.PercentAbsent | dit_offload.py:140-148 | no percentage is picked exactly when no field holds one |
| ProgressParserLemmas.PercentFromFirstField | dit_offload.py:142-148 | the percentage comes from the first field that holds one, whatever follows |
| ProgressParserLemmas.SpeedIsField | dit_offload.py:150-153 | a speed picked by the loop is one of the fields, and it contains `/s` |
| ProgressParserLemmas.SpeedAbsent | dit_offload.py:150-153 | with no field containing `/s`, no speed is picked |
| ProgressParserLemmas.SpeedNoneIff | dit_offload.py:143-153 | no speed is picked exactly when every field containing `/s` is the one the percentage branch takes |
| ProgressParserLemmas.SpeedFromFirstField | dit_offload.py:143-153 | the speed is the field the speed branch takes: the first field containing `/s` that the percentage branch does not take, even when it also holds a percentage |
| ProgressParserLemmas.EtaIsField | dit_offload.py:155-163 | an ETA picked by the loop is the ETA text of an ETA-like field |
| ProgressParserLemmas.EtaNoneIff | dit_offload.py:143-163 | no ETA is picked exactly when every ETA-like field is taken by the percentage or the speed branch |
| ProgressParserLemmas.ClockEtaIsField | dit_offload.py:156-162 | a field that is a clock time `h:mm` or `h:mm:ss` is its own ETA, since no `ETA` occurs in it |
| ProgressParserLemmas.EtaWordAfterMarker | dit_offload.py:156-162 | after `ETA` in any case and blanks, the ETA is the following word when it does not start with `:` or `-` |
| ProgressParserLemmas.EtaWordAfterSeparator | dit_offload.py:156-162 | after `ETA` in any case, blanks, a `:` or `-` and blanks, the ETA is the following word, without the separator |
| ProgressParserLemmas.EtaOfMarkedClock | dit_offload.py:157 | `ETA 00:12:34` is normalised to `00:12:34` |
| ProgressParserLemmas.EtaFromLastField | dit_offload.py:143-163 | an ETA-like field that neither the percentage nor the speed branch takes decides the ETA when every later ETA-like field is taken by one of those branches, since the ETA branch has no `is None` guard |
| ProgressParserLemmas.DefaultSpeedPerSecond | dit_offload.py:169 | the default speed `0 B/s` contains `/s` |
| ProgressParserLemmas.SpeedMentionsPerSecond | dit_offload.py:150-174 | the speed of every aggregate line's progress event contains `/s` |
| ProgressParserLemmas.NormalizeMBytes | dit_offload.py:174 | a speed `n MBytes/s`, with `n` made of digits and decimal points, is shown as `n MB/s` |
| ProgressParserLemmas.NormalizeKBytes | dit_offload.py:174 | a speed `n KBytes/s` is shown as `n KB/s` |
| ProgressParserLemmas.NormalizeGBytes | dit_offload.py:174 | a speed `n GBytes/s` is shown as `n GB/s` |
| ProgressParserLemmas.DefaultSpeedUnchanged | dit_offload.py:169-174 | the default speed is returned unchanged by the normalisation |
| ProgressParserLemmas.AggregateDefaults | dit_offload.py:165-171 | a missing percentage gives 0, a missing speed `0 B/s`, and a missing ETA `---`, where missing means exactly what `PercentAbsent`, `SpeedNoneIff` and `EtaNoneIff` characterise: no field with a percentage, every `/s` field taken by the percentage branch, every ETA-like field taken by the percentage or speed branch |
| ProgressParserLemmas.SingleFieldPercent | dit_offload.py:135-148 | an aggregate line with no comma takes its percentage from the stripped line as a whole |
| ProgressParserLemmas.PercentAtFirst | dit_offload.py:142 | the first position where `(\d{1,3})\%` matches gives the percentage, the value of its digits |
| ProgressParserLemmas.ThreeDigits | dit_offload.py:145 | `int()` of three digits is the positional value |
| ProgressParserLemmas.PercentNotClamped | dit_offload.py:142-176 | `Transferred: 250%` gives a progress event of 250: the parser does not clamp |
| Preflight.Check | dit_offload.py:87-126 | success exactly when all seven checks pass, with the total size and a count of at least 1; a failure names a failing check, every earlier check passes, and the space failure carries the totals |
| Preflight.PreflightCheck | dit_offload.py:87-126 | `preflight_check`'s checks and nested walk loop compute the same result as `Check` |
| PreflightLemmas.DirTotals | dit_offload.py:104-110 | one directory's size and count are the sum and number of its readable sizes |
| PreflightLemmas.WalkTotals | dit_offload.py:103-110 | the walk's totals are the sum and number of all readable sizes in walk order |
| PreflightLemmas.CountZeroIff | dit_offload.py:103-112 | the count is 0 exactly when every entry in the walk is unreadable |
| PreflightLemmas.NoFilesIff | dit_offload.py:112-113 | with the path checks passing, preflight fails with "no files" exactly when every file is unreadable |
| PreflightLemmas.SpaceFailsIff | dit_offload.py:115-125 | with files present, preflight fails exactly when the total exceeds 95 % of the free space, and then with the space error |
| PreflightLemmas.MoreSpaceStillPasses | dit_offload.py:118-126 | more free space keeps a passing preflight passing with the same totals |
| Engine.LinesReadIsLeadingRun | dit_offload.py:256-259 | the lines read are the leading run of lines of the stream, stopped by a request |
| Engine.CopyResult | dit_offload.py:229-302 | a launch failure is an error; an abort request gives the abort signal; a pause request with no abort gives the pause signal; otherwise the exit code |
| Engine.LinesReadAppend | dit_offload.py:256-269 | one more item adds its line to the lines read only while no request has been seen |
| Engine.LinesReadStable | dit_offload.py:258-259 | after a request, nothing later is read |
| Engine.Classify | dit_offload.py:261-269 | one line's handling in the copy loop sends at most one event, exactly when the stripped line is not blank and parses, and that event is the parse of the stripped line |
| Engine.TransferEngine.constructor | dit_offload.py:79-85 | a new engine has no process and no flag set |
| Engine.TransferEngine.Stop | dit_offload.py:386-399 | `stop` sets only the stop flag and ends the process |
| Engine.TransferEngine.Pause | dit_offload.py:401-415 | `pause` sets only the pause flag and ends the process |
| Engine.TransferEngine.Resume | dit_offload.py:417-421 | `resume` clears only the pause flag |
| Engine.TransferEngine.Abort | dit_offload.py:423-436 | `abort` sets only the abort flag and ends the process |
| Engine.TransferEngine.ReadOutput | dit_offload.py:256-269 | the read loop stops only on a line seen after a request, and every line before it was seen before any request; the flags match the requests seen, and the events sent are those of the lines read |
| Engine.TransferEngine.DrainRequests | dit_offload.py:271-283 | requests arriving while the process is waited on set their flags and send nothing |
| Engine.TransferEngine.RunCopy | dit_offload.py:229-302 | flags are cleared at the start; the outcome is `CopyResult`; afterwards the flags match the requests and the events sent are those of the lines read |
| EngineLemmas.NoticeOfParses | dit_offload.py:261-269 | a line sends at most one event, exactly the parse of its stripped text |
| EngineLemmas.NoticesFromLines | dit_offload.py:256-269 | at most one event per line read, and every event sent is the parse of one of those lines |
| EngineLemmas.SilentLines | dit_offload.py:263-264 | lines that parse to nothing send nothing |
| ProgressBar.Clamp | dit_offload.py:757 | the shown percentage lies in [0, 100], equals the input inside that range, and is 0 or 100 outside it |
| ProgressBar.StepToward | dit_offload.py:790-793 | one tick moves one unit toward the target and never overshoots |
| ProgressBar.WalkReaches | dit_offload.py:788-807 | starting `d` units away, the bar shows the target after exactly `d` ticks and not before |
| ProgressBar.ProgressAnimator.constructor | dit_offload.py:464-466 | the bar starts at 0 with target 0 and no animation |
| ProgressBar.ProgressAnimator.AnimateTo | dit_offload.py:772-786 | `animate_progress_to` sets the target and leaves an animation running, without moving the bar |
| ProgressBar.ProgressAnimator.Step | dit_offload.py:788-807 | a tick moves the bar one unit toward the target and stops the animation exactly when they meet |
| ProgressBar.ProgressAnimator.Settle | dit_offload.py:788-807 | the scheduled ticks end with the bar on the target after as many ticks as the distance |
| ProgressBar.ProgressAnimator.Rewind | dit_offload.py:845-846 | the shown value and the target go back to 0 |
| Pipeline.CopyStatuses | dit_offload.py:868-913 | after the copy, exactly one final status is shown, last; "Verifying" only after exit code 0; "Complete" only with exit 0, a passing verification and a created manifest; "Paused" and "Aborted" only for their signals; otherwise "Failed" |
| Pipeline.RunStatuses | dit_offload.py:862-917 | preflight is shown exactly when the run is not a resume; the copy runs exactly on a resume or a passing preflight; the same final-status facts as `CopyStatuses` |
| Pipeline.Decide | dit_offload.py:812-830 | a start is refused while transferring and not paused, then without a source, then without a destination, then for a transfer count that is not an integer, and accepted otherwise |
| Pipeline.DitApp.constructor | dit_offload.py:440-663 | the window starts idle, as `__init__` sets it up (dit_offload.py:440-466): not transferring, not paused, with no engine and no kept arguments; and the labels start as `create_widgets` sets them (dit_offload.py:645-663): "0%", "Waiting...", "0 MB/s" and "--:--:--" |
| Pipeline.DitApp.StartTransfer | dit_offload.py:812-860 | on an accepted start, a fresh engine with no process and no flag set, the stripped arguments kept, the transferring state and the bar rewound; otherwise nothing changes |
| Pipeline.DitApp.Begin | dit_offload.py:833-848 | an accepted start: a fresh engine with no process, no flag and nothing sent, the arguments kept, transferring and not paused, the bar rewound |
| Pipeline.DitApp.Show | dit_offload.py:766-768 | a status is appended to the statuses shown |
| Pipeline.DitApp.RunTransfer | dit_offload.py:862-917 | the statuses shown are `RunStatuses`; a pause sets paused and transferring; every other ending schedules a reset; a failed preflight leaves the engine untouched; once the copy runs no process is left, a launch that fails leaves the flags cleared and sends nothing, and a started one leaves the flags matching its requests and sends the events of the lines read |
| Pipeline.DitApp.RunPreflight | dit_offload.py:865-867 | preflight shows its status, then "Failed" when `Check` fails |
| Pipeline.DitApp.RunCopyStage | dit_offload.py:870-913 | the copy and its later stages show "Transferring" and then `CopyStatuses` of the copy's outcome; no process is left; a launch that fails leaves the flags cleared and sends nothing, and a started one leaves the flags matching its requests and sends the events of the lines read |
| Pipeline.DitApp.FinishCopy | dit_offload.py:872-913 | the stages after the copy show `CopyStatuses`, and a pause signal sets paused and transferring |
| Pipeline.DitApp.TogglePause | dit_offload.py:919-952 | nothing happens without a running transfer; unpaused, a confirmed press requests a pause from the engine; paused, the engine resumes with its process state and other flags unchanged, "Resuming..." is shown and the kept arguments are returned for a resumed run |
| Pipeline.DitApp.AbortTransfer | dit_offload.py:954-971 | a confirmed abort of a running transfer requests the abort, shows "Aborted", clears paused and the kept arguments and schedules a reset; otherwise nothing changes |
| Pipeline.DitApp.ResetUi | dit_offload.py:973-984 | leaves the transferring and paused state, shows the idle labels and animates the bar back to 0 |
| Pipeline.DitApp.Deliver | dit_offload.py:747-764 | a progress event sets the speed and ETA labels and animates the bar to the clamped percentage; a file event shows the file name |

## Left out

- The window itself is not modelled. This covers widget construction, layout, file dialogs, colours, the log panel and the display scaling (`apply_scaling`, `s`, `sf`), which is float arithmetic and DPI calls.
- Message boxes are not modelled. The confirmations of `toggle_pause` and `abort_transfer` are the `confirmed` parameter, and a transfer count that `int()` rejects is the `None` of `StartTransfer`'s `transfers`.
- Logging and configuration files (`DITLogger`, `ConfigManager`, `load_saved_config`) are left out: they are file I/O only. The log messages sent to the window are left out too.
- Threads are not modelled. `run_transfer` runs in a worker thread, and a request from the window can land at any point. The model places requests only between output lines, in the copy's item stream.
- Real processes are not modelled. A copy is its launch: lines, then an exit code. This leaves out the terminate, wait and kill ladder with its 5-second waits, and the 3600-second timeouts of the other tools. The engine's `running` field stands for "the process has not ended".
- `verify_transfer` and `create_mhl` are their results: `verified`, and `Manifest` with the tool missing, failed or done. `verify_mhl` is not called by `run_transfer` and is not modelled.
- The filesystem is the `Snapshot` value. `os.walk` order, links and races are not modelled, and neither are `getsize` errors other than "unreadable". `update_source_info` is not modelled.
- The free-space margin is exact integer arithmetic (`size * 100 > free * 95`). Python's float product `dst_free * 0.95` can round differently for very large values.
- The size messages formatted in GB are not modelled.
- `\d` is restricted to ASCII digits, so other Unicode digits are not matched.
- Text.Words: on an all-whitespace text `re.split` gives one empty token where `Words` gives none. The loop at dit_offload.py:217-221 skips a token without `.` either way.
- `p.upper()` is ASCII upper-casing; other letters, and case mappings that change length, are not modelled.
- `os.path.basename` is the POSIX one. The Windows variant, which also splits on `\`, is not modelled.
- The `Exception` handler of the parser (dit_offload.py:224-225) only logs, and nothing in the modelled parser raises, so it is not modelled. The handler of `run_rclone_copy` (dit_offload.py:300-302) logs and re-raises, and `run_transfer` then shows "Failed" (dit_offload.py:908-913). Its only modelled cause is the launch failure: `NotStarted` gives `CopyError` and ends in "Failed". Other exceptions (a failing pipe read, an error inside a callback) are not modelled.
- `Engine.TransferEngine.RunCopy`: the error path of a copy that fails while its output is read is not modelled. Only the launch failure is modelled.
- Scheduling on the window's event loop (`after`) is modelled only as far as ordering needs. Pipeline.DitApp.RunTransfer sets `resetPending` rather than running the reset, and `ProgressAnimator.Settle` runs the scheduled ticks.
- `ProgressBar.ProgressAnimator.Step` does not model the redraw of the bar and its label.
