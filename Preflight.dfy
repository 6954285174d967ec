/**
 * The preflight validator run before a fresh copy: ordered path checks, a
 * walk of the source folder that totals the readable files, and a free-space
 * margin of 95 % on the destination.
 *
 * The filesystem is an input value: the answers to the path queries, the
 * file entries of every directory the walk visits (an entry whose size
 * cannot be read is skipped, as the `except OSError` of `preflight_check` does), and the
 * free space reported for the destination.
 */
module Preflight {
  import opened Outcomes

  /** One file met by the walk: its size, or the failure to read it. */
  datatype Entry = Readable(size: nat) | Unreadable

  /** What preflight learns from the filesystem. */
  datatype Snapshot = Snapshot(
    sourceExists: bool,
    sourceIsDirectory: bool,
    sourceListing: nat,          // number of names listed directly in the source folder
    destinationExists: bool,
    destinationIsDirectory: bool,
    walk: seq<seq<Entry>>,       // the files of each directory visited, in walk order
    destinationFree: nat)

  /** The errors preflight raises, one per check. */
  datatype Failure =
    | SourceMissing
    | SourceNotDirectory
    | SourceEmpty
    | DestinationMissing
    | DestinationNotDirectory
    | NoFiles
    | InsufficientSpace(required: nat, available: nat)

  /** The checks, in the order the validator runs them. */
  datatype Stage =
    SourceExists | SourceIsDirectory | SourceNonEmpty | DestinationExists
    | DestinationIsDirectory | HasFiles | HasSpace

  function Rank(s: Stage): nat {
    match s
    case SourceExists => 0
    case SourceIsDirectory => 1
    case SourceNonEmpty => 2
    case DestinationExists => 3
    case DestinationIsDirectory => 4
    case HasFiles => 5
    case HasSpace => 6
  }

  /** The check whose failure an error reports. */
  function StageOf(f: Failure): Stage {
    match f
    case SourceMissing => SourceExists
    case SourceNotDirectory => SourceIsDirectory
    case SourceEmpty => SourceNonEmpty
    case DestinationMissing => DestinationExists
    case DestinationNotDirectory => DestinationIsDirectory
    case NoFiles => HasFiles
    case InsufficientSpace(_, _) => HasSpace
  }

  // ---------------------------------------------------------------------------
  // Totals of the walk, folded from the end so that a loop can extend them

  function DirSize(files: seq<Entry>): nat {
    if files == [] then 0
    else DirSize(files[..|files| - 1]) + (match files[|files| - 1] case Readable(n) => n case Unreadable => 0)
  }

  function DirCount(files: seq<Entry>): nat {
    if files == [] then 0
    else DirCount(files[..|files| - 1]) + (if files[|files| - 1].Readable? then 1 else 0)
  }

  function TotalSize(walk: seq<seq<Entry>>): nat {
    if walk == [] then 0 else TotalSize(walk[..|walk| - 1]) + DirSize(walk[|walk| - 1])
  }

  function TotalCount(walk: seq<seq<Entry>>): nat {
    if walk == [] then 0 else TotalCount(walk[..|walk| - 1]) + DirCount(walk[|walk| - 1])
  }

  /** The 95 % margin, in exact integers: `size <= 0.95 * free`. */
  predicate Fits(size: nat, free: nat) {
    size * 100 <= free * 95
  }

  /** Whether a check passes on the given filesystem. */
  predicate Passes(fs: Snapshot, s: Stage) {
    match s
    case SourceExists => fs.sourceExists
    case SourceIsDirectory => fs.sourceIsDirectory
    case SourceNonEmpty => fs.sourceListing > 0
    case DestinationExists => fs.destinationExists
    case DestinationIsDirectory => fs.destinationIsDirectory
    case HasFiles => TotalCount(fs.walk) > 0
    case HasSpace => Fits(TotalSize(fs.walk), fs.destinationFree)
  }

  /**
   * The validator's result: the first failing check, in check order, or the
   * total size and number of the readable files.
   */
  function Check(fs: Snapshot): (r: Result<(nat, nat), Failure>)
    ensures r.Ok? <==> forall s: Stage :: Passes(fs, s)
    ensures r.Ok? ==> r.value == (TotalSize(fs.walk), TotalCount(fs.walk)) && r.value.1 >= 1
    ensures r.Err? ==> !Passes(fs, StageOf(r.error))
    ensures r.Err? ==> forall s: Stage :: Rank(s) < Rank(StageOf(r.error)) ==> Passes(fs, s)
    ensures r.Err? && r.error.InsufficientSpace? ==>
      r.error.required == TotalSize(fs.walk) && r.error.available == fs.destinationFree
  {
    if !fs.sourceExists then
      assert !Passes(fs, SourceExists); Err(SourceMissing)
    else if !fs.sourceIsDirectory then
      assert !Passes(fs, SourceIsDirectory); Err(SourceNotDirectory)
    else if fs.sourceListing == 0 then
      assert !Passes(fs, SourceNonEmpty); Err(SourceEmpty)
    else if !fs.destinationExists then
      assert !Passes(fs, DestinationExists); Err(DestinationMissing)
    else if !fs.destinationIsDirectory then
      assert !Passes(fs, DestinationIsDirectory); Err(DestinationNotDirectory)
    else if TotalCount(fs.walk) == 0 then
      assert !Passes(fs, HasFiles); Err(NoFiles)
    else if !Fits(TotalSize(fs.walk), fs.destinationFree) then
      assert !Passes(fs, HasSpace); Err(InsufficientSpace(TotalSize(fs.walk), fs.destinationFree))
    else Ok((TotalSize(fs.walk), TotalCount(fs.walk)))
  }

  /** The validator as `preflight_check` runs it: the checks, then the nested walk loop. */
  method PreflightCheck(fs: Snapshot) returns (r: Result<(nat, nat), Failure>)
    ensures r == Check(fs)
  {
    if !fs.sourceExists { return Err(SourceMissing); }
    if !fs.sourceIsDirectory { return Err(SourceNotDirectory); }
    if fs.sourceListing == 0 { return Err(SourceEmpty); }
    if !fs.destinationExists { return Err(DestinationMissing); }
    if !fs.destinationIsDirectory { return Err(DestinationNotDirectory); }

    var size: nat := 0;
    var count: nat := 0;
    for d := 0 to |fs.walk|
      invariant size == TotalSize(fs.walk[..d])
      invariant count == TotalCount(fs.walk[..d])
    {
      var files := fs.walk[d];
      for k := 0 to |files|
        invariant size == TotalSize(fs.walk[..d]) + DirSize(files[..k])
        invariant count == TotalCount(fs.walk[..d]) + DirCount(files[..k])
      {
        assert files[..k + 1][..k] == files[..k];
        match files[k]
        case Readable(n) =>
          size := size + n;
          count := count + 1;
        case Unreadable =>
      }
      assert files[..|files|] == files;
      assert fs.walk[..d + 1][..d] == fs.walk[..d];
    }
    assert fs.walk[..|fs.walk|] == fs.walk;

    if count == 0 { return Err(NoFiles); }
    if !Fits(size, fs.destinationFree) { return Err(InsufficientSpace(size, fs.destinationFree)); }
    r := Ok((size, count));
  }
}
