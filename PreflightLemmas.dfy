/**
 * What the preflight totals mean: the sum and the number of the readable
 * files, in walk order, with unreadable files skipped; and that more free
 * space never turns a passing preflight into a failing one.
 */
module PreflightLemmas {
  import opened Outcomes
  import opened Preflight

  // ---------------------------------------------------------------------------
  // A reference definition: the list of the readable sizes, walk order

  function FileSizes(files: seq<Entry>): seq<nat> {
    if files == [] then []
    else (match files[0] case Readable(n) => [n] case Unreadable => []) + FileSizes(files[1..])
  }

  function WalkSizes(walk: seq<seq<Entry>>): seq<nat> {
    if walk == [] then [] else FileSizes(walk[0]) + WalkSizes(walk[1..])
  }

  function Sum(xs: seq<nat>): nat {
    if xs == [] then 0 else xs[0] + Sum(xs[1..])
  }

  lemma {:induction false} SumAppend(a: seq<nat>, b: seq<nat>)
    ensures Sum(a + b) == Sum(a) + Sum(b)
  {
    if a == [] {
      assert a + b == b;
    } else {
      assert (a + b)[1..] == a[1..] + b;
      assert (a + b)[0] == a[0];
      SumAppend(a[1..], b);
    }
  }

  lemma {:induction false} FileSizesAppend(a: seq<Entry>, b: seq<Entry>)
    ensures FileSizes(a + b) == FileSizes(a) + FileSizes(b)
  {
    if a == [] {
      assert a + b == b;
    } else {
      assert (a + b)[1..] == a[1..] + b;
      assert (a + b)[0] == a[0];
      FileSizesAppend(a[1..], b);
    }
  }

  lemma {:induction false} WalkSizesAppend(a: seq<seq<Entry>>, b: seq<seq<Entry>>)
    ensures WalkSizes(a + b) == WalkSizes(a) + WalkSizes(b)
  {
    if a == [] {
      assert a + b == b;
    } else {
      assert (a + b)[1..] == a[1..] + b;
      assert (a + b)[0] == a[0];
      WalkSizesAppend(a[1..], b);
    }
  }

  /** One directory's totals are the sum and the length of its readable sizes. */
  lemma {:induction false} DirTotals(files: seq<Entry>)
    ensures DirSize(files) == Sum(FileSizes(files))
    ensures DirCount(files) == |FileSizes(files)|
  {
    if files != [] {
      var init := files[..|files| - 1];
      var last := files[|files| - 1];
      assert files == init + [last];
      DirTotals(init);
      FileSizesAppend(init, [last]);
      assert [last][1..] == [];
      SumAppend(FileSizes(init), FileSizes([last]));
    }
  }

  /** The walk's totals are the sum and the length of all readable sizes. */
  lemma {:induction false} WalkTotals(walk: seq<seq<Entry>>)
    ensures TotalSize(walk) == Sum(WalkSizes(walk))
    ensures TotalCount(walk) == |WalkSizes(walk)|
  {
    if walk != [] {
      var init := walk[..|walk| - 1];
      var last := walk[|walk| - 1];
      assert walk == init + [last];
      WalkTotals(init);
      DirTotals(last);
      WalkSizesAppend(init, [last]);
      assert [last][1..] == [];
      assert WalkSizes([last]) == FileSizes(last);
      SumAppend(WalkSizes(init), FileSizes(last));
    }
  }

  // ---------------------------------------------------------------------------
  // "No files found": no readable entry anywhere in the walk

  lemma {:induction false} DirCountZero(files: seq<Entry>)
    ensures DirCount(files) == 0 <==> forall k :: 0 <= k < |files| ==> files[k].Unreadable?
  {
    if files != [] {
      var init := files[..|files| - 1];
      DirCountZero(init);
      assert forall k :: 0 <= k < |init| ==> init[k] == files[k];
    }
  }

  lemma {:induction false} CountZeroIff(walk: seq<seq<Entry>>)
    ensures TotalCount(walk) == 0 <==>
      forall d, k :: 0 <= d < |walk| && 0 <= k < |walk[d]| ==> walk[d][k].Unreadable?
  {
    if walk != [] {
      var init := walk[..|walk| - 1];
      CountZeroIff(init);
      DirCountZero(walk[|walk| - 1]);
      assert forall d :: 0 <= d < |init| ==> init[d] == walk[d];
    }
  }

  /** The source fails with "no files" exactly when every file it holds is unreadable. */
  lemma NoFilesIff(fs: Snapshot)
    requires fs.sourceExists && fs.sourceIsDirectory && fs.sourceListing > 0
    requires fs.destinationExists && fs.destinationIsDirectory
    ensures Check(fs) == Err(NoFiles) <==>
      forall d, k :: 0 <= d < |fs.walk| && 0 <= k < |fs.walk[d]| ==> fs.walk[d][k].Unreadable?
  {
    CountZeroIff(fs.walk);
  }

  // ---------------------------------------------------------------------------
  // The space margin

  /**
   * Once the path checks pass and a readable file exists, preflight fails for
   * space exactly when the total exceeds 95 % of the free space.
   */
  lemma SpaceFailsIff(fs: Snapshot)
    requires fs.sourceExists && fs.sourceIsDirectory && fs.sourceListing > 0
    requires fs.destinationExists && fs.destinationIsDirectory && TotalCount(fs.walk) > 0
    ensures Check(fs).Err? <==> TotalSize(fs.walk) * 100 > fs.destinationFree * 95
    ensures Check(fs).Err? ==> Check(fs).error == InsufficientSpace(TotalSize(fs.walk), fs.destinationFree)
  {
  }

  /** More free space keeps a passing preflight passing, with the same totals. */
  lemma MoreSpaceStillPasses(fs: Snapshot, free: nat)
    requires Check(fs).Ok? && free >= fs.destinationFree
    ensures Check(fs.(destinationFree := free)) == Check(fs)
  {
    assert Passes(fs, HasSpace);
  }
}
