/** The scanner object of control/chronos_fim.go: Scan as the loops that update the checkpoint. */
module ChronosScanner {
  import opened Options
  import opened ChronosMerkle
  import opened ChronosScan
  import opened ChronosContents

  datatype Phase = Running | Paused | Completed | BoundedOut

  datatype Checkpoint = Checkpoint(rootIndex: nat, last: string, files: nat, bytes: nat,
                                   hashes: map<string, string>, merkleRoot: Root, phase: Phase)

  const FRESH := Checkpoint(0, "", 0, 0, map[], Zeros, Running)

  /** A checkpoint with the flags of a scan in progress. */
  function ToProgress(c: Checkpoint, passed: bool, bounded: bool): Progress {
    Progress(c.hashes, c.files, c.bytes, c.last, passed, bounded)
  }

  /** A scan that entered root `first` with `p` and has come to the start of root `r`. */
  function Reaching(p: Progress, tree: Tree, first: nat, r: nat, policy: Policy): Progress
    requires first <= r && (r <= |tree| || r == first)
    decreases r
  {
    if r == first then p else Walk(EnterRoot(Reaching(p, tree, first, r - 1, policy), policy), tree[r - 1], policy)
  }

  lemma {:induction false} ReachingThenOnward(p: Progress, tree: Tree, first: nat, r: nat, policy: Policy)
    requires first <= r && (r <= |tree| || r == first)
    ensures Onward(p, tree, first, policy) == Onward(Reaching(p, tree, first, r, policy), tree, r, policy)
    decreases r
  {
    if r > first {
      ReachingThenOnward(p, tree, first, r - 1, policy);
    }
  }

  /** From the beginning, this is the uninterrupted scan. */
  lemma {:induction false} ReachingFromStart(tree: Tree, r: nat, policy: Policy)
    requires r <= |tree|
    ensures Reaching(NOTHING_YET, tree, 0, r, policy) == Before(tree, r, policy)
  {
    if r > 0 {
      ReachingFromStart(tree, r - 1, policy);
    }
  }

  lemma {:induction false} BoundedStays(p: Progress, entries: seq<Entry>, policy: Policy)
    requires p.bounded
    ensures Walk(p, entries, policy) == p
  {
    if entries != [] {
      BoundedStays(p, entries[..|entries| - 1], policy);
    }
  }

  lemma {:induction false} BoundedStaysOnward(p: Progress, tree: Tree, r: nat, policy: Policy)
    requires p.bounded && r <= |tree|
    ensures Onward(p, tree, r, policy) == p
    decreases |tree| - r
  {
    if r < |tree| {
      BoundedStays(p, tree[r], policy);
      BoundedStaysOnward(p, tree, r + 1, policy);
    }
  }

  /** The scan stopped in root `r` after `k` of its entries. */
  predicate PausedAt(p: Progress, tree: Tree, first: nat, c: Checkpoint, r: nat, k: nat, policy: Policy) {
    && first <= r < |tree| && k <= |tree[r]| && c.rootIndex == r
    && SameResult(ToProgress(c, true, false),
                  Walk(EnterRoot(Reaching(p, tree, first, r, policy), policy), tree[r][..k], policy))
  }

  /**
   A first scan that was cancelled and then resumed: the checkpoint it left decides
   whether the resumed scan ends where the uninterrupted one does.
   */
  lemma CancelledThenResumed(tree: Tree, c: Checkpoint, r: nat, k: nat, policy: Policy)
    requires WellFormed(tree) && PausedAt(NOTHING_YET, tree, 0, c, r, k, policy)
    ensures var p := ToProgress(c, true, false);
            SameResult(Onward(Loaded(p), tree, c.rootIndex, policy), FullScan(tree, policy)) <==>
              Anchored(p, tree, r) || Exhausted(p, policy) || NothingLeft(tree, r, k)
  {
    ReachingFromStart(tree, r, policy);
    var p, q := ToProgress(c, true, false), StoppedAt(tree, r, k, policy);
    assert Loaded(p) == Loaded(q);
    ResumeIsFaithfulExactlyWhen(tree, r, k, policy);
  }

  /** Under that condition the resumed scan holds the files of the tree, as far as the budgets reach. */
  lemma ResumedScanHolds(tree: Tree, c: Checkpoint, r: nat, k: nat, policy: Policy) returns (n: nat)
    requires WellFormed(tree) && PausedAt(NOTHING_YET, tree, 0, c, r, k, policy)
    requires Anchored(ToProgress(c, true, false), tree, r) || Exhausted(ToProgress(c, true, false), policy)
             || NothingLeft(tree, r, k)
    ensures HoldsRun(Onward(Loaded(ToProgress(c, true, false)), tree, c.rootIndex, policy), Flat(tree), n, policy)
  {
    hide Walk, WellFormed, HoldsJust, ShortestRun, PausedAt, Anchored, NothingLeft, Onward;
    CancelledThenResumed(tree, c, r, k, policy);
    n := FullScanHolds(tree, policy);
  }

  // ----------------------------------------------------------- many interruptions

  /** The checkpoint is what the uninterrupted scan had after `k` entries of the root it names. */
  predicate Matches(c: Checkpoint, tree: Tree, k: nat, policy: Policy) {
    && c.rootIndex < |tree| && k <= |tree[c.rootIndex]|
    && SameResult(ToProgress(c, true, false), StoppedAt(tree, c.rootIndex, k, policy))
  }

  /** A walk only adds files, and one that adds none changes nothing. */
  lemma {:induction false} WalkOnlyAdds(p: Progress, entries: seq<Entry>, policy: Policy)
    ensures var q := Walk(p, entries, policy); q.files >= p.files && (q.files == p.files ==> SameResult(p, q))
  {
    if entries != [] {
      WalkOnlyAdds(p, entries[..|entries| - 1], policy);
    }
  }

  /** A second cancellation before the old resume point was reached again leaves the checkpoint as it was. */
  lemma CancelledWhileSkipping(tree: Tree, r: nat, k: nat, again: nat, policy: Policy)
    requires WellFormed(tree) && r < |tree| && again <= k <= |tree[r]|
    requires var p := StoppedAt(tree, r, k, policy); Anchored(p, tree, r) && !Exhausted(p, policy)
    ensures var p := StoppedAt(tree, r, k, policy);
            SameResult(Walk(EnterRoot(Loaded(p), policy), tree[r][..again], policy), p)
  {
    hide Walk, Before;
    var p := StoppedAt(tree, r, k, policy);
    var q := EnterRoot(Loaded(p), policy);
    ReplayRestores(tree, r, k, policy);
    assert tree[r][..k] == tree[r][..again] + tree[r][again..k];
    WalkSplits(q, tree[r][..again], tree[r][again..k], policy);
    WalkOnlyAdds(q, tree[r][..again], policy);
    WalkOnlyAdds(Walk(q, tree[r][..again], policy), tree[r][again..k], policy);
  }

  /** A second cancellation later in the same root stops where the first scan would have. */
  lemma CancelledFurtherOn(tree: Tree, r: nat, k: nat, later: nat, policy: Policy)
    requires WellFormed(tree) && r < |tree| && k <= later <= |tree[r]|
    requires var p := StoppedAt(tree, r, k, policy); Anchored(p, tree, r) && !Exhausted(p, policy)
    ensures Walk(EnterRoot(Loaded(StoppedAt(tree, r, k, policy)), policy), tree[r][..later], policy)
            == StoppedAt(tree, r, later, policy)
  {
    hide Walk, Before;
    var p := StoppedAt(tree, r, k, policy);
    ReplayRestores(tree, r, k, policy);
    assert tree[r][..later] == tree[r][..k] + tree[r][k..later];
    WalkSplits(EnterRoot(Loaded(p), policy), tree[r][..k], tree[r][k..later], policy);
    WalkSplits(EnterRoot(Before(tree, r, policy), policy), tree[r][..k], tree[r][k..later], policy);
  }

  /** In a later root an anchored resume is indistinguishable from the first scan. */
  lemma {:induction false} ReachingAfterResume(tree: Tree, r: nat, k: nat, root: nat, policy: Policy)
    requires WellFormed(tree) && r < root <= |tree| && k <= |tree[r]|
    requires var p := StoppedAt(tree, r, k, policy); Anchored(p, tree, r) && !Exhausted(p, policy)
    ensures Reaching(Loaded(StoppedAt(tree, r, k, policy)), tree, r, root, policy) == Before(tree, root, policy)
    decreases root
  {
    hide Walk, Loaded, StoppedAt;
    if root == r + 1 {
      CancelledFurtherOn(tree, r, k, |tree[r]|, policy);
      WholeRootIsStopped(tree, r, policy);
      assert tree[r][..|tree[r]|] == tree[r];
    } else {
      ReachingAfterResume(tree, r, k, root - 1, policy);
    }
  }

  lemma WholeRootIsStopped(tree: Tree, r: nat, policy: Policy)
    requires r < |tree|
    ensures StoppedAt(tree, r, |tree[r]|, policy) == Before(tree, r + 1, policy)
  {
    assert tree[r][..|tree[r]|] == tree[r];
  }

  /** Cancelling an anchored resume leaves a checkpoint of the uninterrupted scan again. */
  lemma CancelledAgain(tree: Tree, c: Checkpoint, k: nat, next: Checkpoint, r: nat, j: nat, policy: Policy)
    returns (stop: nat)
    requires WellFormed(tree) && Matches(c, tree, k, policy)
    requires Anchored(ToProgress(c, true, false), tree, c.rootIndex) && !Exhausted(ToProgress(c, true, false), policy)
    requires PausedAt(Loaded(ToProgress(c, true, false)), tree, c.rootIndex, next, r, j, policy)
    ensures Matches(next, tree, stop, policy)
  {
    hide Walk, Before;
    var p := StoppedAt(tree, c.rootIndex, k, policy);
    assert Loaded(ToProgress(c, true, false)) == Loaded(p);
    stop := j;
    if r > c.rootIndex {
      ReachingAfterResume(tree, c.rootIndex, k, r, policy);
    } else if j < k {
      stop := k;
      CancelledWhileSkipping(tree, r, k, j, policy);
    } else {
      CancelledFurtherOn(tree, r, k, j, policy);
    }
  }

  /**
   A first scan and any number of resumes, all cancelled; each resume continued an anchored checkpoint within
   budget.
   */
  ghost predicate CancelledChain(tree: Tree, cs: seq<Checkpoint>, policy: Policy) {
    && cs != []
    && (exists r, k :: PausedAt(NOTHING_YET, tree, 0, cs[0], r, k, policy))
    && forall i :: 0 <= i < |cs| - 1 ==> CancelledResume(tree, cs[i], cs[i + 1], policy)
  }

  ghost predicate CancelledResume(tree: Tree, c: Checkpoint, next: Checkpoint, policy: Policy) {
    && c.rootIndex < |tree| && Anchored(ToProgress(c, true, false), tree, c.rootIndex)
    && !Exhausted(ToProgress(c, true, false), policy)
    && exists r, k :: PausedAt(Loaded(ToProgress(c, true, false)), tree, c.rootIndex, next, r, k, policy)
  }

  lemma {:induction false} ChainMatches(tree: Tree, cs: seq<Checkpoint>, n: nat, policy: Policy) returns (k: nat)
    requires WellFormed(tree) && CancelledChain(tree, cs, policy) && n < |cs|
    ensures Matches(cs[n], tree, k, policy)
  {
    hide Walk, Before;
    if n == 0 {
      var r, j :| PausedAt(NOTHING_YET, tree, 0, cs[0], r, j, policy);
      ReachingFromStart(tree, r, policy);
      k := j;
    } else {
      var before := n - 1;
      var stop := ChainMatches(tree, cs, before, policy);
      assert CancelledResume(tree, cs[before], cs[before + 1], policy);
      var last := Loaded(ToProgress(cs[before], true, false));
      var r, j :| PausedAt(last, tree, cs[before].rootIndex, cs[n], r, j, policy);
      k := CancelledAgain(tree, cs[before], stop, cs[n], r, j, policy);
    }
  }

  /**
   However often a scan is cancelled and resumed, the last checkpoint stands for a definite entry of the
   uninterrupted scan, and finishing from it gives the same digests and counters exactly when it is
   anchored, the budget is exhausted, or nothing is left to hash after that entry.
   */
  lemma ManyTimesCancelledThenResumed(tree: Tree, cs: seq<Checkpoint>, policy: Policy) returns (k: nat)
    requires WellFormed(tree) && CancelledChain(tree, cs, policy)
    ensures var c := cs[|cs| - 1];
            && Matches(c, tree, k, policy)
            && (SameResult(Onward(Loaded(ToProgress(c, true, false)), tree, c.rootIndex, policy),
                           FullScan(tree, policy)) <==>
                  Anchored(ToProgress(c, true, false), tree, c.rootIndex)
                      || Exhausted(ToProgress(c, true, false), policy)
                  || NothingLeft(tree, c.rootIndex, k))
  {
    hide Walk, Before, Onward, Anchored;
    k := ChainMatches(tree, cs, |cs| - 1, policy);
    var c := cs[|cs| - 1];
    var p := StoppedAt(tree, c.rootIndex, k, policy);
    assert Loaded(ToProgress(c, true, false)) == Loaded(p);
    ResumeIsFaithfulExactlyWhen(tree, c.rootIndex, k, policy);
    SameAnchor(ToProgress(c, true, false), p, tree, c.rootIndex);
  }

  lemma SameAnchor(p: Progress, q: Progress, tree: Tree, r: nat)
    requires r < |tree| && p.last == q.last
    ensures Anchored(p, tree, r) == Anchored(q, tree, r)
  {
  }

  /** The walk of one root. It ends early when the context is cancelled or a budget is used up. */
  method WalkRoot(entries: seq<Entry>, policy: Policy, begin: Checkpoint, looking: bool, patience: nat)
    returns (c: Checkpoint, passed: bool, bounded: bool, left: nat, visited: nat, paused: bool)
    ensures visited <= |entries| && c.rootIndex == begin.rootIndex
    ensures c.phase == if paused then Paused else begin.phase
    ensures Walk(ToProgress(begin, !looking, false), entries[..visited], policy) == ToProgress(c, passed, bounded)
    ensures !looking ==>
              var files := Readables(entries[..visited]);
              exists n :: Adds(ToProgress(begin, true, false), ToProgress(c, true, false), files, n, policy)
    ensures !paused && !bounded ==> visited == |entries|
    ensures bounded ==> c.files >= policy.maxFiles || c.bytes >= policy.maxBytes
  {
    c, passed, bounded, left := begin, !looking, false, patience;
    visited := 0;
    while visited < |entries| && !bounded
      invariant visited <= |entries| && c.rootIndex == begin.rootIndex && c.phase == begin.phase
      invariant bounded ==> c.files >= policy.maxFiles || c.bytes >= policy.maxBytes
      invariant Walk(ToProgress(begin, !looking, false), entries[..visited], policy) == ToProgress(c, passed, bounded)
    {
      var e := entries[visited];
      if !e.Unreadable? {
        if left == 0 {
          c := c.(phase := Paused);
          paused := true;
          if !looking {
            WalkedAdds(begin, c, entries[..visited], passed, bounded, policy);
          }
          return;
        }
        left := left - 1;
      }
      assert entries[..visited + 1][..visited] == entries[..visited];
      visited := visited + 1;
      if e.File? {
        if c.files >= policy.maxFiles || c.bytes >= policy.maxBytes {
          bounded := true;
        } else if !passed {
          passed := e.path == c.last;
        } else if e.content.Some? {
          c := c.(hashes := c.hashes[e.path := e.content.value.digest], files := c.files + 1,
                  bytes := c.bytes + e.content.value.bytes, last := e.path);
        }
      }
    }
    paused := false;
    if !looking {
      WalkedAdds(begin, c, entries[..visited], passed, bounded, policy);
    }
  }

  lemma WalkedAdds(begin: Checkpoint, c: Checkpoint, entries: seq<Entry>, passed: bool, bounded: bool, policy: Policy)
    requires Walk(ToProgress(begin, true, false), entries, policy) == ToProgress(c, passed, bounded)
    ensures exists n :: Adds(ToProgress(begin, true, false), ToProgress(c, true, false), Readables(entries), n, policy)
  {
    var n := WalkAdds(ToProgress(begin, true, false), entries, policy);
    assert Adds(ToProgress(begin, true, false), ToProgress(c, true, false), Readables(entries), n, policy);
  }

  /** What a walk that stopped early amounts to over the whole root. */
  lemma WholeRoot(p: Progress, entries: seq<Entry>, visited: nat, policy: Policy)
    requires visited <= |entries|
    requires Walk(p, entries[..visited], policy).bounded || visited == |entries|
    ensures Walk(p, entries, policy) == Walk(p, entries[..visited], policy)
  {
    assert entries == entries[..visited] + entries[visited..];
    WalkSplits(p, entries[..visited], entries[visited..], policy);
    if Walk(p, entries[..visited], policy).bounded {
      BoundedStays(Walk(p, entries[..visited], policy), entries[visited..], policy);
    }
  }

  /** The checkpoint holds the files before some entry, as far as the budgets reach. */
  ghost predicate ScannedPart(c: Checkpoint, tree: Tree, policy: Policy) {
    exists r, k, n ::
      && 0 <= r < |tree| && 0 <= k <= |tree[r]| && c.rootIndex == r
      && HoldsRun(ToProgress(c, true, false), Flat(tree[..r]) + tree[r][..k], n, policy)
  }

  /**
   The checkpoint is bounded exactly when a budget was used up before some root or file, and then holds the
   fewest files in the order of the walk that use it up. Otherwise it is complete, and holds every readable file
   of every root with its digest and nothing else.
   */
  ghost predicate ScannedAll(c: Checkpoint, tree: Tree, policy: Policy) {
    && (exists n :: HoldsRun(ToProgress(c, true, false), Flat(tree), n, policy))
    && c.phase == (if exists r :: 0 <= r < |tree| && SpentIn(tree, r, policy) then BoundedOut else Completed)
    && (c.phase == Completed ==> HoldsTree(ToProgress(c, true, false), tree))
  }

  lemma PausedHolds(tree: Tree, c: Checkpoint, r: nat, k: nat, policy: Policy)
    requires WellFormed(tree) && PausedAt(NOTHING_YET, tree, 0, c, r, k, policy)
    ensures ScannedPart(c, tree, policy)
  {
    hide Walk, WellFormed, HoldsJust, ShortestRun;
    ReachingFromStart(tree, r, policy);
    var n := StoppedScanHolds(tree, r, k, policy);
    assert HoldsRun(ToProgress(c, true, false), Flat(tree[..r]) + tree[r][..k], n, policy);
  }

  lemma FinishedHolds(tree: Tree, c: Checkpoint, policy: Policy)
    requires WellFormed(tree) && SameResult(ToProgress(c, true, false), Onward(NOTHING_YET, tree, 0, policy))
    requires c.phase == if Onward(NOTHING_YET, tree, 0, policy).bounded then BoundedOut else Completed
    ensures ScannedAll(c, tree, policy)
  {
    hide Walk, WellFormed, HoldsJust, ShortestRun, SpentIn, HoldsTree;
    ReachingThenOnward(NOTHING_YET, tree, 0, |tree|, policy);
    ReachingFromStart(tree, |tree|, policy);
    var n := FullScanHolds(tree, policy);
    ScanIsBoundedExactlyWhen(tree, |tree|, policy);
    assert HoldsRun(ToProgress(c, true, false), Flat(tree), n, policy);
    if c.phase == Completed {
      WholeScanHoldsTheTree(ToProgress(c, true, false), tree, n, policy);
    }
  }

  class Scanner {
    var checkpoint: Option<Checkpoint>

    /** What the next Scan starts from, and in which root. */
    ghost function StartOf(resume: bool): (Progress, nat)
      reads this
    {
      if checkpoint.None? || !resume then (NOTHING_YET, 0)
      else (Loaded(ToProgress(checkpoint.value, true, false)), checkpoint.value.rootIndex)
    }

    /**
     Scan. The context is cancelled once `patience` readable entries have been
     delivered. Without cancellation the result is the scan to the end; with it, the
     checkpoint is the state after some entry.
     */
    method Scan(tree: Tree, policy: Policy, resume: bool, patience: nat) returns (cancelled: bool)
      modifies this
      ensures checkpoint.Some? && (cancelled <==> checkpoint.value.phase in {Paused, Running})
      ensures old(checkpoint.None? || !resume) && WellFormed(tree) ==>
                if cancelled then ScannedPart(checkpoint.value, tree, policy)
                else ScannedAll(checkpoint.value, tree, policy)
      ensures cancelled ==>
                exists r, k ::
                  PausedAt(old(StartOf(resume).0), tree, old(StartOf(resume).1), checkpoint.value, r, k, policy)
      ensures !cancelled ==>
                && var c, end := checkpoint.value, Onward(old(StartOf(resume).0), tree, old(StartOf(resume).1), policy);
                   && SameResult(ToProgress(c, true, false), end)
                   && c.phase == (if end.bounded then BoundedOut else Completed)
                   && IsRoot(c.hashes, c.merkleRoot)
    {
      hide Walk, IsRoot;
      ghost var (start, first) := StartOf(resume);
      ghost var anew := checkpoint.None? || !resume;
      var c := if checkpoint.None? || !resume then FRESH else checkpoint.value.(phase := Running);
      var passed, bounded, left := c.last == "", false, patience;
      var r := c.rootIndex;
      while r < |tree|
        invariant first <= r && (r <= |tree| || r == first) && c.phase == Running
        invariant Reaching(start, tree, first, r, policy) == ToProgress(c, passed, bounded)
        invariant bounded ==> c.files >= policy.maxFiles || c.bytes >= policy.maxBytes
      {
        c := c.(rootIndex := r);
        if c.files >= policy.maxFiles || c.bytes >= policy.maxBytes {
          bounded := true;
          ReachingThenOnward(start, tree, first, r, policy);
          BoundedStays(ToProgress(c, passed, true), tree[r], policy);
          BoundedStaysOnward(ToProgress(c, passed, true), tree, r + 1, policy);
          assert Onward(start, tree, first, policy) == ToProgress(c, passed, bounded);
          break;
        }
        ghost var entered := ToProgress(c, passed, false);
        var visited, paused;
        c, passed, bounded, left, visited, paused := WalkRoot(tree[r], policy, c, !passed, left);
        if paused || left == 0 {
          checkpoint := Some(c);
          assert PausedAt(start, tree, first, c, r, visited, policy);
          if anew && WellFormed(tree) {
            PausedHolds(tree, c, r, visited, policy);
          }
          return true;
        }
        WholeRoot(entered, tree[r], visited, policy);
        r := r + 1;
      }
      assert Onward(start, tree, first, policy) == ToProgress(c, passed, bounded) by {
        if r >= |tree| {
          ReachingThenOnward(start, tree, first, r, policy);
        }
      }
      var root := ComputeMerkleRoot(c.hashes);
      c := c.(phase := if bounded then BoundedOut else Completed, merkleRoot := root);
      checkpoint := Some(c);
      if anew && WellFormed(tree) {
        FinishedHolds(tree, c, policy);
      }
      return false;
    }
  }
}
