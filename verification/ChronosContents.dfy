/**
 What a scan holds, in terms of the files alone: which digests, which counters, and when a
 budget cuts it short (Scan in control/chronos_fim.go).
 */
module ChronosContents {
  import opened Options
  import opened ChronosScan

  /** The files of which a digest could be taken, in the order of the walk. */
  function Readables(entries: seq<Entry>): seq<Entry> {
    if entries == [] then []
    else
      var rest, e := Readables(entries[..|entries| - 1]), entries[|entries| - 1];
      if e.File? && e.content.Some? then rest + [e] else rest
  }

  /** The entries of all roots in a row. */
  function Flat(tree: Tree): seq<Entry> {
    if tree == [] then [] else Flat(tree[..|tree| - 1]) + tree[|tree| - 1]
  }

  function TotalBytes(files: seq<Entry>): nat {
    if files == [] then 0
    else
      var e := files[|files| - 1];
      TotalBytes(files[..|files| - 1]) + if e.File? && e.content.Some? then e.content.value.bytes else 0
  }

  /** The files use up one of the two budgets. */
  predicate Spent(files: seq<Entry>, policy: Policy) {
    |files| >= policy.maxFiles || TotalBytes(files) >= policy.maxBytes
  }

  predicate IsFile(e: Entry, path: string, digest: string) {
    e.File? && e.path == path && e.content.Some? && e.content.value.digest == digest
  }

  predicate Among(files: seq<Entry>, path: string, digest: string) {
    exists i :: 0 <= i < |files| && IsFile(files[i], path, digest)
  }

  predicate InTree(tree: Tree, path: string, digest: string) {
    exists r, i :: 0 <= r < |tree| && 0 <= i < |tree[r]| && IsFile(tree[r][i], path, digest)
  }

  predicate Maps(hashes: map<string, string>, path: string, digest: string) {
    path in hashes && hashes[path] == digest
  }

  /** The map sends a path to a digest exactly when that is one of the files. */
  ghost predicate HoldsJust(hashes: map<string, string>, files: seq<Entry>) {
    forall path, digest :: Maps(hashes, path, digest) <==> Among(files, path, digest)
  }

  /** The first n files are all of them, or the fewest that use up a budget. */
  predicate ShortestRun(files: seq<Entry>, n: nat, policy: Policy) {
    && n <= |files|
    && (forall k :: 0 <= k < n ==> !Spent(files[..k], policy))
    && (n == |files| || Spent(files[..n], policy))
  }

  /** Digests and counters are those of the shortest run of the files among these entries. */
  ghost predicate HoldsRun(p: Progress, entries: seq<Entry>, n: nat, policy: Policy) {
    var files := Readables(entries);
    && ShortestRun(files, n, policy) && HoldsJust(p.hashes, files[..n])
    && p.files == n && p.bytes == TotalBytes(files[..n])
    && p.last == LastPath(files[..n])
  }

  function LastPath(files: seq<Entry>): string {
    if files == [] || !files[|files| - 1].File? then "" else files[|files| - 1].path
  }

  // ------------------------------------------------------------------- the files

  lemma {:induction false} ReadablesAre(entries: seq<Entry>)
    ensures |Readables(entries)| <= |entries|
    ensures forall e :: e in Readables(entries) ==> e.File? && e.content.Some?
    ensures forall e :: e in Readables(entries) <==> e in entries && e.File? && e.content.Some?
  {
    if entries != [] {
      var front, last := entries[..|entries| - 1], entries[|entries| - 1];
      ReadablesAre(front);
      assert entries == front + [last];
    }
  }

  lemma {:induction false} BytesGrow(files: seq<Entry>, n: nat)
    requires n <= |files|
    ensures TotalBytes(files[..n]) <= TotalBytes(files)
  {
    if n < |files| {
      var front := files[..|files| - 1];
      assert front[..n] == files[..n];
      BytesGrow(front, n);
    } else {
      assert files[..n] == files;
    }
  }

  /** More files do not refill a budget. */
  lemma SpentStays(files: seq<Entry>, n: nat, policy: Policy)
    requires n <= |files| && Spent(files[..n], policy)
    ensures Spent(files, policy)
  {
    BytesGrow(files, n);
  }

  /** A budget is used up by all files exactly when it is by the shortest run. */
  lemma RunIsSpentExactlyWhenAllAre(files: seq<Entry>, n: nat, policy: Policy)
    requires ShortestRun(files, n, policy)
    ensures Spent(files, policy) <==> Spent(files[..n], policy)
  {
    if n == |files| {
      assert files[..n] == files;
    } else {
      SpentStays(files, n, policy);
    }
  }

  lemma AmongOne(files: seq<Entry>, e: Entry, path: string, digest: string)
    ensures Among(files + [e], path, digest) <==> Among(files, path, digest) || IsFile(e, path, digest)
  {
    var more := files + [e];
    if Among(files, path, digest) {
      var i :| 0 <= i < |files| && IsFile(files[i], path, digest);
      assert IsFile(more[i], path, digest);
    }
    if IsFile(e, path, digest) {
      assert IsFile(more[|files|], path, digest);
    }
  }

  /** One more file with a path of its own. */
  lemma OneMoreFile(hashes: map<string, string>, files: seq<Entry>, e: Entry)
    requires HoldsJust(hashes, files) && e.File? && e.content.Some?
    requires forall i :: 0 <= i < |files| ==> !IsPath(files[i], e.path)
    ensures HoldsJust(hashes[e.path := e.content.value.digest], files + [e])
  {
    var more := hashes[e.path := e.content.value.digest];
    forall path, digest
      ensures Maps(more, path, digest) <==> Among(files + [e], path, digest)
    {
      AmongOne(files, e, path, digest);
      assert Maps(hashes, path, digest) <==> Among(files, path, digest);
      if path == e.path {
        assert !Among(files, path, digest);
      }
    }
  }

  // -------------------------------------------------------------------- the walk

  /** A walk from nothing holds the shortest run of the files it has met. */
  lemma {:induction false} WalkHolds(entries: seq<Entry>, policy: Policy) returns (n: nat)
    requires OncePerPath(entries)
    ensures HoldsRun(Walk(NOTHING_YET, entries, policy), entries, n, policy)
    ensures Running(Walk(NOTHING_YET, entries, policy), policy)
    ensures !Walk(NOTHING_YET, entries, policy).bounded ==> n == |Readables(entries)|
  {
    hide HoldsJust, Spent, ShortestRun;
    if entries == [] {
      n := 0;
      EmptyRun(policy);
    } else {
      var front, e := entries[..|entries| - 1], entries[|entries| - 1];
      var before := WalkHolds(front, policy);
      n := VisitHolds(entries, before, policy);
    }
  }

  lemma EmptyRun(policy: Policy)
    ensures HoldsRun(NOTHING_YET, [], 0, policy) && Running(NOTHING_YET, policy)
  {
    assert Readables([]) == [];
  }

  lemma ExhaustedIsSpent(p: Progress, files: seq<Entry>, policy: Policy)
    requires p.files == |files| && p.bytes == TotalBytes(files)
    ensures Exhausted(p, policy) <==> Spent(files, policy)
  {
  }

  lemma RunStays(files: seq<Entry>, more: seq<Entry>, n: nat, policy: Policy)
    requires ShortestRun(files, n, policy) && files <= more && Spent(files[..n], policy)
    ensures ShortestRun(more, n, policy) && more[..n] == files[..n]
  {
    assert more[..n] == files[..n];
    forall k | 0 <= k < n
      ensures !Spent(more[..k], policy)
    {
      assert more[..k] == files[..k];
    }
  }

  lemma RunGrows(files: seq<Entry>, e: Entry, n: nat, policy: Policy)
    requires ShortestRun(files, n, policy) && !Spent(files[..n], policy)
    ensures n == |files| && ShortestRun(files + [e], n + 1, policy) && (files + [e])[..n + 1] == files + [e]
  {
    var more := files + [e];
    forall k | 0 <= k < n + 1
      ensures !Spent(more[..k], policy)
    {
      assert more[..k] == files[..k];
    }
  }

  lemma VisitHolds(entries: seq<Entry>, before: nat, policy: Policy) returns (n: nat)
    requires entries != [] && OncePerPath(entries)
    requires var p := Walk(NOTHING_YET, entries[..|entries| - 1], policy);
             && HoldsRun(p, entries[..|entries| - 1], before, policy) && Running(p, policy)
             && (!p.bounded ==> before == |Readables(entries[..|entries| - 1])|)
    ensures HoldsRun(Walk(NOTHING_YET, entries, policy), entries, n, policy)
    ensures Running(Walk(NOTHING_YET, entries, policy), policy)
    ensures !Walk(NOTHING_YET, entries, policy).bounded ==> n == |Readables(entries)|
  {
    hide HoldsJust, Spent, ShortestRun;
    var front, e := entries[..|entries| - 1], entries[|entries| - 1];
    var p, files := Walk(NOTHING_YET, front, policy), Readables(front);
    assert |files[..before]| == before by { RunIsWithin(files, before, policy); }
    ExhaustedIsSpent(p, files[..before], policy);
    n := before;
    if Hashable(e) {
      if Spent(files[..before], policy) {
        RunStays(files, files + [e], before, policy);
      } else {
        RunGrows(files, e, before, policy);
        assert files[..before] == files;
        NewPath(entries, front, e);
        OneMoreFile(p.hashes, files, e);
        assert TotalBytes(files + [e]) == TotalBytes(files) + e.content.value.bytes by {
          assert (files + [e])[..|files|] == files;
        }
        n := before + 1;
      }
    }
  }

  lemma RunIsWithin(files: seq<Entry>, n: nat, policy: Policy)
    requires ShortestRun(files, n, policy)
    ensures n <= |files|
  {
  }

  /** The last path is not among the files before it. */
  lemma NewPath(entries: seq<Entry>, front: seq<Entry>, e: Entry)
    requires entries == front + [e] && OncePerPath(entries) && e.File?
    ensures forall i :: 0 <= i < |Readables(front)| ==> !IsPath(Readables(front)[i], e.path)
  {
    var files := Readables(front);
    ReadablesAre(front);
    forall i | 0 <= i < |files|
      ensures !IsPath(files[i], e.path)
    {
      assert files[i] in files && files[i] in front;
      var k :| 0 <= k < |front| && front[k] == files[i];
      assert entries[k] == files[i] && entries[|front|] == e;
      assert !IsPath(entries[k], entries[|front|].path);
    }
  }

  /** The map with the digests of these files, in order. */
  function WithFiles(hashes: map<string, string>, files: seq<Entry>): map<string, string> {
    if files == [] then hashes
    else
      var before, e := WithFiles(hashes, files[..|files| - 1]), files[|files| - 1];
      if e.File? && e.content.Some? then before[e.path := e.content.value.digest] else before
  }

  /** The first n files were added, all of them unless a budget is used up, and no sooner. */
  predicate Adds(p: Progress, q: Progress, files: seq<Entry>, n: nat, policy: Policy) {
    && n <= |files| && q.files == p.files + n && q.bytes == p.bytes + TotalBytes(files[..n])
    && q.hashes == WithFiles(p.hashes, files[..n])
    && (n < |files| ==> Exhausted(q, policy))
    && (forall k :: 0 <= k < n ==> Room(p, files[..k], policy))
  }

  /** With these files added both budgets still have room. */
  predicate Room(p: Progress, files: seq<Entry>, policy: Policy) {
    p.files + |files| < policy.maxFiles && p.bytes + TotalBytes(files) < policy.maxBytes
  }

  lemma AddsStays(p: Progress, q: Progress, r: Progress, files: seq<Entry>, more: seq<Entry>, n: nat, policy: Policy)
    requires Adds(p, q, files, n, policy) && files <= more && SameResult(q, r) && (n < |more| ==> Exhausted(q, policy))
    ensures Adds(p, r, more, n, policy)
  {
    assert more[..n] == files[..n];
    forall k | 0 <= k < n
      ensures Room(p, more[..k], policy)
    {
      assert more[..k] == files[..k];
    }
  }

  lemma AddsOneMore(p: Progress, q: Progress, r: Progress, files: seq<Entry>, e: Entry, policy: Policy)
    requires Adds(p, q, files, |files|, policy) && !Exhausted(q, policy) && e.File? && e.content.Some?
    requires r.files == q.files + 1 && r.bytes == q.bytes + e.content.value.bytes
    requires r.hashes == q.hashes[e.path := e.content.value.digest]
    ensures Adds(p, r, files + [e], |files| + 1, policy)
  {
    var more, n := files + [e], |files|;
    assert more[..n] == files == files[..n] && more[..n + 1] == more;
    forall k | 0 <= k < n + 1
      ensures Room(p, more[..k], policy)
    {
      assert more[..k] == files[..k];
    }
  }

  /** A walk that is not looking for its resume point adds the files it meets. */
  lemma {:induction false} WalkAdds(p: Progress, entries: seq<Entry>, policy: Policy) returns (n: nat)
    requires Running(p, policy)
    ensures Adds(p, Walk(p, entries, policy), Readables(entries), n, policy)
  {
    if entries == [] {
      n := 0;
    } else {
      var front, e := entries[..|entries| - 1], entries[|entries| - 1];
      n := WalkAdds(p, front, policy);
      WalkRuns(p, front, policy);
      var q, files := Walk(p, front, policy), Readables(front);
      assert n == |files| || Exhausted(q, policy);
      hide Adds;
      if Hashable(e) && !Exhausted(q, policy) {
        AddsOneMore(p, q, Walk(p, entries, policy), files, e, policy);
        n := n + 1;
      } else {
        AddsStays(p, q, Walk(p, entries, policy), files, Readables(entries), n, policy);
      }
    }
  }

  // ------------------------------------------------------------------- the roots

  lemma {:induction false} FlatIsTheTree(tree: Tree)
    ensures forall e :: e in Flat(tree) ==> exists r, i :: 0 <= r < |tree| && 0 <= i < |tree[r]| && tree[r][i] == e
    ensures forall r, i :: 0 <= r < |tree| && 0 <= i < |tree[r]| ==> tree[r][i] in Flat(tree)
  {
    if tree != [] {
      var front, last := tree[..|tree| - 1], tree[|tree| - 1];
      FlatIsTheTree(front);
      forall e | e in Flat(tree)
        ensures exists r, i :: 0 <= r < |tree| && 0 <= i < |tree[r]| && tree[r][i] == e
      {
        if e in Flat(front) {
          var r, i :| 0 <= r < |front| && 0 <= i < |front[r]| && front[r][i] == e;
          assert tree[r][i] == e;
        } else {
          var i :| 0 <= i < |last| && last[i] == e;
          assert tree[|tree| - 1][i] == e;
        }
      }
      forall r, i | 0 <= r < |tree| && 0 <= i < |tree[r]|
        ensures tree[r][i] in Flat(tree)
      {
        if r < |tree| - 1 {
          assert front[r][i] in Flat(front);
        }
      }
    }
  }

  lemma FrontIsWellFormed(tree: Tree, r: nat)
    requires WellFormed(tree) && r <= |tree|
    ensures WellFormed(tree[..r])
  {
  }

  /** Over the entries of `r` roots and part of the next, a path occurs once. */
  lemma PartlyOnce(tree: Tree, r: nat, k: nat)
    requires WellFormed(tree) && r < |tree| && k <= |tree[r]| && OncePerPath(Flat(tree[..r]))
    ensures OncePerPath(Flat(tree[..r]) + tree[r][..k])
  {
    var front, es := Flat(tree[..r]), Flat(tree[..r]) + tree[r][..k];
    forall i, j | 0 <= i < |front| && 0 <= j < k
      ensures !(front[i].File? && IsPath(tree[r][j], front[i].path))
      ensures !(tree[r][j].File? && IsPath(front[i], tree[r][j].path))
    {
      RootsAreApart(tree, r, front[i], j);
    }
    forall i, j | 0 <= i < |es| && 0 <= j < |es| && es[i].File? && IsPath(es[j], es[i].path)
      ensures i == j
    {
      if i >= |front| && j >= |front| {
        assert tree[r][i - |front|] == es[i] && tree[r][j - |front|] == es[j];
      }
    }
  }

  lemma RootsAreApart(tree: Tree, r: nat, e: Entry, j: nat)
    requires WellFormed(tree) && r < |tree| && j < |tree[r]| && e in Flat(tree[..r])
    ensures !(e.File? && IsPath(tree[r][j], e.path)) && !(tree[r][j].File? && IsPath(e, tree[r][j].path))
  {
    var front := tree[..r];
    FlatIsTheTree(front);
    var s, x :| 0 <= s < |front| && 0 <= x < |front[s]| && front[s][x] == e;
    assert tree[s][x] == e;
  }

  lemma {:induction false} FlatOnce(tree: Tree, r: nat)
    requires WellFormed(tree) && r <= |tree|
    ensures OncePerPath(Flat(tree[..r]))
  {
    if r > 0 {
      FlatOnce(tree, r - 1);
      PartlyOnce(tree, r - 1, |tree[r - 1]|);
      assert tree[..r][..r - 1] == tree[..r - 1] && tree[r - 1][..|tree[r - 1]|] == tree[r - 1];
    }
  }

  lemma FlatStep(tree: Tree, r: nat)
    requires r < |tree|
    ensures Flat(tree[..r + 1]) == Flat(tree[..r]) + tree[r]
  {
    assert tree[..r + 1][..r] == tree[..r];
  }

  /** The same result, and one is known to be bounded if the other is. */
  predicate Ahead(p: Progress, q: Progress) {
    SameResult(p, q) && (q.bounded ==> p.bounded)
  }

  /** From the same result, running scans add the same. */
  lemma {:induction false} SameStart(p: Progress, q: Progress, entries: seq<Entry>, policy: Policy)
    requires Ahead(p, q) && Running(p, policy) && Running(q, policy)
    ensures Ahead(Walk(p, entries, policy), Walk(q, entries, policy))
  {
    if entries != [] {
      var front := entries[..|entries| - 1];
      SameStart(p, q, front, policy);
      WalkRuns(p, front, policy);
      WalkRuns(q, front, policy);
    }
  }

  /** Root by root or all in a row: the results are the same. */
  lemma {:induction false} BeforeIsFlat(tree: Tree, r: nat, policy: Policy)
    requires r <= |tree|
    ensures Ahead(Before(tree, r, policy), Walk(NOTHING_YET, Flat(tree[..r]), policy))
    ensures Running(Before(tree, r, policy), policy) && Running(Walk(NOTHING_YET, Flat(tree[..r]), policy), policy)
  {
    WalkRuns(NOTHING_YET, Flat(tree[..r]), policy);
    BeforeRuns(tree, r, policy);
    if r > 0 {
      BeforeIsFlat(tree, r - 1, policy);
      FlatStep(tree, r - 1);
      StoppedIsFlat(tree, r - 1, |tree[r - 1]|, policy);
      assert tree[r - 1][..|tree[r - 1]|] == tree[r - 1];
    }
  }

  lemma StoppedIsFlat(tree: Tree, r: nat, k: nat, policy: Policy)
    requires r < |tree| && k <= |tree[r]|
    requires Ahead(Before(tree, r, policy), Walk(NOTHING_YET, Flat(tree[..r]), policy))
    requires Running(Before(tree, r, policy), policy) && Running(Walk(NOTHING_YET, Flat(tree[..r]), policy), policy)
    ensures Ahead(StoppedAt(tree, r, k, policy), Walk(NOTHING_YET, Flat(tree[..r]) + tree[r][..k], policy))
  {
    hide Walk, Before;
    var p, q, es := Before(tree, r, policy), Walk(NOTHING_YET, Flat(tree[..r]), policy), tree[r][..k];
    WalkSplits(NOTHING_YET, Flat(tree[..r]), es, policy);
    SameStart(EnterRoot(p, policy), q, es, policy);
  }

  // ------------------------------------------------------------------ the results

  /**
   A scan that has come to entry k of root r, wherever it is stopped, holds the shortest run of the files before that
   entry: all of them, or the fewest in the order of the walk that use up a budget.
   */
  lemma StoppedScanHolds(tree: Tree, r: nat, k: nat, policy: Policy) returns (n: nat)
    requires WellFormed(tree) && r < |tree| && k <= |tree[r]|
    ensures HoldsRun(StoppedAt(tree, r, k, policy), Flat(tree[..r]) + tree[r][..k], n, policy)
  {
    hide Walk, Before, HoldsJust, ShortestRun, OncePerPath, WellFormed;
    FlatOnce(tree, r);
    PartlyOnce(tree, r, k);
    n := WalkHolds(Flat(tree[..r]) + tree[r][..k], policy);
    BeforeIsFlat(tree, r, policy);
    StoppedIsFlat(tree, r, k, policy);
  }

  /** An uninterrupted scan holds the shortest run of all files. */
  lemma FullScanHolds(tree: Tree, policy: Policy) returns (n: nat)
    requires WellFormed(tree)
    ensures HoldsRun(FullScan(tree, policy), Flat(tree), n, policy)
    ensures !FullScan(tree, policy).bounded ==> n == |Readables(Flat(tree))|
  {
    hide Walk, Before, HoldsJust, ShortestRun, OncePerPath, WellFormed;
    FlatOnce(tree, |tree|);
    assert tree[..|tree|] == tree;
    n := WalkHolds(Flat(tree), policy);
    BeforeIsFlat(tree, |tree|, policy);
  }

  /** A file is among the readable ones of the tree exactly when some root delivers it. */
  lemma ReadableInTree(tree: Tree, path: string, digest: string)
    ensures Among(Readables(Flat(tree)), path, digest) <==> InTree(tree, path, digest)
  {
    var flat := Flat(tree);
    var files := Readables(flat);
    FlatIsTheTree(tree);
    ReadablesAre(flat);
    if Among(files, path, digest) {
      var i :| 0 <= i < |files| && IsFile(files[i], path, digest);
      assert files[i] in flat;
      var r, k :| 0 <= r < |tree| && 0 <= k < |tree[r]| && tree[r][k] == files[i];
      assert IsFile(tree[r][k], path, digest);
    }
    if InTree(tree, path, digest) {
      var r, k :| 0 <= r < |tree| && 0 <= k < |tree[r]| && IsFile(tree[r][k], path, digest);
      assert tree[r][k] in flat && tree[r][k] in files;
      var i :| 0 <= i < |files| && files[i] == tree[r][k];
      assert IsFile(files[i], path, digest);
    }
  }

  /** All files of the tree: every path with its digest, and the counters. */
  ghost predicate HoldsTree(p: Progress, tree: Tree) {
    && (forall path, digest :: Maps(p.hashes, path, digest) <==> InTree(tree, path, digest))
    && p.files == |Readables(Flat(tree))| && p.bytes == TotalBytes(Readables(Flat(tree)))
  }

  /** A scan that no budget cut short holds exactly the files of the tree. */
  lemma WholeScanHoldsTheTree(p: Progress, tree: Tree, n: nat, policy: Policy)
    requires HoldsRun(p, Flat(tree), n, policy) && n == |Readables(Flat(tree))|
    ensures HoldsTree(p, tree)
  {
    var files := Readables(Flat(tree));
    assert files[..n] == files;
    forall path, digest
      ensures Maps(p.hashes, path, digest) <==> InTree(tree, path, digest)
    {
      ReadableInTree(tree, path, digest);
      assert Maps(p.hashes, path, digest) <==> Among(files, path, digest);
    }
  }

  // ------------------------------------------------------------------- cut short

  /** A stopped scan has used up a budget exactly when the files before that entry do. */
  lemma StoppedIsSpentExactlyWhen(tree: Tree, r: nat, k: nat, policy: Policy)
    requires WellFormed(tree) && r < |tree| && k <= |tree[r]|
    ensures Exhausted(StoppedAt(tree, r, k, policy), policy) <==>
            Spent(Readables(Flat(tree[..r]) + tree[r][..k]), policy)
  {
    hide Walk, Before, HoldsJust, WellFormed, StoppedAt, Spent;
    var n := StoppedScanHolds(tree, r, k, policy);
    var files := Readables(Flat(tree[..r]) + tree[r][..k]);
    RunIsSpentExactlyWhenAllAre(files, n, policy);
    ExhaustedIsSpent(StoppedAt(tree, r, k, policy), files[..n], policy);
  }

  /** A walk is bounded once it meets a file with a budget used up. */
  lemma {:induction false} WalkIsBoundedExactlyWhen(p: Progress, entries: seq<Entry>, policy: Policy)
    ensures Walk(p, entries, policy).bounded <==>
            || p.bounded
            || exists i :: 0 <= i < |entries| && entries[i].File? && Exhausted(Walk(p, entries[..i], policy), policy)
  {
    if entries != [] {
      var n := |entries| - 1;
      var front := entries[..n];
      WalkIsBoundedExactlyWhen(p, front, policy);
      forall i | 0 <= i < n
        ensures front[..i] == entries[..i] && front[i] == entries[i]
      {
      }
    }
  }

  /** A budget is used up before root r, or before one of its files. */
  ghost predicate SpentIn(tree: Tree, r: nat, policy: Policy)
    requires r < |tree|
  {
    || Spent(Readables(Flat(tree[..r])), policy)
    || exists i :: 0 <= i < |tree[r]| && tree[r][i].File? && Spent(Readables(Flat(tree[..r]) + tree[r][..i]), policy)
  }

  lemma RootIsBoundedExactlyWhen(tree: Tree, r: nat, policy: Policy)
    requires WellFormed(tree) && r < |tree|
    ensures Before(tree, r + 1, policy).bounded <==> Before(tree, r, policy).bounded || SpentIn(tree, r, policy)
  {
    hide Walk, WellFormed, Spent, Readables;
    var p := EnterRoot(Before(tree, r, policy), policy);
    WalkIsBoundedExactlyWhen(p, tree[r], policy);
    assert Exhausted(Before(tree, r, policy), policy) <==> Spent(Readables(Flat(tree[..r])), policy) by {
      StoppedIsSpentExactlyWhen(tree, r, 0, policy);
      assert tree[r][..0] == [] && Flat(tree[..r]) + [] == Flat(tree[..r]);
      NothingWalked(p, policy);
    }
    forall i | 0 <= i < |tree[r]|
      ensures Exhausted(Walk(p, tree[r][..i], policy), policy) <==>
              Spent(Readables(Flat(tree[..r]) + tree[r][..i]), policy)
    {
      StoppedIsSpentExactlyWhen(tree, r, i, policy);
    }
  }

  lemma NothingWalked(p: Progress, policy: Policy)
    ensures Walk(p, [], policy) == p
  {
  }

  /** A scan is cut short exactly when a budget is used up before some root or some file, readable or not. */
  lemma {:induction false} ScanIsBoundedExactlyWhen(tree: Tree, n: nat, policy: Policy)
    requires WellFormed(tree) && n <= |tree|
    ensures Before(tree, n, policy).bounded <==> exists r :: 0 <= r < n && SpentIn(tree, r, policy)
  {
    hide Walk, WellFormed, SpentIn;
    if n > 0 {
      ScanIsBoundedExactlyWhen(tree, n - 1, policy);
      RootIsBoundedExactlyWhen(tree, n - 1, policy);
    }
  }
}
