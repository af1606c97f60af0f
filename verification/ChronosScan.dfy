/**
 The resumable multi-root scan (Scan in control/chronos_fim.go): what a walk adds to
 the checkpoint, and when resuming an interrupted scan ends where the uninterrupted
 one does.

 The tree is what walking each root delivers, in walk order, and does not change
 between the two calls.
 */
module ChronosScan {
  import opened Options

  datatype Hashed = Hashed(digest: string, bytes: nat)

  /** One callback of the walk: an unreadable entry, a directory or special file, or a regular file. */
  datatype Entry = Unreadable | Other | File(path: string, content: Option<Hashed>)

  type Tree = seq<seq<Entry>>

  datatype Policy = Policy(maxFiles: nat, maxBytes: nat)

  /** The checkpoint's counters and map, and the two flags that live only during a scan. */
  datatype Progress = Progress(hashes: map<string, string>, files: nat, bytes: nat, last: string,
                               passed: bool, bounded: bool)

  const NOTHING_YET := Progress(map[], 0, 0, "", true, false)

  predicate Exhausted(p: Progress, policy: Policy) {
    p.files >= policy.maxFiles || p.bytes >= policy.maxBytes
  }

  // ------------------------------------------------------------- the callbacks

  function Visit(p: Progress, e: Entry, policy: Policy): Progress {
    if p.bounded || !e.File? then p
    else if Exhausted(p, policy) then p.(bounded := true)
    else if !p.passed then p.(passed := e.path == p.last)
    else if e.content.None? then p
    else p.(hashes := p.hashes[e.path := e.content.value.digest], files := p.files + 1,
            bytes := p.bytes + e.content.value.bytes, last := e.path)
  }

  function Walk(p: Progress, entries: seq<Entry>, policy: Policy): Progress {
    if entries == [] then p
    else Visit(Walk(p, entries[..|entries| - 1], policy), entries[|entries| - 1], policy)
  }

  /** The budget check at the top of the loop over the roots. */
  function EnterRoot(p: Progress, policy: Policy): Progress {
    if Exhausted(p, policy) then p.(bounded := true) else p
  }

  /** An uninterrupted scan up to the start of root `r`. */
  function Before(tree: Tree, r: nat, policy: Policy): Progress
    requires r <= |tree|
  {
    if r == 0 then NOTHING_YET else Walk(EnterRoot(Before(tree, r - 1, policy), policy), tree[r - 1], policy)
  }

  function FullScan(tree: Tree, policy: Policy): Progress {
    Before(tree, |tree|, policy)
  }

  /** An uninterrupted scan stopped after `k` entries of root `r`. */
  function StoppedAt(tree: Tree, r: nat, k: nat, policy: Policy): Progress
    requires r < |tree| && k <= |tree[r]|
  {
    Walk(EnterRoot(Before(tree, r, policy), policy), tree[r][..k], policy)
  }

  /** Scanning on from the start of root `r`. */
  function Onward(p: Progress, tree: Tree, r: nat, policy: Policy): Progress
    decreases |tree| - r
  {
    if r >= |tree| then p else Onward(Walk(EnterRoot(p, policy), tree[r], policy), tree, r + 1, policy)
  }

  /** What a resumed scan starts from. */
  function Loaded(p: Progress): Progress {
    p.(passed := p.last == "", bounded := false)
  }

  function Resumed(p: Progress, tree: Tree, r: nat, policy: Policy): Progress {
    Onward(Loaded(p), tree, r, policy)
  }

  /** The same map and counters, hence the same Merkle root. */
  predicate SameResult(p: Progress, q: Progress) {
    p.hashes == q.hashes && p.files == q.files && p.bytes == q.bytes && p.last == q.last
  }

  // ------------------------------------------------------------------ the tree

  predicate IsPath(e: Entry, path: string) {
    e.File? && e.path == path
  }

  predicate HasPath(entries: seq<Entry>, path: string) {
    exists i :: 0 <= i < |entries| && IsPath(entries[i], path)
  }

  /** Roots are disjoint, a walk visits a path once, and no path is empty. */
  predicate WellFormed(tree: Tree) {
    && (forall r, i :: 0 <= r < |tree| && 0 <= i < |tree[r]| ==> !IsPath(tree[r][i], ""))
    && (forall r, i, s, j ::
          (0 <= r < |tree| && 0 <= i < |tree[r]| && 0 <= s < |tree| && 0 <= j < |tree[s]|
           && tree[r][i].File? && IsPath(tree[s][j], tree[r][i].path)) ==> r == s && i == j)
  }

  predicate Hashable(e: Entry) {
    e.File? && e.content.Some?
  }

  predicate NothingHashable(entries: seq<Entry>) {
    forall i :: 0 <= i < |entries| ==> !Hashable(entries[i])
  }

  // -------------------------------------------------------------- basic facts

  lemma PathsOfFront(entries: seq<Entry>, path: string)
    requires entries != []
    ensures HasPath(entries, path) <==>
            HasPath(entries[..|entries| - 1], path) || IsPath(entries[|entries| - 1], path)
  {
    var front := entries[..|entries| - 1];
    if HasPath(front, path) {
      var i :| 0 <= i < |front| && IsPath(front[i], path);
      assert IsPath(entries[i], path);
    }
    if HasPath(entries, path) {
      var i :| 0 <= i < |entries| && IsPath(entries[i], path);
      assert i < |front| ==> IsPath(front[i], path);
    }
  }

  lemma {:induction false} WalkSplits(p: Progress, a: seq<Entry>, b: seq<Entry>, policy: Policy)
    ensures Walk(p, a + b, policy) == Walk(Walk(p, a, policy), b, policy)
    decreases |b|
  {
    if b == [] {
      assert a + b == a;
    } else {
      assert (a + b)[..|a + b| - 1] == a + b[..|b| - 1];
      WalkSplits(p, a, b[..|b| - 1], policy);
    }
  }

  /** Nothing changes once the budget is exhausted, and being bounded means it is. */
  lemma {:induction false} ExhaustedStays(p: Progress, entries: seq<Entry>, policy: Policy)
    requires Exhausted(p, policy)
    ensures SameResult(Walk(p, entries, policy), p) && Exhausted(Walk(p, entries, policy), policy)
  {
    if entries != [] {
      ExhaustedStays(p, entries[..|entries| - 1], policy);
    }
  }

  lemma {:induction false} ExhaustedStaysOnward(p: Progress, tree: Tree, r: nat, policy: Policy)
    requires r <= |tree| && Exhausted(p, policy)
    ensures SameResult(Onward(p, tree, r, policy), p)
    decreases |tree| - r
  {
    if r < |tree| {
      ExhaustedStays(EnterRoot(p, policy), tree[r], policy);
      ExhaustedStaysOnward(Walk(EnterRoot(p, policy), tree[r], policy), tree, r + 1, policy);
    }
  }

  /** While a scan runs it is past the resume point, its last path is one it has seen, and bounded means exhausted. */
  predicate Running(p: Progress, policy: Policy) {
    p.passed && (p.bounded ==> Exhausted(p, policy))
  }

  lemma {:induction false} WalkRuns(p: Progress, entries: seq<Entry>, policy: Policy)
    requires Running(p, policy)
    ensures Running(Walk(p, entries, policy), policy)
    ensures Walk(p, entries, policy).files >= p.files
    ensures Walk(p, entries, policy).last == p.last || HasPath(entries, Walk(p, entries, policy).last)
  {
    if entries != [] {
      var front := entries[..|entries| - 1];
      WalkRuns(p, front, policy);
      var q := Walk(p, front, policy);
      PathsOfFront(entries, q.last);
      assert Visit(q, entries[|entries| - 1], policy).last == q.last
          || IsPath(entries[|entries| - 1], Visit(q, entries[|entries| - 1], policy).last);
    }
  }

  /** The last path of a running scan lies in a root it has finished. */
  lemma {:induction false} BeforeRuns(tree: Tree, r: nat, policy: Policy)
    requires r <= |tree|
    ensures Running(Before(tree, r, policy), policy)
    ensures Before(tree, r, policy).last == "" ||
            exists s :: 0 <= s < r && HasPath(tree[s], Before(tree, r, policy).last)
  {
    if r > 0 {
      BeforeRuns(tree, r - 1, policy);
      var p := EnterRoot(Before(tree, r - 1, policy), policy);
      WalkRuns(p, tree[r - 1], policy);
      if Before(tree, r, policy).last != p.last {
        assert HasPath(tree[r - 1], Before(tree, r, policy).last);
      }
    }
  }

  // ----------------------------------------------------- skipping to the mark

  /** A scan that is still looking for its last path passes over everything else. */
  lemma {:induction false} SkipsOthers(p: Progress, entries: seq<Entry>, policy: Policy)
    requires !p.passed && !p.bounded && !Exhausted(p, policy) && !HasPath(entries, p.last)
    ensures Walk(p, entries, policy) == p
  {
    if entries != [] {
      var front := entries[..|entries| - 1];
      PathsOfFront(entries, p.last);
      SkipsOthers(p, front, policy);
    }
  }

  predicate OncePerPath(entries: seq<Entry>) {
    forall i, j ::
      0 <= i < |entries| && 0 <= j < |entries| && entries[i].File? && IsPath(entries[j], entries[i].path) ==> i == j
  }

  /**
   Walking a root again from its start, from what a running scan had reached in it, ends
   in the same place: by skipping up to the last hashed file, or, when no file of
   this root was hashed, because there was nothing to hash.
   */
  lemma {:induction false} WalkingAgain(p: Progress, entries: seq<Entry>, policy: Policy)
    requires Running(p, policy) && OncePerPath(entries)
    requires !HasPath(entries, p.last)
    ensures var q := Walk(p, entries, policy);
            !Exhausted(q, policy) && !q.bounded ==>
              if q.last == p.last then NothingHashable(entries) && q == p && Walk(q, entries, policy) == q
              else Walk(q.(passed := false), entries, policy) == q
  {
    var q := Walk(p, entries, policy);
    if entries != [] && !Exhausted(q, policy) && !q.bounded {
      var front, e := entries[..|entries| - 1], entries[|entries| - 1];
      var before := Walk(p, front, policy);
      WalkRuns(p, front, policy);
      PathsOfFront(entries, p.last);
      WalkingAgain(p, front, policy);
      if Hashable(e) {
        forall i | 0 <= i < |front|
          ensures !IsPath(front[i], e.path)
        {
          assert front[i] == entries[i];
        }
        SkipsOthers(q.(passed := false), front, policy);
      }
    }
  }

  lemma {:induction false} NothingHashableKeeps(p: Progress, entries: seq<Entry>, policy: Policy)
    requires Running(p, policy) && !p.bounded && !Exhausted(p, policy)
    ensures if NothingHashable(entries) then Walk(p, entries, policy) == p else Walk(p, entries, policy).files > p.files
  {
    if entries != [] {
      var front := entries[..|entries| - 1];
      NothingHashableKeeps(p, front, policy);
      WalkRuns(p, front, policy);
      assert NothingHashable(entries) <==> NothingHashable(front) && !Hashable(entries[|entries| - 1]);
    }
  }

  // ------------------------------------------------------------------- resume

  /** Everything after the interruption. */
  predicate NothingLeft(tree: Tree, r: nat, k: nat)
    requires r < |tree| && k <= |tree[r]|
  {
    NothingHashable(tree[r][k..]) && forall s :: r < s < |tree| ==> NothingHashable(tree[s])
  }

  /** The resume point is known to lie in the root the scan continues with. */
  predicate Anchored(p: Progress, tree: Tree, r: nat)
    requires r < |tree|
  {
    p.last == "" || HasPath(tree[r], p.last)
  }

  lemma {:induction false} OnwardIsTheScan(tree: Tree, r: nat, policy: Policy)
    requires r <= |tree|
    ensures Onward(Before(tree, r, policy), tree, r, policy) == FullScan(tree, policy)
    decreases |tree| - r
  {
    if r < |tree| {
      OnwardIsTheScan(tree, r + 1, policy);
    }
  }

  /** The uninterrupted scan in terms of where it would have been interrupted. */
  lemma ScanThroughStop(tree: Tree, r: nat, k: nat, policy: Policy)
    requires r < |tree| && k <= |tree[r]|
    ensures FullScan(tree, policy) ==
            Onward(Walk(StoppedAt(tree, r, k, policy), tree[r][k..], policy), tree, r + 1, policy)
  {
    OnwardIsTheScan(tree, r + 1, policy);
    assert tree[r] == tree[r][..k] + tree[r][k..];
    WalkSplits(EnterRoot(Before(tree, r, policy), policy), tree[r][..k], tree[r][k..], policy);
  }

  lemma RootsKeepApart(tree: Tree, r: nat, k: nat, policy: Policy)
    requires WellFormed(tree) && r < |tree| && k <= |tree[r]|
    ensures OncePerPath(tree[r][..k])
    ensures !HasPath(tree[r], Before(tree, r, policy).last)
    ensures !HasPath(tree[r][..k], Before(tree, r, policy).last)
  {
    BeforeRuns(tree, r, policy);
    var last := Before(tree, r, policy).last;
    forall i | 0 <= i < |tree[r]|
      ensures !IsPath(tree[r][i], last)
    {
      if last != "" {
        var s :| 0 <= s < r && HasPath(tree[s], last);
        var j :| 0 <= j < |tree[s]| && IsPath(tree[s][j], last);
      }
    }
    forall i | 0 <= i < k
      ensures !IsPath(tree[r][..k][i], last)
    {
      assert !IsPath(tree[r][i], last);
    }
    forall i, j | 0 <= i < k && 0 <= j < k && tree[r][..k][i].File? && IsPath(tree[r][..k][j], tree[r][..k][i].path)
      ensures i == j
    {
      assert tree[r][..k][i] == tree[r][i] && tree[r][..k][j] == tree[r][j];
    }
  }

  /** From an anchored checkpoint, walking the current root again up to the interruption restores the state. */
  lemma ReplayRestores(tree: Tree, r: nat, k: nat, policy: Policy)
    requires WellFormed(tree) && r < |tree| && k <= |tree[r]|
    requires var p := StoppedAt(tree, r, k, policy);
             Anchored(p, tree, r) && !Exhausted(p, policy)
    ensures var p := StoppedAt(tree, r, k, policy);
            !p.bounded && Walk(EnterRoot(Loaded(p), policy), tree[r][..k], policy) == p
  {
    var start := EnterRoot(Before(tree, r, policy), policy);
    var p := StoppedAt(tree, r, k, policy);
    BeforeRuns(tree, r, policy);
    WalkRuns(start, tree[r][..k], policy);
    RootsKeepApart(tree, r, k, policy);
    WalkingAgain(start, tree[r][..k], policy);
    assert EnterRoot(Loaded(p), policy) == Loaded(p);
    assert !HasPath(tree[r][..k], "") by {
      forall i | 0 <= i < k
        ensures !IsPath(tree[r][..k][i], "")
      {
        assert tree[r][..k][i] == tree[r][i];
      }
    }
    assert p.last == "" <==> p.last == start.last;
  }

  /** An unanchored resume never finds its resume point and adds nothing. */
  lemma {:induction false} UnanchoredAddsNothing(p: Progress, tree: Tree, r: nat, policy: Policy)
    requires r <= |tree| && !p.passed && !p.bounded && !Exhausted(p, policy)
    requires forall s :: r <= s < |tree| ==> !HasPath(tree[s], p.last)
    ensures Onward(p, tree, r, policy) == p
    decreases |tree| - r
  {
    if r < |tree| {
      SkipsOthers(p, tree[r], policy);
      UnanchoredAddsNothing(p, tree, r + 1, policy);
    }
  }

  lemma {:induction false} OnwardGrows(p: Progress, tree: Tree, r: nat, policy: Policy)
    requires r <= |tree| && Running(p, policy)
    ensures Onward(p, tree, r, policy).files >= p.files
    ensures !p.bounded && !Exhausted(p, policy) ==>
              if forall s :: r <= s < |tree| ==> NothingHashable(tree[s]) then Onward(p, tree, r, policy) == p
              else Onward(p, tree, r, policy).files > p.files
    decreases |tree| - r
  {
    if r < |tree| {
      var q := EnterRoot(p, policy);
      WalkRuns(q, tree[r], policy);
      OnwardGrows(Walk(q, tree[r], policy), tree, r + 1, policy);
      if !p.bounded && !Exhausted(p, policy) {
        NothingHashableKeeps(p, tree[r], policy);
        assert (forall s :: r <= s < |tree| ==> NothingHashable(tree[s]))
            <==> NothingHashable(tree[r]) && (forall s :: r + 1 <= s < |tree| ==> NothingHashable(tree[s]));
      }
    }
  }

  /** An anchored resume below the budget is the uninterrupted scan, in every respect. */
  lemma AnchoredResumeIsTheScan(tree: Tree, r: nat, k: nat, policy: Policy)
    requires WellFormed(tree) && r < |tree| && k <= |tree[r]|
    requires Anchored(StoppedAt(tree, r, k, policy), tree, r) && !Exhausted(StoppedAt(tree, r, k, policy), policy)
    ensures Resumed(StoppedAt(tree, r, k, policy), tree, r, policy) == FullScan(tree, policy)
  {
    var p := StoppedAt(tree, r, k, policy);
    ReplayRestores(tree, r, k, policy);
    assert tree[r] == tree[r][..k] + tree[r][k..];
    WalkSplits(EnterRoot(Loaded(p), policy), tree[r][..k], tree[r][k..], policy);
    ScanThroughStop(tree, r, k, policy);
  }

  /** The last path of a stopped scan lies in the current root or in an earlier one. */
  lemma LastIsBehind(tree: Tree, r: nat, k: nat, policy: Policy)
    requires WellFormed(tree) && r < |tree| && k <= |tree[r]|
    requires !Anchored(StoppedAt(tree, r, k, policy), tree, r)
    ensures forall s :: r <= s < |tree| ==> !HasPath(tree[s], StoppedAt(tree, r, k, policy).last)
  {
    var p := StoppedAt(tree, r, k, policy);
    var start := EnterRoot(Before(tree, r, policy), policy);
    BeforeRuns(tree, r, policy);
    WalkRuns(start, tree[r][..k], policy);
    assert !HasPath(tree[r][..k], p.last) by {
      forall i | 0 <= i < k
        ensures !IsPath(tree[r][..k][i], p.last)
      {
        assert tree[r][..k][i] == tree[r][i];
      }
    }
    var s :| 0 <= s < r && HasPath(tree[s], p.last);
    var j :| 0 <= j < |tree[s]| && IsPath(tree[s][j], p.last);
    forall t, i | r <= t < |tree| && 0 <= i < |tree[t]|
      ensures !IsPath(tree[t][i], p.last)
    {
    }
  }

  /**
   Resuming ends with the same digest map and counters as the uninterrupted scan
   exactly when the last visited path lies in the current root or nothing was hashed
   yet, or the budget was already exhausted, or nothing was left to hash.
   */
  lemma ResumeIsFaithfulExactlyWhen(tree: Tree, r: nat, k: nat, policy: Policy)
    requires WellFormed(tree) && r < |tree| && k <= |tree[r]|
    ensures var p := StoppedAt(tree, r, k, policy);
            SameResult(Resumed(p, tree, r, policy), FullScan(tree, policy)) <==>
              Anchored(p, tree, r) || Exhausted(p, policy) || NothingLeft(tree, r, k)
  {
    var p := StoppedAt(tree, r, k, policy);
    ScanThroughStop(tree, r, k, policy);
    var rest := Walk(p, tree[r][k..], policy);
    if Exhausted(p, policy) {
      ExhaustedStays(p, tree[r][k..], policy);
      ExhaustedStaysOnward(rest, tree, r + 1, policy);
      ExhaustedStaysOnward(Loaded(p), tree, r, policy);
    } else if Anchored(p, tree, r) {
      AnchoredResumeIsTheScan(tree, r, k, policy);
    } else {
      LastIsBehind(tree, r, k, policy);
      UnanchoredAddsNothing(Loaded(p), tree, r, policy);
      BeforeRuns(tree, r, policy);
      WalkRuns(EnterRoot(Before(tree, r, policy), policy), tree[r][..k], policy);
      NothingHashableKeeps(p, tree[r][k..], policy);
      WalkRuns(p, tree[r][k..], policy);
      OnwardGrows(rest, tree, r + 1, policy);
    }
  }

  /** Two roots of one file each, interrupted on entering the second: resuming never hashes its file. */
  lemma UnanchoredResumeLosesFiles() returns (tree: Tree, policy: Policy)
    ensures WellFormed(tree) && |tree| == 2 && !Anchored(StoppedAt(tree, 1, 0, policy), tree, 1)
    ensures !SameResult(Resumed(StoppedAt(tree, 1, 0, policy), tree, 1, policy), FullScan(tree, policy))
  {
    var a, b := File("a", Some(Hashed("x", 1))), File("b", Some(Hashed("y", 1)));
    tree, policy := [[a], [b]], Policy(10, 10);
    var p := StoppedAt(tree, 1, 0, policy);
    FirstRootOnly(a, b, policy);
    assert !HasPath([b], "a");
    assert !NothingLeft(tree, 1, 0) by {
      assert tree[1][0..][0] == b;
    }
    ResumeIsFaithfulExactlyWhen(tree, 1, 0, policy);
  }

  lemma FirstRootOnly(a: Entry, b: Entry, policy: Policy)
    requires Hashable(a) && policy == Policy(10, 10) && a.content.value.bytes == 1
    ensures var p := StoppedAt([[a], [b]], 1, 0, policy); p.last == a.path && p.files == 1 && p.bytes == 1
  {
    var tree := [[a], [b]];
    assert [a][..0] == [];
    assert Walk(NOTHING_YET, [], policy) == NOTHING_YET;
    assert Before(tree, 0, policy) == NOTHING_YET;
    assert Walk(NOTHING_YET, [a], policy) == Visit(NOTHING_YET, a, policy);
    var q := Before(tree, 1, policy);
    assert q == Visit(NOTHING_YET, a, policy);
    assert tree[1][..0] == [];
  }
}
