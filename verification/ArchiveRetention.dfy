/** Archive retention (pruneCompleteArchives in control/evidence_rotation.go). */
module ArchiveRetention {
  import opened Options

  /**
   A directory entry of the archive root that carries the ledger's prefix; entries come sorted by name, oldest
   first.
   */
  datatype Entry = Entry(name: nat, manifest: bool)

  predicate Sorted(entries: seq<Entry>) {
    forall i, j :: 0 <= i < j < |entries| ==> entries[i].name < entries[j].name
  }

  function CompleteNames(entries: seq<Entry>): seq<nat> {
    if entries == [] then []
    else
      var rest := CompleteNames(entries[..|entries| - 1]);
      var last := entries[|entries| - 1];
      if last.manifest then rest + [last.name] else rest
  }

  lemma {:induction false} CompleteNamesSorted(entries: seq<Entry>)
    requires Sorted(entries)
    ensures |CompleteNames(entries)| <= |entries|
    ensures forall i, j :: 0 <= i < j < |CompleteNames(entries)| ==>
            CompleteNames(entries)[i] < CompleteNames(entries)[j]
    ensures forall i :: 0 <= i < |CompleteNames(entries)| ==>
              exists k :: 0 <= k < |entries| && entries[k] == Entry(CompleteNames(entries)[i], true)
    ensures forall k :: 0 <= k < |entries| && entries[k].manifest ==> entries[k].name in CompleteNames(entries)
  {
    if entries != [] {
      var front := entries[..|entries| - 1];
      CompleteNamesSorted(front);
      forall i | 0 <= i < |CompleteNames(entries)|
        ensures exists k :: 0 <= k < |entries| && entries[k] == Entry(CompleteNames(entries)[i], true)
      {
        if i < |CompleteNames(front)| {
          var k :| 0 <= k < |front| && front[k] == Entry(CompleteNames(front)[i], true);
          assert entries[k] == front[k];
        } else {
          assert entries[|entries| - 1] == Entry(CompleteNames(entries)[i], true);
        }
      }
    }
  }

  // ------------------------------------------------------------ what is removed

  /** The unprotected names before x. */
  function OlderThan(complete: set<nat>, x: nat, protected: Option<nat>): set<nat> {
    set y | y in complete && y < x && Some(y) != protected
  }

  /** The oldest unprotected names, as many as there are names beyond the bound. */
  function Removed(complete: set<nat>, protected: Option<nat>, bound: nat): set<nat> {
    set x | x in complete && Some(x) != protected && |OlderThan(complete, x, protected)| + bound < |complete|
  }

  lemma Smaller(a: set<nat>, b: set<nat>)
    requires a <= b
    ensures |a| <= |b| && (a != b ==> |a| < |b|)
  {
    assert b == a + (b - a);
  }

  /** With a name every older unprotected one goes too. */
  lemma OldestGoFirst(complete: set<nat>, protected: Option<nat>, bound: nat, x: nat, y: nat)
    requires x in Removed(complete, protected, bound) && y in complete && y < x && Some(y) != protected
    ensures y in Removed(complete, protected, bound)
  {
    Smaller(OlderThan(complete, y, protected), OlderThan(complete, x, protected));
  }

  /** The other names that retention prefers to x: the newer ones and the protected one. */
  function Outlasting(complete: set<nat>, x: nat, protected: Option<nat>): set<nat> {
    set y | y in complete && y != x && (y > x || Some(y) == protected)
  }

  /** A name goes exactly when it is not protected and at least `bound` others are preferred to it. */
  lemma RemovedExactlyWhen(complete: set<nat>, x: nat, protected: Option<nat>, bound: nat)
    requires x in complete
    ensures x in Removed(complete, protected, bound) <==>
            Some(x) != protected && |Outlasting(complete, x, protected)| >= bound
  {
    var older, newer := OlderThan(complete, x, protected), Outlasting(complete, x, protected);
    if Some(x) != protected {
      assert complete == older + {x} + newer;
      assert |older + {x} + newer| == |older| + 1 + |newer|;
    }
  }

  /** The removed names are determined by their number and by being the oldest. */
  lemma RemovedIsUnique(complete: set<nat>, protected: Option<nat>, bound: nat, r: set<nat>)
    requires r <= complete && |complete| - |r| == Min(bound, |complete|) && (protected.Some? ==> protected.value !in r)
    requires forall x, y :: x in r && y in complete && y !in r && Some(y) != protected ==> x < y
    ensures r == Removed(complete, protected, bound)
  {
    forall x | x in complete && Some(x) != protected
      ensures x in r <==> |OlderThan(complete, x, protected)| + bound < |complete|
    {
      var older := OlderThan(complete, x, protected);
      if x in r {
        assert older <= r - {x};
        Smaller(older, r - {x});
      } else {
        assert r <= older;
        Smaller(r, older);
      }
    }
  }

  method ListComplete(entries: seq<Entry>) returns (complete: seq<nat>)
    ensures complete == CompleteNames(entries)
  {
    complete := [];
    for i := 0 to |entries|
      invariant complete == CompleteNames(entries[..i])
    {
      assert entries[..i + 1][..i] == entries[..i];
      if entries[i].manifest {
        complete := complete + [entries[i].name];
      }
    }
    assert entries[..|entries|] == entries;
  }

  function Names(s: seq<nat>): set<nat> {
    set x | x in s
  }

  predicate Increasing(s: seq<nat>) {
    forall i, j :: 0 <= i < j < |s| ==> s[i] < s[j]
  }

  /** The names of the first i, without the protected one. */
  function Oldest(complete: seq<nat>, i: nat, protected: Option<nat>): set<nat>
    requires i <= |complete|
  {
    Names(complete[..i]) - (if protected.Some? then {protected.value} else {})
  }

  lemma OldestGrows(complete: seq<nat>, i: nat, protected: Option<nat>)
    requires Increasing(complete) && i < |complete|
    ensures complete[i] !in Names(complete[..i])
    ensures Oldest(complete, i + 1, protected)
         == if Some(complete[i]) == protected then Oldest(complete, i, protected)
             else Oldest(complete, i, protected) + {complete[i]}
    ensures protected.Some? && protected.value in Names(complete[..i]) ==> Some(complete[i]) != protected
  {
    assert complete[..i + 1] == complete[..i] + [complete[i]];
  }

  /** The removal loop over the complete archives, oldest first. */
  method RemoveOldest(complete: seq<nat>, bound: nat, protected: Option<nat>)
    returns (i: nat, count: nat, removed: set<nat>)
    requires Increasing(complete) && bound >= 1
    ensures i <= |complete| && removed == Oldest(complete, i, protected) && count == |removed|
    ensures |complete| - count == Min(bound, |complete|)
  {
    hide Oldest, Names;
    i, count, removed := 0, 0, {};
    assert Oldest(complete, 0, protected) == {} by { OldestOfNone(complete, protected); }
    ghost var skipped := 0;
    while i < |complete| && |complete| - count > bound
      invariant i <= |complete| && removed == Oldest(complete, i, protected)
      invariant count == |removed| && i == count + skipped && skipped <= 1
      invariant |complete| - count >= Min(bound, |complete|)
      invariant skipped == 1 ==> protected.Some? && protected.value in Names(complete[..i])
    {
      OldestGrows(complete, i, protected);
      if Some(complete[i]) == protected {
        LastIsNamed(complete, i);
        skipped := skipped + 1;
      } else {
        assert complete[i] !in removed by { OldestIsNamed(complete, i, protected); }
        NamesGrow(complete, i);
        removed := removed + {complete[i]};
        count := count + 1;
      }
      i := i + 1;
    }
  }

  lemma OldestOfNone(complete: seq<nat>, protected: Option<nat>)
    ensures Oldest(complete, 0, protected) == {}
  {
  }

  lemma OldestIsNamed(complete: seq<nat>, i: nat, protected: Option<nat>)
    requires i <= |complete|
    ensures Oldest(complete, i, protected) <= Names(complete[..i])
  {
  }

  lemma NamesGrow(complete: seq<nat>, i: nat)
    requires i < |complete|
    ensures Names(complete[..i]) <= Names(complete[..i + 1])
  {
    assert complete[..i + 1] == complete[..i] + [complete[i]];
  }

  lemma LastIsNamed(complete: seq<nat>, i: nat)
    requires i < |complete|
    ensures complete[i] in Names(complete[..i + 1])
  {
    assert complete[..i + 1] == complete[..i] + [complete[i]];
  }

  /** What is removed is complete and unprotected, and older than every other archive that stays. */
  lemma OldestAreOlder(complete: seq<nat>, i: nat, protected: Option<nat>, x: nat, y: nat)
    requires Increasing(complete) && i <= |complete| && x in Oldest(complete, i, protected)
    ensures x in complete && Some(x) != protected
    ensures y in complete && y !in Oldest(complete, i, protected) && Some(y) != protected ==> x < y
  {
    var k :| 0 <= k < i && complete[k] == x;
    forall j | 0 <= j < i
      ensures complete[j] in Names(complete[..i])
    {
      assert complete[..i][j] == complete[j];
    }
    if y in complete && y !in Oldest(complete, i, protected) && Some(y) != protected {
      var j :| 0 <= j < |complete| && complete[j] == y;
    }
  }

  /**
   Pruning removes the oldest complete archives until `keep` remain. It never removes
   an archive without a manifest nor the protected one, and what it removes is older
   than every complete archive it keeps besides the protected one; this determines what it removes.
   */
  method PruneCompleteArchives(entries: seq<Entry>, keep: int, protected: Option<nat>)
    returns (removed: set<nat>, count: nat)
    requires Sorted(entries)
    ensures count == |removed|
    ensures var bound := if keep < 1 then 1 else keep;
            |CompleteNames(entries)| - count == Min(bound, |CompleteNames(entries)|)
    ensures forall x :: x in removed ==> x in CompleteNames(entries)
    ensures protected.Some? ==> protected.value !in removed
    ensures forall x, y :: x in removed && y in CompleteNames(entries) && y !in removed && Some(y) != protected ==>
            x < y
    ensures removed == Removed(Names(CompleteNames(entries)), protected, if keep < 1 then 1 else keep)
  {
    var complete := ListComplete(entries);
    CompleteNamesSorted(entries);
    var i, n, gone := RemoveOldest(complete, if keep < 1 then 1 else keep, protected);
    removed, count := gone, n;
    hide Oldest, CompleteNames;
    forall x, y | x in removed
      ensures x in complete && Some(x) != protected
      ensures y in complete && y !in removed && Some(y) != protected ==> x < y
    {
      OldestAreOlder(complete, i, protected, x, y);
    }
    NamesCount(complete);
    RemovedIsUnique(Names(complete), protected, if keep < 1 then 1 else keep, removed);
  }

  lemma {:induction false} NamesCount(s: seq<nat>)
    requires Increasing(s)
    ensures |Names(s)| == |s|
  {
    if s != [] {
      var front, last := s[..|s| - 1], s[|s| - 1];
      NamesCount(front);
      assert s == front + [last];
      assert Names(s) == Names(front) + {last};
    }
  }
}
