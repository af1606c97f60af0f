/**
 The one-minute window of executable starts (ObserveExec in control/behavior.go), filtered in
 place and cut to the newest 256 entries. Times are in nanoseconds.
 */
module BehaviorWindow {
  const MINUTE: int := 60_000_000_000
  const MAX_STAMPS: nat := 256

  function Since(stamps: seq<int>, cutoff: int): seq<int> {
    if stamps == [] then []
    else
      var rest := Since(stamps[..|stamps| - 1], cutoff);
      if stamps[|stamps| - 1] > cutoff then rest + [stamps[|stamps| - 1]] else rest
  }

  function Newest(stamps: seq<int>): seq<int> {
    if |stamps| > MAX_STAMPS then stamps[|stamps| - MAX_STAMPS..] else stamps
  }

  function Observed(stamps: seq<int>, now: int): seq<int> {
    Newest(Since(stamps, now - MINUTE) + [now])
  }

  /** The window after every start of the history. */
  function Window(history: seq<int>): seq<int> {
    if history == [] then [] else Observed(Window(history[..|history| - 1]), history[|history| - 1])
  }

  predicate Monotone(history: seq<int>) {
    forall i, j :: 0 <= i <= j < |history| ==> history[i] <= history[j]
  }

  // ---------------------------------------------------- the window is a suffix

  /** How many entries are at or before the cutoff. */
  function Old(history: seq<int>, cutoff: int): (n: nat)
    ensures n <= |history|
  {
    if history == [] then 0
    else Old(history[..|history| - 1], cutoff) + if history[|history| - 1] <= cutoff then 1 else 0
  }

  /** In an ordered history everything is old if the last entry is. */
  lemma {:induction false} AllOld(history: seq<int>, cutoff: int)
    requires Monotone(history) && history != [] && history[|history| - 1] <= cutoff
    ensures Old(history, cutoff) == |history|
  {
    if |history| > 1 {
      var front := history[..|history| - 1];
      assert front[|front| - 1] == history[|history| - 2];
      AllOld(front, cutoff);
    }
  }

  lemma {:induction false} NoneSince(stamps: seq<int>, cutoff: int)
    requires forall i :: 0 <= i < |stamps| ==> stamps[i] <= cutoff
    ensures Since(stamps, cutoff) == []
  {
    if stamps != [] {
      NoneSince(stamps[..|stamps| - 1], cutoff);
    }
  }

  function Later(a: nat, b: nat): nat {
    if a < b then b else a
  }

  lemma SinceOfMore(stamps: seq<int>, v: int, cutoff: int)
    ensures Since(stamps + [v], cutoff) == Since(stamps, cutoff) + if v > cutoff then [v] else []
  {
    assert (stamps + [v])[..|stamps|] == stamps;
  }

  lemma SuffixOfMore(front: seq<int>, v: int, from: nat)
    requires from <= |front|
    ensures (front + [v])[from..] == front[from..] + [v]
  {
  }

  lemma OldOfMore(front: seq<int>, v: int, cutoff: int)
    ensures Old(front + [v], cutoff) == Old(front, cutoff) + if v <= cutoff then 1 else 0
  {
    assert (front + [v])[..|front|] == front;
  }

  /** Filtering a suffix of an ordered history gives a suffix. */
  lemma {:induction false} SinceOfSuffix(history: seq<int>, from: nat, cutoff: int)
    requires Monotone(history) && from <= |history|
    ensures Since(history[from..], cutoff) == history[Later(from, Old(history, cutoff))..]
  {
    if from == |history| {
      assert history[from..] == [];
    } else {
      var front, last := history[..|history| - 1], history[|history| - 1];
      assert history == front + [last];
      if last <= cutoff {
        AllOld(history, cutoff);
        NoneSince(history[from..], cutoff);
      } else {
        SinceOfSuffix(front, from, cutoff);
        hide Since, Old, Monotone;
        OldOfMore(front, last, cutoff);
        SuffixOfMore(front, last, from);
        SinceOfMore(front[from..], last, cutoff);
        SuffixOfMore(front, last, Later(from, Old(front, cutoff)));
      }
    }
  }

  /** Where the window begins in the history. */
  function Begin(history: seq<int>): nat
    requires history != []
  {
    Later(Old(history, history[|history| - 1] - MINUTE), Cut(|history|))
  }

  lemma OldGrows(history: seq<int>, a: int, b: int)
    requires a <= b
    ensures Old(history, a) <= Old(history, b)
  {
  }

  /** The window of one more start, when the window so far is a suffix of the past. */
  lemma NextWindow(front: seq<int>, now: int, from: nat)
    requires Monotone(front) && from <= |front|
    ensures var cutoff := now - MINUTE;
            var k := Later(from, Old(front, cutoff));
            Observed(front[from..], now) == Newest((front + [now])[k..])
  {
    hide Since, Old, Monotone, Newest;
    var cutoff := now - MINUTE;
    SinceOfSuffix(front, from, cutoff);
    SuffixOfMore(front, now, Later(from, Old(front, cutoff)));
  }

  function Cut(n: nat): nat {
    if n > MAX_STAMPS then n - MAX_STAMPS else 0
  }

  lemma NewestOfSuffix(history: seq<int>, k: nat)
    requires k <= |history|
    ensures Newest(history[k..]) == history[Later(k, Cut(|history|))..]
  {
  }

  lemma SinceOfAll(history: seq<int>, cutoff: int)
    requires Monotone(history)
    ensures Since(history, cutoff) == history[Old(history, cutoff)..]
  {
    SinceOfSuffix(history, 0, cutoff);
    assert history[0..] == history;
  }

  lemma WindowOfMore(front: seq<int>, now: int)
    ensures Window(front + [now]) == Observed(Window(front), now)
  {
    assert (front + [now])[..|front|] == front;
  }

  lemma MonotoneFront(front: seq<int>, now: int)
    requires Monotone(front + [now])
    ensures Monotone(front) && (front != [] ==> front[|front| - 1] <= now)
  {
    var all := front + [now];
    assert forall i :: 0 <= i < |front| ==> front[i] == all[i];
    assert all[|front|] == now;
  }

  lemma NoWindow()
    ensures Window([]) == [] && forall cutoff :: Old([], cutoff) == 0
  {
  }

  lemma BeginOfMore(front: seq<int>, now: int)
    ensures Begin(front + [now]) == Later(Old(front, now - MINUTE), Cut(|front| + 1))
  {
    hide Old;
    OldOfMore(front, now, now - MINUTE);
    assert (front + [now])[|front|] == now;
  }

  /** One more start: what the window so far left out stays out. */
  lemma WindowGrows(front: seq<int>, now: int, from: nat)
    requires Monotone(front) && from <= |front| && Window(front) == front[from..]
    requires from <= Later(Old(front, now - MINUTE), Cut(|front|))
    ensures Window(front + [now]) == (front + [now])[Begin(front + [now])..]
  {
    hide Old, Window, Observed, Newest, Monotone, Begin;
    var k := Later(from, Old(front, now - MINUTE));
    WindowOfMore(front, now);
    NextWindow(front, now, from);
    NewestOfSuffix(front + [now], k);
    BeginOfMore(front, now);
  }

  /** The window is a suffix of the history. */
  lemma {:induction false} WindowIsASuffix(history: seq<int>)
    requires Monotone(history) && history != []
    ensures Begin(history) <= |history| && Window(history) == history[Begin(history)..]
  {
    hide Old, Window, Monotone, Since;
    var front, now := history[..|history| - 1], history[|history| - 1];
    assert history == front + [now];
    MonotoneFront(front, now);
    if front == [] {
      NoWindow();
      WindowGrows(front, now, 0);
    } else {
      WindowIsASuffix(front);
      OldGrows(front, front[|front| - 1] - MINUTE, now - MINUTE);
      WindowGrows(front, now, Begin(front));
    }
  }

  /**
   With a monotone clock the window holds exactly the starts of the last minute, the newest
   256 of them: what earlier observations threw away was never needed again.
   */
  lemma WindowIsTheLastMinute(history: seq<int>)
    requires Monotone(history) && history != []
    ensures Window(history) == Newest(Since(history, history[|history| - 1] - MINUTE))
  {
    hide Window, Old, Since;
    WindowIsASuffix(history);
    SinceOfAll(history, history[|history| - 1] - MINUTE);
    NewestOfSuffix(history, Old(history, history[|history| - 1] - MINUTE));
  }

  /** The burst rule fires exactly when the starts of the last minute, counted up to 256, reach the threshold. */
  lemma BurstIsExact(history: seq<int>, threshold: int)
    requires Monotone(history) && history != []
    ensures var recent := |history| - Old(history, history[|history| - 1] - MINUTE);
            |Window(history)| >= threshold <==> recent >= threshold && threshold <= MAX_STAMPS
  {
    hide Window, Old, Monotone;
    WindowIsASuffix(history);
  }

  lemma {:induction false} NoneOld(history: seq<int>, cutoff: int)
    requires forall i :: 0 <= i < |history| ==> history[i] > cutoff
    ensures Old(history, cutoff) == 0
  {
    if history != [] {
      NoneOld(history[..|history| - 1], cutoff);
    }
  }

  /** 257 starts at one moment do not reach a threshold of 257. */
  lemma ThresholdAboveTheCap() returns (history: seq<int>)
    ensures Monotone(history) && |history| == 257 && (forall i :: 0 <= i < |history| ==> history[i] == 0)
    ensures |Window(history)| < 257
  {
    history := seq(257, _ => 0);
    NoneOld(history, -MINUTE);
    BurstIsExact(history, 257);
  }

  // ------------------------------------------------------------------ in place

  /** A slice: the first `len` entries of its backing array. */
  class ExecStamps {
    var backing: array<int>
    var len: nat

    ghost predicate Valid()
      reads this
    {
      len <= backing.Length
    }

    ghost function Contents(): seq<int>
      requires Valid()
      reads this, backing
    {
      backing[..len]
    }

    constructor ()
      ensures Valid() && Contents() == [] && fresh(backing)
    {
      backing, len := new int[0], 0;
    }

    /** Keeps the entries after the cutoff, compacting them towards the front of the same array. */
    method FilterInPlace(cutoff: int)
      requires Valid()
      modifies this`len, backing
      ensures Valid() && Contents() == Since(old(Contents()), cutoff)
    {
      var kept := 0;
      ghost var was := Contents();
      assert was[..0] == [];
      for i := 0 to len
        invariant 0 <= kept <= i && len == old(len)
        invariant backing[..kept] == Since(was[..i], cutoff)
        invariant forall j :: i <= j < len ==> backing[j] == was[j]
      {
        assert was[..i + 1][..i] == was[..i];
        if backing[i] > cutoff {
          backing[kept] := backing[i];
          kept := kept + 1;
          assert backing[..kept] == Since(was[..i], cutoff) + [was[i]];
        }
      }
      assert was[..len] == was;
      len := kept;
    }

    method Append(now: int)
      requires Valid()
      modifies this, backing
      ensures Valid() && Contents() == old(Contents()) + [now]
      ensures backing == old(backing) || fresh(backing)
    {
      if len == backing.Length {
        var larger := new int[2 * len + 1];
        for i := 0 to len
          invariant len == old(len) && backing == old(backing) && backing[..len] == old(Contents())
          invariant forall j :: 0 <= j < i ==> larger[j] == backing[j]
        {
          larger[i] := backing[i];
        }
        assert larger[..len] == backing[..len];
        backing := larger;
      }
      backing[len] := now;
      len := len + 1;
    }

    /** Keeps the newest 256 entries, in a fresh array. */
    method KeepNewest()
      requires Valid()
      modifies this
      ensures Valid() && Contents() == Newest(old(Contents()))
      ensures backing == old(backing) || fresh(backing)
    {
      if len > MAX_STAMPS {
        var newest := new int[MAX_STAMPS];
        var all, first := backing, len - MAX_STAMPS;
        for i := 0 to MAX_STAMPS
          invariant backing == all && len == first + MAX_STAMPS && all[..len] == old(Contents())
          invariant forall j :: 0 <= j < i ==> newest[j] == all[first + j]
        {
          newest[i] := all[first + i];
        }
        assert newest[..MAX_STAMPS] == all[..len][first..];
        backing, len := newest, MAX_STAMPS;
      }
    }

    /** ObserveExec on the profile; true when the burst rule fires. */
    method ObserveExec(now: int, execBurst: int) returns (burst: bool)
      requires Valid()
      modifies this, backing
      ensures Valid() && Contents() == Observed(old(Contents()), now)
      ensures backing == old(backing) || fresh(backing)
      ensures burst <==> |Contents()| >= execBurst
    {
      hide Since, Newest;
      FilterInPlace(now - MINUTE);
      Append(now);
      KeepNewest();
      burst := len >= execBurst;
    }
  }
}
