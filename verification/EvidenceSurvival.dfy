/**
 How long a record that the ledger has acknowledged survives, over every continuation the
 code allows: appends onto an unterminated log and rotations that never cleared their
 marker included.
 */
module EvidenceSurvival {
  import opened Options
  import opened EvidenceChain
  import opened EvidenceDisk
  import opened EvidenceInvariant
  import opened EvidenceRotation
  import opened EvidenceStart
  import opened EvidenceRuns
  import opened EvidenceRestarts

  // --------------------------------------------------- the settled past only grows

  lemma InvHasShelf(d: Disk)
    requires DiskInv(d)
    ensures ShelfOk(d)
  {
  }

  /** A new archive beside the others. */
  lemma ShelfIgnoresNew(d: Disk, id: nat, a: Archive)
    requires ShelfOk(d) && id !in d.archives
    ensures var e := d.(archives := d.archives[id := a]); ShelfOk(e) && Settled(e) == Settled(d)
  {
    hide ChainOk, Sealed;
    ArchivedFrame(d.archives, d.archives[id := a], d.past);
  }

  /** The past is a matter of the archives alone. */
  lemma SameShelf(d: Disk, e: Disk)
    requires e == OnShelf(e, d)
    ensures Settled(e) == Settled(d) && (ShelfOk(d) ==> ShelfOk(e))
  {
    hide ChainOk, Sealed;
  }

  /** Whatever the live chain is like, a marker adds to the past or leaves it. */
  lemma MarkerSettles(d: Disk, id: nat, digest: Manifest)
    requires ShelfOk(d) && (id in d.archives ==> d.archives[id].manifest.Some?)
    ensures var e := Perform(d, PutMarker(id, digest)); ShelfOk(e) && Settled(d) <= Settled(e)
  {
    hide ChainOk, Sealed, Archived;
    ArchivedPush(d.archives, d.past, Shelved(id, d.overlap));
  }

  lemma SealingSettles(d: Disk, m: Memory, id: nat, k: nat)
    requires ShelfOk(d) && id !in d.archives && k <= 7
    ensures ShelfOk(SealingAt(d, m, id, k)) && Settled(d) <= Settled(SealingAt(d, m, id, k))
  {
    hide Settled, Perform, ShelfOk, ArchiveAt;
    if 0 < k {
      ShelfIgnoresNew(d, id, ArchiveAt(d, m, id, if k < 5 then k else 5));
    }
    if k >= 6 {
      PrunedShelf(SealingAt(d, m, id, 5));
      if k == 7 {
        FiledWithManifest(d, m, id);
        MarkerSettles(SealingAt(d, m, id, 6), id, ManifestFor(d, m, id));
      }
    }
  }

  lemma FiledWithManifest(d: Disk, m: Memory, id: nat)
    requires id !in d.archives
    ensures var e := SealingAt(d, m, id, 6); id in e.archives ==> e.archives[id].manifest.Some?
  {
    hide Surplus, Retire;
    assert SealingAt(d, m, id, 6) == Perform(SealingAt(d, m, id, 5), PruneArchives);
  }

  lemma RotationSettles(d: Disk, m: Memory, id: nat, k: nat, cut: Cut)
    requires ShelfOk(d) && id !in d.archives && k <= 11
    ensures ShelfOk(StoppedAt(d, m, id, k, cut)) && Settled(d) <= Settled(StoppedAt(d, m, id, k, cut))
  {
    hide Settled, ShelfOk, SealingAt, PartlyPruned;
    if k == 1 {
      ShelfIgnoresNew(d, id, EMPTY_ARCHIVE.(log := cut.debris));
    } else {
      SealingSettles(d, m, id, if k < 7 then k else 7);
      if k == 5 {
        PartlyPrunedShelf(SealingAt(d, m, id, 5), cut.left);
      } else if k > 7 {
        SameShelf(SealingAt(d, m, id, 7), RotatedAt(d, m, id, k));
      }
    }
  }

  lemma StartedSettles(d: Disk, budget: nat, k: nat)
    requires ShelfOk(d) && k <= |StartWrites(d, budget)|
    ensures ShelfOk(After(d, StartWrites(d, budget), k)) && Settled(After(d, StartWrites(d, budget), k)) == Settled(d)
  {
    hide StartWrites, StartVerdict, ShelfOk, Settled;
    StartWritesAreLive(d, budget);
    LiveWritesIgnoreArchives(d, d, StartWrites(d, budget), k);
    SameShelf(d, After(d, StartWrites(d, budget), k));
  }

  /**
   No step, whatever state the live chain is in, takes a record out of the settled past or changes its place
   there.
   */
  lemma StepSettles(s: State, e: Event)
    requires ShelfOk(s.disk) && Enabled(s, e)
    ensures ShelfOk(Next(s, e).disk) && Settled(s.disk) <= Settled(Next(s, e).disk)
  {
    hide RotatedAt, StoppedAt, RotateWrites, StartWrites, StartVerdict, VerifyFiles, AppendProceeds, Stopped,
         AppendWrites, AddLine, ShelfOk, Settled;
    var d, t := s.disk, Next(s, e).disk;
    match e
    case AppendStops(draft, at, cut, _) =>
      CrashedIs(d, s.process.memory, draft, at, cut);
      SameShelf(d, t);
    case Rotate(id) =>
      if RotateProceeds(d, s.process.memory, id) {
        RotationSettles(d, s.process.memory, id, 11, Cut(0, None, map[]));
        LateStop(d, s.process.memory, id, 11, Cut(0, None, map[]));
      } else if RotateBegins(d, s.process.memory, id) {
        ShelfIgnoresNew(d, id, EMPTY_ARCHIVE);
      }
    case RotateStops(id, at, cut, _) =>
      RotationStopsAt(d, s.process.memory, id, at, cut);
      RotationSettles(d, s.process.memory, id, at, cut);
    case Start(budget) => StartedSettles(d, budget, |StartWrites(d, budget)|);
    case StartCrashes(budget, at) => StartedSettles(d, budget, at);
    case StartFails(budget, at) => StartedSettles(d, budget, at);
    case _ => SameShelf(d, t);
  }

  lemma {:induction false} SettledOnlyGrows(states: seq<State>, events: seq<Event>, i: nat, j: nat)
    requires Run(states, events) && i <= j < |states| && ShelfOk(states[0].disk)
    ensures ShelfOk(states[i].disk) && ShelfOk(states[j].disk) && Settled(states[i].disk) <= Settled(states[j].disk)
    decreases j
  {
    hide Enabled, Next, ShelfOk, Settled;
    if j > 0 {
      var k := j - 1;
      SettledOnlyGrows(states, events, if i < j then i else k, k);
      assert Enabled(states[k], events[k]) && states[k + 1] == Next(states[k], events[k]);
      StepSettles(states[k], events[k]);
    }
  }

  // ------------------------------------------------------------------- survival

  /** Whenever a step loses records, `h` is already settled. */
  ghost predicate SettledInTime(states: seq<State>, events: seq<Event>, h: seq<Record>, n: nat)
    requires n <= |events| < |states|
  {
    forall k :: 0 <= k < n && Loses(states[k], events[k]) ==> h <= Settled(states[k].disk)
  }

  lemma {:induction false} SettledInTimeSurvives(states: seq<State>, events: seq<Event>, h: seq<Record>, n: nat)
    requires Run(states, events) && Inv(states[0]) && h <= History(states[0].disk) && n < |states|
    requires SettledInTime(states, events, h, n)
    ensures h <= History(states[n].disk)
    ensures Inv(states[n]) || h <= Settled(states[n].disk)
  {
    hide DiskInv, MemoryInv, Enabled, Next, Loses, ShelfOk, History, Settled, MarkInv, Overlaps, Acknowledged;
    if n > 0 {
      var k := n - 1;
      SettledInTimeSurvives(states, events, h, k);
      assert Enabled(states[k], events[k]) && states[k + 1] == Next(states[k], events[k]);
      InvHasShelf(states[0].disk);
      SettledOnlyGrows(states, events, k, n);
      SettledIsHistory(states[n].disk);
      if Inv(states[k]) && !Loses(states[k], events[k]) {
        EveryStepIsGood(states[k], events[k]);
      }
    }
  }

  /** A losing step leaves exactly the settled past. */
  lemma LosingLeavesThePast(s: State, e: Event)
    requires Inv(s) && Enabled(s, e) && Loses(s, e)
    ensures History(Next(s, e).disk) == Settled(s.disk)
  {
    hide DiskInv, MemoryInv, Enabled, Next, Destroys, DropsLive, Strips, History, Settled;
    if Destroys(s, e) {
      DestroyingLoses(s, e);
    } else if DropsLive(s, e) {
      DroppingLoses(s, e);
    } else {
      StrippingLoses(s, e);
    }
  }

  lemma {:induction false} SurvivorIsSettledInTime(states: seq<State>, events: seq<Event>, h: seq<Record>, n: nat)
    requires Run(states, events) && Inv(states[0]) && n <= |events|
    requires forall k :: 0 <= k < |states| ==> h <= History(states[k].disk)
    ensures SettledInTime(states, events, h, n)
  {
    hide Inv, Enabled, Next, Loses, History, Settled, MarkInv, Overlaps, Acknowledged;
    if n > 0 {
      var k := n - 1;
      SurvivorIsSettledInTime(states, events, h, k);
      assert Enabled(states[k], events[k]) && states[k + 1] == Next(states[k], events[k]);
      SettledInTimeSurvives(states, events, h, k);
      if Loses(states[k], events[k]) && Inv(states[k]) {
        LosingLeavesThePast(states[k], events[k]);
        assert h <= History(states[n].disk);
      }
    }
  }

  /**
   Over every run from a consistent state, whatever it does: records of the history stay in it
   throughout exactly when, each time an Append reached a log whose last line lacked its newline, a start
   finished a rotation over records no archive held, or a rotation emptied the log without an archive, they
   had been settled before.
   */
  lemma HistorySurvivesExactlyWhen(states: seq<State>, events: seq<Event>, h: seq<Record>)
    requires Run(states, events) && Inv(states[0]) && h <= History(states[0].disk)
    ensures (forall k :: 0 <= k < |states| ==> h <= History(states[k].disk)) <==>
            SettledInTime(states, events, h, |events|)
  {
    hide Inv, Enabled, Next, Loses, History, Settled;
    if SettledInTime(states, events, h, |events|) {
      forall k | 0 <= k < |states|
        ensures h <= History(states[k].disk)
      {
        SettledInTimeSurvives(states, events, h, k);
      }
    }
    if forall k :: 0 <= k < |states| ==> h <= History(states[k].disk) {
      SurvivorIsSettledInTime(states, events, h, |events|);
    }
  }

  /**
   An acknowledged record, with everything recorded before it, survives a run exactly when its Append
   started on a terminated log and each later step that loses records found all of it settled: archived
   by a rotation that got as far as its marker.
   */
  lemma AcknowledgedSurvivesExactlyWhen(states: seq<State>, events: seq<Event>)
    requires Run(states, events) && Inv(states[0]) && events != [] && Acknowledged(states[0], events[0])
    ensures var h := History(states[0].disk) + [NextRecord(states[0].process.memory, events[0].draft)];
            (forall k :: 1 <= k < |states| ==> h <= History(states[k].disk)) <==>
              (AppendSafe(states[0].disk) &&
               forall k :: 1 <= k < |events| && Loses(states[k], events[k]) ==> h <= Settled(states[k].disk))
  {
    hide Inv, Enabled, Next, History, Settled, NextRecord, AppendProceeds, MarkInv, Overlaps, Destroys, DropsLive,
         Strips, AppendSafe;
    var s := states[0];
    var h := History(s.disk) + [NextRecord(s.process.memory, events[0].draft)];
    assert Enabled(s, events[0]) && states[1] == Next(s, events[0]);
    SafeAppendIsLossless(s, events[0]);
    if AppendSafe(s.disk) {
      EveryStepIsGood(s, events[0]);
      var later, rest := states[1..], events[1..];
      assert forall k :: 0 <= k < |rest| ==> later[k] == states[k + 1] && rest[k] == events[k + 1];
      TailIsARun(states, events);
      HistorySurvivesExactlyWhen(later, rest, h);
      ShiftedSurvival(states, h);
      ShiftedSettlement(states, events, h);
    } else {
      LosingLeavesThePast(s, events[0]);
      SettledIsHistory(s.disk);
    }
  }

  lemma SafeAppendIsLossless(s: State, e: Event)
    requires Acknowledged(s, e)
    ensures AppendSafe(s.disk) <==> !Destroys(s, e)
    ensures !DropsLive(s, e) && !Strips(s, e)
  {
  }

  lemma TailIsARun(states: seq<State>, events: seq<Event>)
    requires Run(states, events) && events != []
    ensures Run(states[1..], events[1..])
  {
    hide Enabled, Next;
    var later, rest := states[1..], events[1..];
    forall k | 0 <= k < |rest|
      ensures Enabled(later[k], rest[k]) && later[k + 1] == Next(later[k], rest[k])
    {
      var i := k + 1;
      assert Enabled(states[i], events[i]) && states[i + 1] == Next(states[i], events[i]);
    }
  }

  lemma ShiftedSurvival(states: seq<State>, h: seq<Record>)
    requires states != []
    ensures (forall k :: 0 <= k < |states[1..]| ==> h <= History(states[1..][k].disk))
            <==> (forall k :: 1 <= k < |states| ==> h <= History(states[k].disk))
  {
    hide History;
    var later := states[1..];
    forall k | 1 <= k < |states|
      ensures states[k] == later[k - 1]
    {
    }
  }

  lemma ShiftedSettlement(states: seq<State>, events: seq<Event>, h: seq<Record>)
    requires |states| == |events| + 1 && events != []
    ensures SettledInTime(states[1..], events[1..], h, |events| - 1)
            <==> (forall k :: 1 <= k < |events| && Loses(states[k], events[k]) ==> h <= Settled(states[k].disk))
  {
    hide Loses, Settled;
    var later, rest := states[1..], events[1..];
    forall k | 1 <= k < |events|
      ensures states[k] == later[k - 1] && events[k] == rest[k - 1]
    {
    }
  }
}
