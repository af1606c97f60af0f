/**
 Retention of sealed archives (pruneArchivesLocked in control/evidence_rotation.go): which archive
 leaves the disk, when, and what becomes of a ledger whose new archive is removed at once.
 */
module EvidenceRetention {
  import opened Options
  import opened EvidenceChain
  import opened EvidenceWatermark
  import opened EvidenceDisk
  import opened EvidenceInvariant
  import opened EvidenceRotation
  import opened EvidenceStart
  import opened EvidenceRuns
  import opened EvidenceRestarts
  import ArchiveRetention

  // ------------------------------------------------------------ which archive goes

  /** With the new archive `id`, RETENTION complete archives are preferred to `a`. */
  predicate Outdated(d: Disk, id: nat, a: nat) {
    && a in CompleteIds(d.archives) && Some(a) != Protected(d)
    && |ArchiveRetention.Outlasting(CompleteIds(d.archives) + {id}, a, Protected(d))| >= RETENTION
  }

  /** A rotation gets as far as its retention, or dies while retention removes just this archive. */
  predicate Retires(s: State, e: Event, a: nat) {
    && s.process.Up? && a in s.disk.archives
    && match e
       case Rotate(id) => RotateProceeds(s.disk, s.process.memory, id) && Outdated(s.disk, id, a)
       case RotateStops(id, at, cut, _) =>
         && Outdated(s.disk, id, a)
         && (at >= 6 || (at == 5 && a in cut.left && cut.left[a] != Some(s.disk.archives[a])))
       case _ => false
  }

  /** The archive is where it was, as it was. */
  predicate Unmoved(d: Disk, e: Disk, a: nat) {
    a in d.archives && a in e.archives && e.archives[a] == d.archives[a]
  }

  lemma RotationMoves(d: Disk, m: Memory, id: nat, k: nat, a: nat)
    requires id !in d.archives && k <= 11 && a in d.archives
    ensures var e, gone := RotatedAt(d, m, id, k), k >= 6 && Outdated(d, id, a);
            if gone then a !in e.archives else Unmoved(d, e, a)
  {
    hide Surplus, RotatedAt, SealingAt, ArchiveAt, ArchiveRetention.Outlasting;
    RotationArchives(d, m, id, k);
    SurplusIs(d, m, id, a);
  }

  lemma InterruptedMoves(d: Disk, m: Memory, id: nat, a: nat, left: map<nat, Option<Archive>>)
    requires id !in d.archives && a in d.archives
    ensures var e := PartlyPruned(SealingAt(d, m, id, 5), left);
            Unmoved(d, e, a) <==> !(Outdated(d, id, a) && a in left && left[a] != Some(d.archives[a]))
  {
    hide Surplus, ArchiveAt, ArchiveRetention.Outlasting, Retire;
    SurplusIs(d, m, id, a);
  }

  lemma StartMovesNothing(d: Disk, budget: nat, k: nat)
    requires k <= |StartWrites(d, budget)|
    ensures After(d, StartWrites(d, budget), k).archives == d.archives
    ensures var e := After(d, StartWrites(d, budget), k); e.marker == d.marker || e.marker.NoMarker?
  {
    hide StartWrites;
    StartWritesAreLive(d, budget);
    LiveWritesIgnoreArchives(d, d, StartWrites(d, budget), k);
  }

  lemma RotationLeaves(s: State, e: Event, a: nat)
    requires Enabled(s, e) && a in s.disk.archives && (e.Rotate? || e.RotateStops?)
    ensures Unmoved(s.disk, Next(s, e).disk, a) <==> !Retires(s, e, a)
  {
    hide RotatedAt, RotateWrites, StartVerdict, VerifyFiles, AppendProceeds, Stopped, SealingAt, PartlyPruned,
         PassWalked, Size, Outdated;
    var d, m := s.disk, s.process.memory;
    if e.Rotate? {
      if RotateProceeds(d, m, e.id) {
        RotationMoves(d, m, e.id, 11, a);
      }
    } else {
      RotationStopsAt(d, m, e.id, e.at, e.cut);
      RotationMoves(d, m, e.id, e.at, a);
      InterruptedMoves(d, m, e.id, a, e.cut.left);
    }
  }

  lemma OthersMoveNothing(s: State, e: Event)
    requires Enabled(s, e) && !e.Rotate? && !e.RotateStops?
    ensures Next(s, e).disk.archives == s.disk.archives
    ensures Next(s, e).disk.marker == s.disk.marker || Next(s, e).disk.marker.NoMarker?
  {
    hide StartWrites, StartVerdict, VerifyFiles, AppendProceeds, Stopped, AppendWrites, AddLine, NextRecord,
         PassWalked, Size;
    match e
    case AppendStops(draft, at, cut, _) => CrashedIs(s.disk, s.process.memory, draft, at, cut);
    case Start(budget) => StartMovesNothing(s.disk, budget, |StartWrites(s.disk, budget)|);
    case StartCrashes(budget, at) => StartMovesNothing(s.disk, budget, at);
    case StartFails(budget, at) => StartMovesNothing(s.disk, budget, at);
    case _ =>
  }

  /**
   An archive leaves the disk or is damaged in a step exactly when a rotation's retention reaches it while 24
   complete archives, counting the new one, are newer or announced by a pending rotation. Nothing else ever
   changes an archive.
   */
  lemma ArchiveLeavesExactlyWhen(s: State, e: Event, a: nat)
    requires Enabled(s, e) && a in s.disk.archives
    ensures Unmoved(s.disk, Next(s, e).disk, a) <==> !Retires(s, e, a)
  {
    hide Next, Enabled, Outdated;
    if e.Rotate? || e.RotateStops? {
      RotationLeaves(s, e, a);
    } else {
      OthersMoveNothing(s, e);
    }
  }

  /** Over a run an archive stays, untouched, exactly as long as no rotation retires it. */
  lemma {:induction false} ArchiveStaysExactlyUntil(states: seq<State>, events: seq<Event>, a: nat, n: nat)
    requires Run(states, events) && a in states[0].disk.archives && n < |states|
    ensures (forall k :: 0 <= k <= n ==> Unmoved(states[0].disk, states[k].disk, a)) <==>
            (forall k :: 0 <= k < n ==> !Retires(states[k], events[k], a))
  {
    hide Enabled, Next, Retires;
    if n > 0 {
      ArchiveStaysExactlyUntil(states, events, a, n - 1);
      var k := n - 1;
      assert Enabled(states[k], events[k]) && states[k + 1] == Next(states[k], events[k]);
      if a in states[k].disk.archives {
        ArchiveLeavesExactlyWhen(states[k], events[k], a);
      }
    }
  }

  /** While fewer than 24 archives are complete, every rotation keeps its own and retires none, whatever its name. */
  lemma FewArchivesStay(d: Disk, id: nat)
    requires |CompleteIds(d.archives)| < RETENTION
    ensures !Unkept(d, id) && forall a :: !Outdated(d, id, a)
  {
    var complete := CompleteIds(d.archives) + {id};
    forall a | a in complete
      ensures |ArchiveRetention.Outlasting(complete, a, Protected(d))| < RETENTION
    {
      ArchiveRetention.Smaller(ArchiveRetention.Outlasting(complete, a, Protected(d)), complete - {a});
      ArchiveRetention.Smaller(complete - {a}, complete);
    }
  }

  // ------------------------------------------------------------ names in order

  /** The first `k` chapters are removed; the others are archives whose names increase up to the pending one. */
  predicate InOrder(d: Disk, k: nat) {
    && k <= |d.past|
    && (forall i :: 0 <= i < |d.past| ==> (d.past[i].Retired? <==> i < k))
    && (forall i, j :: k <= i < j < |d.past| ==> d.past[i].id < d.past[j].id)
    && (d.marker.Marker? ==> forall i :: k <= i < |d.past| ==> d.past[i].id <= d.marker.id)
  }

  /** The name of the new archive is newer than the others. */
  predicate NewName(d: Disk, id: nat) {
    forall a :: a in d.archives ==> a < id
  }

  lemma ShelvedIsThere(d: Disk, i: nat)
    requires DiskInv(d) && i < |d.past| && d.past[i].Shelved?
    ensures d.past[i].id in CompleteIds(d.archives)
  {
  }

  /** With a chapter every older one is outdated too. */
  lemma OlderIsOutdated(d: Disk, id: nat, k: nat, i: nat, j: nat)
    requires DiskInv(d) && NewName(d, id) && InOrder(d, k) && k <= i <= j < |d.past| && Outdated(d, id, d.past[j].id)
    ensures Outdated(d, id, d.past[i].id)
  {
    hide DiskInv;
    ShelvedIsThere(d, i);
    ShelvedIsThere(d, j);
    if i < j {
      assert d.past[i].id < d.past[j].id;
      var complete := CompleteIds(d.archives) + {id};
      ArchiveRetention.RemovedExactlyWhen(complete, d.past[j].id, Protected(d), RETENTION);
      ArchiveRetention.OldestGoFirst(complete, Protected(d), RETENTION, d.past[j].id, d.past[i].id);
      ArchiveRetention.RemovedExactlyWhen(complete, d.past[i].id, Protected(d), RETENTION);
    }
  }

  /** Where the outdated chapters end. */
  lemma OutdatedEnd(d: Disk, id: nat, k: nat) returns (n: nat)
    requires DiskInv(d) && NewName(d, id) && InOrder(d, k)
    ensures k <= n <= |d.past|
    ensures forall i :: k <= i < |d.past| ==> (Outdated(d, id, d.past[i].id) <==> i < n)
  {
    hide DiskInv, Outdated;
    n := |d.past|;
    while n > k && !Outdated(d, id, d.past[n - 1].id)
      invariant k <= n <= |d.past| && forall i :: n <= i < |d.past| ==> !Outdated(d, id, d.past[i].id)
    {
      n := n - 1;
    }
    forall i | k <= i < n
      ensures Outdated(d, id, d.past[i].id)
    {
      OlderIsOutdated(d, id, k, i, n - 1);
    }
  }

  /**
   While names increase, retention takes a prefix of the past: its oldest archives, exactly those to which 24
   others are preferred, and with them the oldest records still on disk. The order then goes on.
   */
  lemma RetentionTakesAPrefix(d: Disk, m: Memory, id: nat, k: nat) returns (n: nat)
    requires DiskInv(d) && NewName(d, id) && InOrder(d, k)
    ensures k <= n <= |d.past| && InOrder(SealingAt(d, m, id, 6), n) && InOrder(SealingAt(d, m, id, 7), n)
    ensures forall i :: k <= i < |d.past| ==> (i < n <==> Outdated(d, id, d.past[i].id))
    ensures forall i :: k <= i < n ==> SealingAt(d, m, id, 6).past[i] == Retired(Content(d.archives, d.past[i]))
    ensures Settled(SealingAt(d, m, id, 6)) == Settled(d)
  {
    hide DiskInv, Outdated, Sealed, ChainOk, ArchiveAt, Perform;
    n := OutdatedEnd(d, id, k);
    var five, six := SealingAt(d, m, id, 5), SealingAt(d, m, id, 6);
    SealedAndPruned(d, m, id);
    forall i | 0 <= i < |d.past|
      ensures |six.past| == |d.past|
      ensures six.past[i] == if k <= i < n then Retired(Content(d.archives, d.past[i])) else d.past[i]
      ensures i >= k ==> d.past[i].id < id
    {
      PrunedChapter(d, m, id, i);
      if i >= k {
        ShelvedIsThere(d, i);
      }
    }
    PrunedLength(d, m, id);
    StillInOrder(d, six, k, n);
    MarkedChapters(six, id, ManifestFor(d, m, id));
    MarkedInOrder(six, SealingAt(d, m, id, 7), id, n);
  }

  lemma StillInOrder(d: Disk, e: Disk, k: nat, n: nat)
    requires InOrder(d, k) && k <= n <= |d.past| && e.marker == d.marker && |e.past| == |d.past|
    requires forall i :: 0 <= i < |d.past| ==> if k <= i < n then e.past[i].Retired? else e.past[i] == d.past[i]
    ensures InOrder(e, n)
  {
  }

  lemma MarkedInOrder(d: Disk, e: Disk, id: nat, n: nat)
    requires InOrder(d, n) && (forall i :: n <= i < |d.past| ==> d.past[i].id < id) && e.marker.Marker?
    requires e.marker.id == id
    requires e.past == d.past || e.past == d.past + [Shelved(id, d.overlap)]
    ensures InOrder(e, n)
  {
  }

  lemma PrunedLength(d: Disk, m: Memory, id: nat)
    ensures |SealingAt(d, m, id, 6).past| == |d.past|
  {
    assert SealingAt(d, m, id, 6) == Perform(SealingAt(d, m, id, 5), PruneArchives);
  }

  lemma PrunedChapter(d: Disk, m: Memory, id: nat, i: nat)
    requires DiskInv(d) && id !in d.archives && i < |d.past|
    ensures var e := SealingAt(d, m, id, 6);
            && |e.past| == |d.past|
            && e.past[i] == if d.past[i].Shelved? && Outdated(d, id, d.past[i].id)
                            then Retired(Content(d.archives, d.past[i])) else d.past[i]
  {
    hide Surplus, Sealed, ChainOk, ArchiveAt, ArchiveRetention.Outlasting;
    var five := SealingAt(d, m, id, 5);
    assert SealingAt(d, m, id, 6) == Perform(five, PruneArchives);
    if d.past[i].Shelved? {
      ShelvedIsThere(d, i);
      SurplusIs(d, m, id, d.past[i].id);
    }
  }

  lemma MarkedChapters(d: Disk, id: nat, digest: Manifest)
    ensures var e := Perform(d, PutMarker(id, digest));
            e.marker == Marker(id, digest) && (e.past == d.past || e.past == d.past + [Shelved(id, d.overlap)])
  {
  }

  // ------------------------------------------------ a marker without its archive

  /**
   A step leaves a marker without its archive exactly when a rotation stops between its marker and the clearing of it
   after retention has removed the new archive.
   */
  lemma StrandsExactlyWhen(s: State, e: Event)
    requires Enabled(s, e) && FinishWrites(s.disk).Some?
    ensures FinishWrites(Next(s, e).disk).None? <==> e.RotateStops? && 7 <= e.at < 11 && Unkept(s.disk, e.id)
  {
    hide Next, Unkept;
    if e.Rotate? || e.RotateStops? {
      RotationStrands(s, e);
    } else {
      OthersMoveNothing(s, e);
    }
  }

  lemma RotationStrands(s: State, e: Event)
    requires Enabled(s, e) && FinishWrites(s.disk).Some? && (e.Rotate? || e.RotateStops?)
    ensures FinishWrites(Next(s, e).disk).None? <==> e.RotateStops? && 7 <= e.at < 11 && Unkept(s.disk, e.id)
  {
    hide RotatedAt, SealingAt, StoppedAt, RotateWrites, Stopped, Unkept, Size, SwapWrites;
    var d, m := s.disk, s.process.memory;
    if e.Rotate? {
      RotatedLive(d, m, e.id, 11);
    } else {
      RotationStopsAt(d, m, e.id, e.at, e.cut);
      if e.at < 7 {
        UnannouncedRotation(d, m, e.id, e.at, e.cut);
      } else {
        LateStop(d, m, e.id, e.at, e.cut);
        NewArchiveStaysExactlyWhen(d, m, e.id, e.at);
        RotatedLive(d, m, e.id, e.at);
        if e.at < 11 {
          NamesItself(d, m, e.id, e.at);
        }
      }
    }
  }

  /** The marker is without its archive, and no healthy ledger is running that could rotate again. */
  predicate Stuck(s: State) {
    FinishWrites(s.disk).None? && (s.process.Up? ==> s.process.memory.quarantined)
  }

  lemma StepStaysStuck(s: State, e: Event)
    requires Enabled(s, e) && Stuck(s)
    ensures Stuck(Next(s, e)) && Next(s, e).disk == s.disk.(mark := Next(s, e).disk.mark)
  {
    hide VerifyFiles, Pass, Size, ValidText, Unchanged;
    if e.Start? || e.StartCrashes? || e.StartFails? {
      StrandedStart(s.disk, e.budget);
    }
  }

  /** Every later start of such a ledger refuses, for ever; the live files stay as they are. */
  lemma {:induction false} StuckForEver(states: seq<State>, events: seq<Event>, n: nat)
    requires Run(states, events) && Stuck(states[0]) && n < |states|
    ensures Stuck(states[n]) && states[n].disk == states[0].disk.(mark := states[n].disk.mark)
  {
    hide Enabled, Next, Stuck;
    if n > 0 {
      var k := n - 1;
      StuckForEver(states, events, k);
      assert Enabled(states[k], events[k]) && states[k + 1] == Next(states[k], events[k]);
      StepStaysStuck(states[k], events[k]);
    }
  }
}
