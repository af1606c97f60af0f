/**
 Crashes and restarts of the ledger: what the next start finds after an Append or a
 rotation died in any of its writes.
 */
module EvidenceRestarts {
  import opened Options
  import opened EvidenceChain
  import opened EvidenceDisk
  import opened EvidenceInvariant
  import opened EvidenceRotation
  import opened EvidenceStart
  import opened EvidenceRuns

  // ------------------------------------------------------------------- append

  /** The whole line of the interrupted Append reached the log. */
  predicate LineReached(draft: Draft, at: nat, cut: Cut) {
    at > 0 || cut.written >= draft.size
  }

  predicate Appending(d: Disk, m: Memory, draft: Draft) {
    DiskInv(d) && MemoryInv(d, m) && AppendSafe(d) && Sensible(draft) && AppendProceeds(d, m, draft)
  }

  /** The log of a crashed Append, line by line. */
  lemma CrashedLines(d: Disk, m: Memory, draft: Draft, at: nat, cut: Cut)
    requires Appending(d, m, draft) && at < 2
    ensures var e := Crashed(d, m, draft, at, cut);
            && e.head == d.head && e.log.Some? && SealedCount(d.head) == m.sequence == |LogOf(d).lines|
            && (d.head.Head? ==> d.head.checkpoint.head == m.head)
            && e.log.value.lines == LogOf(d).lines +
                 (if LineReached(draft, at, cut) then [Encrypted(m.sequence + 1, NextRecord(m, draft), draft.size)]
                  else if cut.written > 0 then [Garbage(cut.written)] else [])
  {
    hide VerifyRecord, ValidText, Bytes, LineVerifies, Linked, DiskInv, MemoryInv, Size, NextRecord, NextPayload,
         Unchanged, VerifyCheckpoint, Sealed, ChainOk, Records, History;
    ReadyToAppend(d, m);
  }

  lemma OrphanIsTheRecord(d: Disk, m: Memory, draft: Draft, at: nat, cut: Cut)
    requires Appending(d, m, draft) && at < 2 && m.sequence > 0
    ensures var e := Crashed(d, m, draft, at, cut);
            && (OrphanVerifies(e) <==> LineReached(draft, at, cut))
            && (OrphanVerifies(e) ==> RecordAt(e.log.value.lines, m.sequence + 1) == NextRecord(m, draft))
  {
    hide VerifyRecord, ValidText, Bytes, LineVerifies, DiskInv, MemoryInv, Size, NextRecord, Unchanged, Crashed,
         AppendProceeds, Linked;
    CrashedLines(d, m, draft, at, cut);
    assert ValidText(NextPayload(m, draft)) by { ProceedingText(d, m, draft); }
    NextRecordVerifies(m, draft);
  }

  lemma ProceedingText(d: Disk, m: Memory, draft: Draft)
    requires AppendProceeds(d, m, draft)
    ensures ValidText(NextPayload(m, draft))
  {
  }

  /**
   Where an Append can die and the next start still be healthy: a pending rotation leaves an empty
   chain if its archive is there, an unterminated log must not be touched, and a log with nothing sealed
   must stay empty.
   */
  predicate Recoverable(d: Disk, m: Memory, at: nat, cut: Cut) {
    if d.marker.Marker? then FinishWrites(d).Some?
    else (at == 0 && cut.written == 0) || (AppendSafe(d) && (m.sequence > 0 || at == 2))
  }

  lemma CrashedDisk(d: Disk, m: Memory, draft: Draft, at: nat, cut: Cut)
    requires Appending(d, m, draft) && at <= 2
    ensures var e := Crashed(d, m, draft, at, cut);
            && DiskInv(e) && e.marker == d.marker && Size(LogOf(e)) <= m.budget
            && SealedCount(e.head) == m.sequence + (if at == 2 then 1 else 0)
            && |LogOf(e).lines| == m.sequence + (if at == 0 && cut.written == 0 then 0 else 1)
            && Sealed(e.log, e.head) == Sealed(d.log, d.head) + (if at == 2 then [NextRecord(m, draft)] else [])
  {
    hide VerifyRecord, ValidText, Bytes, LineVerifies, DiskInv, MemoryInv, NextRecord, Sealed;
    ReadyToAppend(d, m);
    if at == 2 {
      RecordAppended(d, m, draft);
    } else {
      BytesHarmless(d, m, draft, if at == 0 then cut.written else draft.size + 1);
    }
  }

  lemma CrashedDiskRecords(d: Disk, m: Memory, draft: Draft, at: nat, cut: Cut, budget: nat)
    requires Appending(d, m, draft) && d.marker.NoMarker? && at <= 2 && budget >= m.budget && Recoverable(d, m, at, cut)
    ensures var e := Recovered(Crashed(d, m, draft, at, cut), budget);
            Sealed(e.log, e.head) == Sealed(d.log, d.head)
              + (if LineReached(draft, at, cut) then [NextRecord(m, draft)] else [])
  {
    hide VerifyRecord, ValidText, Bytes, LineVerifies, DiskInv, MemoryInv, NextRecord, Sealed, Recovered;
    var e := Crashed(d, m, draft, at, cut);
    CrashedDisk(d, m, draft, at, cut);
    if at == 2 {
      RecoveryAgrees(e, budget);
      assert !OrphanVerifies(e);
    } else if m.sequence > 0 {
      OrphanIsTheRecord(d, m, draft, at, cut);
      RecoveryAgrees(e, budget);
    } else {
      NothingSealedNoRecovery(e, budget);
    }
  }

  lemma SafeCrashRecovers(d: Disk, m: Memory, draft: Draft, at: nat, cut: Cut, budget: nat)
    requires Appending(d, m, draft) && d.marker.NoMarker? && at <= 2 && budget >= m.budget
    ensures var e := Crashed(d, m, draft, at, cut);
            && (StartVerdict(e, budget).Accepted? <==> Recoverable(d, m, at, cut))
            && (Recoverable(d, m, at, cut) ==>
                  var u := Started(e, budget);
                  && |LogOf(u).lines| == SealedCount(u.head) == StartVerdict(e, budget).sequence
                  && Sealed(u.log, u.head) == Sealed(d.log, d.head)
                       + (if LineReached(draft, at, cut) then [NextRecord(m, draft)] else []))
  {
    hide VerifyRecord, ValidText, Bytes, LineVerifies, DiskInv, MemoryInv, NextRecord, Sealed, Recovered, Stopped,
         AppendProceeds, AppendWrites, StartVerdict, Started, Finished;
    var e := Crashed(d, m, draft, at, cut);
    CrashedDisk(d, m, draft, at, cut);
    FinishKeeps(e);
    StartIsHealthy(e, budget);
    StartedIs(e, budget);
    if Recoverable(d, m, at, cut) {
      CrashedDiskRecords(d, m, draft, at, cut, budget);
    }
  }

  /** A log whose last line an Append continued is refused by the next start. */
  lemma DestroyedIsRefused(d: Disk, m: Memory, draft: Draft, at: nat, cut: Cut, budget: nat)
    requires DiskInv(d) && MemoryInv(d, m) && AppendProceeds(d, m, draft) && !AppendSafe(d)
    requires d.marker.NoMarker? && at <= 2
    requires Sensible(draft) && (at > 0 || cut.written > 0)
    ensures StartVerdict(Crashed(d, m, draft, at, cut), budget).Refused?
  {
    hide VerifyRecord, ValidText, Size, NextRecord, Archived, Records, DiskInv, MemoryInv, AppendProceeds, Crashed,
         Recovery;
    var e := Crashed(d, m, draft, at, cut);
    UnterminatedIsDestroyed(d, m, draft, at, cut);
    var lines, n := e.log.value.lines, m.sequence;
    NonBlankIsAll(lines);
    assert Open(lines[n - 1], n).None?;
    assert After(e, [], 0) == e;
    assert BoundedWrites(e, budget) == [];
    if at < 2 {
      var start := n - Min(RECENT_LIMIT, n) + 1;
      assert !LineVerifies(lines, n, start, PayloadAt(lines, start).prev);
    }
  }

  /**
   A crash anywhere in Append and a restart with no smaller budget. The ledger comes up healthy exactly
   when Recoverable says so. After an Append on a safe log it then holds all sealed records, and the
   interrupted one exactly when its whole line had been written; a pending rotation is finished instead,
   whatever the Append had written, or refused when its archive is gone.
   */
  lemma AppendCrashRecovers(s: State, draft: Draft, at: nat, cut: Cut, budget: nat)
    requires Inv(s) && Enabled(s, AppendStops(draft, at, cut, true)) && budget >= s.process.memory.budget
    ensures var m := s.process.memory;
            var u := Next(Next(s, AppendStops(draft, at, cut, true)), Start(budget));
            && (!u.process.memory.quarantined <==> Recoverable(s.disk, m, at, cut))
            && (s.disk.marker.Marker? ==>
                  u.disk == if FinishWrites(s.disk).Some? then SwappedAt(s.disk, 4)
                            else Next(s, AppendStops(draft, at, cut, true)).disk)
            && (s.disk.marker.NoMarker? && AppendSafe(s.disk) && Recoverable(s.disk, m, at, cut) ==>
                  && |LogOf(u.disk).lines| == SealedCount(u.disk.head) == u.process.memory.sequence
                  && Sealed(u.disk.log, u.disk.head) == Sealed(s.disk.log, s.disk.head)
                       + (if LineReached(draft, at, cut) then [NextRecord(m, draft)] else []))
  {
    hide VerifyRecord, ValidText, Bytes, LineVerifies, DiskInv, MemoryInv, NextRecord, Sealed, Recovered, Stopped,
         AppendProceeds, AppendWrites, StartVerdict, Started, Finished, Crashed, Size, BoundedVerdict;
    var d, m := s.disk, s.process.memory;
    AppendStopsAt(d, m, draft, at, cut);
    var e := Crashed(d, m, draft, at, cut);
    assert e == Next(s, AppendStops(draft, at, cut, true)).disk by { CrashedIs(d, m, draft, at, cut); }
    MarkerIsReadable(d);
    if d.marker.Marker? {
      PendingCrash(d, m, draft, at, cut, budget);
    } else if AppendSafe(d) {
      SafeCrashRecovers(d, m, draft, at, cut, budget);
    } else if at == 0 && cut.written == 0 {
      UntouchedIsHealthy(s, draft, cut, budget);
    } else {
      DestroyedIsRefused(d, m, draft, at, cut, budget);
    }
  }

  lemma CrashedIs(d: Disk, m: Memory, draft: Draft, at: nat, cut: Cut)
    requires at <= 2
    ensures |AppendWrites(m, draft)| == 2
    ensures Stopped(d, AppendWrites(m, draft), at, cut) == Crashed(d, m, draft, at, cut)
  {
    AppendStopsAt(d, m, draft, at, cut);
  }

  /**
   A start over a marker that names an archive with its manifest swaps in an empty chain, whatever the live
   chain is.
   */
  lemma PendingStart(d: Disk, budget: nat)
    requires d.marker.Marker? && FinishWrites(d).Some?
    ensures Finished(d) == SwappedAt(d, 4) && StartVerdict(d, budget) == NOTHING_STORED
    ensures Started(d, budget) == SwappedAt(d, 4)
  {
    SwapReaches(d, 4);
    assert Finished(d) == SwappedAt(d, 4);
    assert BoundedWrites(Finished(d), budget) == [];
    assert StartWrites(d, budget) == SwapWrites();
  }

  lemma PendingCrash(d: Disk, m: Memory, draft: Draft, at: nat, cut: Cut, budget: nat)
    requires d.marker.Marker?
    ensures var e := Crashed(d, m, draft, at, cut);
            if FinishWrites(d).Some?
            then StartVerdict(e, budget) == NOTHING_STORED && Started(e, budget) == SwappedAt(d, 4)
            else StartVerdict(e, budget).Refused? && Started(e, budget) == e
  {
    hide NextRecord, AddLine, StartVerdict, Started, LiveOk, Torn, ShelfOk, Sealed, ChainOk;
    var e := Crashed(d, m, draft, at, cut);
    if FinishWrites(d).Some? {
      PendingStart(e, budget);
    } else {
      StrandedStart(e, budget);
    }
  }

  lemma UntouchedIsHealthy(s: State, draft: Draft, cut: Cut, budget: nat)
    requires Inv(s) && Enabled(s, AppendStops(draft, 0, cut, true)) && budget >= s.process.memory.budget
    requires !AppendSafe(s.disk) && s.disk.marker.NoMarker? && cut.written == 0
    ensures StartVerdict(Next(s, AppendStops(draft, 0, cut, true)).disk, budget).Accepted?
  {
    hide VerifyRecord, ValidText, LineVerifies, Sealed, NextRecord, StartVerdict, Started, BoundedVerdict, Stopped,
         AppendWrites, Bytes;
    EmptyStop(s, AppendStops(draft, 0, cut, true));
    FinishKeeps(s.disk);
    StartIsHealthy(s.disk, budget);
  }

  // ----------------------------------------------------------------- rotation

  /** Finishing an interrupted rotation again, from wherever it stopped, ends in the same files. */
  lemma FinishingIsIdempotent(d: Disk, k: nat, budget: nat)
    requires d.marker.Marker? && FinishWrites(d).Some? && k <= 4
    ensures var e := After(d, FinishWrites(d).value, k);
            && Finished(e) == Finished(d)
            && StartVerdict(e, budget) == NOTHING_STORED
            && Started(e, budget) == Finished(d)
  {
    hide StartVerdict, Started, LiveOk, Torn, ShelfOk, Sealed, ChainOk, Settled, History;
    SwapReaches(d, k);
    PendingStart(d, budget);
    var e := SwappedAt(d, k);
    if k < 4 {
      PendingStart(e, budget);
    } else {
      EmptyStart(e, budget);
    }
  }

  /** A start on an empty chain with no rotation pending leaves it. */
  lemma EmptyStart(d: Disk, budget: nat)
    requires d.marker.NoMarker? && d.log == Some(EMPTY_LOG) && d.head == Head(NOTHING_SEALED)
    ensures Finished(d) == d && StartVerdict(d, budget) == NOTHING_STORED && Started(d, budget) == d
  {
    assert After(d, [], 0) == d;
    assert BoundedWrites(d, budget) == [] && StartWrites(d, budget) == [];
  }

  /** The live files of `d` beside the archives of `e`. */
  function OnShelf(d: Disk, e: Disk): Disk {
    d.(archives := e.archives, past := e.past)
  }

  /** Writes that leave the archives alone. */
  predicate LiveWrite(w: Write) {
    w.PutLog? || w.PutHead? || w.PutMark? || w.DropMark? || w.DropMarker?
  }

  lemma {:induction false} LiveWritesIgnoreArchives(d: Disk, e: Disk, ws: seq<Write>, k: nat)
    requires k <= |ws| && forall i :: 0 <= i < |ws| ==> LiveWrite(ws[i])
    ensures After(OnShelf(d, e), ws, k) == OnShelf(After(d, ws, k), e)
    ensures After(d, ws, k) == OnShelf(After(d, ws, k), d)
    ensures After(d, ws, k).marker == d.marker || After(d, ws, k).marker.NoMarker?
  {
    if k > 0 {
      LiveWritesIgnoreArchives(d, e, ws, k - 1);
      assert LiveWrite(ws[k - 1]);
    }
  }

  lemma BoundedWritesAreLive(d: Disk, budget: nat)
    ensures |BoundedWrites(d, budget)| <= 1
    ensures forall i :: 0 <= i < |BoundedWrites(d, budget)| ==> LiveWrite(BoundedWrites(d, budget)[i])
  {
    hide VerifyRecord, NonBlank, Size;
  }

  lemma StartWritesAreLive(d: Disk, budget: nat)
    ensures forall i :: 0 <= i < |StartWrites(d, budget)| ==> LiveWrite(StartWrites(d, budget)[i])
  {
    hide VerifyRecord, NonBlank, Size, BoundedVerdict, BoundedWrites, Finished;
    BoundedWritesAreLive(Finished(d), budget);
  }

  /** With no rotation pending a start does not look at the archives. */
  lemma StartIgnoresArchives(d: Disk, e: Disk, budget: nat)
    requires d.marker.NoMarker?
    ensures StartVerdict(OnShelf(d, e), budget) == StartVerdict(d, budget)
    ensures Started(OnShelf(d, e), budget) == OnShelf(Started(d, budget), e)
  {
    hide VerifyRecord, NonBlank, Size, Recovery, CheckTail;
    var f := OnShelf(d, e);
    assert Finished(d) == d && Finished(f) == f by {
      assert After(d, [], 0) == d && After(f, [], 0) == f;
    }
    var b := BoundedWrites(d, budget);
    assert BoundedWrites(f, budget) == b;
    BoundedWritesAreLive(d, budget);
    LiveWritesIgnoreArchives(d, e, b, |b|);
    assert StartVerdict(f, budget) == StartVerdict(d, budget);
    StartWritesAreLive(d, budget);
    var ws := StartWrites(d, budget);
    assert StartWrites(f, budget) == ws;
    LiveWritesIgnoreArchives(d, e, ws, |ws|);
  }

  /** Pending or not, the start does the same to the same live files, and the history ends the same. */
  lemma SameStart(d: Disk, e: Disk, budget: nat)
    requires DiskInv(d) && DiskInv(e) && e == OnShelf(d, e) && Settled(e) == Settled(d)
    requires FinishWrites(e) == FinishWrites(d)
    ensures StartVerdict(e, budget) == StartVerdict(d, budget) && Started(e, budget) == OnShelf(Started(d, budget), e)
    ensures History(Started(e, budget)) == History(Started(d, budget))
    ensures FinishWrites(d).None? ==> Started(d, budget) == d
    ensures d.marker.Marker? && FinishWrites(d).Some? ==> History(Started(d, budget)) == Settled(d)
  {
    hide LiveOk, Torn, ShelfOk, Sealed, ChainOk, StartVerdict, Started, Archived, Recovered, Finished;
    if FinishWrites(d).None? {
      StrandedStart(d, budget);
      StrandedStart(e, budget);
    } else if d.marker.Marker? {
      PendingStart(d, budget);
      PendingStart(e, budget);
      EmptyChainHoldsNothing(Head(NOTHING_SEALED));
    } else {
      StartIgnoresArchives(d, e, budget);
      StartKeepsShelf(d, budget);
    }
  }

  lemma StartKeepsShelf(d: Disk, budget: nat)
    ensures Started(d, budget) == OnShelf(Started(d, budget), d)
    ensures (d.marker.NoMarker? ==> Started(d, budget).marker.NoMarker?)
  {
    hide StartWrites, StartVerdict;
    StartWritesAreLive(d, budget);
    var ws := StartWrites(d, budget);
    LiveWritesIgnoreArchives(d, d, ws, |ws|);
  }

  /** The archive holds the log and the checkpoint of `d`, with its manifest. */
  predicate InFull(e: Disk, id: nat, d: Disk) {
    && id in e.archives && e.archives[id].manifest.Some?
    && e.archives[id].log == d.log && e.archives[id].head == d.head
  }

  /** The restart after a rotation that died in its write `at`, before its marker: as if there had been none. */
  predicate RestartsAsBefore(s: State, u: State, budget: nat)
    requires s.process.Up?
  {
    var v := Next(State(s.disk, Down), Start(budget));
    && u.process == v.process && u.disk == OnShelf(v.disk, u.disk) && History(u.disk) == History(v.disk)
    && (s.disk.marker.Marker? ==>
         History(u.disk) == if FinishWrites(s.disk).Some? then Settled(s.disk) else History(s.disk))
  }

  /** The restart finds an empty healthy chain. */
  predicate RestartsEmpty(u: State) {
    && u.process.Up? && !u.process.memory.quarantined && u.process.memory.scope == NothingSealed
    && u.disk.log == Some(EMPTY_LOG) && u.disk.head == Head(NOTHING_SEALED)
    && u.disk.mark == None && u.disk.marker == NoMarker && History(u.disk) == Settled(u.disk)
  }

  /**
   A crash anywhere in Rotate and a restart, whatever the name of the new archive and whether or not an earlier
   rotation is still pending. Before the new marker is written the restart ends exactly where it would have without
   the rotation, but for the archives; over a pending marker it therefore keeps only the settled past. From the
   marker on it finds the empty chain, healthy, the complete old chain in the new archive, and nothing is lost; unless
   retention has removed that archive: then every start refuses until the marker is cleared, and from the
   replacement of the log on only the settled past is left.
   */
  lemma RotationCrashRestarts(s: State, id: nat, at: nat, cut: Cut, budget: nat)
    requires Inv(s) && Enabled(s, RotateStops(id, at, cut, true))
    ensures var t := Next(s, RotateStops(id, at, cut, true));
            var u := Next(t, Start(budget));
            if at < 7 then
              && t.disk == OnShelf(s.disk, t.disk) && Settled(t.disk) == Settled(s.disk)
              && (Some(id) != Protected(s.disk) ==> RestartsAsBefore(s, u, budget))
            else if !Unkept(s.disk, id) then
              RestartsEmpty(u) && InFull(u.disk, id, s.disk) && History(u.disk) == History(s.disk)
            else if at < 11 then
              u.process.memory.quarantined && u.disk == t.disk
              && History(u.disk) == if at < 8 then History(s.disk) else Settled(s.disk)
            else
              RestartsEmpty(u) && History(u.disk) == Settled(s.disk)
  {
    hide RotateWrites, Stopped, History, Settled, StartVerdict, Started, Finished, FinishWrites, SwapWrites, Size,
         DiskInv, RotatedAt, StoppedAt, Unkept, PartlyPruned, LiveOk;
    var d, m := s.disk, s.process.memory;
    RotationStopsAt(d, m, id, at, cut);
    if at < 7 {
      var t := Next(s, RotateStops(id, at, cut, true)).disk;
      RotationStopped(d, m, id, at, cut);
      if Some(id) != Protected(d) {
        UnannouncedRotation(d, m, id, at, cut);
        SameStart(d, t, budget);
      }
    } else {
      LateStop(d, m, id, at, cut);
      if Unkept(d, id) {
        StrandedRotation(d, m, id, at, budget);
      } else {
        AnnouncedRotationFinishes(d, m, id, at, budget);
      }
    }
  }

  /** Until the marker is written, an earlier marker finds its archive as before. */
  lemma UnannouncedRotation(d: Disk, m: Memory, id: nat, at: nat, cut: Cut)
    requires id !in d.archives && Some(id) != Protected(d) && at < 7
    ensures StoppedAt(d, m, id, at, cut).marker == d.marker
    ensures FinishWrites(StoppedAt(d, m, id, at, cut)) == FinishWrites(d)
  {
    hide Retire, ArchiveAt, SwapWrites, Surplus, RotatedAt, SealingAt;
    var e, five := StoppedAt(d, m, id, at, cut), SealingAt(d, m, id, 5);
    RotatedLive(d, m, id, at);
    RotatedLive(d, m, id, 5);
    RotationArchives(d, m, id, at);
    RotationArchives(d, m, id, 5);
    assert SealingAt(d, m, id, 5) == RotatedAt(d, m, id, 5) by { FiveWrites(d, m, id); }
    if d.marker.Marker? {
      SparedStay(five);
      AddedOnly(d, m, id);
    }
  }

  lemma FiveWrites(d: Disk, m: Memory, id: nat)
    ensures SealingAt(d, m, id, 5) == RotatedAt(d, m, id, 5)
  {
  }

  lemma SparedStay(d: Disk)
    requires d.marker.Marker?
    ensures d.marker.id !in Surplus(d)
  {
  }

  lemma AddedOnly(d: Disk, m: Memory, id: nat)
    ensures RotatedAt(d, m, id, 0) == d
    ensures forall k :: 0 < k <= 5 ==> RotatedAt(d, m, id, k).archives == d.archives[id := ArchiveAt(d, m, id, k)]
  {
  }

  lemma AnnouncedRotationFinishes(d: Disk, m: Memory, id: nat, at: nat, budget: nat)
    requires DiskInv(d) && id !in d.archives && !Unkept(d, id) && 7 <= at <= 11
    ensures var e := RotatedAt(d, m, id, at);
            && StartVerdict(e, budget) == NOTHING_STORED && Started(e, budget) == SwappedAt(SealingAt(d, m, id, 7), 4)
            && InFull(Started(e, budget), id, d)
            && History(Started(e, budget)) == History(d) == Settled(Started(e, budget))
  {
    hide History, Settled, StartVerdict, Started, SwapWrites, Size, DiskInv, SealingAt, Finished, FinishWrites,
         After, LiveOk, MarkOk, Unkept;
    var sealed := SealingAt(d, m, id, 7);
    MarkerCommits(d, m, id);
    SwapDropsLive(sealed, 4);
    SwapReaches(sealed, at - 7);
    PendingFinish(sealed);
    FinishingIsIdempotent(sealed, at - 7, budget);
    PendingStart(sealed, budget);
  }

  lemma PendingFinish(d: Disk)
    requires d.marker.Marker? && d.marker.id in d.archives && d.archives[d.marker.id].manifest == Some(d.marker.digest)
    ensures FinishWrites(d) == Some(SwapWrites())
  {
  }

  lemma StrandedRotation(d: Disk, m: Memory, id: nat, at: nat, budget: nat)
    requires DiskInv(d) && id !in d.archives && Unkept(d, id) && 7 <= at <= 11
    ensures var e := RotatedAt(d, m, id, at);
            && Started(e, budget) == e && (at < 11 ==> StartVerdict(e, budget).Refused?)
            && (at == 11 ==>
                  && StartVerdict(e, budget) == NOTHING_STORED && Settled(e) == History(e) && e.marker == NoMarker
                  && e.log == Some(EMPTY_LOG) && e.head == Head(NOTHING_SEALED) && e.mark == None)
            && History(e) == if at < 8 then History(d) else Settled(d)
  {
    hide StartVerdict, Started, Finished, RotatedAt, Unkept, LiveOk, MarkOk, Archived, ShelfOk;
    var e := RotatedAt(d, m, id, at);
    RotationKeeps(d, m, id, at);
    RotatedLive(d, m, id, at);
    NewArchiveStaysExactlyWhen(d, m, id, at);
    if at == 11 {
      EmptyStart(e, budget);
      EmptyChainHoldsNothing(e.head);
    } else {
      NamesItself(d, m, id, at);
      StrandedStart(e, budget);
    }
  }

  /** From its seventh write on the marker names the new archive. */
  lemma NamesItself(d: Disk, m: Memory, id: nat, at: nat)
    requires 7 <= at < 11
    ensures RotatedAt(d, m, id, at).marker == Marker(id, ManifestFor(d, m, id))
  {
    MarkerWritten(SealingAt(d, m, id, 6), id, ManifestFor(d, m, id));
  }

  // ------------------------------------------------------------------ failed writes

  /**
   What a failed write of an Append means for the next one, when the ledger keeps running. A failed checkpoint
   quarantines it. A failed line leaves it healthy, and the next Append is refused and quarantines it exactly
   when a byte had reached the log.
   */
  lemma FailedAppendIsNoticed(s: State, draft: Draft, at: nat, cut: Cut, next: Draft)
    requires Inv(s) && AppendSafe(s.disk) && Enabled(s, AppendStops(draft, at, cut, false)) && Sensible(next)
    requires TextsAllowed(next)
    ensures var t := Next(s, AppendStops(draft, at, cut, false));
            && t.process.Up? && (t.process.memory.quarantined <==> at == 1)
            && (at == 0 ==>
                  var u := Next(t, Append(next));
                  && (u.process.memory.quarantined <==> cut.written > 0)
                  && (cut.written == 0 && s.process.memory.expectedSize + next.size + 1 <= s.process.memory.budget ==>
                        Acknowledged(t, Append(next))))
  {
    hide DiskInv, MemoryInv, NextRecord, Stopped, AppendWrites, AddLine, VerifyCheckpoint, Bytes, ValidText,
         TextsAllowed, NextPayload, History, Sealed, LiveOk, MarkOk;
    var d, m := s.disk, s.process.memory;
    AppendStopsAt(d, m, draft, at, cut);
    if at == 0 {
      BytesHarmless(d, m, draft, cut.written);
      ReadyToAppend(d, m);
      var t := Next(s, AppendStops(draft, at, cut, false));
      TextsAreRefusedExactlyWhen(t.process.memory, next);
      assert t.disk.log.Some? && Size(t.disk.log.value) == m.expectedSize + Min(cut.written, draft.size + 1);
    }
  }

  /**
   What a failed write of a Rotate means for a ledger that keeps running. Until the log is replaced its files
   look as it left them; from then on they do not, and the next Append quarantines it; once the checkpoint and
   the watermark are replaced too, it has begun the new chain.
   */
  lemma FailedRotationIsNoticed(s: State, id: nat, at: nat, cut: Cut)
    requires Inv(s) && Enabled(s, RotateStops(id, at, cut, false)) && Unchanged(s.disk, s.process.memory)
    ensures var t := Next(s, RotateStops(id, at, cut, false));
            && t.process.Up? && !t.process.memory.quarantined
            && (Unchanged(t.disk, t.process.memory) <==> at < 8 || at == 10)
            && (at < 10 ==> t.process.memory == s.process.memory)
            && (at == 10 ==> t.process.memory.sequence == 0 == t.process.memory.expectedSize
                             && t.process.memory.budget == s.process.memory.budget)
  {
    hide DiskInv, RotateWrites, Stopped, StoppedAt, RotatedAt, Bytes, Sealed, History;
    var d, m := s.disk, s.process.memory;
    RotationStopsAt(d, m, id, at, cut);
    RotationStopped(d, m, id, at, cut);
    RotatedLive(d, m, id, at);
    EmptySize();
    if at >= 6 {
      LateStop(d, m, id, at, cut);
    }
  }

  lemma EmptySize()
    ensures Size(EMPTY_LOG) == 0
  {
  }
}
