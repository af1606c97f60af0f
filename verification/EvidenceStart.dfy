/**
 Start-up (NewEvidenceLedger in control/evidence_ledger.go): finishing an
 interrupted rotation, recovering one unsealed record, verifying a bounded tail.
 */
module EvidenceStart {
  import opened Options
  import opened EvidenceChain
  import opened EvidenceWatermark
  import opened EvidenceDisk
  import opened EvidenceInvariant
  import opened EvidenceRotation

  // ----------------------------------------------------------------- recovery

  /** The disk after bounded verification made its write. */
  function Recovered(d: Disk, maxBytes: nat): Disk {
    After(d, BoundedWrites(d, maxBytes), |BoundedWrites(d, maxBytes)|)
  }

  /** Cutting the log back to what is sealed changes nothing that is recorded. */
  lemma TruncationKeeps(d: Disk)
    requires DiskInv(d) && d.marker.NoMarker? && d.log.Some? && d.head.Head?
    ensures var n := SealedCount(d.head);
            var e := d.(log := Some(LogFile(d.log.value.lines[..n], true)), overlap := 0);
            && DiskInv(e) && History(e) == History(d) && Sealed(e.log, e.head) == Sealed(d.log, d.head)
            && (MarkOk(d) ==> MarkOk(e))
  {
    var lines, n := d.log.value.lines, SealedCount(d.head);
    LinkedGrows(lines[..n], lines, 1, n, NoHash);
    SealedGrows(LogFile(lines[..n], true), d.log.value, d.head.checkpoint);
    if MarkOk(d) && Usable(d.mark).Some? {
      LinkedGrows(lines[..n], lines, 1, Usable(d.mark).value.sequence, NoHash);
    }
    var cut := LogFile(lines[..n], true);
    LiveChange(d, Some(cut), d.head);
  }

  /** The unsealed line of a live chain verifies as its next record. */
  predicate OrphanVerifies(d: Disk) {
    && d.log.Some? && d.head.Head?
    && |d.log.value.lines| == SealedCount(d.head) + 1
    && Open(d.log.value.lines[SealedCount(d.head)], SealedCount(d.head) + 1).Some?
    && VerifyRecord(RecordAt(d.log.value.lines, SealedCount(d.head) + 1),
                    SealedCount(d.head) + 1, d.head.checkpoint.head)
  }

  /** The write of the recovery, in terms of the chain. */
  lemma RecoveryIs(d: Disk, maxBytes: nat)
    requires DiskInv(d) && d.marker.NoMarker? && Size(LogOf(d)) <= maxBytes
    requires SealedCount(d.head) > 0
    ensures |BoundedWrites(d, maxBytes)| <= 1
    ensures var lines, n := d.log.value.lines, SealedCount(d.head);
            Recovered(d, maxBytes) ==
            if |lines| == n then d
            else if OrphanVerifies(d)
            then Perform(d, PutHead(Checkpoint(RECORD_VERSION, n + 1, RecordAt(lines, n + 1).hash)))
            else d.(log := Some(LogFile(lines[..n], true)), overlap := 0)
  {
    NonBlankIsAll(d.log.value.lines);
    var ws := BoundedWrites(d, maxBytes);
    assert After(d, ws, 0) == d;
    assert |ws| == 1 ==> After(d, ws, 1) == Perform(d, ws[0]);
  }

  lemma TruncatedSize(log: LogFile, n: nat)
    requires n + 1 == |log.lines| && NoEmptyLine(log.lines)
    ensures Size(LogFile(log.lines[..n], true)) <= Size(log)
  {
    assert log.lines == log.lines[..n] + [log.lines[n]];
    BytesAppend(log.lines[..n], log.lines[n]);
  }

  /**
   Recovery ends with a log and a checkpoint that agree. It keeps every sealed
   record and adds the unsealed one exactly when that verifies against the head.
   */
  lemma RecoveryAgrees(d: Disk, maxBytes: nat)
    requires DiskInv(d) && d.marker.NoMarker? && Size(LogOf(d)) <= maxBytes
    requires SealedCount(d.head) > 0
    ensures var e := Recovered(d, maxBytes);
            && DiskInv(e) && e.marker.NoMarker? && e.log.Some? && e.head.Head?
            && |e.log.value.lines| == SealedCount(e.head) && SealedCount(e.head) >= SealedCount(d.head)
            && Size(e.log.value) <= Size(d.log.value)
            && Sealed(e.log, e.head) == Sealed(d.log, d.head)
                 + (if OrphanVerifies(d) then [RecordAt(d.log.value.lines, SealedCount(d.head) + 1)] else [])
            && History(d) <= History(e) && (MarkOk(d) ==> MarkOk(e))
  {
    RecoveryIs(d, maxBytes);
    var lines := d.log.value.lines;
    if |lines| == SealedCount(d.head) {
      assert Sealed(d.log, d.head) + [] == Sealed(d.log, d.head);
    } else if OrphanVerifies(d) {
      SealingExtends(d, RecordAt(lines, |lines|), |lines|);
    } else {
      TruncationKeeps(d);
      TruncatedSize(d.log.value, |lines| - 1);
    }
  }

  lemma NothingSealedNoRecovery(d: Disk, maxBytes: nat)
    requires SealedCount(d.head) == 0 || Size(LogOf(d)) > maxBytes
    ensures BoundedWrites(d, maxBytes) == [] && Recovered(d, maxBytes) == d
  {
  }

  // ------------------------------------------------------------- the verdict

  /** A linked chain is also linked from any later record that names its own predecessor. */
  lemma LinkedFrom(lines: seq<Line>, start: nat, n: nat)
    requires 1 <= start <= n <= |lines| && Linked(lines, 1, n, NoHash)
    ensures Linked(lines, start, n, PayloadAt(lines, start).prev)
  {
    forall i | start <= i <= n
      ensures LineVerifies(lines, i, start, PayloadAt(lines, start).prev)
    {
      assert LineVerifies(lines, i, 1, NoHash);
    }
  }

  /** A live chain whose log and checkpoint agree passes the bounded check. */
  lemma AgreeingChainAccepted(d: Disk, limit: nat)
    requires DiskInv(d) && d.marker.NoMarker? && d.log.Some? && d.head.Head? && limit > 0
    requires |d.log.value.lines| == SealedCount(d.head) > 0
    ensures var c := d.head.checkpoint;
            CheckTail(d.log.value, c, limit) ==
            Accepted(c.head, c.sequence, Tail(Sealed(d.log, d.head), limit), Size(d.log.value),
                     if c.sequence <= limit then Full else Bounded)
  {
    hide VerifyRecord, Bytes, Archived;
    var lines, c := d.log.value.lines, d.head.checkpoint;
    NonBlankIsAll(lines);
    var start := c.sequence - Min(limit, c.sequence) + 1;
    LinkedFrom(lines, start, c.sequence);
    assert Records(lines, start, c.sequence) == Tail(Records(lines, 1, c.sequence), limit);
  }

  /**
   What remains of the history when a pending rotation is finished: all of it but what only the live chain held. A
   marker without its archive is refused, and nothing changes.
   */
  function Remaining(d: Disk): seq<Record> {
    if d.marker.Marker? && FinishWrites(d).Some? then Settled(d) else History(d)
  }

  /** Finishing an interrupted rotation leaves no rotation pending. */
  lemma FinishKeeps(d: Disk)
    requires DiskInv(d) && FinishWrites(d).Some?
    ensures DiskInv(Finished(d)) && Finished(d).marker.NoMarker? && History(Finished(d)) == Remaining(d)
    ensures d.marker.NoMarker? ==> Finished(d) == d
    ensures d.marker.Marker? ==> Finished(d) == SwappedAt(d, 4)
    ensures MarkOk(d) ==> MarkOk(Finished(d))
  {
    hide ChainOk, Sealed, Archived, History, Settled, LiveOk;
    if d.marker.Marker? {
      SwapReaches(d, 4);
      SwapDropsLive(d, 4);
    } else {
      assert After(d, [], 0) == d;
    }
  }

  /**
   What a start finds healthy: everything within the budget, except a marker without its archive and records
   that no checkpoint seals.
   */
  predicate StartsHealthy(d: Disk, budget: nat) {
    var f := Finished(d);
    FinishWrites(d).Some? && Size(LogOf(f)) <= budget && (SealedCount(f.head) > 0 || LogOf(f).lines == [])
  }

  /** The disk after a complete start. */
  function Started(d: Disk, budget: nat): Disk {
    After(d, StartWrites(d, budget), |StartWrites(d, budget)|)
  }

  lemma StartedIs(d: Disk, budget: nat)
    requires DiskInv(d) && FinishWrites(d).Some?
    ensures var r := Recovered(Finished(d), budget);
            var mark := StartMark(StartVerdict(d, budget));
            Started(d, budget) == if mark == [] then r else Perform(r, mark[0])
  {
    hide VerifyRecord, Bytes, Archived, CheckTail, BoundedVerdict, DiskInv, Recovery;
    FinishKeeps(d);
    var f, b, mark := FinishWrites(d).value, BoundedWrites(Finished(d), budget), StartMark(StartVerdict(d, budget));
    var r := Recovered(Finished(d), budget);
    AfterConcat(d, f + b, mark, |f + b + mark|);
    AfterConcat(d, f, b, |f + b|);
    assert |b| == 0 ==> After(Finished(d), b, |b|) == Finished(d);
    assert After(r, mark, 0) == r;
  }

  /** A watermark at the sealed head is sound. */
  lemma MarkKeeps(d: Disk)
    requires DiskInv(d) && d.marker.NoMarker? && d.head.Head? && SealedCount(d.head) > 0
    ensures var e := Perform(d, PutMark(Watermark(d.head.checkpoint.sequence, d.head.checkpoint.head)));
            DiskInv(e) && History(e) == History(d) && MarkOk(e)
  {
    assert Names(d.log.value.lines, Watermark(d.head.checkpoint.sequence, d.head.checkpoint.head));
  }

  /** The verdict on a chain with sealed records. */
  lemma SealedVerdict(d: Disk, budget: nat)
    requires DiskInv(d) && FinishWrites(d).Some? && Size(LogOf(Finished(d))) <= budget
    requires SealedCount(Finished(d).head) > 0
    ensures var r := Recovered(Finished(d), budget);
            && DiskInv(r) && r.marker.NoMarker? && r.log.Some? && r.head.Head?
            && |r.log.value.lines| == SealedCount(r.head) > 0
            && Remaining(d) <= History(r) && (MarkOk(d) ==> MarkOk(r))
            && StartVerdict(d, budget) ==
               Accepted(r.head.checkpoint.head, r.head.checkpoint.sequence, Tail(Sealed(r.log, r.head), RECENT_LIMIT),
                        Size(r.log.value), if r.head.checkpoint.sequence <= RECENT_LIMIT then Full else Bounded)
  {
    FinishKeeps(d);
    var f := Finished(d);
    RecoveryAgrees(f, budget);
    AgreeingChainAccepted(Recovered(f, budget), RECENT_LIMIT);
  }

  /** The verdict when nothing is sealed or the log is over the budget. */
  lemma OtherVerdict(d: Disk, budget: nat)
    requires DiskInv(d) && FinishWrites(d).Some?
    requires Size(LogOf(Finished(d))) > budget || SealedCount(Finished(d).head) == 0
    ensures Recovered(Finished(d), budget) == Finished(d)
    ensures StartVerdict(d, budget) == if StartsHealthy(d, budget) then NOTHING_STORED else Refused
  {
    FinishKeeps(d);
    NothingSealedNoRecovery(Finished(d), budget);
    SizeZero(LogOf(Finished(d)));
  }

  /** What a start hands over: a consistent disk, and memory that is healthy exactly under `healthy`. */
  predicate HandsOver(d: Disk, e: Disk, m: Memory, healthy: bool) {
    && DiskInv(e) && MemoryInv(e, m) && Remaining(d) <= History(e) && (MarkOk(d) ==> MarkOk(e))
    && (if FinishWrites(d).Some? then e.marker.NoMarker? else e == d)
    && (!m.quarantined <==> healthy)
    && (healthy ==> Unchanged(e, m) && |LogOf(e).lines| == SealedCount(e.head) == m.sequence)
  }

  lemma SealedStart(d: Disk, budget: nat)
    requires DiskInv(d) && FinishWrites(d).Some? && Size(LogOf(Finished(d))) <= budget
    requires SealedCount(Finished(d).head) > 0
    ensures HandsOver(d, Started(d, budget), StartedMemory(StartVerdict(d, budget), budget), true)
  {
    hide VerifyRecord, Bytes, Archived, NonBlank, StartVerdict, BoundedVerdict, Recovered, Finished, BoundedWrites,
         FinishWrites, Records, LineVerifies;
    StartedIs(d, budget);
    SealedVerdict(d, budget);
    var r := Recovered(Finished(d), budget);
    MarkKeeps(r);
    SizeZero(r.log.value);
  }

  lemma OtherStart(d: Disk, budget: nat)
    requires DiskInv(d) && FinishWrites(d).Some?
    requires Size(LogOf(Finished(d))) > budget || SealedCount(Finished(d).head) == 0
    ensures HandsOver(d, Started(d, budget), StartedMemory(StartVerdict(d, budget), budget), StartsHealthy(d, budget))
  {
    hide VerifyRecord, LineVerifies, Archived, NonBlank, StartVerdict, BoundedVerdict, Recovered, Finished,
         BoundedWrites, FinishWrites, Started, Settled, Live;
    FinishKeeps(d);
    StartedIs(d, budget);
    OtherVerdict(d, budget);
    SizeZero(LogOf(Finished(d)));
  }

  /**
   A start is healthy exactly when StartsHealthy says so. Then log and checkpoint
   agree and memory holds the chain. Nothing is lost but what only the live chain of a
   pending rotation held.
   */
  lemma StartIsHealthy(d: Disk, budget: nat)
    requires DiskInv(d)
    ensures HandsOver(d, Started(d, budget), StartedMemory(StartVerdict(d, budget), budget), StartsHealthy(d, budget))
  {
    if FinishWrites(d).None? {
      StrandedStart(d, budget);
    } else if Size(LogOf(Finished(d))) <= budget && SealedCount(Finished(d).head) > 0 {
      SealedStart(d, budget);
    } else {
      OtherStart(d, budget);
    }
  }

  /** A start over a marker without its archive refuses and writes nothing. */
  lemma StrandedStart(d: Disk, budget: nat)
    requires FinishWrites(d).None?
    ensures StartVerdict(d, budget).Refused? && StartWrites(d, budget) == [] && Started(d, budget) == d
  {
  }

  /**
   What a start reports and stores: over a healthy chain of at most 4096 records it has verified everything and
   says so in the watermark; over a longer one only the tail; over an empty one nothing.
   */
  lemma StartReports(d: Disk, budget: nat)
    requires DiskInv(d)
    ensures var e, m := Started(d, budget), StartedMemory(StartVerdict(d, budget), budget);
            && m.budget == budget && !m.full
            && (StartsHealthy(d, budget) ==>
                  && m.scope == (if m.sequence == 0 then NothingSealed
                                 else if m.sequence <= 4096 then Full else Bounded)
                  && (0 < m.sequence <= 4096 ==> e.mark == Some(Watermark(m.sequence, m.head)))
                  && (m.sequence > 4096 ==> e.mark == Finished(d).mark))
  {
    hide VerifyRecord, Bytes, Archived, NonBlank, StartVerdict, BoundedVerdict, Recovered, Finished, BoundedWrites,
         FinishWrites, Records, LineVerifies, Started, Linked, Size;
    if StartsHealthy(d, budget) {
      StartedIs(d, budget);
      if SealedCount(Finished(d).head) > 0 {
        SealedVerdict(d, budget);
        RecoveredMark(d, budget);
      } else {
        OtherVerdict(d, budget);
      }
    }
  }

  /** Recovery leaves the watermark alone. */
  lemma RecoveredMark(d: Disk, budget: nat)
    requires DiskInv(d) && FinishWrites(d).Some? && Size(LogOf(Finished(d))) <= budget
    requires SealedCount(Finished(d).head) > 0
    ensures Recovered(Finished(d), budget).mark == Finished(d).mark
  {
    hide VerifyRecord, Bytes, NonBlank, Records, LineVerifies, Linked;
    FinishKeeps(d);
    RecoveryIs(Finished(d), budget);
  }

  /** Finishing a rotation can stop anywhere as well. */
  lemma FinishStopped(d: Disk, k: nat)
    requires DiskInv(d) && FinishWrites(d).Some? && k <= |FinishWrites(d).value|
    ensures var e := After(d, FinishWrites(d).value, k);
            DiskInv(e) && History(e) == (if k == 0 then History(d) else Settled(d)) && (MarkOk(d) ==> MarkOk(e))
  {
    hide ChainOk, Sealed, Archived, History, Settled, LiveOk;
    if d.marker.Marker? {
      SwapReaches(d, k);
      SwapDropsLive(d, k);
    }
  }

  /**
   A start that crashes after any number of its writes keeps the invariant and, but for the live chain of a
   pending rotation, the history.
   */
  lemma StartStopped(d: Disk, budget: nat, k: nat)
    requires DiskInv(d) && k <= |StartWrites(d, budget)|
    ensures var e := After(d, StartWrites(d, budget), k);
            DiskInv(e) && (if k == 0 then e == d else Remaining(d) <= History(e)) && (MarkOk(d) ==> MarkOk(e))
  {
    hide VerifyRecord, Bytes, DiskInv, History, FinishWrites, StartVerdict, Size, NonBlank, Recovery, MemoryInv,
         Unchanged, Settled, Perform;
    if FinishWrites(d).None? {
      StrandedStart(d, budget);
      return;
    }
    FinishKeeps(d);
    var f, b, mark := FinishWrites(d).value, BoundedWrites(Finished(d), budget), StartMark(StartVerdict(d, budget));
    AfterConcat(d, f + b, mark, k);
    if k <= |f + b| {
      AfterConcat(d, f, b, k);
      if k <= |f| {
        FinishStopped(d, k);
        NothingToFinish(d);
      } else if Size(LogOf(Finished(d))) <= budget && SealedCount(Finished(d).head) > 0 {
        RecoveryIs(Finished(d), budget);
        RecoveryAgrees(Finished(d), budget);
      } else {
        NothingSealedNoRecovery(Finished(d), budget);
      }
    } else {
      StartIsHealthy(d, budget);
    }
  }

  lemma NothingToFinish(d: Disk)
    ensures FinishWrites(d).Some? && FinishWrites(d).value != [] ==> d.marker.Marker?
  {
  }
}
