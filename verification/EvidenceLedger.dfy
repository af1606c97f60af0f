/**
 The ledger as the object the service holds (control/evidence_ledger.go,
 control/evidence_rotation.go): its methods update the fields and the files write
 by write, and end where the transitions of EvidenceRuns say.
 */
module EvidenceLedger {
  import opened Options
  import opened EvidenceChain
  import opened EvidenceDisk
  import opened EvidenceInvariant
  import opened EvidenceRotation
  import opened EvidenceStart
  import EvidenceRuns
  import EvidenceTail

  lemma RefusedKeeps(d: Disk, m: Memory, draft: Draft)
    requires MemoryInv(d, m)
    ensures MemoryInv(d, AppendRefused(d, m, draft))
  {
    hide ValidText, Sealed, Size, LineVerifies;
  }

  /**
   What a committed Append means for the history: one record more from a safe state; from any other only the
   settled past stays.
   */
  lemma AppendedHistory(d: Disk, m: Memory, draft: Draft)
    requires DiskInv(d) && MemoryInv(d, m) && Sensible(draft) && AppendProceeds(d, m, draft)
    ensures var e := WithRecord(d, m, draft);
            if AppendSafe(d)
            then DiskInv(e) && MemoryInv(e, AppendDone(m, draft)) && History(e) == History(d) + [NextRecord(m, draft)]
            else History(e) == Settled(d) && !ChainOk(e.log, e.head)
  {
    hide DiskInv, MemoryInv, History, Settled, NextRecord, AppendProceeds, ChainOk, AppendSafe;
    if AppendSafe(d) {
      RecordAppended(d, m, draft);
    } else {
      EvidenceRuns.DestroyingLoses(EvidenceRuns.State(d, EvidenceRuns.Up(m, None)), EvidenceRuns.Append(draft));
    }
  }

  /** Where a rotation ends: everything settled, or, with its archive removed at once, only what was settled before. */
  lemma RotationEnds(d: Disk, m: Memory, id: nat)
    requires id !in d.archives
    ensures var e := RotatedAt(d, m, id, 11);
            && e.log == Some(EMPTY_LOG) && e.head == Head(NOTHING_SEALED) && e.mark == None && e.marker == NoMarker
            && (id in e.archives <==> !Unkept(d, id)) && (id in e.archives ==> e.archives[id] == ArchiveAt(d, m, id, 5))
            && (DiskInv(d) ==> DiskInv(e) && MemoryInv(e, FreshMemory(m)) && History(e) == Settled(e)
                               && History(e) == if Unkept(d, id) then Settled(d) else History(d))
  {
    hide DiskInv, RotatedAt, Archived, Unkept;
    EvidenceRuns.RotatedLive(d, m, id, 11);
    NewArchiveStaysExactlyWhen(d, m, id, 11);
    EmptyChainHoldsNothing(Head(NOTHING_SEALED));
    if DiskInv(d) {
      RotationKeeps(d, m, id, 11);
    }
  }

  lemma DirectoryIsHarmless(d: Disk, m: Memory, id: nat)
    requires DiskInv(d) && MemoryInv(d, m) && id !in d.archives
    ensures var e := Perform(d, MakeArchive(id)); DiskInv(e) && MemoryInv(e, m) && History(e) == History(d)
  {
    hide DiskInv, History;
    NewArchiveHarmless(d, id, EMPTY_ARCHIVE);
  }

  /** Which flags a refused Append sets. */
  lemma RefusedFlags(d: Disk, m: Memory, draft: Draft)
    requires !AppendProceeds(d, m, draft)
    ensures var n := AppendRefused(d, m, draft);
            && (n.quarantined <==> m.quarantined || (TextsAllowed(draft) && !Unchanged(d, m)))
            && (n.full <==> m.full || (!m.quarantined && TextsAllowed(draft) && Unchanged(d, m)))
  {
    hide ValidText, TextsAllowed, Unchanged, NextPayload;
    TextsAreRefusedExactlyWhen(m, draft);
  }

  lemma DoneFields(m: Memory, draft: Draft)
    ensures var n := AppendDone(m, draft);
            n.sequence == m.sequence + 1 && n.head == NextRecord(m, draft).hash && !n.full
  {
  }

  lemma FullDoesNotMatter(d: Disk, m: Memory, draft: Draft)
    ensures var n := m.(full := false);
            && NextPayload(n, draft) == NextPayload(m, draft) && NextRecord(n, draft) == NextRecord(m, draft)
            && WithRecord(d, n, draft) == WithRecord(d, m, draft)
            && AppendDone(n, draft).(full := false) == AppendDone(m, draft)
  {
  }

  /** The files and the fields of a running ledger; the lock is held for the whole of each method. */
  class Ledger {
    var disk: Disk
    var memory: Memory

    ghost predicate Valid()
      reads this
    {
      DiskInv(disk) && MemoryInv(disk, memory)
    }

    /** NewEvidenceLedger on the files of `onDisk`. */
    constructor (onDisk: Disk, budget: nat)
      ensures disk == Started(onDisk, budget)
      ensures memory == StartedMemory(StartVerdict(onDisk, budget), budget)
      ensures DiskInv(onDisk) ==>
                && Valid() && Remaining(onDisk) <= History(disk)
                && (!memory.quarantined <==> StartsHealthy(onDisk, budget))
      ensures memory.budget == budget && !memory.full
      ensures DiskInv(onDisk) && !memory.quarantined ==>
                && (memory.scope == Full <==> 0 < memory.sequence <= 4096)
                && (memory.scope == NothingSealed <==> memory.sequence == 0)
                && (memory.scope == Full ==> disk.mark == Some(Watermark(memory.sequence, memory.head)))
    {
      hide DiskInv, MemoryInv, History, Remaining, StartWrites, StartVerdict, StartsHealthy, After, Unchanged;
      var writes := StartWrites(onDisk, budget);
      disk := After(onDisk, writes, |writes|);
      memory := StartedMemory(StartVerdict(onDisk, budget), budget);
      new;
      if DiskInv(onDisk) {
        StartIsHealthy(onDisk, budget);
        StartReports(onDisk, budget);
      }
    }

    /** The checks of Append before it writes: text bounds, unchanged files, budget. */
    method Refuses(draft: Draft, payload: Payload) returns (refused: bool)
      requires payload == NextPayload(memory, draft)
      modifies this`memory
      ensures refused <==> !old(AppendProceeds(disk, memory, draft))
      ensures memory == if refused then AppendRefused(disk, old(memory), draft) else old(memory).(full := false)
    {
      hide TextWithin, Bytes, VerifyCheckpoint, Size;
      if memory.quarantined || !ValidText(payload) {
        return true;
      }
      if !VerifyCheckpoint(disk.head, memory.sequence, memory.head)
         || !(if disk.log.None? then memory.expectedSize == 0 else Size(disk.log.value) == memory.expectedSize) {
        memory := memory.(quarantined := true);
        return true;
      }
      refused := memory.expectedSize + draft.size + 1 > memory.budget;
      memory := memory.(full := refused);
    }

    /** The writes of Append, the record first and the checkpoint second, then the fields. */
    method Commit(draft: Draft, payload: Payload) returns (record: Record)
      requires payload == NextPayload(memory, draft)
      modifies this
      ensures Carries(record, draft) && Continues(record, old(memory).sequence, old(memory).head)
      ensures record == NextRecord(old(memory), draft)
      ensures disk == WithRecord(old(disk), old(memory), draft)
      ensures memory == AppendDone(old(memory), draft).(full := old(memory).full)
    {
      hide AddLine, LogOf, PastWith, Surplus, Archived;
      record := Record(payload, Hex(payload, 0), Signed(payload));
      var sequence := memory.sequence + 1;
      disk := Perform(disk, AppendLine(Encrypted(sequence, record, draft.size)));
      disk := Perform(disk, PutHead(Checkpoint(RECORD_VERSION, sequence, record.hash)));
      var recent := memory.recent + [record];
      if |recent| > RECENT_LIMIT {
        recent := recent[|recent| - RECENT_LIMIT..];
      }
      memory := memory.(sequence := sequence, head := record.hash,
                        expectedSize := memory.expectedSize + draft.size + 1, recent := recent);
    }

    /** Append: the checks, then the writes. */
    method Append(draft: Draft) returns (appended: Option<Record>)
      requires Sensible(draft)
      modifies this
      ensures appended.Some? <==>
              && !old(memory).quarantined && TextsAllowed(draft) && Unchanged(old(disk), old(memory))
              && old(memory).expectedSize + draft.size + 1 <= old(memory).budget
      ensures appended.Some? ==>
                && Carries(appended.value, draft) && Continues(appended.value, old(memory).sequence, old(memory).head)
                && memory.sequence == old(memory).sequence + 1 && memory.head == appended.value.hash && !memory.full
      ensures appended.None? ==>
                && (memory.quarantined <==>
                      old(memory).quarantined || (TextsAllowed(draft) && !Unchanged(old(disk), old(memory))))
                && (memory.full <==>
                      || old(memory).full
                      || (!old(memory).quarantined && TextsAllowed(draft) && Unchanged(old(disk), old(memory))))
      ensures appended.Some? ==>
                && appended.value == NextRecord(old(memory), draft)
                && disk == WithRecord(old(disk), old(memory), draft) && memory == AppendDone(old(memory), draft)
      ensures appended.None? ==> disk == old(disk) && memory == AppendRefused(disk, old(memory), draft)
      ensures old(Valid()) ==>
                if appended.None? || old(AppendSafe(disk))
                then Valid() && History(disk) == old(History(disk)) + (if appended.Some? then [appended.value] else [])
                else History(disk) == old(Settled(disk)) && !ChainOk(disk.log, disk.head)
    {
      hide DiskInv, MemoryInv, History, Settled, ChainOk, AppendProceeds, AppendRefused, AppendSafe, NextPayload,
           NextRecord, WithRecord, AppendDone, Carries, Continues, TextsAllowed, Unchanged;
      ghost var before, files := memory, disk;
      AppendProceedsExactlyWhen(files, before, draft);
      RecordCarriesTheDraft(before, draft);
      if !AppendProceeds(files, before, draft) {
        RefusedFlags(files, before, draft);
      }
      DoneFields(before, draft);
      var payload := NextPayload(memory, draft);
      var refused := Refuses(draft, payload);
      if refused {
        if old(Valid()) {
          RefusedKeeps(files, before, draft);
        }
        return None;
      }
      if old(Valid()) {
        AppendedHistory(files, before, draft);
      }
      FullDoesNotMatter(files, before, draft);
      var record := Commit(draft, payload);
      return Some(record);
    }

    /**
     Rotate: seal the chain in an archive, remove the oldest archives beyond 24, announce the swap, swap in an empty
     chain, clear the announcement. A log over the budget stops it with only the new directory made. The
     whole history is then settled, unless 24 archives have newer names and the new one was removed.
     */
    method Rotate(id: nat) returns (rotated: bool)
      modifies this
      ensures rotated <==> old(RotateProceeds(disk, memory, id))
      ensures rotated ==>
                && disk.log == Some(EMPTY_LOG) && disk.head == Head(NOTHING_SEALED) && disk.mark == None
                && disk.marker == NoMarker
                && memory == FreshMemory(old(memory))
                && memory == Memory(0, NoHash, 0, old(memory.budget), false, false, [], NothingSealed)
      ensures !rotated ==>
                && memory == old(memory)
                && disk == if old(RotateBegins(disk, memory, id)) then Perform(old(disk), MakeArchive(id))
                           else old(disk)
      ensures rotated ==> disk == RotatedAt(old(disk), old(memory), id, 11)
      ensures rotated && !old(Unkept(disk, id)) ==>
                && id in disk.archives
                && var manifest := Manifest(id, old(memory.sequence), old(memory.head),
                                            old(disk.log), old(disk.head), old(disk.mark));
                   disk.archives[id] == Archive(old(disk.log), old(disk.head), old(disk.mark), Some(manifest))
      ensures old(Valid()) ==>
                && Valid() && (rotated ==> Settled(disk) == History(disk))
                && History(disk) == if rotated && old(Unkept(disk, id)) then old(Settled(disk)) else old(History(disk))
    {
      hide DiskInv, MemoryInv, History, Settled, RotatedAt, Perform, RotateWrites, Unkept;
      if memory.quarantined || (memory.sequence == 0 && memory.expectedSize == 0) || id in disk.archives {
        return false;
      }
      ghost var files := disk;
      if memory.budget > 0 && Size(LogOf(disk)) > memory.budget {
        disk := Perform(disk, MakeArchive(id));
        if old(Valid()) {
          DirectoryIsHarmless(files, memory, id);
        }
        return false;
      }
      var writes := RotateWrites(disk, memory, id);
      RotationReaches(disk, memory, id, 11);
      RotationEnds(disk, memory, id);
      for k := 0 to |writes|
        invariant memory == old(memory) && disk == After(files, writes, k)
      {
        disk := Perform(disk, writes[k]);
      }
      memory := FreshMemory(memory);
      return true;
    }

    /** Recent: the newest of the cache first; on a healthy ledger with unchanged files, of the live log. */
    method Recent(limit: int) returns (page: array<Record>)
      ensures page.Length == Min(if limit < 1 then 100 else if limit > 500 then 500 else limit, |memory.recent|)
      ensures forall i :: 0 <= i < page.Length ==> page[i] == memory.recent[|memory.recent| - 1 - i]
      ensures Valid() && !memory.quarantined && disk.marker.NoMarker? && Unchanged(disk, memory) ==>
                && |Sealed(disk.log, disk.head)| == memory.sequence
                && page.Length == Min(if limit < 1 then 100 else if limit > 500 then 500 else limit, memory.sequence)
                && forall i :: 0 <= i < page.Length ==> page[i] == Sealed(disk.log, disk.head)[memory.sequence - 1 - i]
    {
      hide DiskInv, MemoryInv, Sealed, Unchanged;
      if Valid() && !memory.quarantined && disk.marker.NoMarker? && Unchanged(disk, memory) {
        SealedMatchesMemory(disk, memory);
      }
      page := EvidenceTail.Recent(memory.recent, limit);
    }
  }

  lemma SealedMatchesMemory(d: Disk, m: Memory)
    requires DiskInv(d) && MemoryInv(d, m) && !m.quarantined && d.marker.NoMarker? && Unchanged(d, m)
    ensures |Sealed(d.log, d.head)| == m.sequence && m.recent == Tail(Sealed(d.log, d.head), RECENT_LIMIT)
  {
    hide VerifyRecord, LineVerifies;
  }
}
