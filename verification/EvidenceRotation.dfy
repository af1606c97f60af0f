/**
 Rotation and its completion at start-up (control/evidence_rotation.go): how far
 the files have come after each write, and what each write means for the history.
 */
module EvidenceRotation {
  import opened Options
  import opened EvidenceChain
  import opened EvidenceDisk
  import opened EvidenceInvariant
  import ArchiveRetention

  // ---------------------------------------------------------------- the swap

  /** The files `k` writes into swapping in an empty chain. */
  function SwappedAt(d: Disk, k: nat): Disk {
    d.(log := if k >= 1 then Some(EMPTY_LOG) else d.log, overlap := if k >= 1 then 0 else d.overlap,
       head := if k >= 2 then Head(NOTHING_SEALED) else d.head,
       mark := if k >= 3 then None else d.mark,
       marker := if k >= 4 then NoMarker else d.marker)
  }

  lemma {:induction false} SwapReaches(d: Disk, k: nat)
    requires k <= 4
    ensures |SwapWrites()| == 4
    ensures After(d, SwapWrites(), k) == SwappedAt(d, k)
  {
    if k > 0 {
      SwapReaches(d, k - 1);
    }
  }

  lemma EmptyChainHoldsNothing(head: HeadFile)
    ensures Sealed(Some(EMPTY_LOG), head) == []
  {
  }

  /** Swapping drops what only the live chain holds, with its first write, and nothing else. */
  lemma SwapDropsLive(d: Disk, k: nat)
    requires DiskInv(d) && d.marker.Marker? && k <= 4
    ensures DiskInv(SwappedAt(d, k)) && MarkOk(SwappedAt(d, k))
    ensures History(SwappedAt(d, k)) == if k == 0 then History(d) else Settled(d)
    ensures Settled(SwappedAt(d, k)) == Settled(d)
  {
    hide VerifyRecord, LineVerifies, Archived;
    EmptyChainHoldsNothing(d.head);
    EmptyChainHoldsNothing(Head(NOTHING_SEALED));
  }

  // ------------------------------------------------------------- the rotation

  /** The new archive after `k` writes. */
  function ArchiveAt(d: Disk, m: Memory, id: nat, k: nat): Archive {
    Archive(if k >= 2 then d.log else None, if k >= 3 then d.head else NoHead, if k >= 4 then d.mark else None,
            if k >= 5 then Some(ManifestFor(d, m, id)) else None)
  }

  /** The files `k` writes into a rotation, up to the marker. */
  function SealingAt(d: Disk, m: Memory, id: nat, k: nat): Disk {
    if k <= 5 then d.(archives := if k >= 1 then d.archives[id := ArchiveAt(d, m, id, k)] else d.archives)
    else if k == 6 then Perform(SealingAt(d, m, id, 5), PruneArchives)
    else Perform(SealingAt(d, m, id, 6), PutMarker(id, ManifestFor(d, m, id)))
  }

  function RotatedAt(d: Disk, m: Memory, id: nat, k: nat): Disk {
    if k <= 7 then SealingAt(d, m, id, k) else SwappedAt(SealingAt(d, m, id, 7), k - 7)
  }

  lemma Overwrites(archives: map<nat, Archive>, id: nat, a: Archive, b: Archive)
    ensures archives[id := a][id := b] == archives[id := b]
  {
  }

  /** One more write into the new archive. */
  lemma CopyingStep(d: Disk, m: Memory, id: nat, k: nat)
    requires 1 <= k <= 5
    ensures Perform(SealingAt(d, m, id, k - 1), SealWrites(d, m, id)[k - 1]) == SealingAt(d, m, id, k)
  {
    hide PastWith, Surplus, Archived, Retire;
    if k > 1 {
      Overwrites(d.archives, id, ArchiveAt(d, m, id, k - 1), ArchiveAt(d, m, id, k));
    }
  }

  lemma {:induction false} CopyingReaches(d: Disk, m: Memory, id: nat, k: nat)
    requires id !in d.archives && k <= 5
    ensures |SealWrites(d, m, id)| == 7
    ensures After(d, SealWrites(d, m, id), k) == SealingAt(d, m, id, k)
  {
    hide Perform;
    if k > 0 {
      CopyingReaches(d, m, id, k - 1);
      CopyingStep(d, m, id, k);
    }
  }

  lemma SealingReaches(d: Disk, m: Memory, id: nat, k: nat)
    requires id !in d.archives && k <= 7
    ensures |SealWrites(d, m, id)| == 7
    ensures After(d, SealWrites(d, m, id), k) == SealingAt(d, m, id, k)
  {
    var ws := SealWrites(d, m, id);
    if k <= 5 {
      CopyingReaches(d, m, id, k);
    } else {
      CopyingReaches(d, m, id, 5);
      hide Perform;
      assert After(d, ws, 6) == Perform(After(d, ws, 5), ws[5]);
      assert After(d, ws, 7) == Perform(After(d, ws, 6), ws[6]);
    }
  }

  lemma RotationReaches(d: Disk, m: Memory, id: nat, k: nat)
    requires id !in d.archives && k <= 11
    ensures |RotateWrites(d, m, id)| == 11
    ensures After(d, RotateWrites(d, m, id), k) == RotatedAt(d, m, id, k)
  {
    hide SealingAt, SwappedAt, After, SealWrites;
    SealingReaches(d, m, id, 7);
    AfterConcat(d, SealWrites(d, m, id), SwapWrites(), k);
    if k <= 7 {
      SealingReaches(d, m, id, k);
    } else {
      SwapReaches(SealingAt(d, m, id, 7), k - 7);
    }
  }

  lemma SameLive(d: Disk, e: Disk)
    requires e.log == d.log && e.head == d.head
    ensures LiveOk(e) == LiveOk(d) && Torn(e) == Torn(d)
  {
  }

  /** A new archive, whatever is in it, leaves the past alone. */
  lemma NewArchiveHarmless(d: Disk, id: nat, a: Archive)
    requires DiskInv(d) && id !in d.archives
    ensures var e := d.(archives := d.archives[id := a]);
            DiskInv(e) && History(e) == History(d) && Settled(e) == Settled(d)
  {
    hide LiveOk, ChainOk, Sealed, Torn;
    SameLive(d, d.(archives := d.archives[id := a]));
    ArchivedFrame(d.archives, d.archives[id := a], d.past);
  }

  // ---------------------------------------------------------------- retention

  /** Retiring archives keeps their records, whatever becomes of the files; the others must stay. */
  lemma {:induction false} RetiringKeeps(archives: map<nat, Archive>, past: seq<Chapter>, gone: set<nat>,
                                         rest: map<nat, Archive>)
    requires forall i :: 0 <= i < |past| && past[i].Shelved? && past[i].id !in gone ==>
               past[i].id in archives && past[i].id in rest && rest[past[i].id] == archives[past[i].id]
    ensures Archived(rest, Retire(archives, past, gone)) == Archived(archives, past)
  {
    hide Sealed;
    if past != [] {
      var front := past[..|past| - 1];
      RetiringKeeps(archives, front, gone, rest);
      assert Retire(archives, past, gone)[..|past| - 1] == Retire(archives, front, gone);
    }
  }

  predicate SameIn(a: map<nat, Archive>, b: map<nat, Archive>) {
    forall id :: id in b ==> id in a && b[id] == a[id]
  }

  /** What retention leaves on the shelf. */
  lemma PrunedShelf(d: Disk)
    requires ShelfOk(d)
    ensures var e := Perform(d, PruneArchives);
            && ShelfOk(e) && Settled(e) == Settled(d) && SameIn(d.archives, e.archives)
            && e == d.(archives := d.archives - Surplus(d), past := e.past)
  {
    hide ChainOk, Sealed, Surplus, Archived, CompleteArchive;
    RetiringKeeps(d.archives, d.past, Surplus(d), d.archives - Surplus(d));
  }

  lemma PartlyPrunedShelf(d: Disk, left: map<nat, Option<Archive>>)
    requires ShelfOk(d)
    ensures var e := PartlyPruned(d, left);
            ShelfOk(e) && Settled(e) == Settled(d) && e == d.(archives := e.archives, past := e.past)
  {
    hide ChainOk, Sealed, Surplus, Archived, CompleteArchive;
    RetiringKeeps(d.archives, d.past, left.Keys * Surplus(d), PartlyPruned(d, left).archives);
  }

  /** A crash while retention removes an archive is as harmless. */
  lemma PartlyPruningKeeps(d: Disk, left: map<nat, Option<Archive>>)
    requires DiskInv(d)
    ensures var e := PartlyPruned(d, left);
            && DiskInv(e) && Settled(e) == Settled(d) && History(e) == History(d)
            && e == d.(archives := e.archives, past := e.past)
  {
    hide ChainOk, Sealed, LiveOk, Torn, PartlyPruned, Archived, ShelfOk;
    PartlyPrunedShelf(d, left);
    SameLive(d, PartlyPruned(d, left));
  }

  /**
   Retention turns chapters of the past into removed ones and changes nothing else: what was recorded,
   and in which order, stays, whatever the names of the archives.
   */
  lemma PruningKeeps(d: Disk)
    requires DiskInv(d)
    ensures var e := Perform(d, PruneArchives);
            && DiskInv(e) && Settled(e) == Settled(d) && History(e) == History(d) && SameIn(d.archives, e.archives)
            && e == d.(archives := d.archives - Surplus(d), past := e.past)
  {
    hide ChainOk, Sealed, LiveOk, Torn, Surplus, Perform, Archived, ShelfOk;
    PrunedShelf(d);
    SameLive(d, Perform(d, PruneArchives));
  }

  /** Retention prefers so many archives to the new one that it goes at once. */
  predicate Unkept(d: Disk, id: nat) {
    Some(id) != Protected(d) &&
    |ArchiveRetention.Outlasting(CompleteIds(d.archives) + {id}, id, Protected(d))| >= RETENTION
  }

  lemma CompleteWithNew(d: Disk, m: Memory, id: nat)
    requires id !in d.archives
    ensures CompleteIds(SealingAt(d, m, id, 5).archives) == CompleteIds(d.archives) + {id}
  {
  }

  /**
   An archive goes exactly when it is complete, not protected, and 24 others, the new one counted, are
   preferred to it.
   */
  lemma SurplusIs(d: Disk, m: Memory, id: nat, a: nat)
    requires id !in d.archives && (a in d.archives || a == id)
    ensures a in Surplus(SealingAt(d, m, id, 5)) <==>
            && a in CompleteIds(d.archives) + {id} && Some(a) != Protected(d)
            && |ArchiveRetention.Outlasting(CompleteIds(d.archives) + {id}, a, Protected(d))| >= RETENTION
  {
    hide ArchiveRetention.Outlasting, ArchiveAt;
    CompleteWithNew(d, m, id);
    var complete := CompleteIds(d.archives) + {id};
    if a in complete {
      ArchiveRetention.RemovedExactlyWhen(complete, a, Protected(d), RETENTION);
    }
  }

  /** The archives after a rotation came to its retention. */
  lemma RotationArchives(d: Disk, m: Memory, id: nat, k: nat)
    requires id !in d.archives && k <= 11
    ensures k < 6 ==> SameIn(RotatedAt(d, m, id, k).archives, d.archives)
    ensures k >= 6 ==>
              RotatedAt(d, m, id, k).archives
                  == d.archives[id := ArchiveAt(d, m, id, 5)] - Surplus(SealingAt(d, m, id, 5))
  {
    hide Surplus, Archived, PastWith, Retire, ArchiveAt, Files;
    if k >= 6 {
      var five, six := SealingAt(d, m, id, 5), SealingAt(d, m, id, 6);
      assert six == Perform(five, PruneArchives);
      MarkerWritten(six, id, ManifestFor(d, m, id));
      assert SealingAt(d, m, id, 7) == Perform(six, PutMarker(id, ManifestFor(d, m, id)));
    }
  }

  /** The new archive survives its own retention exactly when fewer than 24 complete archives are preferred to it. */
  lemma NewArchiveStaysExactlyWhen(d: Disk, m: Memory, id: nat, k: nat)
    requires id !in d.archives && 6 <= k <= 11
    ensures id in RotatedAt(d, m, id, k).archives <==> !Unkept(d, id)
    ensures !Unkept(d, id) ==> RotatedAt(d, m, id, k).archives[id] == ArchiveAt(d, m, id, 5)
  {
    hide ArchiveRetention.Outlasting, ArchiveAt, Surplus, RotatedAt, SealingAt;
    RotationArchives(d, m, id, k);
    SurplusIs(d, m, id, id);
  }

  // --------------------------------------------------------------- the marker

  lemma MarkerWritten(d: Disk, id: nat, digest: Manifest)
    ensures var e := Perform(d, PutMarker(id, digest));
            && e.archives == d.archives && e.marker == Marker(id, digest)
            && e.log == d.log && e.head == d.head && e.mark == d.mark
  {
  }

  lemma WholeChain(d: Disk)
    requires DiskInv(d)
    ensures LiveOk(d) || Torn(d)
    ensures LiveOk(d) ==> ChainOk(d.log, d.head)
    ensures !ChainOk(d.log, d.head) ==> Sealed(d.log, d.head) == []
  {
  }

  /** The marker names an archive that repeats the live chain: everything recorded is then settled. */
  lemma MarkerFilesTheChain(d: Disk, id: nat, digest: Manifest)
    requires DiskInv(d) && id in d.archives && d.archives[id].manifest.Some?
    requires d.archives[id].log == d.log && d.archives[id].head == d.head
    ensures var e := Perform(d, PutMarker(id, digest));
            DiskInv(e) && Settled(e) == History(d) && History(e) == History(d)
  {
    hide Archived, LiveOk, Torn, ChainOk, Sealed;
    var e := Perform(d, PutMarker(id, digest));
    SameLive(d, e);
    WholeChain(d);
    if Files(d, id) {
      ArchivedPush(d.archives, d.past, Shelved(id, d.overlap));
    }
  }

  /** A marker whose archive is gone settles nothing. */
  lemma MarkerStrands(d: Disk, id: nat, digest: Manifest)
    requires DiskInv(d) && id !in d.archives
    ensures var e := Perform(d, PutMarker(id, digest));
            DiskInv(e) && Settled(e) == Settled(d) && History(e) == History(d) && FinishWrites(e).None?
  {
    hide Archived, LiveOk, Torn, ChainOk, Sealed;
    var e := Perform(d, PutMarker(id, digest));
    SameLive(d, e);
    WholeChain(d);
  }

  lemma SealedAndPruned(d: Disk, m: Memory, id: nat)
    requires DiskInv(d) && id !in d.archives
    ensures var e := SealingAt(d, m, id, 6);
            && DiskInv(e) && History(e) == History(d) && Settled(e) == Settled(d)
            && e == d.(archives := e.archives, past := e.past)
  {
    hide DiskInv, History, Settled, Perform, ArchiveAt, Surplus;
    NewArchiveHarmless(d, id, ArchiveAt(d, m, id, 5));
    PruningKeeps(SealingAt(d, m, id, 5));
  }

  /**
   Until the marker is written nothing recorded changes. Writing it files the whole live chain, complete, with
   the past, unless retention has removed the new archive: then it names nothing, and every start will refuse.
   */
  lemma MarkerCommits(d: Disk, m: Memory, id: nat)
    requires DiskInv(d) && id !in d.archives
    ensures var e := SealingAt(d, m, id, 6);
            && DiskInv(e) && History(e) == History(d) && Settled(e) == Settled(d)
            && e == d.(archives := e.archives, past := e.past)
    ensures var e := SealingAt(d, m, id, 7);
            && DiskInv(e) && History(e) == History(d) && e.marker == Marker(id, ManifestFor(d, m, id))
            && e.log == d.log && e.head == d.head && e.mark == d.mark
            && (if Unkept(d, id) then Settled(e) == Settled(d) && FinishWrites(e).None?
                else Settled(e) == History(d) && id in e.archives && e.archives[id] == ArchiveAt(d, m, id, 5))
  {
    hide DiskInv, History, Settled, Perform, Unkept, FinishWrites, Files;
    var six := SealingAt(d, m, id, 6);
    SealedAndPruned(d, m, id);
    NewArchiveStaysExactlyWhen(d, m, id, 6);
    MarkerWritten(six, id, ManifestFor(d, m, id));
    if Unkept(d, id) {
      MarkerStrands(six, id, ManifestFor(d, m, id));
    } else {
      MarkerFilesTheChain(six, id, ManifestFor(d, m, id));
    }
  }

  // --------------------------------------------------------------- all of it

  /**
   A rotation after any of its writes. It keeps the whole history, unless retention has removed its own archive and
   the log is replaced: then only the settled past is left.
   */
  lemma RotationKeeps(d: Disk, m: Memory, id: nat, k: nat)
    requires DiskInv(d) && id !in d.archives && k <= 11
    ensures var e := RotatedAt(d, m, id, k);
            && DiskInv(e) && History(e) == (if k >= 8 && Unkept(d, id) then Settled(d) else History(d))
            && (MarkOk(d) ==> MarkOk(e)) && (k >= 7 && !Unkept(d, id) ==> Settled(e) == History(d))
  {
    hide DiskInv, History, Settled, Perform, Live, Unkept, FinishWrites;
    if k == 0 {
    } else if k < 6 {
      NewArchiveHarmless(d, id, ArchiveAt(d, m, id, k));
    } else {
      MarkerCommits(d, m, id);
      if k >= 7 {
        SwapDropsLive(SealingAt(d, m, id, 7), k - 7);
      }
    }
  }

  /** Where a rotation stops: only copying the log and removing archives can be interrupted half way. */
  function StoppedAt(d: Disk, m: Memory, id: nat, k: nat, cut: Cut): Disk {
    if k == 1 then d.(archives := d.archives[id := EMPTY_ARCHIVE.(log := cut.debris)])
    else if k == 5 then PartlyPruned(SealingAt(d, m, id, 5), cut.left)
    else RotatedAt(d, m, id, k)
  }

  lemma RotationStopsAt(d: Disk, m: Memory, id: nat, k: nat, cut: Cut)
    requires id !in d.archives && k <= 11
    ensures |RotateWrites(d, m, id)| == 11
    ensures Stopped(d, RotateWrites(d, m, id), k, cut) == StoppedAt(d, m, id, k, cut)
  {
    hide Perform, PastWith, PartlyPruned;
    var ws := RotateWrites(d, m, id);
    RotationReaches(d, m, id, k);
    var before := After(d, ws, k);
    if k == 1 {
      assert ws[1] == CopyLog(id);
      Overwrites(d.archives, id, EMPTY_ARCHIVE, EMPTY_ARCHIVE.(log := cut.debris));
    } else if k < 11 && k != 5 {
      assert !ws[k].AppendLine? && !ws[k].CopyLog? && !ws[k].PruneArchives?;
      assert Interrupt(before, ws[k], cut) == before;
    }
  }

  /** A rotation stopped in any write keeps the invariant and, with the same exception, the history. */
  lemma RotationStopped(d: Disk, m: Memory, id: nat, k: nat, cut: Cut)
    requires DiskInv(d) && id !in d.archives && k <= 11
    ensures var e := StoppedAt(d, m, id, k, cut);
            && DiskInv(e) && History(e) == (if k >= 8 && Unkept(d, id) then Settled(d) else History(d))
            && (MarkOk(d) ==> MarkOk(e))
            && (k < 7 ==> e == d.(archives := e.archives, past := e.past) && Settled(e) == Settled(d))
  {
    hide DiskInv, History, Unkept, Settled, PartlyPruned, Perform, ArchiveAt;
    if k == 1 {
      NewArchiveHarmless(d, id, EMPTY_ARCHIVE.(log := cut.debris));
    } else if k == 5 {
      NewArchiveHarmless(d, id, ArchiveAt(d, m, id, 5));
      PartlyPruningKeeps(SealingAt(d, m, id, 5), cut.left);
    } else {
      RotationKeeps(d, m, id, k);
      if 0 < k < 6 {
        NewArchiveHarmless(d, id, ArchiveAt(d, m, id, k));
      } else if k == 6 {
        SealedAndPruned(d, m, id);
      }
    }
  }
}
