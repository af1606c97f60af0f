/**
 What is always true of the ledger's files and of a running ledger's memory, and
 why every durable write, complete or interrupted, keeps it so.
 */
module EvidenceInvariant {
  import opened Options
  import opened EvidenceChain
  import opened EvidenceWatermark
  import opened EvidenceDisk

  function SealedCount(head: HeadFile): nat {
    if head.Head? then head.checkpoint.sequence else 0
  }

  predicate NoEmptyLine(lines: seq<Line>) {
    forall i :: 0 <= i < |lines| ==> !lines[i].Blank? && lines[i].size > 0
  }

  /** The live chain: what is sealed verifies, and at most one line follows it. */
  predicate LiveOk(d: Disk) {
    && ChainOk(d.log, d.head)
    && |LogOf(d).lines| <= SealedCount(d.head) + 1
    && NoEmptyLine(LogOf(d).lines)
  }

  /** The watermark of the live chain names a prefix of what is sealed. */
  predicate MarkOk(d: Disk) {
    d.marker.NoMarker? ==> Sound(LogOf(d).lines, Usable(d.mark)) && Position(Usable(d.mark)) <= SealedCount(d.head)
  }

  predicate CompleteArchive(a: Archive) {
    a.manifest.Some? && ChainOk(a.log, a.head)
  }

  /** The archives of the past that retention has not removed are there and complete. */
  predicate ShelfOk(d: Disk) {
    forall i :: 0 <= i < |d.past| && d.past[i].Shelved? ==>
      d.past[i].id in d.archives && CompleteArchive(d.archives[d.past[i].id])
  }

  /** A rotation has replaced the log but not yet the checkpoint. */
  predicate Torn(d: Disk) {
    d.log == Some(EMPTY_LOG) && SealedCount(d.head) > 0
  }

  /** The past is complete; the live chain verifies, or a rotation is half way through replacing it. */
  predicate DiskInv(d: Disk) {
    && ShelfOk(d) && d.overlap <= |Sealed(d.log, d.head)|
    && match d.marker
       case NoMarker => LiveOk(d) && d.overlap == 0
       case BadMarker => false
       case Marker(_, _) => LiveOk(d) || Torn(d)
  }

  /** A healthy ledger whose files look unchanged knows exactly the live chain. */
  predicate MemoryInv(d: Disk, m: Memory) {
    !m.quarantined ==>
      && (m.sequence == 0 <==> m.expectedSize == 0)
      && (Unchanged(d, m) ==>
            && |LogOf(d).lines| == m.sequence
            && m.recent == Tail(Sealed(d.log, d.head), RECENT_LIMIT))
  }

  /** Append continues the chain only when the last line is terminated. */
  predicate AppendSafe(d: Disk) {
    LogOf(d).terminated || LogOf(d).lines == []
  }

  // -------------------------------------------------------------------- sizes

  lemma BytesAppend(lines: seq<Line>, line: Line)
    ensures Bytes(lines + [line]) == Bytes(lines) + line.size + 1
  {
    assert (lines + [line])[..|lines|] == lines;
  }

  lemma SizeZero(log: LogFile)
    requires NoEmptyLine(log.lines)
    ensures Size(log) == 0 <==> log.lines == []
    ensures Size(log) >= |log.lines|
  {
    if log.lines != [] {
      BytesAtLeastLines(log.lines[..|log.lines| - 1]);
    }
  }

  lemma AddLineSize(log: LogFile, line: Line, written: nat)
    requires log.terminated || log.lines == []
    requires line.size > 0
    ensures Size(AddLine(log, line, written)) == Size(log) + Min(written, line.size + 1)
  {
    BytesAppend(log.lines, line);
    BytesAppend(log.lines, Garbage(written));
  }

  lemma {:induction false} NonBlankIsAll(lines: seq<Line>)
    requires NoEmptyLine(lines)
    ensures NonBlank(lines) == lines
  {
    if lines != [] {
      NonBlankIsAll(lines[..|lines| - 1]);
      assert lines == lines[..|lines| - 1] + [lines[|lines| - 1]];
    }
  }

  // ------------------------------------------------------------------ history

  lemma {:induction false} ArchivedFrame(a: map<nat, Archive>, b: map<nat, Archive>, past: seq<Chapter>)
    requires forall i :: 0 <= i < |past| && past[i].Shelved? ==>
               past[i].id in a && past[i].id in b && a[past[i].id] == b[past[i].id]
    ensures Archived(a, past) == Archived(b, past)
  {
    hide Sealed;
    if past != [] {
      ArchivedFrame(a, b, past[..|past| - 1]);
    }
  }

  lemma ArchivedPush(archives: map<nat, Archive>, past: seq<Chapter>, c: Chapter)
    ensures Archived(archives, past + [c]) == Archived(archives, past) + Content(archives, c)
  {
    assert (past + [c])[..|past|] == past;
  }

  /** Longer logs with the same checkpoint seal the same records. */
  lemma SealedGrows(log: LogFile, more: LogFile, c: Checkpoint)
    requires log.lines <= more.lines && c.sequence <= |log.lines|
    ensures Sealed(Some(more), Head(c)) == Sealed(Some(log), Head(c))
  {
    LinkedGrows(log.lines, more.lines, 1, c.sequence, NoHash);
  }

  /** The live chain may change as long as it keeps what it seals, pending rotation or not. */
  lemma LiveChange(d: Disk, log: Option<LogFile>, head: HeadFile)
    requires DiskInv(d) && LiveOk(d) && LiveOk(d.(log := log, head := head))
    requires Sealed(d.log, d.head) <= Sealed(log, head)
    ensures var e := d.(log := log, head := head);
            DiskInv(e) && History(e) == History(d) + Sealed(log, head)[|Sealed(d.log, d.head)|..]
  {
    hide LiveOk, Sealed, ChainOk, Archived;
    var e := d.(log := log, head := head);
    var was, now := Sealed(d.log, d.head), Sealed(log, head);
    assert now[d.overlap..] == was[d.overlap..] + now[|was|..];
    assert Live(e) == Live(d) + now[|was|..];
  }

  // ------------------------------------------------------------------- append

  /** Creating the log file changes nothing that is recorded. */
  lemma OpenedLogHarmless(d: Disk)
    requires DiskInv(d) && LiveOk(d)
    ensures DiskInv(d.(log := Some(LogOf(d)))) && History(d.(log := Some(LogOf(d)))) == History(d)
    ensures Sealed(Some(LogOf(d)), d.head) == Sealed(d.log, d.head) && LiveOk(d.(log := Some(LogOf(d))))
    ensures MarkOk(d) ==> MarkOk(d.(log := Some(LogOf(d))))
  {
    if d.log.None? {
      assert Sealed(Some(EMPTY_LOG), d.head) == [];
    }
    LiveChange(d, Some(LogOf(d)), d.head);
  }

  /** One unsealed line at the end changes neither the chain nor what is recorded. */
  lemma UnsealedLineHarmless(d: Disk, line: Line, newline: bool)
    requires DiskInv(d) && LiveOk(d)
    requires |LogOf(d).lines| == SealedCount(d.head)
    requires !line.Blank? && line.size > 0
    ensures var e := d.(log := Some(LogFile(LogOf(d).lines + [line], newline)));
            && DiskInv(e) && LiveOk(e) && History(e) == History(d) && Sealed(e.log, e.head) == Sealed(d.log, d.head)
            && (MarkOk(d) ==> MarkOk(e))
  {
    hide VerifyRecord, LineVerifies, DiskInv, History;
    var lines := LogOf(d).lines;
    var longer := lines + [line];
    var e := d.(log := Some(LogFile(longer, newline)));
    LinkedGrows(lines, longer, 1, |lines|, NoHash);
    if MarkOk(d) && d.marker.NoMarker? {
      SoundGrows(lines, longer, Usable(d.mark));
    }
    if d.head.Head? {
      SealedGrows(LogOf(d), LogFile(longer, newline), d.head.checkpoint);
    }
    assert Sealed(e.log, e.head) == Sealed(d.log, d.head);
    LiveChange(d, e.log, e.head);
  }

  /** A verified line that the checkpoint then seals extends the history by its record. */
  lemma SealingExtends(d: Disk, record: Record, sequence: nat)
    requires DiskInv(d) && LiveOk(d) && d.log.Some?
    requires sequence == SealedCount(d.head) + 1 == |d.log.value.lines|
    requires var previous := if d.head.Head? then d.head.checkpoint.head else NoHash;
             Open(d.log.value.lines[sequence - 1], sequence) == Some(record) && VerifyRecord(record, sequence, previous)
    ensures var e := Perform(d, PutHead(Checkpoint(RECORD_VERSION, sequence, record.hash)));
            && DiskInv(e) && LiveOk(e) && History(e) == History(d) + [record] && (MarkOk(d) ==> MarkOk(e))
            && Sealed(e.log, e.head) == Sealed(d.log, d.head) + [record]
  {
    hide VerifyRecord, Bytes, Archived, DiskInv, History;
    var e := Perform(d, PutHead(Checkpoint(RECORD_VERSION, sequence, record.hash)));
    SealedRecord(d, record, sequence);
    LiveChange(d, e.log, e.head);
    assert (Sealed(d.log, d.head) + [record])[|Sealed(d.log, d.head)|..] == [record];
  }

  lemma SealedRecord(d: Disk, record: Record, sequence: nat)
    requires LiveOk(d) && d.log.Some? && sequence == SealedCount(d.head) + 1 == |d.log.value.lines|
    requires var previous := if d.head.Head? then d.head.checkpoint.head else NoHash;
             Open(d.log.value.lines[sequence - 1], sequence) == Some(record) && VerifyRecord(record, sequence, previous)
    ensures var e := Perform(d, PutHead(Checkpoint(RECORD_VERSION, sequence, record.hash)));
            && LiveOk(e) && (MarkOk(d) ==> MarkOk(e)) && e == d.(head := e.head)
            && Sealed(e.log, e.head) == Sealed(d.log, d.head) + [record]
  {
    hide VerifyRecord, Bytes, Archived;
    var lines := d.log.value.lines;
    assert LineVerifies(lines, sequence, 1, NoHash);
    assert RecordAt(lines, sequence) == record;
    assert Records(lines, 1, sequence) == Records(lines, 1, sequence - 1) + [record];
    assert Sealed(d.log, d.head) == Records(lines, 1, sequence - 1);
  }

  /** What an Append records is what it was given, at the end of the chain. */
  lemma RecordCarriesTheDraft(m: Memory, draft: Draft)
    ensures Carries(NextRecord(m, draft), draft) && Continues(NextRecord(m, draft), m.sequence, m.head)
  {
  }

  /** What the caller of an Append with this record would have passed. */
  function DraftOf(p: Payload): Draft {
    Draft(p.id, p.time, p.severity, p.kind, p.source, p.message, p.target, p.requestId, "fresh", 1, 1)
  }

  /**
   A record verifies at a place in the chain exactly when an Append there, of allowed texts, makes it, but for
   the case of its hash text.
   */
  lemma VerifiesExactlyWhenAppended(r: Record, sequence: nat, head: Hash)
    ensures VerifyRecord(r, sequence + 1, head) <==>
            && r.hash.Hex? && TextsAllowed(DraftOf(r.payload)) && r.payload.id != "" && r.payload.time != 0
            && r.(hash := Hex(r.hash.digest, 0)) ==
               NextRecord(Memory(sequence, head, 0, 0, false, false, [], Unverified), DraftOf(r.payload))
  {
    var m := Memory(sequence, head, 0, 0, false, false, [], Unverified);
    TextsAreRefusedExactlyWhen(m, DraftOf(r.payload));
  }

  lemma JoinedTexts(a: string, b: string)
    ensures '\0' !in a + b <==> '\0' !in a && '\0' !in b
  {
    if '\0' in a {
      assert '\0' in a + b;
    }
    if '\0' in b {
      assert '\0' in a + b;
    }
  }

  /** Texts are refused exactly when one of the caller's own is missing, too long or holds a zero byte. */
  lemma TextsAreRefusedExactlyWhen(m: Memory, draft: Draft)
    ensures ValidText(NextPayload(m, draft)) <==> TextsAllowed(draft)
  {
    var a := draft.severity + draft.kind;
    var b := a + draft.source;
    var c := b + draft.message;
    var d := c + draft.target;
    JoinedTexts(draft.severity, draft.kind);
    JoinedTexts(a, draft.source);
    JoinedTexts(b, draft.message);
    JoinedTexts(c, draft.target);
    JoinedTexts(d, draft.requestId);
  }

  /** When an Append goes through, over the caller's own texts. */
  lemma AppendProceedsExactlyWhen(d: Disk, m: Memory, draft: Draft)
    ensures AppendProceeds(d, m, draft) <==>
            !m.quarantined && TextsAllowed(draft) && Unchanged(d, m) && m.expectedSize + draft.size + 1 <= m.budget
  {
    hide ValidText, TextsAllowed, Unchanged, NextPayload;
    TextsAreRefusedExactlyWhen(m, draft);
  }

  lemma NextRecordVerifies(m: Memory, draft: Draft)
    requires Sensible(draft) && ValidText(NextPayload(m, draft))
    ensures VerifyRecord(NextRecord(m, draft), m.sequence + 1, m.head)
  {
  }

  /** The disk once `written` bytes of an Append's line have reached the log. */
  function WithBytes(d: Disk, m: Memory, draft: Draft, written: nat): Disk {
    d.(log := Some(AddLine(LogOf(d), Encrypted(m.sequence + 1, NextRecord(m, draft), draft.size), written)))
  }

  /** The disk once the checkpoint seals the appended record as well. */
  function WithRecord(d: Disk, m: Memory, draft: Draft): Disk {
    Perform(WithBytes(d, m, draft, draft.size + 1),
            PutHead(Checkpoint(RECORD_VERSION, m.sequence + 1, NextRecord(m, draft).hash)))
  }

  lemma AppendStopsAt(d: Disk, m: Memory, draft: Draft, k: nat, cut: Cut)
    requires k <= 2
    ensures |AppendWrites(m, draft)| == 2
    ensures Stopped(d, AppendWrites(m, draft), k, cut) ==
            if k == 2 then WithRecord(d, m, draft)
            else WithBytes(d, m, draft, if k == 0 then cut.written else draft.size + 1)
  {
    var ws := AppendWrites(m, draft);
    assert After(d, ws, 0) == d;
    assert After(d, ws, 1) == Perform(d, ws[0]);
    assert After(d, ws, 2) == Perform(After(d, ws, 1), ws[1]);
  }

  /** A ledger about to append knows how many records are sealed, and the log holds just those. */
  lemma ReadyToAppend(d: Disk, m: Memory)
    requires DiskInv(d) && MemoryInv(d, m) && AppendSafe(d) && !m.quarantined && Unchanged(d, m)
    ensures LiveOk(d) && |LogOf(d).lines| == SealedCount(d.head) == m.sequence
    ensures Size(LogOf(d)) == m.expectedSize
    ensures (if d.head.Head? then d.head.checkpoint.head else NoHash) == m.head
    ensures m.recent == Tail(Sealed(d.log, d.head), RECENT_LIMIT)
  {
    hide VerifyRecord, LineVerifies;
  }

  /** Any number of bytes of the line leaves the history alone, and the size tells how many. */
  lemma BytesHarmless(d: Disk, m: Memory, draft: Draft, written: nat)
    requires DiskInv(d) && MemoryInv(d, m) && AppendSafe(d)
    requires Sensible(draft) && AppendProceeds(d, m, draft)
    ensures var e := WithBytes(d, m, draft, written);
            && DiskInv(e) && LiveOk(e) && History(e) == History(d) && Sealed(e.log, e.head) == Sealed(d.log, d.head)
            && (MarkOk(d) ==> MarkOk(e))
            && Size(e.log.value) == m.expectedSize + Min(written, draft.size + 1)
            && |e.log.value.lines| == m.sequence + (if written == 0 then 0 else 1)
            && LogOf(d).lines <= e.log.value.lines
  {
    hide VerifyRecord, ValidText, DiskInv, MemoryInv, History, Sealed, Size, NextRecord, Unchanged;
    ReadyToAppend(d, m);
    var line := Encrypted(m.sequence + 1, NextRecord(m, draft), draft.size);
    AddLineSize(LogOf(d), line, written);
    if written == 0 {
      OpenedLogHarmless(d);
    } else if written < draft.size {
      UnsealedLineHarmless(d, Garbage(written), false);
    } else {
      UnsealedLineHarmless(d, line, written > draft.size);
    }
  }

  /** Both writes of an Append extend the history by exactly its record. */
  lemma RecordSealed(d: Disk, m: Memory, draft: Draft)
    requires DiskInv(d) && MemoryInv(d, m) && AppendSafe(d)
    requires Sensible(draft) && AppendProceeds(d, m, draft)
    ensures var e := WithRecord(d, m, draft);
            && DiskInv(e) && LiveOk(e) && History(e) == History(d) + [NextRecord(m, draft)] && (MarkOk(d) ==> MarkOk(e))
            && Sealed(e.log, e.head) == Sealed(d.log, d.head) + [NextRecord(m, draft)]
  {
    hide VerifyRecord, ValidText, DiskInv, MemoryInv, History, Sealed, Size, NextRecord, Unchanged;
    ReadyToAppend(d, m);
    var mid := WithBytes(d, m, draft, draft.size + 1);
    var r := NextRecord(m, draft);
    BytesHarmless(d, m, draft, draft.size + 1);
    NextRecordVerifies(m, draft);
    assert mid.log.value.lines == LogOf(d).lines + [Encrypted(m.sequence + 1, r, draft.size)];
    SealingExtends(mid, r, m.sequence + 1);
  }

  /** Memory follows the files through a committed Append. */
  lemma RecordAppended(d: Disk, m: Memory, draft: Draft)
    requires DiskInv(d) && MemoryInv(d, m) && AppendSafe(d)
    requires Sensible(draft) && AppendProceeds(d, m, draft)
    ensures var e := WithRecord(d, m, draft);
            && DiskInv(e) && LiveOk(e) && History(e) == History(d) + [NextRecord(m, draft)] && (MarkOk(d) ==> MarkOk(e))
            && Sealed(e.log, e.head) == Sealed(d.log, d.head) + [NextRecord(m, draft)]
            && MemoryInv(e, AppendDone(m, draft)) && Unchanged(e, AppendDone(m, draft))
            && LogOf(d).lines <= LogOf(e).lines && |LogOf(e).lines| == m.sequence + 1
  {
    hide VerifyRecord, ValidText, DiskInv, History, Sealed, Size;
    ReadyToAppend(d, m);
    BytesHarmless(d, m, draft, draft.size + 1);
    RecordSealed(d, m, draft);
    TailOfExtended(Sealed(d.log, d.head), NextRecord(m, draft), RECENT_LIMIT);
  }
}
