/**
 Runs from a first installation that reach the situations in which the ledger does
 less than one would expect.
 */
module EvidenceWitnesses {
  import opened Options
  import opened EvidenceChain
  import opened EvidenceDisk
  import opened EvidenceInvariant
  import opened EvidenceRotation
  import opened EvidenceStart
  import opened EvidenceRuns
  import opened EvidenceRestarts
  import opened EvidenceWatermark
  import opened EvidencePasses
  import opened EvidenceRetention
  import ArchiveRetention

  const SAMPLE := Draft("id", 1, "info", "kind", "source", "message", "", "", "fresh", 1, 10)
  const BUDGET: nat := 67_108_864 // 64 MiB, the least a start uses

  lemma SampleText(m: Memory)
    ensures ValidText(NextPayload(m, SAMPLE)) && Sensible(SAMPLE)
  {
  }

  // ----------------------------------------------------------- the first states

  /** A ledger that started on nothing. */
  lemma StartedLedger() returns (s: State)
    ensures Enabled(FIRST_INSTALL, Start(BUDGET)) && s == Next(FIRST_INSTALL, Start(BUDGET)) && Inv(s)
    ensures s == State(FIRST_INSTALL.disk, Up(Memory(0, NoHash, 0, BUDGET, false, false, [], NothingSealed), None))
    ensures AppendProceeds(s.disk, s.process.memory, SAMPLE) && AppendSafe(s.disk)
  {
    hide ValidText;
    FirstInstallInv();
    var d := FIRST_INSTALL.disk;
    assert After(d, [], 0) == d;
    assert StartWrites(d, BUDGET) == [];
    EveryStepIsGood(FIRST_INSTALL, Start(BUDGET));
    s := Next(FIRST_INSTALL, Start(BUDGET));
    SampleText(s.process.memory);
  }

  /** One record further on. */
  lemma LedgerWithOneRecord(s: State) returns (t: State)
    requires Inv(s) && s.process.Up? && AppendProceeds(s.disk, s.process.memory, SAMPLE) && AppendSafe(s.disk)
    requires s.process.memory.sequence == 0 == s.process.memory.expectedSize
    requires s.process.memory.budget == BUDGET && LogOf(s.disk).lines == []
    ensures Enabled(s, Append(SAMPLE)) && t == Next(s, Append(SAMPLE)) && Inv(t) && t.process.Up?
    ensures t.process.pass == s.process.pass
    ensures var d, m := t.disk, t.process.memory;
            && m.sequence == 1 && m.expectedSize == 11 == Size(LogOf(d)) && m.budget == BUDGET && !m.quarantined
            && AppendProceeds(d, m, SAMPLE) && AppendSafe(d) && d == s.disk.(log := d.log, head := d.head)
            && d.head.Head? && SealedCount(d.head) == 1
            && LogOf(d).lines == [Encrypted(1, NextRecord(s.process.memory, SAMPLE), 10)]
  {
    hide ValidText, VerifyRecord, LineVerifies, DiskInv, MemoryInv, History, Sealed, NextRecord, Linked, Bytes;
    t := Next(s, Append(SAMPLE));
    SampleText(t.process.memory);
    RecordAppended(s.disk, s.process.memory, SAMPLE);
    EveryStepIsGood(s, Append(SAMPLE));
    ReadyToAppend(t.disk, t.process.memory);
  }

  // ------------------------------------------------------------- a lost newline

  const TORN := AppendStops(SAMPLE, 0, Cut(10, None, map[]), true)

  /** The files after a crash that lost only the newline. */
  lemma TornFiles(t: State)
    requires Inv(t) && t.process.Up? && AppendProceeds(t.disk, t.process.memory, SAMPLE) && AppendSafe(t.disk)
    requires t.disk.marker.NoMarker? && t.process.memory.sequence == 1 && t.process.memory.expectedSize == 11
    ensures Enabled(t, TORN)
    ensures var e := Next(t, TORN).disk;
            && e == Crashed(t.disk, t.process.memory, SAMPLE, 0, Cut(10, None, map[]))
            && DiskInv(e) && e.marker.NoMarker? && OrphanVerifies(e) && SealedCount(e.head) == 1
            && e.log.Some? && |e.log.value.lines| == 2 && !e.log.value.terminated && Size(e.log.value) == 21
  {
    hide ValidText, VerifyRecord, LineVerifies, DiskInv, MemoryInv, History, Sealed, NextRecord, Linked,
         AppendProceeds, Size, OrphanVerifies, Stopped, AppendWrites;
    var d, m := t.disk, t.process.memory;
    SampleText(m);
    CrashedIs(d, m, SAMPLE, 0, Cut(10, None, map[]));
    OrphanIsTheRecord(d, m, SAMPLE, 0, Cut(10, None, map[]));
    CrashedDisk(d, m, SAMPLE, 0, Cut(10, None, map[]));
    CrashedLines(d, m, SAMPLE, 0, Cut(10, None, map[]));
    BytesHarmless(d, m, SAMPLE, 10);
  }

  /** The restart adopts the record without its newline and is ready to append. */
  lemma AdoptedLedger(t: State) returns (u: State)
    requires Inv(t) && t.process.Up? && AppendProceeds(t.disk, t.process.memory, SAMPLE) && AppendSafe(t.disk)
    requires t.disk.marker.NoMarker? && t.process.memory.sequence == 1 && t.process.memory.expectedSize == 11
    requires t.process.memory.budget == BUDGET
    ensures Enabled(t, TORN) && Enabled(Next(t, TORN), Start(BUDGET)) && u == Next(Next(t, TORN), Start(BUDGET))
    ensures Inv(u) && u.process.Up? && !AppendSafe(u.disk) && u.disk.marker.NoMarker?
    ensures AppendProceeds(u.disk, u.process.memory, SAMPLE)
  {
    hide ValidText, VerifyRecord, LineVerifies, DiskInv, MemoryInv, History, Sealed, NextRecord, Linked,
         AppendProceeds, Size, OrphanVerifies, Stopped, AppendWrites, StartVerdict, Started, Recovered, Finished,
         Crashed, Unchanged, StartsHealthy;
    TornFiles(t);
    var e := Next(t, TORN).disk;
    u := Next(Next(t, TORN), Start(BUDGET));
    FinishKeeps(e);
    StartIsHealthy(e, BUDGET);
    StartedIs(e, BUDGET);
    RecoveryIs(e, BUDGET);
    assert StartsHealthy(e, BUDGET) by { HealthyStart(e); }
    SampleText(u.process.memory);
    SmallEnough(u.disk, u.process.memory, SAMPLE);
  }

  lemma HealthyStart(e: Disk)
    requires Finished(e) == e && e.marker.NoMarker? && SealedCount(e.head) > 0 && Size(LogOf(e)) <= BUDGET
    ensures StartsHealthy(e, BUDGET)
  {
  }

  lemma SmallEnough(d: Disk, m: Memory, draft: Draft)
    requires !m.quarantined && Unchanged(d, m) && ValidText(NextPayload(m, draft)) && m.budget == BUDGET
    requires d.log.Some? && Size(d.log.value) == 21 && draft.size == 10
    ensures AppendProceeds(d, m, draft)
  {
  }

  /**
   A run in which an Append destroys a record that the ledger holds, and acknowledges one that it does not: one
   record, a crash that loses only the newline of the second, a restart, a third.
   */
  lemma TornNewlineIsReachable() returns (states: seq<State>, events: seq<Event>)
    ensures Run(states, events) && states[0] == FIRST_INSTALL && |events| == 5
    ensures Acknowledged(states[1], events[1]) && AppendSafe(states[1].disk)
    ensures var k := |events| - 1;
            k >= 0 && Acknowledged(states[k], events[k]) && Destroys(states[k], events[k])
                && !Lossless(states, events, |events|)
            && |History(states[k + 1].disk)| < |History(states[k].disk)|
  {
    hide ValidText, VerifyRecord, LineVerifies, DiskInv, MemoryInv, History, Sealed, NextRecord, Linked,
         AppendProceeds, Size, Next, Inv;
    var s := StartedLedger();
    var t := LedgerWithOneRecord(s);
    var u := AdoptedLedger(t);
    var v := Next(u, Append(SAMPLE));
    states := [FIRST_INSTALL, s, t, Next(t, TORN), u, v];
    events := [Start(BUDGET), Append(SAMPLE), TORN, Start(BUDGET), Append(SAMPLE)];
    DestroyedIsShorter(u);
  }

  lemma DestroyedIsShorter(u: State)
    requires Inv(u) && u.process.Up? && !AppendSafe(u.disk) && AppendProceeds(u.disk, u.process.memory, SAMPLE)
    requires u.disk.marker.NoMarker?
    ensures Enabled(u, Append(SAMPLE)) && Destroys(u, Append(SAMPLE))
    ensures |History(Next(u, Append(SAMPLE)).disk)| < |History(u.disk)|
  {
    hide ValidText, VerifyRecord, LineVerifies, DiskInv, NextRecord, Linked, AppendProceeds, Size, Next, Archived,
         Records;
    SampleText(u.process.memory);
    DestroyingLoses(u, Append(SAMPLE));
    UnterminatedIsLive(u);
  }

  lemma UnterminatedIsLive(u: State)
    requires Inv(u) && u.process.Up? && !AppendSafe(u.disk) && AppendProceeds(u.disk, u.process.memory, SAMPLE)
    requires u.disk.marker.NoMarker?
    ensures |Settled(u.disk)| < |History(u.disk)|
  {
    hide ValidText, VerifyRecord, LineVerifies, NextRecord, Linked, Size, Archived;
    UnterminatedChain(u.disk, u.process.memory);
    assert |Sealed(u.disk.log, u.disk.head)| > 0;
  }

  // ------------------------------------------------- a marker that was not deleted

  const UNCLEARED := RotateStops(7, 10, Cut(0, None, map[]), false)

  /**
   The rotation is complete but for its marker, whose deletion failed; the ledger goes on and acknowledges a
   record, which the next start drops.
   */
  lemma PendingMarkerIsReachable() returns (states: seq<State>, events: seq<Event>)
    ensures Run(states, events) && states[0] == FIRST_INSTALL && |events| == 6
    ensures Acknowledged(states[3], events[3]) && AppendSafe(states[3].disk) && DropsLive(states[5], events[5])
    ensures var r := NextRecord(states[3].process.memory, events[3].draft);
            History(states[4].disk) == History(states[3].disk) + [r]
                && History(states[6].disk) == History(states[3].disk)
  {
    hide ValidText, VerifyRecord, LineVerifies, DiskInv, MemoryInv, History, Sealed, NextRecord, Linked,
         AppendProceeds, Size, Next, Inv, AppendSafe, Live;
    var s := StartedLedger();
    var t := LedgerWithOneRecord(s);
    UnclearedLedger(t);
    var u := Next(t, UNCLEARED);
    var v := UnclearedAppend(u);
    states := [FIRST_INSTALL, s, t, u, v, State(v.disk, Down), Next(State(v.disk, Down), Start(BUDGET))];
    events := [Start(BUDGET), Append(SAMPLE), UNCLEARED, Append(SAMPLE), Kill, Start(BUDGET)];
  }

  lemma UnclearedLedger(t: State)
    requires Inv(t) && t.process.Up? && !t.process.memory.quarantined && t.process.memory.sequence == 1
    requires t.process.memory.budget == BUDGET && Size(LogOf(t.disk)) == 11 && t.disk.archives == map[]
    requires t.disk.marker.NoMarker?
    ensures Enabled(t, UNCLEARED)
    ensures var u := Next(t, UNCLEARED);
            && Inv(u) && u.process.Up? && u.disk.marker.Marker? && FinishWrites(u.disk).Some?
            && AppendProceeds(u.disk, u.process.memory, SAMPLE) && Enabled(u, Append(SAMPLE))
            && AppendSafe(u.disk) && Live(u.disk) == []
  {
    hide ValidText, VerifyRecord, LineVerifies, DiskInv, MemoryInv, History, Sealed, NextRecord, Linked,
         RotateWrites, Stopped, RotatedAt, StoppedAt, SealingAt, MarkInv, Unkept, FinishWrites;
    var d, m := t.disk, t.process.memory;
    FewArchivesStay(d, 7);
    RotationStopsAt(d, m, 7, 10, Cut(0, None, map[]));
    LateStop(d, m, 7, 10, Cut(0, None, map[]));
    EveryStepIsGood(t, UNCLEARED);
    RotatedLive(d, m, 7, 10);
    EmptyChainHoldsNothing(Head(NOTHING_SEALED));
    SampleText(FreshMemory(m));
    assert Next(t, UNCLEARED).disk == RotatedAt(d, m, 7, 10);
    MarkerIsCleared(d);
    StrandsExactlyWhen(t, UNCLEARED);
  }

  lemma MarkerIsCleared(d: Disk)
    requires d.marker.NoMarker?
    ensures FinishWrites(d).Some?
  {
  }

  lemma UnclearedAppend(u: State) returns (v: State)
    requires Inv(u) && u.process.Up? && u.disk.marker.Marker?
    requires AppendProceeds(u.disk, u.process.memory, SAMPLE) && Enabled(u, Append(SAMPLE))
    requires AppendSafe(u.disk) && Live(u.disk) == [] && FinishWrites(u.disk).Some?
    ensures v == Next(u, Append(SAMPLE))
    ensures Enabled(v, Kill) && Next(v, Kill) == State(v.disk, Down) && DropsLive(State(v.disk, Down), Start(BUDGET))
    ensures History(v.disk) == History(u.disk) + [NextRecord(u.process.memory, SAMPLE)]
    ensures History(Next(State(v.disk, Down), Start(BUDGET)).disk) == History(u.disk)
  {
    hide ValidText, VerifyRecord, LineVerifies, DiskInv, MemoryInv, Sealed, NextRecord, Linked, AppendProceeds,
         AppendSafe, Archived, Live, Started, MarkInv;
    v := Next(u, Append(SAMPLE));
    assert !Destroys(u, Append(SAMPLE));
    EveryStepIsGood(u, Append(SAMPLE));
    assert Settled(v.disk) == Settled(u.disk) && v.disk.marker == u.disk.marker;
    DroppingLoses(State(v.disk, Down), Start(BUDGET));
  }

  // --------------------------------------------------------------- an overtaken pass

  const OTHER := SAMPLE.(message := "other")

  /** A pass walks the one record of the ledger and is about to store its watermark. */
  lemma WalkedLedger(t: State) returns (a: State, b: State, c: State)
    requires Inv(t) && MarkInv(t) && t.process.Up? && t.process.pass.None? && !t.process.memory.quarantined
    requires t.process.memory.budget == BUDGET
    requires t.disk.marker.NoMarker? && t.disk.mark == None && t.disk.head.Head?
    requires SealedCount(t.disk.head) == 1 && Size(LogOf(t.disk)) == 11
    ensures Enabled(t, BeginPass(0)) && a == Next(t, BeginPass(0)) && Enabled(a, AnchorPass) && b == Next(a, AnchorPass)
    ensures Enabled(b, WalkPass) && c == Next(b, WalkPass) && Inv(c) && MarkInv(c)
    ensures c.disk == t.disk && c.process.Up? && c.process.memory == t.process.memory
    ensures c.process.pass.Some? && c.process.pass.value.Ready? && c.process.pass.value.mark.sequence == 1
  {
    hide ValidText, VerifyRecord, LineVerifies, DiskInv, MemoryInv, History, Sealed, Linked, AppendProceeds, Size,
         Pass, PassInv, MarkOk, RotateProceeds;
    a := Next(t, BeginPass(0));
    CheckpointVersion(t.disk);
    EveryStepIsGood(t, BeginPass(0));
    b := Next(a, AnchorPass);
    EveryStepIsGood(a, AnchorPass);
    c := Next(b, WalkPass);
    EveryStepIsGood(b, WalkPass);
    OneRecordWalk(t.disk, b.process.pass.value);
  }

  lemma CheckpointVersion(d: Disk)
    requires DiskInv(d) && d.marker.NoMarker? && d.head.Head?
    ensures d.head.checkpoint.version == RECORD_VERSION
  {
  }

  lemma OneRecordWalk(d: Disk, p: Flight)
    requires DiskInv(d) && d.marker.NoMarker? && d.head.Head? && SealedCount(d.head) == 1 && Size(LogOf(d)) == 11
    requires p == Anchored(1, None, 0, BUDGET)
    ensures var r := Pass(d.log, BUDGET, 1, None, 0); r.Advanced? && r.mark.sequence == 1
  {
    hide VerifyRecord, LineVerifies, Size;
    PassExtends(Snapshot(d.log.value, 1), BUDGET, None, DEFAULT_CHUNK);
  }

  /** A rotation empties the chain, and the pass stores its watermark beside the new one. */
  lemma OvertakenLedger(c: State) returns (r: State, w: State)
    requires Inv(c) && MarkInv(c) && Enabled(c, CommitPass) && c.disk.marker.NoMarker? && c.disk.archives == map[]
    requires var m := c.process.memory;
             !m.quarantined && m.budget == BUDGET && m.sequence == 1 && Size(LogOf(c.disk)) == 11
    ensures Enabled(c, Rotate(7)) && r == Next(c, Rotate(7)) && Enabled(r, CommitPass)
    ensures w == Next(r, CommitPass) && Inv(w)
    ensures var d := w.disk; d.log == Some(EMPTY_LOG) && d.head == Head(NOTHING_SEALED) && d.marker == NoMarker
    ensures Usable(w.disk.mark) == Some(c.process.pass.value.mark)
    ensures w.process.Up? && w.process.pass.None?
    ensures w.process.memory == FreshMemory(c.process.memory).(scope := w.process.memory.scope)
  {
    hide ValidText, VerifyRecord, LineVerifies, DiskInv, MemoryInv, History, Sealed, Linked, AppendProceeds, Size,
         RotatedAt, PassInv, MarkOk;
    r := Next(c, Rotate(7));
    w := Next(r, CommitPass);
    RotatedLive(c.disk, c.process.memory, 7, 11);
    EveryStepIsGood(c, Rotate(7));
    EveryStepIsGood(r, CommitPass);
    PassAcrossRotationIsUnsound(c, 7);
  }

  /** Another first record of the new chain. */
  lemma OtherRecord(w: State) returns (x: State)
    requires Inv(w) && w.process.Up? && w.disk.log == Some(EMPTY_LOG) && w.disk.head == Head(NOTHING_SEALED)
    requires w.disk.marker == NoMarker
    requires var m := w.process.memory;
             m.sequence == 0 == m.expectedSize && m.head == NoHash && !m.quarantined && m.budget == BUDGET
    ensures Enabled(w, Append(OTHER)) && Acknowledged(w, Append(OTHER)) && !Loses(w, Append(OTHER))
    ensures x == Next(w, Append(OTHER)) && Inv(x)
    ensures x.process == w.process.(memory := AppendDone(w.process.memory, OTHER))
    ensures x.disk == w.disk.(log := x.disk.log, head := x.disk.head)
    ensures x.disk.head.Head? && SealedCount(x.disk.head) == 1 && Size(LogOf(x.disk)) == 11
    ensures LogOf(x.disk).lines == [Encrypted(1, NextRecord(w.process.memory, OTHER), 10)]
  {
    hide ValidText, VerifyRecord, LineVerifies, DiskInv, MemoryInv, History, Sealed, NextRecord, Linked, Bytes;
    SampleText(w.process.memory);
    OtherText(w.process.memory);
    EmptyIsUnchanged(w.disk, w.process.memory);
    x := Next(w, Append(OTHER));
    RecordAppended(w.disk, w.process.memory, OTHER);
    EveryStepIsGood(w, Append(OTHER));
  }

  lemma EmptyIsUnchanged(d: Disk, m: Memory)
    requires d.log == Some(EMPTY_LOG) && d.head == Head(NOTHING_SEALED) && m.sequence == 0 == m.expectedSize
    requires m.head == NoHash
    ensures Unchanged(d, m)
  {
  }

  lemma OtherText(m: Memory)
    ensures ValidText(NextPayload(m, OTHER)) && Sensible(OTHER)
  {
  }

  lemma UnnamedIsUnsound(d: Disk)
    requires d.marker.NoMarker? && Usable(d.mark).Some? && !Names(LogOf(d).lines, Usable(d.mark).value)
    ensures !MarkOk(d)
  {
  }

  lemma OtherIsAnother(m: Memory, n: Memory, mark: Watermark)
    requires mark.sequence == 1 && Names([Encrypted(1, NextRecord(m, SAMPLE), 10)], mark)
    ensures !Names([Encrypted(1, NextRecord(n, OTHER), 10)], mark)
  {
    hide ValidText;
  }

  /**
   One record, a pass that a rotation overtakes after the walk, one other record: the stored watermark names
   nothing of the new chain, and the next pass reports that chain as completely verified without reading its record.
   */
  lemma OvertakenPassIsReachable() returns (states: seq<State>, events: seq<Event>)
    ensures Run(states, events) && states[0] == FIRST_INSTALL && |events| == 8 && Lossless(states, events, 8)
    ensures var d := states[8].disk;
            d.mark.Some? && !MarkOk(d) && !Names(LogOf(d).lines, d.mark.value) && SealedCount(d.head) == 1
    ensures CanPass(states[8]) && AfterWalk(states[8], 0, Undisturbed).process.memory.scope == Full
  {
    hide ValidText, VerifyRecord, LineVerifies, DiskInv, MemoryInv, History, Sealed, NextRecord, Linked,
         AppendProceeds, Size, Next, MarkOk, Names, AppendSafe, RotateProceeds, AfterWalk;
    var s := StartedLedger();
    FirstInstallInv();
    EveryStepIsGood(FIRST_INSTALL, Start(BUDGET));
    var t := LedgerWithOneRecord(s);
    EveryStepIsGood(s, Append(SAMPLE));
    var a, b, c := WalkedLedger(t);
    var r, w := OvertakenLedger(c);
    var x := OtherRecord(w);
    OtherIsAnother(s.process.memory, w.process.memory, c.process.pass.value.mark);
    states := [FIRST_INSTALL, s, t, a, b, c, r, w, x];
    events := [Start(BUDGET), Append(SAMPLE), BeginPass(0), AnchorPass, WalkPass, Rotate(7), CommitPass, Append(OTHER)];
    OvertakenPassMisleads(x, c.process.pass.value.mark, 0);
    assert !MarkOk(x.disk) by { UnnamedIsUnsound(x.disk); }
    forall k | 0 <= k < 8
      ensures Enabled(states[k], events[k]) && states[k + 1] == Next(states[k], events[k])
      ensures !Loses(states[k], events[k])
    {
      hide Enabled, Inv, CanPass;
    }
  }

  /** One record, and a rotation between the reads of a pass and its walk: the healthy ledger is quarantined. */
  lemma RotationBeforeWalkQuarantines() returns (s: State, t: State)
    ensures Run([FIRST_INSTALL, s, t], [Start(BUDGET), Append(SAMPLE)]) && CanPass(t)
    ensures !AfterWalk(t, 0, Undisturbed).process.memory.quarantined
    ensures AfterWalk(t, 0, AfterWatermark(7)).process.memory.quarantined
  {
    hide ValidText, VerifyRecord, LineVerifies, DiskInv, MemoryInv, History, Sealed, NextRecord, Linked,
         AppendProceeds, Size, Next, MarkInv, AppendSafe, AfterWalk, Acknowledged;
    s := StartedLedger();
    FirstInstallInv();
    EveryStepIsGood(FIRST_INSTALL, Start(BUDGET));
    t := LedgerWithOneRecord(s);
    assert !Loses(s, Append(SAMPLE));
    EveryStepIsGood(s, Append(SAMPLE));
    PassFailsExactlyWhen(t, 0, Undisturbed);
    PassFailsExactlyWhen(t, 0, AfterWatermark(7));
  }

  // ----------------------------------------------------------- a clock that was set back

  function Numbers(n: nat): set<nat> {
    if n == 0 then {} else Numbers(n - 1) + {n}
  }

  lemma {:induction false} NumbersFacts(n: nat)
    ensures |Numbers(n)| == n
    ensures forall i :: i in Numbers(n) ==> 1 <= i <= n
  {
    if n > 0 {
      NumbersFacts(n - 1);
    }
  }

  /** A ledger on an empty chain whose archives are complete and named 1 to n. */
  predicate Shelving(s: State, n: nat) {
    && Inv(s) && s.process.Up? && s.process.pass.None? && s.disk.marker.NoMarker?
    && s.disk.archives.Keys == Numbers(n) == CompleteIds(s.disk.archives)
    && var m := s.process.memory;
       && m.sequence == 0 == m.expectedSize && m.budget == BUDGET && LogOf(s.disk).lines == []
       && AppendProceeds(s.disk, m, SAMPLE) && AppendSafe(s.disk)
  }

  lemma Extended(states: seq<State>, events: seq<Event>, e: Event)
    requires Run(states, events) && Enabled(states[|events|], e)
    ensures Run(states + [Next(states[|events|], e)], events + [e])
    ensures Lossless(states, events, |events|) && !Loses(states[|events|], e) ==>
              Lossless(states + [Next(states[|events|], e)], events + [e], |events| + 1)
  {
    hide Enabled, Next, Loses;
    var ss, es := states + [Next(states[|events|], e)], events + [e];
    forall k | 0 <= k < |es|
      ensures Enabled(ss[k], es[k]) && ss[k + 1] == Next(ss[k], es[k])
      ensures Lossless(states, events, |events|) && !Loses(states[|events|], e) ==> !Loses(ss[k], es[k])
    {
      if k < |events| {
        assert ss[k] == states[k] && es[k] == events[k] && ss[k + 1] == states[k + 1];
        assert Enabled(states[k], events[k]) && states[k + 1] == Next(states[k], events[k]);
      }
    }
  }

  lemma NothingSurplus(d: Disk)
    requires |CompleteIds(d.archives)| <= RETENTION
    ensures Surplus(d) == {}
  {
    hide ArchiveRetention.OlderThan;
  }

  /** The next rotation adds one archive and removes none. */
  lemma ShelvedOneMore(t: State, n: nat)
    requires Inv(t) && t.process.Up? && t.process.pass.None? && !t.process.memory.quarantined
    requires t.process.memory.sequence == 1
    requires t.process.memory.budget == BUDGET && Size(LogOf(t.disk)) == 11 && t.disk.marker.NoMarker?
    requires n < RETENTION && t.disk.archives.Keys == Numbers(n) == CompleteIds(t.disk.archives)
    ensures Enabled(t, Rotate(n + 1)) && !Loses(t, Rotate(n + 1)) && Shelving(Next(t, Rotate(n + 1)), n + 1)
  {
    hide ValidText, DiskInv, MemoryInv, History, Sealed, NextRecord, RotatedAt, Size, Unkept, MarkInv, Live,
         Settled, CompleteIds, Numbers, AppendProceeds, Unchanged;
    var d, m, id := t.disk, t.process.memory, n + 1;
    NumbersFacts(n);
    assert id !in d.archives;
    FewArchivesStay(d, id);
    RotatedLive(d, m, id, 11);
    ShelvedArchives(d, m, n);
    assert RotateProceeds(d, m, id);
    EveryStepIsGood(t, Rotate(id));
    EmptyProceeds(Next(t, Rotate(id)));
  }

  lemma EmptyProceeds(u: State)
    requires u.process.Up? && u.disk.log == Some(EMPTY_LOG) && u.disk.head == Head(NOTHING_SEALED)
    requires var m := u.process.memory; m == FreshMemory(m) && m.budget == BUDGET
    ensures AppendProceeds(u.disk, u.process.memory, SAMPLE)
  {
    hide ValidText;
    SampleText(u.process.memory);
    EmptyIsUnchanged(u.disk, u.process.memory);
  }

  lemma ShelvedArchives(d: Disk, m: Memory, n: nat)
    requires n < RETENTION && n + 1 !in d.archives && d.archives.Keys == Numbers(n) == CompleteIds(d.archives)
    ensures var a := RotatedAt(d, m, n + 1, 11).archives; a.Keys == Numbers(n + 1) == CompleteIds(a)
  {
    hide RotatedAt, SealingAt, ArchiveAt, Surplus;
    var id := n + 1;
    RotationArchives(d, m, id, 11);
    CompleteWithNew(d, m, id);
    NumbersFacts(n + 1);
    NothingSurplus(SealingAt(d, m, id, 5));
    assert RotatedAt(d, m, id, 11).archives == d.archives[id := ArchiveAt(d, m, id, 5)];
    OneMoreComplete(d, m, id);
  }

  lemma OneMoreComplete(d: Disk, m: Memory, id: nat)
    ensures CompleteIds(d.archives[id := ArchiveAt(d, m, id, 5)]) == CompleteIds(d.archives) + {id}
  {
  }

  /** One record and one rotation after the other, with increasing names. */
  lemma {:induction false} FilledShelf(n: nat) returns (states: seq<State>, events: seq<Event>)
    requires n <= RETENTION
    ensures Run(states, events) && states[0] == FIRST_INSTALL && |events| == 2 * n + 1
    ensures Lossless(states, events, |events|)
    ensures Shelving(states[|events|], n)
  {
    hide ValidText, VerifyRecord, LineVerifies, DiskInv, MemoryInv, History, Sealed, NextRecord, Linked,
         AppendProceeds, Size, Next, Unkept, RotateProceeds, AppendSafe, Live;
    if n == 0 {
      var s := StartedLedger();
      states, events := [FIRST_INSTALL, s], [Start(BUDGET)];
      assert !Loses(FIRST_INSTALL, Start(BUDGET));
      assert CompleteIds(s.disk.archives) == {} == s.disk.archives.Keys;
    } else {
      var ss, es := FilledShelf(n - 1);
      var t := ShelvedTwice(ss[|es|], n - 1);
      hide Shelving, Loses;
      Extended(ss, es, Append(SAMPLE));
      var ts, fs := ss + [t], es + [Append(SAMPLE)];
      Extended(ts, fs, Rotate(n));
      states, events := ts + [Next(t, Rotate(n))], fs + [Rotate(n)];
    }
  }

  /** A record and a rotation. */
  lemma ShelvedTwice(s: State, n: nat) returns (t: State)
    requires Shelving(s, n) && n < RETENTION
    ensures Enabled(s, Append(SAMPLE)) && !Loses(s, Append(SAMPLE)) && t == Next(s, Append(SAMPLE))
    ensures Enabled(t, Rotate(n + 1)) && !Loses(t, Rotate(n + 1)) && Shelving(Next(t, Rotate(n + 1)), n + 1)
  {
    hide ValidText, DiskInv, MemoryInv, History, Sealed, NextRecord, AppendProceeds, Size, Next, AppendSafe, Live, Inv;
    t := LedgerWithOneRecord(s);
    ShelvedOneMore(t, n);
  }

  /** 24 records and rotations with increasing names, and one more record, acknowledged: nothing is lost so far. */
  lemma BeforeBackdating() returns (states: seq<State>, events: seq<Event>)
    ensures Run(states, events) && states[0] == FIRST_INSTALL && |events| == 50 && Lossless(states, events, 50)
    ensures Acknowledged(states[49], events[49]) && Strips(states[50], Rotate(0)) && Inv(states[50])
    ensures var r := NextRecord(states[49].process.memory, events[49].draft);
            History(states[50].disk) == History(states[49].disk) + [r]
    ensures Settled(states[50].disk) == History(states[49].disk) && states[50].disk.marker.NoMarker?
  {
    hide ValidText, VerifyRecord, LineVerifies, DiskInv, MemoryInv, History, Sealed, NextRecord, Linked, AppendProceeds,
         Size, Next, Unkept, AppendSafe, Live, Settled, MarkInv;
    var ss, es := FilledShelf(24);
    var s := ss[49];
    var t := LedgerWithOneRecord(s);
    assert !Loses(s, Append(SAMPLE));
    EveryStepIsGood(s, Append(SAMPLE));
    Extended(ss, es, Append(SAMPLE));
    StrippedLedger(s, t);
    states, events := ss + [t], es + [Append(SAMPLE)];
  }

  /** A rotation whose name is older than those 24 loses the record. */
  lemma BackdatedRotation() returns (states: seq<State>, events: seq<Event>)
    ensures Run(states, events) && states[0] == FIRST_INSTALL && |events| == 51 && Lossless(states, events, 50)
    ensures Acknowledged(states[49], events[49]) && Strips(states[50], events[50])
    ensures var r := NextRecord(states[49].process.memory, events[49].draft);
            && History(states[50].disk) == History(states[49].disk) + [r]
            && History(states[51].disk) == History(states[49].disk)
  {
    hide ValidText, History, NextRecord, AppendProceeds, Size, Next, Unkept, Live, Settled, Inv;
    var ss, es := BeforeBackdating();
    var t := ss[50];
    Extended(ss, es, Rotate(0));
    StrippingLoses(t, Rotate(0));
    states, events := ss + [Next(t, Rotate(0))], es + [Rotate(0)];
    assert forall k :: 0 <= k < 50 ==> states[k] == ss[k] && events[k] == es[k];
  }

  /** A crash of that rotation right after its marker leaves a marker without its archive. */
  lemma StrandedMarkerIsReachable() returns (states: seq<State>, events: seq<Event>)
    ensures Run(states, events) && states[0] == FIRST_INSTALL && |events| == 51 && Lossless(states, events, 51)
    ensures Stuck(states[51])
  {
    hide ValidText, History, NextRecord, AppendProceeds, Size, Next, Unkept, Live, Settled, Inv, FinishWrites;
    var ss, es := BeforeBackdating();
    var t, crash := ss[50], RotateStops(0, 7, Cut(0, None, map[]), true);
    MarkerIsCleared(t.disk);
    Extended(ss, es, crash);
    StrandsExactlyWhen(t, crash);
    states, events := ss + [Next(t, crash)], es + [crash];
    assert Next(t, crash).process == Down by { CrashIsDown(t, crash); }
  }

  lemma CrashIsDown(s: State, e: Event)
    requires Enabled(s, e) && e.RotateStops? && e.crash
    ensures Next(s, e).process == Down
  {
  }

  lemma StrippedLedger(s: State, t: State)
    requires Shelving(s, 24) && Inv(t) && t.process.Up? && t.disk == s.disk.(log := t.disk.log, head := t.disk.head)
    requires var m := t.process.memory;
             !m.quarantined && m.sequence == 1 && m.budget == BUDGET && Size(LogOf(t.disk)) == 11
    requires t.disk.head.Head? && SealedCount(t.disk.head) == 1
    ensures Strips(t, Rotate(0)) && Settled(t.disk) == History(s.disk)
  {
    hide ValidText, VerifyRecord, LineVerifies, MemoryInv, NextRecord, AppendProceeds, Size, AppendSafe, Archived;
    NumbersFacts(24);
    assert ArchiveRetention.Outlasting(CompleteIds(t.disk.archives) + {0}, 0, Protected(t.disk)) == Numbers(24);
    assert |Sealed(t.disk.log, t.disk.head)| == 1;
    assert Sealed(s.disk.log, s.disk.head) == [];
  }

  // ------------------------------------------------------- before the first record

  /** A crash one byte into the first Append of a chain: the next start quarantines the ledger. */
  lemma FirstAppendCrashQuarantines() returns (s: State)
    ensures Run([FIRST_INSTALL, s], [Start(BUDGET)])
    ensures var crash := AppendStops(SAMPLE, 0, Cut(1, None, map[]), true);
            Enabled(s, crash) && Next(Next(s, crash), Start(BUDGET)).process.memory.quarantined
  {
    hide ValidText, VerifyRecord, LineVerifies, DiskInv, MemoryInv, History, Sealed, NextRecord, Linked,
         AppendProceeds, Size, Next;
    s := StartedLedger();
    SampleText(s.process.memory);
    AppendCrashRecovers(s, SAMPLE, 0, Cut(1, None, map[]), BUDGET);
  }

  /** An incremental pass on a new installation quarantines the ledger. */
  lemma FirstPassQuarantines() returns (s: State)
    ensures Run([FIRST_INSTALL, s], [Start(BUDGET)])
    ensures Enabled(s, BeginPass(0)) && Next(s, BeginPass(0)).process.memory.quarantined
  {
    hide Next, AppendProceeds, Inv, AppendSafe;
    s := StartedLedger();
    PassWithoutCheckpoint(s);
  }

  lemma PassWithoutCheckpoint(s: State)
    requires s.process.Up? && s.process.pass.None? && s.disk.head.NoHead?
    ensures Enabled(s, BeginPass(0)) && Next(s, BeginPass(0)).process.memory.quarantined
  {
    hide StartVerdict, Started, VerifyFiles, AppendProceeds, RotateProceeds;
  }

  // ---------------------------------------------------------------- a blank line

  /** One genuine record after a blank line: accepted by the bounded check as complete, refused by the full one. */
  lemma BlankLineDivides() returns (d: Disk)
    ensures BoundedVerdict(d, BUDGET, 1).Accepted? && BoundedVerdict(d, BUDGET, 1).scope == Full
    ensures VerifyFiles(d.log, d.head, BUDGET) == Rejected
  {
    hide ValidText;
    var m := Memory(0, NoHash, 0, BUDGET, false, false, [], NothingSealed);
    var r := NextRecord(m, SAMPLE);
    SampleText(m);
    NextRecordVerifies(m, SAMPLE);
    var lines := [Blank(0), Encrypted(1, r, 10)];
    d := Disk(Some(LogFile(lines, true)), Head(Checkpoint(RECORD_VERSION, 1, r.hash)), None, NoMarker, map[], [], 0);
    assert NonBlank(lines) == [lines[1]] by { OneRecord(lines[0], lines[1]); }
    TwoLines(lines[0], lines[1]);
    assert After(d, [], 0) == d;
    assert LineVerifies([lines[1]], 1, 1, NoHash);
    assert !LineVerifies(lines, 1, 1, NoHash);
  }

  lemma OneRecord(a: Line, b: Line)
    requires a.Blank? && !b.Blank?
    ensures NonBlank([a, b]) == [b]
  {
    var one, two := [a], [a, b];
    assert one[..0] == [] && two[..1] == one;
    assert NonBlank(one) == [];
  }

  lemma TwoLines(a: Line, b: Line)
    ensures Size(LogFile([a, b], true)) == a.size + b.size + 2
  {
    var one, two := [a], [a, b];
    assert one[..0] == [] && two[..1] == one;
    assert Bytes(one) == a.size + 1;
  }
}
