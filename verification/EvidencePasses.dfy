/**
 Incremental verification passes of a running ledger: when they fail, and what a
 pass that a rotation overtook leaves behind.
 */
module EvidencePasses {
  import opened Options
  import opened EvidenceChain
  import opened EvidenceWatermark
  import opened EvidenceDisk
  import opened EvidenceInvariant
  import opened EvidenceRotation
  import opened EvidenceStart
  import opened EvidenceRuns

  /** A pass over a live chain with a sound watermark never finds damage. */
  lemma PassAccepts(d: Disk, maxBytes: nat, limit: nat)
    requires DiskInv(d) && MarkOk(d) && d.marker.NoMarker? && d.head.Head? && Size(LogOf(d)) <= maxBytes
    ensures !Pass(d.log, maxBytes, d.head.checkpoint.sequence, d.mark, limit).Failed?
  {
    hide VerifyRecord, LineVerifies, Size;
    var lines, sealed := d.log.value.lines, d.head.checkpoint.sequence;
    var chunk := if limit == 0 then DEFAULT_CHUNK else limit;
    PassExtends(Snapshot(d.log.value, sealed), maxBytes, Usable(d.mark), chunk);
    LinkedShrinks(lines, Reached(Position(Usable(d.mark)), sealed, chunk), sealed);
  }

  /** The step, if it can be taken. */
  function Stepped(s: State, e: Event): State {
    if Enabled(s, e) then Next(s, e) else s
  }

  /**
   Where a rotation may fall into a pass that has not walked yet: after it read the checkpoint, or the
   watermark as well.
   */
  datatype Interruption = Undisturbed | AfterCheckpoint(id: nat) | AfterWatermark(id: nat)

  /** A pass up to and including its walk, a quarantined or finished one skipping the rest. */
  function AfterWalk(s: State, limit: nat, i: Interruption): State {
    var read := Stepped(s, BeginPass(limit));
    var early := if i.AfterCheckpoint? then Stepped(read, Rotate(i.id)) else read;
    var anchored := Stepped(early, AnchorPass);
    var late := if i.AfterWatermark? then Stepped(anchored, Rotate(i.id)) else anchored;
    Stepped(late, WalkPass)
  }

  /** Where the pass resumes from what it read. */
  function ResumesAt(s: State, i: Interruption): nat {
    if i.AfterCheckpoint? then 0 else Position(Usable(s.disk.mark))
  }

  predicate CanPass(s: State) {
    && Inv(s) && s.process.Up? && s.process.pass.None? && !s.process.memory.quarantined
    && s.disk.marker.NoMarker? && Size(LogOf(s.disk)) <= s.process.memory.budget
  }

  lemma UndisturbedWalk(s: State, limit: nat)
    requires CanPass(s) && MarkInv(s) && s.disk.head.Head?
    ensures !AfterWalk(s, limit, Undisturbed).process.memory.quarantined
  {
    hide VerifyRecord, LineVerifies, Size, Pass, Linked, MemoryInv, RotateProceeds, AppendProceeds, StartVerdict,
         VerifyFiles, Started;
    var d := s.disk;
    var t := Stepped(s, BeginPass(limit));
    var u := Stepped(t, AnchorPass);
    if u.process.pass.Some? {
      WalkIsSound(d, s.process.memory, u.process.pass.value);
    }
  }

  /** The empty log of a new chain ends before any record. */
  lemma EmptyWalkFails(maxBytes: nat, sealed: nat, anchor: Option<Watermark>, limit: nat)
    requires Position(Usable(anchor)) < sealed
    ensures Pass(Some(EMPTY_LOG), maxBytes, sealed, anchor, limit).Failed?
  {
  }

  lemma OvertakenWalk(s: State, limit: nat, i: Interruption)
    requires CanPass(s) && !i.Undisturbed? && s.disk.head.Head?
    requires RotateProceeds(s.disk, s.process.memory, i.id)
    ensures AfterWalk(s, limit, i).process.memory.quarantined <==> ResumesAt(s, i) < SealedCount(s.disk.head)
  {
    hide VerifyRecord, LineVerifies, Size, Pass, Linked, MemoryInv, RotatedAt, AppendProceeds, StartVerdict,
         VerifyFiles, Started;
    var d, m := s.disk, s.process.memory;
    RotatedLive(d, m, i.id, 11);
    var sealed, from := d.head.checkpoint.sequence, if i.AfterCheckpoint? then None else Usable(d.mark);
    if Position(from) < sealed {
      EmptyWalkFails(m.budget, sealed, from, limit);
    }
  }

  lemma NoCheckpointFails(s: State, limit: nat, i: Interruption)
    requires CanPass(s) && s.disk.head.NoHead?
    ensures AfterWalk(s, limit, i).process.memory.quarantined
  {
    hide Size, Linked, MemoryInv, RotatedAt, AppendProceeds, StartVerdict, VerifyFiles, Started, LiveOk;
    var t := Stepped(s, BeginPass(limit));
    assert t == State(s.disk, Up(s.process.memory.(quarantined := true), None));
  }

  /**
   A pass over a live chain within the budget, with or without a rotation between its reads and its walk. It
   quarantines the healthy ledger exactly when there is no checkpoint yet, or the rotation replaced the chain
   before records that it had read to be sealed were walked.
   */
  lemma PassFailsExactlyWhen(s: State, limit: nat, i: Interruption)
    requires CanPass(s) && MarkInv(s)
    requires !i.Undisturbed? ==> RotateProceeds(s.disk, s.process.memory, i.id)
    ensures AfterWalk(s, limit, i).process.memory.quarantined <==>
            s.disk.head.NoHead? || (!i.Undisturbed? && ResumesAt(s, i) < SealedCount(s.disk.head))
  {
    hide AfterWalk, MarkInv, RotateProceeds, MemoryInv, ResumesAt, Size, Linked;
    if s.disk.head.NoHead? {
      NoCheckpointFails(s, limit, i);
    } else if i.Undisturbed? {
      UndisturbedWalk(s, limit);
    } else {
      OvertakenWalk(s, limit, i);
    }
  }

  /**
   A pass takes its watermark on trust. Over a sound chain it reports complete coverage as long as the
   watermark is not behind the checkpoint, whatever the watermark names; once it is behind, the pass
   fails exactly when the watermark names no prefix of the chain.
   */
  lemma PassTrustsItsWatermark(d: Disk, maxBytes: nat, limit: nat)
    requires DiskInv(d) && d.marker.NoMarker? && d.head.Head? && Size(LogOf(d)) <= maxBytes && Usable(d.mark).Some?
    ensures var sealed, mark := d.head.checkpoint.sequence, Usable(d.mark).value;
            var result := Pass(d.log, maxBytes, sealed, d.mark, limit);
            && (result.CaughtUp? <==> sealed <= mark.sequence)
            && (sealed > mark.sequence ==> (result.Failed? <==> !Names(LogOf(d).lines, mark)))
  {
    hide VerifyRecord, Size;
    var lines, sealed, mark := d.log.value.lines, d.head.checkpoint.sequence, Usable(d.mark).value;
    if sealed > mark.sequence {
      LinkedShrinks(lines, mark.sequence, sealed);
      if Names(lines, mark) {
        PassAccepts(d, maxBytes, limit);
      } else {
        WrongAnchorFails(lines, mark, sealed);
      }
    }
  }

  /** The record after the watermark names its true predecessor, so a wrong one does not verify. */
  lemma WrongAnchorFails(lines: seq<Line>, mark: Watermark, sealed: nat)
    requires mark.sequence < sealed <= |lines| && Linked(lines, 1, sealed, NoHash)
    requires HashAt(lines, mark.sequence) != mark.head
    ensures !LineVerifies(lines, mark.sequence + 1, mark.sequence + 1, mark.head)
  {
    assert LineVerifies(lines, mark.sequence + 1, 1, NoHash);
  }

  /**
   A pass that a rotation overtakes after its walk stores a watermark that names no prefix of the new chain.
   From then on a pass reports the new chain as completely verified, with nothing of it verified, until more is
   sealed than the old watermark counted; and if the chain differs from the old one there, it is then quarantined.
   */
  lemma PassAcrossRotationIsUnsound(s: State, id: nat)
    requires Inv(s) && MarkInv(s) && s.disk.marker.NoMarker? && Enabled(s, CommitPass)
    requires RotateProceeds(s.disk, s.process.memory, id)
    ensures var mark := s.process.pass.value.mark;
            var t := Next(Next(s, Rotate(id)), CommitPass);
            && Usable(t.disk.mark) == Some(mark) && !Names(LogOf(t.disk).lines, mark) && !MarkOk(t.disk)
  {
    hide VerifyRecord, Size, Linked, MemoryInv, ChainOk, RotatedAt;
    var mark := s.process.pass.value.mark;
    NamedIsUsable(LogOf(s.disk).lines, mark);
    RotatedLive(s.disk, s.process.memory, id, 11);
  }

  lemma NamedIsUsable(lines: seq<Line>, mark: Watermark)
    requires Names(lines, mark)
    ensures Usable(Some(mark)) == Some(mark)
  {
    assert LineVerifies(lines, mark.sequence, 1, NoHash);
  }

  /** What the next pass then makes of any sound chain under that watermark. */
  lemma OvertakenPassMisleads(s: State, mark: Watermark, limit: nat)
    requires CanPass(s) && s.disk.head.Head?
    requires Usable(s.disk.mark) == Some(mark) && !Names(LogOf(s.disk).lines, mark)
    ensures var t := AfterWalk(s, limit, Undisturbed);
            if SealedCount(s.disk.head) <= mark.sequence
            then !t.process.memory.quarantined && t.process.memory.scope == Full && t.process.pass.None?
            else t.process.memory.quarantined
  {
    hide VerifyRecord, LineVerifies, Size, Linked, MemoryInv, Pass, Names, RotateProceeds, AppendProceeds,
         StartVerdict, VerifyFiles, Started;
    var d, m := s.disk, s.process.memory;
    PassTrustsItsWatermark(d, m.budget, limit);
    AnchorIsUsable(d.log, m.budget, d.head.checkpoint.sequence, d.mark, limit);
  }

  lemma AnchorIsUsable(log: Option<LogFile>, maxBytes: nat, sealed: nat, stored: Option<Watermark>, limit: nat)
    ensures Pass(log, maxBytes, sealed, Usable(stored), limit) == Pass(log, maxBytes, sealed, stored, limit)
  {
  }

  // -------------------------------------------------------------- what is reported

  /** A whole pass with nothing in between. */
  function Passed(s: State, limit: nat): State {
    Stepped(AfterWalk(s, limit, Undisturbed), CommitPass)
  }

  /** The scope tells how far the watermark has come towards what was sealed. */
  predicate Reports(scope: Scope, position: nat, sealed: nat) {
    && (scope == Full <==> position >= sealed)
    && (position < sealed ==> scope == Partial(position, sealed))
  }

  /**
   What an undisturbed pass reports is what it has covered: the watermark it leaves names a verified prefix,
   min(chunk, remaining) records further on, and the scope is full exactly when that reaches everything sealed
   when the pass began, and otherwise gives the position and that count.
   */
  lemma PassReportsItsCoverage(s: State, limit: nat)
    requires CanPass(s) && MarkInv(s) && s.disk.head.Head?
    ensures var t, sealed, from := Passed(s, limit), SealedCount(s.disk.head), Position(Usable(s.disk.mark));
            var chunk, to := if limit == 0 then 25000 else limit, Position(Usable(t.disk.mark));
            && t.process.Up? && t.process.pass.None? && !t.process.memory.quarantined
            && Reports(t.process.memory.scope, to, sealed)
            && to == (if from + chunk < sealed then from + chunk else if from < sealed then sealed else from)
            && Sound(LogOf(s.disk).lines, Usable(t.disk.mark)) && t.disk == s.disk.(mark := t.disk.mark)
  {
    hide VerifyRecord, LineVerifies, Size, Pass, Linked, MemoryInv, RotateProceeds, AppendProceeds, StartVerdict,
         VerifyFiles, Started, Names;
    var d, m, sealed := s.disk, s.process.memory, s.disk.head.checkpoint.sequence;
    var p := Anchored(sealed, Usable(d.mark), limit, m.budget);
    assert d.log.Some? && d.head.checkpoint.version == RECORD_VERSION by { SealedLog(d); }
    if Position(Usable(d.mark)) < sealed {
      WalkReaches(d, p);
    }
  }

  lemma SealedLog(d: Disk)
    requires DiskInv(d) && d.marker.NoMarker? && d.head.Head?
    ensures d.log.Some? && d.head.checkpoint.version == RECORD_VERSION
  {
  }

  /** Where the walk of an undisturbed pass ends. */
  lemma WalkReaches(d: Disk, p: Flight)
    requires DiskInv(d) && MarkOk(d) && d.marker.NoMarker? && d.log.Some?
    requires p.Anchored? && Size(d.log.value) <= p.budget && p.anchor == Usable(d.mark)
    requires Position(p.anchor) < p.sealed <= SealedCount(d.head)
    ensures var chunk, from := if p.limit == 0 then 25000 else p.limit, Position(p.anchor);
            var r := Pass(d.log, p.budget, p.sealed, p.anchor, p.limit);
            && r.Advanced? && r.mark.sequence == (if from + chunk < p.sealed then from + chunk else p.sealed)
            && Names(d.log.value.lines, r.mark) && Usable(Some(r.mark)) == Some(r.mark)
  {
    hide VerifyRecord, LineVerifies, Size;
    var lines := d.log.value.lines;
    var chunk := if p.limit == 0 then DEFAULT_CHUNK else p.limit;
    PassExtends(Snapshot(d.log.value, p.sealed), p.budget, p.anchor, chunk);
    LinkedShrinks(lines, Reached(Position(p.anchor), p.sealed, chunk), SealedCount(d.head));
    var r := Pass(d.log, p.budget, p.sealed, p.anchor, p.limit);
    NamedIsUsable(lines, r.mark);
  }

  /** What the pass in flight read of the checkpoint, and how far its mark is. */
  predicate Holds(process: Process, sealed: nat) {
    process.Up? && process.pass.Some? ==>
      process.pass.value.sealed == sealed && (process.pass.value.Ready? ==> process.pass.value.mark.sequence <= sealed)
  }

  /** Nothing but its own steps changes what a pass in flight holds. */
  lemma StepHolds(s: State, e: Event, sealed: nat)
    requires Enabled(s, e) && !e.BeginPass? && Holds(s.process, sealed)
    ensures Holds(Next(s, e).process, sealed)
  {
    hide VerifyFiles, AppendProceeds, StartVerdict, RotateProceeds, WalkChain, Stopped, AppendWrites, RotateWrites,
         RotatedAt, Size;
  }

  lemma {:induction false} RunHolds(states: seq<State>, events: seq<Event>, i: nat, j: nat)
    requires Run(states, events) && i < j <= |events| && events[i].BeginPass?
    requires forall k :: i < k < j ==> !events[k].BeginPass?
    ensures Holds(states[j].process, SealedCount(states[i].disk.head))
    decreases j
  {
    hide Enabled, Next, Holds;
    var k := j - 1;
    assert Enabled(states[k], events[k]) && states[k + 1] == Next(states[k], events[k]);
    if k == i {
      BeginHolds(states[i], events[i]);
    } else {
      RunHolds(states, events, i, k);
      StepHolds(states[k], events[k], SealedCount(states[i].disk.head));
    }
  }

  lemma BeginHolds(s: State, e: Event)
    requires Enabled(s, e) && e.BeginPass?
    ensures Holds(Next(s, e).process, SealedCount(s.disk.head))
  {
    hide VerifyFiles, AppendProceeds, StartVerdict, RotateProceeds;
  }

  /**
   Whatever happens between the beginning of a pass and its commit, appends and rotations included, the scope it
   leaves compares the stored watermark with what was sealed at its beginning.
   */
  lemma CommitReports(states: seq<State>, events: seq<Event>, i: nat, j: nat)
    requires Run(states, events) && i < j < |events| && events[i].BeginPass? && events[j] == CommitPass
    requires forall k :: i < k < j ==> !events[k].BeginPass?
    ensures var t := states[j + 1];
            && t.process.Up? && t.disk.mark.Some?
            && Reports(t.process.memory.scope, t.disk.mark.value.sequence, SealedCount(states[i].disk.head))
  {
    hide VerifyFiles, AppendProceeds, StartVerdict, RotateProceeds;
    RunHolds(states, events, i, j);
    assert Enabled(states[j], events[j]) && states[j + 1] == Next(states[j], events[j]);
  }

  /**
   The full verification of a healthy ledger quarantines it exactly when the files do not look as the ledger
   left them or exceed the budget. Otherwise it stores a watermark at the head, which is then sound, and reports
   the whole chain.
   */
  lemma FullVerificationExactlyWhen(s: State)
    requires Inv(s) && Enabled(s, VerifyAll) && !s.process.memory.quarantined && s.disk.marker.NoMarker?
    ensures var d, m, t := s.disk, s.process.memory, Next(s, VerifyAll);
            && (t.process.memory.quarantined <==> !(Unchanged(d, m) && Size(LogOf(d)) <= m.budget))
            && (if t.process.memory.quarantined then t.disk == d
                else t.disk == d.(mark := Some(Watermark(m.sequence, m.head))) && MarkOk(t.disk)
                     && t.process.memory == m.(scope := Full))
  {
    hide AppendProceeds, StartVerdict, RotateProceeds, DiskInv, MemoryInv, VerifyFiles, Unchanged, Size, MarkOk,
         Names, History;
    var d, m := s.disk, s.process.memory;
    if Unchanged(d, m) && Size(LogOf(d)) <= m.budget {
      UnchangedIsVerified(d, m);
    }
    if !Next(s, VerifyAll).process.memory.quarantined {
      VerifiedIsUnchanged(d, m);
      VerifiedMarkIsSound(d, m.budget);
      StoredMarkKeeps(d, Watermark(m.sequence, m.head));
    }
  }

  lemma VerifiedIsUnchanged(d: Disk, m: Memory)
    requires var walk := VerifyFiles(d.log, d.head, m.budget);
             walk.Walked? && walk.head == m.head && walk.sequence == m.sequence && walk.size == m.expectedSize
    ensures Unchanged(d, m) && Size(LogOf(d)) <= m.budget
  {
    hide VerifyRecord, LineVerifies;
  }

  lemma UnchangedIsVerified(d: Disk, m: Memory)
    requires DiskInv(d) && MemoryInv(d, m) && !m.quarantined && d.marker.NoMarker?
    requires Unchanged(d, m) && Size(LogOf(d)) <= m.budget
    ensures var walk := VerifyFiles(d.log, d.head, m.budget);
            walk.Walked? && walk.head == m.head && walk.sequence == m.sequence && walk.size == m.expectedSize
  {
    hide Linked, Bytes, Sealed, Records, RecentAt, ShelfOk, Size;
    NothingLinks(LogOf(d).lines);
  }

  lemma NothingLinks(lines: seq<Line>)
    ensures Linked(lines, 1, 0, NoHash)
  {
  }
}
