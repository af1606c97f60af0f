/**
 Runs of the ledger: appends, rotations with retention, verification passes, failed writes,
 crashes and restarts in any order the code allows. Main results: which steps lose
 records, and that no other step loses, reorders or adds any.
 */
module EvidenceRuns {
  import opened Options
  import opened EvidenceChain
  import opened EvidenceWatermark
  import opened EvidenceDisk
  import opened EvidenceInvariant
  import opened EvidenceRotation
  import opened EvidenceStart

  /**
   A verification pass between two of its steps, none of which holds the lock but the last: it has read the
   checkpoint; it has read the watermark as well; it has walked and not yet stored its watermark.
   */
  datatype Flight =
    | Opened(sealed: nat, limit: nat, budget: nat)
    | Anchored(sealed: nat, anchor: Option<Watermark>, limit: nat, budget: nat)
    | Ready(mark: Watermark, sealed: nat)

  datatype Process = Down | Up(memory: Memory, pass: Option<Flight>)

  datatype State = State(disk: Disk, process: Process)

  datatype Event =
    | Append(draft: Draft)
      // the Append stops in its write `at`: the process dies, or the write reports an error
    | AppendStops(draft: Draft, at: nat, cut: Cut, crash: bool)
    | Rotate(id: nat)
    | RotateStops(id: nat, at: nat, cut: Cut, crash: bool)
    | Kill
    | Start(budget: nat)
    | StartCrashes(budget: nat, at: nat)
      // the write `at` of the start reports an error
    | StartFails(budget: nat, at: nat)
    | BeginPass(limit: nat)
    | AnchorPass
    | WalkPass
    | CommitPass
    | CommitFails
    | VerifyAll
      // a full walk whose watermark cannot be written
    | VerifyFails
    | SetBudget(budget: nat)

  // -------------------------------------------------------------- transitions

  /**
   What may happen. The ledger's lock serializes appends and rotations; a pass may
   overlap both. A random identifier is not empty and the clock is not at its zero; the
   names of archives, which begin with the time, may come in any order.
   */
  predicate Enabled(s: State, e: Event) {
    match e
    case Append(draft) => s.process.Up? && Sensible(draft)
    case AppendStops(draft, at, _, crash) =>
      && s.process.Up? && Sensible(draft) && AppendProceeds(s.disk, s.process.memory, draft)
      && (if crash then at <= 2 else at < 2)
    case RotateStops(id, at, _, crash) =>
      && s.process.Up? && RotateProceeds(s.disk, s.process.memory, id)
      && (if crash then at <= 11 else at < 11)
    case Start(_) => s.process.Down?
    case StartCrashes(budget, at) => s.process.Down? && at <= |StartWrites(s.disk, budget)|
    case StartFails(budget, at) => s.process.Down? && at < |StartWrites(s.disk, budget)|
    case BeginPass(_) => s.process.Up? && s.process.pass.None?
    case AnchorPass => s.process.Up? && s.process.pass.Some? && s.process.pass.value.Opened?
    case WalkPass => s.process.Up? && s.process.pass.Some? && s.process.pass.value.Anchored?
    case CommitPass => s.process.Up? && s.process.pass.Some? && s.process.pass.value.Ready?
    case CommitFails => s.process.Up? && s.process.pass.Some? && s.process.pass.value.Ready?
    case _ => s.process.Up?
  }

  /** An Append that reaches the file continues a last line that lacks its newline. */
  predicate Destroys(s: State, e: Event) {
    && s.process.Up? && !AppendSafe(s.disk)
    && ((e.Append? && AppendProceeds(s.disk, s.process.memory, e.draft))
        || (e.AppendStops? && (e.at > 0 || e.cut.written > 0)))
  }

  /** A start finishes a rotation, and the live chain holds records that no archive does. */
  predicate DropsLive(s: State, e: Event) {
    && (e.Start? || ((e.StartCrashes? || e.StartFails?) && e.at > 0))
    && s.disk.marker.Marker? && FinishWrites(s.disk).Some? && Live(s.disk) != []
  }

  /** A rotation replaces the log although retention has removed its archive, because 24 others have newer names. */
  predicate Strips(s: State, e: Event) {
    && s.process.Up? && ((e.Rotate? && RotateProceeds(s.disk, s.process.memory, e.id)) || (e.RotateStops? && e.at >= 8))
    && Unkept(s.disk, e.id) && Live(s.disk) != []
  }

  predicate Loses(s: State, e: Event) {
    Destroys(s, e) || DropsLive(s, e) || Strips(s, e)
  }

  /** The rotation completes while a pass holds what it read or walked of the old chain. */
  predicate Overlaps(s: State, e: Event) {
    e.Rotate? && s.process.Up? && s.process.pass.Some? && RotateProceeds(s.disk, s.process.memory, e.id)
  }

  /** Memory after a write of Append reported an error. */
  function AppendFailed(m: Memory, at: nat): Memory {
    if at == 0 then m.(full := false) else m.(full := false, quarantined := true)
  }

  /** Memory after a write of Rotate reported an error: the fields are reset once the swap is complete. */
  function RotateFailed(m: Memory, at: nat): Memory {
    if at < 10 then m else FreshMemory(m)
  }

  /** Memory after a write of a start reported an error: only the watermark may be missing. */
  function StartFailed(d: Disk, budget: nat, at: nat): Memory {
    var verdict := StartVerdict(d, budget);
    if StartMark(verdict) != [] && at == |StartWrites(d, budget)| - 1
    then StartedMemory(verdict, budget).(scope := Bounded)
    else StartedMemory(Refused, budget)
  }

  /** VerifyIncremental reads the checkpoint. */
  function PassOpened(d: Disk, m: Memory, limit: nat): Process {
    if m.quarantined then Up(m, None)
    else if !d.head.Head? || d.head.checkpoint.version != RECORD_VERSION then Up(m.(quarantined := true), None)
    else Up(m, Some(Opened(d.head.checkpoint.sequence, limit, m.budget)))
  }

  /** It reads the watermark, and is done when that has reached the checkpoint. */
  function PassAnchored(d: Disk, m: Memory, p: Flight): Process
    requires p.Opened?
  {
    if Position(Usable(d.mark)) >= p.sealed then Up(m.(scope := Full), None)
    else Up(m, Some(Anchored(p.sealed, Usable(d.mark), p.limit, p.budget)))
  }

  /** It walks the log as it finds it then. */
  function PassWalked(d: Disk, m: Memory, p: Flight): Process
    requires p.Anchored?
  {
    match Pass(d.log, p.budget, p.sealed, p.anchor, p.limit)
    case Failed => Up(m.(quarantined := true), None)
    case CaughtUp => Up(m.(scope := Full), None)
    case Advanced(mark, _) => Up(m, Some(Ready(mark, p.sealed)))
  }

  function PassScope(upTo: nat, sealed: nat): Scope {
    if upTo == sealed then Full else Partial(upTo, sealed)
  }

  function Next(s: State, e: Event): State
    requires Enabled(s, e)
  {
    var d := s.disk;
    match e
    case Append(draft) =>
      var m := s.process.memory;
      if AppendProceeds(d, m, draft)
      then State(WithRecord(d, m, draft), s.process.(memory := AppendDone(m, draft)))
      else State(d, s.process.(memory := AppendRefused(d, m, draft)))
    case AppendStops(draft, at, cut, crash) =>
      var m := s.process.memory;
      State(Stopped(d, AppendWrites(m, draft), at, cut),
            if crash then Down else s.process.(memory := AppendFailed(m, at)))
    case Rotate(id) =>
      var m := s.process.memory;
      if RotateProceeds(d, m, id)
      then State(RotatedAt(d, m, id, 11), s.process.(memory := FreshMemory(m)))
      else if RotateBegins(d, m, id) then State(Perform(d, MakeArchive(id)), s.process)
      else s
    case RotateStops(id, at, cut, crash) =>
      var m := s.process.memory;
      assert |RotateWrites(d, m, id)| == 11 by { RotationReaches(d, m, id, 0); }
      State(Stopped(d, RotateWrites(d, m, id), at, cut),
            if crash then Down else s.process.(memory := RotateFailed(m, at)))
    case Kill => State(d, Down)
    case Start(budget) => State(Started(d, budget), Up(StartedMemory(StartVerdict(d, budget), budget), None))
    case StartCrashes(budget, at) => State(After(d, StartWrites(d, budget), at), Down)
    case StartFails(budget, at) => State(After(d, StartWrites(d, budget), at), Up(StartFailed(d, budget, at), None))
    case BeginPass(limit) => State(d, PassOpened(d, s.process.memory, limit))
    case AnchorPass => State(d, PassAnchored(d, s.process.memory, s.process.pass.value))
    case WalkPass => State(d, PassWalked(d, s.process.memory, s.process.pass.value))
    case CommitPass =>
      var p := s.process.pass.value;
      State(Perform(d, PutMark(p.mark)),
            Up(s.process.memory.(scope := PassScope(p.mark.sequence, p.sealed)), None))
    case CommitFails => State(d, Up(s.process.memory.(quarantined := true), None))
    case VerifyFails => State(d, s.process.(memory := s.process.memory.(quarantined := true)))
    case VerifyAll =>
      var m := s.process.memory;
      var walk := VerifyFiles(d.log, d.head, m.budget);
      if m.quarantined then s
      else if walk == Rejected || walk.head != m.head || walk.sequence != m.sequence || walk.size != m.expectedSize
      then State(d, s.process.(memory := m.(quarantined := true)))
      else State(Perform(d, PutMark(Watermark(walk.sequence, walk.head))), s.process.(memory := m.(scope := Full)))
    case SetBudget(budget) => State(d, s.process.(memory := s.process.memory.(budget := budget)))
  }

  /** The Append returns success. */
  predicate Acknowledged(s: State, e: Event) {
    e.Append? && s.process.Up? && AppendProceeds(s.disk, s.process.memory, e.draft)
  }

  const FIRST_INSTALL := State(Disk(None, NoHead, None, NoMarker, map[], [], 0), Down)

  // --------------------------------------------------------------- invariance

  /** What a pass in flight has read or walked is true of the live chain. */
  predicate PassInv(d: Disk, pass: Option<Flight>) {
    pass.Some? && d.marker.NoMarker? ==>
      match pass.value
      case Opened(sealed, _, _) => sealed <= SealedCount(d.head)
      case Anchored(sealed, mark, _, _) =>
        sealed <= SealedCount(d.head) && Sound(LogOf(d).lines, mark) && Usable(mark) == mark
      case Ready(mark, _) => Names(LogOf(d).lines, mark) && mark.sequence <= SealedCount(d.head)
  }

  predicate Inv(s: State) {
    DiskInv(s.disk) && (s.process.Up? ==> MemoryInv(s.disk, s.process.memory))
  }

  /** The stored watermark, and what a pass is about to store, name sealed prefixes. */
  predicate MarkInv(s: State) {
    MarkOk(s.disk) && (s.process.Up? ==> PassInv(s.disk, s.process.pass))
  }

  /**
   A step keeps the invariant and the history; an acknowledged Append adds exactly its record;
   watermarks stay sound unless a rotation overtakes a pass.
   */
  predicate Good(s: State, e: Event, t: State) {
    && Inv(t)
    && History(s.disk) <= History(t.disk)
    && (Acknowledged(s, e) ==> History(t.disk) == History(s.disk) + [NextRecord(s.process.memory, e.draft)])
    && (MarkInv(s) && !Overlaps(s, e) ==> MarkInv(t))
  }

  /** A pass in flight stays sound while records are appended. */
  lemma PassSurvives(d: Disk, e: Disk, pass: Option<Flight>)
    requires PassInv(d, pass) && d.marker == e.marker
    requires LogOf(d).lines <= LogOf(e).lines && SealedCount(d.head) <= SealedCount(e.head)
    ensures PassInv(e, pass)
  {
    hide Linked;
    if pass.Some? && d.marker.NoMarker? {
      match pass.value
      case Opened(_, _, _) =>
      case Anchored(_, mark, _, _) => SoundGrows(LogOf(d).lines, LogOf(e).lines, mark);
      case Ready(mark, _) => SoundGrows(LogOf(d).lines, LogOf(e).lines, Some(mark));
    }
  }

  lemma AppendStep(s: State, draft: Draft)
    requires Inv(s) && Enabled(s, Append(draft)) && !Destroys(s, Append(draft))
    ensures Good(s, Append(draft), Next(s, Append(draft)))
  {
    hide VerifyRecord, ValidText, LineVerifies, Size, DiskInv, History, Sealed, NextRecord, NextPayload, MarkOk,
         PassInv, LiveOk;
    var d, m := s.disk, s.process.memory;
    if AppendProceeds(d, m, draft) {
      RecordAppended(d, m, draft);
      if PassInv(d, s.process.pass) {
        PassSurvives(d, WithRecord(d, m, draft), s.process.pass);
      }
    }
  }

  lemma MarkerIsReadable(d: Disk)
    requires DiskInv(d)
    ensures !d.marker.BadMarker?
  {
  }

  /** A failed write leaves memory that notices it: the size no longer fits, or nothing was written. */
  lemma StoppedMemory(d: Disk, m: Memory, draft: Draft, at: nat, written: nat)
    requires DiskInv(d) && MemoryInv(d, m) && AppendSafe(d) && Sensible(draft) && AppendProceeds(d, m, draft) && at < 2
    ensures MemoryInv(WithBytes(d, m, draft, written), AppendFailed(m, at))
  {
    hide VerifyRecord, ValidText, LineVerifies, DiskInv, History, Sealed, NextRecord, NextPayload, AddLine, Bytes,
         LiveOk;
    BytesHarmless(d, m, draft, written);
    ReadyToAppend(d, m);
  }

  lemma SafeBytes(s: State, e: Event, written: nat)
    requires Inv(s) && e.AppendStops? && Enabled(s, e) && AppendSafe(s.disk) && e.at < 2
    requires written == if e.at == 0 then e.cut.written else e.draft.size + 1
    ensures var t := State(WithBytes(s.disk, s.process.memory, e.draft, written),
                           if e.crash then Down else s.process.(memory := AppendFailed(s.process.memory, e.at)));
            Good(s, e, t)
  {
    hide VerifyRecord, ValidText, LineVerifies, DiskInv, History, Sealed, NextRecord, NextPayload, MemoryInv,
         AppendProceeds, AddLine, Size, MarkOk, PassInv, LiveOk;
    var d, m := s.disk, s.process.memory;
    BytesHarmless(d, m, e.draft, written);
    StoppedMemory(d, m, e.draft, e.at, written);
    if PassInv(d, s.process.pass) {
      PassSurvives(d, WithBytes(d, m, e.draft, written), s.process.pass);
    }
  }

  lemma SafeStop(s: State, e: Event)
    requires Inv(s) && e.AppendStops? && Enabled(s, e) && AppendSafe(s.disk)
    ensures Good(s, e, Next(s, e))
  {
    hide VerifyRecord, ValidText, LineVerifies, DiskInv, History, Sealed, WithRecord, WithBytes, NextRecord,
         NextPayload, Stopped, AppendWrites, MemoryInv, Size, MarkOk, PassInv, LiveOk;
    var d, m := s.disk, s.process.memory;
    AppendStopsAt(d, m, e.draft, e.at, e.cut);
    if e.at == 2 {
      RecordAppended(d, m, e.draft);
    } else {
      SafeBytes(s, e, if e.at == 0 then e.cut.written else e.draft.size + 1);
    }
  }

  /** Nothing was written: the file was at most opened. */
  lemma EmptyStop(s: State, e: Event)
    requires Inv(s) && e.AppendStops? && Enabled(s, e) && !AppendSafe(s.disk) && e.at == 0 && e.cut.written == 0
    ensures Next(s, e).disk == s.disk && Good(s, e, Next(s, e))
  {
    hide VerifyRecord, ValidText, LineVerifies, DiskInv, History, Sealed, NextRecord, NextPayload, Stopped,
         AppendWrites, Size;
    AppendStopsAt(s.disk, s.process.memory, e.draft, e.at, e.cut);
    assert s.disk.log.Some?;
  }

  lemma AppendStopsStep(s: State, e: Event)
    requires Inv(s) && e.AppendStops? && Enabled(s, e) && !Destroys(s, e)
    ensures Good(s, e, Next(s, e))
  {
    hide Good, Next, AppendProceeds, DiskInv, MemoryInv;
    if AppendSafe(s.disk) {
      SafeStop(s, e);
    } else {
      EmptyStop(s, e);
    }
  }

  /** Until the marker is written the live files stay; then the rotation is pending until the last write. */
  lemma RotatedLive(d: Disk, m: Memory, id: nat, k: nat)
    requires k <= 11
    ensures var e := RotatedAt(d, m, id, k);
            && (k < 8 ==> e.log == d.log && e.head == d.head && e.mark == d.mark)
            && (k < 7 ==> e.marker == d.marker) && (7 <= k < 11 ==> e.marker.Marker?)
            && (k >= 8 ==> e.log == Some(EMPTY_LOG) && e.head == if k == 8 then d.head else Head(NOTHING_SEALED))
            && (k == 11 ==> e.marker.NoMarker? && e.mark == None)
  {
    var five, six := SealingAt(d, m, id, 5), SealingAt(d, m, id, 6);
    hide Surplus, Retire, PastWith, Files;
    assert six == Perform(five, PruneArchives);
    assert six.log == d.log && six.head == d.head && six.mark == d.mark && six.marker == d.marker;
    MarkerWritten(six, id, ManifestFor(d, m, id));
    assert SealingAt(d, m, id, 7) == Perform(six, PutMarker(id, ManifestFor(d, m, id)));
  }

  /** Memory during and after a rotation that did not crash. */
  lemma RotatedMemory(d: Disk, m: Memory, id: nat, at: nat)
    requires MemoryInv(d, m) && RotateBegins(d, m, id) && at <= 11
    ensures at < 10 ==> MemoryInv(RotatedAt(d, m, id, at), m)
    ensures at >= 10 ==> MemoryInv(RotatedAt(d, m, id, at), FreshMemory(m))
  {
    hide RotatedAt, Linked;
    RotatedLive(d, m, id, at);
    EmptyChainHoldsNothing(Head(NOTHING_SEALED));
  }

  lemma RotateStep(s: State, id: nat)
    requires Inv(s) && Enabled(s, Rotate(id)) && !Strips(s, Rotate(id))
    ensures Good(s, Rotate(id), Next(s, Rotate(id)))
  {
    hide VerifyRecord, LineVerifies, DiskInv, History, Settled, Live, Sealed, Size, RotatedAt, MemoryInv, LiveOk,
         Perform, Unkept;
    var d, m := s.disk, s.process.memory;
    if RotateProceeds(d, m, id) {
      RotationKeeps(d, m, id, 11);
      RotatedMemory(d, m, id, 11);
      RotatedLive(d, m, id, 11);
      NothingStripped(d);
    } else if RotateBegins(d, m, id) {
      NewDirectory(d, m, id);
    }
  }

  lemma NewDirectory(d: Disk, m: Memory, id: nat)
    requires DiskInv(d) && MemoryInv(d, m) && id !in d.archives
    ensures var e := Perform(d, MakeArchive(id));
            && DiskInv(e) && MemoryInv(e, m) && History(e) == History(d) && (MarkOk(d) ==> MarkOk(e))
            && e.log == d.log && e.head == d.head && e.mark == d.mark && e.marker == d.marker
  {
    hide DiskInv, History, Sealed;
    NewArchiveHarmless(d, id, EMPTY_ARCHIVE);
  }

  lemma RotateStopsStep(s: State, e: Event)
    requires Inv(s) && e.RotateStops? && Enabled(s, e) && !Strips(s, e)
    ensures Good(s, e, Next(s, e))
  {
    hide VerifyRecord, LineVerifies, DiskInv, History, Settled, Live, Sealed, Stopped, RotateWrites, Size, RotatedAt,
         MemoryInv, LiveOk, Unkept, StoppedAt;
    var d, m := s.disk, s.process.memory;
    RotationStopped(d, m, e.id, e.at, e.cut);
    RotationStopsAt(d, m, e.id, e.at, e.cut);
    NothingStripped(d);
    if e.at < 7 {
      SameMemory(d, Next(s, e).disk, m);
    } else {
      assert StoppedAt(d, m, e.id, e.at, e.cut) == RotatedAt(d, m, e.id, e.at) by { LateStop(d, m, e.id, e.at, e.cut); }
      RotatedMemory(d, m, e.id, e.at);
      RotatedLive(d, m, e.id, e.at);
    }
  }

  lemma LateStop(d: Disk, m: Memory, id: nat, k: nat, cut: Cut)
    requires k >= 6
    ensures StoppedAt(d, m, id, k, cut) == RotatedAt(d, m, id, k)
  {
  }

  lemma NothingStripped(d: Disk)
    ensures Live(d) == [] ==> Settled(d) == History(d)
  {
    hide Live, Archived;
  }

  lemma SameMemory(d: Disk, e: Disk, m: Memory)
    requires e.log == d.log && e.head == d.head && MemoryInv(d, m)
    ensures MemoryInv(e, m)
  {
    hide Linked;
  }

  /** What a pass has walked is sound while it waits to be stored. */
  lemma WalkIsSound(d: Disk, m: Memory, p: Flight)
    requires DiskInv(d) && d.marker.NoMarker? && p.Anchored? && PassInv(d, Some(p)) && d.log.Some?
    ensures PassInv(d, PassWalked(d, m, p).pass)
    ensures Size(d.log.value) <= p.budget ==> !Pass(d.log, p.budget, p.sealed, p.anchor, p.limit).Failed?
  {
    hide VerifyRecord, LineVerifies, Size;
    var lines := d.log.value.lines;
    var chunk := if p.limit == 0 then DEFAULT_CHUNK else p.limit;
    if Size(d.log.value) <= p.budget {
      PassExtends(Snapshot(d.log.value, p.sealed), p.budget, p.anchor, chunk);
      var linked := if p.sealed < Position(p.anchor) then Position(p.anchor) else SealedCount(d.head);
      LinkedShrinks(lines, Reached(Position(p.anchor), p.sealed, chunk), linked);
    }
  }

  lemma WalkPassStep(s: State)
    requires Inv(s) && Enabled(s, WalkPass)
    ensures Good(s, WalkPass, Next(s, WalkPass))
  {
    hide VerifyRecord, LineVerifies, Size, Pass, DiskInv, History, Sealed, Names, Linked;
    var d, p := s.disk, s.process.pass.value;
    if d.marker.NoMarker? && MarkInv(s) {
      if d.log.Some? {
        WalkIsSound(d, s.process.memory, p);
      } else {
        WalkWithoutLog(d, s.process.memory, p);
      }
    }
  }

  lemma WalkWithoutLog(d: Disk, m: Memory, p: Flight)
    requires DiskInv(d) && d.marker.NoMarker? && p.Anchored? && PassInv(d, Some(p)) && d.log.None?
    ensures PassInv(d, PassWalked(d, m, p).pass)
  {
  }

  lemma AnchorPassStep(s: State)
    requires Inv(s) && Enabled(s, AnchorPass)
    ensures Good(s, AnchorPass, Next(s, AnchorPass))
  {
    hide VerifyRecord, LineVerifies, Size, DiskInv, History, Sealed, Names;
  }

  lemma BeginPassStep(s: State, limit: nat)
    requires Inv(s) && Enabled(s, BeginPass(limit))
    ensures Good(s, BeginPass(limit), Next(s, BeginPass(limit)))
  {
    hide VerifyRecord, LineVerifies, Size, DiskInv, History, Sealed, Names;
  }

  /** Storing a watermark changes no record, and is sound when it names a sealed prefix or does not count. */
  lemma StoredMarkKeeps(d: Disk, mark: Watermark)
    requires DiskInv(d)
    ensures var e := Perform(d, PutMark(mark));
            && DiskInv(e) && History(e) == History(d)
            && (forall m :: MemoryInv(d, m) ==> MemoryInv(e, m))
            && ((d.marker.NoMarker? ==>
                   Usable(Some(mark)).None? || (Names(LogOf(d).lines, mark) && mark.sequence <= SealedCount(d.head)))
                ==> MarkOk(e))
  {
    hide DiskInv, History, Names, Size, ChainOk;
    var e := Perform(d, PutMark(mark));
    MarkIsApart(d, e);
    forall m | MemoryInv(d, m)
      ensures MemoryInv(e, m)
    {
      SameMemory(d, e, m);
    }
  }

  /** No record depends on the watermark. */
  lemma MarkIsApart(d: Disk, e: Disk)
    requires DiskInv(d) && e == d.(mark := e.mark)
    ensures DiskInv(e) && History(e) == History(d)
  {
    hide ChainOk, Sealed, LiveOk, Torn, Archived, ShelfOk;
    SameLive(d, e);
    assert ShelfOk(e) by { SameShelves(d, e); }
  }

  lemma SameShelves(d: Disk, e: Disk)
    requires ShelfOk(d) && e.archives == d.archives && e.past == d.past
    ensures ShelfOk(e)
  {
  }

  lemma CommitPassStep(s: State)
    requires Inv(s) && Enabled(s, CommitPass)
    ensures Good(s, CommitPass, Next(s, CommitPass))
  {
    hide VerifyRecord, LineVerifies, Size, History, Sealed, Names, DiskInv;
    StoredMarkKeeps(s.disk, s.process.pass.value.mark);
  }

  lemma VerifiedMarkIsSound(d: Disk, maxBytes: nat)
    requires DiskInv(d) && d.marker.NoMarker? && VerifyFiles(d.log, d.head, maxBytes).Walked?
    ensures var walk := VerifyFiles(d.log, d.head, maxBytes);
            walk.sequence > 0 ==>
                Names(LogOf(d).lines, Watermark(walk.sequence, walk.head)) && walk.sequence <= SealedCount(d.head)
  {
    hide VerifyRecord, LineVerifies, Size;
  }

  lemma VerifyAllStep(s: State)
    requires Inv(s) && Enabled(s, VerifyAll)
    ensures Good(s, VerifyAll, Next(s, VerifyAll))
  {
    hide VerifyRecord, LineVerifies, Size, History, Sealed, Names, DiskInv, VerifyFiles;
    var d, m := s.disk, s.process.memory;
    var walk := VerifyFiles(d.log, d.head, m.budget);
    if walk.Walked? && !m.quarantined {
      if d.marker.NoMarker? {
        VerifiedMarkIsSound(d, m.budget);
      }
      StoredMarkKeeps(d, Watermark(walk.sequence, walk.head));
    }
  }

  lemma NothingDropped(d: Disk)
    requires d.marker.Marker? && FinishWrites(d).Some? ==> Live(d) == []
    ensures Remaining(d) == History(d)
  {
    hide Live, Archived;
  }

  /** A start whose watermark could not be written leaves the same chain. */
  lemma UnmarkedStart(d: Disk, budget: nat)
    requires DiskInv(d) && StartMark(StartVerdict(d, budget)) != []
    ensures var ws := StartWrites(d, budget);
            && |ws| > 0
            && MemoryInv(After(d, ws, |ws| - 1), StartedMemory(StartVerdict(d, budget), budget).(scope := Bounded))
  {
    hide VerifyRecord, Bytes, NonBlank, LineVerifies, DiskInv, MemoryInv, History, Sealed, Size, StartVerdict,
         BoundedWrites, FinishWrites, Unchanged;
    StartIsHealthy(d, budget);
    var ws := StartWrites(d, budget);
    var before := After(d, ws, |ws| - 1);
    assert ws[|ws| - 1].PutMark?;
    assert Started(d, budget) == Perform(before, ws[|ws| - 1]);
    RescopedMemory(Started(d, budget), before, StartedMemory(StartVerdict(d, budget), budget));
  }

  lemma RescopedMemory(d: Disk, e: Disk, m: Memory)
    requires e.log == d.log && e.head == d.head && MemoryInv(d, m)
    ensures MemoryInv(e, m.(scope := Bounded))
  {
    hide Linked;
  }

  lemma StartStep(s: State, e: Event)
    requires Inv(s) && Enabled(s, e) && (e.Start? || e.StartCrashes? || e.StartFails?)
    ensures Inv(Next(s, e)) && (MarkInv(s) ==> MarkInv(Next(s, e)))
    ensures !DropsLive(s, e) ==> History(s.disk) <= History(Next(s, e).disk)
    ensures DropsLive(s, e) ==> Settled(s.disk) <= History(Next(s, e).disk)
  {
    hide VerifyRecord, Bytes, Archived, NonBlank, LineVerifies, DiskInv, History, Settled, Sealed, Size,
         StartVerdict, Started, StartWrites, Live, MemoryInv, MarkOk, FinishWrites, StartMark;
    if e.Start? {
      StartIsHealthy(s.disk, e.budget);
    } else {
      StartStopped(s.disk, e.budget, e.at);
      if e.StartFails? && StartMark(StartVerdict(s.disk, e.budget)) != [] {
        UnmarkedStart(s.disk, e.budget);
      }
      RefusedMemory(Next(s, e).disk, e.budget);
    }
    if s.disk.marker.Marker? && FinishWrites(s.disk).Some? ==> Live(s.disk) == [] {
      NothingDropped(s.disk);
    }
    SettledIsHistory(s.disk);
    MarkerIsReadable(s.disk);
  }

  lemma RefusedMemory(d: Disk, budget: nat)
    ensures MemoryInv(d, StartedMemory(Refused, budget))
  {
  }

  lemma SettledIsHistory(d: Disk)
    ensures Settled(d) <= History(d)
  {
  }

  /**
   Every step is good but an Append onto an unterminated line, a start that drops a live chain, and a rotation that
   empties the log after retention has removed its archive.
   */
  lemma EveryStepIsGood(s: State, e: Event)
    requires Inv(s) && Enabled(s, e) && !Loses(s, e)
    ensures Good(s, e, Next(s, e))
  {
    hide VerifyRecord, Bytes, Archived, NonBlank, LineVerifies, DiskInv, History, Sealed, Size, AppendProceeds,
         StartVerdict, Started, Live, MarkInv;
    match e
    case Append(draft) => AppendStep(s, draft);
    case AppendStops(_, _, _, _) => AppendStopsStep(s, e);
    case Rotate(id) => RotateStep(s, id);
    case RotateStops(_, _, _, _) => RotateStopsStep(s, e);
    case Start(_) => StartStep(s, e);
    case StartCrashes(_, _) => StartStep(s, e);
    case StartFails(_, _) => StartStep(s, e);
    case BeginPass(limit) => BeginPassStep(s, limit);
    case AnchorPass => AnchorPassStep(s);
    case WalkPass => WalkPassStep(s);
    case CommitPass => CommitPassStep(s);
    case VerifyAll => VerifyAllStep(s);
    case CommitFails => OtherStep(s, e);
    case VerifyFails => OtherStep(s, e);
    case Kill => OtherStep(s, e);
    case SetBudget(_) => OtherStep(s, e);
  }

  lemma OtherStep(s: State, e: Event)
    requires Inv(s) && Enabled(s, e) && (e.Kill? || e.SetBudget? || e.CommitFails? || e.VerifyFails?)
    ensures Good(s, e, Next(s, e))
  {
    hide DiskInv, History, Sealed;
  }

  // ------------------------------------------------------------- conservation

  /** A run: each state follows from the previous one by an enabled event. */
  ghost predicate Run(states: seq<State>, events: seq<Event>) {
    && |states| == |events| + 1
    && forall i :: 0 <= i < |events| ==> Enabled(states[i], events[i]) && states[i + 1] == Next(states[i], events[i])
  }

  lemma FirstInstallInv()
    ensures Inv(FIRST_INSTALL) && MarkInv(FIRST_INSTALL)
  {
  }

  /** None of the first n events loses a record. */
  ghost predicate Lossless(states: seq<State>, events: seq<Event>, n: nat)
    requires n <= |events| < |states|
  {
    forall k :: 0 <= k < n ==> !Loses(states[k], events[k])
  }

  lemma {:induction false} RunKeepsHistory(states: seq<State>, events: seq<Event>, i: nat, j: nat)
    requires Run(states, events) && Inv(states[0]) && i <= j < |states| && Lossless(states, events, j)
    ensures Inv(states[i]) && Inv(states[j])
    ensures History(states[i].disk) <= History(states[j].disk)
    decreases j
  {
    hide Inv, History, Enabled, Next, Loses, Acknowledged, MarkInv, Overlaps;
    if j > 0 {
      RunKeepsHistory(states, events, if i < j then i else j - 1, j - 1);
      EveryStepIsGood(states[j - 1], events[j - 1]);
    }
  }

  /** The record is in the live log under its checkpoint, or in a complete archive. */
  predicate Stored(d: Disk, r: Record) {
    || r in Sealed(d.log, d.head)
    || exists k :: 0 <= k < |d.past| && InArchive(d, d.past[k], r)
  }

  predicate InArchive(d: Disk, c: Chapter, r: Record) {
    && c.Shelved? && c.id in d.archives && CompleteArchive(d.archives[c.id])
    && r in Sealed(d.archives[c.id].log, d.archives[c.id].head)
  }

  /** The record was in an archive that retention has removed. */
  predicate Expired(d: Disk, r: Record) {
    exists k :: 0 <= k < |d.past| && InRetired(d.past[k], r)
  }

  predicate InRetired(c: Chapter, r: Record) {
    c.Retired? && r in c.records
  }

  lemma {:induction false} ArchivedIsStored(d: Disk, n: nat, r: Record)
    requires DiskInv(d) && n <= |d.past| && r in Archived(d.archives, d.past[..n])
    ensures exists k :: 0 <= k < n && (InArchive(d, d.past[k], r) || InRetired(d.past[k], r))
  {
    hide ChainOk, Sealed, LiveOk;
    if n > 0 {
      assert d.past[..n][..n - 1] == d.past[..n - 1];
      if r in Archived(d.archives, d.past[..n - 1]) {
        ArchivedIsStored(d, n - 1, r);
      } else {
        assert InArchive(d, d.past[n - 1], r) || InRetired(d.past[n - 1], r);
      }
    }
  }

  lemma HistoryIsStored(d: Disk, r: Record)
    requires DiskInv(d) && r in History(d)
    ensures Stored(d, r) || Expired(d, r)
  {
    hide Archived, ChainOk, Sealed, LiveOk, CompleteArchive, InArchive;
    if r in Archived(d.archives, d.past) {
      assert d.past[..|d.past|] == d.past;
      ArchivedIsStored(d, |d.past|, r);
    }
  }

  /**
   Conservation. In every run from a first installation in which no Append reached an unterminated log, no
   start dropped a live chain and no rotation emptied the log after its own archive was removed, a record
   whose Append returned success stays in the live log or in a complete archive until retention removes
   that archive, at the place in the history it was acknowledged at, with everything recorded before it unchanged.
   The record holds what the caller passed.
   */
  lemma AcknowledgedIsNeverLost(states: seq<State>, events: seq<Event>, i: nat, j: nat) returns (r: Record)
    requires Run(states, events) && states[0] == FIRST_INSTALL
    requires i < j < |states| && Acknowledged(states[i], events[i]) && Lossless(states, events, j)
    ensures Carries(r, events[i].draft)
    ensures Continues(r, states[i].process.memory.sequence, states[i].process.memory.head)
    ensures History(states[i + 1].disk) == History(states[i].disk) + [r] <= History(states[j].disk)
    ensures Stored(states[j].disk, r) || Expired(states[j].disk, r)
  {
    hide History, Next, Enabled, NextRecord, DiskInv, MemoryInv, PassInv, MarkInv, Loses, AppendProceeds, Stored,
         Expired, Carries, Continues;
    FirstInstallInv();
    r := NextRecord(states[i].process.memory, events[i].draft);
    RecordCarriesTheDraft(states[i].process.memory, events[i].draft);
    var place := |History(states[i].disk)|;
    RunKeepsHistory(states, events, i, j);
    RunKeepsHistory(states, events, i + 1, j);
    EveryStepIsGood(states[i], events[i]);
    assert History(states[i + 1].disk)[place] == r;
    assert History(states[j].disk)[place] == r;
    HistoryIsStored(states[j].disk, r);
  }

  /** Over the same runs, and with no rotation overtaking a pass, every watermark names a verified prefix. */
  lemma {:induction false} WatermarksStaySound(states: seq<State>, events: seq<Event>, n: nat)
    requires Run(states, events) && states[0] == FIRST_INSTALL && n < |states| && Lossless(states, events, n)
    requires forall k :: 0 <= k < n ==> !Overlaps(states[k], events[k])
    ensures MarkInv(states[n])
  {
    hide Inv, History, Enabled, Next, Loses, Acknowledged, Overlaps, MarkInv;
    FirstInstallInv();
    if n > 0 {
      WatermarksStaySound(states, events, n - 1);
      RunKeepsHistory(states, events, 0, n - 1);
      EveryStepIsGood(states[n - 1], events[n - 1]);
    }
  }

  // ------------------------------------------------------- which steps lose records

  /** The files an Append leaves when it dies in its write `at`. */
  function Crashed(d: Disk, m: Memory, draft: Draft, at: nat, cut: Cut): Disk {
    if at == 2 then WithRecord(d, m, draft)
    else WithBytes(d, m, draft, if at == 0 then cut.written else draft.size + 1)
  }

  lemma GarbageDoesNotLink(lines: seq<Line>, n: nat)
    requires 1 <= n <= |lines| && lines[n - 1].Garbage?
    ensures !Linked(lines, 1, n, NoHash)
  {
    assert !LineVerifies(lines, n, 1, NoHash);
  }

  /** A log that lacks its last newline and looks unchanged is a live chain of as many records as memory counts. */
  lemma UnterminatedChain(d: Disk, m: Memory)
    requires DiskInv(d) && MemoryInv(d, m) && !m.quarantined && Unchanged(d, m) && !AppendSafe(d)
    ensures LiveOk(d) && d.log.Some? && |d.log.value.lines| == m.sequence == SealedCount(d.head) > 0
    ensures NoEmptyLine(d.log.value.lines)
  {
    hide VerifyRecord, LineVerifies, Size, Sealed;
  }

  /** After an unterminated line an Append does not make a line of its own: the last line becomes unreadable. */
  lemma UnterminatedIsDestroyed(d: Disk, m: Memory, draft: Draft, at: nat, cut: Cut)
    requires DiskInv(d) && MemoryInv(d, m) && AppendProceeds(d, m, draft) && !AppendSafe(d) && at <= 2
    requires Sensible(draft) && (at > 0 || cut.written > 0)
    ensures var e := Crashed(d, m, draft, at, cut);
            && e.log.Some? && |e.log.value.lines| == m.sequence == SealedCount(d.head) > 0
            && NoEmptyLine(e.log.value.lines) && e.log.value.lines[m.sequence - 1].Garbage?
            && e == d.(log := e.log, head := e.head) && SealedCount(e.head) == m.sequence + (if at == 2 then 1 else 0)
            && !ChainOk(e.log, e.head) && LiveOk(d)
  {
    hide VerifyRecord, ValidText, Size, NextRecord, Archived, Records, Linked, Sealed, LiveOk, Unchanged, DiskInv,
         MemoryInv;
    UnterminatedChain(d, m);
    var e, n := Crashed(d, m, draft, at, cut), m.sequence;
    var was, lines := LogOf(d).lines, e.log.value.lines;
    assert forall i :: 0 <= i < n - 1 ==> lines[i] == was[i];
    assert lines[n - 1].Garbage?;
    GarbageDoesNotLink(lines, n);
  }

  /** A chain that does not verify holds nothing of its own. */
  lemma BrokenChainHoldsNothing(d: Disk, log: Option<LogFile>, head: HeadFile)
    requires !ChainOk(log, head)
    ensures History(d.(log := log, head := head)) == Settled(d)
  {
    hide Archived;
  }

  lemma DestroyingLoses(s: State, e: Event)
    requires Inv(s) && Enabled(s, e) && Destroys(s, e)
    ensures History(Next(s, e).disk) == Settled(s.disk) && !ChainOk(Next(s, e).disk.log, Next(s, e).disk.head)
    ensures LiveOk(s.disk)
  {
    hide VerifyRecord, ValidText, Size, NextRecord, Archived, Linked, LineVerifies, Stopped, AppendWrites, Crashed,
         DiskInv, MemoryInv, History, Settled, LiveOk, ChainOk, WithRecord;
    var d, m := s.disk, s.process.memory;
    var at, cut := if e.Append? then 2 else e.at, if e.Append? then Cut(0, None, map[]) else e.cut;
    AppendStopsAt(d, m, e.draft, at, cut);
    UnterminatedIsDestroyed(d, m, e.draft, at, cut);
    var t := Crashed(d, m, e.draft, at, cut);
    assert Next(s, e).disk == t by { CrashedNext(s, e, at, cut); }
    BrokenChainHoldsNothing(d, t.log, t.head);
  }

  lemma CrashedNext(s: State, e: Event, at: nat, cut: Cut)
    requires Enabled(s, e) && Destroys(s, e)
    requires at == (if e.Append? then 2 else e.at) && cut == (if e.Append? then Cut(0, None, map[]) else e.cut)
    ensures Next(s, e).disk == Crashed(s.disk, s.process.memory, e.draft, at, cut)
  {
    AppendStopsAt(s.disk, s.process.memory, e.draft, at, cut);
  }

  /** A start that finishes a rotation with records in the live chain keeps just the settled past. */
  lemma DroppingLoses(s: State, e: Event)
    requires Inv(s) && Enabled(s, e) && DropsLive(s, e)
    ensures History(Next(s, e).disk) == Settled(s.disk) && |History(Next(s, e).disk)| < |History(s.disk)|
  {
    hide VerifyRecord, NonBlank, LineVerifies, Live, Archived, Sealed, ChainOk, Linked, Size;
    var d := s.disk;
    FinishKeeps(d);
    FinishedHoldsNothing(d, e.budget);
    if e.Start? {
      StartedIs(d, e.budget);
    } else {
      FinishStopped(d, e.at);
    }
  }

  /** A rotation that empties the log after its archive was removed keeps just the settled past. */
  lemma StrippingLoses(s: State, e: Event)
    requires Inv(s) && Enabled(s, e) && Strips(s, e)
    ensures History(Next(s, e).disk) == Settled(s.disk) && |History(Next(s, e).disk)| < |History(s.disk)|
    ensures Inv(Next(s, e))
  {
    hide DiskInv, Settled, Live, RotatedAt, Stopped, RotateWrites, Unkept, StoppedAt, MemoryInv, Size;
    var d, m := s.disk, s.process.memory;
    var k := if e.Rotate? then 11 else e.at;
    RotationKeeps(d, m, e.id, k);
    RotatedMemory(d, m, e.id, k);
    if e.RotateStops? {
      RotationStopsAt(d, m, e.id, k, e.cut);
      LateStop(d, m, e.id, k, e.cut);
    }
  }

  /** A finished rotation leaves nothing for a start to recover. */
  lemma FinishedHoldsNothing(d: Disk, budget: nat)
    requires DiskInv(d) && d.marker.Marker? && FinishWrites(d).Some?
    ensures BoundedWrites(Finished(d), budget) == [] && StartMark(StartVerdict(d, budget)) == []
    ensures Recovered(Finished(d), budget) == Finished(d) && StartWrites(d, budget) == FinishWrites(d).value
  {
    hide VerifyRecord, LineVerifies, Archived, History;
    FinishKeeps(d);
    OtherVerdict(d, budget);
  }

  /** The live chain verifies, or a rotation is half way through replacing it. */
  predicate Whole(d: Disk) {
    LiveOk(d) || Torn(d)
  }

  /** The step keeps what was recorded, an acknowledged record joins it, and the live chain stays whole. */
  ghost predicate StepIsLossless(s: State, e: Event, t: State) {
    && History(s.disk) <= History(t.disk)
    && (Acknowledged(s, e) ==> History(t.disk) == History(s.disk) + [NextRecord(s.process.memory, e.draft)])
    && Whole(t.disk)
  }

  lemma InvIsWhole(d: Disk)
    requires DiskInv(d)
    ensures Whole(d)
  {
  }

  lemma BrokenIsNotWhole(d: Disk)
    requires !ChainOk(d.log, d.head)
    ensures Whole(d) ==> d.log == Some(EMPTY_LOG)
  {
  }

  lemma DestroyedIsNotWhole(s: State, e: Event)
    requires Inv(s) && Enabled(s, e) && Destroys(s, e)
    ensures !Whole(Next(s, e).disk)
  {
    hide VerifyRecord, ValidText, Size, NextRecord, Archived, Linked, LineVerifies, Stopped, AppendWrites, Crashed,
         DiskInv, MemoryInv, History, Settled, LiveOk, ChainOk, WithRecord, Torn, Whole;
    var at, cut := if e.Append? then 2 else e.at, if e.Append? then Cut(0, None, map[]) else e.cut;
    UnterminatedIsDestroyed(s.disk, s.process.memory, e.draft, at, cut);
    CrashedNext(s, e, at, cut);
    BrokenIsNotWhole(Next(s, e).disk);
  }

  lemma StepIsLosslessExactlyWhen(s: State, e: Event)
    requires Inv(s) && Enabled(s, e)
    ensures StepIsLossless(s, e, Next(s, e)) <==> !Loses(s, e)
  {
    hide VerifyRecord, ValidText, Size, NextRecord, Archived, Linked, LineVerifies, DiskInv, Sealed, MemoryInv,
         Whole, History, Settled, Destroys, DropsLive, Strips, Next, MarkInv;
    if Destroys(s, e) {
      DestroyedIsNotWhole(s, e);
    } else if DropsLive(s, e) {
      DroppingLoses(s, e);
    } else if Strips(s, e) {
      StrippingLoses(s, e);
    } else {
      EveryStepIsGood(s, e);
      InvIsWhole(Next(s, e).disk);
    }
  }

  /**
   A run from a first installation keeps every record it ever held, whether archived or removed by
   retention, and everything it acknowledged, step by step, exactly when no Append reached a log whose last
   line lacked its newline, no start finished a rotation over records that no archive holds, and no rotation
   emptied the log while 24 complete archives were preferred to its own.
   */
  lemma RunIsLosslessExactlyWhen(states: seq<State>, events: seq<Event>)
    requires Run(states, events) && states[0] == FIRST_INSTALL
    ensures (forall k :: 0 <= k < |events| ==> StepIsLossless(states[k], events[k], states[k + 1]))
            <==> Lossless(states, events, |events|)
  {
    hide Inv, Enabled, Next, Loses, StepIsLossless;
    FirstInstallInv();
    if Lossless(states, events, |events|) {
      forall k | 0 <= k < |events|
        ensures StepIsLossless(states[k], events[k], states[k + 1])
      {
        RunKeepsHistory(states, events, k, k);
        StepIsLosslessExactlyWhen(states[k], events[k]);
      }
    }
    if forall k :: 0 <= k < |events| ==> StepIsLossless(states[k], events[k], states[k + 1]) {
      LosslessByInduction(states, events, |events|);
    }
  }

  lemma {:induction false} LosslessByInduction(states: seq<State>, events: seq<Event>, n: nat)
    requires Run(states, events) && states[0] == FIRST_INSTALL && n <= |events|
    requires forall k :: 0 <= k < |events| ==> StepIsLossless(states[k], events[k], states[k + 1])
    ensures Lossless(states, events, n)
  {
    hide Inv, Enabled, Next, Loses, StepIsLossless;
    if n > 0 {
      var k := n - 1;
      LosslessByInduction(states, events, k);
      FirstInstallInv();
      RunKeepsHistory(states, events, k, k);
      assert StepIsLossless(states[k], events[k], states[k + 1]);
      StepIsLosslessExactlyWhen(states[k], events[k]);
    }
  }
}
