/**
 The ledger's files and the durable writes of each operation: appending, rotating
 and starting up (control/evidence_ledger.go, control/evidence_rotation.go).

 An operation is a list of writes computed from what is on disk and in memory.
 Replacing a file is atomic; only appending a line, copying the log and removing
 archives can be interrupted half way.
 */
module EvidenceDisk {
  import opened Options
  import opened EvidenceChain
  import ArchiveRetention

  /** The digests in a manifest are ideal, so a manifest holds what was digested. */
  datatype Manifest = Manifest(id: nat, records: nat, head: Hash,
                               ledger: Option<LogFile>, checkpoint: HeadFile, watermark: Option<Watermark>)

  datatype Archive = Archive(log: Option<LogFile>, head: HeadFile, mark: Option<Watermark>, manifest: Option<Manifest>)

  datatype MarkerFile = NoMarker | BadMarker | Marker(id: nat, digest: Manifest)

  /** A part of the recorded past: an archive, from one of its records on, or what retention removed. */
  datatype Chapter = Shelved(id: nat, from: nat) | Retired(records: seq<Record>)

  /**
   The files. The last two fields are not files and serve only to state what the files hold
   together: the recorded past, in the order of the rotations; and how many records of the live
   chain it already holds, because a rotation has archived them and not yet replaced the log.
   */
  datatype Disk = Disk(log: Option<LogFile>, head: HeadFile, mark: Option<Watermark>, marker: MarkerFile,
                       archives: map<nat, Archive>, past: seq<Chapter>, overlap: nat)

  datatype Scope = Unverified | NothingSealed | Bounded | Full | Partial(upTo: nat, sealed: nat)

  /** The fields of a running ledger. */
  datatype Memory = Memory(sequence: nat, head: Hash, expectedSize: nat, budget: nat,
                           quarantined: bool, full: bool, recent: seq<Record>, scope: Scope)

  const EMPTY_LOG := LogFile([], true)
  const EMPTY_ARCHIVE := Archive(None, NoHead, None, None)
  const RETENTION: nat := 24
  const NOTHING_SEALED := Checkpoint(RECORD_VERSION, 0, NoHash)

  // -------------------------------------------------------------------- writes

  datatype Write =
    | AppendLine(line: Line)
    | PutLog(log: LogFile)
    | PutHead(checkpoint: Checkpoint)
    | PutMark(mark: Watermark)
    | DropMark
    | PutMarker(id: nat, digest: Manifest)
    | DropMarker
    | MakeArchive(id: nat)
    | CopyLog(id: nat)
    | CopyHead(id: nat)
    | CopyMark(id: nat)
    | PutManifest(id: nat, manifest: Manifest)
    | PruneArchives

  /** A line written after an unterminated one continues it. */
  function Fuse(last: Line, line: Line): Line {
    match last
    case Blank(size) =>
      (match line
       case Blank(s) => Blank(size + s)
       case Encrypted(n, r, s) => Encrypted(n, r, size + s)
       case Plaintext(r, s) => Plaintext(r, size + s)
       case Garbage(s) => Garbage(size + s))
    case _ => Garbage(last.size + line.size)
  }

  function Join(log: LogFile, line: Line, newline: bool): LogFile {
    if log.terminated || log.lines == [] then LogFile(log.lines + [line], newline)
    else
      var n := |log.lines| - 1;
      LogFile(log.lines[..n] + [Fuse(log.lines[n], line)], newline)
  }

  /** The log after `written` bytes of the line and its newline have reached it. */
  function AddLine(log: LogFile, line: Line, written: nat): LogFile {
    if written == 0 then log
    else if written < line.size then Join(log, Garbage(written), false)
    else Join(log, line, written > line.size)
  }

  function LogOf(d: Disk): LogFile {
    if d.log.Some? then d.log.value else EMPTY_LOG
  }

  function ArchiveOf(d: Disk, id: nat): Archive {
    if id in d.archives then d.archives[id] else EMPTY_ARCHIVE
  }

  function Perform(d: Disk, w: Write): Disk {
    match w
    case AppendLine(line) => d.(log := Some(AddLine(LogOf(d), line, line.size + 1)))
    case PutLog(log) => d.(log := Some(log), overlap := 0)
    case PutHead(c) => d.(head := Head(c))
    case PutMark(m) => d.(mark := Some(m))
    case DropMark => d.(mark := None)
    case PutMarker(id, digest) =>
      d.(marker := Marker(id, digest), past := PastWith(d, id),
         overlap := if Files(d, id) then |SealedIn(d, id)| else d.overlap)
    case DropMarker => d.(marker := NoMarker)
    case MakeArchive(id) => d.(archives := d.archives[id := EMPTY_ARCHIVE])
    case CopyLog(id) => d.(archives := d.archives[id := ArchiveOf(d, id).(log := d.log)])
    case CopyHead(id) => d.(archives := d.archives[id := ArchiveOf(d, id).(head := d.head)])
    case CopyMark(id) => d.(archives := d.archives[id := ArchiveOf(d, id).(mark := d.mark)])
    case PutManifest(id, m) => d.(archives := d.archives[id := ArchiveOf(d, id).(manifest := Some(m))])
    case PruneArchives =>
      d.(archives := d.archives - Surplus(d), past := Retire(d.archives, d.past, Surplus(d)))
  }

  // ------------------------------------------------------------------ archives

  /** Archives with a manifest. */
  function CompleteIds(archives: map<nat, Archive>): set<nat> {
    set id | id in archives && archives[id].manifest.Some?
  }

  /** The archive that a pending rotation names is spared by retention. */
  function Protected(d: Disk): Option<nat> {
    if d.marker.Marker? then Some(d.marker.id) else None
  }

  /** What retention removes. */
  function Surplus(d: Disk): set<nat> {
    ArchiveRetention.Removed(CompleteIds(d.archives), Protected(d), RETENTION)
  }

  /** The past once the archives in `gone` are removed. */
  function Retire(archives: map<nat, Archive>, past: seq<Chapter>, gone: set<nat>): seq<Chapter> {
    seq(|past|, i requires 0 <= i < |past| =>
      if past[i].Shelved? && past[i].id in gone then Retired(Content(archives, past[i])) else past[i])
  }

  /** The records an archive holds under its checkpoint. */
  function SealedIn(d: Disk, id: nat): seq<Record> {
    Sealed(ArchiveOf(d, id).log, ArchiveOf(d, id).head)
  }

  /** The archive is there and holds a chain that verifies. */
  predicate Files(d: Disk, id: nat) {
    id in d.archives && ChainOk(d.archives[id].log, d.archives[id].head)
  }

  /** The past once a marker names `id`: the archive holds what the past does not hold yet. */
  function PastWith(d: Disk, id: nat): seq<Chapter> {
    if Files(d, id) then d.past + [Shelved(id, d.overlap)] else d.past
  }

  /**
   What an interrupted write leaves: bytes of a line, part of a copy, or the archives that removal has
   reached with what is left of each.
   */
  datatype Cut = Cut(written: nat, debris: Option<LogFile>, left: map<nat, Option<Archive>>)

  /** Retention interrupted: some of the surplus is gone, or damaged. */
  function PartlyPruned(d: Disk, left: map<nat, Option<Archive>>): Disk {
    var reached := left.Keys * Surplus(d);
    d.(archives := map a | a in d.archives && (a in reached ==> left[a].Some?) ::
                     if a in reached then left[a].value else d.archives[a],
       past := Retire(d.archives, d.past, reached))
  }

  function Interrupt(d: Disk, w: Write, cut: Cut): Disk {
    match w
    case AppendLine(line) => d.(log := Some(AddLine(LogOf(d), line, cut.written)))
    case CopyLog(id) => d.(archives := d.archives[id := ArchiveOf(d, id).(log := cut.debris)])
    case PruneArchives => PartlyPruned(d, cut.left)
    case _ => d
  }

  /** The disk after the first `k` writes. */
  function After(d: Disk, ws: seq<Write>, k: nat): Disk
    requires k <= |ws|
  {
    if k == 0 then d else Perform(After(d, ws, k - 1), ws[k - 1])
  }

  /** Two lists of writes in a row. */
  lemma {:induction false} AfterConcat(d: Disk, a: seq<Write>, b: seq<Write>, k: nat)
    requires k <= |a| + |b|
    ensures After(d, a + b, k) == if k <= |a| then After(d, a, k) else After(After(d, a, |a|), b, k - |a|)
  {
    hide Perform;
    if k > 0 {
      AfterConcat(d, a, b, k - 1);
      if k == |a| + 1 {
        assert After(After(d, a, |a|), b, 0) == After(d, a, |a|);
      }
    }
  }

  /** The disk after an operation stopped in its write number `k` (from 0), or finished when there is none. */
  function Stopped(d: Disk, ws: seq<Write>, k: nat, cut: Cut): Disk
    requires k <= |ws|
  {
    if k < |ws| then Interrupt(After(d, ws, k), ws[k], cut) else After(d, ws, k)
  }

  // -------------------------------------------------------------------- append

  /** What the caller passes, the identifier and time used when it passes none, and the sealed line's length. */
  datatype Draft = Draft(id: string, time: int, severity: string, kind: string, source: string, message: string,
                         target: string, requestId: string, freshId: string, now: int, size: nat)

  /** A random identifier is not empty, the clock is not at the zero time, and a sealed line has bytes. */
  predicate Sensible(draft: Draft) {
    draft.freshId != "" && draft.now != 0 && draft.size > 0
  }

  /** The record holds what the caller passed; an identifier and a time only where the caller passed none. */
  predicate Carries(r: Record, draft: Draft) {
    var p := r.payload;
    && p.severity == draft.severity && p.kind == draft.kind && p.source == draft.source
    && p.message == draft.message && p.target == draft.target && p.requestId == draft.requestId
    && (if draft.id != "" then p.id == draft.id else p.id == draft.freshId)
    && (if draft.time != 0 then p.time == draft.time else p.time == draft.now)
  }

  /** The record is the next of a chain with this many records and this head, hashed and signed. */
  predicate Continues(r: Record, sequence: nat, head: Hash) {
    && r.payload.version == RECORD_VERSION && r.payload.sequence == sequence + 1 && r.payload.prev == head
    && r.hash == Hex(r.payload, 0) && r.signature == Signed(r.payload)
  }

  /** The texts the ledger takes: the first four are required, none is too long or holds a zero byte. */
  predicate TextsAllowed(draft: Draft) {
    && 1 <= |draft.severity| <= 32 && 1 <= |draft.kind| <= 128
    && 1 <= |draft.source| <= 128 && 1 <= |draft.message| <= 4096
    && |draft.target| <= 1024 && |draft.requestId| <= 256
    && '\0' !in draft.severity + draft.kind + draft.source + draft.message + draft.target + draft.requestId
  }

  function NextPayload(m: Memory, draft: Draft): Payload {
    Payload(RECORD_VERSION, m.sequence + 1,
            if draft.id == "" then draft.freshId else draft.id,
            if draft.time == 0 then draft.now else draft.time,
            draft.severity, draft.kind, draft.source, draft.message, draft.target, draft.requestId, m.head)
  }

  function NextRecord(m: Memory, draft: Draft): Record {
    var p := NextPayload(m, draft);
    Record(p, Hex(p, 0), Signed(p))
  }

  /** verifyUnchangedLocked: the checkpoint and the file size are what the ledger last left. */
  predicate Unchanged(d: Disk, m: Memory) {
    && VerifyCheckpoint(d.head, m.sequence, m.head)
    && (if d.log.None? then m.expectedSize == 0 else Size(d.log.value) == m.expectedSize)
  }

  /** Append reaches the point where it writes. */
  predicate AppendProceeds(d: Disk, m: Memory, draft: Draft) {
    && !m.quarantined
    && ValidText(NextPayload(m, draft))
    && Unchanged(d, m)
    && m.expectedSize + draft.size + 1 <= m.budget
  }

  function AppendWrites(m: Memory, draft: Draft): seq<Write> {
    var r := NextRecord(m, draft);
    [AppendLine(Encrypted(m.sequence + 1, r, draft.size)), PutHead(Checkpoint(RECORD_VERSION, m.sequence + 1, r.hash))]
  }

  /** Memory after an Append that stopped before writing. */
  function AppendRefused(d: Disk, m: Memory, draft: Draft): Memory {
    if m.quarantined || !ValidText(NextPayload(m, draft)) then m
    else if !Unchanged(d, m) then m.(quarantined := true)
    else m.(full := true)
  }

  /** Memory after a committed Append. */
  function AppendDone(m: Memory, draft: Draft): Memory {
    var r := NextRecord(m, draft);
    m.(sequence := m.sequence + 1, head := r.hash, expectedSize := m.expectedSize + draft.size + 1, full := false,
       recent := Tail(m.recent + [r], RECENT_LIMIT))
  }

  // ------------------------------------------------------------------ rotation

  /** Rotate gets as far as creating the directory of the new archive. */
  predicate RotateBegins(d: Disk, m: Memory, id: nat) {
    && !m.quarantined
    && !(m.sequence == 0 && m.expectedSize == 0)
    && id !in d.archives
  }

  /** The archive copy is bounded by the budget; a budget of zero does not bound it. */
  predicate RotateProceeds(d: Disk, m: Memory, id: nat) {
    RotateBegins(d, m, id) && (m.budget == 0 || Size(LogOf(d)) <= m.budget)
  }

  function ManifestFor(d: Disk, m: Memory, id: nat): Manifest {
    Manifest(id, m.sequence, m.head, d.log, d.head, d.mark)
  }

  /** Swapping in an empty chain and clearing the marker. */
  function SwapWrites(): seq<Write> {
    [PutLog(EMPTY_LOG), PutHead(NOTHING_SEALED), DropMark, DropMarker]
  }

  /** Copying the chain into a new archive, sealing it with a manifest, retention, and announcing the swap. */
  function SealWrites(d: Disk, m: Memory, id: nat): seq<Write> {
    var manifest := ManifestFor(d, m, id);
    [MakeArchive(id), CopyLog(id), CopyHead(id), CopyMark(id), PutManifest(id, manifest), PruneArchives,
     PutMarker(id, manifest)]
  }

  function RotateWrites(d: Disk, m: Memory, id: nat): seq<Write> {
    SealWrites(d, m, id) + SwapWrites()
  }

  function FreshMemory(m: Memory): Memory {
    Memory(0, NoHash, 0, m.budget, false, false, [], NothingSealed)
  }

  /** finishInterruptedEvidenceRotation: None is its error. */
  function FinishWrites(d: Disk): Option<seq<Write>> {
    match d.marker
    case NoMarker => Some([])
    case BadMarker => None
    case Marker(id, digest) =>
      if id in d.archives && d.archives[id].manifest == Some(digest) then Some(SwapWrites()) else None
  }

  // ------------------------------------------------------------------ start-up

  /** The records of a log: lines that hold more than white space. */
  function NonBlank(lines: seq<Line>): seq<Line> {
    if lines == [] then []
    else
      var rest := NonBlank(lines[..|lines| - 1]);
      if lines[|lines| - 1].Blank? then rest else rest + [lines[|lines| - 1]]
  }

  /** recoverUnsealedEvidenceTail: seal the one unsealed record if it verifies, otherwise remove it. */
  function Recovery(records: seq<Line>, c: Checkpoint): Write
    requires |records| == c.sequence + 1
  {
    var found := Open(records[c.sequence], c.sequence + 1);
    if found.Some? && VerifyRecord(found.value, c.sequence + 1, c.head)
    then PutHead(Checkpoint(RECORD_VERSION, c.sequence + 1, found.value.hash))
    else PutLog(LogFile(records[..c.sequence], true))
  }

  datatype BoundedResult = Refused | Accepted(head: Hash, sequence: nat, recent: seq<Record>, size: nat, scope: Scope)

  /** The records counted against the checkpoint, and the last `limit` of them verified against its head. */
  function CheckTail(log: LogFile, c: Checkpoint, limit: nat): BoundedResult
    requires limit > 0
  {
    var records := NonBlank(log.lines);
    if |records| != c.sequence || c.sequence == 0 then Refused
    else
      var start := c.sequence - Min(limit, c.sequence) + 1;
      if Linked(records, start, c.sequence, PayloadAt(records, start).prev) && HashAt(records, c.sequence) == c.head
      then Accepted(c.head, c.sequence, Records(records, start, c.sequence), Size(log),
                    if start == 1 then Full else Bounded)
      else Refused
  }

  const NOTHING_STORED := Accepted(NoHash, 0, [], 0, NothingSealed)

  /** The one write bounded verification may make before it checks the tail. */
  function BoundedWrites(d: Disk, maxBytes: nat): seq<Write> {
    if d.log.None? || Size(d.log.value) > maxBytes || !d.head.Head? then []
    else
      var c := d.head.checkpoint;
      var records := NonBlank(d.log.value.lines);
      if c.version == RECORD_VERSION && c.sequence > 0 && |records| == c.sequence + 1
      then [Recovery(records, c)] else []
  }

  /** verifyEvidenceFilesBounded, after its write. */
  function BoundedVerdict(d: Disk, maxBytes: nat, limit: nat): BoundedResult
    requires limit > 0
  {
    if d.log.None? then (if d.head.NoHead? then NOTHING_STORED else Refused)
    else
      var size := Size(d.log.value);
      if size > maxBytes then Refused
      else match d.head
        case NoHead => if size == 0 then NOTHING_STORED else Refused
        case BadHead => Refused
        case Head(c) =>
          if c.version != RECORD_VERSION then Refused
          else if c.sequence == 0 then (if size == 0 then NOTHING_STORED else Refused)
          else
            var after := After(d, BoundedWrites(d, maxBytes), |BoundedWrites(d, maxBytes)|);
            if after.log.Some? && after.head.Head?
            then CheckTail(after.log.value, after.head.checkpoint, limit) else Refused
  }

  function StartMark(verdict: BoundedResult): seq<Write> {
    if verdict.Accepted? && verdict.scope.Full? then [PutMark(Watermark(verdict.sequence, verdict.head))] else []
  }

  function StartedMemory(verdict: BoundedResult, budget: nat): Memory {
    match verdict
    case Refused => Memory(0, NoHash, 0, budget, true, false, [], Unverified)
    case Accepted(head, sequence, recent, size, scope) =>
      Memory(sequence, head, size, budget, false, false, recent, scope)
  }

  /** The disk once an interrupted rotation has been finished. */
  function Finished(d: Disk): Disk {
    var ws := FinishWrites(d);
    if ws.None? then d else After(d, ws.value, |ws.value|)
  }

  function StartVerdict(d: Disk, budget: nat): BoundedResult {
    if FinishWrites(d).None? then Refused else BoundedVerdict(Finished(d), budget, RECENT_LIMIT)
  }

  /** Every write a start makes, in order. */
  function StartWrites(d: Disk, budget: nat): seq<Write> {
    var ws := FinishWrites(d);
    if ws.None? then []
    else ws.value + BoundedWrites(Finished(d), budget) + StartMark(StartVerdict(d, budget))
  }

  // ------------------------------------------------------ what the files hold

  /** The records a checkpoint seals verify from the empty hash and end on its head. */
  predicate ChainOk(log: Option<LogFile>, head: HeadFile) {
    match head
    case NoHead => true
    case BadHead => false
    case Head(c) =>
      && c.version == RECORD_VERSION && log.Some?
      && c.sequence <= |log.value.lines|
      && Linked(log.value.lines, 1, c.sequence, NoHash)
      && HashAt(log.value.lines, c.sequence) == c.head
  }

  /** The records that verify under a checkpoint; a chain that does not verify holds none. */
  function Sealed(log: Option<LogFile>, head: HeadFile): seq<Record> {
    if head.Head? && ChainOk(log, head) then Records(log.value.lines, 1, head.checkpoint.sequence) else []
  }

  /** The records of a chapter. */
  function Content(archives: map<nat, Archive>, c: Chapter): seq<Record> {
    match c
    case Shelved(id, from) =>
      if id in archives then From(Sealed(archives[id].log, archives[id].head), from) else []
    case Retired(records) => records
  }

  function From(records: seq<Record>, from: nat): seq<Record> {
    if from <= |records| then records[from..] else []
  }

  function Archived(archives: map<nat, Archive>, past: seq<Chapter>): seq<Record> {
    if past == [] then []
    else Archived(archives, past[..|past| - 1]) + Content(archives, past[|past| - 1])
  }

  /** The recorded past: what the archives hold, and what retention removed. */
  function Settled(d: Disk): seq<Record> {
    Archived(d.archives, d.past)
  }

  /** What only the live chain holds. */
  function Live(d: Disk): seq<Record> {
    From(Sealed(d.log, d.head), d.overlap)
  }

  /** Everything recorded so far, oldest first. */
  function History(d: Disk): seq<Record> {
    Settled(d) + Live(d)
  }
}
