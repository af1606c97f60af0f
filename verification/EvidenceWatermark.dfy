/**
 Incremental verification: each pass walks one bounded chunk from the stored
 watermark towards the checkpoint (control/evidence_ledger.go, VerifyIncremental).
 */
module EvidenceWatermark {
  import opened Options
  import opened EvidenceChain

  const DEFAULT_CHUNK: nat := 25000

  /** A mark names a prefix of the log that verifies from the empty hash and ends on its head. */
  predicate Names(lines: seq<Line>, mark: Watermark) {
    && 1 <= mark.sequence <= |lines|
    && Linked(lines, 1, mark.sequence, NoHash)
    && HashAt(lines, mark.sequence) == mark.head
  }

  predicate Sound(lines: seq<Line>, mark: Option<Watermark>) {
    mark.Some? ==> Names(lines, mark.value)
  }

  function Position(mark: Option<Watermark>): nat {
    if mark.Some? then mark.value.sequence else 0
  }

  /** readWatermark: a mark without a position or a head does not count. */
  function Usable(mark: Option<Watermark>): Option<Watermark> {
    if mark.Some? && (mark.value.sequence == 0 || mark.value.head == NoHash) then None else mark
  }

  datatype PassResult = Failed | CaughtUp | Advanced(mark: Watermark, complete: bool)

  /** One call of VerifyIncremental on a readable checkpoint of the supported version. */
  function Pass(log: Option<LogFile>, maxBytes: nat, sealed: nat, stored: Option<Watermark>, limit: nat): PassResult {
    var chunk := if limit == 0 then DEFAULT_CHUNK else limit;
    var mark := Usable(stored);
    var from := Position(mark) + 1;
    var prev := if mark.Some? then mark.value.head else NoHash;
    if from > sealed then CaughtUp
    else
      var to := Min(from + chunk - 1, sealed);
      var walk := WalkChain(log, maxBytes, from, to, prev);
      if walk.Rejected? || walk.sequence != to then Failed
      else Advanced(Watermark(to, walk.head), to == sealed)
  }

  /** The log and the checkpoint as one pass finds them. */
  datatype Snapshot = Snapshot(log: LogFile, sealed: nat)

  /** Append writes the record before the checkpoint, so what is sealed is on disk. */
  predicate Complete(s: Snapshot, maxBytes: nat) {
    s.sealed <= |s.log.lines| && Size(s.log) <= maxBytes
  }

  /** Between two passes the log only grows. */
  predicate Growing(snaps: seq<Snapshot>, maxBytes: nat) {
    && (forall i :: 0 <= i < |snaps| ==> Complete(snaps[i], maxBytes))
    && (forall i, j :: 0 <= i < j < |snaps| ==>
          snaps[i].log.lines <= snaps[j].log.lines && snaps[i].sealed <= snaps[j].sealed)
  }

  /** Where a pass that succeeds leaves the watermark. */
  function Reached(position: nat, sealed: nat, chunk: nat): nat {
    if position >= sealed then position else position + Min(chunk, sealed - position)
  }

  /** Where all passes together leave the watermark when none of them fails. */
  function ReachedBy(snaps: seq<Snapshot>, position: nat, chunk: nat): nat {
    if snaps == [] then position else ReachedBy(snaps[1..], Reached(position, snaps[0].sealed, chunk), chunk)
  }

  /** Runs one pass per snapshot; None as soon as one of them fails. */
  function Passes(snaps: seq<Snapshot>, maxBytes: nat, mark: Option<Watermark>, chunk: nat): Option<Option<Watermark>> {
    if snaps == [] then Some(mark)
    else match Pass(Some(snaps[0].log), maxBytes, snaps[0].sealed, mark, chunk)
      case Failed => None
      case CaughtUp => Passes(snaps[1..], maxBytes, mark, chunk)
      case Advanced(next, _) => Passes(snaps[1..], maxBytes, Some(next), chunk)
  }

  /** A pass over a grown log keeps the mark sound, moves it by min(chunk, remaining), and fails only on damage. */
  lemma PassExtends(s: Snapshot, maxBytes: nat, mark: Option<Watermark>, chunk: nat)
    requires chunk > 0 && Complete(s, maxBytes) && Sound(s.log.lines, mark)
    ensures var to := Reached(Position(mark), s.sealed, chunk);
            to <= |s.log.lines| &&
            match Pass(Some(s.log), maxBytes, s.sealed, mark, chunk)
            case Failed => !Linked(s.log.lines, 1, to, NoHash)
            case CaughtUp => to == Position(mark) && Position(mark) >= s.sealed
            case Advanced(next, complete) =>
              Names(s.log.lines, next) && next.sequence == to && complete == (to == s.sealed)
  {
    var lines := s.log.lines;
    var to := Reached(Position(mark), s.sealed, chunk);
    if mark.Some? {
      assert LineVerifies(lines, mark.value.sequence, 1, NoHash);
      assert Usable(mark) == mark;
      if mark.value.sequence <= to {
        LinkedSplit(lines, 1, mark.value.sequence, to, NoHash);
      }
    }
  }

  /** Soundness survives appends. */
  lemma SoundGrows(lines: seq<Line>, more: seq<Line>, mark: Option<Watermark>)
    requires lines <= more && Sound(lines, mark)
    ensures Sound(more, mark)
  {
    if mark.Some? {
      LinkedGrows(lines, more, 1, mark.value.sequence, NoHash);
    }
  }

  lemma LinkedShrinks(lines: seq<Line>, less: nat, to: nat)
    requires less <= to <= |lines| && Linked(lines, 1, to, NoHash)
    ensures Linked(lines, 1, less, NoHash)
  {
  }

  lemma {:induction false} ReachedByBounds(snaps: seq<Snapshot>, maxBytes: nat, position: nat, chunk: nat)
    requires snaps != [] && Growing(snaps, maxBytes) && position <= |snaps[0].log.lines|
    ensures position <= ReachedBy(snaps, position, chunk) <= |snaps[|snaps| - 1].log.lines|
    decreases |snaps|
  {
    var next := Reached(position, snaps[0].sealed, chunk);
    assert Complete(snaps[0], maxBytes);
    if |snaps| > 1 {
      assert snaps[0].log.lines <= snaps[1].log.lines;
      assert snaps[1..][|snaps| - 2] == snaps[|snaps| - 1];
      ReachedByBounds(snaps[1..], maxBytes, next, chunk);
    } else {
      assert ReachedBy(snaps[1..], next, chunk) == next;
    }
  }

  /**
   Passes over a log that only grows accept exactly when one walk from the first
   record to where they end accepts, and the watermark they store is sound.
   */
  lemma {:induction false} PassesAcceptExactlyTheWalk(snaps: seq<Snapshot>, maxBytes: nat, mark: Option<Watermark>,
                                                      chunk: nat)
    requires snaps != [] && chunk > 0 && Growing(snaps, maxBytes)
    requires Sound(snaps[0].log.lines, mark)
    ensures ReachedBy(snaps, Position(mark), chunk) <= |snaps[|snaps| - 1].log.lines|
    ensures var lines := snaps[|snaps| - 1].log.lines;
            var end := ReachedBy(snaps, Position(mark), chunk);
            var result := Passes(snaps, maxBytes, mark, chunk);
            && (result.Some? <==> Linked(lines, 1, end, NoHash))
            && (result.Some? ==> Sound(lines, result.value) && Position(result.value) == end)
    decreases |snaps|
  {
    var last := |snaps| - 1;
    var lines := snaps[last].log.lines;
    var end := ReachedBy(snaps, Position(mark), chunk);
    ReachedByBounds(snaps, maxBytes, Position(mark), chunk);
    assert Complete(snaps[0], maxBytes);
    PassExtends(snaps[0], maxBytes, mark, chunk);
    var to := Reached(Position(mark), snaps[0].sealed, chunk);
    var step := Pass(Some(snaps[0].log), maxBytes, snaps[0].sealed, mark, chunk);
    if last == 0 {
      assert snaps[1..] == [];
    } else {
      var rest := snaps[1..];
      assert rest[last - 1] == snaps[last];
      assert snaps[0].log.lines <= snaps[1].log.lines && snaps[0].log.lines <= lines;
      ReachedByBounds(rest, maxBytes, to, chunk);
      if step.Failed? {
        LinkedGrows(snaps[0].log.lines, lines, 1, to, NoHash);
        if Linked(lines, 1, end, NoHash) {
          LinkedShrinks(lines, to, end);
        }
      } else {
        var next := if step.CaughtUp? then mark else Some(step.mark);
        SoundGrows(snaps[0].log.lines, snaps[1].log.lines, next);
        PassesAcceptExactlyTheWalk(rest, maxBytes, next, chunk);
      }
    }
  }

  /** Enough passes over one log reach everything that is sealed. */
  lemma {:induction false} EnoughPassesReachTheCheckpoint(snaps: seq<Snapshot>, sealed: nat, position: nat, chunk: nat)
    requires position <= sealed
    requires forall i :: 0 <= i < |snaps| ==> snaps[i].sealed == sealed
    requires |snaps| * chunk >= sealed - position
    ensures ReachedBy(snaps, position, chunk) == sealed
    decreases |snaps|
  {
    if snaps != [] {
      assert |snaps[1..]| * chunk == |snaps| * chunk - chunk;
      EnoughPassesReachTheCheckpoint(snaps[1..], sealed, Reached(position, sealed, chunk), chunk);
    }
  }
}
