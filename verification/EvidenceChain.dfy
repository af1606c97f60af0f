/**
 The hash-chained evidence log: records, the checks one record has to pass, and
 the walk over the chain (control/evidence_ledger.go).

 SHA-256 is a free constructor, so two payloads with the same digest are equal.
 A hash field is text: the digest in some upper/lower case spelling, or text
 that does not decode. Ed25519 and the storage cipher are ideal.
 */
module EvidenceChain {
  import opened Options

  const RECORD_VERSION := 1
  const RECENT_LIMIT: nat := 4096

  /** The text of a hash field. Spelling 0 is what hex.EncodeToString prints. */
  datatype Hash = NoHash | Hex(digest: Payload, spelling: nat) | NotHex(text: string)

  datatype Payload = Payload(version: int, sequence: nat, id: string, time: int,
                             severity: string, kind: string, source: string, message: string,
                             target: string, requestId: string, prev: Hash)

  datatype Signature = Signed(digest: Payload) | BadSignature

  datatype Record = Record(payload: Payload, hash: Hash, signature: Signature)

  /** One line of the log without its newline; `size` is its length in bytes. */
  datatype Line =
    | Blank(size: nat)
    | Encrypted(sequence: nat, record: Record, size: nat)
    | Plaintext(record: Record, size: nat)
    | Garbage(size: nat)

  /** The log file. `terminated` says that the last line ends in a newline. */
  datatype LogFile = LogFile(lines: seq<Line>, terminated: bool)

  datatype Checkpoint = Checkpoint(version: int, sequence: nat, head: Hash)

  /** What reading the checkpoint file gives. */
  datatype HeadFile = NoHead | BadHead | Head(checkpoint: Checkpoint)

  datatype Watermark = Watermark(sequence: nat, head: Hash)

  // ---------------------------------------------------------------- one record

  predicate TextWithin(text: string, max: nat, required: bool) {
    && (required ==> text != "")
    && |text| <= max
    && '\0' !in text
  }

  predicate ValidText(p: Payload) {
    && TextWithin(p.severity, 32, true)
    && TextWithin(p.kind, 128, true)
    && TextWithin(p.source, 128, true)
    && TextWithin(p.message, 4096, true)
    && TextWithin(p.target, 1024, false)
    && TextWithin(p.requestId, 256, false)
  }

  predicate VerifyRecord(r: Record, sequence: nat, previous: Hash) {
    && r.payload.version == RECORD_VERSION
    && r.payload.sequence == sequence
    && r.payload.id != ""
    && r.payload.time != 0
    && r.payload.prev == previous
    && ValidText(r.payload)
    && r.hash.Hex?
    && r.hash.digest == r.payload
    && r.signature == Signed(r.payload)
  }

  /** Decrypts and decodes one line: an envelope is bound to the sequence it was sealed for. */
  function Open(line: Line, sequence: nat): Option<Record> {
    match line
    case Encrypted(s, r, _) => if s == sequence then Some(r) else None
    case Plaintext(r, _) => Some(r)
    case _ => None
  }

  // ----------------------------------------------------------------- the chain

  /** The record that line `i` (counting from 1) opens to; an unusable record when it does not open. */
  function RecordAt(lines: seq<Line>, i: nat): Record
    requires 1 <= i <= |lines|
  {
    match Open(lines[i - 1], i)
    case Some(r) => r
    case None => Record(Payload(0, 0, "", 0, "", "", "", "", "", "", NoHash), NoHash, BadSignature)
  }

  function HashAt(lines: seq<Line>, i: nat): Hash
    requires i <= |lines|
  {
    if i == 0 then NoHash else RecordAt(lines, i).hash
  }

  function PayloadAt(lines: seq<Line>, i: nat): Payload
    requires 1 <= i <= |lines|
  {
    RecordAt(lines, i).payload
  }

  function Records(lines: seq<Line>, from: nat, to: nat): (rs: seq<Record>)
    requires 1 <= from <= to + 1 && to <= |lines|
    ensures |rs| == to + 1 - from
    ensures forall k :: 0 <= k < |rs| ==> rs[k] == RecordAt(lines, from + k)
  {
    seq(to + 1 - from, k requires 0 <= k < to + 1 - from => RecordAt(lines, from + k))
  }

  /** Line `i` verifies in a walk that starts at `from` with the trusted predecessor `previous`. */
  predicate LineVerifies(lines: seq<Line>, i: nat, from: nat, previous: Hash)
    requires 1 <= from <= i <= |lines|
  {
    && Open(lines[i - 1], i).Some?
    && VerifyRecord(RecordAt(lines, i), i, if i == from then previous else HashAt(lines, i - 1))
  }

  /** Every line of `from..to` verifies and links to its predecessor. */
  predicate Linked(lines: seq<Line>, from: nat, to: nat, previous: Hash)
    requires 1 <= from && to <= |lines|
  {
    forall i :: from <= i <= to ==> LineVerifies(lines, i, from, previous)
  }

  /** A walk may be cut anywhere: the second part starts from the hash the first part ended on. */
  lemma LinkedSplit(lines: seq<Line>, from: nat, mid: nat, to: nat, previous: Hash)
    requires 1 <= from <= mid <= to <= |lines|
    ensures Linked(lines, from, to, previous) ==
            (Linked(lines, from, mid, previous) && Linked(lines, mid + 1, to, HashAt(lines, mid)))
  {
    var anchor, next := HashAt(lines, mid), mid + 1;
    if Linked(lines, from, to, previous) {
      forall i | next <= i <= to
        ensures LineVerifies(lines, i, next, anchor)
      {
        assert LineVerifies(lines, i, from, previous);
      }
      assert Linked(lines, from, mid, previous);
    }
    if Linked(lines, from, mid, previous) && Linked(lines, mid + 1, to, anchor) {
      forall i | from <= i <= to
        ensures LineVerifies(lines, i, from, previous)
      {
        assert i > mid ==> LineVerifies(lines, i, next, anchor);
      }
    }
  }

  /** Adding lines at the end leaves the verified range and its records alone. */
  lemma LinkedGrows(lines: seq<Line>, more: seq<Line>, from: nat, to: nat, previous: Hash)
    requires 1 <= from && to <= |lines| && lines <= more
    ensures Linked(more, from, to, previous) == Linked(lines, from, to, previous)
    ensures forall i :: 1 <= i <= to ==> RecordAt(more, i) == RecordAt(lines, i)
  {
    forall i | 1 <= i <= to
      ensures RecordAt(more, i) == RecordAt(lines, i)
      ensures from <= i ==> LineVerifies(more, i, from, previous) == LineVerifies(lines, i, from, previous)
    {
      assert more[i - 1] == lines[i - 1];
      assert i > 1 ==> more[i - 2] == lines[i - 2];
    }
  }

  // ------------------------------------------------------------------ the walk

  /** Result of a walk: rejected, or the hash it ended on, the lines counted and the recent records. */
  datatype WalkResult = Rejected | Walked(head: Hash, sequence: nat, recent: seq<Record>, size: nat)

  /** Bytes of the lines, each with a newline. */
  function Bytes(lines: seq<Line>): nat {
    if lines == [] then 0 else Bytes(lines[..|lines| - 1]) + lines[|lines| - 1].size + 1
  }

  function Size(log: LogFile): nat {
    if log.terminated || log.lines == [] then Bytes(log.lines) else Bytes(log.lines) - 1
  }

  lemma {:induction false} BytesAtLeastLines(lines: seq<Line>)
    ensures Bytes(lines) >= |lines|
  {
    if lines != [] { BytesAtLeastLines(lines[..|lines| - 1]); }
  }

  /** The last line a walk with upper bound `to` looks at; 0 means no bound. */
  function WalkEnd(lines: seq<Line>, to: nat): nat {
    if to == 0 then |lines| else Min(to, |lines|)
  }

  /** What a walk over the lines decides, stated over the whole range at once. */
  function WalkLines(lines: seq<Line>, from: nat, to: nat, previous: Hash, size: nat): WalkResult
    requires 1 <= from
  {
    var end := WalkEnd(lines, to);
    if !Linked(lines, from, end, previous) || from > end + 1 then Rejected
    else Walked(if from <= end then HashAt(lines, end) else previous, end, RecentAt(lines, from, end), size)
  }

  function WalkChain(log: Option<LogFile>, maxBytes: nat, from: nat, to: nat, previous: Hash): WalkResult
    requires 1 <= from
  {
    if log.None? then Walked(NoHash, 0, [], 0)
    else if Size(log.value) > maxBytes then Rejected
    else WalkLines(log.value.lines, from, to, previous, Size(log.value))
  }

  /** The recent records a walk has collected once it has counted `sequence` lines. */
  function RecentAt(lines: seq<Line>, from: nat, sequence: nat): seq<Record>
    requires 1 <= from && sequence <= |lines|
  {
    if from <= sequence then Tail(Records(lines, from, sequence), RECENT_LIMIT) else []
  }

  /** One more verified line extends the linked range and the recent window. */
  lemma LinkedStep(lines: seq<Line>, from: nat, i: nat, previous: Hash)
    requires 1 <= from <= i <= |lines|
    requires Linked(lines, from, i - 1, previous) && LineVerifies(lines, i, from, previous)
    ensures Linked(lines, from, i, previous)
    ensures Tail(RecentAt(lines, from, i - 1) + [RecordAt(lines, i)], RECENT_LIMIT) == RecentAt(lines, from, i)
    ensures |RecentAt(lines, from, i - 1)| <= RECENT_LIMIT
  {
    if from <= i - 1 {
      assert Records(lines, from, i) == Records(lines, from, i - 1) + [RecordAt(lines, i)];
      TailOfExtended(Records(lines, from, i - 1), RecordAt(lines, i), RECENT_LIMIT);
    } else {
      assert Records(lines, from, i) == [RecordAt(lines, i)];
    }
  }

  /** The loop of verifyEvidenceChain decides exactly what WalkLines states. */
  method VerifyLines(lines: seq<Line>, from: nat, to: nat, previous: Hash, size: nat) returns (result: WalkResult)
    requires 1 <= from
    ensures result == WalkLines(lines, from, to, previous, size)
  {
    var prev := previous;
    var lastVerified: Option<Hash> := None;
    var recent: seq<Record> := [];
    var sequence := 0;
    while sequence < |lines| && !(to > 0 && sequence >= to)
      invariant 0 <= sequence <= WalkEnd(lines, to)
      invariant Linked(lines, from, sequence, previous)
      invariant if from <= sequence then prev == HashAt(lines, sequence) && lastVerified == Some(prev)
                else prev == previous && lastVerified == None
      invariant recent == RecentAt(lines, from, sequence)
    {
      sequence := sequence + 1;
      if sequence >= from {
        var found := Open(lines[sequence - 1], sequence);
        if found.None? || !VerifyRecord(found.value, sequence, prev) {
          assert !LineVerifies(lines, sequence, from, previous);
          return Rejected;
        }
        assert LineVerifies(lines, sequence, from, previous);
        LinkedStep(lines, from, sequence, previous);
        prev := found.value.hash;
        lastVerified := Some(prev);
        recent := recent + [found.value];
        if |recent| > RECENT_LIMIT {
          recent := recent[|recent| - RECENT_LIMIT..];
        }
      }
    }
    assert sequence == WalkEnd(lines, to);
    if from > sequence + 1 {
      return Rejected;
    }
    var head := if lastVerified.Some? then lastVerified.value else previous;
    result := Walked(head, sequence, recent, size);
  }

  // ------------------------------------------------------- full verification

  predicate VerifyCheckpoint(head: HeadFile, sequence: nat, headHash: Hash) {
    match head
    case NoHead => sequence == 0 && headHash == NoHash
    case BadHead => false
    case Head(c) => c == Checkpoint(RECORD_VERSION, sequence, headHash)
  }

  /** verifyEvidenceFiles: the whole walk, then the checkpoint against its end. */
  function VerifyFiles(log: Option<LogFile>, head: HeadFile, maxBytes: nat): WalkResult {
    if log.None? then (if head.NoHead? then Walked(NoHash, 0, [], 0) else Rejected)
    else
      var walk := WalkChain(log, maxBytes, 1, 0, NoHash);
      if walk.Walked? && VerifyCheckpoint(head, walk.sequence, walk.head) then walk else Rejected
  }

  /** Going backwards from equal hash texts, linked chains carry equal records. */
  lemma {:induction false} ChainsAgreeBackwards(a: seq<Line>, b: seq<Line>, from: nat, i: nat, to: nat,
                                                prevA: Hash, prevB: Hash)
    requires 1 <= from <= i <= to <= |a| && to <= |b|
    requires Linked(a, from, to, prevA) && Linked(b, from, to, prevB)
    requires HashAt(a, to) == HashAt(b, to)
    ensures RecordAt(a, i) == RecordAt(b, i)
    decreases |a| - i
  {
    assert LineVerifies(a, i, from, prevA) && LineVerifies(b, i, from, prevB);
    if i < to {
      ChainsAgreeBackwards(a, b, from, i + 1, to, prevA, prevB);
      assert LineVerifies(a, i + 1, from, prevA) && LineVerifies(b, i + 1, from, prevB);
    }
  }

  /**
   A checkpoint determines the log: two logs that full verification accepts under
   the same checkpoint hold the same records, so no edit, reordering, truncation
   or insertion passes.
   */
  lemma CheckpointDeterminesLog(a: LogFile, b: LogFile, head: HeadFile, maxA: nat, maxB: nat)
    requires VerifyFiles(Some(a), head, maxA).Walked?
    requires VerifyFiles(Some(b), head, maxB).Walked?
    ensures |a.lines| == |b.lines|
    ensures Records(a.lines, 1, |a.lines|) == Records(b.lines, 1, |b.lines|)
  {
    forall i | 1 <= i <= |a.lines|
      ensures RecordAt(a.lines, i) == RecordAt(b.lines, i)
    {
      ChainsAgreeBackwards(a.lines, b.lines, 1, i, |a.lines|, NoHash, NoHash);
    }
  }

  lemma {:induction false} BytesOfPrefix(lines: seq<Line>, n: nat)
    requires n <= |lines|
    ensures Bytes(lines[..n]) + (|lines| - n) <= Bytes(lines)
  {
    if n < |lines| {
      BytesOfPrefix(lines[..|lines| - 1], n);
      assert lines[..|lines| - 1][..n] == lines[..n];
    } else {
      assert lines[..n] == lines;
    }
  }

  /**
   Everything rests on the checkpoint that was read: a log that verifies also verifies when it is cut
   short, under a checkpoint that seals just the shorter part.
   */
  lemma ShorterLogNeedsOnlyItsCheckpoint(log: LogFile, head: HeadFile, maxBytes: nat, n: nat)
    requires VerifyFiles(Some(log), head, maxBytes).Walked? && n < |log.lines|
    ensures var head := Head(Checkpoint(RECORD_VERSION, n, HashAt(log.lines, n)));
            VerifyFiles(Some(LogFile(log.lines[..n], true)), head, maxBytes).Walked?
  {
    hide VerifyRecord;
    var shorter := log.lines[..n];
    BytesOfPrefix(log.lines, n);
    LinkedGrows(shorter, log.lines, 1, n, NoHash);
    assert HashAt(shorter, n) == HashAt(log.lines, n);
  }

  // ------------------------------------------------------ what Append produces

  /** The payloads of a run of appends: numbered from 1, each naming its predecessor's digest. */
  predicate Genuine(chain: seq<Payload>) {
    forall i :: 0 <= i < |chain| ==> GenuineAt(chain, i)
  }

  predicate GenuineAt(chain: seq<Payload>, i: nat)
    requires i < |chain|
  {
    && chain[i].sequence == i + 1
    && chain[i].prev == ChainHead(chain[..i])
  }

  function ChainHead(chain: seq<Payload>): Hash {
    if chain == [] then NoHash else Hex(chain[|chain| - 1], 0)
  }

  /** A window anchored at a genuine head repeats the genuine payloads. */
  lemma {:induction false} WindowIsGenuine(lines: seq<Line>, chain: seq<Payload>, from: nat, i: nat, previous: Hash)
    requires Genuine(chain) && |lines| == |chain|
    requires 1 <= from <= i <= |lines|
    requires Linked(lines, from, |lines|, previous)
    requires HashAt(lines, |lines|) == ChainHead(chain)
    ensures PayloadAt(lines, i) == chain[i - 1]
    decreases |lines| - i
  {
    assert LineVerifies(lines, i, from, previous);
    if i < |lines| {
      WindowIsGenuine(lines, chain, from, i + 1, previous);
      assert LineVerifies(lines, i + 1, from, previous);
      assert GenuineAt(chain, i);
      assert chain[..i][i - 1] == chain[i - 1];
    }
  }
}
