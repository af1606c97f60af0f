/**
 What bounded verification establishes about a log whose checkpoint came from a
 genuine run of appends, and the loops that read the tail of the log
 (control/evidence_ledger.go).
 */
module EvidenceTail {
  import opened Options
  import opened EvidenceChain
  import opened EvidenceDisk
  import opened EvidenceStart

  // ------------------------------------------------------------- blank lines

  lemma {:induction false} NonBlankProperties(lines: seq<Line>)
    ensures |NonBlank(lines)| <= |lines|
    ensures forall i :: 0 <= i < |NonBlank(lines)| ==> !NonBlank(lines)[i].Blank?
    ensures NonBlank(lines) == lines <==> forall i :: 0 <= i < |lines| ==> !lines[i].Blank?
  {
    if lines != [] {
      var front := lines[..|lines| - 1];
      NonBlankProperties(front);
      assert lines == front + [lines[|lines| - 1]];
      if lines[|lines| - 1].Blank? {
        assert NonBlank(lines) == NonBlank(front);
      } else if NonBlank(lines) == lines {
        assert NonBlank(front) == NonBlank(lines)[..|lines| - 1];
      }
    }
  }

  // ------------------------------------------------- bounded verification

  /** The checkpoint that a run of appends with these payloads leaves. */
  predicate SealsChain(head: HeadFile, chain: seq<Payload>) {
    && Genuine(chain) && chain != []
    && head == Head(Checkpoint(RECORD_VERSION, |chain|, ChainHead(chain)))
  }

  /** The records of a tail that the bounded check accepted, in terms of the walk. */
  lemma AcceptedTail(log: LogFile, c: Checkpoint, limit: nat)
    requires limit > 0 && CheckTail(log, c, limit).Accepted?
    ensures var records := NonBlank(log.lines);
            var start := c.sequence - Min(limit, c.sequence) + 1;
            && |records| == c.sequence >= 1
            && Linked(records, start, c.sequence, PayloadAt(records, start).prev)
            && HashAt(records, c.sequence) == c.head
            && (CheckTail(log, c, limit).scope == Full <==> start == 1)
  {
  }

  /** In a genuine chain the first record has no predecessor. */
  lemma GenuineStart(chain: seq<Payload>)
    requires Genuine(chain) && chain != []
    ensures chain[0].prev == NoHash && chain[0].sequence == 1
  {
    assert GenuineAt(chain, 0);
    assert chain[..0] == [];
  }

  /** Records that recovery adopted: one more than the chain, verified against its head. */
  predicate Extends(records: seq<Line>, chain: seq<Payload>) {
    && |records| == |chain| + 1
    && Open(records[|chain|], |chain| + 1).Some?
    && VerifyRecord(RecordAt(records, |chain| + 1), |chain| + 1, ChainHead(chain))
  }

  lemma {:induction false} AdoptedWindowIsGenuine(records: seq<Line>, chain: seq<Payload>, from: nat, i: nat,
                                                  previous: Hash)
    requires Genuine(chain) && Extends(records, chain)
    requires 1 <= from <= i <= |chain|
    requires Linked(records, from, |chain| + 1, previous)
    ensures PayloadAt(records, i) == chain[i - 1]
  {
    var n := |chain|;
    assert LineVerifies(records, n + 1, from, previous);
    assert HashAt(records, n) == ChainHead(chain);
    var front := records[..n];
    LinkedGrows(front, records, from, n, previous);
    assert Linked(front, from, n, previous) by {
      forall j | from <= j <= n
        ensures LineVerifies(records, j, from, previous)
      {
      }
    }
    WindowIsGenuine(front, chain, from, i, previous);
  }

  /** How recovery leaves a log that was one record ahead of a genuine checkpoint. */
  lemma RecoveredRecords(d: Disk, chain: seq<Payload>, maxBytes: nat)
    requires SealsChain(d.head, chain) && d.log.Some? && Size(d.log.value) <= maxBytes
    ensures var e := Recovered(d, maxBytes);
            && e.log.Some? && e.head.Head?
            && var records := NonBlank(e.log.value.lines);
               if e.head == d.head then |NonBlank(d.log.value.lines)| == |chain| ==> e == d
               else Extends(records, chain) && e.log == d.log && e.head.checkpoint.sequence == |chain| + 1
  {
    hide VerifyRecord, Linked, LineVerifies, Genuine;
    var ws := BoundedWrites(d, maxBytes);
    assert After(d, ws, 0) == d;
    assert |ws| == 1 ==> After(d, ws, 1) == Perform(d, ws[0]);
  }

  lemma {:induction false} NonBlankBytes(lines: seq<Line>)
    ensures Bytes(NonBlank(lines)) <= Bytes(lines)
  {
    if lines != [] {
      var front, last := lines[..|lines| - 1], lines[|lines| - 1];
      NonBlankBytes(front);
      if !last.Blank? {
        assert (NonBlank(front) + [last])[..|NonBlank(front)|] == NonBlank(front);
      }
    }
  }

  /** Recovery never makes the log longer. */
  lemma RecoveredFits(d: Disk, chain: seq<Payload>, maxBytes: nat)
    requires SealsChain(d.head, chain) && d.log.Some? && Size(d.log.value) <= maxBytes
    ensures Recovered(d, maxBytes).log.Some? && Size(Recovered(d, maxBytes).log.value) <= maxBytes
  {
    hide VerifyRecord, Genuine;
    var ws := BoundedWrites(d, maxBytes);
    assert After(d, ws, 0) == d;
    if |ws| == 1 {
      assert After(d, ws, 1) == Perform(d, ws[0]);
      NonBlankBytes(d.log.value.lines);
    }
  }

  /** Every payload in the accepted window that the chain has is the chain's own. */
  lemma WindowRepeatsChain(e: Disk, chain: seq<Payload>, limit: nat, i: nat)
    requires Genuine(chain) && chain != [] && limit > 0 && e.log.Some? && e.head.Head?
    requires CheckTail(e.log.value, e.head.checkpoint, limit).Accepted?
    requires e.head.checkpoint == Checkpoint(RECORD_VERSION, |chain|, ChainHead(chain))
          || (e.head.checkpoint.sequence == |chain| + 1 && Extends(NonBlank(e.log.value.lines), chain))
    requires e.head.checkpoint.sequence - Min(limit, e.head.checkpoint.sequence) < i <= |chain|
    ensures |NonBlank(e.log.value.lines)| >= i && PayloadAt(NonBlank(e.log.value.lines), i) == chain[i - 1]
  {
    hide VerifyRecord, CheckTail, Genuine;
    var records, c := NonBlank(e.log.value.lines), e.head.checkpoint;
    var start := c.sequence - Min(limit, c.sequence) + 1;
    AcceptedTail(e.log.value, c, limit);
    if c.sequence == |chain| {
      WindowIsGenuine(records, chain, start, i, PayloadAt(records, start).prev);
    } else {
      AdoptedWindowIsGenuine(records, chain, start, i, PayloadAt(records, start).prev);
    }
  }

  /**
   Bounded verification against a genuine checkpoint. When it accepts, the log holds
   exactly as many records as its checkpoint seals, and the verified window repeats the
   genuine payloads (plus at most one adopted record that verifies against their head).
   */
  lemma BoundedAcceptsOnlyTheGenuineTail(d: Disk, chain: seq<Payload>, maxBytes: nat, limit: nat)
    requires limit > 0 && SealsChain(d.head, chain) && BoundedVerdict(d, maxBytes, limit).Accepted?
    ensures var e := Recovered(d, maxBytes);
            && e.log.Some? && e.head.Head?
            && var records, sealed := NonBlank(e.log.value.lines), e.head.checkpoint.sequence;
               && |records| == sealed
               && (sealed == |chain| || Extends(records, chain))
               && forall i :: 1 <= i <= |chain| && sealed - Min(limit, sealed) < i ==>
                    PayloadAt(records, i) == chain[i - 1]
  {
    hide VerifyRecord, Linked, Genuine, Size;
    RecoveredRecords(d, chain, maxBytes);
    var e := Recovered(d, maxBytes);
    AcceptedTail(e.log.value, e.head.checkpoint, limit);
    var sealed := e.head.checkpoint.sequence;
    forall i | 1 <= i <= |chain| && sealed - Min(limit, sealed) < i
      ensures PayloadAt(NonBlank(e.log.value.lines), i) == chain[i - 1]
    {
      WindowRepeatsChain(e, chain, limit, i);
    }
  }

  /** A linked log has no blank line. */
  lemma LinkedHasNoBlank(lines: seq<Line>)
    requires Linked(lines, 1, |lines|, NoHash)
    ensures NonBlank(lines) == lines
  {
    hide VerifyRecord;
    forall i | 0 <= i < |lines|
      ensures !lines[i].Blank?
    {
      assert LineVerifies(lines, i + 1, 1, NoHash);
    }
    NonBlankProperties(lines);
  }

  /**
   When the window covers the whole chain, the full verification accepts the same files
   exactly when the log has no blank line: the bounded check skips blank lines, the full
   walk counts them.
   */
  lemma FullScopeMatchesFullWalk(d: Disk, chain: seq<Payload>, maxBytes: nat, limit: nat)
    requires limit > 0 && SealsChain(d.head, chain)
    requires BoundedVerdict(d, maxBytes, limit).Accepted? && BoundedVerdict(d, maxBytes, limit).scope == Full
    ensures var e := Recovered(d, maxBytes);
            && e.log.Some?
            && (VerifyFiles(e.log, e.head, maxBytes).Walked? <==>
                  forall i :: 0 <= i < |e.log.value.lines| ==> !e.log.value.lines[i].Blank?)
  {
    hide VerifyRecord, LineVerifies, Genuine, Size;
    RecoveredRecords(d, chain, maxBytes);
    RecoveredFits(d, chain, maxBytes);
    var e := Recovered(d, maxBytes);
    var lines := e.log.value.lines;
    AcceptedTail(e.log.value, e.head.checkpoint, limit);
    NonBlankProperties(lines);
    if NonBlank(lines) == lines {
      WindowRepeatsChain(e, chain, limit, 1);
      GenuineStart(chain);
      assert PayloadAt(lines, 1).prev == NoHash;
    } else if VerifyFiles(e.log, e.head, maxBytes).Walked? {
      LinkedHasNoBlank(lines);
    }
  }

  // ------------------------------------------------------ reading the tail

  /** Cell p mod limit of the ring holds element p, for the last `limit` positions below `top`. */
  predicate RingHolds(ring: seq<Line>, seen: seq<Line>, top: nat)
    requires |ring| > 0 && top <= |seen|
  {
    forall p: nat :: top - |ring| <= p < top ==> ring[p % |ring|] == seen[p]
  }

  /** Two positions less than one ring apart use different cells. */
  lemma CellsDiffer(p: nat, k: nat, limit: nat)
    requires p < k < p + limit
    ensures p % limit != k % limit
  {
    var q := k / limit - p / limit;
    assert k - p == q * limit + (k % limit - p % limit);
    if q >= 1 {
      assert q * limit >= limit;
    } else {
      assert q * limit <= 0;
    }
  }

  lemma RingPush(ring: seq<Line>, seen: seq<Line>, x: Line)
    requires |ring| > 0 && RingHolds(ring, seen, |seen|)
    ensures RingHolds(ring[|seen| % |ring| := x], seen + [x], |seen| + 1)
  {
    var n, next := |seen|, ring[|seen| % |ring| := x];
    forall p: nat | n + 1 - |next| <= p < n + 1
      ensures next[p % |next|] == (seen + [x])[p]
    {
      if p < n {
        CellsDiffer(p, n, |ring|);
      }
    }
  }

  /** The lines that evidenceLineWindow keeps: the last `limit` of the sealed prefix. */
  function SealedTail(lines: seq<Line>, sealed: nat, limit: int): seq<Line> {
    var records := NonBlank(lines);
    if limit <= 0 then [] else Tail(records[..Min(sealed, |records|)], limit)
  }

  lemma RingIgnores(ring: seq<Line>, seen: seq<Line>, x: Line, n: nat)
    requires |ring| > 0 && n <= |seen| && RingHolds(ring, seen, n)
    ensures RingHolds(ring, seen + [x], n)
  {
  }

  lemma NonBlankMore(lines: seq<Line>, i: nat)
    requires i < |lines|
    ensures NonBlank(lines[..i + 1]) == NonBlank(lines[..i]) + if lines[i].Blank? then [] else [lines[i]]
  {
    assert lines[..i + 1][..i] == lines[..i];
  }

  /** The reading loop: every record of the sealed prefix overwrites the oldest cell. */
  method FillRing(lines: seq<Line>, sealed: nat, ring: array<Line>) returns (count: nat)
    modifies ring
    ensures count == |NonBlank(lines)|
    ensures ring.Length > 0 ==> RingHolds(ring[..], NonBlank(lines), Min(sealed, count))
  {
    hide NonBlank, RingHolds;
    count := 0;
    ghost var seen := NonBlank(lines[..0]);
    NoLines();
    assert lines[..0] == [];
    for i := 0 to |lines|
      invariant seen == NonBlank(lines[..i]) && count == |seen|
      invariant ring.Length > 0 ==> RingHolds(ring[..], seen, Min(sealed, count))
    {
      var raw := lines[i];
      NonBlankMore(lines, i);
      if !raw.Blank? {
        count := count + 1;
        if ring.Length > 0 && count <= sealed {
          RingPush(ring[..], seen, raw);
          ring[(count - 1) % ring.Length] := raw;
        } else if ring.Length > 0 {
          RingIgnores(ring[..], seen, raw, sealed);
        }
        seen := seen + [raw];
      }
    }
    assert lines[..|lines|] == lines;
  }

  lemma NoLines()
    ensures NonBlank([]) == [] && forall ring: seq<Line> :: |ring| > 0 ==> RingHolds(ring, [], 0)
  {
  }

  lemma RingAt(ring: seq<Line>, seen: seq<Line>, top: nat, p: nat)
    requires |ring| > 0 && top <= |seen| && RingHolds(ring, seen, top) && top - |ring| <= p < top
    ensures 0 <= p % |ring| < |ring| && ring[p % |ring|] == seen[p]
  {
  }

  /** The reading loop: from the oldest kept record to the newest. */
  method ReadRing(ring: array<Line>, ghost seen: seq<Line>, top: nat, keep: nat) returns (window: seq<Line>)
    requires ring.Length > 0 && keep <= ring.Length && keep <= top <= |seen| && RingHolds(ring[..], seen, top)
    ensures window == seen[top - keep..top]
  {
    ghost var cells := ring[..];
    hide RingHolds;
    var start := top - keep;
    window := [];
    while |window| < keep
      invariant |window| <= keep && window == seen[start..start + |window|]
    {
      var p := start + |window|;
      RingAt(cells, seen, top, p);
      window := window + [ring[p % ring.Length]];
    }
  }

  /** The ring buffer ends up holding exactly the last `limit` records of the sealed prefix, in order. */
  method EvidenceLineWindow(lines: seq<Line>, sealed: nat, limit: int) returns (count: nat, window: seq<Line>)
    ensures count == |NonBlank(lines)|
    ensures window == SealedTail(lines, sealed, limit)
  {
    hide NonBlank, RingHolds;
    var ring := new Line[if limit > 0 then limit else 0](_ => Blank(0));
    count := FillRing(lines, sealed, ring);
    if limit <= 0 {
      return count, [];
    }
    var top := Min(sealed, count);
    window := ReadRing(ring, NonBlank(lines), top, Min(top, limit));
    SliceIsTail(NonBlank(lines), top, limit);
  }

  lemma SliceIsTail(s: seq<Line>, top: nat, limit: nat)
    requires top <= |s|
    ensures s[top - Min(top, limit)..top] == Tail(s[..top], limit)
  {
  }

  /** Line k of a window that begins with record `start` opens and names the line before it. */
  predicate WindowLineVerifies(window: seq<Line>, k: nat, start: nat)
    requires k < |window|
  {
    var found := Open(window[k], start + k);
    && found.Some?
    && (if k == 0 then VerifyRecord(found.value, start, found.value.payload.prev)
        else var before := Open(window[k - 1], start + k - 1);
             before.Some? && VerifyRecord(found.value, start + k, before.value.hash))
  }

  /** The window itself verifies, line by line, and ends on `head`. */
  predicate WindowVerifies(window: seq<Line>, start: nat, head: Hash)
    requires window != []
  {
    && (forall k :: 0 <= k < |window| ==> WindowLineVerifies(window, k, start))
    && var last := Open(window[|window| - 1], start + |window| - 1);
       last.Some? && last.value.hash == head
  }

  /**
   The lines the ring buffer returns are the lines that the bounded check verifies, and their verification
   decides it.
   */
  lemma WindowIsWhatIsChecked(log: LogFile, c: Checkpoint, limit: nat)
    requires limit > 0 && c.sequence > 0 && |NonBlank(log.lines)| == c.sequence
    ensures var window := SealedTail(log.lines, c.sequence, limit);
            var start := c.sequence + 1 - |window|;
            && |window| == Min(limit, c.sequence) && window == NonBlank(log.lines)[start - 1..]
            && (CheckTail(log, c, limit).Accepted? <==> WindowVerifies(window, start, c.head))
  {
    hide VerifyRecord, NonBlank, Size;
    var records := NonBlank(log.lines);
    assert records[..c.sequence] == records;
    var window := SealedTail(log.lines, c.sequence, limit);
    var start := c.sequence + 1 - |window|;
    assert forall k :: 0 <= k < |window| ==> window[k] == records[start - 1 + k];
    WindowLinks(records, window, start, c.head);
  }

  lemma WindowLine(records: seq<Line>, window: seq<Line>, start: nat, k: nat)
    requires 1 <= start <= |records| && window == records[start - 1..] && k < |window|
    requires k > 0 ==> Open(window[k - 1], start + k - 1).Some?
    ensures LineVerifies(records, start + k, start, PayloadAt(records, start).prev) <==>
            WindowLineVerifies(window, k, start)
  {
    hide VerifyRecord;
    assert window[k] == records[start + k - 1];
    assert k > 0 ==> window[k - 1] == records[start + k - 2];
  }

  lemma WindowLinks(records: seq<Line>, window: seq<Line>, start: nat, head: Hash)
    requires 1 <= start <= |records| && window == records[start - 1..]
    ensures (Linked(records, start, |records|, PayloadAt(records, start).prev) && HashAt(records, |records|) == head)
            <==> WindowVerifies(window, start, head)
  {
    hide VerifyRecord;
    var previous, n := PayloadAt(records, start).prev, |records|;
    assert window[|window| - 1] == records[n - 1];
    if Linked(records, start, n, previous) {
      forall k | 0 <= k < |window|
        ensures WindowLineVerifies(window, k, start)
      {
        assert LineVerifies(records, start + k, start, previous);
        assert k > 0 ==>
            LineVerifies(records, start + k - 1, start, previous) && window[k - 1] == records[start + k - 2];
        WindowLine(records, window, start, k);
      }
      assert LineVerifies(records, n, start, previous);
    }
    if WindowVerifies(window, start, head) {
      forall i | start <= i <= n
        ensures LineVerifies(records, i, start, previous)
      {
        assert WindowLineVerifies(window, i - start, start);
        WindowLine(records, window, start, i - start);
      }
    }
  }

  /** Recent: the newest records first, within the page bounds. */
  method Recent(recent: seq<Record>, requested: int) returns (out: array<Record>)
    ensures var limit := if requested < 1 then 100 else if requested > 500 then 500 else requested;
            out.Length == Min(limit, |recent|)
    ensures forall i :: 0 <= i < out.Length ==> out[i] == recent[|recent| - 1 - i]
  {
    var limit := requested;
    if limit < 1 { limit := 100; }
    if limit > 500 { limit := 500; }
    if limit > |recent| { limit := |recent|; }
    var base := |recent| - limit;
    out := new Record[limit](i requires 0 <= i < limit => recent[base + i]);
    var i, j := 0, limit - 1;
    while i < j
      invariant 0 <= i && i + j == limit - 1 && i <= j + 1
      invariant forall x :: 0 <= x < i ==> out[x] == recent[base + limit - 1 - x]
      invariant forall x :: j < x < limit ==> out[x] == recent[base + limit - 1 - x]
      invariant forall x :: i <= x <= j ==> out[x] == recent[base + x]
    {
      out[i], out[j] := out[j], out[i];
      i, j := i + 1, j - 1;
    }
  }
}
