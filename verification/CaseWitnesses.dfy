/**
 Concrete inputs on which the case engine does less than one would expect.
 */
module CaseWitnesses {
  import opened Options
  import opened TextOrder
  import opened DecimalText
  import opened CaseRepair
  import opened CaseStoreRepair
  import opened CaseBytes
  import opened CaseEngine
  import opened CaseDurability

  function Repeat(n: nat): (r: string)
    ensures |r| == n && HexText(r, true) && HexText(r, false)
  {
    seq(n, _ => '0')
  }

  const OBSERVED := Observation(1, "xdr", "message", "")

  /** A full case and a published limit above 256: one more incident makes it unreadable. */
  lemma OutgrownCase() returns (c: SecurityCase, i: Incident, policy: Policy)
    ensures ValidCase(c) && ValidObservation(i.observation) && 1 <= policy.maxObservations <= 4096
    ensures !ValidCase(Touched(c, i, 2, policy))
  {
    hide Truncated, AppendUnique, BoundedObservations;
    var many := seq(MAX_OBSERVED, _ => OBSERVED);
    var id := "CS-" + Repeat(16);
    c := SecurityCase(id, Repeat(64), "title", "open", "high", "low", 1, 1, many, [], [], [], [], "", 1);
    assert c.id[3..] == Repeat(16);
    i := Incident("high", 50, Repeat(64), "title", "low", OBSERVED, "e", [], [], []);
    policy := Policy(true, 1, 4096, 4096, 256);
    TouchedIsValidExactlyWhen(c, i, 2, policy);
  }

  // --------------------------------------------------------- an unwritten repair

  const FIRST_ID := "CS-" + Repeat(15) + "0"
  const SECOND_ID := "CS-" + Repeat(15) + "1"
  const RECURRING := Incident("high", 50, Repeat(64), "title", "low", OBSERVED, "", [], [], [])
  const DEFAULT_POLICY := Policy(true, 1, MAX_RECORDS, MAX_OBSERVED, MAX_EVIDENCE)

  lemma IdsAreOrdered()
    ensures Less(FIRST_ID, SECOND_ID) && FIRST_ID != SECOND_ID && ValidId(FIRST_ID) && ValidId(SECOND_ID)
  {
    LessAfter("CS-" + Repeat(15), "0", "1");
    LessIrreflexive(FIRST_ID);
    assert FIRST_ID[3..] == Repeat(15) + "0" && SECOND_ID[3..] == Repeat(15) + "1";
  }

  lemma RecurringCaseIsValid(id: string, now: int)
    requires ValidId(id) && now > 0
    ensures ValidCase(NewCase(id, RECURRING, now, DEFAULT_POLICY))
  {
    hide AppendUnique, ValidId;
  }

  /** An incident whose fingerprint is not indexed opens a case. */
  lemma OpensACase(e: Engine, now: int, expired: bool, id: string)
    requires IndexSound(e) && !e.broken && ValidId(id) && now > 0 && |e.cases| < MAX_RECORDS
    requires RECURRING.fingerprint !in e.byFinger || expired
    requires PlainBytes(e.revision + 1, e.cases[id := NewCase(id, RECURRING, now, DEFAULT_POLICY)]) <= MAX_BYTES
    ensures Counted(e, RECURRING, now, DEFAULT_POLICY, expired, id, true)
    ensures var n := Ingested(e, RECURRING, now, DEFAULT_POLICY, expired, id, true);
            && n.cases == e.cases[id := NewCase(id, RECURRING, now, DEFAULT_POLICY)] && n.revision == e.revision + 1
            && n.store == Some(Saved(e.revision + 1, n.cases)) && !n.broken
            && n.byFinger == e.byFinger[RECURRING.fingerprint := id]
  {
    hide NewCase, ValidCase, ValidId, PlainBytes, IndexSound;
    RecurringCaseIsValid(id, now);
    assert e.byFinger[RECURRING.fingerprint := id]
        == (e.byFinger - {RECURRING.fingerprint})[RECURRING.fingerprint := id];
    var open := Released(e, RECURRING, expired);
    assert IndexSound(open) by { ReleasedIsSound(e, expired); }
  }

  lemma ReleasedIsSound(e: Engine, expired: bool)
    requires IndexSound(e)
    ensures IndexSound(Released(e, RECURRING, expired))
  {
  }

  /** The first two calls: one incident, and the same again after its correlation window lapsed. */
  lemma TwoCasesOfOneFingerprint() returns (e: Engine, f: Engine, c: SecurityCase, d: SecurityCase)
    ensures c == NewCase(FIRST_ID, RECURRING, 1, DEFAULT_POLICY)
    ensures d == NewCase(SECOND_ID, RECURRING, 2, DEFAULT_POLICY)
    ensures e == Ingested(NEW_ENGINE, RECURRING, 1, DEFAULT_POLICY, false, FIRST_ID, true)
    ensures IndexSound(e) && f == Ingested(e, RECURRING, 2, DEFAULT_POLICY, true, SECOND_ID, true)
    ensures e.cases == map[FIRST_ID := c] && f.cases == map[FIRST_ID := c, SECOND_ID := d]
    ensures f.store == Some(Saved(2, f.cases)) && !f.broken
    ensures Counted(NEW_ENGINE, RECURRING, 1, DEFAULT_POLICY, false, FIRST_ID, true)
    ensures Counted(e, RECURRING, 2, DEFAULT_POLICY, true, SECOND_ID, true)
  {
    hide NewCase, ValidCase, ValidId, Writable, PlainBytes, Ingested, Counted, Less;
    IdsAreOrdered();
    c, d := NewCase(FIRST_ID, RECURRING, 1, DEFAULT_POLICY), NewCase(SECOND_ID, RECURRING, 2, DEFAULT_POLICY);
    SmallDocuments(c, d);
    assert map[][FIRST_ID := c] == map[FIRST_ID := c];
    OpensACase(NEW_ENGINE, 1, false, FIRST_ID);
    e := Ingested(NEW_ENGINE, RECURRING, 1, DEFAULT_POLICY, false, FIRST_ID, true);
    NewCaseFields(FIRST_ID, 1);
    assert |e.cases| == 1;
    assert e.cases[SECOND_ID := d] == map[FIRST_ID := c, SECOND_ID := d];
    OpensACase(e, 2, true, SECOND_ID);
    f := Ingested(e, RECURRING, 2, DEFAULT_POLICY, true, SECOND_ID, true);
  }

  lemma {:induction false} InnerBound(s: string)
    ensures InnerBytes(s) <= 6 * |s|
  {
    if s != "" {
      InnerBound(s[..|s| - 1]);
    }
  }

  lemma {:induction false} FractionBound(fraction: nat, width: nat)
    ensures FractionDigits(fraction, width) <= width
  {
    if width > 0 && fraction % 10 == 0 && fraction != 0 {
      FractionBound(fraction / 10, width - 1);
    }
  }

  lemma TimeBound(at: int)
    ensures 22 <= TimeBytes(at) <= 32
  {
    FractionBound(at % 1_000_000_000, 9);
  }

  lemma RecurringLists()
    ensures AppendUnique([], MAX_EVIDENCE, [""]) == [] && AppendUnique([], 128, []) == []
    ensures AppendUnique([], 64, []) == []
  {
    OneValue([], MAX_EVIDENCE, "");
  }

  lemma OneObservation(o: Observation)
    ensures ObservationsBytes([o]) == ObservationBytes(o) + 1
  {
    assert [o][..0] == [];
  }

  lemma SmallRecord(id: string, now: int)
    requires |id| == 19
    ensures RecordBytes(NewCase(id, RECURRING, now, DEFAULT_POLICY)) <= 3000
  {
    hide InnerBytes, TimeBytes, AppendUnique, ObservationsBytes, FractionDigits, RecordBytes;
    RecordParts(NewCase(id, RECURRING, now, DEFAULT_POLICY));
    RecurringLists();
    InnerBound(id);
    InnerBound(RECURRING.fingerprint);
    InnerBound("title");
    InnerBound("open");
    InnerBound("high");
    InnerBound("low");
    InnerBound("xdr");
    InnerBound("message");
    TimeBound(now);
    TimeBound(1);
    OneObservation(OBSERVED);
    assert |Decimal(1)| == 1;
  }

  /** Two such cases are far from every bound. */
  lemma SmallDocuments(c: SecurityCase, d: SecurityCase)
    requires c == NewCase(FIRST_ID, RECURRING, 1, DEFAULT_POLICY)
    requires d == NewCase(SECOND_ID, RECURRING, 2, DEFAULT_POLICY)
    ensures PlainBytes(1, map[FIRST_ID := c]) <= MAX_BYTES
    ensures PlainBytes(2, map[FIRST_ID := c, SECOND_ID := d]) <= MAX_BYTES
    ensures WithinReadBound(Saved(2, map[FIRST_ID := c, SECOND_ID := d]))
  {
    hide RecordBytes, NewCase, Decimal, HeaderBytes, EnvelopeBytes;
    FixedParts(1);
    FixedParts(2);
    IdsAreOrdered();
    SmallRecord(FIRST_ID, 1);
    SmallRecord(SECOND_ID, 2);
    RecordsBytesUpdate(map[], FIRST_ID, c);
    RecordsBytesUpdate(map[FIRST_ID := c], SECOND_ID, d);
    assert map[][FIRST_ID := c] == map[FIRST_ID := c];
    assert map[FIRST_ID := c][SECOND_ID := d] == map[FIRST_ID := c, SECOND_ID := d];
    ShortNumbers();
  }

  lemma ShortNumbers()
    ensures |Decimal(1)| == 1 && |Decimal(2)| == 1
  {
  }

  lemma NewCaseFields(id: string, now: int)
    ensures var c := NewCase(id, RECURRING, now, DEFAULT_POLICY); c.id == id && c.fingerprint == RECURRING.fingerprint
  {
  }

  /** The document of two cases with one fingerprint: repairable, not decodable as it is. */
  lemma TwinListing(c: SecurityCase, d: SecurityCase)
    requires c == NewCase(FIRST_ID, RECURRING, 1, DEFAULT_POLICY)
    requires d == NewCase(SECOND_ID, RECURRING, 2, DEFAULT_POLICY)
    ensures Lists([c, d], map[FIRST_ID := c, SECOND_ID := d]) && Repairable(Store(SCHEMA, 2, [c, d]))
    ensures !DistinctFingerprints([c, d])
  {
    hide NewCase, ValidCase, ValidId, Less;
    IdsAreOrdered();
    RecurringCaseIsValid(FIRST_ID, 1);
    RecurringCaseIsValid(SECOND_ID, 2);
    NewCaseFields(FIRST_ID, 1);
    NewCaseFields(SECOND_ID, 2);
    var listing := [c, d];
    assert |map[FIRST_ID := c, SECOND_ID := d]| == 2 by { OneMoreKey(map[FIRST_ID := c], SECOND_ID, d); }
    assert listing[0].fingerprint == listing[1].fingerprint;
  }

  /** A recurrence opens a second case; a restart that cannot write its repair back leaves memory and store apart. */
  lemma UnwrittenRepairIsReachable() returns (engines: seq<Engine>, counts: seq<nat>, events: seq<Event>)
    ensures Run(engines, counts, events) && |events| == 3 && !Synced(engines[3])
  {
    hide NewCase, ValidCase, ValidId, Less, Ingested, Counted, MapTotal, Loaded, Lists, Repairable,
         DistinctFingerprints, Inv, RECURRING, FIRST_ID, SECOND_ID, DEFAULT_POLICY, Synced, WithinReadBound,
         Writable, PlainBytes;
    var e, f, c, d := TwoCasesOfOneFingerprint();
    TwinListing(c, d);
    SmallDocuments(c, d);
    IdsAreOrdered();
    var g := Loaded(f.store.value, [c, d], false);
    engines, counts := [NEW_ENGINE, e, f, g], [0, 1, 2, 2];
    events := [Ingest(RECURRING, 1, DEFAULT_POLICY, false, FIRST_ID, true),
               Ingest(RECURRING, 2, DEFAULT_POLICY, true, SECOND_ID, true),
               Reload([c, d], false)];
    assert LeadsTo(NEW_ENGINE, 0, events[0], e, 1);
    assert LeadsTo(e, 1, events[1], f, 2);
    assert LeadsTo(f, 2, events[2], g, 2);
    RunKeeps(engines, counts, events, 3);
    assert UnwrittenRepair(f, events[2]);
  }

  // ------------------------------------------------- written, but not read back

  lemma {:induction false} ZerosBytes(n: nat)
    ensures InnerBytes(Repeat(n)) == n
  {
    if n > 0 {
      ZerosBytes(n - 1);
      assert Repeat(n)[..n - 1] == Repeat(n - 1);
    }
  }

  const SECOND: int := 1_000_000_000
  const LONG := Observation(SECOND, Repeat(64), Repeat(512), Repeat(512))

  lemma LongObservation()
    ensures ValidObservation(LONG) && ObservationBytes(LONG) == 1154
  {
    hide InnerBytes, Repeat;
    ZerosBytes(64);
    ZerosBytes(512);
    assert LONG.target != "";
  }

  function Observed(k: nat): (r: seq<Observation>)
    ensures |r| == k && forall i :: 0 <= i < k ==> r[i] == LONG
  {
    seq(k, _ => LONG)
  }

  lemma {:induction false} ManyObservations(k: nat)
    ensures ObservationsBytes(Observed(k)) == 1155 * k
  {
    hide ObservationBytes, LONG;
    if k > 0 {
      ManyObservations(k - 1);
      assert Observed(k)[..k - 1] == Observed(k - 1);
      LongObservation();
    } else {
      assert Observed(0) == [];
    }
  }

  function Numbered(front: string, i: nat): (r: string)
    requires i < 100
    ensures |r| == |front| + 2 && front <= r && r[|front|] == Digit(i / 10) && r[|front| + 1] == Digit(i % 10)
  {
    front + [Digit(i / 10), Digit(i % 10)]
  }

  function NumberedId(i: nat): (id: string)
    requires i < 100
    ensures ValidId(id)
  {
    var id := Numbered("CS-" + Repeat(14), i);
    assert id[3..] == Numbered(Repeat(14), i);
    id
  }

  function NumberedFinger(i: nat): (f: string)
    requires i < 100
    ensures |f| == 64 && HexText(f, false)
  {
    Numbered(Repeat(62), i)
  }

  lemma NumbersDiffer(i: nat, j: nat)
    requires i < j < 100
    ensures NumberedId(i) != NumberedId(j) && NumberedFinger(i) != NumberedFinger(j)
  {
    assert NumberedId(i)[17] == Digit(i / 10) && NumberedId(i)[18] == Digit(i % 10);
    assert NumberedId(j)[17] == Digit(j / 10) && NumberedId(j)[18] == Digit(j % 10);
    assert NumberedFinger(i)[62] == Digit(i / 10) && NumberedFinger(i)[63] == Digit(i % 10);
    assert NumberedFinger(j)[62] == Digit(j / 10) && NumberedFinger(j)[63] == Digit(j % 10);
  }

  /** The case of fingerprint i after k incidents. */
  function LongCase(i: nat, k: nat): SecurityCase
    requires i < 100
  {
    SecurityCase(NumberedId(i), NumberedFinger(i), "title", "open", "high", "low", SECOND, SECOND, Observed(k),
                 [], [], [], [], "", k)
  }

  function LongIncident(i: nat): Incident
    requires i < 100
  {
    Incident("high", 50, NumberedFinger(i), "title", "low", LONG, "", [], [], [])
  }

  lemma LongCaseIsValid(i: nat, k: nat)
    requires i < 100 && 1 <= k <= MAX_OBSERVED
    ensures ValidCase(LongCase(i, k))
  {
    hide LONG, ValidId, ValidObservation, HexText, NumberedId, NumberedFinger;
    LongObservation();
    assert ValidId(NumberedId(i)) && HexText(NumberedFinger(i), false) && |NumberedFinger(i)| == 64;
  }

  lemma {:induction false} DecimalLength(n: nat)
    ensures 1 <= |Decimal(n)| <= n + 1
  {
    if n >= 10 {
      DecimalLength(n / 10);
    }
  }

  lemma LongCaseBytes(i: nat, k: nat)
    requires i < 100 && 1 <= k <= MAX_OBSERVED
    ensures 1155 * k <= RecordBytes(LongCase(i, k)) <= 300_000
  {
    hide InnerBytes, TimeBytes, ObservationsBytes, LONG, ValidId, Decimal, NumberedId, NumberedFinger, RecordBytes;
    RecordParts(LongCase(i, k));
    ManyObservations(k);
    assert |NumberedId(i)| == 19 by { IdLength(NumberedId(i)); }
    InnerBound(NumberedId(i));
    InnerBound(NumberedFinger(i));
    InnerBound("title");
    InnerBound("open");
    InnerBound("high");
    InnerBound("low");
    TimeBound(SECOND);
    DecimalLength(k);
    assert LongCase(i, k).observations != [];
  }

  lemma IdLength(id: string)
    requires ValidId(id)
    ensures |id| == 19
  {
  }

  // ----------------------------------------------------------- the run that gets there

  /** The cases after n full ones, and their index. */
  function LongCases(n: nat): map<string, SecurityCase>
    requires n < 100
  {
    if n == 0 then map[] else LongCases(n - 1)[NumberedId(n - 1) := LongCase(n - 1, MAX_OBSERVED)]
  }

  function LongIndex(n: nat): map<string, string>
    requires n < 100
  {
    if n == 0 then map[] else LongIndex(n - 1)[NumberedFinger(n - 1) := NumberedId(n - 1)]
  }

  lemma {:induction false} LongKeys(n: nat)
    requires n < 100
    ensures forall id :: id in LongCases(n) ==> exists i :: 0 <= i < n && id == NumberedId(i)
    ensures forall f :: f in LongIndex(n) ==> exists i :: 0 <= i < n && f == NumberedFinger(i)
  {
    hide LongCase, NumberedId, NumberedFinger;
    if n > 0 {
      LongKeys(n - 1);
    }
  }

  lemma {:induction false} LongCasesFacts(n: nat)
    requires n < 100
    ensures |LongCases(n)| == n
    ensures 1155 * MAX_OBSERVED * n <= RecordsBytes(LongCases(n)) <= 300_001 * n
    ensures forall id :: id in LongCases(n) ==> ValidCase(LongCases(n)[id])
  {
    hide RecordBytes, RecordsBytes, LongCase, NumberedId, NumberedFinger, ValidCase, LongIndex;
    if n > 0 {
      LongCasesFacts(n - 1);
      var id, before, c := NumberedId(n - 1), LongCases(n - 1), LongCase(n - 1, MAX_OBSERVED);
      NotThereYet(n - 1);
      LongCaseIsValid(n - 1, MAX_OBSERVED);
      LongCaseBytes(n - 1, MAX_OBSERVED);
      RecordsBytesUpdate(before, id, c);
      OneMoreKey(before, id, c);
    } else {
      assert RecordsBytes(LongCases(0)) == 0 by { NoRecords(); }
    }
  }

  lemma NoRecords()
    ensures RecordsBytes(map[]) == 0
  {
  }

  lemma NotThereYet(n: nat)
    requires n < 100
    ensures NumberedId(n) !in LongCases(n) && NumberedFinger(n) !in LongIndex(n)
    ensures n < 99 ==> NumberedId(n + 1) !in LongCases(n) && NumberedId(n + 1) != NumberedId(n)
  {
    hide LongCases, LongIndex, NumberedId, NumberedFinger;
    LongKeys(n);
    if n < 99 {
      NumbersDiffer(n, n + 1);
    }
    forall i | 0 <= i < n
      ensures NumberedId(i) != NumberedId(n) && NumberedFinger(i) != NumberedFinger(n)
      ensures n < 99 ==> NumberedId(i) != NumberedId(n + 1)
    {
      NumbersDiffer(i, n);
      if n < 99 {
        NumbersDiffer(i, n + 1);
      }
    }
  }

  /** The engine with n full cases and k incidents of the next. */
  function LongEngine(n: nat, k: nat): Engine
    requires n < 99 && k <= MAX_OBSERVED
  {
    var cases := if k == 0 then LongCases(n) else LongCases(n)[NumberedId(n) := LongCase(n, k)];
    var index := if k == 0 then LongIndex(n) else LongIndex(n)[NumberedFinger(n) := NumberedId(n)];
    var revision := MAX_OBSERVED * n + k;
    Engine(cases, index, revision, false, if revision == 0 then None else Some(Saved(revision, cases)))
  }

  /** The document is within the bound on writing all along. */
  lemma LongIsWritable(n: nat, k: nat)
    requires n < 45 && 1 <= k <= MAX_OBSERVED
    ensures PlainBytes(LongEngine(n, k).revision, LongEngine(n, k).cases) <= MAX_BYTES
  {
    hide RecordBytes, LongCase, NumberedId, NumberedFinger, LongCases, LongIndex, Decimal, HeaderBytes, EnvelopeBytes,
         ValidCase;
    LongCasesFacts(n);
    LongCaseBytes(n, k);
    RecordsBytesUpdate(LongCases(n), NumberedId(n), LongCase(n, k));
    FixedParts(LongEngine(n, k).revision);
    DecimalLength(LongEngine(n, k).revision);
  }

  lemma LongNewCase(n: nat)
    requires n < 99
    ensures NewCase(NumberedId(n), LongIncident(n), SECOND, DEFAULT_POLICY) == LongCase(n, 1)
  {
    hide LONG, NumberedId, NumberedFinger, AppendUnique;
    RecurringLists();
    assert Observed(1) == [LONG];
  }

  lemma LongTouched(n: nat, k: nat)
    requires n < 99 && 1 <= k < MAX_OBSERVED
    ensures Touched(LongCase(n, k), LongIncident(n), SECOND, DEFAULT_POLICY) == LongCase(n, k + 1)
  {
    hide LONG, NumberedId, NumberedFinger, AppendUnique;
    RecurringLists();
    assert Observed(k + 1) == Observed(k) + [LONG];
  }

  function LongEvent(n: nat, k: nat): Event
    requires n < 98
  {
    Ingest(LongIncident(n), SECOND, DEFAULT_POLICY, false, if k == 0 then NumberedId(n) else NumberedId(n + 1), true)
  }

  /** The first incident of fingerprint n opens its case. */
  lemma LongOpens(n: nat)
    requires n < 45 && IndexSound(LongEngine(n, 0))
    ensures var e, i := LongEngine(n, 0), LongIncident(n);
            && NumberedId(n) !in e.cases && Counted(e, i, SECOND, DEFAULT_POLICY, false, NumberedId(n), true)
            && Ingested(e, i, SECOND, DEFAULT_POLICY, false, NumberedId(n), true) == LongEngine(n, 1)
  {
    hide LONG, LongCase, NumberedId, NumberedFinger, LongCases, LongIndex, PlainBytes, ValidCase, ValidId, NewCase,
         Touched, IndexSound, RecordsBytes;
    var e, i, id := LongEngine(n, 0), LongIncident(n), NumberedId(n);
    LongCasesFacts(n);
    NotThereYet(n);
    LongIsWritable(n, 1);
    LongNewCase(n);
    LongCaseIsValid(n, 1);
    assert !Ignored(i, DEFAULT_POLICY) && !Refused(e, i, SECOND, DEFAULT_POLICY, id);
    assert WithNew(e, i, SECOND, DEFAULT_POLICY, id) == LongEngine(n, 1);
  }

  /** Every other one goes to that case. */
  lemma LongGoesOn(n: nat, k: nat)
    requires n < 45 && 1 <= k < MAX_OBSERVED && IndexSound(LongEngine(n, k))
    ensures var e, i, id := LongEngine(n, k), LongIncident(n), NumberedId(n + 1);
            && id !in e.cases && Counted(e, i, SECOND, DEFAULT_POLICY, false, id, true)
            && Ingested(e, i, SECOND, DEFAULT_POLICY, false, id, true) == LongEngine(n, k + 1)
  {
    hide LONG, LongCase, NumberedId, NumberedFinger, LongCases, LongIndex, PlainBytes, ValidCase, ValidId, NewCase,
         Touched, IndexSound, RecordsBytes;
    var e, i := LongEngine(n, k), LongIncident(n);
    NotThereYet(n);
    LongIsWritable(n, k + 1);
    LongTouched(n, k);
    assert !Ignored(i, DEFAULT_POLICY) && e.byFinger[i.fingerprint] == NumberedId(n);
    assert e.cases[NumberedId(n)] == LongCase(n, k);
    assert e.cases[NumberedId(n) := LongCase(n, k + 1)] == LongEngine(n, k + 1).cases;
    assert WithTouched(e, i, SECOND, DEFAULT_POLICY) == LongEngine(n, k + 1);
  }

  lemma LongIsTame(n: nat, k: nat)
    requires n < 98
    ensures Tame(LongEvent(n, k), SECOND) && TimeOf(LongEvent(n, k), SECOND) == SECOND
  {
    hide LONG, NumberedId, NumberedFinger, ValidObservation;
    LongObservation();
  }

  lemma LongLeads(n: nat, k: nat)
    requires n < 45 && k < MAX_OBSERVED
    ensures var counted := MAX_OBSERVED * n + k;
            LeadsTo(LongEngine(n, k), counted, LongEvent(n, k), LongEngine(n, k + 1), counted + 1)
  {
    hide LongEngine, LongIncident, Ingested, Counted, MapTotal, IndexSound, NumberedId, DEFAULT_POLICY;
    if Inv(LongEngine(n, k), MAX_OBSERVED * n + k) {
      if k == 0 {
        LongOpens(n);
      } else {
        LongGoesOn(n, k);
      }
    }
  }

  /** The run up to k incidents of fingerprint n, one after the other. */
  lemma {:induction false} LongRun(n: nat, k: nat) returns (engines: seq<Engine>, counts: seq<nat>, events: seq<Event>)
    requires n < 45 && k <= MAX_OBSERVED
    ensures var last := MAX_OBSERVED * n + k;
            && |events| == last && Run(engines, counts, events)
            && engines[last] == LongEngine(n, k) && counts[last] == last
            && forall i :: 0 <= i < last ==> Tame(events[i], SECOND) && TimeOf(events[i], SECOND) == SECOND
    decreases n, k
  {
    hide LongEngine, LongEvent, LeadsTo, Tame, TimeOf;
    if k > 0 {
      var es, cs, vs := LongRun(n, k - 1);
      var last := |vs|;
      LongLeads(n, k - 1);
      LongIsTame(n, k - 1);
      engines, counts, events := es + [LongEngine(n, k)], cs + [last + 1], vs + [LongEvent(n, k - 1)];
      forall i | 0 <= i < |events|
        ensures LeadsTo(engines[i], counts[i], events[i], engines[i + 1], counts[i + 1])
      {
        if i < last {
          assert LeadsTo(es[i], cs[i], vs[i], es[i + 1], cs[i + 1]);
        }
      }
    } else if n > 0 {
      engines, counts, events := LongRun(n - 1, MAX_OBSERVED);
      FullIsNext(n - 1);
    } else {
      engines, counts, events := [NEW_ENGINE], [0], [];
      assert LongEngine(0, 0) == NEW_ENGINE by { NoneIsNew(); }
    }
  }

  lemma FullIsNext(n: nat)
    requires n < 98
    ensures LongEngine(n, MAX_OBSERVED) == LongEngine(n + 1, 0)
  {
    hide LongCase, NumberedId, NumberedFinger;
  }

  lemma NoneIsNew()
    ensures LongEngine(0, 0) == NEW_ENGINE
  {
  }

  /** The last document lies between the two bounds. */
  lemma LongDocument()
    ensures var e := LongEngine(44, MAX_OBSERVED);
            Readable(e.cases) && PlainBytes(e.revision, e.cases) > ReadableMax(e.revision)
  {
    hide LongCases, Decimal, HeaderBytes, EnvelopeBytes, RecordBytes, ValidCase, LongEngine;
    FullIsNext(44);
    var e := LongEngine(45, 0);
    assert e.cases == LongCases(45) by { NextIsEmpty(45); }
    FixedParts(e.revision);
    LongCasesFacts(45);
  }

  lemma NextIsEmpty(n: nat)
    requires n < 99
    ensures LongEngine(n, 0).cases == LongCases(n)
  {
  }

  /**
   A run of 11520 valid incidents within every limit, 256 for each of 45 fingerprints. Every one is written and
   acknowledged; the next start refuses the file.
   */
  lemma WrittenButUnreadable() returns (engines: seq<Engine>, counts: seq<nat>, events: seq<Event>, clocks: seq<int>)
    ensures TameRun(engines, counts, events, clocks) && |events| == 11520 == counts[11520]
    ensures engines[11520].store.Some? && Readable(engines[11520].store.value.cases)
    ensures !WithinReadBound(engines[11520].store.value)
  {
    hide Tame, TimeOf, LeadsTo, LongCases, LongIndex, LongCase, PlainBytes, ReadableMax, SealedBytes, Readable,
         NumberedId, NumberedFinger;
    engines, counts, events := LongRun(44, MAX_OBSERVED);
    clocks := seq(|engines|, _ => SECOND);
    LongDocument();
    var e := engines[11520];
    SealedFitsExactlyWhen(e.revision, PlainBytes(e.revision, e.cases));
  }
}
