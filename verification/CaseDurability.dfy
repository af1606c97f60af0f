/**
 Whether the case engine can read back what it writes (control/cases.go).

 A new case is validated before it is stored. A known case is updated without validation, under
 limits that an operator may set above the structural bounds of the decoder
 (control/forensics_fabric.go). And the document is bounded before it is sealed when it is
 written, but after it was sealed, a third longer, when it is read.
 */
module CaseDurability {
  import opened Options
  import opened CaseRepair
  import opened CaseStoreRepair
  import opened CaseEngine
  import opened CaseBytes

  /** One more incident fits the structural bounds of the known case. */
  predicate TouchFits(c: SecurityCase, i: Incident, now: int, policy: Policy) {
    && now != 0 && c.created <= now && c.count + 1 < COUNT_RANGE
    && ValidObservation(i.observation)
    && (|c.observations| < MAX_OBSERVED || policy.maxObservations <= MAX_OBSERVED)
    && (|c.evidence| < MAX_EVIDENCE || policy.maxEvidence <= MAX_EVIDENCE || i.id == ""
         || Truncated(i.id, 160) in c.evidence)
  }

  lemma OneValue(existing: seq<string>, limit: int, v: string)
    ensures AppendUnique(existing, limit, [v]) == AddUnique(existing, limit, v)
  {
    assert [v][..0] == [];
  }

  /** The bounded list ends with the new observation and is otherwise a tail of the old ones. */
  lemma BoundedObservationsFacts(existing: seq<Observation>, next: Observation, limit: int)
    ensures var r := BoundedObservations(existing, next, limit);
            var room := if limit <= 0 then MAX_OBSERVED else limit;
            && |r| == Min(|existing| + 1, room) && r[|r| - 1] == next
            && forall k :: 0 <= k < |r| - 1 ==> r[k] in existing
  {
    var r := BoundedObservations(existing, next, limit);
    var cut := |existing| + 1 - |r|;
    forall k | 0 <= k < |r| - 1
      ensures r[k] in existing
    {
      assert r[k] == existing[cut + k];
    }
  }

  lemma ObservationsFit(existing: seq<Observation>, next: Observation, limit: int)
    requires |existing| <= MAX_OBSERVED && forall k :: 0 <= k < |existing| ==> ValidObservation(existing[k])
    ensures var r := BoundedObservations(existing, next, limit);
            (0 < |r| <= MAX_OBSERVED && forall k :: 0 <= k < |r| ==> ValidObservation(r[k]))
            <==> (ValidObservation(next) && (|existing| < MAX_OBSERVED || limit <= MAX_OBSERVED))
  {
    hide ValidObservation, BoundedObservations;
    BoundedObservationsFacts(existing, next, limit);
    var r := BoundedObservations(existing, next, limit);
    assert ValidObservation(next) <==> ValidObservation(r[|r| - 1]);
  }

  /** An updated case passes validation exactly when the incident fits. */
  lemma TouchedIsValidExactlyWhen(c: SecurityCase, i: Incident, now: int, policy: Policy)
    requires ValidCase(c) && c.count < COUNT_RANGE && Rank(i.severity) > 0
    ensures ValidCase(Touched(c, i, now, policy)) <==> TouchFits(c, i, now, policy)
  {
    hide AppendUnique, BoundedObservations, Truncated, ValidObservation, ValidId, HexText;
    ObservationsFit(c.observations, i.observation, policy.maxObservations);
    OneValue(c.evidence, policy.maxEvidence, i.id);
    assert |AppendUnique(c.rules, 128, i.rules)| <= 128 && |AppendUnique(c.categories, 64, i.categories)| <= 64;
  }

  /**
   One more incident forgets nothing but old observations: identity and creation stay, the severity is the
   higher of the two, the case is open again, and the lists only grow, up to their limits.
   */
  lemma TouchedRemembers(c: SecurityCase, i: Incident, now: int, policy: Policy)
    requires ValidCase(c)
    ensures var t := Touched(c, i, now, policy);
            && t.id == c.id && t.fingerprint == c.fingerprint && t.created == c.created && t.updated == now
            && Rank(c.severity) <= Rank(t.severity) && Rank(i.severity) <= Rank(t.severity)
            && (t.severity == c.severity || t.severity == i.severity)
            && Open(t.status) && (Open(c.status) ==> t.status == c.status && t.resolution == c.resolution)
            && c.evidence <= t.evidence && c.rules <= t.rules && c.categories <= t.categories
            && i.observation in t.observations
            && (forall r :: r in i.rules && r != "" && |t.rules| < 128 ==> Truncated(r, 160) in t.rules)
            && (i.id != "" && |t.evidence| < policy.maxEvidence ==> Truncated(i.id, 160) in t.evidence)
  {
    hide ValidObservation, ValidId, HexText, BoundedObservations, Truncated;
    BoundedObservationsFacts(c.observations, i.observation, policy.maxObservations);
    var t := Touched(c, i, now, policy);
    assert t.observations[|t.observations| - 1] == i.observation;
  }

  /** How many entries a bounded append drops from the front. */
  function Overflow(m: seq<Observation>, limit: int): (cut: nat)
    ensures cut <= |m|
  {
    var room := if limit <= 0 then MAX_OBSERVED else limit;
    |m| + 1 - Min(|m| + 1, room)
  }

  /** Among the first `cut` entries is one that is newer than one of the others. */
  ghost predicate DropsNewer(m: seq<Observation>, cut: nat) {
    exists i, j :: 0 <= i < cut <= j < |m| && m[i].at > m[j].at
  }

  /**
   Repair leaves the observations newest first, appending drops from the front. One more incident on a
   repaired case therefore forgets an observation newer than one it keeps exactly when the bound is
   reached, leaves room for more than the new entry, and the old ones are not all of one time.
   */
  lemma AppendAfterRepairDropsNewerExactlyWhen(left: seq<Observation>, right: seq<Observation>, next: Observation,
                                               limit: int)
    ensures var m := MergeObservations(left, right);
            var room := if limit <= 0 then MAX_OBSERVED else limit;
            && BoundedObservations(m, next, limit) == m[Overflow(m, limit)..] + [next]
            && (DropsNewer(m, Overflow(m, limit)) <==> 1 < room <= |m| && m[0].at > m[|m| - 1].at)
  {
    hide MergeObservations, BoundedObservations, DropsNewer;
    var m := MergeObservations(left, right);
    assert NewestFirst(m) by { MergedObservations(left, right); }
    BoundedIsSuffix(m, next, limit);
    CutDropsNewer(m, Overflow(m, limit));
  }

  lemma BoundedIsSuffix(m: seq<Observation>, next: Observation, limit: int)
    ensures BoundedObservations(m, next, limit) == m[Overflow(m, limit)..] + [next]
  {
  }

  /** Dropping the front of a newest-first list drops something newer than what stays, unless all are of one time. */
  lemma CutDropsNewer(m: seq<Observation>, cut: nat)
    requires NewestFirst(m) && cut <= |m|
    ensures DropsNewer(m, cut) <==> 0 < cut < |m| && m[0].at > m[|m| - 1].at
  {
    if 0 < cut < |m| && m[0].at > m[|m| - 1].at {
      assert 0 <= 0 < cut <= |m| - 1 < |m|;
    }
    if i, j :| 0 <= i < cut <= j < |m| && m[i].at > m[j].at {
      assert m[0].at >= m[i].at;
      assert m[j].at >= m[|m| - 1].at;
    }
  }

  // --------------------------------------------------------------- the engine

  predicate Readable(m: map<string, SecurityCase>) {
    |m| <= MAX_RECORDS && forall id :: id in m ==> ValidCase(m[id])
  }

  /** The next start can read the stored document. */
  ghost predicate Restorable(saved: Saved) {
    Readable(saved.cases) && PlainBytes(saved.revision, saved.cases) <= ReadableMax(saved.revision)
  }

  /** load accepts a listing of the stored cases exactly when the document is restorable. */
  lemma LoadsExactlyWhenRestorable(saved: Saved, listing: seq<SecurityCase>)
    requires saved.revision > 0 && Lists(listing, saved.cases)
    ensures Loads(saved, listing) <==> Restorable(saved)
  {
    hide ValidCase, MapOf, SealedBytes, ReadableMax, PlainBytes;
    SealedFitsExactlyWhen(saved.revision, PlainBytes(saved.revision, saved.cases));
    ListingIsTheMap(listing, saved.cases);
    if Loads(saved, listing) {
      forall id | id in saved.cases
        ensures ValidCase(saved.cases[id])
      {
        var k := MapOfFrom(listing, id);
      }
    }
  }

  /** A document that is not restorable is refused, and repair does not help. */
  lemma UnreadableStoreIsLost(saved: Saved, listing: seq<SecurityCase>)
    requires !Restorable(saved) && Lists(listing, saved.cases)
    ensures !Loads(saved, listing)
    ensures WithinReadBound(saved) ==>
              !Repairable(Store(SCHEMA, saved.revision, listing)) && !Decodes(Store(SCHEMA, saved.revision, listing))
  {
    hide ValidCase, MapOf, PlainBytes, ReadableMax, SealedBytes, Restorable, Loads;
    SealedFitsExactlyWhen(saved.revision, PlainBytes(saved.revision, saved.cases));
    if Repairable(Store(SCHEMA, saved.revision, listing)) {
      LoadsExactlyWhenRestorable(saved, listing);
    }
    LoadsParts(saved, listing);
  }

  lemma LoadsParts(saved: Saved, listing: seq<SecurityCase>)
    requires Lists(listing, saved.cases)
    ensures Loads(saved, listing) <==> WithinReadBound(saved) && Repairable(Store(SCHEMA, saved.revision, listing))
  {
    hide Lists, Repairable, WithinReadBound;
  }

  /** The size of the document once the case stands under the key, from what is known before. */
  ghost function PlainAfter(e: Engine, k: string, c: SecurityCase): nat {
    var gone := if k in e.cases then RecordBytes(e.cases[k]) + 1 else 0;
    var records := RecordsBytes(e.cases) + RecordBytes(c) + 1 - gone;
    DocumentBytes(e.revision + 1, if records < 0 then 0 else records)
  }

  lemma PlainAfterIs(e: Engine, k: string, c: SecurityCase)
    ensures PlainAfter(e, k, c) == PlainBytes(e.revision + 1, e.cases[k := c])
  {
    hide RecordBytes, DocumentBytes;
    RecordsBytesUpdate(e.cases, k, c);
  }

  /** With the case stored under the key, the next start can still read the file. */
  ghost predicate LeavesRoom(e: Engine, k: string, c: SecurityCase) {
    PlainAfter(e, k, c) <= ReadableMax(e.revision + 1)
  }

  lemma OneMoreKey(m: map<string, SecurityCase>, k: string, c: SecurityCase)
    ensures |m[k := c]| == |m| + if k in m then 0 else 1
  {
    assert m[k := c].Keys == m.Keys + {k};
  }

  lemma ReadableUpdate(m: map<string, SecurityCase>, k: string, c: SecurityCase)
    requires Readable(m)
    ensures Readable(m[k := c]) <==> ValidCase(c) && (k in m || |m| < MAX_RECORDS)
  {
    hide ValidCase;
    OneMoreKey(m, k, c);
    var n := m[k := c];
    if Readable(n) {
      assert k in n;
    }
  }

  /** The incident, if it is counted, leaves the stored document readable. */
  ghost predicate IngestFits(e: Engine, i: Incident, now: int, policy: Policy, expired: bool, id: string)
    requires IndexSound(e)
  {
    if i.fingerprint in e.byFinger && !expired then
      var known := e.byFinger[i.fingerprint];
      TouchFits(e.cases[known], i, now, policy) && LeavesRoom(e, known, Touched(e.cases[known], i, now, policy))
    else |e.cases| < MAX_RECORDS && LeavesRoom(e, id, NewCase(id, i, now, policy))
  }

  /**
   A counted incident leaves a document that the next start can read exactly when it fits: its observation
   is valid, the clock is not before the case's creation, the operator's limits do not let the record or
   the store outgrow the decoder's bounds, and the sealed file stays within what is read.
   */
  lemma CountedIncidentReloadsExactlyWhen(e: Engine, counted: nat, i: Incident, now: int, policy: Policy,
                                          expired: bool, id: string)
    requires Inv(e, counted) && counted + 1 < COUNT_RANGE && id !in e.cases && Readable(e.cases)
    requires Counted(e, i, now, policy, expired, id, true)
    ensures var n := Ingested(e, i, now, policy, expired, id, true);
            && n.store.Some? && n.store.value.cases == n.cases
            && (Restorable(n.store.value) <==> IngestFits(e, i, now, policy, expired, id))
  {
    hide ValidCase, Touched, NewCase, TouchFits, ValidId, MapTotal, Rank, PlainBytes, PlainAfter, ReadableMax,
         Readable, Writable;
    assert Rank(i.severity) > 0 && !e.broken by { CountedIsRanked(e, i, now, policy, expired, id); }
    var open := Released(e, i, expired);
    if i.fingerprint in open.byFinger {
      TouchReloads(e, counted, i, now, policy);
    } else {
      ReadableUpdate(e.cases, id, NewCase(id, i, now, policy));
      PlainAfterIs(e, id, NewCase(id, i, now, policy));
      assert ValidCase(NewCase(id, i, now, policy));
    }
  }

  lemma CountedIsRanked(e: Engine, i: Incident, now: int, policy: Policy, expired: bool, id: string)
    requires IndexSound(e) && Counted(e, i, now, policy, expired, id, true)
    ensures Rank(i.severity) > 0 && !e.broken
  {
  }

  lemma TouchReloads(e: Engine, counted: nat, i: Incident, now: int, policy: Policy)
    requires Inv(e, counted) && Readable(e.cases) && i.fingerprint in e.byFinger && Rank(i.severity) > 0
    ensures var known := e.byFinger[i.fingerprint];
            var c := Touched(e.cases[known], i, now, policy);
            Restorable(Saved(e.revision + 1, e.cases[known := c]))
            <==> TouchFits(e.cases[known], i, now, policy) && LeavesRoom(e, known, c)
  {
    hide ValidCase, Touched, TouchFits, MapTotal, Rank, PlainBytes, PlainAfter, ReadableMax;
    var known := e.byFinger[i.fingerprint];
    var c := Touched(e.cases[known], i, now, policy);
    MapTotalUpdate(e.cases, known, e.cases[known]);
    TouchedIsValidExactlyWhen(e.cases[known], i, now, policy);
    ReadableUpdate(e.cases, known, c);
    PlainAfterIs(e, known, c);
  }

  /**
   A changed status leaves a readable document exactly when the clock is not before the case's creation and
   the sealed file stays within what is read.
   */
  lemma ChangedStatusReloadsExactlyWhen(e: Engine, id: string, status: string, resolution: string, now: int)
    requires Readable(e.cases) && Changed(e, id, status, resolution, now, true, true)
    ensures var n := StatusSet(e, id, status, resolution, now, true, true);
            && n.store.Some?
            && (Restorable(n.store.value) <==>
                  && now != 0 && e.cases[id].created <= now
                  && LeavesRoom(e, id, e.cases[id].(status := status, resolution := resolution, updated := now)))
  {
    hide ValidId, HexText, ValidObservation, PlainBytes, PlainAfter, ReadableMax, Writable;
    var c := e.cases[id].(status := status, resolution := resolution, updated := now);
    StatusIsValidExactlyWhen(e.cases[id], status, resolution, now);
    hide ValidCase;
    ReadableUpdate(e.cases, id, c);
    PlainAfterIs(e, id, c);
  }

  lemma StatusIsValidExactlyWhen(c: SecurityCase, status: string, resolution: string, now: int)
    requires ValidCase(c) && StatusAllowed(status, resolution)
    ensures ValidCase(c.(status := status, resolution := resolution, updated := now)) <==> now != 0 && c.created <= now
  {
    hide ValidId, HexText, ValidObservation;
  }

  // ---------------------------------------------------------------- tame runs

  predicate CreatedBy(m: map<string, SecurityCase>, clock: int) {
    forall id :: id in m ==> m[id].created <= clock
  }

  /** Memory and store can both be read back. */
  predicate Reloadable(e: Engine, clock: int) {
    && 0 < clock && Readable(e.cases) && CreatedBy(e.cases, clock)
    && (e.store.Some? ==>
         e.store.value.revision > 0 && Readable(e.store.value.cases) && CreatedBy(e.store.value.cases, clock))
  }

  /** The clock does not go back, observations are valid and the limits stay within the decoder's bounds. */
  predicate Tame(event: Event, clock: int) {
    match event
    case Ingest(i, now, policy, _, _, _) =>
      && clock <= now && ValidObservation(i.observation)
      && policy.maxCases <= MAX_RECORDS && policy.maxObservations <= MAX_OBSERVED && policy.maxEvidence <= MAX_EVIDENCE
    case SetStatus(_, _, _, now, _, _) => clock <= now
    case Reload(_, _) => true
  }

  function TimeOf(event: Event, clock: int): int {
    if event.Reload? then clock else event.now
  }

  lemma LaterStillReloadable(e: Engine, clock: int, now: int)
    requires Reloadable(e, clock) && clock <= now
    ensures Reloadable(e, now)
  {
    hide Readable;
  }

  /** Storing one readable case keeps everything readable. */
  lemma StoredReloadable(e: Engine, clock: int, k: string, c: SecurityCase, byFinger: map<string, string>)
    requires Reloadable(e, clock) && c.created <= clock && Readable(e.cases[k := c])
    ensures Reloadable(Persisted(e.(cases := e.cases[k := c], byFinger := byFinger)), clock)
  {
    hide Readable;
  }

  lemma TameTouch(e: Engine, counted: nat, i: Incident, now: int, policy: Policy)
    requires Inv(e, counted) && counted + 1 < COUNT_RANGE && Reloadable(e, now) && i.fingerprint in e.byFinger
    requires Rank(i.severity) > 0 && ValidObservation(i.observation)
    requires policy.maxObservations <= MAX_OBSERVED && policy.maxEvidence <= MAX_EVIDENCE
    ensures Reloadable(WithTouched(e, i, now, policy), now)
  {
    hide ValidCase, MapTotal, Rank, ValidObservation;
    var known := e.byFinger[i.fingerprint];
    var c := Touched(e.cases[known], i, now, policy);
    MapTotalUpdate(e.cases, known, c);
    TouchedIsValidExactlyWhen(e.cases[known], i, now, policy);
    ReadableUpdate(e.cases, known, c);
    StoredReloadable(e, now, known, c, e.byFinger);
  }

  lemma TameCreate(e: Engine, i: Incident, now: int, policy: Policy, id: string)
    requires Reloadable(e, now) && !Refused(e, i, now, policy, id) && policy.maxCases <= MAX_RECORDS
    ensures Reloadable(WithNew(e, i, now, policy, id), now)
  {
    hide ValidCase, AppendUnique;
    var c := NewCase(id, i, now, policy);
    ReadableUpdate(e.cases, id, c);
    StoredReloadable(e, now, id, c, e.byFinger[i.fingerprint := id]);
  }

  lemma TameFiling(e: Engine, counted: nat, i: Incident, now: int, policy: Policy, id: string, works: bool)
    requires Inv(e, counted) && counted + 1 < COUNT_RANGE && Reloadable(e, now) && id !in e.cases
    requires Rank(i.severity) > 0 && ValidObservation(i.observation)
    requires policy.maxCases <= MAX_RECORDS && policy.maxObservations <= MAX_OBSERVED
    requires policy.maxEvidence <= MAX_EVIDENCE
    ensures Reloadable(Filed(e, i, now, policy, id, works), now)
  {
    hide WithTouched, WithNew, WithoutNew, Refused, Readable, CreatedBy, Rank, ValidObservation, MapTotal;
    if i.fingerprint in e.byFinger {
      TameTouch(e, counted, i, now, policy);
    } else if !Refused(e, i, now, policy, id) {
      TameCreate(e, i, now, policy, id);
      RolledBack(e, i, id);
    }
  }

  lemma TameIngest(e: Engine, counted: nat, event: Event, clock: int)
    requires Inv(e, counted) && Enabled(e, counted, event) && Reloadable(e, clock) && Tame(event, clock)
    requires event.Ingest?
    ensures Reloadable(Next(e, counted, event).0, event.now)
  {
    hide Readable, CreatedBy, MapTotal, Rank, ValidObservation, Filed;
    var i := event.incident;
    LaterStillReloadable(e, clock, event.now);
    ReleaseKeeps(e, counted, i, event.expired);
    if !Ignored(i, event.policy) && !e.broken {
      TameFiling(Released(e, i, event.expired), counted, i, event.now, event.policy, event.id, event.works);
    }
  }

  lemma TameStatus(e: Engine, event: Event, clock: int)
    requires Reloadable(e, clock) && Tame(event, clock) && event.SetStatus?
    ensures var n := StatusSet(e, event.id, event.status, event.resolution, event.now, event.evidenced, event.works);
            Reloadable(n, event.now)
  {
    hide ValidCase, Writable, Readable;
    LaterStillReloadable(e, clock, event.now);
    if event.id in e.cases && StatusAllowed(event.status, event.resolution) {
      var c := e.cases[event.id].(status := event.status, resolution := event.resolution, updated := event.now);
      assert ValidCase(e.cases[event.id]) by { ReadableCase(e.cases, event.id); }
      StatusIsValidExactlyWhen(e.cases[event.id], event.status, event.resolution, event.now);
      ReadableUpdate(e.cases, event.id, c);
      StoredReloadable(e, event.now, event.id, c, e.byFinger);
    }
  }

  lemma ReadableCase(m: map<string, SecurityCase>, id: string)
    requires Readable(m) && id in m
    ensures ValidCase(m[id])
  {
  }

  /** A map built from valid cases is readable. */
  lemma BuiltIsReadable(cases: seq<SecurityCase>, clock: int)
    requires AllValid(cases) && DistinctIds(cases) && |cases| <= MAX_RECORDS
    requires forall k :: 0 <= k < |cases| ==> cases[k].created <= clock
    ensures Readable(MapOf(cases)) && CreatedBy(MapOf(cases), clock)
  {
    hide ValidCase, MapOf;
    MapOfTotal(cases);
    forall id | id in MapOf(cases)
      ensures ValidCase(MapOf(cases)[id]) && MapOf(cases)[id].created <= clock
    {
      var k := MapOfFrom(cases, id);
    }
  }

  /** A merged record is as old as the oldest of its group. */
  lemma RepairedCreatedBy(s: Store, clock: int, k: nat)
    requires Repairable(s) && Total(s.cases) < COUNT_RANGE && k < |RepairedCases(s.cases)|
    requires forall j :: 0 <= j < |s.cases| ==> s.cases[j].created <= clock
    ensures RepairedCases(s.cases)[k].created <= clock
  {
    hide ValidCase, Total, Group, Folded, Order;
    RepairIsLossless(s);
    var m := RepairedCases(s.cases)[k];
    var group := Group(s.cases, m.fingerprint);
    GroupMembers(s.cases, m.fingerprint);
    var j :| 0 <= j < |group| && group[j].created == m.created;
    assert group[j] in s.cases;
  }

  lemma TameReload(e: Engine, counted: nat, listing: seq<SecurityCase>, works: bool, clock: int)
    requires Inv(e, counted) && Reloadable(e, clock) && e.store.Some? && Lists(listing, e.store.value.cases)
    requires Repairable(Store(SCHEMA, e.store.value.revision, listing))
    ensures Reloadable(Loaded(e.store.value, listing, works), clock)
  {
    hide ValidCase, MapTotal, MapOf, IndexOf, Order, Group, Folded, Summarizes, Total;
    var saved := e.store.value;
    var s := Store(SCHEMA, saved.revision, listing);
    ListingIsTheMap(listing, saved.cases);
    MapOfTotal(listing);
    if DistinctFingerprints(listing) {
      BuiltIsReadable(listing, clock);
    } else {
      RepairIsLossless(s);
      forall k | 0 <= k < |RepairedCases(listing)|
        ensures RepairedCases(listing)[k].created <= clock
      {
        RepairedCreatedBy(s, clock, k);
      }
      BuiltIsReadable(RepairedCases(listing), clock);
    }
  }

  lemma TameStepKeeps(e: Engine, counted: nat, event: Event, clock: int)
    requires Inv(e, counted) && Enabled(e, counted, event) && Reloadable(e, clock) && Tame(event, clock)
    ensures Reloadable(Next(e, counted, event).0, TimeOf(event, clock))
  {
    hide Inv, Ingested, StatusSet, Loaded, Counted, Lists, Repairable, Readable, CreatedBy;
    match event
    case Ingest(_, _, _, _, _, _) => TameIngest(e, counted, event, clock);
    case SetStatus(_, _, _, _, _, _) => TameStatus(e, event, clock);
    case Reload(listing, works) =>
      if e.store.Some? {
        TameReload(e, counted, listing, works, clock);
      } else {
        NothingIsReadable(clock);
      }
  }

  lemma NothingIsReadable(clock: int)
    ensures Readable(map[]) && CreatedBy(map[], clock)
  {
  }

  ghost predicate TameRun(engines: seq<Engine>, counts: seq<nat>, events: seq<Event>, clocks: seq<int>) {
    && Run(engines, counts, events) && |clocks| == |engines| && 0 < clocks[0]
    && forall i :: 0 <= i < |events| ==> Tame(events[i], clocks[i]) && clocks[i + 1] == TimeOf(events[i], clocks[i])
  }

  lemma {:induction false} TameRunIsReloadable(engines: seq<Engine>, counts: seq<nat>, events: seq<Event>,
                                               clocks: seq<int>, n: nat)
    requires TameRun(engines, counts, events, clocks) && n < |engines|
    ensures Reloadable(engines[n], clocks[n])
  {
    hide Inv, Enabled, Next, Readable, CreatedBy, Tame, TimeOf, UnwrittenRepair, Reloadable;
    if n == 0 {
      FreshIsReloadable(clocks[0]);
    } else {
      var k := n - 1;
      TameRunIsReloadable(engines, counts, events, clocks, k);
      RunKeeps(engines, counts, events, k);
      assert LeadsTo(engines[k], counts[k], events[k], engines[k + 1], counts[k + 1]);
      assert Tame(events[k], clocks[k]) && clocks[k + 1] == TimeOf(events[k], clocks[k]);
      TameStepKeeps(engines[k], counts[k], events[k], clocks[k]);
    }
  }

  lemma FreshIsReloadable(clock: int)
    requires 0 < clock
    ensures Reloadable(NEW_ENGINE, clock)
  {
  }

  /** On every tame run a restart can read what is stored exactly when the document is small enough. */
  lemma TameRunsReloadExactlyWhenSmall(engines: seq<Engine>, counts: seq<nat>, events: seq<Event>,
                                       clocks: seq<int>, n: nat,
                                       listing: seq<SecurityCase>)
    requires TameRun(engines, counts, events, clocks) && n < |engines|
    requires engines[n].store.Some? && Lists(listing, engines[n].store.value.cases)
    ensures var saved := engines[n].store.value;
            Loads(saved, listing) <==> PlainBytes(saved.revision, saved.cases) <= ReadableMax(saved.revision)
  {
    hide TameRun, Lists, Loads, PlainBytes, ReadableMax, Readable;
    TameRunIsReloadable(engines, counts, events, clocks, n);
    LoadsExactlyWhenRestorable(engines[n].store.value, listing);
  }
}
