/**
 The running case engine (control/cases.go): ingesting incidents, changing a status,
 persisting with rollback, and reloading with repair.

 The correlation window and the effective policy are inputs, and so is whether the
 storage takes a write (`works`). A write that fails, or is over the size bound, leaves
 the store as it was; the cases of a run have distinct random IDs.
 */
module CaseEngine {
  import opened Options
  import opened TextOrder
  import opened CaseRepair
  import opened CaseStoreRepair
  import opened CaseBytes

  /** The stored document, keyed by case ID; on disk it lists the cases in ID order. */
  datatype Saved = Saved(revision: nat, cases: map<string, SecurityCase>)

  datatype Engine = Engine(cases: map<string, SecurityCase>, byFinger: map<string, string>, revision: nat,
                           broken: bool, store: Option<Saved>)

  datatype Incident = Incident(severity: string, score: int, fingerprint: string, title: string, confidence: string,
                               observation: Observation, id: string, rules: seq<string>, categories: seq<string>,
                               recommended: seq<string>)

  datatype Policy = Policy(autoCreate: bool, minimumScore: int, maxCases: int, maxObservations: int, maxEvidence: int)

  // --------------------------------------------------------------- operations

  function Persisted(e: Engine): Engine {
    e.(revision := e.revision + 1, store := Some(Saved(e.revision + 1, e.cases)))
  }

  /** persistLocked gets past its bound on the document. */
  ghost predicate Writable(e: Engine) {
    PlainBytes(e.revision + 1, e.cases) <= MAX_BYTES
  }

  predicate Ignored(i: Incident, policy: Policy) {
    Rank(i.severity) == 0 || !policy.autoCreate || i.score < policy.minimumScore
  }

  function BoundedObservations(existing: seq<Observation>, next: Observation, limit: int): seq<Observation> {
    Tail(existing + [next], if limit <= 0 then MAX_OBSERVED else limit)
  }

  /** A known case after one more incident. */
  function Touched(c: SecurityCase, i: Incident, now: int, policy: Policy): SecurityCase {
    var closed := c.status == "resolved" || c.status == "dismissed";
    c.(status := if closed then "open" else c.status, resolution := if closed then "" else c.resolution,
       updated := now, count := (c.count + 1) % COUNT_RANGE, severity := MaxSeverity(c.severity, i.severity),
       observations := BoundedObservations(c.observations, i.observation, policy.maxObservations),
       evidence := AppendUnique(c.evidence, policy.maxEvidence, [i.id]),
       rules := AppendUnique(c.rules, 128, i.rules), categories := AppendUnique(c.categories, 64, i.categories))
  }

  function NewCase(id: string, i: Incident, now: int, policy: Policy): SecurityCase {
    SecurityCase(id, i.fingerprint, i.title, "open", i.severity, i.confidence, now, now, [i.observation],
                 AppendUnique([], policy.maxEvidence, [i.id]), AppendUnique([], 128, i.rules),
                 AppendUnique([], 64, i.categories), i.recommended, "", 1)
  }

  /** The index after a lapsed correlation window released the fingerprint. */
  function Released(e: Engine, i: Incident, expired: bool): Engine {
    if expired then e.(byFinger := e.byFinger - {i.fingerprint}) else e
  }

  /** IngestIncident; `expired` is what the correlation window says of the indexed case. */
  ghost function Ingested(e: Engine, i: Incident, now: int, policy: Policy, expired: bool, id: string,
                          works: bool): Engine
    requires IndexSound(e)
  {
    if Ignored(i, policy) || e.broken then e else Filed(Released(e, i, expired), i, now, policy, id, works)
  }

  predicate Refused(e: Engine, i: Incident, now: int, policy: Policy, id: string) {
    |e.cases| >= policy.maxCases || !ValidId(id) || !ValidCase(NewCase(id, i, now, policy))
  }

  /** The incident goes to the indexed case or opens one; a failed persist puts the case back. */
  ghost function Filed(e: Engine, i: Incident, now: int, policy: Policy, id: string, works: bool): Engine
    requires IndexSound(e)
  {
    if i.fingerprint in e.byFinger then
      if works && Writable(ToTouched(e, i, now, policy)) then WithTouched(e, i, now, policy) else e.(broken := true)
    else if Refused(e, i, now, policy, id) then e
    else if works && Writable(ToNew(e, i, now, policy, id)) then WithNew(e, i, now, policy, id)
    else WithoutNew(e, i, id)
  }

  /** The incident reaches a case and the store. */
  ghost predicate Files(e: Engine, i: Incident, now: int, policy: Policy, id: string, works: bool)
    requires IndexSound(e)
  {
    works && if i.fingerprint in e.byFinger then Writable(ToTouched(e, i, now, policy))
             else !Refused(e, i, now, policy, id) && Writable(ToNew(e, i, now, policy, id))
  }

  /** The rollback of a new case deletes whatever stands under its ID. */
  function WithoutNew(e: Engine, i: Incident, id: string): Engine {
    e.(cases := e.cases - {id}, byFinger := e.byFinger - {i.fingerprint}, broken := true)
  }

  lemma RolledBack(e: Engine, i: Incident, id: string)
    requires id !in e.cases && i.fingerprint !in e.byFinger
    ensures WithoutNew(e, i, id) == e.(broken := true)
  {
    assert e.cases - {id} == e.cases && e.byFinger - {i.fingerprint} == e.byFinger;
  }

  function ToTouched(e: Engine, i: Incident, now: int, policy: Policy): Engine
    requires IndexSound(e) && i.fingerprint in e.byFinger
  {
    var known := e.byFinger[i.fingerprint];
    e.(cases := e.cases[known := Touched(e.cases[known], i, now, policy)])
  }

  function ToNew(e: Engine, i: Incident, now: int, policy: Policy, id: string): Engine {
    e.(cases := e.cases[id := NewCase(id, i, now, policy)], byFinger := e.byFinger[i.fingerprint := id])
  }

  function WithTouched(e: Engine, i: Incident, now: int, policy: Policy): Engine
    requires IndexSound(e) && i.fingerprint in e.byFinger
  {
    Persisted(ToTouched(e, i, now, policy))
  }

  function WithNew(e: Engine, i: Incident, now: int, policy: Policy, id: string): Engine {
    Persisted(ToNew(e, i, now, policy, id))
  }

  /** The incident is counted: a case holds it and the store was written. */
  ghost predicate Counted(e: Engine, i: Incident, now: int, policy: Policy, expired: bool, id: string, works: bool)
    requires IndexSound(e)
  {
    !Ignored(i, policy) && !e.broken && Files(Released(e, i, expired), i, now, policy, id, works)
  }

  predicate StatusAllowed(status: string, resolution: string) {
    if Open(status) then resolution == ""
    else (status == "resolved" || status == "dismissed") && 3 <= |resolution| <= 512
  }

  function ToStatus(e: Engine, id: string, status: string, resolution: string, now: int): Engine
    requires id in e.cases
  {
    e.(cases := e.cases[id := e.cases[id].(status := status, resolution := resolution, updated := now)])
  }

  /** The status change is written. */
  ghost predicate Changed(e: Engine, id: string, status: string, resolution: string, now: int, evidenced: bool,
                          works: bool) {
    && !e.broken && id in e.cases && StatusAllowed(status, resolution) && evidenced
    && works && Writable(ToStatus(e, id, status, resolution, now))
  }

  ghost function StatusSet(e: Engine, id: string, status: string, resolution: string, now: int, evidenced: bool,
                           works: bool): Engine {
    if e.broken || id !in e.cases || !StatusAllowed(status, resolution) || !evidenced then e
    else if Changed(e, id, status, resolution, now, evidenced, works)
    then Persisted(ToStatus(e, id, status, resolution, now))
    else e.(broken := true)
  }

  // ------------------------------------------------------------------- reload

  /** The file lists the stored cases, each once, in ID order. */
  ghost predicate Lists(listing: seq<SecurityCase>, m: map<string, SecurityCase>) {
    && |listing| == |m|
    && (forall i, j :: 0 <= i < j < |listing| ==> Less(listing[i].id, listing[j].id))
    && (forall i :: 0 <= i < |listing| ==> listing[i].id in m && m[listing[i].id] == listing[i])
  }

  function MapOf(cases: seq<SecurityCase>): map<string, SecurityCase> {
    if cases == [] then map[] else MapOf(cases[..|cases| - 1])[cases[|cases| - 1].id := cases[|cases| - 1]]
  }

  function IndexOf(cases: seq<SecurityCase>): map<string, string> {
    if cases == [] then map[]
    else IndexOf(cases[..|cases| - 1])[cases[|cases| - 1].fingerprint := cases[|cases| - 1].id]
  }

  /** The engine as read from a document, repaired if a fingerprint repeats. */
  function Read(saved: Saved, listing: seq<SecurityCase>): Engine {
    var cases := if DistinctFingerprints(listing) then listing else RepairedCases(listing);
    Engine(MapOf(cases), IndexOf(cases), saved.revision, false, Some(saved))
  }

  /** load of a store that decodes, or that repair can merge; a repaired store is written back if that works. */
  ghost function Loaded(saved: Saved, listing: seq<SecurityCase>, works: bool): Engine {
    var e := Read(saved, listing);
    if !DistinctFingerprints(listing) && works && Writable(e) then Persisted(e) else e
  }

  /** The sealed file is within the bound of what load reads. */
  ghost predicate WithinReadBound(saved: Saved) {
    SealedBytes(saved.revision, PlainBytes(saved.revision, saved.cases)) <= MAX_BYTES
  }

  /** load accepts the stored document. */
  ghost predicate Loads(saved: Saved, listing: seq<SecurityCase>) {
    WithinReadBound(saved) && Lists(listing, saved.cases) && Repairable(Store(SCHEMA, saved.revision, listing))
  }

  // --------------------------------------------------------------- invariants

  /** Every index entry points to an existing case with that fingerprint. */
  predicate IndexSound(e: Engine) {
    forall f :: f in e.byFinger ==> e.byFinger[f] in e.cases && e.cases[e.byFinger[f]].fingerprint == f
  }

  predicate Keyed(m: map<string, SecurityCase>) {
    forall id :: id in m ==> m[id].id == id
  }

  /** Occurrences over all cases. */
  ghost function MapTotal(m: map<string, SecurityCase>): nat {
    if m == map[] then 0 else var k :| k in m; m[k].count + MapTotal(m - {k})
  }

  lemma {:induction false} MapTotalSplits(m: map<string, SecurityCase>, k: string)
    requires k in m
    ensures MapTotal(m) == m[k].count + MapTotal(m - {k})
    decreases |m|
  {
    var x :| x in m && MapTotal(m) == m[x].count + MapTotal(m - {x});
    if x != k {
      MapTotalSplits(m - {x}, k);
      MapTotalSplits(m - {k}, x);
      assert m - {x} - {k} == m - {k} - {x};
    }
  }

  lemma MapTotalUpdate(m: map<string, SecurityCase>, k: string, c: SecurityCase)
    ensures MapTotal(m[k := c]) == MapTotal(m) + c.count - (if k in m then m[k].count else 0)
    ensures k in m ==> m[k].count <= MapTotal(m)
  {
    MapTotalSplits(m[k := c], k);
    assert m[k := c] - {k} == m - {k};
    if k in m {
      MapTotalSplits(m, k);
    } else {
      assert m - {k} == m;
    }
  }

  /** Memory and store hold the same cases. */
  predicate Synced(e: Engine) {
    e.cases == if e.store.Some? then e.store.value.cases else map[]
  }

  /** `counted` incidents have been counted so far. */
  ghost predicate Inv(e: Engine, counted: nat) {
    && IndexSound(e) && Keyed(e.cases)
    && MapTotal(e.cases) == counted < COUNT_RANGE
    && (if e.store.Some? then Keyed(e.store.value.cases) && MapTotal(e.store.value.cases) == counted else counted == 0)
  }

  /** Releasing a fingerprint touches only the index. */
  lemma ReleaseKeeps(e: Engine, counted: nat, i: Incident, expired: bool)
    requires Inv(e, counted)
    ensures Inv(Released(e, i, expired), counted) && (Synced(e) ==> Synced(Released(e, i, expired)))
  {
    hide MapTotal;
  }

  /** A written case that counts one more than what it replaces counts one more incident. */
  lemma OneMoreCounted(e: Engine, counted: nat, k: string, c: SecurityCase, byFinger: map<string, string>)
    requires Inv(e, counted) && counted + 1 < COUNT_RANGE && c.id == k
    requires c.count == 1 + (if k in e.cases then e.cases[k].count else 0)
    requires var n := e.(cases := e.cases[k := c], byFinger := byFinger); IndexSound(n)
    ensures var n := Persisted(e.(cases := e.cases[k := c], byFinger := byFinger)); Inv(n, counted + 1) && Synced(n)
  {
    hide MapTotal;
    MapTotalUpdate(e.cases, k, c);
  }

  /** One more incident on a known case: counted when written, rolled back otherwise. */
  lemma TouchKeeps(e: Engine, counted: nat, i: Incident, now: int, policy: Policy)
    requires Inv(e, counted) && counted + 1 < COUNT_RANGE && i.fingerprint in e.byFinger
    ensures var n := WithTouched(e, i, now, policy); Inv(n, counted + 1) && Synced(n)
  {
    hide MapTotal, AppendUnique, MaxSeverity, BoundedObservations;
    var known := e.byFinger[i.fingerprint];
    var c := Touched(e.cases[known], i, now, policy);
    MapTotalUpdate(e.cases, known, c);
    OneMoreCounted(e, counted, known, c, e.byFinger);
  }

  lemma CreateKeeps(e: Engine, counted: nat, i: Incident, now: int, policy: Policy, id: string)
    requires Inv(e, counted) && counted + 1 < COUNT_RANGE && id !in e.cases
    ensures var n := WithNew(e, i, now, policy, id); Inv(n, counted + 1) && Synced(n)
  {
    hide MapTotal, AppendUnique;
    OneMoreCounted(e, counted, id, NewCase(id, i, now, policy), e.byFinger[i.fingerprint := id]);
  }

  /** Filing is counted exactly when it is written; otherwise the cases and the store stay as they were. */
  lemma FilingKeeps(e: Engine, counted: nat, i: Incident, now: int, policy: Policy, id: string, works: bool)
    requires Inv(e, counted) && counted + 1 < COUNT_RANGE && id !in e.cases
    ensures var n := Filed(e, i, now, policy, id, works);
            if Files(e, i, now, policy, id, works)
            then Inv(n, counted + 1) && Synced(n)
            else Inv(n, counted) && n.cases == e.cases && n.store == e.store
  {
    hide MapTotal, WithTouched, WithNew, ToTouched, ToNew, WithoutNew, Refused, Synced, Writable;
    if i.fingerprint in e.byFinger {
      TouchKeeps(e, counted, i, now, policy);
    } else {
      CreateKeeps(e, counted, i, now, policy, id);
      RolledBack(e, i, id);
    }
  }

  lemma IngestKeeps(e: Engine, counted: nat, i: Incident, now: int, policy: Policy, expired: bool, id: string,
                    works: bool)
    requires Inv(e, counted) && counted + 1 < COUNT_RANGE && id !in e.cases
    ensures var n := Ingested(e, i, now, policy, expired, id, works);
            if Counted(e, i, now, policy, expired, id, works)
            then Inv(n, counted + 1) && Synced(n)
            else Inv(n, counted) && n.cases == e.cases && n.store == e.store
  {
    hide MapTotal, Ignored, NewCase, ValidCase, ValidId, Filed, Files, Synced;
    ReleaseKeeps(e, counted, i, expired);
    FilingKeeps(Released(e, i, expired), counted, i, now, policy, id, works);
  }

  lemma StatusKeeps(e: Engine, counted: nat, id: string, status: string, resolution: string, now: int,
                    evidenced: bool, works: bool)
    requires Inv(e, counted)
    ensures var n := StatusSet(e, id, status, resolution, now, evidenced, works);
            && Inv(n, counted) && n.byFinger == e.byFinger
            && (if Changed(e, id, status, resolution, now, evidenced, works) then Synced(n)
                 else n.cases == e.cases && n.store == e.store)
  {
    hide MapTotal, Writable;
    if id in e.cases {
      MapTotalUpdate(e.cases, id, e.cases[id].(status := status, resolution := resolution, updated := now));
    }
  }

  // ------------------------------------------------------------- reload keeps

  lemma {:induction false} MapOfFrom(cases: seq<SecurityCase>, id: string) returns (k: nat)
    requires id in MapOf(cases)
    ensures k < |cases| && cases[k] == MapOf(cases)[id] && cases[k].id == id
  {
    if id == cases[|cases| - 1].id {
      k := |cases| - 1;
    } else {
      k := MapOfFrom(cases[..|cases| - 1], id);
    }
  }

  lemma {:induction false} MapOfHas(cases: seq<SecurityCase>, k: nat)
    requires DistinctIds(cases) && k < |cases|
    ensures cases[k].id in MapOf(cases) && MapOf(cases)[cases[k].id] == cases[k]
  {
    if k < |cases| - 1 {
      MapOfHas(cases[..|cases| - 1], k);
    }
  }

  lemma LastIsNew(cases: seq<SecurityCase>)
    requires DistinctIds(cases) && cases != []
    ensures cases[|cases| - 1].id !in MapOf(cases[..|cases| - 1])
  {
    var front, last := cases[..|cases| - 1], cases[|cases| - 1];
    if last.id in MapOf(front) {
      var k := MapOfFrom(front, last.id);
      assert false;
    }
  }

  lemma {:induction false} MapOfTotal(cases: seq<SecurityCase>)
    requires DistinctIds(cases)
    ensures MapTotal(MapOf(cases)) == Total(cases) && |MapOf(cases)| == |cases|
  {
    if cases != [] {
      var front, last := cases[..|cases| - 1], cases[|cases| - 1];
      MapOfTotal(front);
      LastIsNew(cases);
      MapTotalUpdate(MapOf(front), last.id, last);
      assert MapOf(cases).Keys == MapOf(front).Keys + {last.id};
    }
  }

  lemma {:induction false} IndexOfFrom(cases: seq<SecurityCase>, f: string) returns (k: nat)
    requires f in IndexOf(cases)
    ensures k < |cases| && cases[k].fingerprint == f && cases[k].id == IndexOf(cases)[f]
  {
    if f == cases[|cases| - 1].fingerprint {
      k := |cases| - 1;
    } else {
      k := IndexOfFrom(cases[..|cases| - 1], f);
    }
  }

  /** An engine built from a list of cases with distinct IDs. */
  lemma BuiltFromList(cases: seq<SecurityCase>, revision: nat, store: Option<Saved>)
    requires DistinctIds(cases)
    ensures var e := Engine(MapOf(cases), IndexOf(cases), revision, false, store);
            IndexSound(e) && Keyed(e.cases) && MapTotal(e.cases) == Total(cases)
  {
    hide MapTotal, Total, MapOf, IndexOf;
    MapOfTotal(cases);
    forall id | id in MapOf(cases)
      ensures MapOf(cases)[id].id == id
    {
      var k := MapOfFrom(cases, id);
    }
    forall f | f in IndexOf(cases)
      ensures IndexOf(cases)[f] in MapOf(cases) && MapOf(cases)[IndexOf(cases)[f]].fingerprint == f
    {
      var k := IndexOfFrom(cases, f);
      MapOfHas(cases, k);
    }
  }

  lemma SameSize(a: set<string>, b: set<string>)
    requires a <= b && |a| == |b|
    ensures a == b
  {
    assert |b - a| == |b| - |a|;
  }

  /** A listing of a map is the map. */
  lemma ListingIsTheMap(listing: seq<SecurityCase>, m: map<string, SecurityCase>)
    requires Lists(listing, m)
    ensures DistinctIds(listing) && MapOf(listing) == m
  {
    hide MapOf, MapTotal, Total, Less;
    forall i, j | 0 <= i < j < |listing|
      ensures listing[i].id != listing[j].id
    {
      LessIrreflexive(listing[i].id);
    }
    MapOfTotal(listing);
    forall id | id in MapOf(listing)
      ensures id in m && MapOf(listing)[id] == m[id]
    {
      var k := MapOfFrom(listing, id);
    }
    assert MapOf(listing).Keys <= m.Keys;
    SameSize(MapOf(listing).Keys, m.Keys);
  }

  /** A repeated fingerprint is listed once. */
  lemma {:induction false} RepeatsShortenOrder(cases: seq<SecurityCase>)
    requires !DistinctFingerprints(cases)
    ensures |Order(cases)| < |cases|
  {
    var front, last := cases[..|cases| - 1], cases[|cases| - 1];
    OrderFacts(front);
    if DistinctFingerprints(front) {
      var i, j :| 0 <= i < j < |cases| && cases[i].fingerprint == cases[j].fingerprint;
      assert j == |cases| - 1 && front[i].fingerprint == last.fingerprint;
      EveryFingerprintListed(front, i);
    } else {
      RepeatsShortenOrder(front);
    }
  }

  /**
   Reloading, with or without a repair, keeps every counted incident and a sound index.
   Memory and store then agree unless a repair was needed and could not be written back.
   */
  lemma ReloadKeeps(e: Engine, counted: nat, listing: seq<SecurityCase>, works: bool)
    requires Inv(e, counted) && e.store.Some? && Lists(listing, e.store.value.cases)
    requires Repairable(Store(SCHEMA, e.store.value.revision, listing))
    ensures var n := Loaded(e.store.value, listing, works);
            && Inv(n, counted)
            && (Synced(n) <==> DistinctFingerprints(listing) || (works && Writable(Read(e.store.value, listing))))
  {
    hide Writable, MapTotal, MapOf, IndexOf, Total, ValidCase, Lists, Order, Group, Folded, Summarizes;
    var saved := e.store.value;
    var s := Store(SCHEMA, saved.revision, listing);
    ListingIsTheMap(listing, saved.cases);
    MapOfTotal(listing);
    RepairIsLossless(s);
    if DistinctFingerprints(listing) {
      BuiltFromList(listing, saved.revision, e.store);
    } else {
      BuiltFromList(RepairedCases(listing), saved.revision, e.store);
      MapOfTotal(RepairedCases(listing));
      RepeatsShortenOrder(listing);
    }
  }

  // --------------------------------------------------------------------- runs

  datatype Event =
    | Ingest(incident: Incident, now: int, policy: Policy, expired: bool, id: string, works: bool)
    | SetStatus(id: string, status: string, resolution: string, now: int, evidenced: bool, works: bool)
    | Reload(listing: seq<SecurityCase>, works: bool)

  /** A new ID is fresh, a reload reads what is stored and can be used, and the count fits its type. */
  ghost predicate Enabled(e: Engine, counted: nat, event: Event) {
    match event
    case Ingest(_, _, _, _, id, _) => id !in e.cases && counted + 1 < COUNT_RANGE
    case SetStatus(_, _, _, _, _, _) => true
    case Reload(listing, _) =>
      if e.store.None? then listing == []
      else Loads(e.store.value, listing)
  }

  const NEW_ENGINE := Engine(map[], map[], 0, false, None)

  ghost function Next(e: Engine, counted: nat, event: Event): (Engine, nat)
    requires Inv(e, counted) && Enabled(e, counted, event)
  {
    match event
    case Ingest(i, now, policy, expired, id, works) =>
      (Ingested(e, i, now, policy, expired, id, works),
       if Counted(e, i, now, policy, expired, id, works) then counted + 1 else counted)
    case SetStatus(id, status, resolution, now, evidenced, works) =>
      (StatusSet(e, id, status, resolution, now, evidenced, works), counted)
    case Reload(listing, works) =>
      (if e.store.None? then NEW_ENGINE else Loaded(e.store.value, listing, works), counted)
  }

  /** The reload needed a repair that could not be written back. */
  ghost predicate UnwrittenRepair(e: Engine, event: Event) {
    && event.Reload? && e.store.Some? && !DistinctFingerprints(event.listing)
    && !(event.works && Writable(Read(e.store.value, event.listing)))
  }

  /** The event wrote the cases it holds to the store. */
  ghost predicate Writes(e: Engine, event: Event)
    requires IndexSound(e)
  {
    match event
    case Ingest(i, now, policy, expired, id, works) => Counted(e, i, now, policy, expired, id, works)
    case SetStatus(id, status, resolution, now, evidenced, works) =>
      Changed(e, id, status, resolution, now, evidenced, works)
    case Reload(_, _) => false
  }

  /**
   Memory equals the store after a write, after a reload whose repair (if any) was written, and otherwise as
   before.
   */
  lemma StepKeeps(e: Engine, counted: nat, event: Event)
    requires Inv(e, counted) && Enabled(e, counted, event)
    ensures var (n, more) := Next(e, counted, event);
            && Inv(n, more)
            && (Synced(n) <==> if event.Reload? then !UnwrittenRepair(e, event) else Writes(e, event) || Synced(e))
  {
    hide MapTotal, Ingested, Counted, StatusSet, Loaded, Read, Writable, Repairable, Lists, DistinctFingerprints,
         Changed, WithinReadBound;
    match event
    case Ingest(i, now, policy, expired, id, works) => IngestKeeps(e, counted, i, now, policy, expired, id, works);
    case SetStatus(id, status, resolution, now, evidenced, works) =>
      StatusKeeps(e, counted, id, status, resolution, now, evidenced, works);
    case Reload(listing, works) =>
      if e.store.Some? {
        ReloadKeeps(e, counted, listing, works);
      } else {
        assert MapTotal(map[]) == 0 by { EmptyTotal(); }
      }
  }

  lemma EmptyTotal()
    ensures MapTotal(map[]) == 0
  {
  }

  ghost predicate LeadsTo(e: Engine, counted: nat, event: Event, n: Engine, more: nat) {
    Inv(e, counted) ==> Enabled(e, counted, event) && (n, more) == Next(e, counted, event)
  }

  ghost predicate Run(engines: seq<Engine>, counts: seq<nat>, events: seq<Event>) {
    && |engines| == |counts| == |events| + 1
    && engines[0] == NEW_ENGINE && counts[0] == 0
    && forall i :: 0 <= i < |events| ==>
         LeadsTo(engines[i], counts[i], events[i], engines[i + 1], counts[i + 1])
  }

  /** A repair could not be written back, and nothing has been written or reloaded since. */
  ghost predicate Apart(engines: seq<Engine>, counts: seq<nat>, events: seq<Event>, n: nat)
    requires Run(engines, counts, events) && n <= |events|
  {
    && n > 0
    && var e, event := engines[n - 1], events[n - 1];
       if event.Reload? then UnwrittenRepair(e, event)
       else !(IndexSound(e) && Writes(e, event)) && Apart(engines, counts, events, n - 1)
  }

  /**
   Over every run the occurrence counts add up to the incidents counted, the index points to cases with
   the indexed fingerprint, and memory equals the store after every call exactly unless a reload could
   not write its repair back and nothing has been written or reloaded since.
   */
  lemma {:induction false} RunKeeps(engines: seq<Engine>, counts: seq<nat>, events: seq<Event>, n: nat)
    requires Run(engines, counts, events) && n <= |events|
    ensures Inv(engines[n], counts[n])
    ensures Synced(engines[n]) <==> !Apart(engines, counts, events, n)
  {
    hide Enabled, Next, MapTotal, UnwrittenRepair, Writes, Synced;
    if n == 0 {
      EmptyTotal();
      assert Synced(NEW_ENGINE) by { NewIsSynced(); }
    } else {
      RunKeeps(engines, counts, events, n - 1);
      var k := n - 1;
      assert LeadsTo(engines[k], counts[k], events[k], engines[k + 1], counts[k + 1]);
      StepKeeps(engines[k], counts[k], events[k]);
    }
  }

  lemma NewIsSynced()
    ensures Synced(NEW_ENGINE)
  {
  }

  // --------------------------------------------------------------- the engine

  lemma PutAndTake<T>(m: map<string, T>, k: string, v: T)
    ensures m[k := v] - {k} == m - {k}
  {
  }

  /** The engine updates its maps first and puts them back when the store cannot be written. */
  class LiveEngine {
    var cases: map<string, SecurityCase>
    var byFinger: map<string, string>
    var revision: nat
    var broken: bool
    var store: Option<Saved>

    function State(): Engine
      reads this
    {
      Engine(cases, byFinger, revision, broken, store)
    }

    /** The size of the document that would be written. */
    method DocumentSize() returns (n: nat)
      ensures n == PlainBytes(revision + 1, cases)
    {
      hide RecordBytes;
      var records, left := 0, cases;
      while left != map[]
        invariant records + RecordsBytes(left) == RecordsBytes(cases)
        decreases |left|
      {
        var id :| id in left;
        RecordsBytesSplit(left, id);
        records := records + RecordBytes(left[id]) + 1;
        left := left - {id};
      }
      n := DocumentBytes(revision + 1, records);
    }

    method Persist(works: bool) returns (ok: bool)
      modifies this`revision, this`store
      ensures ok <==> works && old(Writable(State()))
      ensures State() == if ok then Persisted(old(State())) else old(State())
    {
      var size := DocumentSize();
      if size > MAX_BYTES || !works {
        return false;
      }
      store := Some(Saved(revision + 1, cases));
      revision := revision + 1;
      return true;
    }

    method IngestIncident(i: Incident, now: int, policy: Policy, expired: bool, id: string, works: bool)
      returns (ok: bool)
      requires IndexSound(State())
      modifies this
      ensures State() == Ingested(old(State()), i, now, policy, expired, id, works)
      ensures ok <==> Rank(i.severity) == 0
                      || (!old(broken) && (Ignored(i, policy)
                          || Counted(old(State()), i, now, policy, expired, id, works)))
    {
      hide Rank, Touched, NewCase, ValidCase, ValidId, Writable;
      if Rank(i.severity) == 0 {
        return true;
      }
      if broken {
        return false;
      }
      if !policy.autoCreate || i.score < policy.minimumScore {
        return true;
      }
      if expired {
        byFinger := byFinger - {i.fingerprint};
      }
      if i.fingerprint in byFinger {
        ok := TouchCase(byFinger[i.fingerprint], i, now, policy, works);
      } else if |cases| >= policy.maxCases || !ValidId(id) || !ValidCase(NewCase(id, i, now, policy)) {
        return false;
      } else {
        ok := OpenCase(id, i, now, policy, works);
      }
    }

    method TouchCase(known: string, i: Incident, now: int, policy: Policy, works: bool) returns (ok: bool)
      requires known in cases
      modifies this
      ensures var next := old(State()).(cases := old(cases)[known := Touched(old(cases)[known], i, now, policy)]);
              && (ok <==> works && Writable(next))
              && State() == if ok then Persisted(next) else old(State()).(broken := true)
    {
      hide Touched, Writable;
      var before := cases[known];
      ghost var was := cases;
      cases := cases[known := Touched(before, i, now, policy)];
      ok := Persist(works);
      if !ok {
        cases := cases[known := before];
        broken := true;
        assert cases == was;
      }
    }

    method OpenCase(id: string, i: Incident, now: int, policy: Policy, works: bool) returns (ok: bool)
      modifies this
      ensures ok <==> works && Writable(ToNew(old(State()), i, now, policy, id))
      ensures State() == if ok then WithNew(old(State()), i, now, policy, id) else WithoutNew(old(State()), i, id)
    {
      hide NewCase, Writable;
      ghost var was, index := cases, byFinger;
      cases := cases[id := NewCase(id, i, now, policy)];
      byFinger := byFinger[i.fingerprint := id];
      ok := Persist(works);
      if !ok {
        cases := cases - {id};
        byFinger := byFinger - {i.fingerprint};
        broken := true;
        PutAndTake(was, id, NewCase(id, i, now, policy));
        PutAndTake(index, i.fingerprint, id);
      }
    }

    method SetStatus(id: string, status: string, resolution: string, now: int, evidenced: bool, works: bool)
      returns (ok: bool)
      modifies this
      ensures State() == StatusSet(old(State()), id, status, resolution, now, evidenced, works)
      ensures ok <==> Changed(old(State()), id, status, resolution, now, evidenced, works)
    {
      hide Writable;
      if broken || id !in cases || !StatusAllowed(status, resolution) || !evidenced {
        return false;
      }
      var before := cases[id];
      ghost var was := cases;
      cases := cases[id := before.(status := status, resolution := resolution, updated := now)];
      ok := Persist(works);
      if !ok {
        cases := cases[id := before];
        broken := true;
        assert cases == was;
      }
    }
  }
}
