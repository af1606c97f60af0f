/**
 What a call of the case engine leaves behind (IngestIncident and SetStatus in control/cases.go): which
 incidents count, what the case then holds of the incident, and which status changes are taken.
 */
module CaseOutcomes {
  import opened Options
  import opened TextOrder
  import opened CaseRepair
  import opened CaseGathering
  import opened CaseStoreRepair
  import opened CaseEngine
  import opened CaseDurability

  // ---------------------------------------------------------------------- incidents

  /** The gate before the case table: a known severity, automatic creation, and a score of at least the minimum. */
  predicate Passes(i: Incident, policy: Policy) {
    i.severity in {"warning", "high", "critical"} && policy.autoCreate && policy.minimumScore <= i.score
  }

  /** An incident that can be filed changes the engine exactly when it passes the gate. */
  lemma IncidentCountsExactlyWhen(e: Engine, i: Incident, now: int, policy: Policy, expired: bool, id: string)
    requires IndexSound(e) && !e.broken && Files(Released(e, i, expired), i, now, policy, id, true)
    ensures Counted(e, i, now, policy, expired, id, true) <==> Passes(i, policy)
    ensures Ingested(e, i, now, policy, expired, id, true) == e <==> !Passes(i, policy)
    ensures Passes(i, policy) ==> Ingested(e, i, now, policy, expired, id, true).revision == e.revision + 1
  {
    hide Writable, Refused, Touched, NewCase, IndexSound;
    assert Ignored(i, policy) <==> !Passes(i, policy);
  }

  /** The entry of the incident is in the list, trimmed and cut, unless the list is full. */
  predicate Listed(list: seq<string>, limit: int, value: string) {
    value == "" || |list| >= limit || Truncated(value, 160) in list
  }

  /** What a case holds of an incident that was just counted. */
  predicate Tells(c: SecurityCase, i: Incident, now: int, policy: Policy) {
    && c.fingerprint == i.fingerprint && c.updated == now && Open(c.status)
    && c.observations != [] && c.observations[|c.observations| - 1] == i.observation
    && Rank(i.severity) <= Rank(c.severity)
    && Listed(c.evidence, policy.maxEvidence, i.id)
    && (forall v :: v in i.rules ==> Listed(c.rules, 128, v))
    && (forall v :: v in i.categories ==> Listed(c.categories, 64, v))
  }

  lemma TouchedTells(c: SecurityCase, i: Incident, now: int, policy: Policy)
    requires c.fingerprint == i.fingerprint
    requires Open(c.status) || c.status == "resolved" || c.status == "dismissed"
    ensures Tells(Touched(c, i, now, policy), i, now, policy)
    ensures var t := Touched(c, i, now, policy);
            t.id == c.id && t.created == c.created && t.recommended == c.recommended
  {
    hide BoundedObservations, Truncated, AppendUnique;
    BoundedObservationsFacts(c.observations, i.observation, policy.maxObservations);
  }

  /** A new case holds nothing but its incident, and takes over the recommendations as they are. */
  lemma NewCaseTells(id: string, i: Incident, now: int, policy: Policy)
    ensures var c := NewCase(id, i, now, policy);
            && Tells(c, i, now, policy) && c.id == id && c.created == now && c.count == 1 && c.severity == i.severity
            && c.title == i.title && c.confidence == i.confidence && c.status == "open" && c.resolution == ""
            && c.recommended == i.recommended && c.observations == [i.observation]
    ensures var c := NewCase(id, i, now, policy);
            && (forall v :: v in c.evidence ==> v == Truncated(i.id, 160))
            && (forall v :: v in c.rules ==> exists u :: u in i.rules && v == Truncated(u, 160))
            && (forall v :: v in c.categories ==> exists u :: u in i.categories && v == Truncated(u, 160))
  {
    hide Truncated, AppendUnique;
    OnlyValues([], policy.maxEvidence, [i.id]);
    OnlyValues([], 128, i.rules);
    OnlyValues([], 64, i.categories);
  }

  lemma {:induction false} OnlyValues(existing: seq<string>, limit: int, values: seq<string>)
    ensures forall v :: v in AppendUnique(existing, limit, values) ==>
              v in existing || exists u :: u in values && v == Truncated(u, 160)
  {
    hide Truncated;
    if values != [] {
      OnlyValues(existing, limit, values[..|values| - 1]);
    }
  }

  /**
   A counted incident is in the one case its fingerprint points to, in memory and in the store, and no other
   case changes. A known case keeps its identity and counts one more; otherwise the case is new, with the given
   ID.
   */
  lemma CountedIncidentIsTold(e: Engine, counted: nat, i: Incident, now: int, policy: Policy, expired: bool, id: string)
    requires Inv(e, counted) && Readable(e.cases) && id !in e.cases && Counted(e, i, now, policy, expired, id, true)
    ensures var n := Ingested(e, i, now, policy, expired, id, true);
            && i.fingerprint in n.byFinger && n.byFinger[i.fingerprint] in n.cases
            && n.store.Some? && n.store.value.cases == n.cases
            && var k := n.byFinger[i.fingerprint];
               && Tells(n.cases[k], i, now, policy)
               && (forall j :: j != k ==>
                    (j in n.cases <==> j in e.cases) && (j in e.cases ==> n.cases[j] == e.cases[j]))
               && (forall f :: f != i.fingerprint ==>
                     (f in n.byFinger <==> f in e.byFinger) && (f in e.byFinger ==> n.byFinger[f] == e.byFinger[f]))
               && (if i.fingerprint in e.byFinger && !expired
                   then k == e.byFinger[i.fingerprint] && n.cases[k].count == (e.cases[k].count + 1) % COUNT_RANGE
                        && n.cases[k].created == e.cases[k].created
                   else k == id && n.cases[k] == NewCase(id, i, now, policy))
  {
    hide Tells, Touched, NewCase, Readable, MapTotal, Writable, Refused;
    if i.fingerprint in e.byFinger && !expired {
      var known := e.byFinger[i.fingerprint];
      ReadableStatus(e.cases, known);
      TouchedTells(e.cases[known], i, now, policy);
      TouchedCounts(e.cases[known], i, now, policy);
    } else {
      NewCaseTells(id, i, now, policy);
    }
  }

  lemma TouchedCounts(c: SecurityCase, i: Incident, now: int, policy: Policy)
    ensures Touched(c, i, now, policy).count == (c.count + 1) % COUNT_RANGE
  {
  }

  lemma ReadableStatus(m: map<string, SecurityCase>, id: string)
    requires Readable(m) && id in m
    ensures Open(m[id].status) || m[id].status == "resolved" || m[id].status == "dismissed"
  {
    hide ValidId, HexText, ValidObservation;
  }

  /** What an incident must bring to open a case that the decoder reads. */
  predicate OpensACase(i: Incident, now: int, id: string) {
    && |id| == 19 && "CS-" <= id && HexText(id[3..], true)
    && |i.fingerprint| == 64 && HexText(i.fingerprint, false) && 3 <= |i.title| <= 160 && now != 0
    && i.severity in {"warning", "high", "critical"} && i.confidence in {"low", "medium", "high"}
    && |i.recommended| <= 32 && ValidObservation(i.observation)
  }

  /**
   An incident without a known case, that passes the gate on a working engine and fits the document, opens one
   exactly when it is well formed and the table has room; otherwise the cases stay as they are.
   */
  lemma CaseIsOpenedExactlyWhen(e: Engine, i: Incident, now: int, policy: Policy, id: string)
    requires IndexSound(e) && !e.broken && Passes(i, policy) && i.fingerprint !in e.byFinger
    requires Writable(ToNew(e, i, now, policy, id))
    ensures var n := Ingested(e, i, now, policy, false, id, true);
            if OpensACase(i, now, id) && |e.cases| < policy.maxCases
            then n.cases == e.cases[id := NewCase(id, i, now, policy)] && n.byFinger == e.byFinger[i.fingerprint := id]
            else n == e
  {
    hide Writable, IndexSound, AppendUnique, ValidObservation;
    var c := NewCase(id, i, now, policy);
    assert |c.evidence| <= 1 by { AtMostOne(policy.maxEvidence, i.id); }
    assert c.observations[0] == i.observation;
    assert ValidId(id) && ValidCase(c) <==> OpensACase(i, now, id);
  }

  lemma AtMostOne(limit: int, value: string)
    ensures |AppendUnique([], limit, [value])| <= 1
  {
    OneValue([], limit, value);
  }

  // ------------------------------------------------------------------------- reload

  lemma {:induction false} EveryCaseIsIndexed(cases: seq<SecurityCase>, k: nat)
    requires DistinctFingerprints(cases) && k < |cases|
    ensures cases[k].fingerprint in IndexOf(cases) && IndexOf(cases)[cases[k].fingerprint] == cases[k].id
  {
    var front := cases[..|cases| - 1];
    if k < |front| {
      EveryCaseIsIndexed(front, k);
      assert front[k] == cases[k];
    }
  }

  /** After a reload every case is found by its fingerprint. */
  lemma ReloadIndexesEveryCase(saved: Saved, listing: seq<SecurityCase>, works: bool, id: string)
    requires Repairable(Store(SCHEMA, saved.revision, listing)) && Total(listing) < COUNT_RANGE
    requires id in Loaded(saved, listing, works).cases
    ensures var n := Loaded(saved, listing, works);
            n.cases[id].fingerprint in n.byFinger && n.byFinger[n.cases[id].fingerprint] == id
  {
    hide ValidCase, MapOf, IndexOf, Total, Group, Folded, Order, Summarizes, Gathers, Writable;
    var cases := if DistinctFingerprints(listing) then listing else RepairedCases(listing);
    RepairIsLossless(Store(SCHEMA, saved.revision, listing));
    var k := MapOfFrom(cases, id);
    EveryCaseIsIndexed(cases, k);
  }

  // ------------------------------------------------------------------------- status

  /** An active status without a resolution, or a final one with a resolution of 3 to 512 characters. */
  predicate Conclusion(status: string, resolution: string) {
    || (status in {"open", "investigating"} && resolution == "")
    || (status in {"resolved", "dismissed"} && 3 <= |resolution| <= 512)
  }

  /**
   A status change is taken exactly for an existing case of a healthy engine, with an allowed status and
   resolution, once the evidence is recorded and if the document can be written. Then that case has them, the
   time is the call's, and nothing else changes. A change that cannot be written breaks the engine and leaves
   the cases; any other refusal leaves everything.
   */
  lemma StatusIsTakenExactlyWhen(e: Engine, id: string, status: string, resolution: string, now: int,
                                 evidenced: bool, works: bool)
    ensures var n := StatusSet(e, id, status, resolution, now, evidenced, works);
            var allowed := !e.broken && id in e.cases && Conclusion(status, resolution) && evidenced;
            && (n.revision == e.revision + 1 <==>
                  && allowed && works
                  && Writable(e.(cases := e.cases[id := WithStatus(e.cases[id], status, resolution, now)])))
            && (if n.revision == e.revision + 1 then
                  && n.cases == e.cases[id := WithStatus(e.cases[id], status, resolution, now)]
                  && n.byFinger == e.byFinger
                  && n.store == Some(Saved(n.revision, n.cases)) && !n.broken
                else n == e.(broken := e.broken || allowed))
  {
    hide Writable;
    assert StatusAllowed(status, resolution) <==> Conclusion(status, resolution);
  }

  /** The case with another status, resolution and time, and everything else as it was. */
  function WithStatus(c: SecurityCase, status: string, resolution: string, now: int): (d: SecurityCase)
    ensures d.status == status && d.resolution == resolution && d.updated == now
    ensures d.(status := c.status, resolution := c.resolution, updated := c.updated) == c
  {
    c.(status := status, resolution := resolution, updated := now)
  }
}
