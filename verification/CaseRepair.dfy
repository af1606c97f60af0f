/**
 Security cases and the repair of a store that holds several records for one
 fingerprint (control/cases.go).
 */
module CaseRepair {
  import opened Options
  import opened TextOrder
  import opened TextTrim

  const MAX_RECORDS: nat := 4096
  const MAX_EVIDENCE: nat := 256
  const MAX_OBSERVED: nat := 256
  const COUNT_RANGE: nat := 0x1_0000_0000_0000_0000
  const SCHEMA := "vgt-gedefense-cases-v1"

  /** Times are instants; 0 is the zero time. */
  datatype Observation = Observation(at: int, source: string, message: string, target: string)

  datatype SecurityCase = SecurityCase(id: string, fingerprint: string, title: string, status: string, severity: string,
                                       confidence: string, created: int, updated: int, observations: seq<Observation>,
                                       evidence: seq<string>, rules: seq<string>, categories: seq<string>,
                                       recommended: seq<string>, resolution: string, count: nat)

  datatype Store = Store(schema: string, revision: nat, cases: seq<SecurityCase>)

  // --------------------------------------------------------------- validation

  predicate HexText(s: string, lowerOnly: bool) {
    forall i :: 0 <= i < |s| ==> '0' <= s[i] <= '9' || 'a' <= s[i] <= 'f' || (!lowerOnly && 'A' <= s[i] <= 'F')
  }

  predicate ValidId(id: string) {
    |id| == 19 && "CS-" <= id && HexText(id[3..], true)
  }

  predicate ValidObservation(o: Observation) {
    o.at != 0 && 1 <= |o.source| <= 64 && 1 <= |o.message| <= 512 && |o.target| <= 512
  }

  predicate Open(status: string) {
    status == "open" || status == "investigating"
  }

  predicate ValidCase(c: SecurityCase) {
    && ValidId(c.id) && |c.fingerprint| == 64 && HexText(c.fingerprint, false)
    && 3 <= |c.title| <= 160
    && c.created != 0 && c.updated != 0 && c.updated >= c.created && c.count != 0
    && 0 < |c.observations| <= MAX_OBSERVED && |c.evidence| <= MAX_EVIDENCE && |c.rules| <= 128
    && |c.categories| <= 64 && |c.recommended| <= 32 && |c.resolution| <= 512
    && (Open(c.status) || c.status == "resolved" || c.status == "dismissed")
    && c.severity in {"warning", "high", "critical"}
    && c.confidence in {"low", "medium", "high"}
    && forall i :: 0 <= i < |c.observations| ==> ValidObservation(c.observations[i])
  }

  predicate ValidMetadata(s: Store) {
    s.schema == SCHEMA && s.revision != 0 && |s.cases| <= MAX_RECORDS
  }

  predicate DistinctIds(cases: seq<SecurityCase>) {
    forall i, j :: 0 <= i < j < |cases| ==> cases[i].id != cases[j].id
  }

  predicate DistinctFingerprints(cases: seq<SecurityCase>) {
    forall i, j :: 0 <= i < j < |cases| ==> cases[i].fingerprint != cases[j].fingerprint
  }

  predicate AllValid(cases: seq<SecurityCase>) {
    forall i :: 0 <= i < |cases| ==> ValidCase(cases[i])
  }

  /** decodeCaseStore accepts. */
  predicate Decodes(s: Store) {
    ValidMetadata(s) && AllValid(s.cases) && DistinctIds(s.cases) && DistinctFingerprints(s.cases)
  }

  /** A store that only repeats fingerprints, so repair can merge it. */
  predicate Repairable(s: Store) {
    ValidMetadata(s) && AllValid(s.cases) && DistinctIds(s.cases)
  }

  // -------------------------------------------------------------------- lists

  /** truncateCaseText */
  function Truncated(s: string, limit: nat): string {
    var t := Trim(s, IsSpace);
    if |t| <= limit then t else t[..limit]
  }

  /** One value of appendUniqueBounded: added when it is new and there is room. */
  function AddUnique(list: seq<string>, limit: int, value: string): seq<string> {
    if value == "" || Truncated(value, 160) in list || |list| >= limit then list
    else list + [Truncated(value, 160)]
  }

  function AppendUnique(existing: seq<string>, limit: int, values: seq<string>): (r: seq<string>)
    ensures existing <= r
    ensures |existing| <= limit ==> |r| <= limit
    ensures forall v :: v in values && v != "" && |r| < limit ==> Truncated(v, 160) in r
  {
    if values == [] then existing
    else AddUnique(AppendUnique(existing, limit, values[..|values| - 1]), limit, values[|values| - 1])
  }

  method AppendUniqueBounded(existing: seq<string>, limit: int, values: seq<string>) returns (result: seq<string>)
    ensures result == AppendUnique(existing, limit, values)
  {
    result := existing;
    if limit < 1 {
      NoRoomNoChange(existing, limit, values);
      return;
    }
    for i := 0 to |values|
      invariant result == AppendUnique(existing, limit, values[..i])
    {
      assert values[..i + 1][..i] == values[..i];
      if values[i] != "" {
        var value := Truncated(values[i], 160);
        if value !in result && |result| < limit {
          result := result + [value];
        }
      }
    }
    assert values[..|values|] == values;
  }

  lemma {:induction false} NoRoomNoChange(existing: seq<string>, limit: int, values: seq<string>)
    requires limit < 1
    ensures AppendUnique(existing, limit, values) == existing
  {
    if values != [] {
      NoRoomNoChange(existing, limit, values[..|values| - 1]);
    }
  }

  /** Newest first; equal times keep their order. */
  predicate NewestFirst(s: seq<Observation>) {
    forall i, j :: 0 <= i < j < |s| ==> s[i].at >= s[j].at
  }

  function InsertObservation(s: seq<Observation>, o: Observation): seq<Observation> {
    if s != [] && s[|s| - 1].at < o.at then InsertObservation(s[..|s| - 1], o) + [s[|s| - 1]] else s + [o]
  }

  function SortObservations(s: seq<Observation>): seq<Observation> {
    if s == [] then [] else InsertObservation(SortObservations(s[..|s| - 1]), s[|s| - 1])
  }

  lemma {:induction false} InsertPermutes(s: seq<Observation>, o: Observation)
    ensures multiset(InsertObservation(s, o)) == multiset(s + [o])
  {
    if s != [] && s[|s| - 1].at < o.at {
      var front, last := s[..|s| - 1], s[|s| - 1];
      InsertPermutes(front, o);
      assert s == front + [last];
    }
  }

  lemma {:induction false} InsertKeeps(s: seq<Observation>, o: Observation)
    requires NewestFirst(s)
    ensures NewestFirst(InsertObservation(s, o))
  {
    if s != [] && s[|s| - 1].at < o.at {
      var front, last := s[..|s| - 1], s[|s| - 1];
      InsertKeeps(front, o);
      InsertPermutes(front, o);
      forall i | 0 <= i < |InsertObservation(front, o)|
        ensures InsertObservation(front, o)[i].at >= last.at
      {
        var x := InsertObservation(front, o)[i];
        assert x in multiset(InsertObservation(front, o));
        assert x in front + [o];
      }
    }
  }

  lemma {:induction false} SortingKeeps(s: seq<Observation>)
    ensures NewestFirst(SortObservations(s)) && multiset(SortObservations(s)) == multiset(s)
    ensures |SortObservations(s)| == |s|
  {
    if s != [] {
      SortingKeeps(s[..|s| - 1]);
      InsertKeeps(SortObservations(s[..|s| - 1]), s[|s| - 1]);
      InsertPermutes(SortObservations(s[..|s| - 1]), s[|s| - 1]);
      assert s == s[..|s| - 1] + [s[|s| - 1]];
    }
    assert |multiset(SortObservations(s))| == |SortObservations(s)| && |multiset(s)| == |s|;
  }

  function MergeObservations(left: seq<Observation>, right: seq<Observation>): seq<Observation> {
    var combined := SortObservations(left + right);
    combined[..Min(MAX_OBSERVED, |combined|)]
  }

  /** The newest observations of both lists survive, newest first, within the bound. */
  lemma MergedObservations(left: seq<Observation>, right: seq<Observation>)
    ensures var r := MergeObservations(left, right);
            && NewestFirst(r) && |r| == Min(MAX_OBSERVED, |left| + |right|)
            && (forall o :: o in r ==> o in left || o in right)
            && (forall o :: (o in left || o in right) && o !in r ==> forall i :: 0 <= i < |r| ==> r[i].at >= o.at)
  {
    var all, r := SortObservations(left + right), MergeObservations(left, right);
    SortingKeeps(left + right);
    hide SortObservations;
    forall o | o in r
      ensures o in left || o in right
    {
      assert o in all;
      assert o in multiset(all);
      assert o in left + right;
    }
    forall o, i | (o in left || o in right) && o !in r && 0 <= i < |r|
      ensures r[i].at >= o.at
    {
      assert o in left + right;
      assert o in multiset(all);
      var j :| 0 <= j < |all| && all[j] == o;
      assert j >= |r|;
    }
  }

  // -------------------------------------------------------------------- merge

  function Rank(severity: string): nat {
    if severity == "warning" then 1 else if severity == "high" then 2 else if severity == "critical" then 3 else 0
  }

  function MaxSeverity(left: string, right: string): string {
    if Rank(right) > Rank(left) then right else left
  }

  /** The right record keeps its identity: it is newer, or as new with a smaller ID. */
  predicate Replaces(left: SecurityCase, right: SecurityCase) {
    right.updated > left.updated || (right.updated == left.updated && Less(right.id, left.id))
  }

  /** mergeSecurityCases */
  function Merge(left: SecurityCase, right: SecurityCase): SecurityCase {
    var swap := Replaces(left, right);
    var keeper := if swap then right else left;
    var folded := if swap then left else right;
    var reopened := Open(folded.status) && !Open(keeper.status);
    var status := if reopened then folded.status else keeper.status;
    var kept := if reopened then "" else keeper.resolution;
    SecurityCase(keeper.id, keeper.fingerprint, keeper.title, status, MaxSeverity(keeper.severity, folded.severity),
                 keeper.confidence,
                 if folded.created < keeper.created then folded.created else keeper.created,
                 if folded.updated > keeper.updated then folded.updated else keeper.updated,
                 MergeObservations(keeper.observations, folded.observations),
                 AppendUnique(keeper.evidence, MAX_EVIDENCE, folded.evidence),
                 AppendUnique(keeper.rules, 128, folded.rules),
                 AppendUnique(keeper.categories, 64, folded.categories),
                 AppendUnique(keeper.recommended, 32, folded.recommended),
                 if !Open(status) && kept == "" then folded.resolution else kept,
                 (keeper.count + folded.count) % COUNT_RANGE)
  }

  lemma MergeIsValid(left: SecurityCase, right: SecurityCase)
    requires ValidCase(left) && ValidCase(right) && left.count + right.count < COUNT_RANGE
    ensures ValidCase(Merge(left, right))
  {
    hide SortObservations, HexText, AppendUnique;
    var swap := Replaces(left, right);
    var keeper := if swap then right else left;
    var folded := if swap then left else right;
    var r := MergeObservations(keeper.observations, folded.observations);
    MergedObservations(keeper.observations, folded.observations);
    forall i | 0 <= i < |r|
      ensures ValidObservation(r[i])
    {
      assert r[i] in r;
    }
  }

  // ------------------------------------------------------------------- groups

  /** The records of one fingerprint, in store order. */
  function Group(cases: seq<SecurityCase>, fingerprint: string): seq<SecurityCase> {
    if cases == [] then []
    else
      var rest, last := Group(cases[..|cases| - 1], fingerprint), cases[|cases| - 1];
      if last.fingerprint == fingerprint then rest + [last] else rest
  }

  /** The records of a group merged one after the other. */
  function Folded(group: seq<SecurityCase>): SecurityCase
    requires group != []
  {
    if |group| == 1 then group[0] else Merge(Folded(group[..|group| - 1]), group[|group| - 1])
  }

  function Total(cases: seq<SecurityCase>): nat {
    if cases == [] then 0 else Total(cases[..|cases| - 1]) + cases[|cases| - 1].count
  }

  /** The member that keeps its identity: newest, and among equally new ones with the smallest ID. */
  predicate Leads(c: SecurityCase, d: SecurityCase) {
    d.updated < c.updated || (d.updated == c.updated && (c.id == d.id || Less(c.id, d.id)))
  }

  /** What a merged record says about its group, without reference to the order of merging. */
  ghost predicate Summarizes(m: SecurityCase, group: seq<SecurityCase>) {
    && (exists k ::
          0 <= k < |group| && Identity(m, group[k]) && forall j :: 0 <= j < |group| ==> Leads(group[k], group[j]))
    && m.count == Total(group)
    && (exists k :: 0 <= k < |group| && group[k].severity == m.severity)
    && (exists k :: 0 <= k < |group| && group[k].created == m.created)
    && (forall j :: 0 <= j < |group| ==> Rank(group[j].severity) <= Rank(m.severity) && m.created <= group[j].created)
    && (Open(m.status) <==> exists k :: 0 <= k < |group| && Open(group[k].status))
  }

  predicate Identity(m: SecurityCase, c: SecurityCase) {
    m.id == c.id && m.fingerprint == c.fingerprint && m.title == c.title && m.confidence == c.confidence
        && m.updated == c.updated
  }

  lemma LeadsOverOne(m: SecurityCase, x: SecurityCase)
    ensures Leads(m, x) || Replaces(m, x)
    ensures Replaces(m, x) ==> Leads(x, m)
  {
    LessTotal(m.id, x.id);
  }

  lemma LeadsTransitive(a: SecurityCase, b: SecurityCase, c: SecurityCase)
    requires Leads(a, b) && Leads(b, c)
    ensures Leads(a, c)
  {
    if Less(a.id, b.id) && Less(b.id, c.id) {
      LessTransitive(a.id, b.id, c.id);
    }
  }

  /** Merging one more record into a summary summarizes the longer group. */
  lemma MergeExtendsIdentity(m: SecurityCase, group: seq<SecurityCase>, x: SecurityCase)
    requires Summarizes(m, group)
    ensures exists k :: 0 <= k < |group + [x]| && Identity(Merge(m, x), (group + [x])[k])
                     && forall j :: 0 <= j < |group + [x]| ==> Leads((group + [x])[k], (group + [x])[j])
  {
    hide SortObservations, AppendUnique, Less;
    var longer := group + [x];
    var k :| 0 <= k < |group| && Identity(m, group[k]) && forall j :: 0 <= j < |group| ==> Leads(group[k], group[j]);
    LeadsOverOne(group[k], x);
    var lead := if Replaces(m, x) then |group| else k;
    forall j | 0 <= j < |longer|
      ensures Leads(longer[lead], longer[j])
    {
      if lead == |group| && j < |group| {
        LeadsTransitive(x, group[k], group[j]);
      }
    }
    assert Identity(Merge(m, x), longer[lead]);
  }

  /** The merged fields that do not depend on who keeps the identity. */
  lemma MergedFields(m: SecurityCase, x: SecurityCase)
    requires m.count + x.count < COUNT_RANGE
    ensures var r := Merge(m, x);
            && r.count == m.count + x.count
            && (r.severity == m.severity || r.severity == x.severity)
            && Rank(m.severity) <= Rank(r.severity) && Rank(x.severity) <= Rank(r.severity)
            && r.created == (if x.created < m.created then x.created else m.created)
            && (Open(r.status) <==> Open(m.status) || Open(x.status))
  {
    hide SortObservations, AppendUnique, Less, Rank;
  }

  lemma MergeExtendsRest(m: SecurityCase, group: seq<SecurityCase>, x: SecurityCase)
    requires Summarizes(m, group) && Total(group) + x.count < COUNT_RANGE
    ensures var longer, r := group + [x], Merge(m, x);
            && r.count == Total(longer)
            && (exists k :: 0 <= k < |longer| && longer[k].severity == r.severity)
            && (exists k :: 0 <= k < |longer| && longer[k].created == r.created)
            && (forall j :: 0 <= j < |longer| ==>
                 Rank(longer[j].severity) <= Rank(r.severity) && r.created <= longer[j].created)
            && (Open(r.status) <==> exists k :: 0 <= k < |longer| && Open(longer[k].status))
  {
    hide Merge, Rank, Open, Leads, Identity;
    var longer, r := group + [x], Merge(m, x);
    MergedFields(m, x);
    assert longer[..|group|] == group && longer[|group|] == x;
    var s :| 0 <= s < |group| && group[s].severity == m.severity;
    var c :| 0 <= c < |group| && group[c].created == m.created;
    assert longer[s].severity == m.severity && longer[c].created == m.created;
    if k :| 0 <= k < |group| && Open(group[k].status) {
      assert Open(longer[k].status);
    }
  }

  lemma OneSummarizesItself(c: SecurityCase)
    ensures Summarizes(c, [c])
  {
    assert [c][..0] == [];
    assert Identity(c, [c][0]) && Leads([c][0], [c][0]);
  }

  lemma MergeSummarizes(m: SecurityCase, group: seq<SecurityCase>, x: SecurityCase)
    requires Summarizes(m, group) && Total(group) + x.count < COUNT_RANGE
    ensures Summarizes(Merge(m, x), group + [x])
  {
    hide Merge, Leads, Less, Rank, Open, Identity;
    MergeExtendsIdentity(m, group, x);
    MergeExtendsRest(m, group, x);
  }

  /** Whatever the order, the merged record summarizes its group and is valid. */
  lemma {:induction false} FoldSummarizes(group: seq<SecurityCase>)
    requires group != [] && AllValid(group) && Total(group) < COUNT_RANGE
    ensures Summarizes(Folded(group), group) && ValidCase(Folded(group))
  {
    hide Merge, ValidCase;
    var n := |group| - 1;
    if n == 0 {
      assert group == [group[0]];
      OneSummarizesItself(group[0]);
    } else {
      var front, x := group[..n], group[n];
      assert group == front + [x];
      FoldSummarizes(front);
      MergeSummarizes(Folded(front), front, x);
      MergeIsValid(Folded(front), x);
    }
  }
}
