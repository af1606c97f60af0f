/**
 repairCaseStoreDuplicates (control/cases.go): one record per fingerprint, nothing
 counted lost, a result the strict decoder accepts, and a merged record that does not
 depend on the order of the store.
 */
module CaseStoreRepair {
  import opened Options
  import opened TextOrder
  import opened CaseRepair
  import opened CaseGathering

  /** The fingerprints of a store in the order of their first record. */
  function Order(cases: seq<SecurityCase>): seq<string> {
    if cases == [] then []
    else
      var rest, last := Order(cases[..|cases| - 1]), cases[|cases| - 1].fingerprint;
      if last in rest then rest else rest + [last]
  }

  lemma {:induction false} GroupMembers(cases: seq<SecurityCase>, fingerprint: string)
    ensures forall x :: x in Group(cases, fingerprint) <==> x in cases && x.fingerprint == fingerprint
    ensures Total(Group(cases, fingerprint)) <= Total(cases)
  {
    if cases != [] {
      var front, last := cases[..|cases| - 1], cases[|cases| - 1];
      GroupMembers(front, fingerprint);
      assert cases == front + [last];
      if last.fingerprint == fingerprint {
        assert Group(cases, fingerprint)[..|Group(front, fingerprint)|] == Group(front, fingerprint);
      }
    }
  }

  lemma {:induction false} OrderFacts(cases: seq<SecurityCase>)
    ensures forall i, j :: 0 <= i < j < |Order(cases)| ==> Order(cases)[i] != Order(cases)[j]
    ensures forall f :: f in Order(cases) <==> Group(cases, f) != []
    ensures |Order(cases)| <= |cases|
  {
    if cases != [] {
      OrderFacts(cases[..|cases| - 1]);
    }
  }

  function RepairedCases(cases: seq<SecurityCase>): seq<SecurityCase> {
    OrderFacts(cases);
    seq(|Order(cases)|, i requires 0 <= i < |Order(cases)| =>
      assert Order(cases)[i] in Order(cases); Folded(Group(cases, Order(cases)[i])))
  }

  // ------------------------------------------------------------- the repair

  /** The map of the loop: every fingerprint seen so far with its group merged. */
  ghost predicate MergedOf(merged: map<string, SecurityCase>, cases: seq<SecurityCase>) {
    && (forall f :: f in merged <==> f in Order(cases))
    && (forall f :: f in merged ==> Group(cases, f) != [] && merged[f] == Folded(Group(cases, f)))
  }

  function WithRecord(merged: map<string, SecurityCase>, record: SecurityCase): map<string, SecurityCase> {
    var f := record.fingerprint;
    merged[f := if f in merged then Merge(merged[f], record) else record]
  }

  lemma MergedStep(merged: map<string, SecurityCase>, cases: seq<SecurityCase>, record: SecurityCase)
    requires MergedOf(merged, cases)
    ensures MergedOf(WithRecord(merged, record), cases + [record])
    ensures Order(cases + [record])
            == Order(cases) + (if record.fingerprint in merged then [] else [record.fingerprint])
  {
    hide Merge;
    var longer, f := cases + [record], record.fingerprint;
    assert longer[..|cases|] == cases;
    OrderFacts(cases);
    assert Group(longer, f) == Group(cases, f) + [record];
    assert Group(longer, f)[..|Group(cases, f)|] == Group(cases, f);
    forall g | g in WithRecord(merged, record)
      ensures Group(longer, g) != [] && WithRecord(merged, record)[g] == Folded(Group(longer, g))
    {
      if g != f {
        assert Group(longer, g) == Group(cases, g);
      }
    }
  }

  method RepairDuplicates(s: Store) returns (result: Option<Store>, removed: nat)
    ensures result.Some? <==> Repairable(s)
    ensures result.Some? ==> result.value == Store(SCHEMA, s.revision, RepairedCases(s.cases))
    ensures result.Some? ==> removed == |s.cases| - |Order(s.cases)|
    ensures result.Some? && Total(s.cases) < COUNT_RANGE ==>
              && Decodes(result.value) && Total(result.value.cases) == Total(s.cases)
              && forall i :: 0 <= i < |result.value.cases| ==>
                   var record := result.value.cases[i];
                   var group := Group(s.cases, record.fingerprint);
                   Summarizes(record, group) && Gathers(record, group)
  {
    hide ValidCase, Merge, Order, Group, Folded, Summarizes, Gathers, Total, Decodes;
    removed := 0;
    if s.schema != SCHEMA || s.revision == 0 || |s.cases| > MAX_RECORDS {
      return None, 0;
    }
    var ids: set<string> := {};
    var merged: map<string, SecurityCase> := map[];
    var order: seq<string> := [];
    assert Order(s.cases[..0]) == [] by { EmptyOrder(); }
    for i := 0 to |s.cases|
      invariant AllValid(s.cases[..i]) && DistinctIds(s.cases[..i])
      invariant forall x :: x in ids <==> exists k :: 0 <= k < i && s.cases[k].id == x
      invariant order == Order(s.cases[..i]) && removed == i - |order|
      invariant MergedOf(merged, s.cases[..i])
    {
      var record := s.cases[i];
      assert s.cases[..i + 1] == s.cases[..i] + [record];
      if !ValidCase(record) || record.id in ids {
        return None, 0;
      }
      ids := ids + {record.id};
      MergedStep(merged, s.cases[..i], record);
      if record.fingerprint in merged {
        merged := merged[record.fingerprint := Merge(merged[record.fingerprint], record)];
        removed := removed + 1;
      } else {
        merged := merged[record.fingerprint := record];
        order := order + [record.fingerprint];
      }
    }
    assert s.cases[..|s.cases|] == s.cases;
    var records: seq<SecurityCase> := [];
    for i := 0 to |order|
      invariant records == RepairedCases(s.cases)[..i]
    {
      assert order[i] in order;
      records := records + [merged[order[i]]];
    }
    if Total(s.cases) < COUNT_RANGE {
      RepairIsLossless(s);
    }
    return Some(Store(SCHEMA, s.revision, records)), removed;
  }

  lemma EmptyOrder()
    ensures Order([]) == []
  {
  }

  // -------------------------------------------------------- nothing is lost

  /** The occurrences counted in the groups of some fingerprints. */
  function GroupTotals(cases: seq<SecurityCase>, order: seq<string>): nat {
    if order == [] then 0 else GroupTotals(cases, order[..|order| - 1]) + Total(Group(cases, order[|order| - 1]))
  }

  /** One more record adds its count to its own group, which occurs once. */
  lemma {:induction false} OneMoreRecord(front: seq<SecurityCase>, last: SecurityCase, order: seq<string>)
    requires forall i, j :: 0 <= i < j < |order| ==> order[i] != order[j]
    ensures GroupTotals(front + [last], order) ==
            GroupTotals(front, order) + (if last.fingerprint in order then last.count else 0)
  {
    if order != [] {
      var rest, f := order[..|order| - 1], order[|order| - 1];
      OneMoreRecord(front, last, rest);
      assert (front + [last])[..|front|] == front;
      assert order == rest + [f];
      if f == last.fingerprint {
        assert Group(front + [last], f)[..|Group(front, f)|] == Group(front, f);
        assert f !in rest;
      }
    }
  }

  lemma {:induction false} GroupsCoverTotal(cases: seq<SecurityCase>, order: seq<string>)
    requires forall i, j :: 0 <= i < j < |order| ==> order[i] != order[j]
    requires forall i :: 0 <= i < |cases| ==> cases[i].fingerprint in order
    ensures GroupTotals(cases, order) == Total(cases)
  {
    if cases == [] {
      NoRecordsNoTotals(order);
    } else {
      var front, last := cases[..|cases| - 1], cases[|cases| - 1];
      assert cases == front + [last];
      GroupsCoverTotal(front, order);
      OneMoreRecord(front, last, order);
      assert cases[|cases| - 1].fingerprint in order;
    }
  }

  lemma {:induction false} NoRecordsNoTotals(order: seq<string>)
    ensures GroupTotals([], order) == 0
  {
    if order != [] {
      NoRecordsNoTotals(order[..|order| - 1]);
    }
  }

  /** Every repaired record is the summary of its own group. */
  lemma RepairedSummarizes(cases: seq<SecurityCase>, i: nat)
    requires AllValid(cases) && Total(cases) < COUNT_RANGE && i < |RepairedCases(cases)|
    ensures var r, f := RepairedCases(cases)[i], Order(cases)[i];
            && r.fingerprint == f && Group(cases, f) != []
            && Summarizes(r, Group(cases, f)) && Gathers(r, Group(cases, f)) && ValidCase(r)
  {
    hide ValidCase, Leads, Gathers;
    OrderFacts(cases);
    var f := Order(cases)[i];
    assert f in Order(cases);
    var group := Group(cases, f);
    GroupMembers(cases, f);
    forall k | 0 <= k < |group|
      ensures ValidCase(group[k]) && group[k].fingerprint == f
    {
      assert group[k] in group;
    }
    FoldSummarizes(group);
    FoldGathers(group);
  }

  lemma {:induction false} RepairedTotal(cases: seq<SecurityCase>, n: nat)
    requires AllValid(cases) && Total(cases) < COUNT_RANGE && n <= |RepairedCases(cases)|
    ensures Total(RepairedCases(cases)[..n]) == GroupTotals(cases, Order(cases)[..n])
  {
    hide ValidCase, Leads, Group, Folded, Order, Rank, Open, Identity;
    if n > 0 {
      RepairedTotal(cases, n - 1);
      RepairedSummarizes(cases, n - 1);
      assert RepairedCases(cases)[..n][..n - 1] == RepairedCases(cases)[..n - 1];
      assert Order(cases)[..n][..n - 1] == Order(cases)[..n - 1];
    }
  }

  /** The kept ID belongs to a member of the group, so IDs stay distinct across groups. */
  lemma RepairedIdsDistinct(cases: seq<SecurityCase>, i: nat, j: nat)
    requires AllValid(cases) && DistinctIds(cases) && Total(cases) < COUNT_RANGE && i < j < |RepairedCases(cases)|
    ensures RepairedCases(cases)[i].id != RepairedCases(cases)[j].id
  {
    hide ValidCase, Leads;
    RepairedSummarizes(cases, i);
    RepairedSummarizes(cases, j);
    OrderFacts(cases);
    var g, h := Group(cases, Order(cases)[i]), Group(cases, Order(cases)[j]);
    var a :| 0 <= a < |g| && Identity(RepairedCases(cases)[i], g[a]);
    var b :| 0 <= b < |h| && Identity(RepairedCases(cases)[j], h[b]);
    GroupMembers(cases, Order(cases)[i]);
    GroupMembers(cases, Order(cases)[j]);
    assert g[a] in g && h[b] in h;
    var x :| 0 <= x < |cases| && cases[x] == g[a];
    var y :| 0 <= y < |cases| && cases[y] == h[b];
    assert x != y;
  }

  predicate HasFingerprint(cases: seq<SecurityCase>, fingerprint: string) {
    exists i :: 0 <= i < |cases| && cases[i].fingerprint == fingerprint
  }

  lemma EveryFingerprintListed(cases: seq<SecurityCase>, k: nat)
    requires k < |cases|
    ensures cases[k].fingerprint in Order(cases)
  {
    hide Group, Order, Total;
    OrderFacts(cases);
    GroupMembers(cases, cases[k].fingerprint);
    assert cases[k] in Group(cases, cases[k].fingerprint);
  }

  lemma RepairedDecodes(s: Store)
    requires Repairable(s) && Total(s.cases) < COUNT_RANGE
    ensures Decodes(Store(SCHEMA, s.revision, RepairedCases(s.cases)))
  {
    hide ValidCase, Summarizes, Total;
    var out := RepairedCases(s.cases);
    OrderFacts(s.cases);
    forall i | 0 <= i < |out|
      ensures ValidCase(out[i]) && out[i].fingerprint == Order(s.cases)[i]
    {
      RepairedSummarizes(s.cases, i);
    }
    forall i, j | 0 <= i < j < |out|
      ensures out[i].id != out[j].id
    {
      RepairedIdsDistinct(s.cases, i, j);
    }
  }

  lemma RepairedCountsAll(cases: seq<SecurityCase>)
    requires AllValid(cases) && Total(cases) < COUNT_RANGE
    ensures Total(RepairedCases(cases)) == Total(cases)
  {
    hide ValidCase, Total, GroupTotals, Group, Folded, Order;
    var order, out := Order(cases), RepairedCases(cases);
    OrderFacts(cases);
    assert out[..|out|] == out && order[..|order|] == order;
    RepairedTotal(cases, |out|);
    forall k | 0 <= k < |cases|
      ensures cases[k].fingerprint in order
    {
      EveryFingerprintListed(cases, k);
    }
    GroupsCoverTotal(cases, order);
  }

  /**
   A repaired store passes the strict decoder, counts as many occurrences as before,
   and holds for each fingerprint one record that summarizes its group: newest
   identity, highest severity, earliest creation, open when any member was open. The record gathers the newest
   observations of its group and, within their bounds, all entries of its lists.
   */
  lemma RepairIsLossless(s: Store)
    requires Repairable(s) && Total(s.cases) < COUNT_RANGE
    ensures var out := Store(SCHEMA, s.revision, RepairedCases(s.cases));
            && Decodes(out)
            && Total(out.cases) == Total(s.cases)
            && (forall k :: 0 <= k < |s.cases| ==> HasFingerprint(out.cases, s.cases[k].fingerprint))
            && (forall i :: 0 <= i < |out.cases| ==> Summarizes(out.cases[i], Group(s.cases, out.cases[i].fingerprint)))
            && (forall i :: 0 <= i < |out.cases| ==> Gathers(out.cases[i], Group(s.cases, out.cases[i].fingerprint)))
  {
    hide ValidCase, Summarizes, Gathers, Total, Group, Folded, Order, DistinctIds, DistinctFingerprints;
    var cases, out := s.cases, RepairedCases(s.cases);
    RepairedDecodes(s);
    RepairedCountsAll(cases);
    forall i | 0 <= i < |out|
      ensures out[i].fingerprint == Order(cases)[i]
      ensures Summarizes(out[i], Group(cases, out[i].fingerprint)) && Gathers(out[i], Group(cases, out[i].fingerprint))
    {
      RepairedSummarizes(cases, i);
    }
    forall k | 0 <= k < |cases|
      ensures HasFingerprint(out, cases[k].fingerprint)
    {
      EveryFingerprintListed(cases, k);
      var i :| 0 <= i < |Order(cases)| && Order(cases)[i] == cases[k].fingerprint;
      assert out[i].fingerprint == cases[k].fingerprint;
    }
  }

  // ------------------------------------------------------ order of the store

  lemma {:induction false} GroupOccurrences(cases: seq<SecurityCase>, fingerprint: string, x: SecurityCase)
    ensures multiset(Group(cases, fingerprint))[x] == if x.fingerprint == fingerprint then multiset(cases)[x] else 0
  {
    if cases != [] {
      var front, last := cases[..|cases| - 1], cases[|cases| - 1];
      assert cases == front + [last];
      GroupOccurrences(front, fingerprint, x);
    }
  }

  /** A total does not depend on the order. */
  lemma {:induction false} TotalPermutes(a: seq<SecurityCase>, b: seq<SecurityCase>)
    requires multiset(a) == multiset(b)
    ensures Total(a) == Total(b)
  {
    if a == [] {
      assert |multiset(a)| == 0 == |multiset(b)|;
    } else {
      var front, last := a[..|a| - 1], a[|a| - 1];
      assert a == front + [last];
      assert multiset(front) == multiset(a) - multiset{last};
      assert last in multiset(b);
      var k :| 0 <= k < |b| && b[k] == last;
      WithoutOne(b, k);
      TotalWithout(b, k);
      TotalPermutes(front, b[..k] + b[k + 1..]);
    }
  }

  lemma WithoutOne(b: seq<SecurityCase>, k: nat)
    requires k < |b|
    ensures multiset(b[..k] + b[k + 1..]) == multiset(b) - multiset{b[k]}
  {
    assert b == b[..k] + [b[k]] + b[k + 1..];
  }

  lemma {:induction false} TotalWithout(b: seq<SecurityCase>, k: nat)
    requires k < |b|
    ensures Total(b) == Total(b[..k] + b[k + 1..]) + b[k].count
  {
    if k == |b| - 1 {
      assert b[..k] + b[k + 1..] == b[..|b| - 1];
    } else {
      var front := b[..|b| - 1];
      TotalWithout(front, k);
      var rest := b[..k] + b[k + 1..];
      assert rest[..|rest| - 1] == front[..k] + front[k + 1..];
    }
  }

  /** The fields of a merged record that a store's order cannot influence. */
  predicate SameSummary(m: SecurityCase, n: SecurityCase) {
    && Identity(m, n) && m.count == n.count && m.severity == n.severity && m.created == n.created
    && (Open(m.status) <==> Open(n.status))
  }

  lemma LeadersAgree(c: SecurityCase, d: SecurityCase)
    requires Leads(c, d) && Leads(d, c)
    ensures c.id == d.id && c.updated == d.updated
  {
    if Less(c.id, d.id) && Less(d.id, c.id) {
      LessTransitive(c.id, d.id, c.id);
      LessIrreflexive(c.id);
    }
  }

  /** Both summaries keep the identity of the same member. */
  lemma IdentitiesAgree(m: SecurityCase, g: seq<SecurityCase>, n: SecurityCase, h: seq<SecurityCase>)
    requires Summarizes(m, g) && Summarizes(n, h) && DistinctIds(g) && forall x :: x in g <==> x in h
    ensures Identity(m, n)
  {
    hide Leads, Total, Rank, Open;
    var a :| 0 <= a < |g| && Identity(m, g[a]) && forall j :: 0 <= j < |g| ==> Leads(g[a], g[j]);
    var b :| 0 <= b < |h| && Identity(n, h[b]) && forall j :: 0 <= j < |h| ==> Leads(h[b], h[j]);
    assert g[a] in h && h[b] in g;
    var x :| 0 <= x < |h| && h[x] == g[a];
    var y :| 0 <= y < |g| && g[y] == h[b];
    LeadersAgree(g[a], g[y]);
    assert y == a;
  }

  /** Two summaries of the same records agree. */
  lemma SummariesAgree(m: SecurityCase, g: seq<SecurityCase>, n: SecurityCase, h: seq<SecurityCase>)
    requires Summarizes(m, g) && Summarizes(n, h) && multiset(g) == multiset(h)
    requires AllValid(g) && AllValid(h) && DistinctIds(g)
    ensures SameSummary(m, n)
  {
    hide Leads, Total, Open, Identity, HexText, ValidObservation, ValidId;
    TotalPermutes(g, h);
    forall x
      ensures x in g <==> x in h
    {
      assert x in g <==> x in multiset(g);
      assert x in h <==> x in multiset(h);
    }
    IdentitiesAgree(m, g, n, h);
    FieldsAgree(m, g, n, h);
    FieldsAgree(n, h, m, g);
    var s :| 0 <= s < |g| && m.severity == g[s].severity;
    var t :| 0 <= t < |h| && n.severity == h[t].severity;
    assert ValidCase(g[s]) && ValidCase(h[t]);
  }

  /** One half of the agreement on the fields taken over all members. */
  lemma FieldsAgree(m: SecurityCase, g: seq<SecurityCase>, n: SecurityCase, h: seq<SecurityCase>)
    requires Summarizes(m, g) && Summarizes(n, h) && forall x :: x in g ==> x in h
    ensures Rank(m.severity) <= Rank(n.severity) && n.created <= m.created && (Open(m.status) ==> Open(n.status))
    ensures exists k :: 0 <= k < |g| && m.severity == g[k].severity
  {
    hide Leads, Rank, Open, Total;
    var s :| 0 <= s < |g| && g[s].severity == m.severity;
    var c :| 0 <= c < |g| && g[c].created == m.created;
    assert g[s] in h && g[c] in h;
    if Open(m.status) {
      var k :| 0 <= k < |g| && Open(g[k].status);
      assert g[k] in h;
    }
  }

  /**
   Repairing the same records in another order keeps, for every fingerprint, the same ID,
   title, confidence, count, severity, creation and update time, and openness.
   */
  lemma RepairIgnoresOrder(a: Store, b: Store, fingerprint: string)
    requires Repairable(a) && Repairable(b) && Total(a.cases) < COUNT_RANGE
    requires multiset(a.cases) == multiset(b.cases) && fingerprint in Order(a.cases)
    ensures Group(a.cases, fingerprint) != [] && Group(b.cases, fingerprint) != [] && fingerprint in Order(b.cases)
    ensures SameSummary(Folded(Group(a.cases, fingerprint)), Folded(Group(b.cases, fingerprint)))
  {
    hide ValidCase, Summarizes, Folded, Total, Group, Order;
    var g, h := Group(a.cases, fingerprint), Group(b.cases, fingerprint);
    OrderFacts(a.cases);
    OrderFacts(b.cases);
    TotalPermutes(a.cases, b.cases);
    forall x
      ensures multiset(g)[x] == multiset(h)[x]
    {
      GroupOccurrences(a.cases, fingerprint, x);
      GroupOccurrences(b.cases, fingerprint, x);
    }
    assert multiset(g) == multiset(h);
    assert |g| == |multiset(g)| == |multiset(h)| == |h|;
    GroupIsValid(a, fingerprint);
    GroupIsValid(b, fingerprint);
    FoldSummarizes(g);
    FoldSummarizes(h);
    SummariesAgree(Folded(g), g, Folded(h), h);
  }

  lemma {:induction false} GroupIsValid(s: Store, fingerprint: string)
    requires Repairable(s)
    ensures AllValid(Group(s.cases, fingerprint)) && DistinctIds(Group(s.cases, fingerprint))
    ensures Total(Group(s.cases, fingerprint)) <= Total(s.cases)
  {
    hide ValidCase;
    GroupMembers(s.cases, fingerprint);
    var g := Group(s.cases, fingerprint);
    forall i | 0 <= i < |g|
      ensures ValidCase(g[i])
    {
      assert g[i] in g;
    }
    GroupIdsDistinct(s.cases, fingerprint);
  }

  lemma {:induction false} GroupIdsDistinct(cases: seq<SecurityCase>, fingerprint: string)
    requires DistinctIds(cases)
    ensures DistinctIds(Group(cases, fingerprint))
  {
    if cases != [] {
      var front, last := cases[..|cases| - 1], cases[|cases| - 1];
      GroupIdsDistinct(front, fingerprint);
      GroupMembers(front, fingerprint);
      forall i | 0 <= i < |Group(front, fingerprint)|
        ensures Group(front, fingerprint)[i].id != last.id
      {
        assert Group(front, fingerprint)[i] in front;
      }
    }
  }
}
