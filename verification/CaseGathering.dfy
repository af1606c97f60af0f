/**
 What a merged case holds of its group (mergeSecurityCases in control/cases.go): the newest observations,
 the entries of every list, and the status and resolution it ends with.
 */
module CaseGathering {
  import opened Options
  import opened TextOrder
  import opened TextTrim
  import opened CaseRepair

  // ---------------------------------------------------------------- observations

  function AllObservations(group: seq<SecurityCase>): seq<Observation> {
    if group == [] then [] else AllObservations(group[..|group| - 1]) + group[|group| - 1].observations
  }

  /** As many as the bound allows, each of them recorded by a member, and none left out that is newer than one kept. */
  ghost predicate HoldsNewest(kept: seq<Observation>, all: seq<Observation>) {
    && |kept| == Min(MAX_OBSERVED, |all|) && multiset(kept) <= multiset(all)
    && forall o, i :: o in multiset(all) - multiset(kept) && 0 <= i < |kept| ==> kept[i].at >= o.at
  }

  lemma Fewer<T>(a: multiset<T>, b: multiset<T>)
    requires a <= b
    ensures |a| <= |b|
  {
    assert b == a + (b - a);
  }

  /** If n elements of a newest-first list are at least as new as t, its first n are. */
  lemma FirstAreNew(s: seq<Observation>, k: multiset<Observation>, n: nat, t: int)
    requires NewestFirst(s) && k <= multiset(s) && |k| == n && 0 < n <= |s| && forall o :: o in k ==> o.at >= t
    ensures s[n - 1].at >= t
  {
    if s[n - 1].at < t {
      var front, rest := s[..n - 1], s[n - 1..];
      assert s == front + rest;
      forall o | o in k
        ensures k[o] <= multiset(front)[o]
      {
        assert forall i :: 0 <= i < |rest| ==> rest[i] == s[n - 1 + i];
        assert o !in rest;
      }
      Fewer(k, multiset(front));
    }
  }

  lemma SortedIsOfBoth(left: seq<Observation>, right: seq<Observation>)
    ensures var s := SortObservations(left + right);
            NewestFirst(s) && multiset(s) == multiset(left) + multiset(right) && |s| == |left| + |right|
  {
    SortingKeeps(left + right);
  }

  /** Of the kept and the new ones in order, the first are the newest of all there were. */
  lemma NewestOfBoth(kept: seq<Observation>, all: seq<Observation>, more: seq<Observation>, s: seq<Observation>)
    requires HoldsNewest(kept, all) && NewestFirst(s) && multiset(s) == multiset(kept) + multiset(more)
    ensures HoldsNewest(s[..Min(MAX_OBSERVED, |s|)], all + more) && NewestFirst(s[..Min(MAX_OBSERVED, |s|)])
  {
    var n := Min(MAX_OBSERVED, |s|);
    var merged := s[..n];
    assert |multiset(s)| == |s| && |multiset(kept)| == |kept| && |multiset(more)| == |more|;
    assert |s| == |kept| + |more| && n == Min(MAX_OBSERVED, |all + more|);
    PartOfAll(merged, s, kept, more, all);
    forall o, i | o in multiset(all + more) - multiset(merged) && 0 <= i < n
      ensures merged[i].at >= o.at
    {
      NotNewer(kept, all, more, s, o, i);
    }
  }

  lemma NotNewer(kept: seq<Observation>, all: seq<Observation>, more: seq<Observation>, s: seq<Observation>,
                 o: Observation, i: nat)
    requires HoldsNewest(kept, all) && NewestFirst(s) && multiset(s) == multiset(kept) + multiset(more)
    requires var n := Min(MAX_OBSERVED, |s|); i < n && o in multiset(all + more) - multiset(s[..n])
    ensures s[i].at >= o.at
  {
    hide HoldsNewest;
    var n := Min(MAX_OBSERVED, |s|);
    var rest := s[n..];
    if o in multiset(rest) {
      var j :| 0 <= j < |rest| && rest[j] == o;
      assert s[n + j] == o;
    } else {
      LeftOutBefore(kept, all, more, s, o, n);
    }
  }

  /** What a merge keeps is the newest of all there were. */
  lemma MergedHoldsNewest(kept: seq<Observation>, all: seq<Observation>, more: seq<Observation>,
                          merged: seq<Observation>)
    requires HoldsNewest(kept, all)
    requires merged == MergeObservations(kept, more) || merged == MergeObservations(more, kept)
    ensures HoldsNewest(merged, all + more) && NewestFirst(merged)
  {
    hide SortObservations, HoldsNewest, NewestFirst;
    if merged == MergeObservations(kept, more) {
      SortedIsOfBoth(kept, more);
      NewestOfBoth(kept, all, more, SortObservations(kept + more));
    } else {
      SortedIsOfBoth(more, kept);
      NewestOfBoth(kept, all, more, SortObservations(more + kept));
    }
  }

  lemma FullWhenLeftOut(kept: seq<Observation>, all: seq<Observation>, o: Observation)
    requires HoldsNewest(kept, all) && o in multiset(all) - multiset(kept)
    ensures |kept| == MAX_OBSERVED
  {
    var rest := multiset(all) - multiset(kept);
    assert multiset(all) == multiset(kept) + rest;
    assert |multiset(all)| == |all| && |multiset(kept)| == |kept|;
  }

  lemma PartOfAll(merged: seq<Observation>, s: seq<Observation>, kept: seq<Observation>, more: seq<Observation>,
                  all: seq<Observation>)
    requires merged <= s && multiset(s) == multiset(kept) + multiset(more) && multiset(kept) <= multiset(all)
    ensures multiset(merged) <= multiset(all + more)
  {
    assert s == merged + s[|merged|..];
    assert multiset(s) == multiset(merged) + multiset(s[|merged|..]);
    forall o
      ensures multiset(merged)[o] <= multiset(all + more)[o]
    {
      assert multiset(merged)[o] <= multiset(s)[o] == multiset(kept)[o] + multiset(more)[o];
    }
  }

  lemma LeftOutBefore(kept: seq<Observation>, all: seq<Observation>, more: seq<Observation>, s: seq<Observation>,
                      o: Observation, n: nat)
    requires HoldsNewest(kept, all) && NewestFirst(s) && multiset(s) == multiset(kept) + multiset(more)
    requires n == Min(MAX_OBSERVED, |s|) && o !in multiset(s[n..]) && o in multiset(all + more) - multiset(s[..n])
    ensures forall i :: 0 <= i < n ==> s[i].at >= o.at
  {
    assert s == s[..n] + s[n..];
    assert multiset(s) == multiset(s[..n]) + multiset(s[n..]);
    assert multiset(all + more) == multiset(all) + multiset(more);
    assert multiset(s)[o] == multiset(s[..n])[o] == multiset(kept)[o] + multiset(more)[o];
    assert multiset(all + more)[o] == multiset(all)[o] + multiset(more)[o];
    assert multiset(all + more)[o] > multiset(s[..n])[o];
    assert o in multiset(all) - multiset(kept);
    FullWhenLeftOut(kept, all, o);
    Fewer(multiset(kept), multiset(s));
    assert |multiset(s)| == |s| && |multiset(kept)| == |kept|;
    forall x | x in multiset(kept)
      ensures x.at >= o.at
    {
      var i :| 0 <= i < |kept| && kept[i] == x;
    }
    FirstAreNew(s, multiset(kept), n, o.at);
  }

  // ----------------------------------------------------------------------- lists

  /** The four lists of a case that only ever grow. */
  datatype Which = Evidence | Rules | Categories | Recommended

  function ListOf(c: SecurityCase, w: Which): seq<string> {
    match w
    case Evidence => c.evidence
    case Rules => c.rules
    case Categories => c.categories
    case Recommended => c.recommended
  }

  function Bound(w: Which): nat {
    match w
    case Evidence => 256
    case Rules => 128
    case Categories => 64
    case Recommended => 32
  }

  /** The entry as it was, or trimmed and cut; an entry that the cut left with a space at its end is trimmed again. */
  predicate Form(v: string, w: string) {
    w == v || w == Truncated(v, 160) || w == Truncated(Truncated(v, 160), 160)
  }

  predicate Present(list: seq<string>, v: string) {
    v in list || Truncated(v, 160) in list || Truncated(Truncated(v, 160), 160) in list
  }

  function EntryCount(group: seq<SecurityCase>, w: Which): nat {
    if group == [] then 0 else EntryCount(group[..|group| - 1], w) + |ListOf(group[|group| - 1], w)|
  }

  /** Trimming keeps the first character that is not a space. */
  lemma {:induction false} TrimmedLeft(s: string)
    ensures var r := TrimLeft(s, IsSpace); |r| <= |s| && (r == "" || !IsSpace(r[0]))
  {
    hide IsSpace;
    if s != "" && IsSpace(s[0]) {
      TrimmedLeft(s[1..]);
    }
  }

  lemma {:induction false} TrimmedRight(s: string)
    ensures var r := TrimRight(s, IsSpace);
            && |r| <= |s| && r <= s && (r == "" || !IsSpace(r[|r| - 1])) && (s != "" && !IsSpace(s[0]) ==> r != "")
  {
    hide IsSpace;
    if s != "" && IsSpace(s[|s| - 1]) {
      TrimmedRight(s[..|s| - 1]);
    }
  }

  lemma {:induction false} SettledTrim(s: string)
    requires s == "" || (!IsSpace(s[0]) && !IsSpace(s[|s| - 1]))
    ensures Trim(s, IsSpace) == s
  {
    hide IsSpace;
  }

  /** After the second time nothing changes, and what is not blank stays so. */
  lemma TruncatedTwice(v: string)
    ensures var t := Truncated(Truncated(v, 160), 160);
            Truncated(t, 160) == t && (Truncated(v, 160) != "" ==> t != "")
  {
    hide IsSpace, Trim;
    TrimFacts(v);
    TrimFacts(Truncated(v, 160));
    SettledTrim(Truncated(Truncated(v, 160), 160));
  }

  lemma TrimFacts(s: string)
    ensures var r := Trim(s, IsSpace);
            && |r| <= |s| && (r != "" ==> !IsSpace(r[0]) && !IsSpace(r[|r| - 1]))
            && (s != "" && !IsSpace(s[0]) ==> r != "")
  {
    hide IsSpace;
    TrimmedLeft(s);
    TrimmedRight(TrimLeft(s, IsSpace));
  }

  predicate Spaces(s: string) {
    forall i :: 0 <= i < |s| ==> IsSpace(s[i])
  }

  lemma {:induction false} LeftSplits(s: string) returns (a: string)
    ensures s == a + TrimLeft(s, IsSpace) && Spaces(a)
  {
    hide IsSpace;
    a := "";
    if s != "" && IsSpace(s[0]) {
      var b := LeftSplits(s[1..]);
      a := [s[0]] + b;
    }
  }

  lemma {:induction false} RightSplits(s: string) returns (b: string)
    ensures s == TrimRight(s, IsSpace) + b && Spaces(b)
  {
    hide IsSpace;
    b := "";
    if s != "" && IsSpace(s[|s| - 1]) {
      var a := RightSplits(s[..|s| - 1]);
      b := a + [s[|s| - 1]];
    }
  }

  /** Trimming and cutting: what is between the spaces at the edges, or the first 160 characters of it. */
  lemma TruncatedIsTheMiddle(s: string) returns (a: string, middle: string, b: string)
    ensures s == a + middle + b && Spaces(a) && Spaces(b)
    ensures middle != "" ==> !IsSpace(middle[0]) && !IsSpace(middle[|middle| - 1])
    ensures Truncated(s, 160) == if |middle| <= 160 then middle else middle[..160]
  {
    hide IsSpace, Spaces;
    a := LeftSplits(s);
    middle := Trim(s, IsSpace);
    b := RightSplits(TrimLeft(s, IsSpace));
    TrimFacts(s);
  }

  /** The severities in their order: of two, the merged one is the graver. */
  lemma GraverSeverity(left: string, right: string)
    requires left in {"warning", "high", "critical"} && right in {"warning", "high", "critical"}
    ensures var s := MaxSeverity(left, right);
            && (s == "critical" <==> left == "critical" || right == "critical")
            && (s == "warning" <==> left == "warning" && right == "warning")
            && (s == "high" <==> "critical" !in {left, right} && "high" in {left, right})
  {
  }

  lemma {:induction false} AppendedLength(existing: seq<string>, limit: int, values: seq<string>)
    ensures |existing| <= |AppendUnique(existing, limit, values)| <= |existing| + |values|
    ensures forall w :: w in AppendUnique(existing, limit, values) ==>
              w in existing || exists v :: v in values && v != "" && w == Truncated(v, 160)
  {
    if values != [] {
      AppendedLength(existing, limit, values[..|values| - 1]);
    }
  }

  /** With room for all, every value that is not empty is there afterwards. */
  lemma {:induction false} RoomForAll(existing: seq<string>, limit: int, values: seq<string>)
    requires |existing| + |values| <= limit
    ensures forall v :: v in values && v != "" ==> Truncated(v, 160) in AppendUnique(existing, limit, values)
  {
    hide Truncated;
    if values != [] {
      var front, last := values[..|values| - 1], values[|values| - 1];
      RoomForAll(existing, limit, front);
      AppendedLength(existing, limit, front);
      assert values == front + [last];
    }
  }

  /** Every entry of every member is there, unless together they are more than the bound. */
  ghost predicate HoldsEntries(m: SecurityCase, group: seq<SecurityCase>, w: Which) {
    && |ListOf(m, w)| <= EntryCount(group, w)
    && (EntryCount(group, w) <= Bound(w) ==>
          forall j, v :: 0 <= j < |group| && v in ListOf(group[j], w) && Truncated(v, 160) != "" ==>
              Present(ListOf(m, w), v))
    && (forall x :: x in ListOf(m, w) ==> FromMember(group, w, x))
  }

  /** The entry is one of a member's, perhaps trimmed and cut. */
  predicate FromMember(group: seq<SecurityCase>, w: Which, x: string) {
    exists j, i :: 0 <= j < |group| && 0 <= i < |ListOf(group[j], w)| && Form(ListOf(group[j], w)[i], x)
  }

  /** The merged list is one of the two, followed by what is new in the other. */
  lemma MergedList(m: SecurityCase, x: SecurityCase, w: Which)
    ensures var r := ListOf(Merge(m, x), w);
            if Replaces(m, x) then r == AppendUnique(ListOf(x, w), Bound(w), ListOf(m, w))
            else r == AppendUnique(ListOf(m, w), Bound(w), ListOf(x, w))
  {
    hide SortObservations, AppendUnique, Less;
  }

  lemma StillPresent(list: seq<string>, more: seq<string>, v: string)
    requires Present(list, v) && Truncated(v, 160) != ""
    requires list <= more || forall u :: u in list && u != "" ==> Truncated(u, 160) in more
    ensures Present(more, v)
  {
    hide Truncated;
    TruncatedTwice(v);
    EmptyIsBlank();
    if list <= more {
      assert forall u :: u in list ==> u in more;
    }
  }

  lemma EmptyIsBlank()
    ensures Truncated("", 160) == ""
  {
  }

  lemma NewlyPresent(list: seq<string>, more: seq<string>, v: string)
    requires v in list && Truncated(v, 160) != ""
    requires list <= more || forall u :: u in list && u != "" ==> Truncated(u, 160) in more
    ensures Present(more, v)
  {
    hide IsSpace;
    TrimFacts(v);
    if list <= more {
      assert forall u :: u in list ==> u in more;
    }
  }

  lemma {:induction false} MergeHoldsEntries(m: SecurityCase, group: seq<SecurityCase>, x: SecurityCase, w: Which)
    requires HoldsEntries(m, group, w)
    ensures HoldsEntries(Merge(m, x), group + [x], w)
  {
    hide Merge, Truncated, AppendUnique, Replaces, ListOf, Present;
    var longer, r, a, b := group + [x], ListOf(Merge(m, x), w), ListOf(m, w), ListOf(x, w);
    assert longer[..|group|] == group && longer[|group|] == x;
    MergedList(m, x, w);
    var keeper, folded := if Replaces(m, x) then b else a, if Replaces(m, x) then a else b;
    AppendedLength(keeper, Bound(w), folded);
    if EntryCount(longer, w) <= Bound(w) {
      RoomForAll(keeper, Bound(w), folded);
      assert keeper <= r;
      forall j, v | 0 <= j < |longer| && v in ListOf(longer[j], w) && Truncated(v, 160) != ""
        ensures Present(r, v)
      {
        if j < |group| {
          assert Present(a, v);
          StillPresent(a, r, v);
        } else {
          NewlyPresent(b, r, v);
        }
      }
    }
    forall y | y in r
      ensures FromMember(longer, w, y)
    {
      EntryComesFromMember(m, group, x, w, y);
    }
  }

  lemma FormOfForm(v: string, u: string, y: string)
    requires Form(v, u) && y == Truncated(u, 160)
    ensures Form(v, y)
  {
    hide Truncated;
    TruncatedTwice(v);
  }

  lemma EntryComesFromMember(m: SecurityCase, group: seq<SecurityCase>, x: SecurityCase, w: Which, y: string)
    requires (forall u :: u in ListOf(m, w) ==> FromMember(group, w, u)) && y in ListOf(Merge(m, x), w)
    ensures FromMember(group + [x], w, y)
  {
    hide Merge, Truncated, AppendUnique, Replaces, ListOf, Form;
    var longer, a, b := group + [x], ListOf(m, w), ListOf(x, w);
    MergedList(m, x, w);
    var keeper, folded := if Replaces(m, x) then b else a, if Replaces(m, x) then a else b;
    AppendedLength(keeper, Bound(w), folded);
    var u :| (u in a || u in b) && (y == u || y == Truncated(u, 160));
    if u in a {
      var j, i :| 0 <= j < |group| && 0 <= i < |ListOf(group[j], w)| && Form(ListOf(group[j], w)[i], u);
      assert longer[j] == group[j];
      if y != u {
        FormOfForm(ListOf(group[j], w)[i], u, y);
      }
      assert Form(ListOf(longer[j], w)[i], y);
    } else {
      var i :| 0 <= i < |b| && b[i] == u;
      assert Form(b[i], y) by { OwnForm(u, y); }
      assert longer[|group|] == x && Form(ListOf(longer[|group|], w)[i], y);
    }
  }

  lemma OwnForm(u: string, y: string)
    requires y == u || y == Truncated(u, 160)
    ensures Form(u, y)
  {
  }

  // ------------------------------------------------------------------ the status

  predicate AnyOpen(group: seq<SecurityCase>) {
    exists j :: 0 <= j < |group| && Open(group[j].status)
  }

  predicate SomeStatus(group: seq<SecurityCase>, status: string) {
    exists j :: 0 <= j < |group| && Open(group[j].status) && group[j].status == status
  }

  predicate SomeResolution(group: seq<SecurityCase>, resolution: string) {
    exists j :: 0 <= j < |group| && group[j].resolution == resolution
  }

  predicate NoResolution(group: seq<SecurityCase>) {
    forall j :: 0 <= j < |group| ==> group[j].resolution == ""
  }

  /**
   An open leader keeps its status and resolution. Over a closed one an open member reopens the case, without a
   resolution. If all are closed the leader's status stays, with its resolution or, if it has none, one of the
   others'.
   */
  predicate Concludes(m: SecurityCase, group: seq<SecurityCase>, leader: SecurityCase) {
    if Open(leader.status) then m.status == leader.status && m.resolution == leader.resolution
    else if AnyOpen(group) then m.resolution == "" && SomeStatus(group, m.status)
    else
      && m.status == leader.status && SomeResolution(group, m.resolution)
      && (leader.resolution != "" ==> m.resolution == leader.resolution)
      && (m.resolution == "" ==> NoResolution(group))
  }

  predicate Heads(group: seq<SecurityCase>, k: nat) {
    k < |group| && forall j :: 0 <= j < |group| ==> Leads(group[k], group[j])
  }

  /** The two statuses and resolutions a merge may end with. */
  lemma MergedStatus(m: SecurityCase, x: SecurityCase)
    ensures var r := Merge(m, x);
            var keeper, folded := if Replaces(m, x) then x else m, if Replaces(m, x) then m else x;
            if Open(keeper.status) then r.status == keeper.status && r.resolution == keeper.resolution
            else if Open(folded.status) then r.status == folded.status && r.resolution == ""
            else r.status == keeper.status
                 && r.resolution == if keeper.resolution != "" then keeper.resolution else folded.resolution
  {
    hide SortObservations, AppendUnique, Less;
  }

  lemma LongerStatus(group: seq<SecurityCase>, x: SecurityCase)
    ensures AnyOpen(group + [x]) <==> AnyOpen(group) || Open(x.status)
    ensures forall s :: SomeStatus(group + [x], s) <==> SomeStatus(group, s) || (Open(x.status) && x.status == s)
    ensures forall s :: SomeResolution(group + [x], s) <==> SomeResolution(group, s) || x.resolution == s
    ensures NoResolution(group + [x]) <==> NoResolution(group) && x.resolution == ""
  {
    hide Open;
    var longer := group + [x];
    assert longer[|group|] == x && forall j :: 0 <= j < |group| ==> longer[j] == group[j];
  }

  lemma OpenIsSome(group: seq<SecurityCase>, k: nat)
    requires k < |group|
    ensures Open(group[k].status) ==> AnyOpen(group) && SomeStatus(group, group[k].status)
    ensures SomeResolution(group, group[k].resolution)
  {
    hide Open;
  }

  lemma MergeConcludes(m: SecurityCase, group: seq<SecurityCase>, k: nat, x: SecurityCase)
    requires Led(m, group, k)
    ensures Led(Merge(m, x), group + [x], if Replaces(m, x) then |group| else k)
  {
    hide Less, Merge, Open, AnyOpen, SomeStatus, SomeResolution, NoResolution;
    var longer, next := group + [x], if Replaces(m, x) then |group| else k;
    LeadsOverOne(group[k], x);
    forall j | 0 <= j < |longer|
      ensures Leads(longer[next], longer[j])
    {
      if next == |group| && j < |group| {
        LeadsTransitive(x, group[k], group[j]);
      }
    }
    MergedIdentity(m, x);
    MergedStatus(m, x);
    LongerStatus(group, x);
    OpenIsSome(group, k);
    StatusIsOpen(group, m.status);
  }

  lemma StatusIsOpen(group: seq<SecurityCase>, status: string)
    ensures SomeStatus(group, status) ==> Open(status) && AnyOpen(group)
  {
  }

  lemma MergedIdentity(m: SecurityCase, x: SecurityCase)
    ensures Identity(Merge(m, x), if Replaces(m, x) then x else m)
  {
    hide SortObservations, AppendUnique, Less;
  }

  // -------------------------------------------------------------------- the group

  /** Observations, lists, status and resolution of a merged case, from those of its members. */
  ghost predicate Gathers(m: SecurityCase, group: seq<SecurityCase>) {
    && HoldsNewest(m.observations, AllObservations(group)) && (|group| > 1 ==> NewestFirst(m.observations))
    && (forall w :: HoldsEntries(m, group, w))
    && exists k: nat :: Led(m, group, k)
  }

  /** Member k is the newest and keeps its identity; it decides how the case ends. */
  predicate Led(m: SecurityCase, group: seq<SecurityCase>, k: nat) {
    Heads(group, k) && Identity(m, group[k]) && Concludes(m, group, group[k])
  }

  lemma OneGathersItself(c: SecurityCase)
    requires ValidCase(c)
    ensures Gathers(c, [c])
  {
    hide ValidId, HexText, Truncated;
    var group := [c];
    assert group[..0] == [];
    assert AllObservations(group) == c.observations;
    assert multiset(c.observations) - multiset(c.observations) == multiset{};
    forall w
      ensures HoldsEntries(c, group, w)
    {
      assert EntryCount(group, w) == |ListOf(c, w)|;
      forall x | x in ListOf(c, w)
        ensures FromMember(group, w, x)
      {
        var i :| 0 <= i < |ListOf(c, w)| && ListOf(c, w)[i] == x;
        assert Form(ListOf(group[0], w)[i], x);
      }
    }
    assert Led(c, group, 0) by {
      assert group[0].resolution == c.resolution;
      OpenIsSome(group, 0);
    }
  }

  lemma MergeGathers(m: SecurityCase, group: seq<SecurityCase>, x: SecurityCase)
    requires Gathers(m, group) && group != []
    ensures Gathers(Merge(m, x), group + [x])
  {
    hide HoldsNewest, HoldsEntries, Led, Merge, NewestFirst;
    var longer, r := group + [x], Merge(m, x);
    assert longer[..|group|] == group;
    assert AllObservations(longer) == AllObservations(group) + x.observations;
    MergedObservationsAre(m, x);
    MergedHoldsNewest(m.observations, AllObservations(group), x.observations, r.observations);
    forall w
      ensures HoldsEntries(r, longer, w)
    {
      MergeHoldsEntries(m, group, x, w);
    }
    var k: nat :| Led(m, group, k);
    MergeConcludes(m, group, k, x);
  }

  lemma MergedObservationsAre(m: SecurityCase, x: SecurityCase)
    ensures var o := Merge(m, x).observations;
            o == MergeObservations(m.observations, x.observations)
                || o == MergeObservations(x.observations, m.observations)
  {
    hide MergeObservations, AppendUnique, Less;
  }

  /** Whatever the order, the merged record gathers its group. */
  lemma {:induction false} FoldGathers(group: seq<SecurityCase>)
    requires group != [] && AllValid(group)
    ensures Gathers(Folded(group), group)
  {
    hide Merge, ValidCase, Gathers;
    var n := |group| - 1;
    if n == 0 {
      assert group == [group[0]];
      OneGathersItself(group[0]);
    } else {
      var front, x := group[..n], group[n];
      assert group == front + [x];
      FoldGathers(front);
      MergeGathers(Folded(front), front, x);
    }
  }

  // ------------------------------------------------------------------- tidy lists

  /** As the engine itself leaves lists: trimmed and cut, no blank entry, none twice. */
  predicate Tidy(list: seq<string>) {
    && (forall i :: 0 <= i < |list| ==> list[i] != "" && Truncated(list[i], 160) == list[i])
    && forall i, j :: 0 <= i < j < |list| ==> list[i] != list[j]
  }

  lemma {:induction false} AppendingStaysTidy(existing: seq<string>, limit: int, values: seq<string>)
    requires Tidy(existing) && Tidy(values)
    ensures Tidy(AppendUnique(existing, limit, values))
  {
    hide Truncated;
    if values != [] {
      AppendingStaysTidy(existing, limit, values[..|values| - 1]);
    }
  }

  function Entries(list: seq<string>): set<string> {
    set v | v in list
  }

  lemma {:induction false} EntryNumber(list: seq<string>)
    ensures |Entries(list)| <= |list|
    ensures (forall i, j :: 0 <= i < j < |list| ==> list[i] != list[j]) ==> |Entries(list)| == |list|
  {
    if list != [] {
      var front, last := list[..|list| - 1], list[|list| - 1];
      EntryNumber(front);
      assert list == front + [last];
      assert Entries(list) == Entries(front) + {last};
    }
  }

  /** A tidy list whose entries are all in another is not longer. */
  lemma NotLonger(a: seq<string>, b: seq<string>)
    requires (forall i, j :: 0 <= i < j < |a| ==> a[i] != a[j]) && forall v :: v in a ==> v in b
    ensures |a| <= |b|
  {
    EntryNumber(a);
    EntryNumber(b);
    assert Entries(b) == Entries(a) + (Entries(b) - Entries(a));
  }

  /** The merged list is tidy and, unless it is full, holds every entry of every member. */
  ghost predicate KeepsEntries(m: SecurityCase, group: seq<SecurityCase>, w: Which) {
    && Tidy(ListOf(m, w)) && |ListOf(m, w)| <= Bound(w)
    && (|ListOf(m, w)| < Bound(w) ==>
          forall j, v :: 0 <= j < |group| && v in ListOf(group[j], w) ==> v in ListOf(m, w))
  }

  lemma MergeKeepsEntries(m: SecurityCase, group: seq<SecurityCase>, x: SecurityCase, w: Which)
    requires KeepsEntries(m, group, w) && Tidy(ListOf(x, w)) && |ListOf(x, w)| <= Bound(w)
    ensures KeepsEntries(Merge(m, x), group + [x], w)
  {
    hide Merge, Truncated, Replaces, ListOf, AppendUnique;
    var longer, r, a, b := group + [x], ListOf(Merge(m, x), w), ListOf(m, w), ListOf(x, w);
    MergedList(m, x, w);
    var keeper, folded := if Replaces(m, x) then b else a, if Replaces(m, x) then a else b;
    AppendingStaysTidy(keeper, Bound(w), folded);
    assert keeper <= r;
    if |r| < Bound(w) {
      forall v | v in a || v in b
        ensures v in r
      {
        if v in folded {
          var i :| 0 <= i < |folded| && folded[i] == v;
        }
      }
      NotLonger(a, r);
    }
  }

  /** With tidy lists a merged list lacks an entry of a member only when it is full. */
  lemma {:induction false} FoldKeepsEntries(group: seq<SecurityCase>, w: Which)
    requires group != [] && AllValid(group) && forall j :: 0 <= j < |group| ==> Tidy(ListOf(group[j], w))
    ensures KeepsEntries(Folded(group), group, w)
  {
    hide Merge, Tidy, ValidCase;
    var n := |group| - 1;
    ValidLists(group[n], w);
    if n > 0 {
      var front, x := group[..n], group[n];
      assert group == front + [x];
      FoldKeepsEntries(front, w);
      MergeKeepsEntries(Folded(front), front, x, w);
    }
  }

  lemma ValidLists(c: SecurityCase, w: Which)
    requires ValidCase(c)
    ensures |ListOf(c, w)| <= Bound(w)
  {
  }

  /**
   With lists that are not tidy it may lack one and have room: an entry refused by a full list is not there when
   that list shrinks, because two of its entries differ only by a space.
   */
  lemma LaterRoomIsNotUsed()
    ensures AppendUnique([" a", "a"], 2, ["z"]) == [" a", "a"] && AppendUnique([], 2, [" a", "a"]) == ["a"]
  {
    assert Truncated("a", 160) == "a" && Truncated(" a", 160) == "a" by {
      assert " a"[1..] == "a" && "a"[..0] == "";
      assert TrimLeft(" a", IsSpace) == TrimLeft("a", IsSpace) == "a" == TrimRight("a", IsSpace);
    }
    assert ["z"][..0] == [] && [" a", "a"][..1] == [" a"] && [" a"][..0] == [];
    assert AppendUnique([], 2, [" a"]) == ["a"];
  }
}
