/**
 Why the hour of the desktop server's eviction matters (control/desktop_status_linux.go): with a burst
 that an hour does not refill, a full table lets an identity spend its burst twice.
 */
module DesktopEviction {
  import opened Options
  import opened DesktopAdmission

  // ------------------------------------------------------------ events in a row

  /** The table after the events, from a given one. */
  function Fold(s: Settings, m: Clients, events: seq<Event>): Clients {
    if events == [] then m else Step(s, Fold(s, m, events[..|events| - 1]), events[|events| - 1]).0
  }

  /** Admissions of the identity among the events. */
  function Count(s: Settings, m: Clients, events: seq<Event>, uid: int): nat {
    if events == [] then 0
    else
      var front, last := events[..|events| - 1], events[|events| - 1];
      Count(s, m, front, uid) + One(last.uid == uid && Step(s, Fold(s, m, front), last).1)
  }

  /** Every release finds an open connection. */
  predicate Held(s: Settings, m: Clients, events: seq<Event>) {
    events == [] ||
    var front, last := events[..|events| - 1], events[|events| - 1];
    Held(s, m, front) && (last.kind.Release? ==> Connections(Fold(s, m, front), last.uid) > 0)
  }

  lemma {:induction false} Chained(s: Settings, m: Clients, a: seq<Event>, b: seq<Event>, uid: int)
    ensures Fold(s, m, a + b) == Fold(s, Fold(s, m, a), b)
    ensures Count(s, m, a + b, uid) == Count(s, m, a, uid) + Count(s, Fold(s, m, a), b, uid)
    ensures Held(s, m, a + b) <==> Held(s, m, a) && Held(s, Fold(s, m, a), b)
  {
    hide Step;
    if b == [] {
      assert a + b == a;
    } else {
      var front := b[..|b| - 1];
      Chained(s, m, a, front, uid);
      assert (a + b)[..|a + b| - 1] == a + front;
    }
  }

  lemma {:induction false} FoldIsState(s: Settings, events: seq<Event>, n: nat, uid: int)
    requires n <= |events|
    ensures StateAt(s, events, n) == Fold(s, map[], events[..n])
    ensures Admissions(s, events, 0, n, uid) == Count(s, map[], events[..n], uid)
    ensures Held(s, map[], events) ==> Held(s, map[], events[..n])
  {
    hide Step;
    if n > 0 {
      FoldIsState(s, events, n - 1, uid);
      assert events[..n][..n - 1] == events[..n - 1];
    }
    if Held(s, map[], events) {
      assert events == events[..n] + events[n..];
      Chained(s, map[], events[..n], events[n..], uid);
    }
  }

  predicate Ordered(events: seq<Event>) {
    forall i, j :: 0 <= i <= j < |events| ==> events[i].time <= events[j].time
  }

  lemma HeldAt(s: Settings, events: seq<Event>, i: nat)
    requires Held(s, map[], events) && i < |events| && events[i].kind.Release?
    ensures Connections(StateAt(s, events, i), events[i].uid) > 0
  {
    hide Step;
    var next := i + 1;
    FoldIsState(s, events, next, 0);
    FoldIsState(s, events, i, 0);
    assert events[..next][..i] == events[..i];
  }

  lemma {:induction false} HeldBalances(s: Settings, events: seq<Event>, n: nat, uid: int)
    requires Held(s, map[], events) && Ordered(events) && events != [] && n <= |events|
    ensures Inv(s, StateAt(s, events, n), Clock(events, n))
    ensures Connections(StateAt(s, events, n), uid) + Releases(events, n, uid) == Admissions(s, events, 0, n, uid)
  {
    hide Step, Inv, Credit, Connections, Rate, Earned, Burst, Held;
    if n == 0 {
      EmptyTable(s, events[0].time, uid);
    } else {
      var e := events[n - 1];
      var m := StateAt(s, events, n - 1);
      HeldBalances(s, events, n - 1, uid);
      Waiting(s, m, Clock(events, n - 1), e.time, uid);
      if e.kind.Release? {
        HeldAt(s, events, n - 1);
      }
      StepKeeps(s, m, e, uid);
    }
  }

  /** Events whose releases are held are a run. */
  lemma HeldIsRun(s: Settings, events: seq<Event>)
    requires Held(s, map[], events) && Ordered(events) && events != []
    ensures Run(s, events)
  {
    hide Step, Inv, Held;
    forall i | 0 <= i < |events| && events[i].kind.Release?
      ensures Releases(events, i, events[i].uid) < Admissions(s, events, 0, i, events[i].uid)
    {
      HeldAt(s, events, i);
      HeldBalances(s, events, i, events[i].uid);
    }
  }

  // -------------------------------------------------------------- spending it all

  /** The burst is a whole number of tokens. */
  function BurstCount(s: Settings): (n: nat)
    ensures n >= 1 && n as real == Burst(s)
  {
    if s.burst < 1 then 10 else s.burst
  }

  function Pair(uid: int, t: real): seq<Event> {
    [Event(Admit, uid, t), Event(Release, uid, t)]
  }

  function Pairs(uid: int, t: real, n: nat): seq<Event> {
    if n == 0 then [] else Pairs(uid, t, n - 1) + Pair(uid, t)
  }

  /** The table once a newcomer spent n tokens and let go of its connections. */
  function Drained(s: Settings, m: Clients, uid: int, t: real, n: nat): Clients {
    if n == 0 then m else m[uid := Client(Burst(s) - n as real, t, 0, None)]
  }

  lemma AdmitOnce(s: Settings, m: Clients, uid: int, t: real, n: nat)
    requires uid !in m && |m| < MAX_TRACKED && n < BurstCount(s)
    ensures Step(s, Drained(s, m, uid, t, n), Event(Admit, uid, t))
         == (m[uid := Client(Burst(s) - (n + 1) as real, t, 1, None)], true)
  {
    hide Earned, Rate;
    RatePositive(s);
    var d := Drained(s, m, uid, t, n);
    var o := Opened(s, d, uid, t);
    assert o == m[uid := Client(Burst(s) - n as real, t, 0, None)];
    var c := Client(Burst(s) - (n + 1) as real, t, 1, None);
    assert Taken(s, o[uid], t) == (c, true);
    assert o[uid := c] == m[uid := c];
  }

  lemma PairSpendsOne(s: Settings, m: Clients, uid: int, t: real, n: nat)
    requires uid !in m && |m| < MAX_TRACKED && n < BurstCount(s)
    ensures var d := Drained(s, m, uid, t, n);
            && Fold(s, d, Pair(uid, t)) == Drained(s, m, uid, t, n + 1)
            && Count(s, d, Pair(uid, t), uid) == 1 && Held(s, d, Pair(uid, t))
  {
    hide Asked, Refusal;
    var d, pair := Drained(s, m, uid, t, n), Pair(uid, t);
    AdmitOnce(s, m, uid, t, n);
    var one := pair[..1];
    assert one == [pair[0]] && one[..0] == [];
    assert Fold(s, d, []) == d;
    assert Fold(s, d, one) == m[uid := Client(Burst(s) - (n + 1) as real, t, 1, None)];
    assert Count(s, d, [], uid) == 0 && Count(s, d, one, uid) == 1;
    assert Held(s, d, []) && Held(s, d, one);
    assert Fold(s, d, pair) == Released(Fold(s, d, one), uid);
    assert !Step(s, Fold(s, d, one), pair[1]).1;
  }

  /** A newcomer is admitted as often as its burst allows at one moment. */
  lemma {:induction false} Draining(s: Settings, m: Clients, uid: int, t: real, n: nat)
    requires uid !in m && |m| < MAX_TRACKED && n <= BurstCount(s)
    ensures Fold(s, m, Pairs(uid, t, n)) == Drained(s, m, uid, t, n)
    ensures Count(s, m, Pairs(uid, t, n), uid) == n && Held(s, m, Pairs(uid, t, n))
  {
    hide Step;
    if n > 0 {
      Draining(s, m, uid, t, n - 1);
      PairSpendsOne(s, m, uid, t, n - 1);
      Chained(s, m, Pairs(uid, t, n - 1), Pair(uid, t), uid);
    }
  }

  // ------------------------------------------------------------------- a full table

  /** The identities 2, 3, ... n + 1 are admitted and let go of their connections. */
  function Crowd(t: real, n: nat): seq<Event> {
    if n == 0 then [] else Crowd(t, n - 1) + Pair(n + 1, t)
  }

  function Crowded(s: Settings, m: Clients, t: real, n: nat): Clients {
    if n == 0 then m else Crowded(s, m, t, n - 1)[n + 1 := Client(Burst(s) - 1.0, t, 0, None)]
  }

  lemma {:induction false} CrowdedFacts(s: Settings, m: Clients, t: real, n: nat)
    requires forall u :: u in m ==> u < 2
    ensures |Crowded(s, m, t, n)| == |m| + n
    ensures forall u :: u in Crowded(s, m, t, n) <==> u in m || 2 <= u <= n + 1
    ensures forall u :: u in m ==> Crowded(s, m, t, n)[u] == m[u]
    ensures forall u :: 2 <= u <= n + 1 ==> Crowded(s, m, t, n)[u] == Client(Burst(s) - 1.0, t, 0, None)
  {
    hide Burst;
    if n > 0 {
      CrowdedFacts(s, m, t, n - 1);
      OneMore(Crowded(s, m, t, n - 1), n + 1, Client(Burst(s) - 1.0, t, 0, None));
    }
  }

  lemma CrowdHasRoom(s: Settings, m: Clients, t: real, n: nat)
    requires forall u :: u in m ==> u < 2
    ensures |Crowded(s, m, t, n)| == |m| + n && n + 2 !in Crowded(s, m, t, n)
  {
    hide Crowded, Burst;
    CrowdedFacts(s, m, t, n);
  }

  /** Nobody else is admitted by it. */
  lemma PairIsItsOwn(s: Settings, m: Clients, uid: int, t: real, other: int)
    requires other != uid
    ensures Count(s, m, Pair(uid, t), other) == 0
  {
    hide Step;
    var pair := Pair(uid, t);
    var one := pair[..1];
    assert one[..0] == [] && Count(s, m, [], other) == 0;
    assert Count(s, m, one, other) == 0;
  }

  /** One more identity. */
  lemma CrowdGrows(s: Settings, m: Clients, t: real, n: nat)
    requires (forall u :: u in m ==> u < 2) && |m| + n < MAX_TRACKED
    ensures var c, pair := Crowded(s, m, t, n), Pair(n + 2, t);
            Fold(s, c, pair) == Crowded(s, m, t, n + 1) && Count(s, c, pair, 0) == 0 && Held(s, c, pair)
  {
    hide Step, Fold, Count, Held, Burst, BurstCount;
    var c := Crowded(s, m, t, n);
    CrowdHasRoom(s, m, t, n);
    CountIsBurst(s);
    PairSpendsOne(s, c, n + 2, t, 0);
    PairIsItsOwn(s, c, n + 2, t, 0);
  }

  lemma {:induction false} Crowding(s: Settings, m: Clients, t: real, n: nat)
    requires (forall u :: u in m ==> u < 2) && |m| + n <= MAX_TRACKED
    ensures Fold(s, m, Crowd(t, n)) == Crowded(s, m, t, n)
    ensures Count(s, m, Crowd(t, n), 0) == 0 && Held(s, m, Crowd(t, n))
  {
    hide Step, Fold, Count, Held, Burst;
    if n == 0 {
      NoEvent(s, m, 0);
    } else {
      Crowding(s, m, t, n - 1);
      CrowdGrows(s, m, t, n - 1);
      Chained(s, m, Crowd(t, n - 1), Pair(n + 1, t), 0);
    }
  }

  lemma NoEvent(s: Settings, m: Clients, uid: int)
    ensures Fold(s, m, []) == m && Count(s, m, [], uid) == 0 && Held(s, m, [])
  {
  }

  // -------------------------------------------------------------------- the run

  const DEBTOR := 0
  const IDLE := 1
  const NEWCOMER: int := 4096

  /** The spent bucket and an idle client. */
  function TwoTable(s: Settings): Clients {
    Drained(s, Drained(s, map[], DEBTOR, 0.0, BurstCount(s)), IDLE, 0.0, 1)
  }

  lemma TwoTableFacts(s: Settings)
    ensures var m := TwoTable(s);
            && |m| == 2 && DEBTOR in m && IDLE in m
            && forall u :: u in m ==> 0 <= u < 2 && m[u].last == 0.0 && m[u].connections == 0
  {
    hide Burst;
    var spent := map[DEBTOR := Client(Burst(s) - BurstCount(s) as real, 0.0, 0, None)];
    assert Drained(s, map[], DEBTOR, 0.0, BurstCount(s)) == spent;
    assert |spent| == 1;
    OneMore(spent, IDLE, Client(Burst(s) - 1.0, 0.0, 0, None));
  }

  /** The table when the newcomer arrives: the spent bucket and the idle client, and 4094 fresh ones. */
  function FullTable(s: Settings, t: real): Clients {
    Crowded(s, TwoTable(s), t, MAX_TRACKED - 2)
  }

  lemma FullTableFacts(s: Settings, t: real)
    ensures |FullTable(s, t)| == MAX_TRACKED
    ensures forall u :: u in FullTable(s, t) <==> 0 <= u < MAX_TRACKED
    ensures forall u :: 0 <= u < 2 ==> FullTable(s, t)[u].last == 0.0 && FullTable(s, t)[u].connections == 0
    ensures forall u :: 2 <= u < MAX_TRACKED ==> FullTable(s, t)[u].last == t
  {
    hide Burst, TwoTable;
    TwoTableFacts(s);
    CrowdedFacts(s, TwoTable(s), t, MAX_TRACKED - 2);
  }

  /** The newcomer makes the server forget the two idle clients. */
  lemma NewcomerEvicts(s: Settings, t: real)
    requires t > STALE_AFTER
    ensures var m := Fold(s, FullTable(s, t), [Event(Admit, NEWCOMER, t)]);
            DEBTOR !in m && |m| == MAX_TRACKED - 1
    ensures Count(s, FullTable(s, t), [Event(Admit, NEWCOMER, t)], DEBTOR) == 0
    ensures Held(s, FullTable(s, t), [Event(Admit, NEWCOMER, t)])
  {
    hide FullTable, Taken, Earned, Rate, Burst;
    FullTableFacts(s, t);
    var full := FullTable(s, t);
    var es := [Event(Admit, NEWCOMER, t)];
    assert es[..0] == [];
    assert Fold(s, full, []) == full && Held(s, full, []) && Count(s, full, [], DEBTOR) == 0;
    var kept := Evicted(full, t);
    forall u | u in full
      ensures Stale(full[u], t) <==> u in {DEBTOR, IDLE}
    {
      assert u < 2 || full[u].last == t;
    }
    assert kept == full - {DEBTOR, IDLE};
    TwoFewer(full);
    var o := Opened(s, full, NEWCOMER, t);
    OneMore(kept, NEWCOMER, Client(Burst(s), t, 0, None));
    OneMore(o, NEWCOMER, Taken(s, o[NEWCOMER], t).0);
  }

  lemma TwoFewer(m: Clients)
    requires DEBTOR in m && IDLE in m
    ensures |m - {DEBTOR, IDLE}| == |m| - 2
  {
    assert (m - {DEBTOR, IDLE}).Keys == m.Keys - {DEBTOR, IDLE};
    assert m.Keys == (m.Keys - {DEBTOR, IDLE}) + {DEBTOR, IDLE};
    assert |{DEBTOR, IDLE}| == 2;
  }

  function Before(s: Settings): seq<Event> {
    Pairs(DEBTOR, 0.0, BurstCount(s)) + Pair(IDLE, 0.0)
  }

  function After(s: Settings, t: real): seq<Event> {
    Crowd(t, MAX_TRACKED - 2) + [Event(Admit, NEWCOMER, t)] + Pairs(DEBTOR, t, BurstCount(s))
  }

  lemma BeforeEnds(s: Settings)
    ensures Fold(s, map[], Before(s)) == TwoTable(s)
    ensures Count(s, map[], Before(s), DEBTOR) == BurstCount(s) && Held(s, map[], Before(s))
  {
    hide Step, Fold, Count, Held, Pairs, BurstCount;
    var n := BurstCount(s);
    var spent := Drained(s, map[], DEBTOR, 0.0, n);
    Draining(s, map[], DEBTOR, 0.0, n);
    assert |spent| <= 1 && IDLE !in spent by { OneMore(map[], DEBTOR, Client(Burst(s) - n as real, 0.0, 0, None)); }
    PairSpendsOne(s, spent, IDLE, 0.0, 0);
    PairIsItsOwn(s, spent, IDLE, 0.0, DEBTOR);
    Chained(s, map[], Pairs(DEBTOR, 0.0, n), Pair(IDLE, 0.0), DEBTOR);
  }

  lemma AfterEnds(s: Settings, t: real)
    requires t > STALE_AFTER
    ensures var m := Fold(s, map[], Before(s));
            Count(s, m, After(s, t), DEBTOR) == BurstCount(s) && Held(s, m, After(s, t))
  {
    hide Step, Fold, Count, Held, Before, Pairs, Crowd, BurstCount, TwoTable;
    BeforeEnds(s);
    var m := Fold(s, map[], Before(s));
    TwoTableFacts(s);
    var crowd, newcomer, again :=
        Crowd(t, MAX_TRACKED - 2), [Event(Admit, NEWCOMER, t)], Pairs(DEBTOR, t, BurstCount(s));
    Crowding(s, m, t, MAX_TRACKED - 2);
    assert Fold(s, m, crowd) == FullTable(s, t);
    NewcomerEvicts(s, t);
    Chained(s, m, crowd, newcomer, DEBTOR);
    Draining(s, Fold(s, FullTable(s, t), newcomer), DEBTOR, t, BurstCount(s));
    Chained(s, m, crowd + newcomer, again, DEBTOR);
  }

  // --------------------------------------------------------------------- its times

  /** All at one moment, and nothing but admissions and releases. */
  predicate AllAt(events: seq<Event>, t: real) {
    forall i :: 0 <= i < |events| ==> events[i].time == t && !events[i].kind.Refuse?
  }

  lemma {:induction false} PairsAt(uid: int, t: real, n: nat)
    ensures AllAt(Pairs(uid, t, n), t) && |Pairs(uid, t, n)| == 2 * n
  {
    if n > 0 {
      PairsAt(uid, t, n - 1);
    }
  }

  lemma {:induction false} CrowdAt(t: real, n: nat)
    ensures AllAt(Crowd(t, n), t) && |Crowd(t, n)| == 2 * n
  {
    if n > 0 {
      CrowdAt(t, n - 1);
    }
  }

  predicate Unrefused(events: seq<Event>) {
    forall i :: 0 <= i < |events| ==> !events[i].kind.Refuse?
  }

  lemma RunTimes(s: Settings, t: real)
    requires t > 0.0
    ensures var es := Before(s) + After(s, t);
            Ordered(es) && es != [] && es[0].time == 0.0 && es[|es| - 1].time == t && Unrefused(es)
  {
    hide BurstCount, Pairs, Crowd;
    PairsAt(DEBTOR, 0.0, BurstCount(s));
    PairsAt(DEBTOR, t, BurstCount(s));
    CrowdAt(t, MAX_TRACKED - 2);
    assert AllAt(Before(s), 0.0) && Before(s) != [];
    assert AllAt(After(s, t), t) && After(s, t) != [];
    hide Before, After;
    var es := Before(s) + After(s, t);
    assert forall i :: 0 <= i < |es| ==> es[i].time == (if i < |Before(s)| then 0.0 else t) && !es[i].kind.Refuse?;
  }

  /** A run in which one identity is admitted twice its burst within a time that refills less than one. */
  lemma BurstSpentTwice(s: Settings) returns (events: seq<Event>)
    requires !HourCoversBurst(s)
    ensures Run(s, events) && Unrefused(events) && events != []
    ensures Admissions(s, events, 0, |events|, DEBTOR) as real
            > Burst(s) + Earned(s, events[0].time, events[|events| - 1].time)
  {
    hide Step, Before, After, BurstCount, Rate, Burst, Run, Admissions, Held, Fold, Count, Ordered, StateAt;
    RatePositive(s);
    var t := HalfWay(Rate(s), Burst(s));
    events := Before(s) + After(s, t);
    BeforeEnds(s);
    AfterEnds(s, t);
    Chained(s, map[], Before(s), After(s, t), DEBTOR);
    RunTimes(s, t);
    HeldIsRun(s, events);
    FoldIsState(s, events, |events|, DEBTOR);
    assert events[..|events|] == events;
    CountIsBurst(s);
    TwiceIsMore(s, t, Admissions(s, events, 0, |events|, DEBTOR));
  }

  lemma TwiceIsMore(s: Settings, t: real, n: nat)
    requires t * Rate(s) < Burst(s) && n == BurstCount(s) + BurstCount(s)
    ensures n as real > Burst(s) + Earned(s, 0.0, t)
  {
    hide Rate, Burst;
    CountIsBurst(s);
    assert Earned(s, 0.0, t) == t * Rate(s);
    assert n as real == BurstCount(s) as real + BurstCount(s) as real;
  }

  lemma CountIsBurst(s: Settings)
    ensures BurstCount(s) as real == Burst(s)
  {
  }

  /**
   The server logs a refusal after it tried to admit the identity, so it tracks it unless the table was full,
   or for a peer without credentials, as identity -1.
   */
  ghost predicate Served(s: Settings, events: seq<Event>) {
    forall i :: 0 <= i < |events| && events[i].kind.Refuse? ==>
      var m := StateAt(s, events, i);
      events[i].uid in m || events[i].uid == -1 || |m| >= MAX_TRACKED
  }

  /** In every window of every such run every identity is admitted at most burst + rate * length times. */
  ghost predicate AlwaysBounded(s: Settings) {
    forall events: seq<Event>, lo: nat, hi: nat, uid: int ::
      Run(s, events) && Served(s, events) && lo < hi <= |events| ==> WithinBound(s, events, lo, hi, uid)
  }

  predicate WithinBound(s: Settings, events: seq<Event>, lo: nat, hi: nat, uid: int)
    requires lo < hi <= |events|
  {
    Admissions(s, events, lo, hi, uid) as real <= Burst(s) + Earned(s, events[lo].time, events[hi - 1].time)
  }

  /** The rate limit holds over every run of the server exactly when one hour of refill covers the burst. */
  lemma RateLimitHoldsExactlyWhen(s: Settings)
    ensures AlwaysBounded(s) <==> HourCoversBurst(s)
  {
    hide Run, Admissions, Earned, Burst, Rate, HourCoversBurst, Served;
    if HourCoversBurst(s) {
      forall events: seq<Event>, lo: nat, hi: nat, uid: int | Run(s, events) && Served(s, events) && lo < hi <= |events|
        ensures WithinBound(s, events, lo, hi, uid)
      {
        AdmissionsAreBounded(s, events, lo, hi, uid);
      }
    } else {
      var events := BurstSpentTwice(s);
      assert Served(s, events) by { UnrefusedIsServed(s, events); }
      assert !WithinBound(s, events, 0, |events|, DEBTOR);
    }
  }

  lemma UnrefusedIsServed(s: Settings, events: seq<Event>)
    requires Unrefused(events)
    ensures Served(s, events)
  {
  }

  // -------------------------------------------------------------------- in numbers

  /**
   The limits in the numbers of the configuration, with 10, 60 and 2 for those that are not positive. Over every run
   of the server every window keeps within the burst and one more admission for each 60 / perMinute seconds, exactly
   when the burst is at most 60 times the admissions per minute; connections of one identity never exceed their cap.
   */
  lemma LimitsInNumbers(s: Settings, events: seq<Event>, lo: nat, hi: nat, uid: int)
    requires Run(s, events) && lo < hi <= |events|
    ensures var burst, perMinute := if s.burst >= 1 then s.burst else 10, if s.perMinute >= 1 then s.perMinute else 60;
            && (AlwaysBounded(s) <==> burst <= 60 * perMinute)
            && (burst <= 60 * perMinute ==>
                  60.0 * Admissions(s, events, lo, hi, uid) as real <=
                  60.0 * burst as real + (events[hi - 1].time - events[lo].time) * perMinute as real)
    ensures Connections(StateAt(s, events, hi), uid) <= if s.maxConnections >= 1 then s.maxConnections else 2
  {
    hide Run, Admissions, AlwaysBounded, StateAt, Connections;
    RateLimitHoldsExactlyWhen(s);
    HourInNumbers(s);
    if HourCoversBurst(s) {
      AdmissionsAreBounded(s, events, lo, hi, uid);
      BoundInNumbers(s, events[lo].time, events[hi - 1].time, Admissions(s, events, lo, hi, uid) as real);
    }
    ConnectionsBalance(s, events, hi, uid);
    WithinCap(s, StateAt(s, events, hi), Clock(events, hi), uid);
  }

  lemma WithinCap(s: Settings, m: Clients, now: real, uid: int)
    requires Inv(s, m, now)
    ensures Connections(m, uid) <= if s.maxConnections >= 1 then s.maxConnections else 2
  {
  }

  lemma HourInNumbers(s: Settings)
    ensures var burst, perMinute := if s.burst >= 1 then s.burst else 10, if s.perMinute >= 1 then s.perMinute else 60;
            HourCoversBurst(s) <==> burst <= 60 * perMinute
  {
    var perMinute := if s.perMinute >= 1 then s.perMinute else 60;
    assert Rate(s) == perMinute as real / 60.0;
    assert STALE_AFTER * Rate(s) == (60 * perMinute) as real;
  }

  lemma BoundInNumbers(s: Settings, from: real, to: real, n: real)
    requires n <= Burst(s) + Earned(s, from, to)
    ensures var burst, perMinute := if s.burst >= 1 then s.burst else 10, if s.perMinute >= 1 then s.perMinute else 60;
            60.0 * n <= 60.0 * burst as real + (to - from) * perMinute as real
  {
    var perMinute := if s.perMinute >= 1 then s.perMinute else 60;
    assert Rate(s) == perMinute as real / 60.0;
    assert 60.0 * Earned(s, from, to) == (to - from) * perMinute as real;
  }
}
