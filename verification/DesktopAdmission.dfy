/**
 Per-identity admission of the desktop status socket (control/desktop_status_linux.go):
 a connection cap and a token bucket for each user, over a bounded table of clients.

 Time is in seconds; tokens and time are real numbers.
 */
module DesktopAdmission {
  import opened Options

  const MAX_TRACKED: nat := 4096
  const STALE_AFTER: real := 3600.0

  datatype Settings = Settings(burst: int, perMinute: int, maxConnections: int)

  datatype Client = Client(tokens: real, last: real, connections: nat, lastRefusal: Option<real>)

  type Clients = map<int, Client>

  function Burst(s: Settings): real {
    if s.burst < 1 then 10.0 else s.burst as real
  }

  function Rate(s: Settings): real {
    if s.perMinute <= 0 then 1.0 else s.perMinute as real / 60.0
  }

  function Cap(s: Settings): nat {
    if s.maxConnections < 1 then 2 else s.maxConnections
  }

  /** Tokens earned between two moments. */
  function Earned(s: Settings, from: real, to: real): real {
    (to - from) * Rate(s)
  }

  // --------------------------------------------------------------- operations

  predicate Stale(c: Client, now: real) {
    c.connections == 0 && now - c.last > STALE_AFTER
  }

  function Evicted(m: Clients, now: real): Clients {
    map u | u in m && !Stale(m[u], now) :: m[u]
  }

  function Lesser(a: real, b: real): real {
    if a < b then a else b
  }

  function Refilled(s: Settings, c: Client, now: real): Client {
    if now - c.last > 0.0 then c.(tokens := Lesser(Burst(s), c.tokens + Earned(s, c.last, now)), last := now) else c
  }

  /** The table in which `admit` looks the identity up: with room made if the identity is new. */
  function Opened(s: Settings, m: Clients, uid: int, now: real): Clients {
    if uid in m then m
    else
      var kept := if |m| >= MAX_TRACKED then Evicted(m, now) else m;
      if |kept| >= MAX_TRACKED then kept else kept[uid := Client(Burst(s), now, 0, None)]
  }

  /** A tracked identity asks for one connection. */
  function Taken(s: Settings, c: Client, now: real): (Client, bool) {
    if c.connections >= Cap(s) then (c, false)
    else
      var r := Refilled(s, c, now);
      if r.tokens < 1.0 then (r, false) else (r.(tokens := r.tokens - 1.0, connections := r.connections + 1), true)
  }

  function Asked(s: Settings, m: Clients, uid: int, now: real): (Clients, bool) {
    var o := Opened(s, m, uid, now);
    if uid in o then var (c, ok) := Taken(s, o[uid], now); (o[uid := c], ok) else (o, false)
  }

  function Released(m: Clients, uid: int): Clients {
    if uid in m && m[uid].connections > 0 then m[uid := m[uid].(connections := m[uid].connections - 1)] else m
  }

  /** logRefusal: an identity that is still unknown starts with an empty bucket; at most one line a minute. */
  function Refusal(m: Clients, uid: int, now: real): (Clients, bool) {
    var o := if uid !in m && uid >= 0 && |m| < MAX_TRACKED then m[uid := Client(0.0, now, 0, None)] else m;
    if uid !in o then (o, true)
    else if o[uid].lastRefusal.Some? && now - o[uid].lastRefusal.value < 60.0 then (o, false)
    else (o[uid := o[uid].(lastRefusal := Some(now))], true)
  }

  // ---------------------------------------------------------------- potential

  /** Tokens the identity could spend at time `now`. */
  function Credit(s: Settings, m: Clients, uid: int, now: real): real {
    if uid in m then Lesser(Burst(s), m[uid].tokens + Earned(s, m[uid].last, now)) else Burst(s)
  }

  predicate Sound(s: Settings, c: Client, now: real) {
    0.0 <= c.tokens <= Burst(s) && c.connections <= Cap(s) && c.last <= now
  }

  predicate Inv(s: Settings, m: Clients, now: real) {
    |m| <= MAX_TRACKED && forall u :: u in m ==> Sound(s, m[u], now)
  }

  /** One hour of refill covers the burst. */
  predicate HourCoversBurst(s: Settings) {
    Burst(s) <= STALE_AFTER * Rate(s)
  }

  function Connections(m: Clients, uid: int): nat {
    if uid in m then m[uid].connections else 0
  }

  lemma RatePositive(s: Settings)
    ensures Rate(s) > 0.0 && Burst(s) >= 1.0 && Cap(s) >= 1
  {
  }

  lemma Refill(s: Settings, a: real, b: real, c: real)
    requires a <= b <= c
    ensures Earned(s, a, c) == Earned(s, a, b) + Earned(s, b, c)
    ensures Earned(s, a, b) >= 0.0 && Earned(s, b, c) >= 0.0
    ensures Earned(s, a, a) == Earned(s, b, b) == Earned(s, c, c) == 0.0
  {
  }

  /** Waiting earns at most the refill, and never breaks the invariant. */
  lemma Waiting(s: Settings, m: Clients, t0: real, t1: real, uid: int)
    requires Inv(s, m, t0) && t0 <= t1
    ensures Inv(s, m, t1)
    ensures 0.0 <= Credit(s, m, uid, t1) <= Burst(s)
    ensures Credit(s, m, uid, t1) <= Credit(s, m, uid, t0) + Earned(s, t0, t1)
  {
    hide Rate, Earned, Burst, Cap;
    RatePositive(s);
    Refill(s, t0, t0, t1);
    if uid in m {
      Refill(s, m[uid].last, t0, t1);
    }
  }

  lemma SubmapIsSmaller(a: Clients, b: Clients)
    requires a.Keys <= b.Keys
    ensures |a| <= |b|
  {
    var extra := b.Keys - a.Keys;
    assert b.Keys == a.Keys + extra;
    assert |b.Keys| == |a.Keys| + |extra|;
  }

  lemma OneMore(m: Clients, uid: int, c: Client)
    ensures |m[uid := c]| == |m| + if uid in m then 0 else 1
  {
    assert m[uid := c].Keys == m.Keys + {uid};
  }

  /** Eviction drops no connection, whatever the settings. */
  lemma EvictionKeepsConnections(s: Settings, m: Clients, now: real, uid: int)
    requires Inv(s, m, now)
    ensures Inv(s, Evicted(m, now), now) && Connections(Evicted(m, now), uid) == Connections(m, uid)
  {
    hide Rate, Earned, Burst, Cap;
    SubmapIsSmaller(Evicted(m, now), m);
  }

  /** A forgotten identity had its bucket full again, given an hour of refill covers the burst. */
  lemma EvictionForgetsOnlyFullBuckets(s: Settings, m: Clients, now: real, uid: int)
    requires Inv(s, m, now) && HourCoversBurst(s)
    ensures Credit(s, Evicted(m, now), uid, now) == Credit(s, m, uid, now)
  {
    hide Rate, Earned, Burst, Cap;
    RatePositive(s);
    if uid in m && Stale(m[uid], now) {
      AnHourAtLeast(s, m[uid].last, now);
    }
  }

  lemma AnHourAtLeast(s: Settings, from: real, to: real)
    requires to - from >= STALE_AFTER
    ensures Earned(s, from, to) >= STALE_AFTER * Rate(s)
  {
  }

  /** Some time is longer than an hour and still refills less than the burst. */
  lemma HalfWay(rate: real, burst: real) returns (idle: real)
    requires rate > 0.0 && burst > STALE_AFTER * rate
    ensures idle > STALE_AFTER && idle * rate < burst
  {
    var full := burst / rate;
    assert full * rate == burst;
    assert full > STALE_AFTER;
    idle := (STALE_AFTER + full) / 2.0;
    assert idle * rate == (STALE_AFTER * rate + full * rate) / 2.0;
  }

  // -------------------------------------------------------------------- steps

  lemma OpeningKeeps(s: Settings, m: Clients, uid: int, now: real, u: int)
    requires Inv(s, m, now)
    ensures var o := Opened(s, m, uid, now); Inv(s, o, now) && Connections(o, u) == Connections(m, u)
  {
    hide Rate, Earned, Burst, Cap;
    RatePositive(s);
    EvictionKeepsConnections(s, m, now, u);
    var kept := if |m| >= MAX_TRACKED then Evicted(m, now) else m;
    OneMore(kept, uid, Client(Burst(s), now, 0, None));
  }

  lemma OpeningKeepsCredit(s: Settings, m: Clients, uid: int, now: real, u: int)
    requires Inv(s, m, now) && HourCoversBurst(s)
    ensures Credit(s, Opened(s, m, uid, now), u, now) == Credit(s, m, u, now)
  {
    hide Rate, Earned, Burst, Cap;
    RatePositive(s);
    Refill(s, now, now, now);
    EvictionForgetsOnlyFullBuckets(s, m, now, u);
  }

  /** Taking a connection needs and spends one token and a free slot. */
  lemma TakingSpendsOne(s: Settings, c: Client, now: real)
    requires Sound(s, c, now)
    ensures var credit := Lesser(Burst(s), c.tokens + Earned(s, c.last, now));
            var (n, ok) := Taken(s, c, now);
            && (ok <==> c.connections < Cap(s) && credit >= 1.0)
            && Sound(s, n, now) && n.connections == c.connections + (if ok then 1 else 0)
            && Lesser(Burst(s), n.tokens + Earned(s, n.last, now)) == credit - (if ok then 1.0 else 0.0)
  {
    hide Rate, Earned, Burst, Cap;
    RatePositive(s);
    Refill(s, c.last, now, now);
  }

  function One(b: bool): nat {
    if b then 1 else 0
  }

  /** An identity is admitted exactly when it is known or there is room, below its cap, and has a whole token. */
  lemma AdmittedExactlyWhen(s: Settings, m: Clients, uid: int, now: real)
    requires Inv(s, m, now)
    ensures Asked(s, m, uid, now).1 <==>
            && (uid in m || |m| < MAX_TRACKED || |Evicted(m, now)| < MAX_TRACKED)
            && Connections(m, uid) < Cap(s) && Credit(s, m, uid, now) >= 1.0
  {
    hide Rate, Earned, Burst, Cap, Taken;
    RatePositive(s);
    Refill(s, now, now, now);
    OpeningKeeps(s, m, uid, now, uid);
    var o := Opened(s, m, uid, now);
    if uid in o {
      TakingSpendsOne(s, o[uid], now);
    }
  }

  lemma AskingKeeps(s: Settings, m: Clients, uid: int, now: real, u: int)
    requires Inv(s, m, now)
    ensures var (n, ok) := Asked(s, m, uid, now);
            Inv(s, n, now) && Connections(n, u) == Connections(m, u) + One(ok && u == uid)
  {
    hide Rate, Earned, Burst, Cap, Taken, Evicted, Opened;
    OpeningKeeps(s, m, uid, now, u);
    var o := Opened(s, m, uid, now);
    if uid in o {
      TakingSpendsOne(s, o[uid], now);
      OneMore(o, uid, Taken(s, o[uid], now).0);
    }
  }

  lemma AskingSpends(s: Settings, m: Clients, uid: int, now: real, u: int)
    requires Inv(s, m, now) && HourCoversBurst(s)
    ensures var (n, ok) := Asked(s, m, uid, now);
            Credit(s, n, u, now) == Credit(s, m, u, now) - One(ok && u == uid) as real
  {
    hide Rate, Earned, Burst, Cap, Taken, Evicted, Opened;
    OpeningKeeps(s, m, uid, now, u);
    OpeningKeepsCredit(s, m, uid, now, u);
    var o := Opened(s, m, uid, now);
    if uid in o {
      TakingSpendsOne(s, o[uid], now);
    }
  }

  lemma ReleasingKeeps(s: Settings, m: Clients, uid: int, now: real, u: int)
    requires Inv(s, m, now)
    ensures Inv(s, Released(m, uid), now) && Credit(s, Released(m, uid), u, now) == Credit(s, m, u, now)
    ensures Connections(Released(m, uid), u) == Connections(m, u) - One(u == uid && Connections(m, u) > 0)
  {
    hide Rate, Earned, Burst, Cap;
    if uid in m && m[uid].connections > 0 {
      assert u != uid ==> Released(m, uid)[uid].last == m[uid].last;
      OneMore(m, uid, m[uid].(connections := m[uid].connections - 1));
    }
  }

  lemma RefusingKeeps(s: Settings, m: Clients, uid: int, now: real, u: int)
    requires Inv(s, m, now)
    ensures var n := Refusal(m, uid, now).0;
            Inv(s, n, now) && Credit(s, n, u, now) <= Credit(s, m, u, now) && Connections(n, u) == Connections(m, u)
  {
    hide Rate, Earned, Burst, Cap;
    RatePositive(s);
    OneMore(m, uid, Client(0.0, now, 0, None));
    var o := if uid !in m && uid >= 0 && |m| < MAX_TRACKED then m[uid := Client(0.0, now, 0, None)] else m;
    if uid in o {
      OneMore(o, uid, o[uid].(lastRefusal := Some(now)));
    }
  }

  // --------------------------------------------------------------------- runs

  datatype Kind = Admit | Release | Refuse

  datatype Event = Event(kind: Kind, uid: int, time: real)

  function Step(s: Settings, m: Clients, e: Event): (Clients, bool) {
    match e.kind
    case Admit => Asked(s, m, e.uid, e.time)
    case Release => (Released(m, e.uid), false)
    case Refuse => (Refusal(m, e.uid, e.time).0, false)
  }

  function StateAt(s: Settings, events: seq<Event>, n: nat): Clients
    requires n <= |events|
  {
    if n == 0 then map[] else Step(s, StateAt(s, events, n - 1), events[n - 1]).0
  }

  predicate AdmittedAt(s: Settings, events: seq<Event>, i: nat, uid: int)
    requires i < |events|
  {
    events[i].uid == uid && Step(s, StateAt(s, events, i), events[i]).1
  }

  predicate ReleasedAt(events: seq<Event>, i: nat, uid: int)
    requires i < |events|
  {
    events[i].kind.Release? && events[i].uid == uid
  }

  /** Admissions of the identity among events lo..hi. */
  function Admissions(s: Settings, events: seq<Event>, lo: nat, hi: nat, uid: int): nat
    requires lo <= hi <= |events|
  {
    if lo == hi then 0 else Admissions(s, events, lo, hi - 1, uid) + One(AdmittedAt(s, events, hi - 1, uid))
  }

  function Releases(events: seq<Event>, n: nat, uid: int): nat
    requires n <= |events|
  {
    if n == 0 then 0 else Releases(events, n - 1, uid) + One(ReleasedAt(events, n - 1, uid))
  }

  /** The clock does not go back, and only an admitted connection is released, once. */
  predicate Run(s: Settings, events: seq<Event>) {
    && (forall i, j :: 0 <= i <= j < |events| ==> events[i].time <= events[j].time)
    && (forall i :: 0 <= i < |events| && events[i].kind.Release? ==>
          Releases(events, i, events[i].uid) < Admissions(s, events, 0, i, events[i].uid))
  }

  lemma StepKeeps(s: Settings, m: Clients, e: Event, u: int)
    requires Inv(s, m, e.time)
    requires e.kind.Release? ==> Connections(m, e.uid) > 0
    ensures var (n, ok) := Step(s, m, e);
            && Inv(s, n, e.time)
            && Connections(n, u) + One(e.kind.Release? && u == e.uid) == Connections(m, u) + One(ok && u == e.uid)
            && (HourCoversBurst(s) ==>
                 Credit(s, n, u, e.time) + One(ok && u == e.uid) as real <= Credit(s, m, u, e.time))
  {
    hide Asked, Released, Refusal, Credit, Inv, Rate, Earned, Connections;
    match e.kind
    case Admit =>
      AskingKeeps(s, m, e.uid, e.time, u);
      if HourCoversBurst(s) { AskingSpends(s, m, e.uid, e.time, u); }
    case Release => ReleasingKeeps(s, m, e.uid, e.time, u);
    case Refuse => RefusingKeeps(s, m, e.uid, e.time, u);
  }

  /** Time of the last event before the n-th, or of the n-th at the start. */
  function Clock(events: seq<Event>, n: nat): real
    requires n <= |events| && events != []
  {
    if n == 0 then events[0].time else events[n - 1].time
  }

  /**
   Over every run: at most 4096 clients, tokens within [0, burst], connections within the cap,
   and the open connections of an identity are its admissions minus its releases.
   */
  lemma {:induction false} ConnectionsBalance(s: Settings, events: seq<Event>, n: nat, uid: int)
    requires Run(s, events) && events != [] && n <= |events|
    ensures Inv(s, StateAt(s, events, n), Clock(events, n))
    ensures Connections(StateAt(s, events, n), uid) + Releases(events, n, uid) == Admissions(s, events, 0, n, uid)
  {
    hide Step, Inv, Credit, Connections, Rate, Earned, Burst;
    if n == 0 {
      EmptyTable(s, events[0].time, uid);
    } else {
      var e := events[n - 1];
      var m := StateAt(s, events, n - 1);
      ConnectionsBalance(s, events, n - 1, uid);
      ConnectionsBalance(s, events, n - 1, e.uid);
      Waiting(s, m, Clock(events, n - 1), e.time, uid);
      StepKeeps(s, m, e, uid);
    }
  }

  lemma EmptyTable(s: Settings, now: real, uid: int)
    ensures Inv(s, map[], now) && Connections(map[], uid) == 0
  {
  }

  lemma {:induction false} CreditIsSpent(s: Settings, events: seq<Event>, lo: nat, hi: nat, uid: int)
    requires Run(s, events) && HourCoversBurst(s) && lo < hi <= |events|
    ensures Admissions(s, events, lo, hi, uid) as real + Credit(s, StateAt(s, events, hi), uid, events[hi - 1].time)
         <= Burst(s) + Earned(s, events[lo].time, events[hi - 1].time)
  {
    hide Step, Inv, Credit, Connections, Rate, Earned, Burst;
    var e := events[hi - 1];
    var m := StateAt(s, events, hi - 1);
    ConnectionsBalance(s, events, hi - 1, uid);
    ConnectionsBalance(s, events, hi - 1, e.uid);
    Waiting(s, m, Clock(events, hi - 1), e.time, uid);
    StepKeeps(s, m, e, uid);
    RatePositive(s);
    if lo + 1 < hi {
      CreditIsSpent(s, events, lo, hi - 1, uid);
      Refill(s, events[lo].time, events[hi - 2].time, e.time);
    } else {
      Refill(s, e.time, e.time, e.time);
      assert Admissions(s, events, lo, lo, uid) == 0;
    }
  }

  /**
   In any window of any run, evictions included, an identity is admitted at most
   burst + rate * (length of the window) times.
   */
  lemma AdmissionsAreBounded(s: Settings, events: seq<Event>, lo: nat, hi: nat, uid: int)
    requires Run(s, events) && HourCoversBurst(s) && lo < hi <= |events|
    ensures Admissions(s, events, lo, hi, uid) as real <= Burst(s) + Earned(s, events[lo].time, events[hi - 1].time)
  {
    hide Step, Inv, Rate, Earned, Burst, Connections, Credit;
    CreditIsSpent(s, events, lo, hi, uid);
    ConnectionsBalance(s, events, hi, uid);
    Waiting(s, StateAt(s, events, hi), events[hi - 1].time, events[hi - 1].time, uid);
  }

  /** A refusal of an identity that is not tracked yet leaves it without a token; nobody else's credit changes. */
  lemma RefusalSpendsTheBucket(s: Settings, m: Clients, uid: int, now: real, u: int)
    requires Inv(s, m, now)
    ensures Credit(s, Refusal(m, uid, now).0, u, now) ==
            if u == uid && uid !in m && uid >= 0 && |m| < 4096 then 0.0 else Credit(s, m, u, now)
  {
    hide Rate;
    assert Earned(s, now, now) == 0.0 * Rate(s) == 0.0;
  }

  // ----------------------------------------------------------- logged refusals

  /** The i-th event is a refusal of the identity that is written to the log. */
  predicate LoggedAt(s: Settings, events: seq<Event>, i: nat, uid: int)
    requires i < |events|
  {
    events[i].kind.Refuse? && events[i].uid == uid && Refusal(StateAt(s, events, i), uid, events[i].time).1
  }

  /** The table remembers a refusal of the identity at or after time t. */
  predicate RemembersSince(m: Clients, uid: int, t: real) {
    uid in m && m[uid].lastRefusal.Some? && m[uid].lastRefusal.value >= t
  }

  /** An event forgets a refusal only together with the client. */
  lemma StepRemembers(s: Settings, m: Clients, e: Event, uid: int, t: real)
    requires RemembersSince(m, uid, t) && t <= e.time && uid in Step(s, m, e).0
    ensures RemembersSince(Step(s, m, e).0, uid, t)
  {
    hide Rate, Earned, Burst, Cap;
  }

  lemma {:induction false} RefusalIsRemembered(s: Settings, events: seq<Event>, i: nat, j: nat, uid: int)
    requires forall a, b :: 0 <= a <= b < |events| ==> events[a].time <= events[b].time
    requires i < j <= |events| && LoggedAt(s, events, i, uid)
    requires forall k :: i < k <= j ==> uid in StateAt(s, events, k)
    ensures RemembersSince(StateAt(s, events, j), uid, events[i].time)
  {
    hide Asked, Released;
    var k := j - 1;
    assert uid in StateAt(s, events, j);
    if i < k {
      RefusalIsRemembered(s, events, i, k, uid);
      StepRemembers(s, StateAt(s, events, k), events[k], uid, events[i].time);
    }
  }

  /** Two logged refusals of an identity that stays tracked between them are at least a minute apart. */
  lemma RefusalsAreSpaced(s: Settings, events: seq<Event>, i: nat, j: nat, uid: int)
    requires forall a, b :: 0 <= a <= b < |events| ==> events[a].time <= events[b].time
    requires i < j < |events| && LoggedAt(s, events, i, uid) && LoggedAt(s, events, j, uid)
    requires forall k :: i < k <= j ==> uid in StateAt(s, events, k)
    ensures events[j].time - events[i].time >= 60.0
  {
    hide StateAt;
    RefusalIsRemembered(s, events, i, j, uid);
  }

  /** Where a remembered refusal comes from. */
  lemma StepRecalls(s: Settings, m: Clients, e: Event, uid: int)
    requires var n := Step(s, m, e).0; uid in n && n[uid].lastRefusal.Some?
    ensures var v := Step(s, m, e).0[uid].lastRefusal.value;
            || (uid in m && m[uid].lastRefusal == Some(v))
            || (e.kind.Refuse? && e.uid == uid && Refusal(m, uid, e.time).1 && v == e.time)
  {
    hide Rate, Earned, Burst, Cap;
  }

  lemma {:induction false} RememberedWasLogged(s: Settings, events: seq<Event>, n: nat, uid: int) returns (i: nat)
    requires n <= |events| && uid in StateAt(s, events, n) && StateAt(s, events, n)[uid].lastRefusal.Some?
    ensures i < n && LoggedAt(s, events, i, uid)
    ensures events[i].time == StateAt(s, events, n)[uid].lastRefusal.value
    ensures forall k :: i < k <= n ==> uid in StateAt(s, events, k)
  {
    hide Step, Refusal;
    var m, e := StateAt(s, events, n - 1), events[n - 1];
    StepRecalls(s, m, e, uid);
    if uid in m && m[uid].lastRefusal == StateAt(s, events, n)[uid].lastRefusal {
      i := RememberedWasLogged(s, events, n - 1, uid);
    } else {
      i := n - 1;
    }
  }

  /** The refusal comes within a minute of a logged one, and the identity was tracked all the time between them. */
  ghost predicate TooSoon(s: Settings, events: seq<Event>, j: nat, uid: int)
    requires j < |events|
  {
    exists i :: 0 <= i < j && LoggedAt(s, events, i, uid) && events[j].time - events[i].time < 60.0
                && forall k :: i < k <= j ==> uid in StateAt(s, events, k)
  }

  /** Over every run a refusal is logged exactly when it does not come too soon. */
  lemma RefusalIsLoggedExactlyWhen(s: Settings, events: seq<Event>, j: nat, uid: int)
    requires forall a, b :: 0 <= a <= b < |events| ==> events[a].time <= events[b].time
    requires j < |events| && events[j].kind.Refuse? && events[j].uid == uid
    ensures LoggedAt(s, events, j, uid) <==> !TooSoon(s, events, j, uid)
  {
    hide StateAt;
    var m := StateAt(s, events, j);
    if TooSoon(s, events, j, uid) {
      var i :| 0 <= i < j && LoggedAt(s, events, i, uid) && events[j].time - events[i].time < 60.0
               && forall k :: i < k <= j ==> uid in StateAt(s, events, k);
      RefusalIsRemembered(s, events, i, j, uid);
    }
    if !LoggedAt(s, events, j, uid) {
      var i := RememberedWasLogged(s, events, j, uid);
    }
  }

  // --------------------------------------------------------------- the server

  lemma NotEmpty(keys: set<int>)
    ensures keys == {} || exists u :: u in keys
  {
    if forall u :: u !in keys {
      assert keys == {};
    }
  }

  /** The table when the stale clients outside `left` are gone. */
  function Sieved(m: Clients, left: set<int>, now: real): Clients {
    map u | u in m && (u in left || !Stale(m[u], now)) :: m[u]
  }

  class Server {
    const settings: Settings
    var clients: Clients

    constructor (s: Settings)
      ensures settings == s && clients == map[]
    {
      settings, clients := s, map[];
    }

    /** evictStaleClientsLocked */
    method EvictStale(now: real)
      modifies this
      ensures clients == Evicted(old(clients), now)
    {
      var was := clients;
      var left := was.Keys;
      while left != {}
        invariant left <= was.Keys
        invariant clients == Sieved(was, left, now)
      {
        NotEmpty(left);
        var uid :| uid in left;
        if Stale(was[uid], now) {
          clients := clients - {uid};
        }
        left := left - {uid};
      }
    }

    method Admit(uid: int, now: real) returns (ok: bool)
      modifies this
      ensures (clients, ok) == Asked(settings, old(clients), uid, now)
    {
      if uid !in clients {
        if |clients| >= MAX_TRACKED {
          EvictStale(now);
        }
        if |clients| >= MAX_TRACKED {
          return false;
        }
        clients := clients[uid := Client(Burst(settings), now, 0, None)];
      }
      var client := clients[uid];
      if client.connections >= Cap(settings) {
        assert clients[uid := client] == clients;
        return false;
      }
      if now - client.last > 0.0 {
        client := client.(tokens := Lesser(Burst(settings), client.tokens + Earned(settings, client.last, now)),
                          last := now);
      }
      ok := client.tokens >= 1.0;
      if ok {
        client := client.(tokens := client.tokens - 1.0, connections := client.connections + 1);
      }
      clients := clients[uid := client];
    }

    /** release */
    method Release(uid: int)
      modifies this
      ensures clients == Released(old(clients), uid)
    {
      if uid in clients {
        var client := clients[uid];
        if client.connections > 0 {
          clients := clients[uid := client.(connections := client.connections - 1)];
        }
      }
    }

    /** logRefusal, up to whether the line is logged */
    method LogRefusal(uid: int, now: real) returns (logged: bool)
      modifies this
      ensures (clients, logged) == Refusal(old(clients), uid, now)
    {
      if uid !in clients && uid >= 0 && |clients| < MAX_TRACKED {
        clients := clients[uid := Client(0.0, now, 0, None)];
      }
      if uid in clients {
        var client := clients[uid];
        if client.lastRefusal.Some? && now - client.lastRefusal.value < 60.0 {
          return false;
        }
        clients := clients[uid := client.(lastRefusal := Some(now))];
      }
      return true;
    }
  }
}
