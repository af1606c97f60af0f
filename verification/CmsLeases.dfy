/**
 Trusted-administrator leases of the CMS bridge (control/cms.go): granting from
 authenticated bridge events, revoking, pruning, setting changes and restarts.

 The bridge reader checks an event against the revocation watermark in one locked section
 and stores the lease in a later one, so these are two steps, with anything in between.
 Decryption and address parsing are inputs. Times are Unix seconds.
 */
module CmsLeases {
  import opened Options
  import opened CmsHosts

  const MAX_LEASES: nat := 4096
  const MAX_TTL: int := 7200

  datatype Settings = Settings(enabled: bool, bridgeEnabled: bool, ttl: int, skew: int)

  datatype Address = Unparsable | Unspecified | Loopback(text: string) | Remote(text: string)

  datatype Event = Event(version: int, kind: string, ip: Address, host: string, user: string, idLength: nat, id: string,
                         issued: int, expires: int)

  /** The canonical text of an address. */
  function TextOf(ip: Address): string {
    if ip.Loopback? || ip.Remote? then ip.text else ""
  }

  /** Logout and lookup form the key from the host as given. */
  function KeyOf(ip: Address, host: string): string {
    LeaseKey(TextOf(ip), host)
  }

  /** A grant forms it from the normalised host that the lease carries. */
  function GrantKey(e: Event): string {
    LeaseKey(TextOf(e.ip), Normalized(e.host))
  }

  /** `granted` is when the lease was stored; the source keeps the other two. */
  datatype Lease = Lease(issued: int, expires: int, granted: int)

  /** `settingsFile` and `watermarkFile` survive a restart; `pending` is the event between its two steps. */
  datatype Engine = Engine(settings: Settings, leases: map<string, Lease>, seen: set<string>, revokedBefore: int,
                           pending: Option<Event>, settingsFile: Option<Settings>, watermarkFile: Option<int>)

  const DEFAULTS := Settings(true, false, 7200, 300)

  function Sanitized(s: Settings): Settings {
    s.(ttl := if 60 <= s.ttl <= 7200 then s.ttl else DEFAULTS.ttl,
       skew := if 30 <= s.skew <= 3600 then s.skew else DEFAULTS.skew)
  }

  // --------------------------------------------------------------- operations

  /** The checks of decryptBridgeLine on an authentic event. */
  predicate Accepts(s: Settings, e: Event, now: int) {
    && e.version == 1 && (e.kind == "master_login" || e.kind == "bridge_hello" || e.kind == "master_logout")
    && (e.ip.Remote? || (e.ip.Loopback? && e.kind != "master_login")) && |e.ip.text| <= 64
    && 0 < |e.host| <= 253 && |e.user| <= 128 && e.idLength <= 128
    && now < e.expires <= now + s.ttl + s.skew
    && now - 86400 <= e.issued <= now + s.skew
  }

  function Checked(g: Engine, e: Event, now: int): Engine {
    if Accepts(g.settings, e, now) && e.issued > g.revokedBefore then g.(pending := Some(e)) else g
  }

  function Pruned(m: map<string, Lease>, now: int): map<string, Lease> {
    map k | k in m && now < m[k].expires :: m[k]
  }

  function Earlier(a: int, b: int): int {
    if a > b then b else a
  }

  /** Leases with room made when they are at capacity. */
  function Roomy(m: map<string, Lease>, now: int): map<string, Lease> {
    if |m| >= MAX_LEASES then Pruned(m, now) else m
  }

  predicate Grants(g: Engine, e: Event, now: int) {
    e.id !in g.seen && |Roomy(g.leases, now)| < MAX_LEASES
  }

  /** The seen identifiers with one more; a full set starts over. */
  function Remembered(seen: set<string>, id: string): set<string> {
    (if |seen| >= MAX_LEASES * 2 then {} else seen) + {id}
  }

  function Granted(g: Engine, e: Event, now: int): Engine {
    if e.id in g.seen then g
    else
      var kept := Roomy(g.leases, now);
      g.(seen := Remembered(g.seen, e.id),
         leases := if |kept| >= MAX_LEASES then kept
                   else kept[GrantKey(e) := Lease(e.issued, Earlier(e.expires, now + g.settings.ttl), now)])
  }

  /** The second half of consumeBridgeLine. */
  function Applied(g: Engine, now: int): Engine
    requires g.pending.Some?
  {
    var e := g.pending.value;
    var idle := g.(pending := None);
    if e.kind == "master_logout" then idle.(leases := idle.leases - {KeyOf(e.ip, e.host)})
    else if e.kind == "bridge_hello" then idle
    else Granted(idle, e, now)
  }

  function Revoked(g: Engine, now: int, written: bool): Engine {
    g.(leases := map[], revokedBefore := now, watermarkFile := if written then Some(now) else g.watermarkFile)
  }

  /** The settings half of UpdateSettings; the caller revokes when a switch went off. */
  function Configured(g: Engine, next: Settings, saved: bool): Engine {
    if saved then g.(settings := Sanitized(next), settingsFile := Some(Sanitized(next))) else g
  }

  predicate TrustedAt(g: Engine, ip: Address, host: string, now: int) {
    ip.Remote? && g.settings.enabled && g.settings.bridgeEnabled && KeyOf(ip, host) in Pruned(g.leases, now)
  }

  function Queried(g: Engine, ip: Address, now: int): Engine {
    if ip.Remote? && g.settings.enabled && g.settings.bridgeEnabled then g.(leases := Pruned(g.leases, now)) else g
  }

  function Started(settingsFile: Option<Settings>, watermarkFile: Option<int>): Engine {
    Engine(if settingsFile.Some? then Sanitized(settingsFile.value) else DEFAULTS, map[], {},
           if watermarkFile.Some? && watermarkFile.value > 0 then watermarkFile.value else 0,
           None, settingsFile, watermarkFile)
  }

  // --------------------------------------------------------------- invariants

  predicate Bounded(s: Settings) {
    60 <= s.ttl <= MAX_TTL && 30 <= s.skew <= 3600
  }

  /** A lease ends at most two hours after it was stored. */
  predicate Short(l: Lease, clock: int) {
    l.granted <= clock && l.expires <= l.granted + MAX_TTL
  }

  predicate Capped(g: Engine, clock: int) {
    Bounded(g.settings) && |g.leases| <= MAX_LEASES && forall k :: k in g.leases ==> Short(g.leases[k], clock)
  }

  /** Every lease was issued after the revocation watermark. */
  predicate Current(g: Engine) {
    forall k :: k in g.leases ==> g.leases[k].issued > g.revokedBefore
  }

  predicate Inv(g: Engine, clock: int) {
    Capped(g, clock) && Current(g)
  }

  lemma PrunedIsSmaller(m: map<string, Lease>, now: int)
    ensures |Pruned(m, now)| <= |m|
  {
    var gone := m.Keys - Pruned(m, now).Keys;
    assert m.Keys == Pruned(m, now).Keys + gone;
  }

  lemma PruningKeeps(g: Engine, now: int, clock: int)
    requires Capped(g, clock)
    ensures Capped(g.(leases := Pruned(g.leases, now)), clock)
    ensures Current(g) ==> Current(g.(leases := Pruned(g.leases, now)))
  {
    PrunedIsSmaller(g.leases, now);
  }

  lemma FewerLeases(g: Engine, k: string, clock: int)
    requires Capped(g, clock)
    ensures Capped(g.(leases := g.leases - {k}), clock)
    ensures Current(g) ==> Current(g.(leases := g.leases - {k}))
  {
    var left := g.leases - {k};
    assert left.Keys <= g.leases.Keys;
    assert g.leases.Keys == left.Keys + (g.leases.Keys - left.Keys);
  }

  lemma OneMoreLease(m: map<string, Lease>, k: string, l: Lease)
    ensures |m[k := l]| <= |m| + 1
  {
    assert m[k := l].Keys == m.Keys + {k};
  }

  /** Storing a lease keeps the invariant exactly when the event is newer than the watermark of that moment. */
  lemma GrantKeepsExactlyWhen(g: Engine, e: Event, now: int)
    requires Capped(g, now)
    ensures Capped(Granted(g, e, now), now)
    ensures Current(g) ==> (Current(Granted(g, e, now)) <==> (Grants(g, e, now) ==> e.issued > g.revokedBefore))
    ensures |g.seen| <= MAX_LEASES * 2 ==> |Granted(g, e, now).seen| <= MAX_LEASES * 2
  {
    hide LeaseKey;
    PruningKeeps(g, now, now);
    var kept := Roomy(g.leases, now);
    var l := Lease(e.issued, Earlier(e.expires, now + g.settings.ttl), now);
    OneMoreLease(kept, GrantKey(e), l);
    if Grants(g, e, now) {
      assert Granted(g, e, now).leases[GrantKey(e)] == l;
    }
  }

  predicate LoginPending(g: Engine) {
    g.pending.Some? && g.pending.value.kind != "master_logout" && g.pending.value.kind != "bridge_hello"
  }

  /**
   A revocation between the check and the grant of a login leaves the invariant intact exactly when
   the login is stamped after the revocation or is not granted at all. Otherwise a lease issued
   before the revocation survives it.
   */
  lemma RevocationDuringGrant(g: Engine, revokedAt: int, written: bool, now: int)
    requires Inv(g, revokedAt) && LoginPending(g) && revokedAt <= now
    ensures Inv(Applied(Revoked(g, revokedAt, written), now), now)
            <==> (g.pending.value.id in g.seen || g.pending.value.issued > revokedAt)
  {
    hide LeaseKey;
    var r := Revoked(g, revokedAt, written).(pending := None);
    assert Inv(r, now);
    GrantKeepsExactlyWhen(r, g.pending.value, now);
  }

  // --------------------------------------------------------------------- runs

  datatype Step =
    | Check(event: Event)
    | Apply
    | Revoke(written: bool)
    | Configure(next: Settings, saved: bool)
    | Query(ip: Address, host: string)
    | Restart

  function Next(g: Engine, step: Step, now: int): Engine {
    match step
    case Check(e) => if g.pending.Some? then g else Checked(g, e, now)
    case Apply => if g.pending.Some? then Applied(g, now) else g
    case Revoke(written) => Revoked(g, now, written)
    case Configure(next, saved) => Configured(g, next, saved)
    case Query(ip, _) => Queried(g, ip, now)
    case Restart => Started(g.settingsFile, g.watermarkFile)
  }

  /** The step stores a lease for an event stamped no later than `t`. */
  predicate GrantsUpTo(g: Engine, step: Step, now: int, t: int) {
    step.Apply? && LoginPending(g) && Grants(g, g.pending.value, now) && g.pending.value.issued <= t
  }

  lemma ApplyingKeeps(g: Engine, now: int)
    requires Capped(g, now) && g.pending.Some?
    ensures Capped(Applied(g, now), now)
    ensures Current(g) ==> (Current(Applied(g, now)) <==> !GrantsUpTo(g, Apply, now, g.revokedBefore))
  {
    hide Granted, Bounded, Short, LeaseKey;
    var e := g.pending.value;
    var idle := g.(pending := None);
    FewerLeases(idle, KeyOf(e.ip, e.host), now);
    GrantKeepsExactlyWhen(idle, e, now);
    GrantingIsLocal(idle, e, now);
  }

  lemma GrantingIsLocal(g: Engine, e: Event, now: int)
    ensures var n := Granted(g, e, now);
            && n.revokedBefore == g.revokedBefore && n.watermarkFile == g.watermarkFile && n.pending == g.pending
            && n.settings == g.settings && n.settingsFile == g.settingsFile
  {
  }

  lemma LaterClock(g: Engine, clock: int, now: int)
    requires Capped(g, clock) && clock <= now
    ensures Capped(g, now)
  {
  }

  /** Every step keeps the bounds; it keeps the leases newer than the watermark unless it grants an older event. */
  lemma StepKeeps(g: Engine, step: Step, clock: int, now: int)
    requires Capped(g, clock) && clock <= now
    ensures Capped(Next(g, step, now), now)
    ensures Current(g) ==> (Current(Next(g, step, now)) <==> !GrantsUpTo(g, step, now, g.revokedBefore))
  {
    hide Applied, Pruned, Accepts, Bounded, LeaseKey, Short;
    LaterClock(g, clock, now);
    PruningKeeps(g, now, now);
    SanitizedIsBounded();
    if step.Apply? && g.pending.Some? {
      ApplyingKeeps(g, now);
    }
  }

  lemma SanitizedIsBounded()
    ensures Bounded(DEFAULTS) && forall s :: Bounded(Sanitized(s))
  {
  }

  datatype Tick = Tick(step: Step, now: int)

  function StateAt(start: Engine, ticks: seq<Tick>, n: nat): Engine
    requires n <= |ticks|
  {
    if n == 0 then start else Next(StateAt(start, ticks, n - 1), ticks[n - 1].step, ticks[n - 1].now)
  }

  /** The clock does not go back. */
  predicate Run(clock: int, ticks: seq<Tick>) {
    && (forall i :: 0 <= i < |ticks| ==> clock <= ticks[i].now)
    && (forall i, j :: 0 <= i <= j < |ticks| ==> ticks[i].now <= ticks[j].now)
  }

  function ClockAt(clock: int, ticks: seq<Tick>, n: nat): int
    requires n <= |ticks|
  {
    if n == 0 then clock else ticks[n - 1].now
  }

  /** None of the first n steps granted an event stamped no later than the watermark of that moment. */
  predicate GrantsOnlyNew(start: Engine, ticks: seq<Tick>, n: nat)
    requires n <= |ticks|
  {
    forall i :: 0 <= i < n ==>
      !GrantsUpTo(StateAt(start, ticks, i), ticks[i].step, ticks[i].now, StateAt(start, ticks, i).revokedBefore)
  }

  lemma {:induction false} RunIsCapped(start: Engine, clock: int, ticks: seq<Tick>, n: nat)
    requires Capped(start, clock) && Run(clock, ticks) && n <= |ticks|
    ensures Capped(StateAt(start, ticks, n), ClockAt(clock, ticks, n))
    ensures Current(start) && GrantsOnlyNew(start, ticks, n) ==> Current(StateAt(start, ticks, n))
  {
    hide Capped, Current, Next, GrantsUpTo;
    if n > 0 {
      RunIsCapped(start, clock, ticks, n - 1);
      StepKeeps(StateAt(start, ticks, n - 1), ticks[n - 1].step, ClockAt(clock, ticks, n - 1), ticks[n - 1].now);
    }
  }

  // ------------------------------------------------------- a revocation's effect

  /** No lease was issued at or before t. */
  predicate NoneUpTo(g: Engine, t: int) {
    forall k :: k in g.leases ==> g.leases[k].issued > t
  }

  /** Only a grant brings back a lease that old. */
  lemma StepBringsBackExactlyWhen(g: Engine, step: Step, now: int, t: int)
    requires NoneUpTo(g, t)
    ensures NoneUpTo(Next(g, step, now), t) <==> !GrantsUpTo(g, step, now, t)
  {
    hide Accepts, LeaseKey;
    if GrantsUpTo(g, step, now, t) {
      assert GrantKey(g.pending.value) in Next(g, step, now).leases;
    }
  }

  lemma {:induction false} NoneComeBack(start: Engine, ticks: seq<Tick>, i: nat, n: nat, t: int)
    requires i <= n <= |ticks| && NoneUpTo(StateAt(start, ticks, i), t)
    requires forall j :: i <= j < n ==> !GrantsUpTo(StateAt(start, ticks, j), ticks[j].step, ticks[j].now, t)
    ensures NoneUpTo(StateAt(start, ticks, n), t)
  {
    hide NoneUpTo, Next, GrantsUpTo;
    if i < n {
      NoneComeBack(start, ticks, i, n - 1, t);
      StepBringsBackExactlyWhen(StateAt(start, ticks, n - 1), ticks[n - 1].step, ticks[n - 1].now, t);
    }
  }

  lemma RevokingClears(g: Engine, step: Step, now: int)
    requires step.Revoke?
    ensures NoneUpTo(Next(g, step, now), now) && Next(g, step, now).revokedBefore == now
  {
  }

  /** Nothing issued at or before t can come back: watermark and file cover t, and no login that old is on its way. */
  predicate Barred(g: Engine, t: int) {
    && g.revokedBefore >= t && g.watermarkFile.Some? && g.watermarkFile.value >= t
    && (LoginPending(g) ==> g.pending.value.issued > t || g.pending.value.id in g.seen)
    && NoneUpTo(g, t)
  }

  lemma BarredApplies(g: Engine, now: int, t: int)
    requires Barred(g, t) && g.pending.Some?
    ensures Barred(Applied(g, now), t)
  {
    hide LeaseKey, Accepts;
  }

  lemma StepStaysBarred(g: Engine, step: Step, now: int, t: int)
    requires Barred(g, t) && 0 < t <= now
    ensures Barred(Next(g, step, now), t)
  {
    hide LeaseKey, Accepts, Applied;
    if step.Apply? && g.pending.Some? {
      BarredApplies(g, now, t);
    }
  }

  lemma {:induction false} StaysBarred(g: Engine, ticks: seq<Tick>, n: nat, t: int)
    requires Barred(g, t) && 0 < t && Run(t, ticks) && n <= |ticks|
    ensures Barred(StateAt(g, ticks, n), t)
  {
    hide Barred, Next;
    if n > 0 {
      StaysBarred(g, ticks, n - 1, t);
      StepStaysBarred(StateAt(g, ticks, n - 1), ticks[n - 1].step, ticks[n - 1].now, t);
    }
  }

  /** No continuation of the state holds a lease issued at or before t. */
  ghost predicate HoldsForEver(g: Engine, t: int) {
    forall ticks: seq<Tick>, n: nat :: Run(t, ticks) && n <= |ticks| ==> NoneUpTo(StateAt(g, ticks, n), t)
  }

  const LATE_LOGIN := Event(1, "master_login", Remote("192.0.2.1"), "example", "user", 2, "id", 0, 0)

  /** The pending login is granted after all. */
  lemma PendingLoginReturns(g: Engine, t: int)
    requires g.leases == map[] && LoginPending(g) && g.pending.value.issued <= t && g.pending.value.id !in g.seen
    ensures !HoldsForEver(g, t)
  {
    hide LeaseKey;
    var ticks := [Tick(Apply, t)];
    assert StateAt(g, ticks, 0) == g;
    var n := StateAt(g, ticks, 1);
    assert n == Applied(g, t);
    assert GrantKey(g.pending.value) in n.leases && n.leases[GrantKey(g.pending.value)].issued <= t;
    assert Run(t, ticks) && !NoneUpTo(n, t);
  }

  /** A login stamped at t passes the check of an empty engine whose watermark is older, and is granted. */
  lemma LateLoginIsGranted(g: Engine, e: Event, t: int)
    requires g.leases == map[] && g.seen == {} && g.pending.None? && g.revokedBefore < t && Bounded(g.settings)
    requires e == LATE_LOGIN.(issued := t, expires := t + 1)
    ensures Next(g, Check(e), t) == g.(pending := Some(e))
    ensures var n := Next(g.(pending := Some(e)), Apply, t);
            GrantKey(e) in n.leases && n.leases[GrantKey(e)].issued == t
  {
    hide LeaseKey, Applied, Checked, GrantKey;
    LateLoginIsChecked(g, e, t);
    LateLoginIsApplied(g.(pending := Some(e)), e, t);
  }

  lemma LateLoginIsChecked(g: Engine, e: Event, t: int)
    requires g.seen == {} && g.pending.None? && g.revokedBefore < t && Bounded(g.settings)
    requires e == LATE_LOGIN.(issued := t, expires := t + 1)
    ensures Checked(g, e, t) == g.(pending := Some(e))
  {
  }

  lemma LateLoginIsApplied(g: Engine, e: Event, t: int)
    requires g.leases == map[] && g.seen == {} && g.pending == Some(e) && Bounded(g.settings)
    requires e == LATE_LOGIN.(issued := t, expires := t + 1)
    ensures var n := Applied(g, t); GrantKey(e) in n.leases && n.leases[GrantKey(e)].issued == t
  {
    hide LeaseKey;
  }

  /** A restart forgets the watermark, and a login stamped at t is checked and granted. */
  lemma ForgottenWatermarkReturns(g: Engine, t: int)
    requires 0 < t && (g.watermarkFile.None? || g.watermarkFile.value < t)
    ensures !HoldsForEver(g, t)
  {
    hide GrantKey, Accepts, Applied, LATE_LOGIN, Checked;
    var e := LATE_LOGIN.(issued := t, expires := t + 1);
    var ticks := [Tick(Restart, t), Tick(Check(e), t), Tick(Apply, t)];
    var back := Started(g.settingsFile, g.watermarkFile);
    SanitizedIsBounded();
    LateLoginIsGranted(back, e, t);
    assert StateAt(g, ticks, 0) == g;
    assert StateAt(g, ticks, 1) == back;
    hide Next;
    assert StateAt(g, ticks, 2) == back.(pending := Some(e));
    var n := StateAt(g, ticks, 3);
    assert Run(t, ticks) && !NoneUpTo(n, t);
  }

  /**
   Once revoked, always revoked. Whatever happens after a revocation at t, restarts included, no lease issued
   at or before t is ever held, exactly when the watermark on file covers t (the revocation was written, or
   a later one was) and no login stamped at or before t is between its check and its grant, unless it
   was seen before.
   */
  lemma RevocationIsForeverExactlyWhen(g: Engine, t: int, written: bool)
    requires 0 < t
    ensures HoldsForEver(Revoked(g, t, written), t) <==>
            && (written || (g.watermarkFile.Some? && g.watermarkFile.value >= t))
            && (LoginPending(g) ==> g.pending.value.issued > t || g.pending.value.id in g.seen)
  {
    hide StateAt, Next;
    var r := Revoked(g, t, written);
    if !(written || (g.watermarkFile.Some? && g.watermarkFile.value >= t)) {
      ForgottenWatermarkReturns(r, t);
    } else if LoginPending(g) && g.pending.value.issued <= t && g.pending.value.id !in g.seen {
      PendingLoginReturns(r, t);
    } else {
      assert Barred(r, t);
      forall ticks: seq<Tick>, n: nat | Run(t, ticks) && n <= |ticks|
        ensures NoneUpTo(StateAt(r, ticks, n), t)
      {
        StaysBarred(r, ticks, n, t);
      }
    }
  }

  /** A login stamped at 10, checked at 10, revoked at 11, granted at 12: the lease outlives the revocation. */
  lemma LeaseOutlivesRevocation() returns (ticks: seq<Tick>, key: string)
    ensures Run(0, ticks) && |ticks| == 3 && ticks[1].step.Revoke? && ticks[1].now == 11
    ensures key in StateAt(Started(None, None), ticks, 3).leases
    ensures var g := StateAt(Started(None, None), ticks, 3); g.leases[key].issued == 10 < g.revokedBefore
  {
    hide LeaseKey, Normalized;
    var e := Event(1, "master_login", Remote("192.0.2.1"), "example", "user", 2, "id", 10, 100);
    ticks := [Tick(Check(e), 10), Tick(Revoke(true), 11), Tick(Apply, 12)];
    var start := Started(None, None);
    var checked := Checked(start, e, 10);
    var revoked := Revoked(checked, 11, true);
    assert StateAt(start, ticks, 1) == checked && checked.pending == Some(e);
    assert StateAt(start, ticks, 2) == revoked;
    assert StateAt(start, ticks, 3) == Applied(revoked, 12);
    key := GrantKey(e);
  }


  // ------------------------------------------------------------- orderly runs

  /** A revocation is written, and does not fall between the two steps of a login stamped no later than it. */
  predicate Orderly(g: Engine, step: Step, now: int) {
    step.Revoke? ==> step.written && (LoginPending(g) ==> g.pending.value.issued > now)
  }

  /** The pending login would still pass the watermark check, and the watermark file is up to date. */
  predicate Safe(g: Engine, clock: int) {
    && (LoginPending(g) ==> g.pending.value.issued > g.revokedBefore)
    && 0 <= g.revokedBefore <= clock
    && (g.revokedBefore > 0 ==> g.watermarkFile == Some(g.revokedBefore))
    && (g.watermarkFile.Some? ==> g.watermarkFile.value == g.revokedBefore)
  }

  lemma OrderlyStepKeeps(g: Engine, step: Step, clock: int, now: int)
    requires Safe(g, clock) && clock <= now && Orderly(g, step, now)
    ensures Safe(Next(g, step, now), now)
    ensures g.revokedBefore <= Next(g, step, now).revokedBefore
  {
    hide Applied, Pruned, Accepts, LeaseKey;
    if step.Apply? && g.pending.Some? {
      ApplyingKeepsWatermark(g, now);
    }
  }

  lemma ApplyingKeepsWatermark(g: Engine, now: int)
    requires g.pending.Some?
    ensures var n := Applied(g, now);
            n.revokedBefore == g.revokedBefore && n.watermarkFile == g.watermarkFile && n.pending == None
  {
    hide LeaseKey;
    GrantingIsLocal(g.(pending := None), g.pending.value, now);
  }

  predicate OrderlyRun(start: Engine, clock: int, ticks: seq<Tick>) {
    && Run(clock, ticks)
    && forall i :: 0 <= i < |ticks| ==> Orderly(StateAt(start, ticks, i), ticks[i].step, ticks[i].now)
  }

  lemma {:induction false} OrderlyIsSafe(start: Engine, clock: int, ticks: seq<Tick>, i: nat, n: nat)
    requires Safe(start, clock) && OrderlyRun(start, clock, ticks) && i <= n <= |ticks|
    ensures Safe(StateAt(start, ticks, n), ClockAt(clock, ticks, n))
    ensures StateAt(start, ticks, i).revokedBefore <= StateAt(start, ticks, n).revokedBefore
    decreases n
  {
    hide Safe, Next, Orderly;
    if n > 0 {
      OrderlyIsSafe(start, clock, ticks, if i < n then i else n - 1, n - 1);
      OrderlyStepKeeps(StateAt(start, ticks, n - 1), ticks[n - 1].step, ClockAt(clock, ticks, n - 1), ticks[n - 1].now);
    }
  }

  /** In an orderly run no grant stores an event that any earlier revocation covers. */
  lemma OrderlyGrantsOnlyNew(start: Engine, clock: int, ticks: seq<Tick>, i: nat, j: nat)
    requires Safe(start, clock) && OrderlyRun(start, clock, ticks) && i <= j < |ticks|
    ensures !GrantsUpTo(StateAt(start, ticks, j), ticks[j].step, ticks[j].now, StateAt(start, ticks, i).revokedBefore)
  {
    hide OrderlyRun, StateAt;
    OrderlyIsSafe(start, clock, ticks, i, j);
  }

  /** When revocations are written and do not split a login, every one of them holds for ever. */
  lemma OrderlyRevocationsHold(start: Engine, clock: int, ticks: seq<Tick>, i: nat, n: nat)
    requires Safe(start, clock) && OrderlyRun(start, clock, ticks) && i < n <= |ticks| && ticks[i].step.Revoke?
    ensures NoneUpTo(StateAt(start, ticks, n), ticks[i].now)
  {
    hide NoneUpTo, Next, GrantsUpTo, OrderlyRun, Safe;
    var t, after := ticks[i].now, i + 1;
    RevokingClears(StateAt(start, ticks, i), ticks[i].step, t);
    assert StateAt(start, ticks, after).revokedBefore == t && NoneUpTo(StateAt(start, ticks, after), t);
    forall j | after <= j < n
      ensures !GrantsUpTo(StateAt(start, ticks, j), ticks[j].step, ticks[j].now, t)
    {
      OrderlyGrantsOnlyNew(start, clock, ticks, after, j);
    }
    NoneComeBack(start, ticks, after, n, t);
  }

  /** In every state of an orderly run all leases are newer than the watermark and within their bounds. */
  lemma OrderlyLeasesAreCurrent(start: Engine, clock: int, ticks: seq<Tick>, n: nat)
    requires Inv(start, clock) && Safe(start, clock) && OrderlyRun(start, clock, ticks) && n <= |ticks|
    ensures Inv(StateAt(start, ticks, n), ClockAt(clock, ticks, n))
  {
    hide GrantsUpTo, Safe, StateAt, Capped, Current;
    forall j | 0 <= j < n
      ensures !GrantsUpTo(StateAt(start, ticks, j), ticks[j].step, ticks[j].now, StateAt(start, ticks, j).revokedBefore)
    {
      OrderlyGrantsOnlyNew(start, clock, ticks, j, j);
    }
    RunIsCapped(start, clock, ticks, n);
  }

  // -------------------------------------------------------------------- trust

  /**
   On every run Trusted answers yes exactly for an unexpired lease under the key of the address and host
   while both switches are on; such a lease ends within two hours of its grant and there are at most 4096.
   On an orderly run from a fresh installation it was also issued after the revocation watermark.
   */
  lemma TrustIsEarned(clock: int, ticks: seq<Tick>, n: nat, ip: Address, host: string, now: int)
    requires 0 <= clock && Run(clock, ticks) && n <= |ticks|
    ensures var start := Started(None, None);
            var g, key := StateAt(start, ticks, n), KeyOf(ip, host);
            && |g.leases| <= MAX_LEASES
            && (TrustedAt(g, ip, host, now) <==>
                ip.Remote? && g.settings.enabled && g.settings.bridgeEnabled && key in g.leases
                    && now < g.leases[key].expires)
            && (TrustedAt(g, ip, host, now) ==>
                && now < g.leases[key].expires <= g.leases[key].granted + MAX_TTL
                && (OrderlyRun(start, clock, ticks) ==> g.leases[key].issued > g.revokedBefore))
  {
    hide StateAt, Run, OrderlyRun, LeaseKey, Safe;
    var start := Started(None, None);
    FreshStart(clock);
    RunIsCapped(start, clock, ticks, n);
    if OrderlyRun(start, clock, ticks) {
      OrderlyLeasesAreCurrent(start, clock, ticks, n);
    }
  }

  /** A fresh installation satisfies everything above. */
  lemma FreshStart(clock: int)
    requires 0 <= clock
    ensures Inv(Started(None, None), clock) && Safe(Started(None, None), clock)
  {
  }

  // ---------------------------------------------------------- switching trust off

  /** Settings change only when they are configured; a restart reads back what was saved. */
  lemma {:induction false} SettingsStay(start: Engine, ticks: seq<Tick>, i: nat, n: nat, next: Settings)
    requires i < n <= |ticks| && ticks[i].step == Configure(next, true)
    requires forall j :: i < j < n ==> !ticks[j].step.Configure?
    ensures var g := StateAt(start, ticks, n); g.settings == Sanitized(next) && g.settingsFile == Some(Sanitized(next))
  {
    hide Applied, Accepts, LeaseKey;
    var g := StateAt(start, ticks, n - 1);
    if i < n - 1 {
      SettingsStay(start, ticks, i, n - 1, next);
      if ticks[n - 1].step.Apply? && g.pending.Some? {
        ApplyingKeepsSettings(g, ticks[n - 1].now);
      }
    }
  }

  lemma ApplyingKeepsSettings(g: Engine, now: int)
    requires g.pending.Some?
    ensures Applied(g, now).settings == g.settings && Applied(g, now).settingsFile == g.settingsFile
  {
    hide LeaseKey;
    GrantingIsLocal(g.(pending := None), g.pending.value, now);
  }

  /** Every lease was stored at or after t. */
  predicate StoredSince(g: Engine, t: int) {
    forall k :: k in g.leases ==> g.leases[k].granted >= t
  }

  lemma StepStoresLater(g: Engine, step: Step, now: int, t: int)
    requires StoredSince(g, t) && t <= now
    ensures StoredSince(Next(g, step, now), t)
  {
    hide LeaseKey, Accepts;
  }

  lemma {:induction false} StoredSinceRevocation(start: Engine, clock: int, ticks: seq<Tick>, j: nat, n: nat)
    requires Run(clock, ticks) && j < n <= |ticks| && ticks[j].step.Revoke?
    ensures StoredSince(StateAt(start, ticks, n), ticks[j].now)
  {
    if j < n - 1 {
      hide Next, StoredSince;
      StoredSinceRevocation(start, clock, ticks, j, n - 1);
      StepStoresLater(StateAt(start, ticks, n - 1), ticks[n - 1].step, ticks[n - 1].now, ticks[j].now);
    }
  }

  /**
   Switching off for good. When a saved change turned a switch off and its revocation followed before the next
   change, then from the change on nothing is trusted until after the revocation, and then only leases
   stored since: turning the switch on again trusts no lease from before.
   */
  lemma SwitchingOffEndsTrust(start: Engine, clock: int, ticks: seq<Tick>, i: nat, j: nat, n: nat, ip: Address,
                              host: string, now: int)
    requires Run(clock, ticks) && i < j < |ticks| && i < n <= |ticks|
    requires ticks[i].step.Configure? && ticks[i].step.saved
    requires !(ticks[i].step.next.enabled && ticks[i].step.next.bridgeEnabled)
    requires ticks[j].step.Revoke? && forall k :: i < k < j ==> !ticks[k].step.Configure?
    requires TrustedAt(StateAt(start, ticks, n), ip, host, now)
    ensures n > j && StateAt(start, ticks, n).leases[KeyOf(ip, host)].granted >= ticks[j].now
  {
    hide LeaseKey, StateAt;
    if n <= j {
      SettingsStay(start, ticks, i, n, ticks[i].step.next);
    } else {
      StoredSinceRevocation(start, clock, ticks, j, n);
    }
  }

  /** An unwritten revocation is forgotten by a restart, exactly when it moved the watermark. */
  lemma UnwrittenRevocation(g: Engine, clock: int, now: int)
    requires Safe(g, clock) && clock <= now
    ensures var back := Started(Revoked(g, now, false).settingsFile, Revoked(g, now, false).watermarkFile);
            back.revokedBefore == now <==> g.revokedBefore == now
  {
  }

  // ---------------------------------------------------------- the two lease keys

  /**
   The lease of a login is found for the same address and host exactly when the host is settled: when
   normalising it a second time changes nothing. Otherwise only an older lease can answer.
   */
  lemma GrantIsFoundExactlyWhen(g: Engine, e: Event, now: int)
    requires Grants(g, e, now) && e.ip.Remote? && now < e.expires && g.settings.ttl > 0
    requires g.settings.enabled && g.settings.bridgeEnabled
    ensures TrustedAt(Granted(g, e, now), e.ip, e.host, now) <==>
            (Settled(e.host) || KeyOf(e.ip, e.host) in Pruned(g.leases, now))
  {
    hide LeaseKey, Settled;
    KeysAgreeExactlyWhen(TextOf(e.ip), e.host);
  }

  /** A logout for the same address and host ends the lease of the login exactly when the host is settled. */
  lemma LogoutEndsTheLogin(g: Engine, login: Event, logout: Event, now: int, later: int)
    requires g.pending == Some(login) && LoginPending(g) && Grants(g, login, now)
    requires logout.kind == "master_logout" && logout.ip == login.ip && logout.host == login.host
    ensures GrantKey(login) !in Applied(Applied(g, now).(pending := Some(logout)), later).leases <==>
            Settled(login.host)
  {
    hide LeaseKey, Settled;
    KeysAgreeExactlyWhen(TextOf(login.ip), login.host);
  }

  // --------------------------------------------------------------- the engine

  class CmsEngine {
    var g: Engine

    /** pruneLeasesLocked */
    method PruneLeases(now: int)
      modifies this
      ensures g == old(g).(leases := Pruned(old(g).leases, now))
    {
      var was := g.leases;
      var left := was.Keys;
      while left != {}
        invariant left <= was.Keys
        invariant g == old(g).(leases := map k | k in was && (k in left || now < was[k].expires) :: was[k])
      {
        var k :| k in left;
        if now >= was[k].expires {
          g := g.(leases := g.leases - {k});
        }
        left := left - {k};
      }
    }

    method Trusted(ip: Address, host: string, now: int) returns (ok: bool)
      modifies this
      ensures ok == TrustedAt(old(g), ip, host, now) && g == Queried(old(g), ip, now)
    {
      if !ip.Remote? || !g.settings.enabled || !g.settings.bridgeEnabled {
        return false;
      }
      PruneLeases(now);
      ok := KeyOf(ip, host) in g.leases;
    }

    method RevokeLeases(now: int, written: bool) returns (count: nat)
      modifies this
      ensures g == Revoked(old(g), now, written) && count == |old(g).leases|
    {
      count := |g.leases|;
      g := g.(leases := map[], revokedBefore := now);
      if written {
        g := g.(watermarkFile := Some(now));
      }
    }

    method UpdateSettings(next: Settings, saved: bool, now: int, written: bool) returns (ok: bool)
      modifies this
      ensures ok == saved
      ensures var off := (old(g).settings.enabled && !next.enabled)
              || (old(g).settings.bridgeEnabled && !next.bridgeEnabled);
              g == if saved && off then Revoked(Configured(old(g), next, saved), now, written)
                   else Configured(old(g), next, saved)
    {
      var previous := g.settings;
      if !saved {
        return false;
      }
      var clean := Sanitized(next);
      g := g.(settingsFile := Some(clean), settings := clean);
      if (previous.enabled && !clean.enabled) || (previous.bridgeEnabled && !clean.bridgeEnabled) {
        var _ := RevokeLeases(now, written);
      }
      return true;
    }

    method MakeRoom(now: int)
      modifies this
      ensures g == old(g).(leases := Roomy(old(g).leases, now))
    {
      if |g.leases| >= MAX_LEASES {
        PruneLeases(now);
      }
    }

    method Remember(id: string)
      modifies this
      ensures g == old(g).(seen := Remembered(old(g).seen, id))
    {
      if |g.seen| >= MAX_LEASES * 2 {
        g := g.(seen := {});
      }
      g := g.(seen := g.seen + {id});
    }

    /** The locked section of consumeBridgeLine that grants a login. */
    method Grant(e: Event, now: int)
      modifies this
      ensures g == Granted(old(g), e, now)
    {
      hide Roomy, Remembered, GrantKey;
      if e.id in g.seen {
        return;
      }
      Remember(e.id);
      var maxExpiry := now + g.settings.ttl;
      var expires := if e.expires > maxExpiry then maxExpiry else e.expires;
      MakeRoom(now);
      if |g.leases| >= MAX_LEASES {
        return;
      }
      g := g.(leases := g.leases[GrantKey(e) := Lease(e.issued, expires, now)]);
    }

    /** consumeBridgeLine on an authentic event, when nothing interleaves: the two steps in a row. */
    method Consume(e: Event, now: int)
      requires g.pending.None?
      modifies this
      ensures g == Next(Next(old(g), Check(e), now), Apply, now)
      ensures !Accepts(old(g).settings, e, now) || e.issued <= old(g).revokedBefore || e.kind == "bridge_hello" ==>
                g == old(g)
      ensures Accepts(old(g).settings, e, now) && e.issued > old(g).revokedBefore && e.kind == "master_logout" ==>
                g == old(g).(leases := old(g).leases - {KeyOf(e.ip, e.host)})
      ensures Accepts(old(g).settings, e, now) && e.issued > old(g).revokedBefore && e.kind == "master_login" ==>
                g == Granted(old(g), e, now)
    {
      hide Accepts, Granted;
      if !Accepts(g.settings, e, now) || e.issued <= g.revokedBefore {
        return;
      }
      assert g.(pending := None) == g;
      if e.kind == "master_logout" {
        g := g.(leases := g.leases - {KeyOf(e.ip, e.host)});
      } else if e.kind != "bridge_hello" {
        Grant(e, now);
      }
    }
  }
}
