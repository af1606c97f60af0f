/**
 How long a lease of the CMS bridge lives (control/cms.go): which login stores one, which steps end it, and
 what is answered for it until then.
 */
module CmsTenure {
  import opened Options
  import opened CmsHosts
  import opened CmsLeases

  // -------------------------------------------------------------- which login counts

  /** The lease is there, as it is. */
  predicate Holds(g: Engine, key: string, l: Lease) {
    key in g.leases && g.leases[key] == l
  }

  /** The fields of a login from a remote host are within their bounds. */
  predicate WellFormedLogin(e: Event) {
    && e.version == 1 && e.kind == "master_login" && e.ip.Remote? && |e.ip.text| <= 64
    && 1 <= |e.host| <= 253 && |e.user| <= 128 && e.idLength <= 128
  }

  /** Stamped in the last day or at most the skew ahead, after the watermark; ending later, but not too late. */
  predicate StampsFit(g: Engine, e: Event, now: int) {
    && now - 86400 <= e.issued <= now + g.settings.skew && g.revokedBefore < e.issued
    && now < e.expires <= now + g.settings.ttl + g.settings.skew
  }

  /** A place is free, or becomes free when the expired leases go. */
  predicate HasRoom(g: Engine, now: int) {
    |g.leases| < 4096 || |set k | k in g.leases && now < g.leases[k].expires| < 4096
  }

  lemma PrunedSize(m: map<string, Lease>, now: int)
    ensures |Pruned(m, now)| == |set k | k in m && now < m[k].expires|
  {
    assert Pruned(m, now).Keys == set k | k in m && now < m[k].expires;
  }

  lemma RoomExactlyWhen(g: Engine, now: int)
    ensures |Roomy(g.leases, now)| < MAX_LEASES <==> HasRoom(g, now)
  {
    PrunedSize(g.leases, now);
  }

  /**
   A well-formed login, consumed without interruption, is on the table afterwards exactly when its stamps fit,
   it was not seen before and there is room. Its lease ends when the event says, and within the configured time.
   */
  lemma LoginIsGrantedExactlyWhen(g: Engine, e: Event, now: int)
    requires g.pending.None? && WellFormedLogin(e) && GrantKey(e) !in g.leases
    ensures var n := Next(Next(g, Check(e), now), Apply, now);
            var ends := if e.expires < now + g.settings.ttl then e.expires else now + g.settings.ttl;
            && (GrantKey(e) in n.leases <==> StampsFit(g, e, now) && e.id !in g.seen && HasRoom(g, now))
            && (GrantKey(e) in n.leases ==> Holds(n, GrantKey(e), Lease(e.issued, ends, now)))
  {
    hide GrantKey, Roomy, HasRoom;
    RoomExactlyWhen(g, now);
    assert GrantKey(e) !in Roomy(g.leases, now) by { RoomyKeys(g.leases, now); }
  }

  lemma RoomyKeys(m: map<string, Lease>, now: int)
    ensures Roomy(m, now).Keys <= m.Keys && forall k :: k in Roomy(m, now) ==> Roomy(m, now)[k] == m[k]
  {
  }

  /** The fields of a logout are within their bounds; it may come from the host itself. */
  predicate WellFormedLogout(e: Event) {
    && e.version == 1 && e.kind == "master_logout" && (e.ip.Remote? || e.ip.Loopback?) && |e.ip.text| <= 64
    && 1 <= |e.host| <= 253 && |e.user| <= 128 && e.idLength <= 128
  }

  /** A well-formed logout removes the lease under its key, and nothing else, exactly when its stamps fit. */
  lemma LogoutIsTakenExactlyWhen(g: Engine, e: Event, now: int)
    requires g.pending.None? && WellFormedLogout(e)
    ensures Next(Next(g, Check(e), now), Apply, now) ==
            g.(leases := if StampsFit(g, e, now) then g.leases - {KeyOf(e.ip, e.host)} else g.leases)
  {
    hide KeyOf, Granted;
  }

  // ------------------------------------------------------------- which steps end a lease

  /** The lease that a pending login stores. */
  function NewLease(g: Engine, e: Event, now: int): Lease {
    Lease(e.issued, if e.expires < now + g.settings.ttl then e.expires else now + g.settings.ttl, now)
  }

  /** The step stores a lease under the key. */
  predicate Stores(g: Engine, step: Step, now: int, key: string) {
    step.Apply? && LoginPending(g) && Grants(g, g.pending.value, now) && GrantKey(g.pending.value) == key
  }

  /** The step removes the expired leases: a query that gets to the table, or a new login when the table is full. */
  predicate Prunes(g: Engine, step: Step) {
    || (step.Query? && step.ip.Remote? && g.settings.enabled && g.settings.bridgeEnabled)
    || (step.Apply? && LoginPending(g) && g.pending.value.id !in g.seen && |g.leases| >= 4096)
  }

  predicate LogsOut(g: Engine, step: Step, key: string) {
    && step.Apply? && g.pending.Some? && g.pending.value.kind == "master_logout"
    && KeyOf(g.pending.value.ip, g.pending.value.host) == key
  }

  /** The step takes the lease away or puts another in its place. */
  predicate Ends(g: Engine, step: Step, now: int, key: string, l: Lease) {
    if Stores(g, step, now, key) then NewLease(g, g.pending.value, now) != l
    else step.Revoke? || step.Restart? || LogsOut(g, step, key) || (Prunes(g, step) && l.expires <= now)
  }

  lemma GrantLeaves(g: Engine, e: Event, now: int, key: string, l: Lease)
    requires Holds(g, key, l) && !(Grants(g, e, now) && GrantKey(e) == key)
    ensures Holds(Granted(g, e, now), key, l) <==> !(e.id !in g.seen && |g.leases| >= 4096 && l.expires <= now)
  {
    hide GrantKey;
  }

  lemma GrantStores(g: Engine, e: Event, now: int)
    requires Grants(g, e, now)
    ensures Holds(Granted(g, e, now), GrantKey(e), NewLease(g, e, now))
  {
    hide GrantKey;
  }

  /** A lease stays through a step exactly when the step does not end it; nothing else touches a lease. */
  lemma LeaseStaysExactlyWhen(g: Engine, step: Step, now: int, key: string, l: Lease)
    requires Holds(g, key, l)
    ensures Holds(Next(g, step, now), key, l) <==> !Ends(g, step, now, key, l)
  {
    hide GrantKey, KeyOf, Granted, Accepts, Grants;
    if step.Apply? && g.pending.Some? {
      var idle, e := g.(pending := None), g.pending.value;
      assert Grants(idle, e, now) == Grants(g, e, now) by { IdleGrants(g, e, now); }
      if LoginPending(g) && Grants(g, e, now) {
        GrantStores(idle, e, now);
      }
      if !(Grants(idle, e, now) && GrantKey(e) == key) {
        GrantLeaves(idle, e, now, key, l);
      }
    }
  }

  lemma IdleGrants(g: Engine, e: Event, now: int)
    ensures Grants(g.(pending := None), e, now) == Grants(g, e, now)
  {
  }

  /** The lease is there in every state from i to n. */
  predicate HeldThrough(start: Engine, ticks: seq<Tick>, i: nat, n: nat, key: string, l: Lease)
    requires i <= n <= |ticks|
  {
    forall k :: i <= k <= n ==> Holds(StateAt(start, ticks, k), key, l)
  }

  /** No step from i to n ends it. */
  predicate Unended(start: Engine, ticks: seq<Tick>, i: nat, n: nat, key: string, l: Lease)
    requires i <= n <= |ticks|
  {
    forall k :: i <= k < n ==> !Ends(StateAt(start, ticks, k), ticks[k].step, ticks[k].now, key, l)
  }

  /** Over a run a lease stays from step i to step n exactly when no step in between ends it. */
  lemma {:induction false} LeaseLivesExactlyUntil(start: Engine, ticks: seq<Tick>, i: nat, n: nat, key: string,
                                                  l: Lease)
    requires i <= n <= |ticks| && Holds(StateAt(start, ticks, i), key, l)
    ensures HeldThrough(start, ticks, i, n, key, l) <==> Unended(start, ticks, i, n, key, l)
  {
    hide Holds, Ends, Next;
    if i < n {
      var k := n - 1;
      LeaseLivesExactlyUntil(start, ticks, i, k, key, l);
      var g, h := StateAt(start, ticks, k), StateAt(start, ticks, n);
      assert h == Next(g, ticks[k].step, ticks[k].now);
      hide StateAt;
      assert HeldThrough(start, ticks, i, n, key, l) <==> HeldThrough(start, ticks, i, k, key, l) && Holds(h, key, l);
      assert Unended(start, ticks, i, n, key, l) <==>
             Unended(start, ticks, i, k, key, l) && !Ends(g, ticks[k].step, ticks[k].now, key, l);
      if HeldThrough(start, ticks, i, k, key, l) {
        LeaseStaysExactlyWhen(g, ticks[k].step, ticks[k].now, key, l);
      }
    }
  }

  /** Applying a login that is granted stores its lease. */
  lemma ApplyStores(g: Engine, now: int)
    requires LoginPending(g) && Grants(g, g.pending.value, now)
    ensures Holds(Next(g, Apply, now), GrantKey(g.pending.value), NewLease(g, g.pending.value, now))
  {
    hide GrantKey, Granted, Grants;
    IdleGrants(g, g.pending.value, now);
    GrantStores(g.(pending := None), g.pending.value, now);
  }

  lemma AnswersForLease(g: Engine, e: Event, l: Lease, now: int)
    requires e.ip.Remote? && Settled(e.host) && Holds(g, GrantKey(e), l) && g.settings.enabled
    requires g.settings.bridgeEnabled
    ensures TrustedAt(g, e.ip, e.host, now) <==> now < l.expires
  {
    hide LeaseKey, Settled;
    KeysAgreeExactlyWhen(TextOf(e.ip), e.host);
  }

  /**
   A login is trusted from its grant until its lease expires. For a settled host, as long as no step has ended
   the lease and both switches are on, the answer is yes exactly before the earlier of the event's end and the
   configured time after the grant.
   */
  lemma LoginIsTrustedUntilItExpires(start: Engine, ticks: seq<Tick>, i: nat, n: nat, now: int)
    requires i < n <= |ticks| && ticks[i].step.Apply? && LoginPending(StateAt(start, ticks, i))
    requires var g := StateAt(start, ticks, i);
             var e := g.pending.value;
             && Grants(g, e, ticks[i].now) && e.ip.Remote? && Settled(e.host)
             && Unended(start, ticks, i + 1, n, GrantKey(e), NewLease(g, e, ticks[i].now))
    requires StateAt(start, ticks, n).settings.enabled && StateAt(start, ticks, n).settings.bridgeEnabled
    ensures var g := StateAt(start, ticks, i);
            var e := g.pending.value;
            TrustedAt(StateAt(start, ticks, n), e.ip, e.host, now) <==>
            now < e.expires && now < ticks[i].now + g.settings.ttl
  {
    hide Grants, Settled, Unended, GrantKey, Holds, TrustedAt, Next;
    var g := StateAt(start, ticks, i);
    var e := g.pending.value;
    var l, after := NewLease(g, e, ticks[i].now), i + 1;
    assert StateAt(start, ticks, after) == Next(g, ticks[i].step, ticks[i].now);
    hide StateAt;
    ApplyStores(g, ticks[i].now);
    LeaseLivesExactlyUntil(start, ticks, after, n, GrantKey(e), l);
    assert Holds(StateAt(start, ticks, n), GrantKey(e), l);
    AnswersForLease(StateAt(start, ticks, n), e, l, now);
  }

  // ------------------------------------------------------------------------- replays

  /** The step forgets which logins were seen: a restart, or a new login when 8192 are remembered. */
  predicate Forgets(g: Engine, step: Step) {
    step.Restart? || (step.Apply? && LoginPending(g) && g.pending.value.id !in g.seen && |g.seen| >= 8192)
  }

  lemma SeenStaysExactlyWhen(g: Engine, step: Step, now: int, id: string)
    requires id in g.seen
    ensures id in Next(g, step, now).seen <==> !Forgets(g, step)
  {
    hide GrantKey, KeyOf, Accepts, Roomy;
  }

  lemma ApplyingRemembers(g: Engine, now: int)
    requires LoginPending(g)
    ensures g.pending.value.id in Next(g, Apply, now).seen
  {
    hide GrantKey, KeyOf, Roomy;
  }

  lemma {:induction false} StaysSeen(start: Engine, ticks: seq<Tick>, i: nat, n: nat, id: string)
    requires i <= n <= |ticks| && id in StateAt(start, ticks, i).seen
    requires forall k :: i <= k < n ==> !Forgets(StateAt(start, ticks, k), ticks[k].step)
    ensures id in StateAt(start, ticks, n).seen
  {
    hide Next, Forgets;
    if i < n {
      StaysSeen(start, ticks, i, n - 1, id);
      SeenStaysExactlyWhen(StateAt(start, ticks, n - 1), ticks[n - 1].step, ticks[n - 1].now, id);
    }
  }

  /** A login that comes a second time under its identifier changes nothing, until what was seen is forgotten. */
  lemma ReplayIsIgnored(start: Engine, ticks: seq<Tick>, i: nat, n: nat)
    requires i < n < |ticks| && ticks[i].step.Apply? && ticks[n].step.Apply?
    requires LoginPending(StateAt(start, ticks, i)) && LoginPending(StateAt(start, ticks, n))
    requires StateAt(start, ticks, i).pending.value.id == StateAt(start, ticks, n).pending.value.id
    requires forall k :: i < k < n ==> !Forgets(StateAt(start, ticks, k), ticks[k].step)
    ensures StateAt(start, ticks, n + 1) == StateAt(start, ticks, n).(pending := None)
  {
    hide Forgets, Roomy, GrantKey;
    var g, after := StateAt(start, ticks, i), i + 1;
    assert StateAt(start, ticks, after) == Next(g, Apply, ticks[i].now);
    ApplyingRemembers(g, ticks[i].now);
    StaysSeen(start, ticks, after, n, g.pending.value.id);
    ReplayChangesNothing(StateAt(start, ticks, n), ticks[n].now);
  }

  lemma ReplayChangesNothing(g: Engine, now: int)
    requires LoginPending(g) && g.pending.value.id in g.seen
    ensures Next(g, Apply, now) == g.(pending := None)
  {
  }

  // ------------------------------------------------------------------------ settings

  /** Valid settings are kept as they are; a value out of its bounds, and only that, is replaced by its default. */
  lemma SettingsAreKeptWithinBounds(s: Settings)
    ensures var t := Sanitized(s);
            && t.enabled == s.enabled && t.bridgeEnabled == s.bridgeEnabled
            && (t.ttl == s.ttl || t.ttl == 7200) && (t.skew == s.skew || t.skew == 300)
            && (t == s <==> 60 <= s.ttl <= 7200 && 30 <= s.skew <= 3600)
            && Sanitized(t) == t
  {
  }

  /** What a lease on the table promises about its stamps. */
  predicate Stamped(g: Engine, clock: int) {
    && (forall k :: k in g.leases ==> g.leases[k].issued <= g.leases[k].granted + 3600)
    && (LoginPending(g) ==> g.pending.value.issued <= clock + 3600)
  }

  lemma GrantStaysStamped(g: Engine, e: Event, now: int)
    requires e.issued <= now + 3600 && forall k :: k in g.leases ==> g.leases[k].issued <= g.leases[k].granted + 3600
    ensures forall k :: k in Granted(g, e, now).leases ==>
              Granted(g, e, now).leases[k].issued <= Granted(g, e, now).leases[k].granted + 3600
  {
    hide GrantKey;
  }

  lemma StepStaysStamped(g: Engine, step: Step, clock: int, now: int)
    requires Stamped(g, clock) && clock <= now && Bounded(g.settings)
    ensures Stamped(Next(g, step, now), now)
  {
    hide GrantKey, KeyOf, Granted;
    if step.Apply? && LoginPending(g) {
      GrantStaysStamped(g.(pending := None), g.pending.value, now);
      GrantingIsLocal(g.(pending := None), g.pending.value, now);
    }
  }

  lemma ClockIsEarlier(clock: int, ticks: seq<Tick>, n: nat)
    requires Run(clock, ticks) && n < |ticks|
    ensures ClockAt(clock, ticks, n) <= ticks[n].now
  {
  }

  /** On every run no lease was issued more than an hour after it was stored. */
  lemma {:induction false} LeasesAreNotFromTheFuture(start: Engine, clock: int, ticks: seq<Tick>, n: nat)
    requires Capped(start, clock) && Stamped(start, clock) && Run(clock, ticks) && n <= |ticks|
    ensures Stamped(StateAt(start, ticks, n), ClockAt(clock, ticks, n))
  {
    hide Stamped, Next, Capped, Current, Bounded, GrantsOnlyNew, Run;
    if n > 0 {
      var g, t := StateAt(start, ticks, n - 1), ticks[n - 1];
      LeasesAreNotFromTheFuture(start, clock, ticks, n - 1);
      RunIsCapped(start, clock, ticks, n - 1);
      CappedIsBounded(g, ClockAt(clock, ticks, n - 1));
      ClockIsEarlier(clock, ticks, n - 1);
      StepStaysStamped(g, t.step, ClockAt(clock, ticks, n - 1), t.now);
    }
  }

  lemma NothingStamped(clock: int)
    requires 0 <= clock
    ensures Stamped(Started(None, None), clock) && Capped(Started(None, None), clock)
  {
  }

  lemma CappedIsBounded(g: Engine, clock: int)
    requires Capped(g, clock)
    ensures Bounded(g.settings)
  {
  }
}
