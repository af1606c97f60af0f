/**
 Expiry of temporary network blocks as one transaction over the block table, the kernel
 rules and the signed policy (control/block_expiry.go).

 Whether an entry has expired, and which core, policy and evidence calls succeed, are
 inputs. A failed call changes nothing; a succeeding one does what its name says.
 */
module BlockExpiry {
  import opened Options

  datatype Block = Block(target: string, id: string, reason: string, source: string, created: int, expires: int,
                         enforced: bool)

  /** `policy` is None when the process runs without policy persistence. */
  datatype Host = Host(blocks: map<string, Block>, kernel: set<string>, policy: Option<map<string, Block>>,
                       failSafes: nat, kineticExpired: nat)

  /** What the outside world answers during one pass. */
  datatype World = World(expired: set<string>, hasCore: bool, deletes: string -> bool, adds: string -> bool,
                         persists: bool, records: string -> bool, hasRelease: bool)

  predicate Keyed(m: map<string, Block>) {
    forall k :: k in m ==> m[k].target == k
  }

  function EnforcedIn(m: map<string, Block>): set<string> {
    set k | k in m && m[k].enforced
  }

  /** Block table, kernel and signed policy describe the same rules. */
  predicate Agree(h: Host) {
    && Keyed(h.blocks)
    && h.kernel == EnforcedIn(h.blocks)
    && (h.policy.Some? ==> h.policy.value == h.blocks)
  }

  // ------------------------------------------------------------ specification

  /** Expired entries whose kernel rule, if any, could be deleted. */
  function Going(m: map<string, Block>, w: World): set<string> {
    set k | k in m && k in w.expired && (m[k].enforced ==> w.hasCore && w.deletes(k))
  }

  /** Expired entries that could not be. */
  function Deferred(m: map<string, Block>, w: World): set<string> {
    (set k | k in m && k in w.expired) - Going(m, w)
  }

  predicate PersistFails(h: Host, w: World) {
    Going(h.blocks, w) != {} && h.policy.Some? && !w.persists
  }

  /** Kernel rules that the rollback cannot put back. */
  function Stranded(m: map<string, Block>, w: World): set<string> {
    set k | k in Going(m, w) && m[k].enforced && !w.adds(k)
  }

  function KineticIn(m: map<string, Block>, keys: set<string>): set<string> {
    set k | k in keys && k in m && m[k].source == "kinetic"
  }

  predicate EvidenceFails(m: map<string, Block>, w: World) {
    exists k :: k in KineticIn(m, Going(m, w)) && !w.records(k)
  }

  predicate FailSafeDue(h: Host, w: World) {
    && w.hasRelease
    && if PersistFails(h, w) then Stranded(h.blocks, w) != {} else EvidenceFails(h.blocks, w)
  }

  /** The host after one pass. */
  function After(h: Host, w: World): Host {
    var going := Going(h.blocks, w);
    var alarm := if FailSafeDue(h, w) then 1 else 0;
    if PersistFails(h, w) then
      h.(kernel := (h.kernel + (going * EnforcedIn(h.blocks))) - Stranded(h.blocks, w),
         failSafes := h.failSafes + alarm)
    else
      var blocks := h.blocks - going;
      h.(blocks := blocks, kernel := h.kernel - (going * EnforcedIn(h.blocks)),
         policy := if h.policy.Some? && going != {} then Some(blocks) else h.policy,
         failSafes := h.failSafes + alarm, kineticExpired := h.kineticExpired + |KineticIn(h.blocks, going)|)
  }

  /** What the pass reports as removed. */
  function Reported(h: Host, w: World): map<string, Block> {
    if PersistFails(h, w) then map[] else map k | k in h.blocks && k in Going(h.blocks, w) :: h.blocks[k]
  }

  // ------------------------------------------------------------------ theorems

  /** The entry has expired and its kernel rule, if it has one, is deleted. */
  predicate Expires(h: Host, w: World, k: string) {
    k in h.blocks && k in w.expired && (h.blocks[k].enforced ==> w.hasCore && w.deletes(k))
  }

  /** The policy could not be written, and some deleted rule could not be put back. */
  ghost predicate RestoresInVain(h: Host, w: World) {
    h.policy.Some? && !w.persists && exists k :: Expires(h, w, k) && h.blocks[k].enforced && !w.adds(k)
  }

  /** The removal stands, and for some kinetic block it could not be recorded. */
  ghost predicate LosesEvidence(h: Host, w: World) {
    (h.policy.None? || w.persists) && exists k :: Expires(h, w, k) && h.blocks[k].source == "kinetic" && !w.records(k)
  }

  /**
   The fail-safe is raised, once, exactly when there is a release controller and a deleted rule could not be put
   back or the removal of a kinetic block could not be recorded.
   */
  lemma AlarmExactlyWhen(h: Host, w: World)
    ensures After(h, w).failSafes ==
            h.failSafes + if w.hasRelease && (RestoresInVain(h, w) || LosesEvidence(h, w)) then 1 else 0
  {
    var going := Going(h.blocks, w);
    assert forall k :: k in going <==> Expires(h, w, k);
    if RestoresInVain(h, w) {
      var k :| Expires(h, w, k) && h.blocks[k].enforced && !w.adds(k);
      assert k in going && k in Stranded(h.blocks, w);
    }
    if PersistFails(h, w) && Stranded(h.blocks, w) != {} {
      var k :| k in Stranded(h.blocks, w);
      assert Expires(h, w, k);
    }
    if LosesEvidence(h, w) {
      var k :| Expires(h, w, k) && h.blocks[k].source == "kinetic" && !w.records(k);
      assert k in KineticIn(h.blocks, going);
    }
    if EvidenceFails(h.blocks, w) {
      var k :| k in KineticIn(h.blocks, going) && !w.records(k);
      assert Expires(h, w, k) && h.blocks[k].source == "kinetic";
    }
  }

  /** The counter of expired kinetic blocks grows by exactly those that are reported as removed. */
  lemma KineticIsCounted(h: Host, w: World)
    ensures var reported := Reported(h, w);
            After(h, w).kineticExpired == h.kineticExpired + |set k | k in reported && reported[k].source == "kinetic"|
  {
    var reported := Reported(h, w);
    var kinetic := set k | k in reported && reported[k].source == "kinetic";
    if PersistFails(h, w) {
      assert kinetic == {};
    } else {
      assert kinetic == KineticIn(h.blocks, Going(h.blocks, w));
    }
  }

  /**
   A pass keeps the three in agreement exactly when it is not rolling back a kernel rule it
   cannot restore, and with a release controller that one case raises the fail-safe.
   */
  lemma PassAgreesExactlyWhen(h: Host, w: World)
    requires Agree(h)
    ensures Agree(After(h, w)) <==> !PersistFails(h, w) || Stranded(h.blocks, w) == {}
    ensures w.hasRelease ==> Agree(After(h, w)) || After(h, w).failSafes == h.failSafes + 1
    ensures !w.hasRelease ==> After(h, w).failSafes == h.failSafes
  {
    var n := After(h, w);
    var going := Going(h.blocks, w);
    if PersistFails(h, w) {
      assert n.kernel == h.kernel - Stranded(h.blocks, w);
      assert Stranded(h.blocks, w) <= h.kernel;
      if k :| k in Stranded(h.blocks, w) {
        assert k in h.kernel && k !in n.kernel;
      }
    } else {
      forall k
        ensures k in n.kernel <==> k in EnforcedIn(n.blocks)
      {
      }
      assert going == {} ==> n.blocks == h.blocks;
    }
  }

  /** A kernel that takes a rule away but not back, and a policy that cannot be written. */
  lemma StrandedRule() returns (h: Host, w: World)
    ensures Agree(h) && !Agree(After(h, w)) && "t" in After(h, w).blocks && "t" !in After(h, w).kernel
  {
    var b := Block("t", "id", "reason", "kinetic", 0, 1, true);
    h := Host(map["t" := b], {"t"}, Some(map["t" := b]), 0, 0);
    w := World({"t"}, true, (_: string) => true, (_: string) => false, false, (_: string) => true, true);
    assert "t" in Stranded(h.blocks, w);
    PassAgreesExactlyWhen(h, w);
  }

  predicate InAllThree(h: Host, b: Block) {
    && b.target in h.blocks && h.blocks[b.target] == b
    && (b.enforced ==> b.target in h.kernel)
    && (h.policy.Some? ==> b.target in h.policy.value && h.policy.value[b.target] == b)
  }

  predicate InNone(h: Host, target: string) {
    target !in h.blocks && target !in h.kernel && (h.policy.Some? ==> target !in h.policy.value)
  }

  /** Deferred and unexpired blocks stay in all three; a reported one leaves all three; nothing else changes hands. */
  lemma EveryBlockIsAccountedFor(h: Host, w: World, k: string)
    requires Agree(h) && k in h.blocks
    ensures k !in Going(h.blocks, w) ==> InAllThree(After(h, w), h.blocks[k])
    ensures k in Reported(h, w) ==> Reported(h, w)[k] == h.blocks[k] && InNone(After(h, w), k)
    ensures k !in Reported(h, w) ==> k in After(h, w).blocks && After(h, w).blocks[k] == h.blocks[k]
    ensures k in Going(h.blocks, w) && PersistFails(h, w) && k !in Stranded(h.blocks, w) ==>
            InAllThree(After(h, w), h.blocks[k])
  {
    var going := Going(h.blocks, w);
    assert going == {} ==> After(h, w).blocks == h.blocks;
  }

  /** A run of passes, each under the answers of its own world. */
  ghost predicate Passes(hosts: seq<Host>, worlds: seq<World>) {
    && |hosts| == |worlds| + 1
    && forall i :: 0 <= i < |worlds| ==> hosts[i + 1] == After(hosts[i], worlds[i])
  }

  /** How many passes up to the n-th reported the target as removed. */
  ghost function TimesReported(hosts: seq<Host>, worlds: seq<World>, n: nat, k: string): nat
    requires n <= |worlds| < |hosts|
  {
    if n == 0 then 0
    else TimesReported(hosts, worlds, n - 1, k) + if k in Reported(hosts[n - 1], worlds[n - 1]) then 1 else 0
  }

  /**
   Over any run of passes with a release controller and no fail-safe, the three agree throughout,
   and every block of the start is either still in all three or was reported removed exactly once.
   */
  lemma {:induction false} BlocksAreConserved(hosts: seq<Host>, worlds: seq<World>, n: nat, k: string)
    requires Passes(hosts, worlds) && n <= |worlds|
    requires Agree(hosts[0]) && k in hosts[0].blocks
    requires forall i :: 0 <= i < n ==> worlds[i].hasRelease
    requires forall i :: 0 <= i <= n ==> hosts[i].failSafes == hosts[0].failSafes
    ensures Agree(hosts[n]) && hosts[n].blocks.Keys <= hosts[0].blocks.Keys
    ensures TimesReported(hosts, worlds, n, k) == if k in hosts[n].blocks then 0 else 1
    ensures if k in hosts[n].blocks then InAllThree(hosts[n], hosts[0].blocks[k]) else InNone(hosts[n], k)
  {
    hide After, Reported;
    if n > 0 {
      var before, w := hosts[n - 1], worlds[n - 1];
      BlocksAreConserved(hosts, worlds, n - 1, k);
      var i := n - 1;
      assert hosts[i + 1] == After(before, w);
      PassAgreesExactlyWhen(before, w);
      OnlyShrinks(before, w);
      if k in before.blocks {
        EveryBlockIsAccountedFor(before, w, k);
      }
    }
  }

  /** A pass adds no block and reports only what the table held. */
  lemma OnlyShrinks(h: Host, w: World)
    ensures After(h, w).blocks.Keys <= h.blocks.Keys && Reported(h, w).Keys <= h.blocks.Keys
  {
  }

  // ---------------------------------------------------------------- the passes

  function Targets(s: seq<Block>): set<string> {
    set b | b in s :: b.target
  }

  predicate Distinct(s: seq<Block>) {
    forall i, j :: 0 <= i < j < |s| ==> s[i].target != s[j].target
  }

  predicate From(s: seq<Block>, m: map<string, Block>) {
    Distinct(s) && forall b :: b in s ==> b.target in m && m[b.target] == b
  }

  lemma TargetsGrow(s: seq<Block>, b: Block)
    ensures Targets(s + [b]) == Targets(s) + {b.target}
  {
  }

  lemma TargetsShrink(s: seq<Block>, n: nat)
    requires n < |s| && Distinct(s)
    ensures Targets(s[n..]) == Targets(s[n + 1..]) + {s[n].target} && s[n].target !in Targets(s[n + 1..])
    ensures Targets(s[..n + 1]) == Targets(s[..n]) + {s[n].target} && s[n].target !in Targets(s[..n])
  {
    assert s[n..] == [s[n]] + s[n + 1..];
    assert s[..n + 1] == s[..n] + [s[n]];
  }

  lemma NoTargets()
    ensures Targets([]) == {} && forall m :: From([], m)
  {
  }

  lemma StillDistinct(s: seq<Block>, b: Block, m: map<string, Block>)
    requires From(s, m) && b.target in m && m[b.target] == b && b.target !in Targets(s)
    ensures From(s + [b], m)
  {
    assert forall x :: x in s ==> x.target in Targets(s);
  }

  /** Keys whose kernel rule, if any, can be deleted. */
  function Deletable(m: map<string, Block>, w: World): set<string> {
    set k | k in m && (m[k].enforced ==> w.hasCore && w.deletes(k))
  }

  /** Kernel rules that the core takes back. */
  function Restored(m: map<string, Block>, w: World): set<string> {
    set k | k in m && m[k].enforced && w.adds(k)
  }

  lemma NothingGoes(h: Host, w: World)
    requires Going(h.blocks, w) == {}
    ensures After(h, w) == h && !PersistFails(h, w) && Reported(h, w) == map[] && !EvidenceFails(h.blocks, w)
  {
    assert h.blocks - {} == h.blocks;
    assert KineticIn(h.blocks, {}) == {};
  }

  lemma SomeTarget(s: seq<Block>)
    requires s != []
    ensures Targets(s) != {}
  {
    assert s[0].target in Targets(s);
  }

  lemma EnforcedNeedsCore(removed: seq<Block>, m: map<string, Block>, w: World)
    requires From(removed, m) && Targets(removed) == Going(m, w)
    ensures forall b :: b in removed && b.enforced ==> w.hasCore
  {
    forall b | b in removed && b.enforced
      ensures w.hasCore
    {
      assert b.target in Targets(removed);
    }
  }

  /** The rollback fails exactly when a rule is stranded, and restores the others. */
  lemma StrandedIsWhatFailed(removed: seq<Block>, h: Host, w: World)
    requires From(removed, h.blocks) && Targets(removed) == Going(h.blocks, w)
    ensures (exists b :: b in removed && b.enforced && !w.adds(b.target)) <==> Stranded(h.blocks, w) != {}
    ensures var taken := Going(h.blocks, w) * EnforcedIn(h.blocks);
            (h.kernel - taken) + Restored(h.blocks, w) * Going(h.blocks, w)
                == (h.kernel + taken) - Stranded(h.blocks, w)
  {
    if b :| b in removed && b.enforced && !w.adds(b.target) {
      assert b.target in Targets(removed);
      assert b.target in Stranded(h.blocks, w);
    }
    if k :| k in Stranded(h.blocks, w) {
      assert k in Targets(removed);
    }
  }

  lemma NoneKinetic(m: map<string, Block>)
    ensures KineticIn(m, {}) == {}
  {
  }

  lemma KineticGrows(m: map<string, Block>, keys: set<string>, b: Block)
    requires b.target in m && m[b.target] == b && b.target !in keys
    ensures var more := KineticIn(m, keys + {b.target});
            if b.source == "kinetic"
            then more == KineticIn(m, keys) + {b.target} && b.target !in KineticIn(m, keys)
            else more == KineticIn(m, keys)
  {
  }

  lemma GoingSplits(h: Host, w: World)
    ensures var candidates := h.blocks.Keys * w.expired;
            && candidates * Deletable(h.blocks, w) == Going(h.blocks, w)
            && candidates - Deletable(h.blocks, w) == Deferred(h.blocks, w)
            && h.blocks - w.expired == h.blocks - candidates
    ensures Reported(h, w).Keys == if PersistFails(h, w) then {} else Going(h.blocks, w)
  {
  }

  class Reconciler {
    var host: Host

    constructor (h: Host)
      ensures host == h
    {
      host := h;
    }

    /** State.Expired: takes the expired entries out of the table. */
    method TakeExpired(expired: set<string>) returns (out: seq<Block>)
      requires Keyed(host.blocks)
      modifies this
      ensures host == old(host).(blocks := old(host).blocks - expired)
      ensures From(out, old(host).blocks) && Targets(out) == old(host).blocks.Keys * expired
    {
      out := [];
      var was := host.blocks;
      var left := was.Keys;
      while left != {}
        invariant left <= was.Keys
        invariant host == old(host).(blocks := was - ((was.Keys - left) * expired))
        invariant From(out, was) && Targets(out) == (was.Keys - left) * expired
      {
        var k :| k in left;
        if k in expired {
          TargetsGrow(out, was[k]);
          assert forall b :: b in out ==> b.target in Targets(out);
          out := out + [was[k]];
          host := host.(blocks := host.blocks - {k});
          assert was - ((was.Keys - (left - {k})) * expired) == was - ((was.Keys - left) * expired) - {k};
        }
        left := left - {k};
      }
      assert was - (was.Keys * expired) == was - expired;
    }

    /** Deletes the kernel rule of each candidate; one whose rule stays goes back into the table. */
    method DeleteRules(candidates: seq<Block>, w: World, ghost was: map<string, Block>)
      returns (removed: seq<Block>, deferred: bool)
      requires From(candidates, was) && host.blocks == was - Targets(candidates)
      modifies this
      ensures From(removed, was) && Targets(removed) == Targets(candidates) * Deletable(was, w)
      ensures deferred <==> Targets(candidates) - Deletable(was, w) != {}
      ensures host == old(host).(blocks := was - Targets(removed),
                                 kernel := old(host).kernel - (Targets(removed) * EnforcedIn(was)))
    {
      hide Targets;
      removed, deferred := [], false;
      assert Targets(removed) == {} && Targets(candidates[..0]) == {} by { NoTargets(); }
      assert candidates[0..] == candidates;
      for n := 0 to |candidates|
        invariant From(removed, was) && Targets(removed) == Targets(candidates[..n]) * Deletable(was, w)
        invariant deferred <==> Targets(candidates[..n]) - Deletable(was, w) != {}
        invariant host == old(host).(blocks := was - Targets(candidates[n..]) - Targets(removed),
                                     kernel := old(host).kernel - (Targets(removed) * EnforcedIn(was)))
      {
        var block := candidates[n];
        TargetsShrink(candidates, n);
        if block.enforced && !(w.hasCore && w.deletes(block.target)) {
          host := host.(blocks := host.blocks[block.target := block]);
          deferred := true;
          assert block.target in Targets(candidates[..n + 1]) - Deletable(was, w);
          assert host.blocks == was - Targets(candidates[n + 1..]) - Targets(removed);
        } else {
          assert Targets(candidates[..n + 1]) - Deletable(was, w) == Targets(candidates[..n]) - Deletable(was, w);
          if block.enforced {
            host := host.(kernel := host.kernel - {block.target});
          }
          TargetsGrow(removed, block);
          StillDistinct(removed, block, was);
          assert (Targets(removed) + {block.target}) * EnforcedIn(was)
              == Targets(removed) * EnforcedIn(was) + (if block.enforced then {block.target} else {});
          removed := removed + [block];
          assert host.blocks == was - Targets(candidates[n + 1..]) - Targets(removed);
        }
      }
      assert candidates[..|candidates|] == candidates;
      assert candidates[|candidates|..] == [];
      NoTargets();
    }

    /** Puts removed blocks back into the table and their rules back into the kernel. */
    method Rollback(removed: seq<Block>, w: World, ghost was: map<string, Block>) returns (failed: bool)
      requires From(removed, was) && host.blocks == was - Targets(removed)
      requires forall b :: b in removed && b.enforced ==> w.hasCore
      modifies this
      ensures host == old(host).(blocks := was, kernel := old(host).kernel + Restored(was, w) * Targets(removed))
      ensures failed <==> exists b :: b in removed && b.enforced && !w.adds(b.target)
    {
      hide Targets;
      failed := false;
      assert Targets(removed[..0]) == {} by { NoTargets(); }
      assert removed[0..] == removed;
      for n := 0 to |removed|
        invariant host == old(host).(blocks := was - Targets(removed[n..]),
                                     kernel := old(host).kernel + Restored(was, w) * Targets(removed[..n]))
        invariant failed <==> exists b :: b in removed[..n] && b.enforced && !w.adds(b.target)
      {
        var block := removed[n];
        TargetsShrink(removed, n);
        host := host.(blocks := host.blocks[block.target := block]);
        assert host.blocks == was - Targets(removed[n + 1..]);
        assert removed[..n + 1] == removed[..n] + [block];
        if block.enforced {
          // The branch for a missing core is never taken: an enforced block is only removed with one.
          assert w.hasCore;
          if w.adds(block.target) {
            host := host.(kernel := host.kernel + {block.target});
          } else {
            failed := true;
          }
        }
        assert Restored(was, w) * (Targets(removed[..n]) + {block.target})
            == Restored(was, w) * Targets(removed[..n])
                + (if block.enforced && w.adds(block.target) then {block.target} else {});
      }
      assert removed[..|removed|] == removed;
      assert removed[|removed|..] == [];
      NoTargets();
    }

    /** Counts the kinetic blocks and records evidence for each. */
    method RecordExpiry(removed: seq<Block>, w: World, ghost was: map<string, Block>)
      returns (kinetic: nat, failed: bool)
      requires From(removed, was)
      ensures kinetic == |KineticIn(was, Targets(removed))|
      ensures failed <==> exists k :: k in KineticIn(was, Targets(removed)) && !w.records(k)
    {
      hide Targets, KineticIn;
      kinetic, failed := 0, false;
      NoTargets();
      assert removed[..0] == [];
      NoneKinetic(was);
      for n := 0 to |removed|
        invariant kinetic == |KineticIn(was, Targets(removed[..n]))|
        invariant failed <==> exists k :: k in KineticIn(was, Targets(removed[..n])) && !w.records(k)
      {
        var block := removed[n];
        TargetsShrink(removed, n);
        KineticGrows(was, Targets(removed[..n]), block);
        if block.source == "kinetic" {
          kinetic := kinetic + 1;
          failed := failed || !w.records(block.target);
        }
      }
      assert removed[..|removed|] == removed;
    }

    /** The removal is durable, or everything is put back. */
    method Commit(removed: seq<Block>, w: World, ghost was: Host) returns (reported: seq<Block>, ok: bool)
      requires removed != [] && From(removed, was.blocks) && Targets(removed) == Going(was.blocks, w)
      requires host == was.(blocks := was.blocks - Going(was.blocks, w),
                            kernel := was.kernel - (Going(was.blocks, w) * EnforcedIn(was.blocks)))
      modifies this
      ensures host == After(was, w)
      ensures ok <==> !PersistFails(was, w) && !EvidenceFails(was.blocks, w)
      ensures reported == if PersistFails(was, w) then [] else removed
    {
      hide Targets, From, Stranded, KineticIn, EnforcedIn, Restored, Going;
      SomeTarget(removed);
      if host.policy.Some? && !w.persists {
        EnforcedNeedsCore(removed, was.blocks, w);
        var failed := Rollback(removed, w, was.blocks);
        StrandedIsWhatFailed(removed, was, w);
        if failed && w.hasRelease {
          host := host.(failSafes := host.failSafes + 1);
        }
        return [], false;
      }
      if host.policy.Some? {
        host := host.(policy := Some(host.blocks));
      }
      var kinetic, failed := RecordExpiry(removed, w, was.blocks);
      host := host.(kineticExpired := host.kineticExpired + kinetic,
                    failSafes := host.failSafes + if failed && w.hasRelease then 1 else 0);
      return removed, !failed;
    }

    /** reconcileExpiredNetworkBlocks */
    method Reconcile(w: World) returns (removed: seq<Block>, ok: bool)
      requires Keyed(host.blocks)
      modifies this
      ensures host == After(old(host), w)
      ensures From(removed, old(host).blocks) && Targets(removed) == Reported(old(host), w).Keys
      ensures ok <==>
              !PersistFails(old(host), w) && Deferred(old(host).blocks, w) == {} && !EvidenceFails(old(host).blocks, w)
    {
      hide Targets, From, After, Going, Deletable, Deferred, EnforcedIn, EvidenceFails, PersistFails, Reported;
      ghost var start := host;
      var candidates := TakeExpired(w.expired);
      GoingSplits(start, w);
      var taken, deferred := DeleteRules(candidates, w, start.blocks);
      NoTargets();
      if taken == [] {
        NothingGoes(start, w);
        return [], !deferred;
      }
      removed, ok := Commit(taken, w, start);
      ok := ok && !deferred;
    }
  }
}
