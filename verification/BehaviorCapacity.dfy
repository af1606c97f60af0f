/**
 Capacity of the behaviour model (control/behavior.go): bounded profiles and remote ports, the
 eviction loops of Configure, and the counter of dropped observations.
 */
module BehaviorCapacity {
  function Smaller(a: int, b: int): int {
    if a < b then a else b
  }

  /** `kept` is what remains of `all` under the capacity when the lightest entries go first. */
  ghost predicate KeepsTheHeaviest<K>(all: map<K, int>, kept: map<K, int>, capacity: int) {
    && kept.Keys <= all.Keys && (forall k :: k in kept ==> kept[k] == all[k])
    && |kept| == Smaller(|all|, if capacity < 0 then 0 else capacity)
    && forall gone, k :: gone in all && gone !in kept && k in kept ==> all[gone] <= all[k]
  }

  lemma OneLess<K>(m: map<K, int>, k: K)
    requires k in m
    ensures |m - {k}| == |m| - 1
  {
    assert (m - {k}).Keys == m.Keys - {k};
  }

  ghost predicate LightestOf<K>(m: map<K, int>, k: K) {
    k in m && forall other :: other in m ==> m[k] <= m[other]
  }

  /** Removing a lightest entry from the heaviest so far keeps the heaviest. */
  lemma EvictLightest<K>(all: map<K, int>, kept: map<K, int>, k: K)
    requires KeepsTheHeaviest(all, kept, |kept|) && LightestOf(kept, k)
    ensures KeepsTheHeaviest(all, kept - {k}, |kept| - 1)
  {
    OneLess(kept, k);
    FewerKeys(all, kept);
  }

  lemma FewerKeys<K>(all: map<K, int>, kept: map<K, int>)
    requires kept.Keys <= all.Keys
    ensures |kept| <= |all|
  {
    assert all.Keys == kept.Keys + (all.Keys - kept.Keys);
  }

  /** The entry with the least count; None when there is none. */
  method LeastUsed(ports: map<int, int>) returns (candidate: int, found: bool)
    ensures found <==> ports != map[]
    ensures found ==> LightestOf(ports, candidate)
  {
    candidate, found := 0, false;
    var left := ports.Keys;
    while left != {}
      invariant left <= ports.Keys && (found <==> left != ports.Keys)
      invariant found ==> candidate in ports && forall k :: k in ports && k !in left ==> ports[candidate] <= ports[k]
    {
      NotEmpty(left);
      var port :| port in left;
      if !found || ports[port] < ports[candidate] {
        candidate, found := port, true;
      }
      left := left - {port};
    }
  }

  lemma NotEmpty(keys: set<int>)
    ensures keys == {} || exists k :: k in keys
  {
    if forall k :: k !in keys {
      assert keys == {};
    }
  }

  /** The least recently seen profile. The source marks "none yet" with the empty name. */
  method Oldest(lastSeen: map<string, int>) returns (oldest: string)
    ensures oldest != "" ==> oldest in lastSeen
    ensures "" !in lastSeen && lastSeen != map[] ==> oldest != "" && LightestOf(lastSeen, oldest)
  {
    oldest := "";
    var seen := 0;
    var left := lastSeen.Keys;
    while left != {}
      invariant left <= lastSeen.Keys && (oldest != "" ==> oldest in lastSeen && seen == lastSeen[oldest])
      invariant "" !in lastSeen ==>
                  && (oldest == "" <==> left == lastSeen.Keys)
                  && (oldest != "" ==> forall k :: k in lastSeen && k !in left ==> lastSeen[oldest] <= lastSeen[k])
    {
      var key :| key in left;
      if oldest == "" || lastSeen[key] < seen {
        oldest, seen := key, lastSeen[key];
      }
      left := left - {key};
    }
  }

  /** The profile loop of Configure; a profile without a name would stop it early. */
  method EvictProfiles(lastSeen: map<string, int>, maxProfiles: int) returns (kept: map<string, int>, dropped: nat)
    ensures kept.Keys <= lastSeen.Keys && dropped == |lastSeen| - |kept|
    ensures "" !in lastSeen ==> KeepsTheHeaviest(lastSeen, kept, maxProfiles)
  {
    kept, dropped := lastSeen, 0;
    while |kept| > maxProfiles
      invariant kept.Keys <= lastSeen.Keys && dropped == |lastSeen| - |kept|
      invariant "" !in lastSeen ==>
                KeepsTheHeaviest(lastSeen, kept, |kept|) && |kept| >= Smaller(|lastSeen|, maxProfiles)
      decreases |kept|
    {
      var oldest := Oldest(kept);
      if oldest == "" {
        break;
      }
      OneLess(kept, oldest);
      if "" !in lastSeen {
        EvictLightest(lastSeen, kept, oldest);
      }
      kept := kept - {oldest};
      dropped := dropped + 1;
    }
  }

  /** The port loop of Configure, for one profile. */
  method EvictPorts(ports: map<int, int>, maxPorts: int) returns (kept: map<int, int>, dropped: nat)
    ensures KeepsTheHeaviest(ports, kept, maxPorts) && dropped == |ports| - |kept|
  {
    kept, dropped := ports, 0;
    while |kept| > maxPorts
      invariant KeepsTheHeaviest(ports, kept, |kept|) && dropped == |ports| - |kept|
      invariant |kept| >= Smaller(|ports|, maxPorts)
      decreases |kept|
    {
      var candidate, found := LeastUsed(kept);
      if !found {
        break;
      }
      OneLess(kept, candidate);
      EvictLightest(ports, kept, candidate);
      kept := kept - {candidate};
      dropped := dropped + 1;
    }
  }

  // ------------------------------------------------------------ learning ports

  ghost function Total(ports: map<int, int>): int {
    if ports == map[] then 0 else NotEmpty(ports.Keys); var k :| k in ports; ports[k] + Total(ports - {k})
  }

  lemma {:induction false} TotalSplits(ports: map<int, int>, k: int)
    requires k in ports
    ensures Total(ports) == ports[k] + Total(ports - {k})
    decreases |ports|
  {
    var x :| x in ports && Total(ports) == ports[x] + Total(ports - {x});
    if x != k {
      OneLess(ports, x);
      OneLess(ports, k);
      TotalSplits(ports - {x}, k);
      TotalSplits(ports - {k}, x);
      assert ports - {x} - {k} == ports - {k} - {x};
    }
  }

  lemma TotalUpdate(ports: map<int, int>, k: int, n: int)
    ensures Total(ports[k := n]) == Total(ports) + n - (if k in ports then ports[k] else 0)
  {
    TotalSplits(ports[k := n], k);
    assert ports[k := n] - {k} == ports - {k};
    if k in ports {
      TotalSplits(ports, k);
    } else {
      assert ports - {k} == ports;
    }
  }

  lemma OneMore(ports: map<int, int>, k: int, n: int)
    ensures |ports[k := n]| == |ports| + if k in ports then 0 else 1
  {
    assert ports[k := n].Keys == ports.Keys + {k};
  }

  /** What learning made of the table after the observed ports in `seen`. */
  ghost predicate Learnt(known: map<int, int>, ports: map<int, int>, seen: set<int>, maxPorts: int) {
    && |known| <= |ports| && (|ports| > |known| ==> |ports| <= maxPorts)
    && known.Keys <= ports.Keys <= known.Keys + seen
    && (forall p :: p in known ==> ports[p] == known[p] + if p in seen then 1 else 0)
    && (forall p :: p in seen && p !in known ==> if p in ports then ports[p] == 1 else |ports| >= maxPorts)
  }

  /** Every observation in `seen` is counted in the table or dropped. */
  ghost predicate Balanced(known: map<int, int>, ports: map<int, int>, seen: set<int>, dropped: nat) {
    Total(ports) + dropped == Total(known) + |seen| && dropped == |seen - ports.Keys|
  }

  lemma NothingLearnt(known: map<int, int>, maxPorts: int)
    ensures Learnt(known, known, {}, maxPorts) && Balanced(known, known, {}, 0)
  {
    hide Total;
  }

  lemma DropNew(known: map<int, int>, ports: map<int, int>, seen: set<int>, maxPorts: int, port: int)
    requires Learnt(known, ports, seen, maxPorts) && port !in seen && port !in ports && |ports| >= maxPorts
    ensures Learnt(known, ports, seen + {port}, maxPorts)
  {
  }

  lemma DropOneMore(known: map<int, int>, ports: map<int, int>, seen: set<int>, port: int, dropped: nat)
    requires Balanced(known, ports, seen, dropped) && port !in seen && port !in ports
    ensures Balanced(known, ports, seen + {port}, dropped + 1)
  {
    hide Total;
    CardinalityStep(seen, port);
    CardinalityStep(seen - ports.Keys, port);
    assert (seen + {port}) - ports.Keys == (seen - ports.Keys) + {port};
  }

  lemma CardinalityStep(s: set<int>, x: int)
    requires x !in s
    ensures |s + {x}| == |s| + 1
  {
  }

  lemma CountOneMore(known: map<int, int>, ports: map<int, int>, seen: set<int>, port: int, n: int, dropped: nat)
    requires Balanced(known, ports, seen, dropped) && port !in seen
    requires n == (if port in ports then ports[port] else 0) + 1
    ensures Balanced(known, ports[port := n], seen + {port}, dropped)
  {
    hide Total;
    TotalUpdate(ports, port, n);
    assert (seen + {port}) - ports[port := n].Keys == seen - ports.Keys;
  }

  lemma CountKnown(known: map<int, int>, ports: map<int, int>, seen: set<int>, maxPorts: int, port: int)
    requires Learnt(known, ports, seen, maxPorts) && port !in seen && port in ports
    ensures Learnt(known, ports[port := ports[port] + 1], seen + {port}, maxPorts)
  {
    assert port in known;
    OneMore(ports, port, ports[port] + 1);
  }

  lemma CountNew(known: map<int, int>, ports: map<int, int>, seen: set<int>, maxPorts: int, port: int)
    requires Learnt(known, ports, seen, maxPorts) && port !in seen && port !in ports && |ports| < maxPorts
    ensures Learnt(known, ports[port := 1], seen + {port}, maxPorts)
  {
    OneMore(ports, port, 1);
  }

  /**
   The port loop of ObserveNetwork: every observed port is counted once or dropped once, known ports
   are always counted, and a new one is dropped only when the table is full.
   */
  method LearnPorts(known: map<int, int>, observed: set<int>, maxPorts: int)
    returns (ports: map<int, int>, dropped: nat)
    ensures Learnt(known, ports, observed, maxPorts) && Balanced(known, ports, observed, dropped)
  {
    hide Total, Learnt, Balanced;
    ports, dropped := known, 0;
    NothingLearnt(known, maxPorts);
    var left := observed;
    ghost var seen := {};
    while left != {}
      invariant left !! seen && left + seen == observed
      invariant Learnt(known, ports, seen, maxPorts) && Balanced(known, ports, seen, dropped)
      decreases left
    {
      NotEmpty(left);
      var port :| port in left;
      if port !in ports && |ports| >= maxPorts {
        DropNew(known, ports, seen, maxPorts, port);
        DropOneMore(known, ports, seen, port, dropped);
        dropped := dropped + 1;
      } else if port in ports {
        CountKnown(known, ports, seen, maxPorts, port);
        CountOneMore(known, ports, seen, port, ports[port] + 1, dropped);
        ports := ports[port := ports[port] + 1];
      } else {
        CountNew(known, ports, seen, maxPorts, port);
        CountOneMore(known, ports, seen, port, 1, dropped);
        ports := ports[port := 1];
      }
      left := left - {port};
      seen := seen + {port};
    }
    assert seen == observed;
  }
}
