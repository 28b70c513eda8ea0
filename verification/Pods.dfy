/**
 Counting pods: the loops that count the cluster's pods one by one and conclude that every node is
 there and in order.

 Models the readyCount loop of reconcileAutoscaling (internal/controller/autoscaler.go),
 imageRolledOut (internal/controller/kahunacluster_controller.go) and backupBlocked
 (internal/controller/backup.go).
 */
module Pods {
  import opened Options
  import opened Naming
  import opened Kahuna
  import opened Roster
  import opened Plan

  /** A pod as the loops look at it: `configured` and `imaged` say that it runs the current script and image. */
  datatype PodState = PodState(name: string, ready: bool, deleting: bool, configured: bool, imaged: bool)

  predicate InRange(p: PodState, n: int) {
    0 <= OrdinalOf(p.name) < n
  }

  predicate Serving(p: PodState) {
    p.ready && !p.deleting
  }

  predicate Imaged(p: PodState) {
    Serving(p) && p.imaged
  }

  predicate Steady(p: PodState) {
    Serving(p) && p.configured && p.imaged
  }

  /** How many pods below ordinal n satisfy the test. */
  function CountOf(pods: seq<PodState>, n: int, test: PodState -> bool): nat {
    if pods == [] then 0
    else
      var last := pods[|pods| - 1];
      CountOf(pods[..|pods| - 1], n, test) + if InRange(last, n) && test(last) then 1 else 0
  }

  function Any(p: PodState): bool { true }

  /** Their ordinals. */
  function OrdinalsOf(pods: seq<PodState>, n: int, test: PodState -> bool): set<nat> {
    set p | p in pods && InRange(p, n) && test(p) :: OrdinalOf(p.name)
  }

  ghost predicate IsNamed(c: Cluster, p: PodState) {
    exists o: nat :: o < TWO_31 && p.name == PodName(c, o)
  }

  /** The pods of a StatefulSet: each named after an ordinal, no name twice. */
  ghost predicate OfCluster(c: Cluster, pods: seq<PodState>) {
    && (forall k :: 0 <= k < |pods| ==> IsNamed(c, pods[k]))
    && (forall i, j :: 0 <= i < j < |pods| ==> pods[i].name != pods[j].name)
  }

  lemma OrdinalNamesPod(c: Cluster, pods: seq<PodState>, k: nat)
    requires OfCluster(c, pods) && k < |pods|
    ensures 0 <= OrdinalOf(pods[k].name) < TWO_31 && pods[k].name == PodName(c, OrdinalOf(pods[k].name))
  {
    assert IsNamed(c, pods[k]);
    var o: nat :| o < TWO_31 && pods[k].name == PodName(c, o);
    OrdinalRoundTrip(c, o);
  }

  lemma LastIsNew(c: Cluster, pods: seq<PodState>, n: int, test: PodState -> bool)
    requires OfCluster(c, pods) && pods != []
    ensures OrdinalOf(pods[|pods| - 1].name) !in OrdinalsOf(pods[..|pods| - 1], n, test)
  {
    var rest, last := pods[..|pods| - 1], |pods| - 1;
    forall p | p in rest
      ensures OrdinalOf(p.name) != OrdinalOf(pods[last].name)
    {
      var k :| 0 <= k < |rest| && rest[k] == p;
      OrdinalNamesPod(c, pods, k);
      OrdinalNamesPod(c, pods, last);
      assert pods[k].name != pods[last].name;
    }
  }

  lemma OrdinalsStep(pods: seq<PodState>, n: int, test: PodState -> bool)
    requires pods != []
    ensures var rest, last := pods[..|pods| - 1], pods[|pods| - 1];
            OrdinalsOf(pods, n, test)
            == OrdinalsOf(rest, n, test) + if InRange(last, n) && test(last) then {OrdinalOf(last.name)} else {}
  {
  }

  lemma {:induction false} CountIsOrdinals(c: Cluster, pods: seq<PodState>, n: int, test: PodState -> bool)
    requires OfCluster(c, pods)
    ensures CountOf(pods, n, test) == |OrdinalsOf(pods, n, test)|
  {
    if pods != [] {
      CountIsOrdinals(c, pods[..|pods| - 1], n, test);
      LastIsNew(c, pods, n, test);
      OrdinalsStep(pods, n, test);
    }
  }

  /** Every node below n has a pod of its own that satisfies the test. */
  ghost predicate EveryNode(c: Cluster, pods: seq<PodState>, n: int, test: PodState -> bool) {
    forall i: nat :: i < n ==> HasPod(c, pods, i, test)
  }

  /** Node i has a pod of its own that satisfies the test. */
  predicate HasPod(c: Cluster, pods: seq<PodState>, i: nat, test: PodState -> bool) {
    exists k :: 0 <= k < |pods| && pods[k].name == PodName(c, i) && test(pods[k])
  }

  /**
   Counting is enough: the count of pods below n that satisfy a test reaches n exactly when every
   single node has such a pod, and it never passes n.
   */
  lemma CountCoversEveryNode(c: Cluster, pods: seq<PodState>, n: nat, test: PodState -> bool)
    requires OfCluster(c, pods) && n <= TWO_31
    ensures CountOf(pods, n, test) <= n
    ensures CountOf(pods, n, test) == n <==> EveryNode(c, pods, n, test)
  {
    CountIsOrdinals(c, pods, n, test);
    OrdinalsSize(n);
    var os := OrdinalsOf(pods, n, test);
    SubsetSize(os, Ordinals(n));
    if |os| == n {
      FullSubset(os, n);
      forall i: nat | i < n
        ensures HasPod(c, pods, i, test)
      {
        assert i in os;
        var p :| p in pods && InRange(p, n) && test(p) && OrdinalOf(p.name) == i;
        var k :| 0 <= k < |pods| && pods[k] == p;
        OrdinalNamesPod(c, pods, k);
      }
    }
    if EveryNode(c, pods, n, test) {
      forall i: nat | i < n
        ensures i in os
      {
        assert HasPod(c, pods, i, test);
        var k :| 0 <= k < |pods| && pods[k].name == PodName(c, i) && test(pods[k]);
        OrdinalRoundTrip(c, i);
        assert pods[k] in pods;
      }
      assert Ordinals(n) <= os;
      assert os == Ordinals(n);
    }
  }

  lemma FullSubset(os: set<nat>, n: nat)
    requires os <= Ordinals(n) && |os| == n
    ensures os == Ordinals(n)
  {
    OrdinalsSize(n);
    assert Ordinals(n) == os + (Ordinals(n) - os);
  }

  // ---------- the loops ----------

  lemma CountStep(pods: seq<PodState>, i: nat, n: int, test: PodState -> bool)
    requires i < |pods|
    ensures CountOf(pods[..i + 1], n, test)
            == CountOf(pods[..i], n, test) + if InRange(pods[i], n) && test(pods[i]) then 1 else 0
  {
    assert pods[..i + 1][..i] == pods[..i];
  }

  /** readyCount of reconcileAutoscaling. */
  method CountReady(pods: seq<PodState>, current: int) returns (count: nat)
    ensures count == CountOf(pods, current, Serving)
  {
    count := 0;
    for i := 0 to |pods|
      invariant count == CountOf(pods[..i], current, Serving)
    {
      CountStep(pods, i, current, Serving);
      if !InRange(pods[i], current) {
        continue;
      }
      if pods[i].ready && !pods[i].deleting {
        count := count + 1;
      }
    }
    assert pods[..|pods|] == pods;
  }

  /** Every pod below n satisfies the test. */
  predicate AllInRange(pods: seq<PodState>, n: int, test: PodState -> bool) {
    forall k :: 0 <= k < |pods| && InRange(pods[k], n) ==> test(pods[k])
  }

  lemma {:induction false} AllCounted(pods: seq<PodState>, n: int, test: PodState -> bool)
    requires AllInRange(pods, n, test)
    ensures CountOf(pods, n, Any) == CountOf(pods, n, test)
  {
    if pods != [] {
      AllCounted(pods[..|pods| - 1], n, test);
    }
  }

  lemma AllStep(pods: seq<PodState>, i: nat, n: int, test: PodState -> bool)
    requires i < |pods|
    ensures AllInRange(pods[..i + 1], n, test)
            <==> AllInRange(pods[..i], n, test) && (InRange(pods[i], n) ==> test(pods[i]))
    ensures AllInRange(pods, n, test) ==> AllInRange(pods[..i + 1], n, test)
  {
  }

  method ImageRolledOut(pods: seq<PodState>, replicas: nat) returns (rolled: bool)
    ensures rolled <==> replicas > 0 && AllInRange(pods, replicas, Imaged) && CountOf(pods, replicas, Any) == replicas
  {
    var seen := 0;
    for i := 0 to |pods|
      invariant seen == CountOf(pods[..i], replicas, Any)
      invariant AllInRange(pods[..i], replicas, Imaged)
    {
      CountStep(pods, i, replicas, Any);
      AllStep(pods, i, replicas, Imaged);
      if !InRange(pods[i], replicas) {
        continue;
      }
      if pods[i].deleting || !pods[i].ready || !pods[i].imaged {
        return false;
      }
      seen := seen + 1;
    }
    assert pods[..|pods|] == pods;
    rolled := replicas > 0 && seen == replicas;
  }

  /** Why a backup must not start now. */
  datatype Block = Free | NotBootstrapped | RosterDiffers | NotReady(name: string) | OldConfig(name: string)
                 | OldImage(name: string) | TooFewPods(seen: nat)

  method BackupBlocked(c: Cluster, bootstrapped: bool, m: Option<Membership>, desired: nat, pods: seq<PodState>)
    returns (why: Block)
    ensures why == Free <==> && bootstrapped && RosterMatches(c, m, desired)
                             && AllInRange(pods, desired, Steady) && CountOf(pods, desired, Any) >= desired
    ensures why == NotBootstrapped <==> !bootstrapped
    ensures why == RosterDiffers <==> bootstrapped && !RosterMatches(c, m, desired)
    ensures why.NotReady? ==> exists p :: p in pods && p.name == why.name && InRange(p, desired) && !Serving(p)
    ensures why.OldConfig? ==> exists p :: p in pods && p.name == why.name && InRange(p, desired) && !p.configured
    ensures why.OldImage? ==> exists p :: p in pods && p.name == why.name && InRange(p, desired) && !p.imaged
    ensures why.TooFewPods? ==> why.seen == CountOf(pods, desired, Any) < desired
  {
    if !bootstrapped {
      return NotBootstrapped;
    }
    if !RosterMatches(c, m, desired) {
      return RosterDiffers;
    }
    var seen := 0;
    for i := 0 to |pods|
      invariant seen == CountOf(pods[..i], desired, Any)
      invariant AllInRange(pods[..i], desired, Steady)
    {
      CountStep(pods, i, desired, Any);
      AllStep(pods, i, desired, Steady);
      if !InRange(pods[i], desired) {
        continue;
      }
      seen := seen + 1;
      if pods[i].deleting || !pods[i].ready {
        return NotReady(pods[i].name);
      }
      if !pods[i].configured {
        return OldConfig(pods[i].name);
      }
      if !pods[i].imaged {
        return OldImage(pods[i].name);
      }
    }
    assert pods[..|pods|] == pods;
    if seen < desired {
      return TooFewPods(seen);
    }
    why := Free;
  }

  /** The per-pod tests and the count together mean what they are for: every node is in order. */
  lemma InOrderExactlyWhen(c: Cluster, pods: seq<PodState>, n: nat, test: PodState -> bool)
    requires OfCluster(c, pods) && n <= TWO_31
    ensures AllInRange(pods, n, test) && CountOf(pods, n, Any) >= n
            <==> EveryNode(c, pods, n, test)
  {
    CountCoversEveryNode(c, pods, n, Any);
    CountCoversEveryNode(c, pods, n, test);
    if AllInRange(pods, n, test) && CountOf(pods, n, Any) >= n {
      AllCounted(pods, n, test);
    }
    if EveryNode(c, pods, n, test) {
      forall k | 0 <= k < |pods| && InRange(pods[k], n)
        ensures test(pods[k])
      {
        OrdinalNamesPod(c, pods, k);
        var i := OrdinalOf(pods[k].name);
        assert HasPod(c, pods, i, test);
        var j :| 0 <= j < |pods| && pods[j].name == PodName(c, i) && test(pods[j]);
        assert j == k;
      }
      CountLeq(pods, n, test);
    }
  }

  lemma {:induction false} CountLeq(pods: seq<PodState>, n: int, test: PodState -> bool)
    ensures CountOf(pods, n, test) <= CountOf(pods, n, Any)
  {
    if pods != [] {
      CountLeq(pods[..|pods| - 1], n, test);
    }
  }

  /** The pod of node i is listed, ready, and not going away; with what else it has to run. */
  predicate PodInOrder(c: Cluster, pods: seq<PodState>, i: nat, configured: bool, imaged: bool) {
    exists k :: && 0 <= k < |pods| && pods[k].name == PodName(c, i) && pods[k].ready && !pods[k].deleting
                && (configured ==> pods[k].configured) && (imaged ==> pods[k].imaged)
  }

  lemma NodesInOrder(c: Cluster, pods: seq<PodState>, n: nat, configured: bool, imaged: bool, test: PodState -> bool)
    requires forall p :: test(p) <==> p.ready && !p.deleting && (configured ==> p.configured) && (imaged ==> p.imaged)
    ensures EveryNode(c, pods, n, test) <==> forall i: nat :: i < n ==> PodInOrder(c, pods, i, configured, imaged)
  {
    forall i: nat | i < n
      ensures HasPod(c, pods, i, test) <==> PodInOrder(c, pods, i, configured, imaged)
    {
      if HasPod(c, pods, i, test) {
        var k :| 0 <= k < |pods| && pods[k].name == PodName(c, i) && test(pods[k]);
      }
    }
  }

  /** The image is rolled out exactly when every node's own pod is ready on it. */
  lemma RolledOutExactlyWhen(c: Cluster, pods: seq<PodState>, n: nat)
    requires OfCluster(c, pods) && n <= TWO_31
    ensures AllInRange(pods, n, Imaged) && CountOf(pods, n, Any) == n
            <==> forall i: nat :: i < n ==> PodInOrder(c, pods, i, false, true)
  {
    CountCoversEveryNode(c, pods, n, Any);
    InOrderExactlyWhen(c, pods, n, Imaged);
    NodesInOrder(c, pods, n, false, true, Imaged);
  }

  /**
   A backup is free to start exactly on a steady cluster: bootstrapped, the roster exact for the
   desired size, and every node's own pod ready on the current configuration and image.
   */
  lemma BackupNeedsSteadyCluster(c: Cluster, bootstrapped: bool, m: Option<Membership>, desired: nat, pods: seq<PodState>)
    requires OfCluster(c, pods) && desired <= TWO_31
    ensures && bootstrapped && RosterMatches(c, m, desired)
            && AllInRange(pods, desired, Steady) && CountOf(pods, desired, Any) >= desired
            <==> && bootstrapped && m.Some? && IsExactRoster(c, m.value.members, desired)
                 && forall i: nat :: i < desired ==> PodInOrder(c, pods, i, true, true)
  {
    InOrderExactlyWhen(c, pods, desired, Steady);
    NodesInOrder(c, pods, desired, true, true, Steady);
    if m.Some? {
      GateIsExact(c, m.value, desired);
    }
  }
}
