/**
 The autoscaler inside a reconcile pass: when a pass counts as converged, what it feeds the
 decision, and how the decision meets the membership plan of the same pass.

 Models reconcileAutoscaling and growthCeiling of internal/controller/autoscaler.go, and
 desiredReplicas of internal/controller/naming.go.
 */
module AutoscalePass {
  import opened Options
  import opened Durations
  import opened Naming
  import opened Kahuna
  import opened Roster
  import opened Settling
  import opened Shares
  import opened Plan
  import opened Pods
  import opened Autoscaler

  const MAX_REPLICATION_FACTOR: nat := 3
  const SETTLE_TIMEOUT: int := 5 * MINUTE

  /** initialAutoscaledReplicas: spec.replicas (3 when unset), held inside the bounds. */
  function InitialReplicas(s: Spec, specReplicas: Option<int>): int {
    Clamp(match specReplicas case None => 3 case Some(n) => n, s)
  }

  /** desiredReplicas under autoscaling: the autoscaler's choice once it has made one. */
  function DesiredReplicas(s: Spec, specReplicas: Option<int>, st: Option<Status>): int {
    if st.Some? && st.value.desired > 0 then st.value.desired else InitialReplicas(s, specReplicas)
  }

  /** The metrics read of a pass. */
  datatype MetricsRead = MetricsFailed | Measured(signal: Signal)

  /** Everything a pass sees. */
  datatype PassView = PassView(
    specReplicas: Option<int>,
    status: Option<Status>,
    bootstrapped: bool,
    m: Option<Membership>,
    pr: PlacementRead,
    pods: seq<PodState>,
    metrics: MetricsRead,
    now: int)

  function SizeOf(s: Spec, v: PassView): int {
    DesiredReplicas(s, v.specReplicas, v.status)
  }

  function SettleBy(st: Option<Status>): Option<int> {
    if st.Some? && st.value.lastScale.Some? then Some(st.value.lastScale.value + SETTLE_TIMEOUT) else None
  }

  /** The roster and the pods are those of the current size. */
  predicate MembersConverged(c: Cluster, s: Spec, v: PassView) {
    v.bootstrapped && RosterMatches(c, v.m, SizeOf(s, v)) && CountOf(v.pods, SizeOf(s, v), Serving) == SizeOf(s, v)
  }

  predicate Converged(c: Cluster, s: Spec, v: PassView)
    requires SizeOf(s, v) > 0
  {
    && MembersConverged(c, s, v)
    && !v.pr.CannotRead?
    && IsConverged(c, v.pr.AsPlacement(), SizeOf(s, v), v.now, SettleBy(v.status))
  }

  function GrowthCeiling(p: Placement): nat {
    if FullyReplicatedIn(p.partitions) != [] then MAX_REPLICATION_FACTOR else 0
  }

  /** A converged pass goes on to read the partitions of the placement, so there has to be one. */
  predicate HasWhatItNeeds(c: Cluster, s: Spec, v: PassView)
    requires SizeOf(s, v) > 0
  {
    Converged(c, s, v) ==> v.pr.ReadPlacement?
  }

  /** What the pass feeds the decision. */
  function InputOf(c: Cluster, s: Spec, v: PassView): Input
    requires SizeOf(s, v) > 0 && HasWhatItNeeds(c, s, v)
  {
    var converged := Converged(c, s, v);
    Input(s, InitialReplicas(s, v.specReplicas),
          if converged && v.metrics.Measured? then v.metrics.signal else Signal(None, None),
          converged,
          if converged then GrowthCeiling(v.pr.placement) else 0,
          v.now)
  }

  /** A pass decides, or dereferences a placement that is not there. */
  datatype PassOutcome = Panicked | Chose(decision: Decision)

  function AutoscaleOnce(c: Cluster, s: Spec, v: PassView): PassOutcome
    requires SizeOf(s, v) > 0
    requires HasWhatItNeeds(c, s, v) ==> InputOk(v.status, InputOf(c, s, v))
  {
    if !HasWhatItNeeds(c, s, v) then Panicked
    else Chose(Decide(v.status, InputOf(c, s, v)))
  }

  /**
   Exactly when the pass fails: on a server without replica placement, as soon as the roster and
   the pods of the current size are there. Nothing else about the pass matters.
   */
  lemma PanicsExactlyWhen(c: Cluster, s: Spec, v: PassView)
    requires SizeOf(s, v) > 0
    requires HasWhatItNeeds(c, s, v) ==> InputOk(v.status, InputOf(c, s, v))
    ensures AutoscaleOnce(c, s, v) == Panicked <==> MembersConverged(c, s, v) && v.pr.Unsupported?
  {
  }

  /** A ready pod for each of the first n nodes. */
  function ReadyPods(c: Cluster, n: nat): seq<PodState> {
    seq(n, i requires i >= 0 => PodState(PodName(c, i), true, false, true, true))
  }

  lemma ReadyPodsCount(c: Cluster, n: nat)
    requires n <= TWO_31
    ensures CountOf(ReadyPods(c, n), n, Serving) == n
  {
    var pods := ReadyPods(c, n);
    forall k | 0 <= k < n
      ensures IsNamed(c, pods[k]) && OrdinalOf(pods[k].name) == k
    {
      assert pods[k].name == PodName(c, k);
      OrdinalRoundTrip(c, k);
    }
    forall i, j | 0 <= i < j < n
      ensures pods[i].name != pods[j].name
    {
      assert OrdinalOf(pods[i].name) == i && OrdinalOf(pods[j].name) == j;
    }
    forall i: nat | i < n
      ensures HasPod(c, pods, i, Serving)
    {
      assert pods[i].name == PodName(c, i) && Serving(pods[i]);
    }
    CountCoversEveryNode(c, pods, n, Serving);
  }

  /** Such a pass exists for every spec: a fresh cluster in perfect order, on a server without placement. */
  lemma HealthyClusterPanics(c: Cluster, s: Spec, metrics: MetricsRead, now: int)
    requires ValidSpec(s) && s.minReplicas <= TWO_31
    ensures var n := s.minReplicas;
            var v := PassView(None, None, true, Some(ExactMembership(c, n)), Unsupported, ReadyPods(c, n), metrics, now);
            SizeOf(s, v) == n && !HasWhatItNeeds(c, s, v) && AutoscaleOnce(c, s, v) == Panicked
  {
    var n := s.minReplicas;
    var v := PassView(None, None, true, Some(ExactMembership(c, n)), Unsupported, ReadyPods(c, n), metrics, now);
    ExactMembershipMatches(c, n);
    ReadyPodsCount(c, n);
    assert MembersConverged(c, s, v);
    PanicsExactlyWhen(c, s, v);
  }

  /** The saved size, if there is one, is inside the bounds: the pass does not clamp. */
  predicate InBounds(s: Spec, v: PassView) {
    v.status.Some? && v.status.value.desired != 0 ==>
      s.minReplicas <= v.status.value.desired <= s.maxReplicas
  }

  lemma SizesAgree(c: Cluster, s: Spec, v: PassView)
    requires ValidSpec(s) && InBounds(s, v)
    requires SizeOf(s, v) > 0 && HasWhatItNeeds(c, s, v)
    ensures Current(v.status, InputOf(c, s, v)) == SizeOf(s, v)
  {
  }

  /** The settle clock of the last step, if there was one, has run out. */
  predicate ClockRanOut(v: PassView) {
    v.status.Some? && v.status.value.lastScale.Some? && v.now >= v.status.value.lastScale.value + 5 * MINUTE
  }

  /** Every node carries its share of the data, as far as that can be asked for. */
  predicate DataSpread(c: Cluster, p: Option<Placement>, n: nat)
    requires n > 0
  {
    || ReplicasPlaced(p) < n
    || forall i :: 0 <= i < n ==> HasShare(ReplicasOn(c, p, i), ReplicasPlaced(p), n)
  }

  /**
   Exactly when a pass counts as converged: bootstrapped, the roster exactly the nodes of the
   current size, every one of them with its own pod ready, and the data settled on them and spread,
   unless the last step is five minutes old.
   */
  lemma ConvergedExactlyWhen(c: Cluster, s: Spec, v: PassView)
    requires 0 < SizeOf(s, v) <= TWO_31 && OfCluster(c, v.pods)
    ensures Converged(c, s, v)
            <==> && v.bootstrapped && v.m.Some? && IsExactRoster(c, v.m.value.members, SizeOf(s, v))
                 && (forall i: nat :: i < SizeOf(s, v) ==> PodInOrder(c, v.pods, i, false, false))
                 && DataSettled(c, v.pr, SizeOf(s, v))
                 && (ClockRanOut(v) || DataSpread(c, v.pr.AsPlacement(), SizeOf(s, v)))
  {
    if v.m.Some? {
      GateIsExact(c, v.m.value, SizeOf(s, v));
    }
    CountCoversEveryNode(c, v.pods, SizeOf(s, v), Serving);
    NodesInOrder(c, v.pods, SizeOf(s, v), false, false, Serving);
    ConvergedMeans(c, v.pr.AsPlacement(), SizeOf(s, v), v.now, SettleBy(v.status));
  }

  /** A data partition of the placement has a copy on every node. */
  predicate NeedsEveryNode(p: Placement) {
    exists k :: && 0 <= k < |p.partitions| && p.partitions[k].id > 0
                && p.partitions[k].state == Active && p.partitions[k].replicas == []
  }

  /**
   Exactly when a pass adds or removes a node by traffic, over what it sees: it is converged, the
   metrics are in, the signals ask for it, the bounds and (for growth past three) the placement
   allow it, and the window is over.
   */
  lemma PassStepsExactlyWhen(c: Cluster, s: Spec, v: PassView)
    requires ValidSpec(s) && InBounds(s, v) && SizeOf(s, v) > 0
    requires HasWhatItNeeds(c, s, v) && InputOk(v.status, InputOf(c, s, v))
    ensures var n, d := SizeOf(s, v), Decide(v.status, InputOf(c, s, v)).status.desired;
            && (d > n <==> && Converged(c, s, v) && v.metrics.Measured? && n < s.maxReplicas
                           && AnyExceeds(s, v.metrics.signal, Tolerance(s))
                           && (NeedsEveryNode(v.pr.placement) ==> n < 3)
                           && Waited(AboveSaved(v.status), v.now, UpWindow(s)))
            && (d < n <==> && Converged(c, s, v) && v.metrics.Measured? && s.minReplicas < n
                           && AllFallShort(s, v.metrics.signal, Tolerance(s)) && AllCarry(s, v.metrics.signal, n, n - 1)
                           && Waited(BelowSaved(v.status), v.now, DownWindow(s)))
  {
    SizesAgree(c, s, v);
    StepsExactlyWhen(v.status, InputOf(c, s, v));
  }

  /**
   What a traffic step stands on: the roster is exactly the nodes of the current size, every one of
   them has its own pod ready, and the placement is settled on them.
   */
  lemma StepStandsOnEveryNode(c: Cluster, s: Spec, v: PassView)
    requires ValidSpec(s) && InBounds(s, v) && 0 < SizeOf(s, v) <= TWO_31 && OfCluster(c, v.pods)
    requires HasWhatItNeeds(c, s, v) && InputOk(v.status, InputOf(c, s, v))
    requires Decide(v.status, InputOf(c, s, v)).status.desired != SizeOf(s, v)
    ensures v.m.Some? && IsExactRoster(c, v.m.value.members, SizeOf(s, v))
    ensures EveryNode(c, v.pods, SizeOf(s, v), Serving)
    ensures DataSettled(c, v.pr, SizeOf(s, v))
  {
    SizesAgree(c, s, v);
    PassIsOneStep(v.status, InputOf(c, s, v));
    assert Converged(c, s, v);
    GateIsExact(c, v.m.value, SizeOf(s, v));
    CountCoversEveryNode(c, v.pods, SizeOf(s, v), Serving);
  }

  /** One node from a to b, or none when they are equal. */
  function OneStep(a: nat, b: nat): nat {
    if a < b then a + 1 else if b < a then a - 1 else a
  }

  /**
   The autoscaler's gate implies the plan's: on a converged pass with the StatefulSet at the
   autoscaler's size, the plan of the same pass, on the same reads, is one node toward the newly
   chosen size and holds nothing. Unless an edited bound moved the size, that one node is the very
   traffic step, and every traffic step is taken on such a pass.
   */
  lemma StepIsPlanned(c: Cluster, s: Spec, v: PassView)
    requires ValidSpec(s) && SizeOf(s, v) > 0
    requires HasWhatItNeeds(c, s, v)
    requires InputOk(v.status, InputOf(c, s, v))
    ensures var size, st := SizeOf(s, v), Decide(v.status, InputOf(c, s, v)).status;
            var target := DesiredReplicas(s, v.specReplicas, Some(st));
            && target == st.desired >= 3
            && (Converged(c, s, v) ==>
                  BuildPlan(c, target, size, v.bootstrapped, v.m, v.pr) == PlanStep(OneStep(size, target), 0, NoReason))
            && (InBounds(s, v) && target != size ==> Converged(c, s, v) && OneStep(size, target) == target)
  {
    PassIsOneStep(v.status, InputOf(c, s, v));
    if InBounds(s, v) {
      SizesAgree(c, s, v);
    }
  }

  /**
   Traffic never grows a cluster past three nodes while the placement it read has a fully
   replicated data partition, so no such partition gets a fourth copy that way.
   */
  lemma CeilingHolds(c: Cluster, s: Spec, v: PassView, k: nat)
    requires ValidSpec(s) && InBounds(s, v) && SizeOf(s, v) > 0
    requires v.pr.ReadPlacement? && k < |v.pr.placement.partitions| && IsFullyReplicated(v.pr.placement.partitions[k])
    requires InputOk(v.status, InputOf(c, s, v))
    ensures Decide(v.status, InputOf(c, s, v)).status.desired <= Max(SizeOf(s, v), MAX_REPLICATION_FACTOR)
  {
    SizesAgree(c, s, v);
    PassIsOneStep(v.status, InputOf(c, s, v));
    assert FullyReplicatedIn(v.pr.placement.partitions) != [];
  }
}
