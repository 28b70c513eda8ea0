/**
 The membership step: the size and rolling-update partition of one pass, the leave request that
 comes before a shrink, and the write of the StatefulSet.

 Models buildPlan of internal/controller/plan.go, decommission of
 internal/controller/membership.go, and reconcileStatefulSet and hasQuorum of
 internal/controller/kahunacluster_controller.go.
 */
module Plan {
  import opened Options
  import opened Naming
  import opened Kahuna
  import opened Roster
  import opened Settling

  /** The placement read of a pass. A server without the feature is not an error. */
  datatype PlacementRead = CannotRead | Unsupported | ReadPlacement(placement: Placement) {
    function AsPlacement(): Option<Placement>
    {
      if ReadPlacement? then Some(placement) else None
    }
  }

  /** The data has followed the last membership change, as far as this read can say. */
  predicate DataSettled(c: Cluster, pr: PlacementRead, current: nat) {
    !pr.CannotRead? && SettleReasonOf(c, pr.AsPlacement(), current) == Settled
  }

  /** Why a step was not taken. */
  datatype Reason =
    | NoReason
    | RosterHold(roster: HoldReason)
    | PlacementUnreadable
    | PlacementHold(settle: SettleReason)
    | LeaveHold

  datatype PlanStep = PlanStep(replicas: nat, partition: nat, reason: Reason)

  function BuildPlan(c: Cluster, target: nat, current: nat, bootstrapped: bool,
                     m: Option<Membership>, pr: PlacementRead): PlanStep
  {
    if !bootstrapped then PlanStep(target, 0, NoReason)
    else if !RosterMatches(c, m, current) then PlanStep(current, current, RosterHold(HoldReasonOf(c, m, current)))
    else if pr.CannotRead? then PlanStep(current, 0, PlacementUnreadable)
    else
      var settle := SettleReasonOf(c, pr.AsPlacement(), current);
      if settle != Settled then PlanStep(current, 0, PlacementHold(settle))
      else if current < target then PlanStep(current + 1, 0, NoReason)
      else if current > target && current > 1 then PlanStep(current - 1, 0, NoReason)
      else PlanStep(current, 0, NoReason)
  }

  // ---------- asking the top node to leave ----------

  datatype Pod = Pod(name: string, ip: string)

  /** The answer to a leave request: a transport failure, or the server's outcome. */
  datatype LeaveReply = LeaveFailed | LeaveAnswered(outcome: LeaveOutcome)

  predicate Reachable(pods: seq<Pod>, name: string) {
    exists k :: 0 <= k < |pods| && pods[k].name == name && pods[k].ip != ""
  }

  /** The node may be taken away: it reported itself out, or there is no pod to ask. */
  predicate MayGo(c: Cluster, pods: seq<Pod>, ordinal: nat, reply: LeaveReply) {
    Reachable(pods, PodName(c, ordinal)) ==> reply.LeaveAnswered? && Removed(reply.outcome)
  }

  /** decommission's search for the pod, and what it makes of the reply. */
  method Decommission(c: Cluster, pods: seq<Pod>, ordinal: nat, reply: LeaveReply) returns (left: bool, asked: bool)
    ensures asked <==> exists k :: 0 <= k < |pods| && pods[k].name == PodName(c, ordinal) && pods[k].ip != ""
    ensures left <==> !asked || reply in {LeaveAnswered(Committed), LeaveAnswered(NotAMember)}
    ensures left <==> MayGo(c, pods, ordinal, reply)
  {
    var name := PodName(c, ordinal);
    asked := false;
    for i := 0 to |pods|
      invariant !asked
      invariant forall k :: 0 <= k < i ==> !(pods[k].name == name && pods[k].ip != "")
    {
      if pods[i].name == name && pods[i].ip != "" {
        asked := true;
        break;
      }
    }
    if !asked {
      return true, false;
    }
    left := reply.LeaveAnswered? && Removed(reply.outcome);
  }

  // ---------- writing the StatefulSet ----------

  /** The plan after the leave request, which can only turn a shrink into a hold. */
  function PlanAfterLeave(c: Cluster, target: nat, current: nat, bootstrapped: bool, m: Option<Membership>,
                          pr: PlacementRead, pods: seq<Pod>, reply: LeaveReply): PlanStep
  {
    var p := BuildPlan(c, target, current, bootstrapped, m, pr);
    if p.replicas < current && !MayGo(c, pods, current - 1, reply) then PlanStep(current, current, LeaveHold) else p
  }

  /** The two fields of the StatefulSet that a pass decides. */
  class StatefulSet {
    var replicas: nat
    var partition: nat

    /** A StatefulSet that does not exist yet is created at the full target size. */
    constructor (target: nat)
      ensures replicas == target && partition == 0
    {
      replicas, partition := target, 0;
    }

    /** reconcileStatefulSet on an existing StatefulSet: plan, leave before a shrink, write. */
    method Reconcile(c: Cluster, target: nat, bootstrapped: bool, m: Option<Membership>, pr: PlacementRead,
                     pods: seq<Pod>, reply: LeaveReply)
      returns (reason: Reason)
      modifies this
      ensures PlanStep(replicas, partition, reason)
              == PlanAfterLeave(c, target, old(replicas), bootstrapped, m, pr, pods, reply)
    {
      var current := replicas;
      var p := BuildPlan(c, target, current, bootstrapped, m, pr);
      if p.replicas < current {
        var left, asked := Decommission(c, pods, current - 1, reply);
        if !left {
          p := p.(replicas := current);
          p := p.(partition := current);
          p := p.(reason := LeaveHold);
        }
      }
      replicas, partition, reason := p.replicas, p.partition, p.reason;
    }
  }

  function Distance(a: int, b: int): nat {
    if a < b then b - a else a - b
  }

  /**
   Exactly when a bootstrapped pass changes the size: the roster is exact for the old size, the
   data is settled (or the server places none), the target differs, and a shrink keeps one node and
   has seen the top node out.
   */
  lemma ChangesExactlyWhen(c: Cluster, target: nat, current: nat, m: Option<Membership>,
                           pr: PlacementRead, pods: seq<Pod>, reply: LeaveReply)
    ensures PlanAfterLeave(c, target, current, true, m, pr, pods, reply).replicas != current
            <==> && m.Some? && IsExactRoster(c, m.value.members, current)
                 && DataSettled(c, pr, current)
                 && (current < target || (current > target && current > 1 && MayGo(c, pods, current - 1, reply)))
  {
    if m.Some? {
      GateIsExact(c, m.value, current);
    }
  }

  /** A bootstrapped pass moves by at most one node, and every move brings the size nearer the target. */
  lemma OneNodeTowardTarget(c: Cluster, target: nat, current: nat, m: Option<Membership>,
                            pr: PlacementRead, pods: seq<Pod>, reply: LeaveReply)
    ensures var next := PlanAfterLeave(c, target, current, true, m, pr, pods, reply).replicas;
            && Distance(next, current) <= 1
            && (next != current ==> Distance(target, next) == Distance(target, current) - 1)
            && (current >= 1 ==> next >= 1)
  {
  }

  /** The rolling update is frozen exactly while the roster is not exact or the leaving node is still in. */
  lemma FrozenExactlyWhen(c: Cluster, target: nat, current: nat, m: Option<Membership>,
                          pr: PlacementRead, pods: seq<Pod>, reply: LeaveReply)
    requires current > 0
    ensures PlanAfterLeave(c, target, current, true, m, pr, pods, reply).partition != 0
            <==> || m.None? || !IsExactRoster(c, m.value.members, current)
                 || (DataSettled(c, pr, current) && current > target && current > 1 && !MayGo(c, pods, current - 1, reply))
    ensures PlanAfterLeave(c, target, current, true, m, pr, pods, reply).partition in {0, current}
  {
    if m.Some? {
      GateIsExact(c, m.value, current);
    }
  }

  /** Before the bootstrap a pass goes to the target at once, held only by a node that was asked and is still in. */
  lemma BeforeBootstrap(c: Cluster, target: nat, current: nat, m: Option<Membership>,
                        pr: PlacementRead, pods: seq<Pod>, reply: LeaveReply)
    ensures PlanAfterLeave(c, target, current, false, m, pr, pods, reply)
            == if target < current && !MayGo(c, pods, current - 1, reply) then PlanStep(current, current, LeaveHold)
               else PlanStep(target, 0, NoReason)
  {
  }

  /** Why a bootstrapped pass holds: the first of these that applies, and none exactly when none does. */
  lemma ReasonExactlyWhen(c: Cluster, target: nat, current: nat, m: Option<Membership>,
                          pr: PlacementRead, pods: seq<Pod>, reply: LeaveReply)
    ensures var reason := PlanAfterLeave(c, target, current, true, m, pr, pods, reply).reason;
            var exact := m.Some? && IsExactRoster(c, m.value.members, current);
            var leaves := current > target && current > 1;
            && (reason.RosterHold? <==> !exact)
            && (reason == PlacementUnreadable <==> exact && pr.CannotRead?)
            && (reason.PlacementHold? <==> exact && !pr.CannotRead? && !DataSettled(c, pr, current))
            && (reason == LeaveHold <==> exact && DataSettled(c, pr, current) && leaves && !MayGo(c, pods, current - 1, reply))
            && (reason == NoReason <==> exact && DataSettled(c, pr, current) && (leaves ==> MayGo(c, pods, current - 1, reply)))
  {
    if m.Some? {
      GateIsExact(c, m.value, current);
    }
  }

  // ---------- quorum ----------

  predicate HasQuorum(ready: int, desired: int) {
    desired > 0 && ready >= desired / 2 + 1
  }

  function Ordinals(n: nat): (s: set<nat>)
    ensures forall i :: i in s <==> 0 <= i < n
  {
    if n == 0 then {} else Ordinals(n - 1) + {n - 1}
  }

  lemma {:induction false} OrdinalsSize(n: nat)
    ensures |Ordinals(n)| == n
  {
    if n > 0 {
      OrdinalsSize(n - 1);
    }
  }

  /** Any majority before a one-node step and any majority after it have a node in common. */
  lemma MajoritiesMeet(n: nat, next: nat, before: set<nat>, after: set<nat>)
    requires Distance(n, next) <= 1
    requires before <= Ordinals(n) && HasQuorum(|before|, n)
    requires after <= Ordinals(next) && HasQuorum(|after|, next)
    ensures before * after != {}
  {
    var most := if n < next then next else n;
    OrdinalsSize(most);
    if before * after == {} {
      assert |before + after| == |before| + |after|;
      assert before + after <= Ordinals(most);
      SubsetSize(before + after, Ordinals(most));
    }
  }

  lemma SubsetSize(a: set<nat>, b: set<nat>)
    requires a <= b
    ensures |a| <= |b|
  {
    assert b == a + (b - a);
  }

  /** Two nodes at a time would lose that: two disjoint majorities of 1 and of 3 nodes. */
  lemma TwoNodeStepMayNotMeet()
    ensures exists before: set<nat>, after: set<nat> ::
              && before <= Ordinals(1) && HasQuorum(|before|, 1)
              && after <= Ordinals(3) && HasQuorum(|after|, 3)
              && before * after == {}
  {
    var before: set<nat>, after: set<nat> := {0}, {1, 2};
    assert before <= Ordinals(1) && after <= Ordinals(3) && before * after == {};
    assert |before| == 1 && |after| == 2;
  }
}
