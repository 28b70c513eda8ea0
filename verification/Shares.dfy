/**
 The share of the data every node should carry before the autoscaler takes another step.

 Models placementConverged of internal/controller/autoscaler.go.
 */
module Shares {
  import opened Options
  import opened Naming
  import opened Kahuna
  import opened Settling

  // ---------- counting ----------

  /** The Voter replicas of placed partitions on node i. */
  function HeldBy(c: Cluster, parts: seq<Partition>, i: nat): nat {
    |Where(parts, VoterOn(RaftEndpoint(c, i)))|
  }

  function SumHeld(c: Cluster, parts: seq<Partition>, n: nat): nat {
    if n == 0 then 0 else SumHeld(c, parts, n - 1) + HeldBy(c, parts, n - 1)
  }

  lemma OneMoreNode(c: Cluster, parts: seq<Partition>, n: nat)
    ensures var all, rest, top := Where(parts, VoterOnMember(c, n + 1)), Where(parts, VoterOnMember(c, n)),
                                  Where(parts, VoterOn(RaftEndpoint(c, n)));
            all == rest + top && rest !! top
  {
    forall e
      ensures e in Endpoints(c, n + 1) <==> e in Endpoints(c, n) || e == RaftEndpoint(c, n)
      ensures e in Endpoints(c, n) ==> e != RaftEndpoint(c, n)
    {
      assert Endpoints(c, n + 1) == Endpoints(c, n) + [RaftEndpoint(c, n)];
      if e in Endpoints(c, n + 1) {
        LastEndpoint(c, n + 1, e);
      }
    }
  }

  lemma {:induction false} SumIsMembers(c: Cluster, parts: seq<Partition>, n: nat)
    ensures SumHeld(c, parts, n) == |Where(parts, VoterOnMember(c, n))|
  {
    if n == 0 {
      assert Where(parts, VoterOnMember(c, 0)) == {};
    } else {
      SumIsMembers(c, parts, n - 1);
      OneMoreNode(c, parts, n - 1);
    }
  }

  function Anywhere(): Replica -> bool {
    (r: Replica) => true
  }

  function OnNode(e: string): Replica -> bool {
    (r: Replica) => r.endpoint == e
  }

  /** In a settled placement every placed replica is a Voter on a member. */
  lemma SettledWhere(c: Cluster, p: Option<Placement>, n: nat)
    requires SettleReasonOf(c, p, n) == Settled
    ensures Where(PartitionsOf(p), VoterOnMember(c, n)) == Where(PartitionsOf(p), Anywhere())
    ensures forall e :: Where(PartitionsOf(p), VoterOn(e)) == Where(PartitionsOf(p), OnNode(e))
  {
    SettledIffOnMembers(c, p, n);
  }

  /**
   No replica is lost in the counting: the per-node counts add up to the total, and in a settled
   placement the total is every replica of every active placed partition.
   */
  lemma CountsAddUp(c: Cluster, p: Option<Placement>, n: nat)
    ensures SumHeld(c, PartitionsOf(p), n) == |Where(PartitionsOf(p), VoterOnMember(c, n))|
    ensures SettleReasonOf(c, p, n) == Settled ==>
              SumHeld(c, PartitionsOf(p), n) == |Where(PartitionsOf(p), Anywhere())|
  {
    SumIsMembers(c, PartitionsOf(p), n);
    if SettleReasonOf(c, p, n) == Settled {
      SettledWhere(c, p, n);
    }
  }

  // ---------- the share every node should carry ----------

  function EvenShare(total: nat, current: nat): nat
    requires current > 0
  {
    total / current
  }

  /** Half the even share, but at least one replica. */
  function MinShare(share: nat): nat {
    if share / 2 > 1 then share / 2 else 1
  }

  predicate HoldsShare(c: Cluster, parts: seq<Partition>, current: nat, floor: nat) {
    forall i :: 0 <= i < current ==> HeldBy(c, parts, i) >= floor
  }

  /** The clock of the last step has run out. */
  predicate RanOut(now: int, settleBy: Option<int>) {
    settleBy.Some? && now >= settleBy.value
  }

  predicate IsConverged(c: Cluster, p: Option<Placement>, current: nat, now: int, settleBy: Option<int>)
    requires current > 0
  {
    var share := EvenShare(|Where(PartitionsOf(p), VoterOnMember(c, current))|, current);
    && SettleReasonOf(c, p, current) == Settled
    && (share == 0 || RanOut(now, settleBy) || HoldsShare(c, PartitionsOf(p), current, MinShare(share)))
  }

  method PlacementConverged(c: Cluster, p: Option<Placement>, current: nat, now: int, settleBy: Option<int>)
    returns (ok: bool)
    requires current > 0
    ensures ok <==> IsConverged(c, p, current, now, settleBy)
  {
    var hosted, total, reason := PlacementSettled(c, p, current);
    if reason != Settled {
      return false;
    }
    var share := EvenShare(total, current);
    if share == 0 || (settleBy.Some? && !(now < settleBy.value)) {
      return true;
    }
    ok := EveryNodeHolds(c, PartitionsOf(p), current, hosted, if share / 2 > 1 then share / 2 else 1);
  }

  method EveryNodeHolds(c: Cluster, ghost parts: seq<Partition>, current: nat, hosted: map<string, int>, minShare: nat)
    returns (ok: bool)
    requires forall e :: Count(hosted, e) == if e in Endpoints(c, current) then |Where(parts, VoterOn(e))| else 0
    ensures ok <==> HoldsShare(c, parts, current, minShare)
  {
    for i := 0 to current
      invariant HoldsShare(c, parts, i, minShare)
    {
      assert Endpoints(c, current)[i] == RaftEndpoint(c, i);
      if Count(hosted, RaftEndpoint(c, i)) < minShare {
        assert HeldBy(c, parts, i) < minShare;
        return false;
      }
    }
    return true;
  }

  /** The replicas of placed partitions on node i, whatever their role, and all of them. */
  function ReplicasOn(c: Cluster, p: Option<Placement>, i: nat): nat {
    |Where(PartitionsOf(p), OnNode(RaftEndpoint(c, i)))|
  }

  function ReplicasPlaced(p: Option<Placement>): nat {
    |Where(PartitionsOf(p), Anywhere())|
  }

  /** At least one replica, and at least half the even share of the total, rounded down. */
  predicate HasShare(held: nat, total: nat, nodes: nat)
    requires nodes > 0
  {
    held >= 1 && 2 * held + 1 >= EvenShare(total, nodes)
  }

  lemma HalfShare(held: nat, share: nat)
    ensures held >= MinShare(share) <==> held >= 1 && 2 * held + 1 >= share
  {
  }

  lemma ShareIsNone(total: nat, nodes: nat)
    requires nodes > 0
    ensures EvenShare(total, nodes) == 0 <==> total < nodes
  {
  }

  /**
   What converged means, over the placement itself: it is settled, and there are fewer replicas than
   nodes, or the settle clock has run out, or every node holds a replica and half of the even share.
   */
  lemma ConvergedMeans(c: Cluster, p: Option<Placement>, current: nat, now: int, settleBy: Option<int>)
    requires current > 0
    ensures IsConverged(c, p, current, now, settleBy)
            <==> && SettleReasonOf(c, p, current) == Settled
                 && (|| ReplicasPlaced(p) < current
                     || RanOut(now, settleBy)
                     || forall i :: 0 <= i < current ==> HasShare(ReplicasOn(c, p, i), ReplicasPlaced(p), current))
  {
    if SettleReasonOf(c, p, current) == Settled {
      SettledWhere(c, p, current);
      var share := EvenShare(ReplicasPlaced(p), current);
      ShareIsNone(ReplicasPlaced(p), current);
      forall i | 0 <= i < current
        ensures HeldBy(c, PartitionsOf(p), i) >= MinShare(share) <==> HasShare(ReplicasOn(c, p, i), ReplicasPlaced(p), current)
      {
        HalfShare(ReplicasOn(c, p, i), share);
      }
    }
  }

  /** The demanded share can be met: giving every node the minimum needs no more replicas than exist. */
  lemma ShareIsFeasible(total: nat, current: nat)
    requires current > 0 && EvenShare(total, current) != 0
    ensures MinShare(EvenShare(total, current)) * current <= total
  {
    var share := EvenShare(total, current);
    var slack := share - MinShare(share);
    assert share * current == MinShare(share) * current + slack * current;
  }

  lemma {:induction false} NodesHoldAtLeast(c: Cluster, parts: seq<Partition>, n: nat, floor: nat)
    requires HoldsShare(c, parts, n, floor)
    ensures SumHeld(c, parts, n) >= floor * n
  {
    if n > 0 {
      NodesHoldAtLeast(c, parts, n - 1, floor);
      assert floor * n == floor * (n - 1) + floor;
    }
  }

  /** With fewer replicas than nodes some node has to be empty, so no demand for a share could be met. */
  lemma SparseLeavesANodeEmpty(c: Cluster, parts: seq<Partition>, n: nat)
    requires |Where(parts, VoterOnMember(c, n))| < n
    ensures exists i: nat :: i < n && HeldBy(c, parts, i) == 0
  {
    SumIsMembers(c, parts, n);
    if HoldsShare(c, parts, n, 1) {
      NodesHoldAtLeast(c, parts, n, 1);
    }
  }
}
