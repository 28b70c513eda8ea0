/**
 What the operator reads from a Kahuna node: the committed roster, the replica placement, the
 answer to a leave request and the refusal of a backup request.

 Models the data and the predicates of internal/kahuna/client.go. The HTTP calls themselves are
 inputs of the model.
 */
module Kahuna {

  datatype Role = Voter | Learner | Leaving | NotMember | OtherRole(text: string)

  datatype Member = Member(endpoint: string, role: Role)

  datatype Membership = Membership(version: int, members: seq<Member>)

  predicate HasVoter(m: Membership, endpoint: string) {
    exists k :: 0 <= k < |m.members| && m.members[k].endpoint == endpoint && m.members[k].role == Voter
  }

  function MemberEndpoints(ms: seq<Member>): (es: seq<string>)
    ensures |es| == |ms|
    ensures forall k :: 0 <= k < |ms| ==> es[k] == ms[k].endpoint
  {
    seq(|ms|, k requires 0 <= k < |ms| => ms[k].endpoint)
  }

  /** No endpoint is listed twice. */
  predicate Distinct(es: seq<string>) {
    forall i, j :: 0 <= i < j < |es| ==> es[i] != es[j]
  }

  datatype LeaveOutcome = Committed | NotAMember | RefusedInsufficientVoters | OtherOutcome(text: string)

  /** The node is out of the roster, by this call or already before it. */
  predicate Removed(outcome: LeaveOutcome) {
    outcome == Committed || outcome == NotAMember
  }

  datatype Replica = Replica(endpoint: string, role: Role)

  datatype PartitionState = Active | OtherState(text: string)

  datatype Partition = Partition(id: int, state: PartitionState, replicas: seq<Replica>)

  datatype Placement = Placement(partitions: seq<Partition>)

  /** Placed and serving: the partitions whose replicas have to settle. */
  predicate IsPlaced(part: Partition) {
    part.state == Active && |part.replicas| > 0
  }

  /** A data partition with a copy on every node. */
  predicate IsFullyReplicated(part: Partition) {
    part.id > 0 && part.state == Active && |part.replicas| == 0
  }

  function FullyReplicatedIn(parts: seq<Partition>): (ids: seq<int>)
    ensures (ids != []) <==> exists k :: 0 <= k < |parts| && IsFullyReplicated(parts[k])
  {
    if parts == [] then []
    else
      var last := parts[|parts| - 1];
      FullyReplicatedIn(parts[..|parts| - 1]) + if IsFullyReplicated(last) then [last.id] else []
  }

  /** Exactly the partitions with a copy on every node are listed. */
  lemma {:induction false} FullyReplicatedIds(parts: seq<Partition>, id: int)
    ensures id in FullyReplicatedIn(parts)
            <==> exists k :: 0 <= k < |parts| && parts[k].id == id > 0 && parts[k].state == Active && parts[k].replicas == []
  {
    if parts != [] {
      var rest, last := parts[..|parts| - 1], parts[|parts| - 1];
      FullyReplicatedIds(rest, id);
      assert forall k :: 0 <= k < |rest| ==> parts[k] == rest[k];
      assert parts[|parts| - 1] == last;
    }
  }

  method FullyReplicated(p: Placement) returns (ids: seq<int>)
    ensures ids == FullyReplicatedIn(p.partitions)
  {
    ids := [];
    for k := 0 to |p.partitions|
      invariant ids == FullyReplicatedIn(p.partitions[..k])
    {
      assert p.partitions[..k + 1][..k] == p.partitions[..k];
      if p.partitions[k].id > 0 && p.partitions[k].state == Active && |p.partitions[k].replicas| == 0 {
        ids := ids + [p.partitions[k].id];
      }
    }
    assert p.partitions[..|p.partitions|] == p.partitions;
  }

  datatype BackupOutcome =
    | NotBackupCoordinator
    | RetryableLeadershipLoss
    | CutUnverified
    | NotConfigured
    | ParentMissing
    | TopologyChanged
    | PartitionCaptureFailed
    | OtherBackupOutcome(text: string)

  predicate TryAnotherNode(o: BackupOutcome) {
    o in {NotBackupCoordinator, RetryableLeadershipLoss, CutUnverified, NotConfigured,
          TopologyChanged, PartitionCaptureFailed}
  }

  predicate ClearsOnRetry(o: BackupOutcome) {
    o in {NotBackupCoordinator, RetryableLeadershipLoss, CutUnverified,
          TopologyChanged, PartitionCaptureFailed}
  }

  datatype BackupInfo = BackupInfo(id: string, typ: string, actualKind: string)
}
