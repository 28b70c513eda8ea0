/**
 Whether the data has followed the last membership change: no replica move in flight, no replica
 on a node that left, and (for the autoscaler) a share of the data on every node.

 Models placementSettled and placementConverged of internal/controller/autoscaler.go.
 */
module Settling {
  import opened Options
  import opened Naming
  import opened Kahuna

  /** One replica together with the partition it belongs to. */
  datatype PlacedReplica = PlacedReplica(id: int, replica: Replica)

  function Tagged(id: int, reps: seq<Replica>): (rs: seq<PlacedReplica>)
    ensures |rs| == |reps|
    ensures forall k :: 0 <= k < |reps| ==> rs[k] == PlacedReplica(id, reps[k])
  {
    seq(|reps|, k requires 0 <= k < |reps| => PlacedReplica(id, reps[k]))
  }

  /** Every replica of the active placed partitions, in the order the loops visit them. */
  function AllReplicas(parts: seq<Partition>): seq<PlacedReplica> {
    if parts == [] then []
    else
      var last := parts[|parts| - 1];
      AllReplicas(parts[..|parts| - 1]) + if IsPlaced(last) then Tagged(last.id, last.replicas) else []
  }

  lemma AllReplicasStep(parts: seq<Partition>, k: nat)
    requires k < |parts|
    ensures IsPlaced(parts[k]) ==>
              AllReplicas(parts[..k + 1]) == AllReplicas(parts[..k]) + Tagged(parts[k].id, parts[k].replicas)
    ensures !IsPlaced(parts[k]) ==> AllReplicas(parts[..k + 1]) == AllReplicas(parts[..k])
  {
    assert parts[..k + 1][..k] == parts[..k];
  }

  function InFlight(rs: seq<PlacedReplica>): seq<int> {
    if rs == [] then []
    else
      var last := rs[|rs| - 1];
      InFlight(rs[..|rs| - 1]) + if last.replica.role != Voter then [last.id] else []
  }

  function Stranded(c: Cluster, n: nat, rs: seq<PlacedReplica>): seq<int> {
    if rs == [] then []
    else
      var last := rs[|rs| - 1];
      Stranded(c, n, rs[..|rs| - 1])
      + if last.replica.role == Voter && last.replica.endpoint !in Endpoints(c, n) then [last.id] else []
  }

  /** The endpoints of the Voter replicas on current members, one entry per replica. */
  function HostedOn(c: Cluster, n: nat, rs: seq<PlacedReplica>): seq<string> {
    if rs == [] then []
    else
      var last := rs[|rs| - 1];
      HostedOn(c, n, rs[..|rs| - 1])
      + if last.replica.role == Voter && last.replica.endpoint in Endpoints(c, n)
        then [last.replica.endpoint] else []
  }

  /** A read of a Go counter map: a missing key counts zero. */
  function Count(hosted: map<string, int>, e: string): int {
    if e in hosted then hosted[e] else 0
  }

  datatype SettleReason = Settled | MovesInFlight(ids: seq<int>) | StrandedOn(ids: seq<int>)

  function PartitionsOf(p: Option<Placement>): seq<Partition> {
    match p case None => [] case Some(q) => q.partitions
  }

  function SettleReasonOf(c: Cluster, p: Option<Placement>, n: nat): SettleReason {
    var rs := AllReplicas(PartitionsOf(p));
    if InFlight(rs) != [] then MovesInFlight(InFlight(rs))
    else if Stranded(c, n, rs) != [] then StrandedOn(Stranded(c, n, rs))
    else Settled
  }

  /** The running counts of placementSettled, after the replicas in `done`. */
  datatype Tally = Tally(hosted: map<string, int>, total: nat, inFlight: seq<int>, stranded: seq<int>)

  ghost predicate TallyOf(c: Cluster, n: nat, done: seq<PlacedReplica>, t: Tally) {
    && t.inFlight == InFlight(done)
    && t.stranded == Stranded(c, n, done)
    && t.total == |HostedOn(c, n, done)|
    && forall e :: Count(t.hosted, e) == multiset(HostedOn(c, n, done))[e]
  }

  /** One replica: the switch inside the two loops. */
  function TallyReplica(members: set<string>, t: Tally, r: PlacedReplica): Tally {
    if r.replica.role != Voter then t.(inFlight := t.inFlight + [r.id])
    else if r.replica.endpoint !in members then t.(stranded := t.stranded + [r.id])
    else t.(hosted := t.hosted[r.replica.endpoint := Count(t.hosted, r.replica.endpoint) + 1], total := t.total + 1)
  }

  lemma TallyStep(c: Cluster, n: nat, done: seq<PlacedReplica>, t: Tally, members: set<string>, r: PlacedReplica)
    requires TallyOf(c, n, done, t)
    requires forall e :: e in members <==> e in Endpoints(c, n)
    ensures TallyOf(c, n, done + [r], TallyReplica(members, t, r))
  {
    var next := done + [r];
    assert next[..|next| - 1] == done && next[|next| - 1] == r;
  }

  method TallyPartition(c: Cluster, n: nat, members: set<string>, part: Partition, t: Tally,
                        ghost done: seq<PlacedReplica>)
    returns (u: Tally)
    requires forall e :: e in members <==> e in Endpoints(c, n)
    requires TallyOf(c, n, done, t)
    ensures TallyOf(c, n, done + Tagged(part.id, part.replicas), u)
  {
    u := t;
    ghost var tagged := Tagged(part.id, part.replicas);
    assert done + tagged[..0] == done;
    for r := 0 to |part.replicas|
      invariant TallyOf(c, n, done + tagged[..r], u)
    {
      TallyStep(c, n, done + tagged[..r], u, members, tagged[r]);
      assert done + tagged[..r] + [tagged[r]] == done + tagged[..r + 1];
      u := TallyReplica(members, u, PlacedReplica(part.id, part.replicas[r]));
    }
    assert tagged[..|part.replicas|] == tagged;
  }

  // ---------- counting replicas where they are ----------

  /** The replicas that pass a test, as pairs of a placed partition's index and a replica's index in it. */
  function Where(parts: seq<Partition>, test: Replica -> bool): set<(int, int)> {
    set k, r | 0 <= k < |parts| && parts[k].state == Active
               && 0 <= r < |parts[k].replicas| && test(parts[k].replicas[r])
      :: (k, r)
  }

  function VoterOn(e: string): Replica -> bool {
    (r: Replica) => r.role == Voter && r.endpoint == e
  }

  function VoterOnMember(c: Cluster, n: nat): Replica -> bool {
    (r: Replica) => r.role == Voter && r.endpoint in Endpoints(c, n)
  }

  function CountIf(rs: seq<PlacedReplica>, test: Replica -> bool): nat {
    if rs == [] then 0 else CountIf(rs[..|rs| - 1], test) + if test(rs[|rs| - 1].replica) then 1 else 0
  }

  lemma {:induction false} CountIfConcat(a: seq<PlacedReplica>, b: seq<PlacedReplica>, test: Replica -> bool)
    ensures CountIf(a + b, test) == CountIf(a, test) + CountIf(b, test)
  {
    if b == [] {
      assert a + b == a;
    } else {
      CountIfConcat(a, b[..|b| - 1], test);
      assert (a + b)[..|a + b| - 1] == a + b[..|b| - 1];
    }
  }

  /** The pairs of one partition, with the index k. */
  function WhereIn(k: int, reps: seq<Replica>, test: Replica -> bool): set<(int, int)> {
    set r | 0 <= r < |reps| && test(reps[r]) :: (k, r)
  }

  lemma {:induction false} CountIn(k: int, id: int, reps: seq<Replica>, test: Replica -> bool)
    ensures |WhereIn(k, reps, test)| == CountIf(Tagged(id, reps), test)
  {
    if reps != [] {
      var rest, n := reps[..|reps| - 1], |reps| - 1;
      CountIn(k, id, rest, test);
      assert Tagged(id, reps)[..n] == Tagged(id, rest);
      assert WhereIn(k, reps, test) == WhereIn(k, rest, test) + if test(reps[n]) then {(k, n)} else {};
    }
  }

  lemma WhereStep(parts: seq<Partition>, test: Replica -> bool)
    requires parts != []
    ensures var n, last := |parts| - 1, parts[|parts| - 1];
            var here := if IsPlaced(last) then WhereIn(n, last.replicas, test) else {};
            Where(parts, test) == Where(parts[..n], test) + here && Where(parts[..n], test) !! here
  {
  }

  /** The walk visits every pair exactly once. */
  lemma {:induction false} CountIsWhere(parts: seq<Partition>, test: Replica -> bool)
    ensures |Where(parts, test)| == CountIf(AllReplicas(parts), test)
  {
    if parts != [] {
      var n, last := |parts| - 1, parts[|parts| - 1];
      CountIsWhere(parts[..n], test);
      WhereStep(parts, test);
      if IsPlaced(last) {
        CountIn(n, last.id, last.replicas, test);
        CountIfConcat(AllReplicas(parts[..n]), Tagged(last.id, last.replicas), test);
      } else {
        assert AllReplicas(parts) == AllReplicas(parts[..n]);
      }
    }
  }

  lemma {:induction false} HostedCounts(c: Cluster, n: nat, rs: seq<PlacedReplica>, e: string)
    ensures multiset(HostedOn(c, n, rs))[e] == if e in Endpoints(c, n) then CountIf(rs, VoterOn(e)) else 0
    ensures |HostedOn(c, n, rs)| == CountIf(rs, VoterOnMember(c, n))
  {
    if rs != [] {
      HostedCounts(c, n, rs[..|rs| - 1], e);
    }
  }

  lemma HostedIsWhere(c: Cluster, n: nat, parts: seq<Partition>)
    ensures |HostedOn(c, n, AllReplicas(parts))| == |Where(parts, VoterOnMember(c, n))|
    ensures forall e :: multiset(HostedOn(c, n, AllReplicas(parts)))[e]
                        == if e in Endpoints(c, n) then |Where(parts, VoterOn(e))| else 0
  {
    CountIsWhere(parts, VoterOnMember(c, n));
    HostedCounts(c, n, AllReplicas(parts), "");
    forall e
      ensures multiset(HostedOn(c, n, AllReplicas(parts)))[e]
              == if e in Endpoints(c, n) then |Where(parts, VoterOn(e))| else 0
    {
      CountIsWhere(parts, VoterOn(e));
      HostedCounts(c, n, AllReplicas(parts), e);
    }
  }

  /** placementSettled: the walk over the partitions, the inner walk over their replicas, the verdict. */
  method PlacementSettled(c: Cluster, p: Option<Placement>, current: nat)
    returns (hosted: map<string, int>, total: nat, reason: SettleReason)
    ensures reason == SettleReasonOf(c, p, current)
    ensures total == |Where(PartitionsOf(p), VoterOnMember(c, current))|
    ensures forall e :: Count(hosted, e) == if e in Endpoints(c, current) then |Where(PartitionsOf(p), VoterOn(e))| else 0
  {
    HostedIsWhere(c, current, PartitionsOf(p));
    if p == None {
      return map[], 0, Settled;
    }
    var members := set i | 0 <= i < current :: RaftEndpoint(c, i);
    MembersAreEndpoints(c, current);
    var t := Tally(map[], 0, [], []);
    var parts := p.value.partitions;
    for k := 0 to |parts|
      invariant TallyOf(c, current, AllReplicas(parts[..k]), t)
    {
      var part := parts[k];
      AllReplicasStep(parts, k);
      if part.state == Active && |part.replicas| != 0 {
        t := TallyPartition(c, current, members, part, t, AllReplicas(parts[..k]));
      }
    }
    assert parts[..|parts|] == parts;
    hosted, total := t.hosted, t.total;
    if |t.inFlight| > 0 {
      reason := MovesInFlight(t.inFlight);
    } else if |t.stranded| > 0 {
      reason := StrandedOn(t.stranded);
    } else {
      reason := Settled;
    }
  }

  lemma MembersAreEndpoints(c: Cluster, n: nat)
    ensures forall e :: e in (set i | 0 <= i < n :: RaftEndpoint(c, i)) <==> e in Endpoints(c, n)
  {
  }

  // ---------- what a settled placement says ----------

  /** Every replica of the partition is a Voter on one of the first n nodes. */
  predicate SettledPartition(c: Cluster, n: nat, part: Partition) {
    part.state == Active ==> forall k :: 0 <= k < |part.replicas| ==>
                               part.replicas[k].role == Voter && part.replicas[k].endpoint in Endpoints(c, n)
  }

  predicate OnMembers(c: Cluster, n: nat, rs: seq<PlacedReplica>) {
    forall k :: 0 <= k < |rs| ==> rs[k].replica.role == Voter && rs[k].replica.endpoint in Endpoints(c, n)
  }

  lemma {:induction false} SettledParts(c: Cluster, n: nat, parts: seq<Partition>)
    ensures OnMembers(c, n, AllReplicas(parts))
            <==> (forall k :: 0 <= k < |parts| ==> SettledPartition(c, n, parts[k]))
  {
    if parts != [] {
      var rest, last := parts[..|parts| - 1], parts[|parts| - 1];
      SettledParts(c, n, rest);
      var a, b := AllReplicas(rest), if IsPlaced(last) then Tagged(last.id, last.replicas) else [];
      assert AllReplicas(parts) == a + b;
      if OnMembers(c, n, AllReplicas(parts)) {
        forall k | 0 <= k < |a|
          ensures a[k].replica.role == Voter && a[k].replica.endpoint in Endpoints(c, n)
        {
          assert AllReplicas(parts)[k] == a[k];
        }
        forall k | 0 <= k < |b|
          ensures b[k].replica.role == Voter && b[k].replica.endpoint in Endpoints(c, n)
        {
          assert AllReplicas(parts)[|a| + k] == b[k];
        }
        assert SettledPartition(c, n, last) by {
          if IsPlaced(last) {
            forall k | 0 <= k < |last.replicas|
              ensures last.replicas[k].role == Voter && last.replicas[k].endpoint in Endpoints(c, n)
            {
              assert b[k].replica == last.replicas[k];
            }
          }
        }
        forall k | 0 <= k < |parts|
          ensures SettledPartition(c, n, parts[k])
        {
          if k < |rest| {
            assert rest[k] == parts[k];
          }
        }
      }
      if forall k :: 0 <= k < |parts| ==> SettledPartition(c, n, parts[k]) {
        assert forall k :: 0 <= k < |rest| ==> rest[k] == parts[k];
        assert SettledPartition(c, n, last);
      }
    }
  }

  lemma {:induction false} NothingToName(c: Cluster, n: nat, rs: seq<PlacedReplica>)
    ensures InFlight(rs) == [] && Stranded(c, n, rs) == [] <==> OnMembers(c, n, rs)
  {
    if rs != [] {
      var rest, last := rs[..|rs| - 1], rs[|rs| - 1];
      NothingToName(c, n, rest);
      assert forall k :: 0 <= k < |rest| ==> rs[k] == rest[k];
    }
  }

  /** Settled means exactly that every active placed partition has only Voters, all on current nodes. */
  lemma SettledIffOnMembers(c: Cluster, p: Option<Placement>, n: nat)
    ensures SettleReasonOf(c, p, n) == Settled
            <==> forall k :: 0 <= k < |PartitionsOf(p)| ==> SettledPartition(c, n, PartitionsOf(p)[k])
  {
    SettledParts(c, n, PartitionsOf(p));
    NothingToName(c, n, AllReplicas(PartitionsOf(p)));
  }

  lemma {:induction false} InFlightIds(rs: seq<PlacedReplica>, id: int)
    ensures id in InFlight(rs) <==> Visits(rs, id, NotVoter())
  {
    if rs != [] {
      var rest, last := rs[..|rs| - 1], rs[|rs| - 1];
      InFlightIds(rest, id);
      assert rs == rest + [last];
      VisitsConcat(rest, [last], id, NotVoter());
      assert [last][0] == last;
    }
  }

  lemma {:induction false} StrandedIds(c: Cluster, n: nat, rs: seq<PlacedReplica>, id: int)
    ensures id in Stranded(c, n, rs) <==> Visits(rs, id, StrandedReplica(c, n))
  {
    if rs != [] {
      var rest, last := rs[..|rs| - 1], rs[|rs| - 1];
      StrandedIds(c, n, rest, id);
      assert rs == rest + [last];
      VisitsConcat(rest, [last], id, StrandedReplica(c, n));
      assert [last][0] == last;
    }
  }

  /** The partition is placed and has a replica passing the test. */
  predicate Holds(part: Partition, test: Replica -> bool) {
    IsPlaced(part) && exists r :: 0 <= r < |part.replicas| && test(part.replicas[r])
  }

  predicate HasReplica(parts: seq<Partition>, id: int, test: Replica -> bool) {
    exists k :: 0 <= k < |parts| && parts[k].id == id && Holds(parts[k], test)
  }

  predicate Visits(rs: seq<PlacedReplica>, id: int, test: Replica -> bool) {
    exists j :: 0 <= j < |rs| && rs[j].id == id && test(rs[j].replica)
  }

  lemma VisitsConcat(a: seq<PlacedReplica>, b: seq<PlacedReplica>, id: int, test: Replica -> bool)
    ensures Visits(a + b, id, test) <==> Visits(a, id, test) || Visits(b, id, test)
  {
    if j :| 0 <= j < |a| && a[j].id == id && test(a[j].replica) {
      assert (a + b)[j] == a[j];
    }
    if j :| 0 <= j < |b| && b[j].id == id && test(b[j].replica) {
      assert (a + b)[|a| + j] == b[j];
    }
  }

  lemma VisitsOne(part: Partition, id: int, test: Replica -> bool)
    requires IsPlaced(part)
    ensures Visits(Tagged(part.id, part.replicas), id, test) <==> part.id == id && Holds(part, test)
  {
    var rs := Tagged(part.id, part.replicas);
    if part.id == id && Holds(part, test) {
      var r :| 0 <= r < |part.replicas| && test(part.replicas[r]);
      assert rs[r] == PlacedReplica(id, part.replicas[r]);
    }
  }

  lemma {:induction false} VisitedReplica(parts: seq<Partition>, id: int, test: Replica -> bool)
    ensures Visits(AllReplicas(parts), id, test) <==> HasReplica(parts, id, test)
  {
    if parts != [] {
      var rest, last := parts[..|parts| - 1], parts[|parts| - 1];
      VisitedReplica(rest, id, test);
      assert HasReplica(parts, id, test) <==> HasReplica(rest, id, test) || (last.id == id && Holds(last, test)) by {
        assert forall k :: 0 <= k < |rest| ==> parts[k] == rest[k];
        assert parts[|parts| - 1] == last;
      }
      if IsPlaced(last) {
        VisitsOne(last, id, test);
        VisitsConcat(AllReplicas(rest), Tagged(last.id, last.replicas), id, test);
      } else {
        assert AllReplicas(parts) == AllReplicas(rest);
      }
    }
  }

  function NotVoter(): Replica -> bool {
    (r: Replica) => r.role != Voter
  }

  function StrandedReplica(c: Cluster, n: nat): Replica -> bool {
    (r: Replica) => r.role == Voter && r.endpoint !in Endpoints(c, n)
  }

  /**
   What an unsettled placement is held for: a move in flight wherever there is one, else the
   partitions left on nodes that are gone, and in either case exactly those.
   */
  lemma HoldNamesPartitions(c: Cluster, p: Option<Placement>, n: nat, id: int)
    ensures var parts, reason := PartitionsOf(p), SettleReasonOf(c, p, n);
            && (reason.MovesInFlight? ==> (id in reason.ids <==> HasReplica(parts, id, NotVoter())))
            && (reason.StrandedOn? ==> (id in reason.ids <==> HasReplica(parts, id, StrandedReplica(c, n))))
            && (HasReplica(parts, id, NotVoter()) ==> reason.MovesInFlight?)
  {
    var parts := PartitionsOf(p);
    InFlightIds(AllReplicas(parts), id);
    StrandedIds(c, n, AllReplicas(parts), id);
    VisitedReplica(parts, id, NotVoter());
    VisitedReplica(parts, id, StrandedReplica(c, n));
  }

  /** How many of the replicas are on the first n nodes. */
  function CopiesOn(c: Cluster, n: nat, reps: seq<Replica>): nat {
    if reps == [] then 0
    else CopiesOn(c, n, reps[..|reps| - 1]) + if reps[|reps| - 1].endpoint in Endpoints(c, n) then 1 else 0
  }

  predicate DistinctReplicas(reps: seq<Replica>) {
    forall i, j :: 0 <= i < j < |reps| ==> reps[i].endpoint != reps[j].endpoint
  }

  lemma {:induction false} LosesAtMostOne(c: Cluster, n: nat, reps: seq<Replica>)
    requires n > 0 && DistinctReplicas(reps)
    requires forall k :: 0 <= k < |reps| ==> reps[k].endpoint in Endpoints(c, n)
    ensures CopiesOn(c, n - 1, reps)
            == |reps| - if exists k :: 0 <= k < |reps| && reps[k].endpoint == RaftEndpoint(c, n - 1) then 1 else 0
  {
    if reps != [] {
      var rest, last := reps[..|reps| - 1], reps[|reps| - 1];
      LosesAtMostOne(c, n, rest);
      LastEndpoint(c, n, last.endpoint);
      assert reps[|reps| - 1] == last;
      if last.endpoint == RaftEndpoint(c, n - 1) {
        assert !(exists k :: 0 <= k < |rest| && rest[k].endpoint == RaftEndpoint(c, n - 1));
      } else {
        forall k | 0 <= k < |reps| && reps[k].endpoint == RaftEndpoint(c, n - 1)
          ensures k < |rest| && rest[k].endpoint == RaftEndpoint(c, n - 1)
        {
        }
      }
    }
  }

  lemma LastEndpoint(c: Cluster, n: nat, e: string)
    requires n > 0 && e in Endpoints(c, n)
    ensures e in Endpoints(c, n - 1) <==> e != RaftEndpoint(c, n - 1)
  {
    var i :| 0 <= i < n && Endpoints(c, n)[i] == e;
    if i < n - 1 {
      assert Endpoints(c, n - 1)[i] == e;
      if e == RaftEndpoint(c, n - 1) {
        EndpointInjective(c, i, n - 1);
      }
    } else if e in Endpoints(c, n - 1) {
      var j :| 0 <= j < n - 1 && Endpoints(c, n - 1)[j] == e;
      EndpointInjective(c, j, n - 1);
    }
  }

  /**
   Taking the top node away from a settled cluster costs a placed partition at most one copy: the
   survivors hold all of its replicas, less one exactly when the top node held one.
   */
  lemma AtMostOneCopyLost(c: Cluster, p: Placement, n: nat, k: nat)
    requires SettleReasonOf(c, Some(p), n) == Settled && n > 0
    requires k < |p.partitions| && IsPlaced(p.partitions[k]) && DistinctReplicas(p.partitions[k].replicas)
    ensures var reps := p.partitions[k].replicas;
            && (forall r :: 0 <= r < |reps| ==> reps[r].role == Voter && reps[r].endpoint in Endpoints(c, n))
            && CopiesOn(c, n - 1, reps) >= |reps| - 1
            && (CopiesOn(c, n - 1, reps) == |reps|
                <==> forall r :: 0 <= r < |reps| ==> reps[r].endpoint != RaftEndpoint(c, n - 1))
  {
    SettledIffOnMembers(c, Some(p), n);
    assert SettledPartition(c, n, p.partitions[k]);
    LosesAtMostOne(c, n, p.partitions[k].replicas);
  }
}
