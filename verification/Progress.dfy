/**
 The membership protocol is not only safe: from every state of every fault-free run there is a way
 to the target, also from the middle of a pass and from a removal that was never reported.

 Models the pass order of Reconcile in internal/controller/kahunacluster_controller.go.
 */
module Progress {
  import opened Options
  import opened Naming
  import opened Kahuna
  import opened Roster
  import opened Settling
  import opened Plan
  import opened Protocol

  // ---------- paths ----------

  /** A nonempty sequence of steps of a fault-free cluster. */
  ghost predicate Path(c: Cluster, ws: seq<World>) {
    && |ws| > 0
    && forall k :: 0 <= k < |ws| - 1 ==> Next(c, ws[k], ws[k + 1])
  }

  function Last(ws: seq<World>): World
    requires |ws| > 0
  {
    ws[|ws| - 1]
  }

  lemma Join(c: Cluster, a: seq<World>, b: seq<World>)
    requires Path(c, a) && Path(c, b) && Last(a) == b[0]
    ensures Path(c, a + b[1..]) && Last(a + b[1..]) == Last(b) && (a + b[1..])[0] == a[0]
  {
  }

  lemma Extend(c: Cluster, ws: seq<World>, v: World)
    requires Path(c, ws) && Next(c, Last(ws), v)
    ensures Path(c, ws + [v]) && Last(ws + [v]) == v && (ws + [v])[0] == ws[0]
  {
  }

  // ---------- one round ----------

  lemma ExactRenders(c: Cluster, roster: map<nat, Role>, n: nat)
    requires ExactVoters(roster, n)
    ensures Renders(c, ExactMembership(c, n), roster) && RosterMatches(c, Some(ExactMembership(c, n)), n)
  {
    var m := ExactMembership(c, n);
    OrdinalsSize(n);
    assert roster.Keys == Ordinals(n);
    forall i | i in roster
      ensures Member(RaftEndpoint(c, i), roster[i]) in m.members
    {
      assert m.members[i] == Member(RaftEndpoint(c, i), Voter);
    }
    forall k | 0 <= k < |m.members|
      ensures exists i :: i in roster && m.members[k] == Member(RaftEndpoint(c, i), roster[i])
    {
      assert k in roster;
    }
    ExactReads(c, m, roster, n);
  }

  /** The world after the reads of a pass. */
  function Seen(c: Cluster, w: World, pods: seq<Pod>): World {
    var pr := match w.placement case None => Unsupported case Some(p) => ReadPlacement(p);
    w.(op := HasPlacement(w.target, pods, Some(ExactMembership(c, w.size)), pr))
  }

  lemma Started(c: Cluster, w: World, pods: seq<Pod>)
    requires Quiet(w)
    ensures Next(c, w, w.(op := Operator.Started(w.target, pods)))
  {
  }

  lemma RosterRead(c: Cluster, w: World, pods: seq<Pod>)
    requires Quiet(w)
    ensures Next(c, w.(op := Operator.Started(w.target, pods)),
                 w.(op := HasRoster(w.target, pods, Some(ExactMembership(c, w.size)))))
  {
    ExactRenders(c, w.roster, w.size);
    assert ReadsRoster(c, w.(op := Operator.Started(w.target, pods)),
                       w.(op := HasRoster(w.target, pods, Some(ExactMembership(c, w.size)))));
  }

  lemma PlacementRead(c: Cluster, w: World, pods: seq<Pod>)
    ensures Next(c, w.(op := HasRoster(w.target, pods, Some(ExactMembership(c, w.size)))), Seen(c, w, pods))
  {
  }

  /** The reads of one pass, up to the decision. */
  lemma ReadsOf(c: Cluster, w: World, pods: seq<Pod>) returns (ws: seq<World>)
    requires Quiet(w)
    ensures Path(c, ws) && ws[0] == w && Last(ws) == Seen(c, w, pods)
  {
    Started(c, w, pods);
    RosterRead(c, w, pods);
    PlacementRead(c, w, pods);
    ws := [w, w.(op := Operator.Started(w.target, pods)),
           w.(op := HasRoster(w.target, pods, Some(ExactMembership(c, w.size)))), Seen(c, w, pods)];
  }

  lemma GatesOpen(c: Cluster, w: World, pods: seq<Pod>)
    requires Quiet(w) && SettledFor(c, w, w.size)
    ensures RosterMatches(c, Seen(c, w, pods).op.m, w.size) && DataSettled(c, Seen(c, w, pods).op.pr, w.size)
  {
    ExactRenders(c, w.roster, w.size);
  }

  lemma GrowthDecided(c: Cluster, w: World)
    requires Quiet(w) && SettledFor(c, w, w.size) && w.size < w.target
    ensures var a := Seen(c, w, []);
            Next(c, a, a.(op := Decided(w.target, [], a.op.m, a.op.pr, LeaveFailed, w.size + 1)))
  {
    GatesOpen(c, w, []);
    var a := Seen(c, w, []);
    assert Decides(c, a, a.(op := Decided(w.target, [], a.op.m, a.op.pr, LeaveFailed, w.size + 1)));
  }

  lemma Written(c: Cluster, w: World)
    requires w.op.Decided?
    ensures Next(c, w, w.(size := w.op.next, op := Idle))
  {
  }

  lemma NewNodeArrives(c: Cluster, w: World)
    requires w.size >= 1 && w.size - 1 !in w.roster
    ensures var joined := w.(roster := w.roster[w.size - 1 := Learner]);
            && Next(c, w, joined)
            && Next(c, joined, w.(roster := w.roster[w.size - 1 := Voter]))
  {
    var joined := w.(roster := w.roster[w.size - 1 := Learner]);
    assert MovesMember(w, joined, w.size - 1);
    assert joined.roster[w.size - 1 := Voter] == w.roster[w.size - 1 := Voter];
    assert MovesMember(joined, w.(roster := w.roster[w.size - 1 := Voter]), w.size - 1);
  }

  /** Growing: the pass, the new pod joining as a Learner, its promotion. */
  lemma GrowRound(c: Cluster, w: World) returns (ws: seq<World>)
    requires Quiet(w) && SettledFor(c, w, w.size) && w.size < w.target
    ensures Path(c, ws) && ws[0] == w
    ensures Quiet(Last(ws)) && Last(ws).size == w.size + 1
    ensures Last(ws).target == w.target && Last(ws).placement == w.placement
  {
    var looked := ReadsOf(c, w, []);
    var a := Seen(c, w, []);
    var b := a.(op := Decided(w.target, [], a.op.m, a.op.pr, LeaveFailed, w.size + 1));
    var d := w.(size := w.size + 1);
    var e, f := d.(roster := w.roster[w.size := Learner]), d.(roster := w.roster[w.size := Voter]);
    GrowthDecided(c, w);
    Written(c, b);
    NewNodeArrives(c, d);
    Extend(c, looked, b);
    Extend(c, looked + [b], d);
    Extend(c, looked + [b] + [d], e);
    Extend(c, looked + [b] + [d] + [e], f);
    ws := looked + [b] + [d] + [e] + [f];
  }

  /** The top node's pod, as the pass lists it. */
  function TopPod(c: Cluster, w: World): seq<Pod>
    requires w.size >= 1
  {
    [Pod(PodName(c, w.size - 1), "10.0.0.1")]
  }

  /** The world after a decision to shrink on which the top node's leave committed. */
  function Leaving(c: Cluster, w: World): World
    requires w.size >= 1
  {
    var a := Seen(c, w, TopPod(c, w));
    a.(roster := w.roster - {w.size - 1},
       op := Decided(w.target, TopPod(c, w), a.op.m, a.op.pr, LeaveAnswered(Committed), w.size - 1))
  }

  lemma ShrinkDecided(c: Cluster, w: World)
    requires Quiet(w) && SettledFor(c, w, w.size) && w.size > w.target >= 1
    ensures Next(c, Seen(c, w, TopPod(c, w)), Leaving(c, w))
  {
    var pods := TopPod(c, w);
    GatesOpen(c, w, pods);
    assert pods[0].name == PodName(c, w.size - 1) && pods[0].ip != "";
    assert Reachable(pods, PodName(c, w.size - 1));
    assert Decides(c, Seen(c, w, pods), Leaving(c, w));
  }

  /** Shrinking: the pass with a committed leave, and the write. */
  lemma ShrinkRound(c: Cluster, w: World) returns (ws: seq<World>)
    requires Quiet(w) && SettledFor(c, w, w.size) && w.size > w.target >= 1
    ensures Path(c, ws) && ws[0] == w
    ensures Quiet(Last(ws)) && Last(ws).size == w.size - 1
    ensures Last(ws).target == w.target && Last(ws).placement == w.placement
  {
    var looked := ReadsOf(c, w, TopPod(c, w));
    var b := Leaving(c, w);
    var d := b.(size := w.size - 1, op := Idle);
    ShrinkDecided(c, w);
    Written(c, b);
    Extend(c, looked, b);
    Extend(c, looked + [b], d);
    ws := looked + [b] + [d];
  }

  // ---------- the data following ----------

  /** A placed partition with as many of its copies as there are nodes for, Voters all, on the first n. */
  function Rebalanced(c: Cluster, part: Partition, n: nat): Partition {
    if IsPlaced(part)
    then part.(replicas := seq(if |part.replicas| < n then |part.replicas| else n,
                               i requires i >= 0 => Replica(RaftEndpoint(c, i), Voter)))
    else part
  }

  lemma RebalancedPartition(c: Cluster, part: Partition, n: nat)
    requires n >= 1
    ensures SettledPartition(c, n, Rebalanced(c, part, n)) && KeptCopies(part, Rebalanced(c, part, n), n)
  {
    var reps := Rebalanced(c, part, n).replicas;
    if IsPlaced(part) {
      forall k | 0 <= k < |reps|
        ensures reps[k].endpoint in Endpoints(c, n)
      {
        assert Endpoints(c, n)[k] == reps[k].endpoint;
      }
      forall i, j | 0 <= i < j < |reps|
        ensures reps[i].endpoint != reps[j].endpoint
      {
        EndpointsDistinct(c, n);
        assert Endpoints(c, n)[i] == reps[i].endpoint && Endpoints(c, n)[j] == reps[j].endpoint;
      }
    }
  }

  /** A placed partition stays placed, on distinct nodes, with all its copies or at least n of them. */
  predicate KeptCopies(before: Partition, after: Partition, n: nat) {
    IsPlaced(before) ==>
      && IsPlaced(after) && DistinctReplicas(after.replicas)
      && (|after.replicas| >= |before.replicas| || |after.replicas| >= n)
  }

  predicate AllKeptCopies(before: seq<Partition>, after: seq<Partition>, n: nat) {
    |before| == |after| && forall k :: 0 <= k < |before| ==> KeptCopies(before[k], after[k], n)
  }

  lemma KeptTwice(a: seq<Partition>, b: seq<Partition>, d: seq<Partition>, n: nat, m: nat, l: nat)
    requires AllKeptCopies(a, b, n) && AllKeptCopies(b, d, m) && l <= n && l <= m
    ensures AllKeptCopies(a, d, l)
  {
    forall k | 0 <= k < |a|
      ensures KeptCopies(a[k], d[k], l)
    {
      assert KeptCopies(a[k], b[k], n) && KeptCopies(b[k], d[k], m);
    }
  }

  function RebalancedAll(c: Cluster, parts: seq<Partition>, n: nat): seq<Partition> {
    seq(|parts|, k requires 0 <= k < |parts| => Rebalanced(c, parts[k], n))
  }

  lemma RebalanceSettles(c: Cluster, parts: seq<Partition>, n: nat)
    requires n >= 1
    ensures SettleReasonOf(c, Some(Placement(RebalancedAll(c, parts, n))), n) == Settled
    ensures AllKeptCopies(parts, RebalancedAll(c, parts, n), n)
  {
    var after := RebalancedAll(c, parts, n);
    forall k | 0 <= k < |parts|
      ensures SettledPartition(c, n, after[k]) && KeptCopies(parts[k], after[k], n)
    {
      RebalancedPartition(c, parts[k], n);
    }
    SettledIffOnMembers(c, Some(Placement(after)), n);
  }

  lemma SettleNone(c: Cluster, n: nat)
    ensures SettleReasonOf(c, None, n) == Settled
  {
  }

  lemma SettleRound(c: Cluster, w: World) returns (ws: seq<World>)
    requires Quiet(w)
    ensures Path(c, ws) && ws[0] == w
    ensures Quiet(Last(ws)) && Last(ws).size == w.size && Last(ws).target == w.target
    ensures SettledFor(c, Last(ws), w.size)
    ensures AllKeptCopies(PartitionsOf(w.placement), PartitionsOf(Last(ws).placement), w.size)
  {
    match w.placement
    case None =>
      SettleNone(c, w.size);
      ws := [w];
    case Some(p) =>
      RebalanceSettles(c, p.partitions, w.size);
      var v := w.(placement := Some(Placement(RebalancedAll(c, p.partitions, w.size))));
      assert MovesReplicas(w, v);
      ws := [w, v];
  }

  /** The smaller of the sizes a change begins and ends with. */
  function Smaller(w: World): nat {
    if w.size < w.target then w.size else w.target
  }

  lemma Round(c: Cluster, w: World) returns (ws: seq<World>)
    requires Quiet(w) && SettledFor(c, w, w.size) && w.size != w.target && w.target >= 1
    ensures Path(c, ws) && ws[0] == w
    ensures Quiet(Last(ws)) && Last(ws).target == w.target && Last(ws).placement == w.placement
    ensures Last(ws).size == if w.size < w.target then w.size + 1 else w.size - 1
  {
    if w.size < w.target {
      ws := GrowRound(c, w);
    } else {
      ws := ShrinkRound(c, w);
    }
  }

  /**
   From every quiet state there is a fault-free run that ends at the target, one node per round,
   with an exact roster and a settled placement, and no partition loses more copies on the way than
   the smaller of the two sizes forces it to.
   */
  lemma {:induction false} TargetIsReachable(c: Cluster, w: World) returns (ws: seq<World>)
    requires Quiet(w) && w.target >= 1
    ensures Path(c, ws) && ws[0] == w
    ensures Quiet(Last(ws)) && Last(ws).size == w.target == Last(ws).target
    ensures SettledFor(c, Last(ws), w.target)
    ensures AllKeptCopies(PartitionsOf(w.placement), PartitionsOf(Last(ws).placement), Smaller(w))
    decreases Distance(w.size, w.target)
  {
    ws := SettleRound(c, w);
    var v := Last(ws);
    var before, middle := PartitionsOf(w.placement), PartitionsOf(v.placement);
    if w.size == w.target {
      return;
    }
    var round := Round(c, v);
    var rest := TargetIsReachable(c, Last(round));
    KeptTwice(before, middle, PartitionsOf(Last(rest).placement), w.size, Smaller(Last(round)), Smaller(w));
    Join(c, ws, round);
    Join(c, ws + round[1..], rest);
    ws := ws + round[1..] + rest[1..];
  }

  // ---------- recovery ----------

  /** The restart of the operator, from wherever it is. */
  lemma Restarted(c: Cluster, w: World)
    ensures Next(c, w, w.(op := Idle))
  {
  }

  /** The one node that may be in the way, or missing, at the top. */
  function Mended(w: World): World
    requires w.size >= 1
  {
    if w.size in w.roster then w.(roster := w.roster - {w.size})
    else w.(roster := w.roster[w.size - 1 := Voter])
  }

  lemma MendedIsQuiet(w: World)
    requires WithinOne(w) && w.op.Idle?
    ensures Quiet(Mended(w)) && Mended(w).size == w.size && Mended(w).target == w.target
    ensures Mended(w).placement == w.placement
  {
  }

  /** Evicted if it is no longer wanted; else it joins, is promoted, or gives its leave up. */
  lemma Mends(c: Cluster, w: World) returns (ws: seq<World>)
    requires WithinOne(w) && KnownRoles(w.roster) && w.op.Idle?
    ensures Path(c, ws) && ws[0] == w && Last(ws) == Mended(w)
  {
    var top, v := w.size - 1, Mended(w);
    if w.size in w.roster {
      assert MovesMember(w, v, w.size);
      ws := [w, v];
    } else if top !in w.roster {
      NewNodeArrives(c, w);
      ws := [w, w.(roster := w.roster[top := Learner]), v];
    } else if w.roster[top] == Voter {
      assert w.roster[top := Voter] == w.roster;
      ws := [w];
    } else {
      assert MovesMember(w, v, top);
      ws := [w, v];
    }
  }

  /**
   The protocol never paints itself into a corner: from every state of every fault-free run, in the
   middle of a pass, after a failed write or with a removal that was never reported, there is a way
   on that ends at the target with an exact roster.
   */
  lemma TargetStaysReachable(c: Cluster, ws: seq<World>, k: nat) returns (on: seq<World>)
    requires Run(c, ws) && k < |ws| && ws[k].target >= 1
    ensures Path(c, on) && on[0] == ws[k]
    ensures Quiet(Last(on)) && Last(on).size == ws[k].target == Last(on).target
    ensures SettledFor(c, Last(on), ws[k].target)
    ensures AllKeptCopies(PartitionsOf(ws[k].placement), PartitionsOf(Last(on).placement), Smaller(ws[k]))
  {
    RunsStayWithinOne(c, ws, k);
    RunsKeepRoles(c, ws, k);
    on := Recovers(c, ws[k]);
  }

  lemma Recovers(c: Cluster, w: World) returns (on: seq<World>)
    requires WithinOne(w) && KnownRoles(w.roster) && w.target >= 1
    ensures Path(c, on) && on[0] == w
    ensures Quiet(Last(on)) && Last(on).size == w.target == Last(on).target
    ensures SettledFor(c, Last(on), w.target)
    ensures AllKeptCopies(PartitionsOf(w.placement), PartitionsOf(Last(on).placement), Smaller(w))
  {
    var idle := w.(op := Idle);
    Restarted(c, w);
    var mending := Mends(c, idle);
    MendedIsQuiet(idle);
    var rest := TargetIsReachable(c, Mended(idle));
    Join(c, [w, idle], mending);
    Join(c, [w, idle] + mending[1..], rest);
    on := [w, idle] + mending[1..] + rest[1..];
  }

  // ---------- a removal that was committed but not reported ----------

  /** The top node's leave has committed, but the reply was lost: the pass holds the size. */
  function Unreported(c: Cluster, w: World): World
    requires w.size >= 1
  {
    var a := Seen(c, w, TopPod(c, w));
    a.(roster := w.roster - {w.size - 1},
       op := Decided(w.target, TopPod(c, w), a.op.m, a.op.pr, LeaveFailed, w.size))
  }

  lemma UnreportedDecided(c: Cluster, w: World)
    requires Quiet(w) && SettledFor(c, w, w.size) && w.size > w.target >= 1
    ensures Next(c, Seen(c, w, TopPod(c, w)), Unreported(c, w))
  {
    var pods := TopPod(c, w);
    GatesOpen(c, w, pods);
    assert pods[0].name == PodName(c, w.size - 1) && pods[0].ip != "";
    assert Reachable(pods, PodName(c, w.size - 1));
    assert Decides(c, Seen(c, w, pods), Unreported(c, w));
  }

  /**
   It happens: from every quiet and settled state above its target there is a fault-free run to an
   idle state of the same size whose top node is out of the roster.
   */
  lemma LeaveGoesUnreported(c: Cluster, w: World) returns (ws: seq<World>)
    requires Quiet(w) && SettledFor(c, w, w.size) && w.size > w.target >= 1
    ensures Run(c, ws) && ws[0] == w && w.size - 1 in w.roster
    ensures Last(ws) == w.(roster := w.roster - {w.size - 1})
  {
    var looked := ReadsOf(c, w, TopPod(c, w));
    var b := Unreported(c, w);
    var d := b.(op := Idle);
    UnreportedDecided(c, w);
    Written(c, b);
    Extend(c, looked, b);
    Extend(c, looked + [b], d);
    ws := looked + [b] + [d];
  }
}
