/**
 The membership protocol as a transition system. A pass of the operator is a sequence of separate
 steps (start, roster read, placement read, plan with its leave request, size write), and between
 any two of them the cluster may move: the target is edited, a new pod joins as a Learner, a
 Learner is promoted, a departed node is evicted, a leave in progress ends, replicas move.

 Models the pass order of Reconcile and reconcileStatefulSet in
 internal/controller/kahunacluster_controller.go around buildPlan of internal/controller/plan.go.
 */
module Protocol {
  import opened Options
  import opened Naming
  import opened Kahuna
  import opened Roster
  import opened Settling
  import opened Plan

  /** Where the operator is within a pass, with what it has read so far. */
  datatype Operator =
    | Idle
    | Started(target: nat, pods: seq<Pod>)
    | HasRoster(target: nat, pods: seq<Pod>, m: Option<Membership>)
    | HasPlacement(target: nat, pods: seq<Pod>, m: Option<Membership>, pr: PlacementRead)
    | Decided(target: nat, pods: seq<Pod>, m: Option<Membership>, pr: PlacementRead,
              reply: LeaveReply, next: nat)

  /**
   A bootstrapped cluster: the target, the StatefulSet's size, the committed roster by ordinal, the
   committed placement (None on a server without it) and the operator.
   */
  datatype World = World(target: nat, size: nat, roster: map<nat, Role>, placement: Option<Placement>, op: Operator)

  // ---------- reading the roster ----------

  /** m lists exactly the members of the roster, each once, in some order. */
  ghost predicate Renders(c: Cluster, m: Membership, roster: map<nat, Role>) {
    && |m.members| == |roster|
    && (forall i :: i in roster ==> Member(RaftEndpoint(c, i), roster[i]) in m.members)
    && (forall k :: 0 <= k < |m.members| ==>
          exists i :: i in roster && m.members[k] == Member(RaftEndpoint(c, i), roster[i]))
  }

  /** The roster is ordinals 0..n-1, all Voters, and nothing else. */
  predicate ExactVoters(roster: map<nat, Role>, n: nat) {
    && (forall i: nat :: i < n ==> i in roster && roster[i] == Voter)
    && (forall i :: i in roster ==> i < n)
  }

  lemma ReadEntry(c: Cluster, m: Membership, roster: map<nat, Role>, n: nat, i: nat)
    requires Renders(c, m, roster) && IsExactRoster(c, m.members, n) && i in roster
    ensures i < n && roster[i] == Voter
  {
    var k :| 0 <= k < |m.members| && m.members[k] == Member(RaftEndpoint(c, i), roster[i]);
    var j := OrdinalOfEndpoint(c, MemberEndpoints(m.members), n, k);
    EndpointInjective(c, i, j);
  }

  lemma ReadVoter(c: Cluster, m: Membership, roster: map<nat, Role>, i: nat)
    requires Renders(c, m, roster) && HasVoter(m, RaftEndpoint(c, i))
    ensures i in roster
  {
    var k :| 0 <= k < |m.members| && m.members[k].endpoint == RaftEndpoint(c, i) && m.members[k].role == Voter;
    var j :| j in roster && m.members[k] == Member(RaftEndpoint(c, j), roster[j]);
    EndpointInjective(c, i, j);
  }

  lemma ExactReads(c: Cluster, m: Membership, roster: map<nat, Role>, n: nat)
    requires Renders(c, m, roster) && ExactVoters(roster, n)
    ensures RosterMatches(c, Some(m), n)
  {
    OrdinalsSize(n);
    assert roster.Keys == Ordinals(n);
    forall i: nat | i < n
      ensures HasVoter(m, RaftEndpoint(c, i))
    {
      assert Member(RaftEndpoint(c, i), roster[i]) in m.members;
    }
  }

  lemma MatchReads(c: Cluster, m: Membership, roster: map<nat, Role>, n: nat)
    requires Renders(c, m, roster) && RosterMatches(c, Some(m), n)
    ensures ExactVoters(roster, n)
  {
    forall i | i in roster
      ensures i < n && roster[i] == Voter
    {
      GateIsExact(c, m, n);
      ReadEntry(c, m, roster, n, i);
    }
    forall i: nat | i < n
      ensures i in roster
    {
      assert HasVoter(m, RaftEndpoint(c, i));
      ReadVoter(c, m, roster, i);
    }
  }

  /** On a faithful read the gate says exactly what the roster is. */
  lemma GateReadsRoster(c: Cluster, m: Membership, roster: map<nat, Role>, n: nat)
    requires Renders(c, m, roster)
    ensures RosterMatches(c, Some(m), n) <==> ExactVoters(roster, n)
  {
    if RosterMatches(c, Some(m), n) {
      MatchReads(c, m, roster, n);
    } else if ExactVoters(roster, n) {
      ExactReads(c, m, roster, n);
    }
  }

  // ---------- the operator's steps ----------

  predicate Begin(w: World, v: World) {
    w.op.Idle? && v.op.Started? && v.op.target == w.target && v == w.(op := v.op)
  }

  ghost predicate ReadsRoster(c: Cluster, w: World, v: World) {
    && w.op.Started? && v.op.HasRoster?
    && v == w.(op := HasRoster(w.op.target, w.op.pods, v.op.m))
    && RosterSeen(c, w, v.op.m)
  }

  /** The read failed, or it is the committed roster of that moment. */
  ghost predicate RosterSeen(c: Cluster, w: World, m: Option<Membership>) {
    m.Some? ==> Renders(c, m.value, w.roster)
  }

  predicate ReadsPlacement(w: World, v: World) {
    && w.op.HasRoster? && v.op.HasPlacement?
    && v == w.(op := HasPlacement(w.op.target, w.op.pods, w.op.m, v.op.pr))
    && PlacementSeen(w, v.op.pr)
  }

  /** The read failed, or it is the committed placement of that moment. */
  predicate PlacementSeen(w: World, pr: PlacementRead) {
    !pr.CannotRead? ==> pr.AsPlacement() == w.placement
  }

  /** What a leave request may do to the roster, by its reply. A lost reply says nothing. */
  predicate LeaveEffect(before: map<nat, Role>, after: map<nat, Role>, i: nat, reply: LeaveReply) {
    if reply == LeaveAnswered(Committed) then after == before - {i}
    else if reply == LeaveAnswered(NotAMember) then i !in before && after == before
    else after == before || after == before - {i} || (i in before && after == before[i := Leaving])
  }

  predicate Decides(c: Cluster, w: World, v: World) {
    && w.op.HasPlacement? && v.op.Decided?
    && v == w.(roster := v.roster,
               op := Decided(w.op.target, w.op.pods, w.op.m, w.op.pr, v.op.reply, v.op.next))
    && v.op.next == PlanAfterLeave(c, w.op.target, w.size, true, w.op.m, w.op.pr, w.op.pods, v.op.reply).replicas
    && (if BuildPlan(c, w.op.target, w.size, true, w.op.m, w.op.pr).replicas < w.size
           && Reachable(w.op.pods, PodName(c, w.size - 1))
        then LeaveEffect(w.roster, v.roster, w.size - 1, v.op.reply)
        else v.roster == w.roster)
  }

  /** The write lands, or fails and leaves the size alone. */
  predicate Writes(w: World, v: World) {
    && w.op.Decided?
    && (v == w.(size := w.op.next, op := Idle) || v == w.(op := Idle))
  }

  /** The operator restarts and forgets the pass. */
  predicate Restarts(w: World, v: World) {
    v == w.(op := Idle)
  }

  ghost predicate OperatorStep(c: Cluster, w: World, v: World) {
    || Begin(w, v)
    || ReadsRoster(c, w, v)
    || ReadsPlacement(w, v)
    || Decides(c, w, v)
    || Writes(w, v)
    || Restarts(w, v)
  }

  // ---------- the cluster's steps ----------

  /** A pod the StatefulSet wants joins the roster as a Learner. */
  predicate Joins(w: World, v: World, i: nat) {
    i < w.size && i !in w.roster && v == w.(roster := w.roster[i := Learner])
  }

  predicate Promotes(w: World, v: World, i: nat) {
    i in w.roster && w.roster[i] == Learner && v == w.(roster := w.roster[i := Voter])
  }

  /** A node the StatefulSet no longer wants is evicted. */
  predicate Evicts(w: World, v: World, i: nat) {
    i in w.roster && i >= w.size && v == w.(roster := w.roster - {i})
  }

  /** A leave that was still draining commits, or is abandoned. */
  predicate EndsLeave(w: World, v: World, i: nat) {
    && i in w.roster && w.roster[i] == Leaving
    && (v == w.(roster := w.roster - {i}) || v == w.(roster := w.roster[i := Voter]))
  }

  predicate EditsTarget(w: World, v: World) {
    v == w.(target := v.target)
  }

  predicate MovesReplicas(w: World, v: World) {
    v == w.(placement := v.placement) && (w.placement.Some? <==> v.placement.Some?)
  }

  predicate MovesMember(w: World, v: World, i: nat) {
    Joins(w, v, i) || Promotes(w, v, i) || Evicts(w, v, i) || EndsLeave(w, v, i)
  }

  /** A fault-free cluster: nothing leaves the roster unasked while the StatefulSet wants it. */
  ghost predicate ClusterStep(w: World, v: World) {
    EditsTarget(w, v) || MovesReplicas(w, v) || exists i: nat :: MovesMember(w, v, i)
  }

  /** Any cluster at all: everything but the StatefulSet's size and the operator may change. */
  predicate AnythingElse(w: World, v: World) {
    v.size == w.size && v.op == w.op
  }

  ghost predicate Next(c: Cluster, w: World, v: World) {
    OperatorStep(c, w, v) || ClusterStep(w, v)
  }

  ghost predicate NextAnyhow(c: Cluster, w: World, v: World) {
    OperatorStep(c, w, v) || AnythingElse(w, v)
  }

  /** No pass under way, and the roster exact for the size. A freshly bootstrapped cluster is one case. */
  predicate Quiet(w: World) {
    w.size >= 1 && ExactVoters(w.roster, w.size) && w.op.Idle?
  }

  ghost predicate Run(c: Cluster, ws: seq<World>) {
    && |ws| > 0 && Quiet(ws[0])
    && forall k :: 0 <= k < |ws| - 1 ==> Next(c, ws[k], ws[k + 1])
  }

  ghost predicate RunAnyhow(c: Cluster, ws: seq<World>) {
    && |ws| > 0 && ws[0].op.Idle?
    && forall k :: 0 <= k < |ws| - 1 ==> NextAnyhow(c, ws[k], ws[k + 1])
  }

  // ---------- the invariant of fault-free runs ----------

  /** The roster is at most one node away from ordinals 0..size-1, and only at the top. */
  predicate WithinOne(w: World) {
    && w.size >= 1
    && (forall i: nat :: i + 1 < w.size ==> i in w.roster && w.roster[i] == Voter)
    && (forall i :: i in w.roster ==> i <= w.size)
    && (w.size in w.roster ==> w.size - 1 in w.roster && w.roster[w.size - 1] == Voter)
  }

  /** What the operator's reads of this pass still guarantee about the present. */
  predicate PassInv(c: Cluster, w: World) {
    match w.op
    case Idle => true
    case Started(_, _) => true
    case HasRoster(_, _, m) => RosterMatches(c, m, w.size) ==> ExactVoters(w.roster, w.size)
    case HasPlacement(_, _, m, _) => RosterMatches(c, m, w.size) ==> ExactVoters(w.roster, w.size)
    case Decided(_, _, _, _, _, next) =>
      || next == w.size
      || (next == w.size + 1 && ExactVoters(w.roster, w.size))
      || (next + 1 == w.size && next >= 1 && w.size !in w.roster)
  }

  predicate Inv(c: Cluster, w: World) {
    WithinOne(w) && PassInv(c, w)
  }

  /** An exact roster stays exact until the operator itself changes something. */
  lemma ExactIsStable(w: World, v: World)
    requires ExactVoters(w.roster, w.size) && ClusterStep(w, v)
    ensures ExactVoters(v.roster, v.size) && v.size == w.size && v.op == w.op
  {
  }

  lemma ClusterKeepsInv(c: Cluster, w: World, v: World)
    requires Inv(c, w) && ClusterStep(w, v)
    ensures Inv(c, v)
  {
    if ExactVoters(w.roster, w.size) {
      ExactIsStable(w, v);
    }
  }

  lemma DecisionKeepsInv(c: Cluster, w: World, v: World)
    requires Inv(c, w) && Decides(c, w, v)
    ensures Inv(c, v)
  {
    if BuildPlan(c, w.op.target, w.size, true, w.op.m, w.op.pr).replicas != w.size {
      assert ExactVoters(w.roster, w.size);
      assert w.size !in w.roster;
    }
  }

  lemma OperatorKeepsInv(c: Cluster, w: World, v: World)
    requires Inv(c, w) && OperatorStep(c, w, v)
    ensures Inv(c, v)
  {
    if Decides(c, w, v) {
      DecisionKeepsInv(c, w, v);
    } else if ReadsRoster(c, w, v) {
      if RosterMatches(c, v.op.m, w.size) {
        GateReadsRoster(c, v.op.m.value, w.roster, w.size);
      }
    }
  }

  /** Every state of every fault-free run keeps the roster within one node of the StatefulSet. */
  lemma {:induction false} RunsStayWithinOne(c: Cluster, ws: seq<World>, k: nat)
    requires Run(c, ws) && k < |ws|
    ensures Inv(c, ws[k])
  {
    if k > 0 {
      RunsStayWithinOne(c, ws, k - 1);
      assert Next(c, ws[k - 1], ws[k - 1 + 1]);
      if OperatorStep(c, ws[k - 1], ws[k]) {
        OperatorKeepsInv(c, ws[k - 1], ws[k]);
      } else {
        ClusterKeepsInv(c, ws[k - 1], ws[k]);
      }
    }
  }

  /** Nothing else is ever committed to the roster of a fault-free run. */
  predicate KnownRoles(roster: map<nat, Role>) {
    forall i :: i in roster ==> roster[i] in {Voter, Learner, Role.Leaving}
  }

  lemma StepKeepsRoles(c: Cluster, w: World, v: World)
    requires KnownRoles(w.roster) && Next(c, w, v)
    ensures KnownRoles(v.roster)
  {
  }

  lemma {:induction false} RunsKeepRoles(c: Cluster, ws: seq<World>, k: nat)
    requires Run(c, ws) && k < |ws|
    ensures KnownRoles(ws[k].roster)
  {
    if k > 0 {
      RunsKeepRoles(c, ws, k - 1);
      assert Next(c, ws[k - 1], ws[k - 1 + 1]);
      StepKeepsRoles(c, ws[k - 1], ws[k]);
    }
  }

  function VotersOf(roster: map<nat, Role>): set<nat> {
    set i | i in roster && roster[i] == Voter
  }

  lemma VotersWithinOne(w: World)
    requires WithinOne(w)
    ensures Ordinals(w.size - 1) <= VotersOf(w.roster) <= Ordinals(w.size + 1)
    ensures w.size in VotersOf(w.roster) ==> Ordinals(w.size) <= VotersOf(w.roster)
  {
  }

  /** With three nodes or more, the committed Voters are a majority of the wanted size in every state of every run. */
  lemma RunsKeepQuorum(c: Cluster, ws: seq<World>, k: nat)
    requires Run(c, ws) && k < |ws| && ws[k].size >= 3
    ensures HasQuorum(|VotersOf(ws[k].roster)|, ws[k].size)
  {
    RunsStayWithinOne(c, ws, k);
    VotersOfThree(ws[k]);
  }

  lemma VotersOfThree(w: World)
    requires WithinOne(w) && w.size >= 3
    ensures HasQuorum(|VotersOf(w.roster)|, w.size)
  {
    VotersWithinOne(w);
    OrdinalsSize(w.size - 1);
    SubsetSize(Ordinals(w.size - 1), VotersOf(w.roster));
  }

  /**
   The nodes the StatefulSet keeps are a strict majority of the committed Voters in every state of
   every run with two nodes or more: deleting the pods above the size never takes the quorum away.
   */
  lemma SurvivorsAreAMajority(c: Cluster, ws: seq<World>, k: nat)
    requires Run(c, ws) && k < |ws| && ws[k].size >= 2
    ensures 2 * |VotersOf(ws[k].roster) * Ordinals(ws[k].size)| > |VotersOf(ws[k].roster)|
  {
    RunsStayWithinOne(c, ws, k);
    var w := ws[k];
    VotersWithinOne(w);
    var voters, kept := VotersOf(w.roster), VotersOf(w.roster) * Ordinals(w.size);
    OrdinalsSize(w.size - 1);
    if w.size in voters {
      assert kept == Ordinals(w.size) && voters == kept + {w.size};
      OrdinalsSize(w.size);
    } else {
      assert kept == voters;
      SubsetSize(Ordinals(w.size - 1), voters);
    }
  }

  // ---------- what is behind every change of size, in any run ----------

  /** The operator holds a roster read, so the size has not been written since. */
  predicate HoldsRoster(op: Operator) {
    op.HasRoster? || op.HasPlacement? || op.Decided?
  }

  predicate HoldsPlacement(op: Operator) {
    op.HasPlacement? || op.Decided?
  }

  /** The moment the roster of the present pass was read. */
  lemma {:induction false} RosterWasRead(c: Cluster, ws: seq<World>, k: nat) returns (r: nat)
    requires RunAnyhow(c, ws) && k < |ws| && HoldsRoster(ws[k].op)
    ensures r < k && RosterSeen(c, ws[r], ws[k].op.m)
    ensures forall j :: r < j <= k ==> HoldsRoster(ws[j].op)
    ensures forall j :: r <= j <= k ==> ws[j].size == ws[k].size
  {
    assert k > 0;
    assert NextAnyhow(c, ws[k - 1], ws[k - 1 + 1]);
    if HoldsRoster(ws[k - 1].op) {
      r := RosterWasRead(c, ws, k - 1);
    } else {
      r := k - 1;
    }
  }

  /** The moment the placement of the present pass was read, after the roster. */
  lemma {:induction false} PlacementWasRead(c: Cluster, ws: seq<World>, k: nat) returns (q: nat, r: nat)
    requires RunAnyhow(c, ws) && k < |ws| && HoldsPlacement(ws[k].op)
    ensures q < r < k && RosterSeen(c, ws[q], ws[k].op.m) && PlacementSeen(ws[r], ws[k].op.pr)
    ensures forall j :: q < j <= k ==> HoldsRoster(ws[j].op)
    ensures forall j :: q <= j <= k ==> ws[j].size == ws[k].size
  {
    assert k > 0;
    assert NextAnyhow(c, ws[k - 1], ws[k - 1 + 1]);
    if HoldsPlacement(ws[k - 1].op) {
      q, r := PlacementWasRead(c, ws, k - 1);
    } else {
      r := k - 1;
      q := RosterWasRead(c, ws, k - 1);
    }
  }

  /** The step that is about to be written is the plan of what the pass read. */
  predicate DecisionInv(c: Cluster, w: World) {
    w.op.Decided? ==>
      w.op.next == PlanAfterLeave(c, w.op.target, w.size, true, w.op.m, w.op.pr, w.op.pods, w.op.reply).replicas
  }

  lemma {:induction false} DecisionsArePlans(c: Cluster, ws: seq<World>, k: nat)
    requires RunAnyhow(c, ws) && k < |ws|
    ensures DecisionInv(c, ws[k])
  {
    if k > 0 {
      DecisionsArePlans(c, ws, k - 1);
      assert NextAnyhow(c, ws[k - 1], ws[k - 1 + 1]);
    }
  }

  predicate ChangesSize(ws: seq<World>, k: nat) {
    k + 1 < |ws| && ws[k + 1].size != ws[k].size
  }

  /** The committed placement is settled for n nodes, or there is none. */
  predicate SettledFor(c: Cluster, w: World, n: nat) {
    SettleReasonOf(c, w.placement, n) == Settled
  }

  /**
   In any run, whatever the cluster does to its roster and placement: a change of size is one node toward the target of its
   pass; before it, in the same pass and with the size still unchanged, there was a moment at which
   the committed roster was exactly the nodes of the old size, and after that one at which the
   committed placement was settled for it; and a shrink has the top node reported out, or has no
   pod to ask.
   */
  lemma ChangeIsEarned(c: Cluster, ws: seq<World>, k: nat) returns (q: nat, r: nat)
    requires RunAnyhow(c, ws) && ChangesSize(ws, k)
    ensures q < r < k && PlacementSeen(ws[r], ws[k].op.pr)
    ensures ExactVoters(ws[q].roster, ws[k].size) && SettledFor(c, ws[r], ws[k].size)
    ensures forall j :: q <= j <= k ==> ws[j].size == ws[k].size
    ensures forall j :: q < j <= k ==> HoldsRoster(ws[j].op)
    ensures ws[k].op.Decided? && ws[k + 1].size == ws[k].op.next && ws[k + 1].op.Idle?
    ensures Distance(ws[k + 1].size, ws[k].size) == 1
    ensures Distance(ws[k].op.target, ws[k + 1].size) == Distance(ws[k].op.target, ws[k].size) - 1
    ensures ws[k + 1].size < ws[k].size ==> MayGo(c, ws[k].op.pods, ws[k].size - 1, ws[k].op.reply)
  {
    assert NextAnyhow(c, ws[k], ws[k + 1]);
    assert Writes(ws[k], ws[k + 1]);
    DecisionsArePlans(c, ws, k);
    q, r := PlacementWasRead(c, ws, k);
    var op := ws[k].op;
    assert RosterMatches(c, op.m, ws[k].size);
    GateReadsRoster(c, op.m.value, ws[q].roster, ws[k].size);
  }

  /**
   The next change waits for the last one: between two changes of size the committed roster was, at
   some moment, exactly the nodes of the size between them, and the committed placement, at a later
   moment, named no node outside it.
   */
  lemma NextChangeWaits(c: Cluster, ws: seq<World>, k1: nat, k2: nat) returns (q: nat, r: nat)
    requires RunAnyhow(c, ws) && k1 < k2 && ChangesSize(ws, k1) && ChangesSize(ws, k2)
    ensures k1 < q < r < k2
    ensures ExactVoters(ws[q].roster, ws[k2].size) && SettledFor(c, ws[r], ws[k2].size)
  {
    var q1, r1 := ChangeIsEarned(c, ws, k1);
    q, r := ChangeIsEarned(c, ws, k2);
    assert !HoldsRoster(ws[k1 + 1].op);
  }

  /**
   At most one copy lost per shrink: when a run shrinks from n to n-1, the committed placement its
   pass read and decided on had only Voters on the first n nodes, and every placed partition keeps
   all of its copies but one, or all of them, on the nodes that stay.
   */
  lemma ShrinkCostsOneCopy(c: Cluster, ws: seq<World>, k: nat) returns (r: nat)
    requires RunAnyhow(c, ws) && ChangesSize(ws, k) && ws[k + 1].size < ws[k].size
    ensures r < k && PlacementSeen(ws[r], ws[k].op.pr) && SettledFor(c, ws[r], ws[k].size)
    ensures forall j :: r <= j <= k ==> ws[j].size == ws[k].size && HoldsRoster(ws[j].op)
    ensures forall part :: part in PartitionsOf(ws[r].placement) && IsPlaced(part) && DistinctReplicas(part.replicas)
                           ==> CopiesOn(c, ws[k + 1].size, part.replicas) >= |part.replicas| - 1
  {
    var q;
    q, r := ChangeIsEarned(c, ws, k);
    var n := ws[k].size;
    forall part | part in PartitionsOf(ws[r].placement) && IsPlaced(part) && DistinctReplicas(part.replicas)
      ensures CopiesOn(c, n - 1, part.replicas) >= |part.replicas| - 1
    {
      var p := ws[r].placement.value;
      var i :| 0 <= i < |p.partitions| && p.partitions[i] == part;
      AtMostOneCopyLost(c, p, n, i);
    }
  }

  // ---------- a removal that was committed but not reported ----------

  /**
   A planned shrink goes ahead exactly when the top node may go: it reported itself out, or it has
   no pod to ask. A removal that was committed without a report is not enough.
   */
  lemma ShrinksExactlyWhenReported(c: Cluster, w: World, v: World)
    requires Decides(c, w, v) && BuildPlan(c, w.op.target, w.size, true, w.op.m, w.op.pr).replicas < w.size
    ensures v.op.next == w.size - 1 <==> MayGo(c, w.op.pods, w.size - 1, v.op.reply)
    ensures v.op.next == w.size <==> !MayGo(c, w.op.pods, w.size - 1, v.op.reply)
    ensures MayGo(c, w.op.pods, w.size - 1, v.op.reply) && Reachable(w.op.pods, PodName(c, w.size - 1)) ==>
              w.size - 1 !in v.roster
  {
  }

  /**
   And then the size stays. In any run, from a moment at which no roster read is held, the size
   changes only after a later moment at which the committed roster was exact again, so that a top
   node that was out is back as a Voter.
   */
  lemma {:induction false} HoldEndsWhenBack(c: Cluster, ws: seq<World>, a: nat, k: nat) returns (q: nat)
    requires RunAnyhow(c, ws) && a < k < |ws| && !HoldsRoster(ws[a].op) && ws[k].size != ws[a].size
    ensures a <= q < k && ws[q].size == ws[a].size && ExactVoters(ws[q].roster, ws[a].size)
  {
    if ws[k - 1].size != ws[a].size {
      q := HoldEndsWhenBack(c, ws, a, k - 1);
    } else {
      var r;
      q, r := ChangeIsEarned(c, ws, k - 1);
    }
  }

  /** So while the top node is out of the roster no run changes the size, whatever the target is edited to. */
  lemma UnreportedLeaveHolds(c: Cluster, ws: seq<World>, a: nat, k: nat)
    requires RunAnyhow(c, ws) && a <= k < |ws| && !HoldsRoster(ws[a].op) && ws[a].size >= 1
    requires forall j :: a <= j < k ==> ws[a].size - 1 !in ws[j].roster
    ensures ws[k].size == ws[a].size
  {
    if ws[k].size != ws[a].size {
      var q := HoldEndsWhenBack(c, ws, a, k);
      assert false;
    }
  }

  /** A fault-free run is one of the runs above. */
  lemma FaultFreeIsAnyhow(c: Cluster, ws: seq<World>)
    requires Run(c, ws)
    ensures RunAnyhow(c, ws)
  {
  }
}
