/**
 The latch that starts the membership protocol: it counts Voters, and does not look at who they are.

 Models the Bootstrapped latch of reconcileStatus in internal/controller/kahunacluster_controller.go.
 */
module Latch {
  import opened Options
  import opened Naming
  import opened Kahuna
  import opened Roster

  function CountVoters(ms: seq<Member>): nat {
    if ms == [] then 0 else CountVoters(ms[..|ms| - 1]) + if ms[|ms| - 1].role == Voter then 1 else 0
  }

  /** reconcileStatus: the flag is set on a seeded roster with enough Voters, and never cleared. */
  predicate Latches(bootstrapped: bool, m: Option<Membership>, desired: nat) {
    bootstrapped || (m.Some? && m.value.version > 0 && CountVoters(m.value.members) >= desired)
  }

  lemma {:induction false} VotersAtMostAll(ms: seq<Member>)
    ensures CountVoters(ms) <= |ms|
    ensures CountVoters(ms) == |ms| ==> forall k :: 0 <= k < |ms| ==> ms[k].role == Voter
  {
    if ms != [] {
      VotersAtMostAll(ms[..|ms| - 1]);
    }
  }

  lemma FoundersFit(c: Cluster, es: seq<string>, n: nat)
    requires Distinct(es) && forall k :: 0 <= k < |es| ==> es[k] in Endpoints(c, n)
    ensures |es| <= n
    ensures |es| == n ==> multiset(es) == multiset(Endpoints(c, n))
  {
    var expected := Endpoints(c, n);
    EndpointsDistinct(c, n);
    DistinctSize(es);
    DistinctSize(expected);
    var have, want := set e | e in es, set e | e in expected;
    SubsetOfStrings(have, want);
    if |es| == n {
      assert forall e :: e in expected ==> e in want;
      Pigeonhole(es, expected);
    }
  }

  lemma SubsetOfStrings(have: set<string>, want: set<string>)
    requires have <= want
    ensures |have| <= |want|
    ensures |have| == |want| ==> have == want
  {
    assert want == have + (want - have);
  }

  /** Every member is one of the first n nodes, and no one is listed twice. */
  predicate OnlyFounders(c: Cluster, ms: seq<Member>, n: nat) {
    && Distinct(MemberEndpoints(ms))
    && forall k :: 0 <= k < |ms| ==> ms[k].endpoint in Endpoints(c, n)
  }

  lemma ExactIsFounders(c: Cluster, m: Membership, n: nat)
    requires RosterMatches(c, Some(m), n)
    ensures OnlyFounders(c, m.members, n) && CountVoters(m.members) == n
  {
    var es := MemberEndpoints(m.members);
    GateIsExact(c, m, n);
    RearrangedIsDistinct(c, es, n);
    forall k | 0 <= k < |es|
      ensures es[k] in Endpoints(c, n)
    {
      var i := OrdinalOfEndpoint(c, es, n, k);
      assert Endpoints(c, n)[i] == es[k];
    }
    AllVoters(m.members);
  }

  lemma EnoughFounders(c: Cluster, m: Membership, n: nat)
    requires OnlyFounders(c, m.members, n) && CountVoters(m.members) >= n
    ensures RosterMatches(c, Some(m), n)
  {
    FoundersFit(c, MemberEndpoints(m.members), n);
    VotersAtMostAll(m.members);
    GateIsExact(c, m, n);
  }

  /**
   What the latch means: a roster that sets it is exact for the desired size, which is where a run
   of the protocol starts, if and only if no one but founders has joined, each once. And as long as
   that is so, a seeded roster sets the latch exactly when it is exact.
   */
  lemma LatchMeansExact(c: Cluster, m: Membership, desired: nat)
    ensures Latches(false, Some(m), desired) ==>
              (RosterMatches(c, Some(m), desired) <==> OnlyFounders(c, m.members, desired))
    ensures m.version > 0 && OnlyFounders(c, m.members, desired) ==>
              (Latches(false, Some(m), desired) <==> RosterMatches(c, Some(m), desired))
  {
    if RosterMatches(c, Some(m), desired) {
      ExactIsFounders(c, m, desired);
    } else if OnlyFounders(c, m.members, desired) && CountVoters(m.members) >= desired {
      EnoughFounders(c, m, desired);
    }
  }

  lemma {:induction false} AllVoters(ms: seq<Member>)
    requires forall k :: 0 <= k < |ms| ==> ms[k].role == Voter
    ensures CountVoters(ms) == |ms|
  {
    if ms != [] {
      AllVoters(ms[..|ms| - 1]);
    }
  }

  /** Without that, counting is not enough: a roster with a Voter of its own above the size also sets the latch. */
  lemma LatchOnStranger(c: Cluster)
    ensures var m := Membership(1, [Member(RaftEndpoint(c, 0), Voter), Member(RaftEndpoint(c, 1), Voter)]);
            Latches(false, Some(m), 1) && !RosterMatches(c, Some(m), 1)
  {
  }

  /** What one pass knows when it updates the flag. */
  datatype Look = Look(m: Option<Membership>, desired: nat)

  /** The flag after a number of passes. */
  function LatchAfter(looks: seq<Look>): bool {
    if looks == [] then false
    else Latches(LatchAfter(looks[..|looks| - 1]), looks[|looks| - 1].m, looks[|looks| - 1].desired)
  }

  /** The flag is set exactly when some pass saw a seeded roster with enough Voters, and for good. */
  lemma {:induction false} LatchIsForGood(looks: seq<Look>)
    ensures LatchAfter(looks)
            <==> exists k :: && 0 <= k < |looks| && looks[k].m.Some? && looks[k].m.value.version > 0
                             && CountVoters(looks[k].m.value.members) >= looks[k].desired
  {
    if looks != [] {
      var rest, last := looks[..|looks| - 1], looks[|looks| - 1];
      LatchIsForGood(rest);
      assert forall k :: 0 <= k < |rest| ==> looks[k] == rest[k];
      assert looks[|looks| - 1] == last;
    }
  }
}
