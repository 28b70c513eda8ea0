/**
 The roster gate: when the committed roster is exactly the nodes of a StatefulSet of a given size,
 and what is named when it is not.

 Models rosterMatches and rosterHoldReason of internal/controller/plan.go.
 */
module Roster {
  import opened Options
  import opened Naming
  import opened Kahuna

  /** The gate as the code tests it: a length and `replicas` lookups. */
  predicate RosterMatches(c: Cluster, m: Option<Membership>, replicas: int) {
    && m.Some?
    && |m.value.members| == replicas
    && forall i :: 0 <= i < replicas ==> HasVoter(m.value, RaftEndpoint(c, i))
  }

  /** What the gate means: the n expected nodes, each exactly once, all Voters, and nothing else. */
  predicate IsExactRoster(c: Cluster, ms: seq<Member>, n: nat) {
    && multiset(MemberEndpoints(ms)) == multiset(Endpoints(c, n))
    && forall k :: 0 <= k < |ms| ==> ms[k].role == Voter
  }

  /** The expected roster, in order. */
  function ExactMembership(c: Cluster, n: nat): Membership {
    Membership(1, seq(n, i requires 0 <= i < n => Member(RaftEndpoint(c, i), Voter)))
  }

  lemma ExactMembershipMatches(c: Cluster, n: nat)
    ensures RosterMatches(c, Some(ExactMembership(c, n)), n)
  {
    var m := ExactMembership(c, n);
    forall i | 0 <= i < n
      ensures HasVoter(m, RaftEndpoint(c, i))
    {
      assert m.members[i].endpoint == RaftEndpoint(c, i);
    }
  }

  lemma MultisetOfDistinct(es: seq<string>)
    requires Distinct(es)
    ensures forall e :: e in es ==> multiset(es)[e] == 1
  {
    if es != [] {
      var last, rest := es[|es| - 1], es[..|es| - 1];
      MultisetOfDistinct(rest);
      assert es == rest + [last];
      assert last !in rest;
    }
  }

  lemma DistinctOfMultiset(es: seq<string>)
    requires forall e :: e in es ==> multiset(es)[e] == 1
    ensures Distinct(es)
  {
    forall i, j | 0 <= i < j < |es|
      ensures es[i] != es[j]
    {
      var front, back := es[..j], es[j..];
      assert es == front + back;
      assert es[i] == front[i] && es[j] == back[0];
      assert multiset(es) == multiset(front) + multiset(back);
      assert es[i] in es && es[i] in multiset(front) && es[j] in multiset(back);
    }
  }

  /** A list as long as a list of distinct strings that it covers is a rearrangement of it. */
  lemma Pigeonhole(es: seq<string>, expected: seq<string>)
    requires Distinct(expected) && |es| == |expected|
    requires forall e :: e in expected ==> e in es
    ensures multiset(es) == multiset(expected)
  {
    MultisetOfDistinct(expected);
    var have, want := multiset(es), multiset(expected);
    forall e | e in want
      ensures want[e] <= have[e]
    {
      assert e in expected;
    }
    assert |have| == |es| && |want| == |expected|;
    assert have == want + (have - want);
    assert |have - want| == 0;
  }

  lemma MatchCovers(c: Cluster, m: Membership, n: nat)
    requires RosterMatches(c, Some(m), n)
    ensures multiset(MemberEndpoints(m.members)) == multiset(Endpoints(c, n))
  {
    var es, expected := MemberEndpoints(m.members), Endpoints(c, n);
    EndpointsDistinct(c, n);
    forall e | e in expected
      ensures e in es
    {
      var i :| 0 <= i < n && expected[i] == e;
      var k :| 0 <= k < |m.members| && m.members[k].endpoint == RaftEndpoint(c, i) && m.members[k].role == Voter;
      assert es[k] == e;
    }
    Pigeonhole(es, expected);
  }

  /** A rearrangement of the expected endpoints lists none twice. */
  lemma RearrangedIsDistinct(c: Cluster, es: seq<string>, n: nat)
    requires multiset(es) == multiset(Endpoints(c, n))
    ensures Distinct(es)
  {
    var expected := Endpoints(c, n);
    EndpointsDistinct(c, n);
    MultisetOfDistinct(expected);
    forall e | e in es
      ensures multiset(es)[e] == 1
    {
      assert e in multiset(expected);
    }
    DistinctOfMultiset(es);
  }

  lemma OrdinalOfEndpoint(c: Cluster, es: seq<string>, n: nat, k: nat) returns (i: nat)
    requires multiset(es) == multiset(Endpoints(c, n)) && k < |es|
    ensures i < n && RaftEndpoint(c, i) == es[k]
  {
    assert es[k] in multiset(Endpoints(c, n));
    i :| 0 <= i < n && Endpoints(c, n)[i] == es[k];
  }

  lemma MatchedMemberIsVoter(c: Cluster, m: Membership, n: nat, k: nat)
    requires RosterMatches(c, Some(m), n) && k < |m.members|
    requires multiset(MemberEndpoints(m.members)) == multiset(Endpoints(c, n))
    ensures m.members[k].role == Voter
  {
    var es := MemberEndpoints(m.members);
    RearrangedIsDistinct(c, es, n);
    var i := OrdinalOfEndpoint(c, es, n, k);
    var v :| 0 <= v < |m.members| && m.members[v].endpoint == RaftEndpoint(c, i) && m.members[v].role == Voter;
    assert es[v] == es[k];
  }

  lemma ExactMatches(c: Cluster, m: Membership, n: nat)
    requires IsExactRoster(c, m.members, n)
    ensures RosterMatches(c, Some(m), n)
  {
    var es, expected := MemberEndpoints(m.members), Endpoints(c, n);
    assert |multiset(es)| == |es| && |multiset(expected)| == n;
    forall i | 0 <= i < n
      ensures HasVoter(m, RaftEndpoint(c, i))
    {
      assert expected[i] in multiset(es);
      var k :| 0 <= k < |es| && es[k] == expected[i];
    }
  }

  /**
   The gate is exact although it only compares a length and looks n endpoints up: it accepts a
   roster if and only if that is a rearrangement of the n expected nodes, all of them Voters.
   */
  lemma GateIsExact(c: Cluster, m: Membership, n: nat)
    ensures RosterMatches(c, Some(m), n) <==> IsExactRoster(c, m.members, n)
  {
    if RosterMatches(c, Some(m), n) {
      MatchCovers(c, m, n);
      forall k | 0 <= k < |m.members|
        ensures m.members[k].role == Voter
      {
        MatchedMemberIsVoter(c, m, n, k);
      }
    } else if IsExactRoster(c, m.members, n) {
      ExactMatches(c, m, n);
    }
  }

  // ---------- what is named while the gate holds the cluster ----------

  function MissingUpTo(c: Cluster, m: Membership, n: nat): (names: seq<string>)
    ensures names == [] <==> forall i :: 0 <= i < n ==> HasVoter(m, RaftEndpoint(c, i))
  {
    if n == 0 then []
    else MissingUpTo(c, m, n - 1) + if HasVoter(m, RaftEndpoint(c, n - 1)) then [] else [PodName(c, n - 1)]
  }

  function ExtraUpTo(c: Cluster, ms: seq<Member>, n: nat): (es: seq<string>)
    ensures es == [] <==> forall k :: 0 <= k < |ms| ==> ms[k].endpoint in Endpoints(c, n)
  {
    if ms == [] then []
    else
      var last := ms[|ms| - 1].endpoint;
      ExtraUpTo(c, ms[..|ms| - 1], n) + if last in Endpoints(c, n) then [] else [last]
  }

  ghost predicate NamesMissing(c: Cluster, m: Membership, n: nat, name: string) {
    exists i: nat :: i < n && PodName(c, i) == name && !HasVoter(m, RaftEndpoint(c, i))
  }

  lemma MissingStep(c: Cluster, m: Membership, n: nat, name: string)
    ensures NamesMissing(c, m, n + 1, name)
            <==> NamesMissing(c, m, n, name) || (PodName(c, n) == name && !HasVoter(m, RaftEndpoint(c, n)))
  {
  }

  lemma {:induction false} MissingNames(c: Cluster, m: Membership, n: nat, name: string)
    ensures name in MissingUpTo(c, m, n) <==> NamesMissing(c, m, n, name)
  {
    if n > 0 {
      MissingNames(c, m, n - 1, name);
      MissingStep(c, m, n - 1, name);
    }
  }

  lemma MissingOrdinal(c: Cluster, m: Membership, n: nat, i: nat)
    ensures NamesMissing(c, m, n, PodName(c, i)) <==> i < n && !HasVoter(m, RaftEndpoint(c, i))
  {
    if j: nat :| j < n && PodName(c, j) == PodName(c, i) && !HasVoter(m, RaftEndpoint(c, j)) {
      PodNameInjective(c, i, j);
    }
  }

  lemma {:induction false} ExtraNames(c: Cluster, ms: seq<Member>, n: nat, e: string)
    ensures e in ExtraUpTo(c, ms, n) <==> e !in Endpoints(c, n) && e in MemberEndpoints(ms)
  {
    if ms != [] {
      var rest, last := ms[..|ms| - 1], ms[|ms| - 1];
      ExtraNames(c, rest, n, e);
      assert MemberEndpoints(ms) == MemberEndpoints(rest) + [last.endpoint];
    }
  }

  /**
   Who is named: the pod of ordinal i exactly when it is expected and has no Voter, and an endpoint
   exactly when it is a member and not expected.
   */
  lemma HoldNamesNodes(c: Cluster, m: Membership, n: nat, i: nat, e: string)
    ensures var reason := HoldReasonOf(c, Some(m), n);
            && (PodName(c, i) in reason.missing <==> i < n && !HasVoter(m, RaftEndpoint(c, i)))
            && (e in reason.extra <==> e in MemberEndpoints(m.members) && e !in Endpoints(c, n))
  {
    MissingNames(c, m, n, PodName(c, i));
    MissingOrdinal(c, m, n, i);
    ExtraNames(c, m.members, n, e);
  }

  datatype HoldReason = Unreadable | Differs(missing: seq<string>, extra: seq<string>)

  function HoldReasonOf(c: Cluster, m: Option<Membership>, n: nat): HoldReason {
    match m
    case None => Unreadable
    case Some(roster) => Differs(MissingUpTo(c, roster, n), ExtraUpTo(c, roster.members, n))
  }

  method ExpectedEndpoints(c: Cluster, replicas: nat) returns (expected: set<string>)
    ensures forall e :: e in expected <==> e in Endpoints(c, replicas)
  {
    expected := {};
    for i := 0 to replicas
      invariant forall e :: e in expected <==> e in Endpoints(c, i)
    {
      assert Endpoints(c, i + 1) == Endpoints(c, i) + [RaftEndpoint(c, i)];
      expected := expected + {RaftEndpoint(c, i)};
    }
  }

  /** rosterHoldReason's loops. */
  method RosterHoldReason(c: Cluster, m: Option<Membership>, replicas: nat) returns (reason: HoldReason)
    ensures reason == HoldReasonOf(c, m, replicas)
  {
    if m == None {
      return Unreadable;
    }
    var roster := m.value;
    var missing, extra := [], [];
    for i := 0 to replicas
      invariant missing == MissingUpTo(c, roster, i)
    {
      if !HasVoter(roster, RaftEndpoint(c, i)) {
        missing := missing + [PodName(c, i)];
      }
    }
    var expected := ExpectedEndpoints(c, replicas);
    for k := 0 to |roster.members|
      invariant extra == ExtraUpTo(c, roster.members[..k], replicas)
    {
      assert roster.members[..k + 1][..k] == roster.members[..k];
      if roster.members[k].endpoint !in expected {
        extra := extra + [roster.members[k].endpoint];
      }
    }
    assert roster.members[..|roster.members|] == roster.members;
    reason := Differs(missing, extra);
  }

  /**
   A readable roster for which nothing is named passes the gate if and only if it lists no endpoint
   twice. So a roster of distinct endpoints that does not pass always has a node to name, and the
   reason without names is given for a duplicated endpoint only.
   */
  lemma NothingNamed(c: Cluster, m: Membership, n: nat)
    requires HoldReasonOf(c, Some(m), n) == Differs([], [])
    ensures RosterMatches(c, Some(m), n) <==> Distinct(MemberEndpoints(m.members))
  {
    if RosterMatches(c, Some(m), n) {
      MatchCovers(c, m, n);
      RearrangedIsDistinct(c, MemberEndpoints(m.members), n);
    }
    if Distinct(MemberEndpoints(m.members)) {
      CoveredIsCounted(c, m, n);
    }
  }

  lemma CoveredIsCounted(c: Cluster, m: Membership, n: nat)
    requires Distinct(MemberEndpoints(m.members))
    requires forall i :: 0 <= i < n ==> HasVoter(m, RaftEndpoint(c, i))
    requires forall k :: 0 <= k < |m.members| ==> m.members[k].endpoint in Endpoints(c, n)
    ensures |m.members| == n
  {
    var es, expected := MemberEndpoints(m.members), Endpoints(c, n);
    EndpointsDistinct(c, n);
    DistinctSize(es);
    DistinctSize(expected);
    var have, want := set e | e in es, set e | e in expected;
    forall e | e in want
      ensures e in have
    {
      var i :| 0 <= i < n && expected[i] == e;
      var k :| 0 <= k < |m.members| && m.members[k].endpoint == RaftEndpoint(c, i) && m.members[k].role == Voter;
      assert es[k] == e;
    }
    assert have <= want;
    assert have == want;
  }

  lemma DistinctSize(es: seq<string>)
    requires Distinct(es)
    ensures |set e | e in es| == |es|
  {
    if es != [] {
      var last, rest := es[|es| - 1], es[..|es| - 1];
      DistinctSize(rest);
      assert (set e | e in es) == (set e | e in rest) + {last};
      assert last !in rest;
    }
  }

  /** The roster that has nothing to name and still does not pass: one node listed twice. */
  lemma DuplicateHasNoName(c: Cluster)
    ensures var twice := Membership(1, [Member(RaftEndpoint(c, 0), Voter), Member(RaftEndpoint(c, 0), Voter)]);
            HoldReasonOf(c, Some(twice), 1) == Differs([], []) && !RosterMatches(c, Some(twice), 1)
  {
  }
}
