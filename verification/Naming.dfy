/**
 Node names: how an ordinal becomes a pod name and a Raft endpoint, how an ordinal is read back
 from a pod name, and how the startup script rebuilds the same endpoints inside the pod.

 Models internal/controller/naming.go, ordinalOf in internal/controller/membership.go and the
 identity part of the script in internal/controller/entrypoint.go.
 */
module Naming {
  import opened Options

  // ---------- decimal numerals (fmt's %d and strconv.Atoi) ----------

  predicate IsDigit(ch: char) {
    '0' <= ch <= '9'
  }

  predicate AllDigits(s: string) {
    forall k :: 0 <= k < |s| ==> IsDigit(s[k])
  }

  function DigitChar(d: nat): (ch: char)
    requires d < 10
    ensures IsDigit(ch)
  {
    '0' + d as char
  }

  function DigitValue(ch: char): (d: nat)
    requires IsDigit(ch)
    ensures d < 10
  {
    ch as int - '0' as int
  }

  /** The decimal numeral of n, as %d prints it. */
  function Decimal(n: nat): (s: string)
    ensures |s| > 0 && AllDigits(s)
    ensures '-' !in s && '.' !in s && ':' !in s
  {
    if n < 10 then [DigitChar(n)] else Decimal(n / 10) + [DigitChar(n % 10)]
  }

  /** The number a string of digits denotes. */
  function Value(s: string): nat
    requires AllDigits(s)
  {
    if s == "" then 0 else Value(s[..|s| - 1]) * 10 + DigitValue(s[|s| - 1])
  }

  lemma {:induction false} ValueOfDecimal(n: nat)
    ensures Value(Decimal(n)) == n
  {
    var s := Decimal(n);
    if n >= 10 {
      ValueOfDecimal(n / 10);
      assert s[..|s| - 1] == Decimal(n / 10);
    } else {
      assert s[..0] == "";
      assert Value(s[..0]) == 0;
    }
  }

  lemma DecimalInjective(i: nat, j: nat)
    requires Decimal(i) == Decimal(j)
    ensures i == j
  {
    ValueOfDecimal(i);
    ValueOfDecimal(j);
  }

  const MAX_INT64: int := 0x7FFF_FFFF_FFFF_FFFF
  const TWO_31: int := 0x8000_0000
  const TWO_32: int := 0x1_0000_0000

  /** strconv.Atoi on a 64-bit platform; None is its error. */
  function Atoi(s: string): Option<int> {
    var signed := s != "" && (s[0] == '+' || s[0] == '-');
    var body := if signed then s[1..] else s;
    if body == "" || !AllDigits(body) then None
    else if signed && s[0] == '-' then
      if Value(body) > MAX_INT64 + 1 then None else Some(-(Value(body) as int))
    else
      if Value(body) > MAX_INT64 then None else Some(Value(body))
  }

  /** Go's int32(n) conversion of a non-negative int: the low 32 bits, read as two's complement. */
  function ToInt32(n: nat): (r: int)
    ensures -TWO_31 <= r < TWO_31
  {
    var low := n % TWO_32;
    if low < TWO_31 then low else low - TWO_32
  }

  // ---------- names ----------

  /** The part of a KahunaCluster that its node names are made from. */
  datatype Cluster = Cluster(name: string, ns: string, raftPort: nat)

  function PodName(c: Cluster, ordinal: nat): string {
    c.name + "-" + Decimal(ordinal)
  }

  function PeerDomain(c: Cluster): string {
    c.name + "-peer" + "." + c.ns + ".svc.cluster.local"
  }

  function PodFqdn(c: Cluster, ordinal: nat): string {
    PodName(c, ordinal) + "." + PeerDomain(c)
  }

  function RaftEndpoint(c: Cluster, ordinal: nat): string {
    PodFqdn(c, ordinal) + ":" + Decimal(c.raftPort)
  }

  /** The endpoints of ordinals 0..n-1, in order. */
  function Endpoints(c: Cluster, n: nat): (es: seq<string>)
    ensures |es| == n
    ensures forall i :: 0 <= i < n ==> es[i] == RaftEndpoint(c, i)
  {
    seq(n, i requires 0 <= i < n => RaftEndpoint(c, i))
  }

  /** The text after the last dash, or None without a dash. */
  function AfterLastDash(s: string): Option<string> {
    if s == "" then None
    else
      match AfterLastDash(s[1..])
      case Some(tail) => Some(tail)
      case None => if s[0] == '-' then Some(s[1..]) else None
  }

  function OrdinalOf(pod: string): int {
    match AfterLastDash(pod)
    case None => -1
    case Some(tail) =>
      match Atoi(tail)
      case None => -1
      case Some(n) => if n < 0 then -1 else ToInt32(n)
  }

  lemma {:induction false} NoDashNoTail(s: string)
    requires '-' !in s
    ensures AfterLastDash(s) == None
  {
    if s != "" {
      NoDashNoTail(s[1..]);
    }
  }

  lemma {:induction false} LastDash(prefix: string, tail: string)
    requires '-' !in tail
    ensures AfterLastDash(prefix + "-" + tail) == Some(tail)
  {
    var s := prefix + "-" + tail;
    if prefix == "" {
      assert s[1..] == tail;
      NoDashNoTail(tail);
    } else {
      assert s[1..] == prefix[1..] + "-" + tail;
      LastDash(prefix[1..], tail);
    }
  }

  /**
   The ordinal is read back from a numbered pod name exactly when it fits an int32. Beyond that the
   conversion wraps (or the parse fails), so the result is some other number.
   */
  lemma OrdinalRoundTrip(c: Cluster, n: nat)
    ensures OrdinalOf(PodName(c, n)) == n <==> n < TWO_31
  {
    var tail := Decimal(n);
    LastDash(c.name, tail);
    ValueOfDecimal(n);
    assert IsDigit(tail[0]);
  }

  /** A name without a dash carries no ordinal. */
  lemma NoDashNoOrdinal(name: string)
    requires '-' !in name
    ensures OrdinalOf(name) == -1
  {
    NoDashNoTail(name);
  }

  /** Nor does one whose text after the last dash is not a number. */
  lemma NoNumberNoOrdinal(prefix: string, tail: string)
    requires '-' !in tail && '+' !in tail && (tail == "" || !AllDigits(tail))
    ensures OrdinalOf(prefix + "-" + tail) == -1
  {
    LastDash(prefix, tail);
  }

  /** What the wrap does to the first name past the range of ordinals: it reads as ordinal 0. */
  lemma OrdinalWraps(c: Cluster)
    ensures OrdinalOf(PodName(c, TWO_32)) == 0
  {
    LastDash(c.name, Decimal(TWO_32));
    ValueOfDecimal(TWO_32);
    assert IsDigit(Decimal(TWO_32)[0]);
  }

  lemma PodNameInjective(c: Cluster, i: nat, j: nat)
    requires PodName(c, i) == PodName(c, j)
    ensures i == j
  {
    MiddleIsDetermined(c.name + "-", Decimal(i), Decimal(j), "");
    DecimalInjective(i, j);
  }

  /** Two nodes of one cluster never share an endpoint, whatever the cluster's name contains. */
  lemma EndpointInjective(c: Cluster, i: nat, j: nat)
    requires RaftEndpoint(c, i) == RaftEndpoint(c, j)
    ensures i == j
  {
    EndpointParts(c, i);
    EndpointParts(c, j);
    MiddleIsDetermined(c.name + "-", Decimal(i), Decimal(j), EndpointTail(c));
    DecimalInjective(i, j);
  }

  /** What follows the ordinal in every endpoint of the cluster. */
  function EndpointTail(c: Cluster): string {
    "." + PeerDomain(c) + ":" + Decimal(c.raftPort)
  }

  lemma EndpointParts(c: Cluster, i: nat)
    ensures RaftEndpoint(c, i) == (c.name + "-") + Decimal(i) + EndpointTail(c)
  {
  }

  lemma MiddleIsDetermined(head: string, a: string, b: string, tail: string)
    requires head + a + tail == head + b + tail
    ensures a == b
  {
    var s := head + a + tail;
    assert |a| == |b|;
    assert a == s[|head|..|head| + |a|];
    assert b == (head + b + tail)[|head|..|head| + |b|];
  }

  lemma EndpointsDistinct(c: Cluster, n: nat)
    ensures forall i, j :: 0 <= i < j < n ==> Endpoints(c, n)[i] != Endpoints(c, n)[j]
  {
    forall i, j | 0 <= i < j < n
      ensures Endpoints(c, n)[i] != Endpoints(c, n)[j]
    {
      if RaftEndpoint(c, i) == RaftEndpoint(c, j) {
        EndpointInjective(c, i, j);
      }
    }
  }

  // ---------- the startup script's view of the same names ----------

  /** ${POD_NAME##*-}: what is left after removing everything up to the last dash. */
  function ScriptOrdinal(podName: string): Option<nat> {
    var text := match AfterLastDash(podName) case Some(t) => t case None => podName;
    if text != "" && AllDigits(text) then Some(Value(text)) else None
  }

  /** The address the script makes the node listen on: $POD_NAME.$PEER_DOMAIN at $RAFT_PORT. */
  function ScriptSelf(c: Cluster, podName: string): string {
    podName + "." + PeerDomain(c) + ":" + Decimal(c.raftPort)
  }

  /** The ordinals the peer loop keeps among the first k. */
  function PeerOrdinals(k: nat, self: nat): seq<nat> {
    if k == 0 then []
    else if k - 1 == self then PeerOrdinals(k - 1, self)
    else PeerOrdinals(k - 1, self) + [k - 1]
  }

  lemma {:induction false} PeerOrdinalsMeaning(k: nat, self: nat)
    ensures forall i :: i in PeerOrdinals(k, self) <==> 0 <= i < k && i != self
    ensures forall a, b :: 0 <= a < b < |PeerOrdinals(k, self)|
                           ==> PeerOrdinals(k, self)[a] < PeerOrdinals(k, self)[b]
  {
    if k > 0 {
      PeerOrdinalsMeaning(k - 1, self);
      var rest := PeerOrdinals(k - 1, self);
      assert forall a :: 0 <= a < |rest| ==> rest[a] in rest;
      if k - 1 != self {
        forall i ensures i in PeerOrdinals(k, self) <==> i in rest || i == k - 1 {}
      }
    }
  }

  function PeerEndpoints(c: Cluster, replicas: nat, ordinal: nat): (es: seq<string>)
    ensures |es| == |PeerOrdinals(replicas, ordinal)|
    ensures forall k :: 0 <= k < |es| ==> es[k] == RaftEndpoint(c, PeerOrdinals(replicas, ordinal)[k])
  {
    var os := PeerOrdinals(replicas, ordinal);
    seq(|os|, k requires 0 <= k < |os| => RaftEndpoint(c, os[k]))
  }

  lemma {:induction false} PeerCount(k: nat, self: nat)
    ensures |PeerOrdinals(k, self)| == if self < k then k - 1 else k
  {
    if k > 0 {
      PeerCount(k - 1, self);
    }
  }

  /** The script's PEERS loop, line by line. */
  method ScriptPeers(c: Cluster, replicas: nat, ordinal: nat) returns (peers: seq<string>)
    ensures peers == PeerEndpoints(c, replicas, ordinal)
  {
    peers := [];
    var i := 0;
    while i < replicas
      invariant 0 <= i <= replicas
      invariant peers == PeerEndpoints(c, i, ordinal)
    {
      if i != ordinal {
        peers := peers + [c.name + "-" + Decimal(i) + "." + PeerDomain(c) + ":" + Decimal(c.raftPort)];
      }
      i := i + 1;
    }
  }

  /**
   The script and the operator agree on every address: the pod of ordinal i derives i from its own
   name, registers RaftEndpoint(i), and lists as peers exactly the other nodes below `replicas`,
   each once. A founder (ordinal below `replicas`) and its peers together are therefore exactly the
   ordinals the roster gate looks for.
   */
  lemma ScriptAgrees(c: Cluster, replicas: nat, ordinal: nat)
    ensures ScriptOrdinal(PodName(c, ordinal)) == Some(ordinal)
    ensures ScriptSelf(c, PodName(c, ordinal)) == RaftEndpoint(c, ordinal)
    ensures forall e :: e in PeerEndpoints(c, replicas, ordinal)
                        <==> e in Endpoints(c, replicas) && e != RaftEndpoint(c, ordinal)
    ensures forall a, b :: 0 <= a < b < |PeerEndpoints(c, replicas, ordinal)|
                           ==> PeerEndpoints(c, replicas, ordinal)[a] != PeerEndpoints(c, replicas, ordinal)[b]
    ensures |PeerEndpoints(c, replicas, ordinal)| == if ordinal < replicas then replicas - 1 else replicas
  {
    LastDash(c.name, Decimal(ordinal));
    ValueOfDecimal(ordinal);
    PeerOrdinalsMeaning(replicas, ordinal);
    PeerCount(replicas, ordinal);
    var os, es := PeerOrdinals(replicas, ordinal), PeerEndpoints(c, replicas, ordinal);
    forall e
      ensures e in es <==> e in Endpoints(c, replicas) && e != RaftEndpoint(c, ordinal)
    {
      if e in es {
        var k :| 0 <= k < |es| && es[k] == e;
        assert os[k] in os;
        assert Endpoints(c, replicas)[os[k]] == e;
        if e == RaftEndpoint(c, ordinal) {
          EndpointInjective(c, os[k], ordinal);
        }
      }
      if e in Endpoints(c, replicas) && e != RaftEndpoint(c, ordinal) {
        var i :| 0 <= i < replicas && Endpoints(c, replicas)[i] == e;
        assert i in os;
        var k :| 0 <= k < |os| && os[k] == i;
        assert es[k] == e;
      }
    }
    forall a, b | 0 <= a < b < |es|
      ensures es[a] != es[b]
    {
      if es[a] == es[b] {
        EndpointInjective(c, os[a], os[b]);
      }
    }
  }

}
