/**
 The autoscaler over time: the decision iterated over its own saved state. Stabilization windows
 and the absence of flapping are properties of these traces.

 Models the iteration of decideAutoscale (internal/controller/autoscaler.go) over the status that
 every pass saves.
 */
module AutoscaleTraces {
  import opened Options
  import opened Durations
  import opened Autoscaler

  /** ps[k] is the saved state pass k starts from, ins[k] is what it sees. */
  predicate Trace(ps: seq<Option<Status>>, ins: seq<Input>) {
    && |ps| == |ins| + 1
    && forall k :: 0 <= k < |ins| ==> InputOk(ps[k], ins[k]) && ps[k + 1] == Some(Decide(ps[k], ins[k]).status)
  }

  /** No window is running yet. */
  predicate NoWindow(p: Option<Status>) {
    NotAbove(p) && NotBelow(p)
  }

  /** The size pass k works from. */
  function SizeAt(ps: seq<Option<Status>>, ins: seq<Input>, k: nat): int
    requires |ps| == |ins| + 1 && k < |ins|
  {
    Current(ps[k], ins[k])
  }

  /** The size pass k leaves behind. */
  function SizeAfter(ps: seq<Option<Status>>, ins: seq<Input>, k: nat): int
    requires Trace(ps, ins) && k < |ins|
  {
    Decide(ps[k], ins[k]).status.desired
  }

  // ---------- stabilization windows ----------

  /** Passes j..m-1 all argued for growth and left the size alone. */
  predicate UpStreak(ps: seq<Option<Status>>, ins: seq<Input>, j: nat, m: nat)
    requires Trace(ps, ins) && m <= |ins|
  {
    forall i :: j <= i < m ==> UpPass(ps[i], ins[i]) && SizeAfter(ps, ins, i) == SizeAt(ps, ins, i)
  }

  predicate DownStreak(ps: seq<Option<Status>>, ins: seq<Input>, j: nat, m: nat)
    requires Trace(ps, ins) && m <= |ins|
  {
    forall i :: j <= i < m ==> DownPass(ps[i], ins[i]) && SizeAfter(ps, ins, i) == SizeAt(ps, ins, i)
  }

  /** A pass that leaves the growth window running argued for growth and started it or carried it on. */
  lemma AboveStep(prev: Option<Status>, inp: Input)
    requires InputOk(prev, inp) && Decide(prev, inp).status.above.Some?
    ensures UpPass(prev, inp) && Decide(prev, inp).status.desired == Current(prev, inp)
    ensures Decide(prev, inp).status.above
            == if prev.Some? && prev.value.above.Some? then prev.value.above else Some(inp.now)
  {
  }

  lemma BelowStep(prev: Option<Status>, inp: Input)
    requires InputOk(prev, inp) && Decide(prev, inp).status.below.Some?
    ensures DownPass(prev, inp) && Decide(prev, inp).status.desired == Current(prev, inp)
    ensures Decide(prev, inp).status.below
            == if prev.Some? && prev.value.below.Some? then prev.value.below else Some(inp.now)
  {
  }

  /** A running growth window was started by some pass, and every pass since argued for growth. */
  lemma {:induction false} AboveSince(ps: seq<Option<Status>>, ins: seq<Input>, m: nat) returns (j: nat)
    requires Trace(ps, ins) && NoWindow(ps[0]) && m <= |ins|
    requires ps[m].Some? && ps[m].value.above.Some?
    ensures j < m && ins[j].now == ps[m].value.above.value && UpStreak(ps, ins, j, m) && NotAbove(ps[j])
  {
    assert ps[m - 1 + 1] == Some(Decide(ps[m - 1], ins[m - 1]).status);
    AboveStep(ps[m - 1], ins[m - 1]);
    if ps[m - 1].Some? && ps[m - 1].value.above.Some? {
      j := AboveSince(ps, ins, m - 1);
    } else {
      j := m - 1;
    }
  }

  lemma {:induction false} BelowSince(ps: seq<Option<Status>>, ins: seq<Input>, m: nat) returns (j: nat)
    requires Trace(ps, ins) && NoWindow(ps[0]) && m <= |ins|
    requires ps[m].Some? && ps[m].value.below.Some?
    ensures j < m && ins[j].now == ps[m].value.below.value && DownStreak(ps, ins, j, m) && NotBelow(ps[j])
  {
    assert ps[m - 1 + 1] == Some(Decide(ps[m - 1], ins[m - 1]).status);
    BelowStep(ps[m - 1], ins[m - 1]);
    if ps[m - 1].Some? && ps[m - 1].value.below.Some? {
      j := BelowSince(ps, ins, m - 1);
    } else {
      j := m - 1;
    }
  }

  /** Between passes i-1 and i the size is kept exactly when no edited bound moved it. */
  predicate KeptUnlessClamped(ps: seq<Option<Status>>, ins: seq<Input>, j: nat, k: nat)
    requires Trace(ps, ins) && k < |ins|
  {
    forall i :: j < i <= k ==> (SizeAt(ps, ins, i) == SizeAt(ps, ins, i - 1) <==> !Clamps(ps[i], ins[i]))
  }

  lemma StreakKeepsSize(ps: seq<Option<Status>>, ins: seq<Input>, j: nat, k: nat)
    requires Trace(ps, ins) && k < |ins|
    requires forall i :: j <= i < k ==> SizeAfter(ps, ins, i) == SizeAt(ps, ins, i)
    ensures KeptUnlessClamped(ps, ins, j, k)
  {
  }

  /**
   Growth has a whole window behind it. Whenever pass k adds a node there is a pass j that started
   the window, no later than k and at least the scale-up window before it, such that every pass from
   j to k was converged, recommended more than its size and had no binding ceiling. The size was the
   same throughout, except where an edited bound moved it.
   */
  lemma GrowthHasAWindow(ps: seq<Option<Status>>, ins: seq<Input>, k: nat) returns (j: nat)
    requires Trace(ps, ins) && NoWindow(ps[0]) && k < |ins|
    requires SizeAfter(ps, ins, k) > SizeAt(ps, ins, k)
    ensures j <= k && NotAbove(ps[j]) && ins[k].now - ins[j].now >= UpWindow(ins[k].spec)
    ensures UpStreak(ps, ins, j, k) && UpPass(ps[k], ins[k])
    ensures KeptUnlessClamped(ps, ins, j, k)
  {
    PassIsOneStep(ps[k], ins[k]);
    if ps[k].Some? && ps[k].value.above.Some? {
      j := AboveSince(ps, ins, k);
    } else {
      j := k;
    }
    StreakKeepsSize(ps, ins, j, k);
  }

  /** Removal likewise: a whole scale-down window of passes that all knew every configured signal. */
  lemma RemovalHasAWindow(ps: seq<Option<Status>>, ins: seq<Input>, k: nat) returns (j: nat)
    requires Trace(ps, ins) && NoWindow(ps[0]) && k < |ins|
    requires SizeAfter(ps, ins, k) < SizeAt(ps, ins, k)
    ensures j <= k && NotBelow(ps[j]) && ins[k].now - ins[j].now >= DownWindow(ins[k].spec)
    ensures DownStreak(ps, ins, j, k) && DownPass(ps[k], ins[k])
    ensures KeptUnlessClamped(ps, ins, j, k)
  {
    PassIsOneStep(ps[k], ins[k]);
    if ps[k].Some? && ps[k].value.below.Some? {
      j := BelowSince(ps, ins, k);
    } else {
      j := k;
    }
    StreakKeepsSize(ps, ins, j, k);
  }

  lemma {:induction false} AboveFrom(ps: seq<Option<Status>>, ins: seq<Input>, j: nat, m: nat)
    requires Trace(ps, ins) && j < m <= |ins| && NotAbove(ps[j]) && UpStreak(ps, ins, j, m)
    ensures ps[m].Some? && ps[m].value.above == Some(ins[j].now)
  {
    assert ps[m - 1 + 1] == Some(Decide(ps[m - 1], ins[m - 1]).status);
    UpStep(ps[m - 1], ins[m - 1]);
    if j < m - 1 {
      AboveFrom(ps, ins, j, m - 1);
    }
  }

  lemma {:induction false} BelowFrom(ps: seq<Option<Status>>, ins: seq<Input>, j: nat, m: nat)
    requires Trace(ps, ins) && j < m <= |ins| && NotBelow(ps[j]) && DownStreak(ps, ins, j, m)
    ensures ps[m].Some? && ps[m].value.below == Some(ins[j].now)
  {
    assert ps[m - 1 + 1] == Some(Decide(ps[m - 1], ins[m - 1]).status);
    DownStep(ps[m - 1], ins[m - 1]);
    if j < m - 1 {
      BelowFrom(ps, ins, j, m - 1);
    }
  }

  /** And the window is exact: along a streak that pass j started, a node is added as soon as it is over, not before. */
  lemma GrowsExactlyWhen(ps: seq<Option<Status>>, ins: seq<Input>, j: nat, k: nat)
    requires Trace(ps, ins) && j <= k < |ins| && NotAbove(ps[j])
    requires UpStreak(ps, ins, j, k) && UpPass(ps[k], ins[k])
    ensures SizeAfter(ps, ins, k) > SizeAt(ps, ins, k) <==> ins[k].now - ins[j].now >= UpWindow(ins[k].spec)
  {
    if j < k {
      AboveFrom(ps, ins, j, k);
    }
    UpStep(ps[k], ins[k]);
  }

  lemma RemovesExactlyWhen(ps: seq<Option<Status>>, ins: seq<Input>, j: nat, k: nat)
    requires Trace(ps, ins) && j <= k < |ins| && NotBelow(ps[j])
    requires DownStreak(ps, ins, j, k) && DownPass(ps[k], ins[k])
    ensures SizeAfter(ps, ins, k) < SizeAt(ps, ins, k) <==> ins[k].now - ins[j].now >= DownWindow(ins[k].spec)
  {
    if j < k {
      BelowFrom(ps, ins, j, k);
    }
    DownStep(ps[k], ins[k]);
  }

  /** The spec never changes, and the size is set from the start or chosen inside the bounds. */
  predicate FixedSpec(ins: seq<Input>, s: Spec) {
    ValidSpec(s) && forall k :: 0 <= k < |ins| ==> ins[k].spec == s
  }

  /** With a fixed spec only the first pass can clamp. */
  lemma FixedSpecNeverClampsLater(ps: seq<Option<Status>>, ins: seq<Input>, s: Spec, k: nat)
    requires Trace(ps, ins) && FixedSpec(ins, s) && 0 < k < |ins|
    ensures !Clamps(ps[k], ins[k])
    ensures SizeAt(ps, ins, k) == SizeAfter(ps, ins, k - 1)
  {
    assert ps[k - 1 + 1] == Some(Decide(ps[k - 1], ins[k - 1]).status);
    PassIsOneStep(ps[k - 1], ins[k - 1]);
    ClampBounds(SizeAfter(ps, ins, k - 1), s);
  }

  lemma {:induction false} SameSize(ps: seq<Option<Status>>, ins: seq<Input>, s: Spec, j: nat, k: nat)
    requires Trace(ps, ins) && FixedSpec(ins, s) && j <= k < |ins| && KeptUnlessClamped(ps, ins, j, k)
    ensures forall i :: j <= i <= k ==> SizeAt(ps, ins, i) == SizeAt(ps, ins, k)
    decreases k
  {
    if j < k {
      FixedSpecNeverClampsLater(ps, ins, s, k);
      SameSize(ps, ins, s, j, k - 1);
      assert SizeAt(ps, ins, k) == SizeAt(ps, ins, k - 1);
    }
  }

  /** For a fixed spec the whole window was spent at the very size the node is added to or removed from. */
  lemma WindowsAtOneSize(ps: seq<Option<Status>>, ins: seq<Input>, s: Spec, k: nat) returns (j: nat)
    requires Trace(ps, ins) && NoWindow(ps[0]) && FixedSpec(ins, s) && k < |ins|
    requires SizeAfter(ps, ins, k) != SizeAt(ps, ins, k)
    ensures j <= k
    ensures forall i :: j <= i <= k ==> SizeAt(ps, ins, i) == SizeAt(ps, ins, k)
    ensures SizeAfter(ps, ins, k) > SizeAt(ps, ins, k) ==>
              && ins[k].now - ins[j].now >= UpWindow(s)
              && forall i :: j <= i <= k ==> UpPass(ps[i], ins[i])
    ensures SizeAfter(ps, ins, k) < SizeAt(ps, ins, k) ==>
              && ins[k].now - ins[j].now >= DownWindow(s)
              && forall i :: j <= i <= k ==> DownPass(ps[i], ins[i])
  {
    if SizeAfter(ps, ins, k) > SizeAt(ps, ins, k) {
      j := GrowthHasAWindow(ps, ins, k);
    } else {
      j := RemovalHasAWindow(ps, ins, k);
    }
    SameSize(ps, ins, s, j, k);
  }

  /**
   Why the spec has to be fixed for that: raising the minimum moves the size but keeps a running
   window, so the pass that applies the new bound adds a node on top of it at once, at a size the
   window was never spent at.
   */
  lemma ClampInheritsWindow() returns (ps: seq<Option<Status>>, ins: seq<Input>)
    ensures Trace(ps, ins) && |ins| == 2 && ps[0] == None
    ensures ins[1] == ins[0].(spec := ins[0].spec.(minReplicas := 6), now := ins[0].now + UpWindow(ins[1].spec))
    ensures SizeAt(ps, ins, 0) == SizeAfter(ps, ins, 0) == 5
    ensures SizeAt(ps, ins, 1) == 6 && SizeAfter(ps, ins, 1) == 7
  {
    var before := Spec(3, 9, Some(100), None, Some(60), None, None);
    var first := Input(before, 5, Signal(Some(300.0), None), true, 0, 0);
    var second := first.(spec := before.(minReplicas := 6), now := 60 * SECOND);
    var saved := Status(5, 9, Some(0), None, None);
    ThreefoldLoad(None, first);
    ThreefoldLoad(Some(saved), second);
    ins := [first, second];
    ps := [None, Some(saved), Some(Decide(Some(saved), second).status)];
  }

  lemma ThreefoldLoad(prev: Option<Status>, inp: Input)
    requires ValidSpec(inp.spec) && inp.spec.targetWrites == Some(100) && inp.spec.targetQueue == None
    requires inp.spec.tolerancePercent == None && inp.spec.maxReplicas == 9 && inp.signal == Signal(Some(300.0), None)
    requires Current(prev, inp) in {5, 6}
    ensures InputOk(prev, inp) && Recommend(inp.spec, inp.signal, Current(prev, inp)) == 9
  {
    assert 300.0 / 100 as real == 3.0;
    assert WorstRatio(inp.spec, inp.signal) == Some(3.0);
    assert Ceil(5 as real * 3.0) == 15 && Ceil(6 as real * 3.0) == 18;
  }

  // ---------- a constant load ----------

  /** The signal of a pass, where known, is the same total load spread over the current nodes. */
  predicate Spreads(sig: Signal, size: int, writes: real, queue: real)
    requires size >= 1
  {
    && (sig.writes.Some? ==> sig.writes.value == writes / size as real)
    && (sig.queue.Some? ==> sig.queue.value == queue / size as real)
  }

  predicate ConstantLoad(ps: seq<Option<Status>>, ins: seq<Input>, s: Spec, writes: real, queue: real) {
    && Trace(ps, ins) && FixedSpec(ins, s)
    && forall k :: 0 <= k < |ins| ==>
         SizeAt(ps, ins, k) >= 1 && Spreads(ins[k].signal, SizeAt(ps, ins, k), writes, queue)
  }

  /** How many nodes' worth of its target a load is, when it has one. */
  function LoadOf(target: Option<int>, load: real): Option<real>
    requires target.Some? ==> target.value >= 1
  {
    if target.Some? then Some(load / target.value as real) else None
  }

  /** The largest of the configured loads, in nodes. */
  function Need(s: Spec, writes: real, queue: real): real
    requires ValidSpec(s)
  {
    MaxOf(LoadOf(s.targetWrites, writes), LoadOf(s.targetQueue, queue)).value
  }

  /** Where a constant load can take the cluster: the nodes it needs, inside the bounds. */
  function Limit(s: Spec, writes: real, queue: real): int
    requires ValidSpec(s)
  {
    Clamp(Ceil(Need(s, writes, queue)), s)
  }

  lemma PerNodeTimesNodes(load: real, size: real, target: real)
    requires size > 0.0 && target > 0.0
    ensures size * (load / size / target) == load / target
  {
    var x := load / size / target;
    assert x * target == load / size;
    assert x * target * size == load;
    assert (size * x) * target == load;
  }

  /** The ratio, if known, times n is the load. */
  predicate Scales(n: real, ratio: Option<real>, load: Option<real>) {
    ratio.Some? ==> load.Some? && n * ratio.value == load.value
  }

  lemma OneRatioMeasuresLoad(target: Option<int>, v: Option<real>, size: int, load: real)
    requires (target.Some? ==> target.value >= 1) && size >= 1
    requires v.Some? ==> v.value == load / size as real
    ensures Scales(size as real, RatioOf(target, v), LoadOf(target, load))
  {
    if target.Some? && v.Some? {
      PerNodeTimesNodes(load, size as real, target.value as real);
    }
  }

  lemma OrderScales(n: real, a: real, b: real)
    requires n > 0.0
    ensures a < b ==> n * a < n * b
    ensures b < a ==> n * b < n * a
  {
    if a < b {
      assert n * (b - a) > 0.0;
    } else if b < a {
      assert n * (a - b) > 0.0;
    }
  }

  lemma MaxScales(n: real, a: Option<real>, b: Option<real>, x: Option<real>, y: Option<real>)
    requires n > 0.0 && Scales(n, a, x) && Scales(n, b, y) && MaxOf(a, b).Some?
    ensures MaxOf(x, y).Some? && n * MaxOf(a, b).value <= MaxOf(x, y).value
    ensures (a.Some? <==> x.Some?) && (b.Some? <==> y.Some?) ==> n * MaxOf(a, b).value == MaxOf(x, y).value
  {
    if a.Some? && b.Some? {
      OrderScales(n, a.value, b.value);
    }
  }

  /** On any view the ratio times the size is at most the need, and on a full view it is the need. */
  lemma RatioMeasuresNeed(s: Spec, sig: Signal, size: int, writes: real, queue: real)
    requires ValidSpec(s) && size >= 1 && Spreads(sig, size, writes, queue) && WorstRatio(s, sig).Some?
    ensures size as real * WorstRatio(s, sig).value <= Need(s, writes, queue)
    ensures AllKnown(s, sig) ==> size as real * WorstRatio(s, sig).value == Need(s, writes, queue)
  {
    OneRatioMeasuresLoad(s.targetWrites, sig.writes, size, writes);
    OneRatioMeasuresLoad(s.targetQueue, sig.queue, size, queue);
    MaxScales(size as real, RatioOf(s.targetWrites, sig.writes), RatioOf(s.targetQueue, sig.queue),
              LoadOf(s.targetWrites, writes), LoadOf(s.targetQueue, queue));
  }

  lemma CeilMonotone(x: real, y: real)
    requires x <= y
    ensures Ceil(x) <= Ceil(y)
  {
  }

  /** One pass under a constant load moves toward the limit, by at most one node, and never past it. */
  lemma StepTowardLimit(prev: Option<Status>, inp: Input, writes: real, queue: real)
    requires InputOk(prev, inp) && Current(prev, inp) >= 1
    requires Spreads(inp.signal, Current(prev, inp), writes, queue)
    ensures var c, d, l := Current(prev, inp), Decide(prev, inp).status.desired, Limit(inp.spec, writes, queue);
            && (c <= l ==> c <= d <= l && d <= c + 1)
            && (c >= l ==> l <= d <= c && d >= c - 1)
  {
    PassIsOneStep(prev, inp);
    var s, c := inp.spec, Current(prev, inp);
    var d := Decide(prev, inp).status.desired;
    if d != c {
      RecommendationRespectsLimit(s, inp.signal, c, writes, queue);
      ClampBounds(Base(prev, inp.initial).desired, s);
    }
  }

  lemma RecommendationIsCeil(s: Spec, sig: Signal, c: int)
    requires ValidSpec(s) && WorstRatio(s, sig).Some? && s.minReplicas <= c <= s.maxReplicas
    requires Recommend(s, sig, c) != c
    ensures Recommend(s, sig, c) == Clamp(Ceil(c as real * WorstRatio(s, sig).value), s)
  {
  }

  lemma RecommendationRespectsLimit(s: Spec, sig: Signal, c: int, writes: real, queue: real)
    requires ValidSpec(s) && c >= 1 && Spreads(sig, c, writes, queue) && WorstRatio(s, sig).Some?
    requires s.minReplicas <= c <= s.maxReplicas && Recommend(s, sig, c) != c
    ensures Recommend(s, sig, c) > c ==> Recommend(s, sig, c) <= Limit(s, writes, queue)
    ensures Recommend(s, sig, c) < c ==> Recommend(s, sig, c) == Limit(s, writes, queue)
    ensures Recommend(s, sig, c) < c ==> Ceil(Need(s, writes, queue)) <= c - 1
  {
    var asked, need := c as real * WorstRatio(s, sig).value, Need(s, writes, queue);
    RecommendationIsCeil(s, sig, c);
    var rec := Recommend(s, sig, c);
    assert asked <= need && (rec < c ==> asked == need) by {
      RatioMeasuresNeed(s, sig, c, writes, queue);
      if rec < c {
        ShrinkNeedsEverySignal(s, sig, c);
      }
    }
    CeilMonotone(asked, need);
    ClampMonotone(Ceil(asked), Ceil(need), s);
  }

  lemma ClampMonotone(x: int, y: int, s: Spec)
    requires ValidSpec(s) && x <= y
    ensures Clamp(x, s) <= Clamp(y, s)
  {
  }

  /** The load over n nodes is within a target. */
  predicate Within(target: Option<int>, load: real, n: int)
    requires n >= 1
  {
    target.Some? ==> load / n as real <= target.value as real
  }

  lemma NeedBoundsLoad(load: real, target: real, n: real)
    requires target > 0.0 && n > 0.0 && load / target <= n
    ensures load / n <= target
  {
    var q := load / target;
    assert load == q * target;
    assert (n - q) * target >= 0.0;
    assert load <= n * target;
    var r := load / n;
    assert load == r * n;
    if r > target {
      assert (r - target) * n > 0.0;
    }
  }

  /** A node is removed only if the same load over one node fewer is still within every target. */
  lemma RemovalStaysWithinTargets(prev: Option<Status>, inp: Input, writes: real, queue: real)
    requires InputOk(prev, inp) && Current(prev, inp) >= 1
    requires Spreads(inp.signal, Current(prev, inp), writes, queue)
    requires Decide(prev, inp).status.desired < Current(prev, inp)
    ensures Current(prev, inp) - 1 >= 1
    ensures Within(inp.spec.targetWrites, writes, Current(prev, inp) - 1)
    ensures Within(inp.spec.targetQueue, queue, Current(prev, inp) - 1)
  {
    PassIsOneStep(prev, inp);
    var s, c := inp.spec, Current(prev, inp);
    ClampBounds(Base(prev, inp.initial).desired, s);
    RecommendationRespectsLimit(s, inp.signal, c, writes, queue);
    var need := Need(s, writes, queue);
    assert need <= Ceil(need) as real <= (c - 1) as real;
    if s.targetWrites.Some? {
      NeedBoundsLoad(writes, s.targetWrites.value as real, (c - 1) as real);
    }
    if s.targetQueue.Some? {
      NeedBoundsLoad(queue, s.targetQueue.value as real, (c - 1) as real);
    }
  }

  /** How many of the first k passes changed the size. */
  function Changes(ps: seq<Option<Status>>, ins: seq<Input>, k: nat): nat
    requires Trace(ps, ins) && k <= |ins|
  {
    if k == 0 then 0
    else Changes(ps, ins, k - 1) + if SizeAfter(ps, ins, k - 1) != SizeAt(ps, ins, k - 1) then 1 else 0
  }

  /** The size before pass k, counting the first pass's clamp as the start. */
  function SizeBefore(ps: seq<Option<Status>>, ins: seq<Input>, k: nat): int
    requires Trace(ps, ins) && k <= |ins| && |ins| > 0
  {
    if k == 0 then SizeAt(ps, ins, 0) else SizeAfter(ps, ins, k - 1)
  }

  lemma SizeBeforeIsSizeAt(ps: seq<Option<Status>>, ins: seq<Input>, s: Spec, k: nat)
    requires Trace(ps, ins) && FixedSpec(ins, s) && k < |ins|
    ensures SizeBefore(ps, ins, k) == SizeAt(ps, ins, k)
  {
    if k > 0 {
      FixedSpecNeverClampsLater(ps, ins, s, k);
    }
  }

  /**
   No flapping: under a fixed spec and a constant load the size only ever moves from where it starts
   toward the limit, never past it, and the number of changes is exactly the distance travelled, so
   at most the distance from the start to the limit. It holds however the passes fall and whatever
   signals some of them miss.
   */
  lemma {:induction false} NoFlapping(ps: seq<Option<Status>>, ins: seq<Input>, s: Spec, writes: real, queue: real, k: nat)
    requires ConstantLoad(ps, ins, s, writes, queue) && |ins| > 0 && k <= |ins|
    ensures var start, l, d := SizeAt(ps, ins, 0), Limit(s, writes, queue), SizeBefore(ps, ins, k);
            && (start <= l ==> start <= d <= l && Changes(ps, ins, k) == d - start)
            && (start >= l ==> l <= d <= start && Changes(ps, ins, k) == start - d)
  {
    if k > 0 {
      NoFlapping(ps, ins, s, writes, queue, k - 1);
      SizeBeforeIsSizeAt(ps, ins, s, k - 1);
      assert ps[k - 1 + 1] == Some(Decide(ps[k - 1], ins[k - 1]).status);
      StepTowardLimit(ps[k - 1], ins[k - 1], writes, queue);
    }
  }

  /** And so the sizes of a constant load are monotone. */
  lemma {:induction false} SizesAreMonotone(ps: seq<Option<Status>>, ins: seq<Input>, s: Spec, writes: real, queue: real,
                                            i: nat, k: nat)
    requires ConstantLoad(ps, ins, s, writes, queue) && |ins| > 0 && i <= k <= |ins|
    ensures SizeAt(ps, ins, 0) <= Limit(s, writes, queue) ==> SizeBefore(ps, ins, i) <= SizeBefore(ps, ins, k)
    ensures SizeAt(ps, ins, 0) >= Limit(s, writes, queue) ==> SizeBefore(ps, ins, i) >= SizeBefore(ps, ins, k)
    decreases k
  {
    if i < k {
      SizesAreMonotone(ps, ins, s, writes, queue, i, k - 1);
      NoFlapping(ps, ins, s, writes, queue, k - 1);
      SizeBeforeIsSizeAt(ps, ins, s, k - 1);
      assert ps[k - 1 + 1] == Some(Decide(ps[k - 1], ins[k - 1]).status);
      StepTowardLimit(ps[k - 1], ins[k - 1], writes, queue);
    }
  }
}
