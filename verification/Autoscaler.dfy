/**
 The autoscaler's decision: one pass takes the saved state and the traffic signal and chooses the
 next node count.

 Models decideAutoscale of internal/controller/autoscaler.go. Times are nanoseconds, floats are
 reals.
 */
module Autoscaler {
  import opened Options
  import opened Durations

  const MAX_INT32: int := 0x7FFF_FFFF

  datatype Spec = Spec(
    minReplicas: int,
    maxReplicas: int,
    targetWrites: Option<int>,
    targetQueue: Option<int>,
    upSeconds: Option<int>,
    downSeconds: Option<int>,
    tolerancePercent: Option<int>)

  /** What the API server admits. */
  predicate ValidSpec(s: Spec) {
    && 3 <= s.minReplicas <= s.maxReplicas
    && (s.targetWrites.Some? || s.targetQueue.Some?)
    && (s.targetWrites.Some? ==> s.targetWrites.value >= 1)
    && (s.targetQueue.Some? ==> s.targetQueue.value >= 1)
    && (s.upSeconds.Some? ==> s.upSeconds.value >= 0)
    && (s.downSeconds.Some? ==> s.downSeconds.value >= 0)
    && (s.tolerancePercent.Some? ==> 0 <= s.tolerancePercent.value <= 100)
  }

  /** The autoscaler's memory between passes. */
  datatype Status = Status(desired: int, recommended: int, above: Option<int>, below: Option<int>,
                           lastScale: Option<int>)

  /** The per-node averages; None is "not known on this pass". */
  datatype Signal = Signal(writes: Option<real>, queue: Option<real>)

  datatype Input = Input(spec: Spec, initial: int, signal: Signal, converged: bool, ceiling: nat, now: int)

  datatype Decision = Decision(status: Status, limited: bool)

  function Min(a: int, b: int): int { if a < b then a else b }

  function Max(a: int, b: int): int { if a < b then b else a }

  function Clamp(x: int, s: Spec): int {
    Min(Max(x, s.minReplicas), s.maxReplicas)
  }

  function Ceil(x: real): int {
    -((-x).Floor)
  }

  function Tolerance(s: Spec): real {
    (match s.tolerancePercent case None => 10 case Some(t) => t) as real / 100.0
  }

  function SecondsOr(v: Option<int>, fallback: int): int {
    match v case None => fallback case Some(n) => n * SECOND
  }

  function UpWindow(s: Spec): int { SecondsOr(s.upSeconds, 60 * SECOND) }

  function DownWindow(s: Spec): int { SecondsOr(s.downSeconds, 300 * SECOND) }

  // ---------- the size a pass starts from ----------

  /** The saved state, with a size that was never chosen filled in. */
  function Base(prev: Option<Status>, initial: int): Status {
    var st := match prev case None => Status(0, 0, None, None, None) case Some(p) => p;
    if st.desired == 0 then st.(desired := initial) else st
  }

  /** The size the pass works from: the saved one, moved inside the bounds. */
  function Current(prev: Option<Status>, inp: Input): int {
    Clamp(Base(prev, inp.initial).desired, inp.spec)
  }

  /** A bound was edited past the saved size, so this pass resizes on its own. */
  predicate Clamps(prev: Option<Status>, inp: Input) {
    Current(prev, inp) != Base(prev, inp.initial).desired
  }

  // ---------- the recommendation ----------

  /** A configured signal's ratio to its target, if it is known. */
  function RatioOf(target: Option<int>, v: Option<real>): Option<real>
    requires target.Some? ==> target.value >= 1
  {
    if target.Some? && v.Some? then Some(v.value / target.value as real) else None
  }

  predicate AllKnown(s: Spec, sig: Signal) {
    (s.targetWrites.Some? ==> sig.writes.Some?) && (s.targetQueue.Some? ==> sig.queue.Some?)
  }

  /** The larger of two values, either of which may be missing. */
  function MaxOf(a: Option<real>, b: Option<real>): Option<real> {
    if a.None? then b else if b.None? || b.value < a.value then a else b
  }

  /** The largest known ratio; None when no configured signal is known. */
  function WorstRatio(s: Spec, sig: Signal): Option<real>
    requires ValidSpec(s)
  {
    MaxOf(RatioOf(s.targetWrites, sig.writes), RatioOf(s.targetQueue, sig.queue))
  }

  predicate OutsideBand(s: Spec, ratio: real) {
    (if ratio < 1.0 then 1.0 - ratio else ratio - 1.0) > Tolerance(s)
  }

  /** The unclamped recommendation fits the int32 it is converted to. */
  predicate Fits(current: int, ratio: real) {
    -MAX_INT32 <= Ceil(current as real * ratio) <= MAX_INT32
  }

  /** Inside the band the current size, outside it what the ratio asks for, but not less on a partial view. */
  function Chosen(s: Spec, allKnown: bool, current: int, ratio: real, asked: int): int {
    var raw := if OutsideBand(s, ratio) then asked else current;
    Clamp(if raw < current && !allKnown then current else raw, s)
  }

  /** What the worst ratio asks c nodes for. */
  function Asked(s: Spec, sig: Signal, c: int): int
    requires ValidSpec(s) && WorstRatio(s, sig).Some?
  {
    Ceil(c as real * WorstRatio(s, sig).value)
  }

  function Recommend(s: Spec, sig: Signal, current: int): int
    requires ValidSpec(s) && WorstRatio(s, sig).Some?
  {
    Chosen(s, AllKnown(s, sig), current, WorstRatio(s, sig).value, Asked(s, sig, current))
  }

  /** The pass reports the maximum as what limits it. */
  predicate ReportsMaximum(s: Spec, sig: Signal, current: int)
    requires ValidSpec(s) && WorstRatio(s, sig).Some?
  {
    Recommend(s, sig, current) == s.maxReplicas && WorstRatio(s, sig).value > 1.0 + Tolerance(s)
  }

  // ---------- the decision ----------

  /** What the source demands of a pass: a spec the API server admits, and an int32 recommendation. */
  predicate InputOk(prev: Option<Status>, inp: Input) {
    && ValidSpec(inp.spec)
    && (WorstRatio(inp.spec, inp.signal).Some? ==> Fits(Current(prev, inp), WorstRatio(inp.spec, inp.signal).value))
  }

  function Hold(st: Status, current: int): Status {
    st.(recommended := current, above := None, below := None)
  }

  function Decide(prev: Option<Status>, inp: Input): Decision
    requires InputOk(prev, inp)
  {
    var base, current, now := Base(prev, inp.initial), Current(prev, inp), inp.now;
    var st := base.(desired := current, lastScale := if current != base.desired then Some(now) else base.lastScale);
    if !inp.converged then Decision(Hold(st, current), false)
    else if WorstRatio(inp.spec, inp.signal).None? then Decision(Hold(st, current), true)
    else
      var rec := Recommend(inp.spec, inp.signal, current);
      var limited := ReportsMaximum(inp.spec, inp.signal, current);
      var r := st.(recommended := rec);
      if rec > current then
        if inp.ceiling > 0 && current >= inp.ceiling then Decision(r.(above := None, below := None), true)
        else
          var since := match r.above case None => now case Some(t) => t;
          if now - since >= UpWindow(inp.spec)
          then Decision(r.(desired := current + 1, lastScale := Some(now), above := None, below := None), limited)
          else Decision(r.(above := Some(since), below := None), limited)
      else if rec < current then
        var since := match r.below case None => now case Some(t) => t;
        if now - since >= DownWindow(inp.spec)
        then Decision(r.(desired := current - 1, lastScale := Some(now), above := None, below := None), limited)
        else Decision(r.(above := None, below := Some(since)), limited)
      else Decision(r.(above := None, below := None), limited)
  }

  // ---------- one pass ----------

  /** A pass that argues for one more node. */
  predicate UpPass(prev: Option<Status>, inp: Input)
    requires InputOk(prev, inp)
  {
    && inp.converged
    && WorstRatio(inp.spec, inp.signal).Some?
    && Recommend(inp.spec, inp.signal, Current(prev, inp)) > Current(prev, inp)
    && !(inp.ceiling > 0 && Current(prev, inp) >= inp.ceiling)
  }

  /** A pass that argues for one node fewer, with every configured signal known. */
  predicate DownPass(prev: Option<Status>, inp: Input)
    requires InputOk(prev, inp)
  {
    && inp.converged
    && AllKnown(inp.spec, inp.signal)
    && WorstRatio(inp.spec, inp.signal).Some?
    && Recommend(inp.spec, inp.signal, Current(prev, inp)) < Current(prev, inp)
  }

  lemma ClampBounds(x: int, s: Spec)
    requires ValidSpec(s)
    ensures s.minReplicas <= Clamp(x, s) <= s.maxReplicas
    ensures s.minReplicas <= x <= s.maxReplicas ==> Clamp(x, s) == x
  {
  }

  // ---------- what is recommended, over the signals and targets alone ----------

  /** A configured signal that is known and above its target by more than the tolerance. */
  predicate Exceeds(target: Option<int>, v: Option<real>, tolerance: real) {
    target.Some? && v.Some? && v.value > target.value as real * (1.0 + tolerance)
  }

  /** If it is configured, the signal is known and below its target by more than the tolerance. */
  predicate FallsShort(target: Option<int>, v: Option<real>, tolerance: real) {
    target.Some? ==> v.Some? && v.value < target.value as real * (1.0 - tolerance)
  }

  /** The traffic of c nodes, as far as this signal knows it, is within its target on n nodes. */
  predicate Carries(target: Option<int>, v: Option<real>, c: int, n: int) {
    target.Some? && v.Some? ==> c as real * v.value <= n as real * target.value as real
  }

  predicate AllCarry(s: Spec, sig: Signal, c: int, n: int) {
    Carries(s.targetWrites, sig.writes, c, n) && Carries(s.targetQueue, sig.queue, c, n)
  }

  lemma RatioCompares(v: real, target: real, x: real)
    requires target > 0.0
    ensures v / target > x <==> v > target * x
    ensures v / target < x <==> v < target * x
  {
    var r := v / target;
    assert v == target * r;
    if r > x {
      assert target * (r - x) > 0.0;
    } else if r < x {
      assert target * (x - r) > 0.0;
    }
  }

  lemma RatioCarries(v: real, target: real, c: real, n: real)
    requires target > 0.0
    ensures c * (v / target) <= n <==> c * v <= n * target
  {
    var r := v / target;
    assert v == target * r;
    assert n * target - c * v == (n - c * r) * target;
  }

  lemma ScaledOrder(c: real, a: real, b: real)
    requires c >= 0.0 && a <= b
    ensures c * a <= c * b
  {
    assert c * (b - a) >= 0.0;
  }

  lemma SignalAgainstBand(target: Option<int>, v: Option<real>, tolerance: real)
    requires target.Some? && target.value >= 1 && v.Some?
    ensures RatioOf(target, v).value > 1.0 + tolerance <==> Exceeds(target, v, tolerance)
    ensures RatioOf(target, v).value < 1.0 - tolerance <==> FallsShort(target, v, tolerance)
  {
    RatioCompares(v.value, target.value as real, 1.0 + tolerance);
    RatioCompares(v.value, target.value as real, 1.0 - tolerance);
  }

  lemma MaxAgainst(a: Option<real>, b: Option<real>, x: real)
    requires MaxOf(a, b).Some?
    ensures MaxOf(a, b).value > x <==> (a.Some? && a.value > x) || (b.Some? && b.value > x)
    ensures MaxOf(a, b).value < x <==> (a.Some? ==> a.value < x) && (b.Some? ==> b.value < x)
  {
  }

  /** Some configured signal is above its band; every configured signal is below it. */
  predicate AnyExceeds(s: Spec, sig: Signal, tolerance: real) {
    Exceeds(s.targetWrites, sig.writes, tolerance) || Exceeds(s.targetQueue, sig.queue, tolerance)
  }

  predicate AllFallShort(s: Spec, sig: Signal, tolerance: real) {
    FallsShort(s.targetWrites, sig.writes, tolerance) && FallsShort(s.targetQueue, sig.queue, tolerance)
  }

  /** The worst ratio against the band, in terms of the signals. */
  lemma WorstAgainstBand(s: Spec, sig: Signal, tolerance: real)
    requires ValidSpec(s) && WorstRatio(s, sig).Some?
    ensures WorstRatio(s, sig).value > 1.0 + tolerance <==> AnyExceeds(s, sig, tolerance)
    ensures AllKnown(s, sig) && WorstRatio(s, sig).value < 1.0 - tolerance <==> AllFallShort(s, sig, tolerance)
  {
    var a, b := RatioOf(s.targetWrites, sig.writes), RatioOf(s.targetQueue, sig.queue);
    MaxAgainst(a, b, 1.0 + tolerance);
    MaxAgainst(a, b, 1.0 - tolerance);
    if a.Some? {
      SignalAgainstBand(s.targetWrites, sig.writes, tolerance);
    }
    if b.Some? {
      SignalAgainstBand(s.targetQueue, sig.queue, tolerance);
    }
  }

  lemma SignalAgainstNodes(target: Option<int>, v: Option<real>, c: int, n: int)
    requires target.Some? && target.value >= 1 && v.Some?
    ensures c as real * RatioOf(target, v).value <= n as real <==> Carries(target, v, c, n)
  {
    RatioCarries(v.value, target.value as real, c as real, n as real);
  }

  lemma MaxScaled(a: Option<real>, b: Option<real>, c: real, n: real)
    requires MaxOf(a, b).Some? && c >= 0.0
    ensures c * MaxOf(a, b).value <= n <==> (a.Some? ==> c * a.value <= n) && (b.Some? ==> c * b.value <= n)
  {
    if a.Some? && b.Some? {
      if b.value < a.value {
        ScaledOrder(c, b.value, a.value);
      } else {
        ScaledOrder(c, a.value, b.value);
      }
    }
  }

  lemma SignalsAgainstNodes(s: Spec, sig: Signal, c: int, n: int)
    requires ValidSpec(s)
    ensures var a, b := RatioOf(s.targetWrites, sig.writes), RatioOf(s.targetQueue, sig.queue);
            AllCarry(s, sig, c, n)
            <==> && (a.Some? ==> c as real * a.value <= n as real)
                 && (b.Some? ==> c as real * b.value <= n as real)
  {
    if RatioOf(s.targetWrites, sig.writes).Some? {
      SignalAgainstNodes(s.targetWrites, sig.writes, c, n);
    }
    if RatioOf(s.targetQueue, sig.queue).Some? {
      SignalAgainstNodes(s.targetQueue, sig.queue, c, n);
    }
  }

  /** The worst ratio against n nodes, in terms of the signals. */
  lemma WorstAgainstNodes(s: Spec, sig: Signal, c: int, n: int)
    requires ValidSpec(s) && WorstRatio(s, sig).Some? && c >= 0
    ensures Asked(s, sig, c) <= n <==> AllCarry(s, sig, c, n)
  {
    CeilIsLeast(c as real * WorstRatio(s, sig).value, n);
    MaxScaled(RatioOf(s.targetWrites, sig.writes), RatioOf(s.targetQueue, sig.queue), c as real, n as real);
    SignalsAgainstNodes(s, sig, c, n);
  }

  lemma CeilIsLeast(x: real, n: int)
    ensures Ceil(x) <= n <==> x <= n as real
  {
  }

  /** What c nodes at a ratio ask for is on the same side of c as the ratio is of one. */
  lemma AskedIsOnTheSide(c: int, r: real)
    requires c >= 1
    ensures r > 1.0 <==> Ceil(c as real * r) > c
  {
    CeilIsLeast(c as real * r, c);
    if r > 1.0 {
      assert c as real * (r - 1.0) > 0.0;
    } else {
      ScaledOrder(c as real, r, 1.0);
    }
  }

  lemma ChosenSides(s: Spec, allKnown: bool, c: int, ratio: real, asked: int)
    requires ValidSpec(s) && s.minReplicas <= c <= s.maxReplicas && (ratio > 1.0 <==> asked > c)
    ensures Chosen(s, allKnown, c, ratio, asked) > c <==> c < s.maxReplicas && ratio > 1.0 + Tolerance(s)
    ensures Chosen(s, allKnown, c, ratio, asked) < c
            <==> s.minReplicas < c && allKnown && asked <= c - 1 && ratio < 1.0 - Tolerance(s)
    ensures Chosen(s, allKnown, c, ratio, asked) != c ==> Chosen(s, allKnown, c, ratio, asked) == Clamp(asked, s)
  {
    assert Tolerance(s) >= 0.0;
  }

  /**
   What a converged pass recommends, over the signals and targets alone. More nodes exactly when
   there is room and a known signal is above its target by more than the tolerance. Fewer exactly
   when every configured signal is known and below its target by more than the tolerance, one node
   fewer still carries the traffic, and the minimum allows it. Otherwise the current size. And when
   it is not the current size, it is the fewest nodes inside the bounds that carry the traffic, or
   the maximum if none do.
   */
  lemma RecommendationMeans(prev: Option<Status>, inp: Input)
    requires InputOk(prev, inp) && inp.converged
    ensures var s, sig, c, rec := inp.spec, inp.signal, Current(prev, inp), Decide(prev, inp).status.recommended;
            && (rec > c <==> c < s.maxReplicas && AnyExceeds(s, sig, Tolerance(s)))
            && (rec < c <==> s.minReplicas < c && AllFallShort(s, sig, Tolerance(s)) && AllCarry(s, sig, c, c - 1))
            && (rec != c ==> IsFewest(s, sig, c, rec))
  {
    var s, sig, c := inp.spec, inp.signal, Current(prev, inp);
    ClampBounds(Base(prev, inp.initial).desired, s);
    if WorstRatio(s, sig).Some? {
      RecommendMeans(s, sig, c);
      if Recommend(s, sig, c) != c {
        RecommendIsFewest(s, sig, c);
      }
    }
  }

  /** n is the fewest nodes inside the bounds that carry the traffic of c, or the maximum if none do. */
  ghost predicate IsFewest(s: Spec, sig: Signal, c: int, n: int) {
    && s.minReplicas <= n <= s.maxReplicas
    && (AllCarry(s, sig, c, n) || n == s.maxReplicas)
    && forall m :: s.minReplicas <= m < n ==> !AllCarry(s, sig, c, m)
  }

  lemma ClampIsFewest(s: Spec, sig: Signal, c: int, asked: int)
    requires ValidSpec(s) && forall n :: s.minReplicas <= n <= s.maxReplicas ==> (asked <= n <==> AllCarry(s, sig, c, n))
    ensures IsFewest(s, sig, c, Clamp(asked, s))
  {
  }

  lemma RecommendSides(s: Spec, sig: Signal, c: int)
    requires ValidSpec(s) && WorstRatio(s, sig).Some? && s.minReplicas <= c <= s.maxReplicas
    ensures Recommend(s, sig, c) > c <==> c < s.maxReplicas && WorstRatio(s, sig).value > 1.0 + Tolerance(s)
    ensures Recommend(s, sig, c) < c <==> && s.minReplicas < c && AllKnown(s, sig) && Asked(s, sig, c) <= c - 1
                                          && WorstRatio(s, sig).value < 1.0 - Tolerance(s)
    ensures Recommend(s, sig, c) != c ==> Recommend(s, sig, c) == Clamp(Asked(s, sig, c), s)
  {
    AskedIsOnTheSide(c, WorstRatio(s, sig).value);
    ChosenSides(s, AllKnown(s, sig), c, WorstRatio(s, sig).value, Asked(s, sig, c));
  }

  lemma RecommendMeans(s: Spec, sig: Signal, c: int)
    requires ValidSpec(s) && WorstRatio(s, sig).Some? && s.minReplicas <= c <= s.maxReplicas
    ensures Recommend(s, sig, c) > c <==> c < s.maxReplicas && AnyExceeds(s, sig, Tolerance(s))
    ensures Recommend(s, sig, c) < c
            <==> s.minReplicas < c && AllFallShort(s, sig, Tolerance(s)) && AllCarry(s, sig, c, c - 1)
  {
    RecommendSides(s, sig, c);
    WorstAgainstBand(s, sig, Tolerance(s));
    WorstAgainstNodes(s, sig, c, c - 1);
  }

  lemma RecommendIsFewest(s: Spec, sig: Signal, c: int)
    requires ValidSpec(s) && WorstRatio(s, sig).Some? && s.minReplicas <= c <= s.maxReplicas
    requires Recommend(s, sig, c) != c
    ensures IsFewest(s, sig, c, Recommend(s, sig, c))
  {
    RecommendSides(s, sig, c);
    forall n | s.minReplicas <= n <= s.maxReplicas
      ensures Asked(s, sig, c) <= n <==> AllCarry(s, sig, c, n)
    {
      WorstAgainstNodes(s, sig, c, n);
    }
    ClampIsFewest(s, sig, c, Asked(s, sig, c));
  }

  /** A recommendation below the current size is never made on a partial view. */
  lemma ShrinkNeedsEverySignal(s: Spec, sig: Signal, current: int)
    requires ValidSpec(s) && WorstRatio(s, sig).Some? && s.minReplicas <= current <= s.maxReplicas
    requires Recommend(s, sig, current) < current
    ensures AllKnown(s, sig)
  {
  }

  /**
   One pass: the new size is inside the bounds and at most one node from the size it worked from;
   it grows only on a pass that argues for growth, and shrinks only on one that argues for removal.
   */
  lemma PassIsOneStep(prev: Option<Status>, inp: Input)
    requires InputOk(prev, inp)
    ensures var current, d := Current(prev, inp), Decide(prev, inp).status.desired;
            && inp.spec.minReplicas <= d <= inp.spec.maxReplicas
            && current - 1 <= d <= current + 1
            && (d > current ==> UpPass(prev, inp))
            && (d < current ==> DownPass(prev, inp))
  {
  }

  predicate NotAbove(p: Option<Status>) {
    p.Some? ==> p.value.above == None
  }

  predicate NotBelow(p: Option<Status>) {
    p.Some? ==> p.value.below == None
  }

  lemma UpStep(prev: Option<Status>, inp: Input)
    requires InputOk(prev, inp) && UpPass(prev, inp)
    ensures var since := if NotAbove(prev) then inp.now else prev.value.above.value;
            var st := Decide(prev, inp).status;
            if inp.now - since >= UpWindow(inp.spec) then st.desired == Current(prev, inp) + 1
            else st.desired == Current(prev, inp) && st.above == Some(since)
  {
  }

  lemma DownStep(prev: Option<Status>, inp: Input)
    requires InputOk(prev, inp) && DownPass(prev, inp)
    ensures var since := if NotBelow(prev) then inp.now else prev.value.below.value;
            var st := Decide(prev, inp).status;
            if inp.now - since >= DownWindow(inp.spec) then st.desired == Current(prev, inp) - 1
            else st.desired == Current(prev, inp) && st.below == Some(since)
  {
  }

  /** Since the moment the saved window began, or since now, at least the window has passed. */
  predicate Waited(since: Option<int>, now: int, window: int) {
    now - (if since.Some? then since.value else now) >= window
  }

  function AboveSaved(prev: Option<Status>): Option<int> {
    if prev.Some? then prev.value.above else None
  }

  function BelowSaved(prev: Option<Status>): Option<int> {
    if prev.Some? then prev.value.below else None
  }

  /**
   Exactly when one pass adds or removes a node, over the signals, the targets and the saved window
   alone.
   */
  lemma StepsExactlyWhen(prev: Option<Status>, inp: Input)
    requires InputOk(prev, inp)
    ensures var s, sig, c, d := inp.spec, inp.signal, Current(prev, inp), Decide(prev, inp).status.desired;
            && (d > c <==> && inp.converged && c < s.maxReplicas && AnyExceeds(s, sig, Tolerance(s))
                           && !(0 < inp.ceiling <= c) && Waited(AboveSaved(prev), inp.now, UpWindow(s)))
            && (d < c <==> && inp.converged && s.minReplicas < c
                           && AllFallShort(s, sig, Tolerance(s)) && AllCarry(s, sig, c, c - 1)
                           && Waited(BelowSaved(prev), inp.now, DownWindow(s)))
  {
    PassIsOneStep(prev, inp);
    if inp.converged {
      RecommendationMeans(prev, inp);
      if UpPass(prev, inp) {
        UpStep(prev, inp);
      } else if DownPass(prev, inp) {
        DownStep(prev, inp);
      }
      DownKnows(prev, inp);
    }
  }

  lemma DownKnows(prev: Option<Status>, inp: Input)
    requires InputOk(prev, inp) && inp.converged
    ensures Decide(prev, inp).status.recommended < Current(prev, inp) <==> DownPass(prev, inp)
    ensures Decide(prev, inp).status.recommended > Current(prev, inp) && !(0 < inp.ceiling <= Current(prev, inp))
            <==> UpPass(prev, inp)
  {
    ClampBounds(Base(prev, inp.initial).desired, inp.spec);
    if DownPass(prev, inp) || WorstRatio(inp.spec, inp.signal).Some? {
      if Recommend(inp.spec, inp.signal, Current(prev, inp)) < Current(prev, inp) {
        ShrinkNeedsEverySignal(inp.spec, inp.signal, Current(prev, inp));
      }
    }
  }

  /** The windows and the tolerance of a spec, and what it gets when it leaves them out. */
  lemma Defaults(s: Spec)
    ensures UpWindow(s) == if s.upSeconds.Some? then s.upSeconds.value * SECOND else MINUTE
    ensures DownWindow(s) == if s.downSeconds.Some? then s.downSeconds.value * SECOND else 5 * MINUTE
    ensures 100.0 * Tolerance(s) == if s.tolerancePercent.Some? then s.tolerancePercent.value as real else 10.0
  {
  }

  /**
   The scale time is the time of the latest change: a pass moves it to now exactly when it leaves a
   size other than the saved one, by a step or by an edited bound.
   */
  lemma ScaleTimeIsChangeTime(prev: Option<Status>, inp: Input)
    requires InputOk(prev, inp)
    ensures var base, st := Base(prev, inp.initial), Decide(prev, inp).status;
            st.lastScale == if st.desired != base.desired then Some(inp.now) else base.lastScale
  {
  }

  lemma ChosenAtMaximum(s: Spec, allKnown: bool, c: int, ratio: real, asked: int)
    requires ValidSpec(s) && s.minReplicas <= c <= s.maxReplicas && (ratio > 1.0 <==> asked > c)
    ensures ratio > 1.0 + Tolerance(s) ==>
              (Chosen(s, allKnown, c, ratio, asked) == s.maxReplicas <==> asked >= s.maxReplicas)
  {
    assert Tolerance(s) >= 0.0;
  }

  /**
   When the maximum is reported as the limit. The message says that traffic asks for more nodes than
   the maximum, but the report is also made when it asks for exactly that many: it holds exactly
   when the traffic is above the band and its own recommendation is at least the maximum.
   */
  lemma MaximumReportedExactlyWhen(s: Spec, sig: Signal, c: int)
    requires ValidSpec(s) && WorstRatio(s, sig).Some? && s.minReplicas <= c <= s.maxReplicas
    ensures ReportsMaximum(s, sig, c)
            <==> && WorstRatio(s, sig).value > 1.0 + Tolerance(s)
                 && Asked(s, sig, c) >= s.maxReplicas
  {
    var ratio := WorstRatio(s, sig).value;
    AskedIsOnTheSide(c, ratio);
    ChosenAtMaximum(s, AllKnown(s, sig), c, ratio, Asked(s, sig, c));
  }

  /** A converged pass with a signal is limited exactly by the maximum, or by a ceiling it has reached. */
  lemma LimitedExactlyWhen(prev: Option<Status>, inp: Input)
    requires InputOk(prev, inp)
    ensures Decide(prev, inp).limited
            <==> && inp.converged
                 && (WorstRatio(inp.spec, inp.signal).Some? ==>
                       var c := Current(prev, inp);
                       || ReportsMaximum(inp.spec, inp.signal, c)
                       || (Recommend(inp.spec, inp.signal, c) > c && 0 < inp.ceiling <= c))
    ensures Decide(prev, inp).limited && inp.ceiling > 0 && Current(prev, inp) >= inp.ceiling ==>
              Decide(prev, inp).status.desired <= Current(prev, inp)
  {
  }

  /** Four nodes at five quarters of the target ask for exactly the maximum of five, and are reported as limited. */
  lemma ExactMaximumIsReported()
    ensures var s := Spec(3, 5, Some(100), None, None, None, None);
            var prev, inp := Some(Status(4, 4, None, None, None)), Input(s, 3, Signal(Some(125.0), None), true, 0, 0);
            && InputOk(prev, inp) && Ceil(Current(prev, inp) as real * WorstRatio(s, inp.signal).value) == s.maxReplicas
            && Decide(prev, inp).limited
  {
    var s := Spec(3, 5, Some(100), None, None, None, None);
    assert WorstRatio(s, Signal(Some(125.0), None)) == Some(125.0 / 100 as real);
    assert 125.0 / 100 as real == 1.25;
    assert 4 as real * 1.25 == 5.0;
    assert Ceil(5.0) == 5;
    assert Tolerance(s) == 0.1;
  }
}
