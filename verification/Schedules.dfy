/**
 Cron schedules as the backup scheduler uses them, and the walk to the latest schedule time that
 is due.

 Models latestDue and earliest of internal/controller/backup.go. A cron.Schedule is its Next
 function; parsing is not modelled. Times are integers (nanoseconds), and None is Go's zero time.
 */
module Schedules {
  import opened Options

  /** maxMissedSchedules. */
  const MAX_MISSED: nat := 100000

  datatype Schedule = Schedule(next: int -> Option<int>)

  /** Next(t) is the first schedule time after t, so it is the same from everywhere in the gap before it. */
  ghost predicate Valid(s: Schedule) {
    && (forall t :: s.next(t).Some? ==> s.next(t).value > t)
    && (forall t, u :: s.next(t).Some? && t <= u < s.next(t).value ==> s.next(u) == s.next(t))
    && (forall t, u :: s.next(t).None? && t <= u ==> s.next(u).None?)
  }

  /** t is one of the schedule's times. */
  predicate IsTime(s: Schedule, t: int) {
    s.next(t - 1) == Some(t)
  }

  /** The schedule times in (base, now]. */
  function Missed(s: Schedule, base: int, now: int): set<int> {
    set t | base < t <= now && IsTime(s, t)
  }

  /** The least-later-time law, as a statement about the times themselves. */
  lemma NextIsLeast(s: Schedule, t: int)
    requires Valid(s)
    ensures s.next(t).Some? ==> IsTime(s, s.next(t).value) && s.next(t).value > t
    ensures forall u :: t < u && IsTime(s, u) ==> s.next(t).Some? && s.next(t).value <= u
  {
    if s.next(t).Some? {
      assert t <= s.next(t).value - 1 < s.next(t).value;
    }
    forall u | t < u && IsTime(s, u)
      ensures s.next(t).Some? && s.next(t).value <= u
    {
      assert t <= u - 1;
    }
  }

  lemma MissedStep(s: Schedule, t: int, now: int)
    requires Valid(s)
    ensures s.next(t).None? || s.next(t).value > now ==> Missed(s, t, now) == {}
    ensures s.next(t).Some? && s.next(t).value <= now ==>
              Missed(s, t, now) == {s.next(t).value} + Missed(s, s.next(t).value, now)
  {
    NextIsLeast(s, t);
  }

  lemma MissedCount(s: Schedule, t: int, now: int)
    requires Valid(s) && s.next(t).Some? && s.next(t).value <= now
    ensures |Missed(s, t, now)| == 1 + |Missed(s, s.next(t).value, now)|
  {
    MissedStep(s, t, now);
    assert s.next(t).value !in Missed(s, s.next(t).value, now);
  }

  lemma MissedSplit(s: Schedule, a: int, b: int, c: int)
    requires a <= b <= c
    ensures |Missed(s, a, c)| == |Missed(s, a, b)| + |Missed(s, b, c)|
  {
    assert Missed(s, a, c) == Missed(s, a, b) + Missed(s, b, c);
    assert Missed(s, a, b) !! Missed(s, b, c);
  }

  datatype Due = Due(due: Option<int>, next: Option<int>)

  /** The walk's loop: from the schedule time t, after `steps` turns. */
  function Walk(s: Schedule, t: int, now: int, steps: nat): Due
    requires t <= now && steps <= MAX_MISSED
    decreases MAX_MISSED - steps
  {
    if steps == MAX_MISSED then Due(Some(t), None)
    else
      match s.next(t)
      case None => Due(Some(t), None)
      case Some(n) => if n > now then Due(Some(t), Some(n)) else Walk(s, n, now, steps + 1)
  }

  function LatestDue(s: Schedule, base: int, now: int): Due {
    match s.next(base)
    case None => Due(None, None)
    case Some(t) => if t > now then Due(None, Some(t)) else Walk(s, t, now, 0)
  }

  method LatestDueLoop(s: Schedule, base: int, now: int) returns (r: Due)
    ensures r == LatestDue(s, base, now)
  {
    var first := s.next(base);
    if first == None || first.value > now {
      return Due(None, first);
    }
    var t := first.value;
    for i := 0 to MAX_MISSED
      invariant t <= now
      invariant Walk(s, t, now, i) == LatestDue(s, base, now)
    {
      var n := s.next(t);
      if n == None || n.value > now {
        return Due(Some(t), n);
      }
      t := n.value;
    }
    r := Due(Some(t), None);
  }

  function MinNat(a: nat, b: nat): nat { if a < b then a else b }

  /** What a walk from t with `left` turns may return: the last missed time, or the one `left` further on. */
  ghost predicate WalkResult(s: Schedule, t: int, now: int, left: nat, r: Due) {
    && r.due.Some? && t <= r.due.value <= now && IsTime(s, r.due.value)
    && |Missed(s, t, r.due.value)| == MinNat(|Missed(s, t, now)|, left)
    && (|Missed(s, t, now)| < left ==> Missed(s, r.due.value, now) == {} && r.next == s.next(r.due.value))
    && (|Missed(s, t, now)| >= left ==> r.next == None)
  }

  lemma WalkResultStep(s: Schedule, t: int, now: int, left: nat, r: Due)
    requires Valid(s) && s.next(t).Some? && s.next(t).value <= now && left > 0
    requires WalkResult(s, s.next(t).value, now, left - 1, r)
    ensures WalkResult(s, t, now, left, r)
  {
    assert t < s.next(t).value <= r.due.value;
    MissedCount(s, t, now);
    MissedCount(s, t, r.due.value);
  }

  lemma WalkResultEnd(s: Schedule, t: int, now: int, left: nat)
    requires Valid(s) && IsTime(s, t) && t <= now
    requires left == 0 || s.next(t).None? || s.next(t).value > now
    ensures WalkResult(s, t, now, left, Due(Some(t), if left == 0 then None else s.next(t)))
  {
  }

  lemma {:induction false} WalkMeaning(s: Schedule, t: int, now: int, steps: nat)
    requires Valid(s) && IsTime(s, t) && t <= now && steps <= MAX_MISSED
    ensures WalkResult(s, t, now, MAX_MISSED - steps, Walk(s, t, now, steps))
    decreases MAX_MISSED - steps
  {
    if steps < MAX_MISSED && s.next(t).Some? && s.next(t).value <= now {
      NextIsLeast(s, t);
      WalkMeaning(s, s.next(t).value, now, steps + 1);
      WalkResultStep(s, t, now, MAX_MISSED - steps, Walk(s, t, now, steps));
    } else {
      WalkResultEnd(s, t, now, MAX_MISSED - steps);
    }
  }

  lemma NothingAfter(s: Schedule, d: int, now: int)
    requires Valid(s) && d <= now && Missed(s, d, now) == {}
    ensures s.next(d) == s.next(now)
  {
    MissedStep(s, d, now);
    assert s.next(d).None? || s.next(d).value > now;
  }

  /** latestDue when something is due. */
  lemma SomethingDue(s: Schedule, base: int, now: int)
    requires Valid(s) && s.next(base).Some? && s.next(base).value <= now
    ensures var r, m := LatestDue(s, base, now), |Missed(s, base, now)|;
            && m > 0 && r.due.Some? && base < r.due.value <= now && IsTime(s, r.due.value)
            && |Missed(s, base, r.due.value)| == MinNat(m, MAX_MISSED + 1)
            && (m <= MAX_MISSED ==> Missed(s, r.due.value, now) == {} && r.next == s.next(r.due.value))
            && (m > MAX_MISSED ==> r.next == None)
  {
    var t := s.next(base).value;
    NextIsLeast(s, base);
    WalkMeaning(s, t, now, 0);
    MissedCount(s, base, now);
    MissedCount(s, base, Walk(s, t, now, 0).due.value);
  }

  /**
   What latestDue computes, for any schedule. With m schedule times missed in (base, now]: none is
   due when m is 0; up to the bound, the due time is the greatest of them and the next one is the
   first after now; past the bound it is the one the bound reaches, still in (base, now].
   */
  lemma LatestDueMeaning(s: Schedule, base: int, now: int)
    requires Valid(s)
    ensures var r, m := LatestDue(s, base, now), |Missed(s, base, now)|;
            && (r.due.None? <==> m == 0)
            && (r.due.Some? ==>
                  && base < r.due.value <= now && IsTime(s, r.due.value)
                  && |Missed(s, base, r.due.value)| == MinNat(m, MAX_MISSED + 1))
            && (0 < m <= MAX_MISSED ==> forall t :: t in Missed(s, base, now) ==> t <= r.due.value)
            && (m <= MAX_MISSED && base <= now ==> r.next == s.next(now))
            && (m > MAX_MISSED ==> r.next == None)
  {
    if s.next(base).Some? && s.next(base).value <= now {
      SomethingDue(s, base, now);
      var d := LatestDue(s, base, now).due.value;
      if |Missed(s, base, now)| <= MAX_MISSED {
        NothingAfter(s, d, now);
        GreatestMissed(s, base, d, now);
      }
    } else {
      MissedStep(s, base, now);
      if base <= now {
        NothingAfter(s, base, now);
      }
    }
  }

  lemma GreatestMissed(s: Schedule, base: int, d: int, now: int)
    requires Missed(s, d, now) == {}
    ensures forall t :: t in Missed(s, base, now) ==> t <= d
  {
    forall t | t in Missed(s, base, now)
      ensures t <= d
    {
      assert t > d ==> t in Missed(s, d, now);
    }
  }

  /** Catching up: what is still missed after the due time has shrunk by all of it, or by one more than the bound. */
  lemma CatchesUp(s: Schedule, base: int, now: int)
    requires Valid(s) && LatestDue(s, base, now).due.Some?
    ensures var d, m := LatestDue(s, base, now).due.value, |Missed(s, base, now)|;
            && |Missed(s, d, now)| == m - MinNat(m, MAX_MISSED + 1)
            && |Missed(s, d, now)| < m
  {
    LatestDueMeaning(s, base, now);
    MissedSplit(s, base, LatestDue(s, base, now).due.value, now);
  }

  function Earliest(a: Option<int>, b: Option<int>): (r: Option<int>)
    ensures r.Some? <==> a.Some? || b.Some?
    ensures r == a || r == b
    ensures a.Some? ==> r.value <= a.value
    ensures b.Some? ==> r.value <= b.value
  {
    if a == None then b else if b == None then a else if b.value < a.value then b else a
  }
}
