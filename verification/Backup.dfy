/**
 One backup: which one is due, what a round of requests to the nodes amounts to, and what a
 finished one does to the saved status.

 Models decideBackup, backupRetryDelay, runBackup and applyBackupResult of
 internal/controller/backup.go.
 */
module Backup {
  import opened Options
  import opened Durations
  import opened Kahuna
  import opened Schedules

  const RETRY_MAX: int := 30 * MINUTE
  const UNCLAIMED_RETRY: int := 15 * SECOND
  const UNCLAIMED_FAIL_AFTER: int := 5 * MINUTE

  datatype Kind = Full | Incremental

  /** The scheduler's memory between passes. */
  datatype Status = Status(
    lastFull: Option<int>,
    lastIncremental: Option<int>,
    lastSuccess: Option<int>,
    lastId: string,
    lastType: string,
    failures: nat,
    lastFailure: Option<int>,
    unclaimedSince: Option<int>,
    lastUnclaimed: Option<int>)

  const NO_STATUS := Status(None, None, None, "", "", 0, None, None, None)

  // ---------- the backoff ----------

  function Pow2(n: nat): nat {
    if n == 0 then 1 else 2 * Pow2(n - 1)
  }

  lemma {:induction false} Pow2Grows(m: nat, n: nat)
    requires m <= n
    ensures Pow2(m) <= Pow2(n)
  {
    if m < n {
      Pow2Grows(m, n - 1);
    }
  }

  function MinInt(a: int, b: int): int { if a < b then a else b }

  /** Doubling from a minute with every failure after the first, up to half an hour. */
  function RetryDelay(failures: nat): int {
    MinInt(Pow2(if failures > 0 then failures - 1 else 0) * MINUTE, RETRY_MAX)
  }

  method BackupRetryDelay(failures: nat) returns (d: int)
    ensures d == RetryDelay(failures)
  {
    d := MINUTE;
    var i := 1;
    while i < failures && d < RETRY_MAX
      invariant 1 <= i && (i <= failures || i == 1)
      invariant d == Pow2(i - 1) * MINUTE
    {
      d := d * 2;
      i := i + 1;
    }
    if i < failures {
      Pow2Grows(i - 1, failures - 1);
    }
    d := if d < RETRY_MAX then d else RETRY_MAX;
  }

  /** Longer streaks never wait less, and the wait is a minute to half an hour. */
  lemma DelayGrows(a: nat, b: nat)
    requires a <= b
    ensures MINUTE <= RetryDelay(a) <= RetryDelay(b) <= RETRY_MAX
  {
    var x, y := if a > 0 then a - 1 else 0, if b > 0 then b - 1 else 0;
    Pow2Grows(0, x);
    Pow2Grows(x, y);
  }

  // ---------- the decision ----------

  /** The backup to start, if any, with the schedule time it covers; else when to look again. */
  datatype Decision = Decision(start: Option<(Kind, int)>, retryAt: Option<int>, next: Option<int>)

  /** Where the incremental schedule is counted from: the later of the two anchors. */
  function IncrementalBase(st: Status, anchor: int): (base: int)
    ensures base >= anchor && (st.lastIncremental.Some? ==> base >= st.lastIncremental.value)
    ensures base == anchor || st.lastIncremental == Some(base)
  {
    if st.lastIncremental.Some? && st.lastIncremental.value > anchor then st.lastIncremental.value else anchor
  }

  /** What the schedules alone ask for. */
  function Wanted(full: Schedule, inc: Option<Schedule>, st: Status, now: int): Decision {
    match st.lastFull
    case None => Decision(Some((Full, now)), None, None)
    case Some(anchor) =>
      var f := LatestDue(full, anchor, now);
      if f.due.Some? then Decision(Some((Full, f.due.value)), None, f.next)
      else if inc.Some? && st.lastId != "" then
        var base := IncrementalBase(st, anchor);
        var i := LatestDue(inc.value, base, now);
        var next := Earliest(f.next, i.next);
        if i.due.Some? then Decision(Some((Incremental, i.due.value)), None, next) else Decision(None, None, next)
      else Decision(None, None, f.next)
  }

  /** When a due backup may go out: after the backoff of the failures, or of an unclaimed attempt. */
  function HeldUntil(st: Status): Option<int> {
    if st.failures > 0 && st.lastFailure.Some? then Some(st.lastFailure.value + RetryDelay(st.failures))
    else if st.lastUnclaimed.Some? then Some(st.lastUnclaimed.value + UNCLAIMED_RETRY)
    else None
  }

  predicate Held(st: Status, now: int) {
    HeldUntil(st).Some? && HeldUntil(st).value > now
  }

  function Decide(full: Schedule, inc: Option<Schedule>, st: Status, now: int): Decision {
    var d := Wanted(full, inc, st, now);
    if d.start.Some? && Held(st, now) then Decision(None, HeldUntil(st), HeldUntil(st)) else d
  }

  /** The schedules are what cron promises. */
  ghost predicate ValidSchedules(full: Schedule, inc: Option<Schedule>) {
    Valid(full) && (inc.Some? ==> Valid(inc.value))
  }

  /**
   What a started backup covers: an instant not in the future and after every anchor of its kind. A
   full backup wins whenever one is due, and an incremental has a parent and a full anchor.
   */
  lemma StartedCovers(full: Schedule, inc: Option<Schedule>, st: Status, now: int)
    requires ValidSchedules(full, inc) && Decide(full, inc, st, now).start.Some?
    ensures var (kind, at) := Decide(full, inc, st, now).start.value;
            && !Held(st, now) && at <= now
            && (kind == Full && st.lastFull.Some? ==> at > st.lastFull.value && IsTime(full, at))
            && (kind == Full && st.lastFull.None? ==> at == now)
            && (kind == Incremental ==>
                  && st.lastFull.Some? && st.lastId != "" && at > st.lastFull.value
                  && (st.lastIncremental.Some? ==> at > st.lastIncremental.value)
                  && inc.Some? && IsTime(inc.value, at)
                  && Missed(full, st.lastFull.value, now) == {})
  {
    if st.lastFull.Some? {
      var anchor := st.lastFull.value;
      LatestDueMeaning(full, anchor, now);
      if inc.Some? {
        var base := IncrementalBase(st, anchor);
        LatestDueMeaning(inc.value, base, now);
      }
    }
  }

  // ---------- when a backup starts, over the missed times and the saved status alone ----------

  /** A full backup is due: there never was one, or a time of its schedule was missed since. */
  predicate FullDue(full: Schedule, st: Status, now: int) {
    st.lastFull.None? || Missed(full, st.lastFull.value, now) != {}
  }

  /** The incremental times missed since the later of the two anchors. */
  function MissedIncrements(inc: Schedule, st: Status, now: int): set<int>
    requires st.lastFull.Some?
  {
    Missed(inc, IncrementalBase(st, st.lastFull.value), now)
  }

  predicate IncrementalDue(inc: Option<Schedule>, st: Status, now: int) {
    st.lastFull.Some? && inc.Some? && st.lastId != "" && MissedIncrements(inc.value, st, now) != {}
  }

  /** After n failures in a row the wait is 2^(n-1) minutes, thirty at most; after an unclaimed attempt 15 seconds. */
  predicate Waits(st: Status, now: int) {
    if st.failures > 0 && st.lastFailure.Some?
    then now < st.lastFailure.value + MinInt(Pow2(st.failures - 1), 30) * MINUTE
    else st.lastUnclaimed.Some? && now < st.lastUnclaimed.value + 15 * SECOND
  }

  lemma HeldMeans(st: Status, now: int)
    ensures Held(st, now) <==> Waits(st, now)
  {
  }

  /** at is the greatest of the missed times, when they are no more than the walk's bound. */
  ghost predicate CoversLatest(at: int, missed: set<int>) {
    at in missed && (|missed| <= MAX_MISSED ==> forall t :: t in missed ==> t <= at)
  }

  lemma DueMeans(s: Schedule, base: int, now: int)
    requires Valid(s)
    ensures LatestDue(s, base, now).due.Some? <==> Missed(s, base, now) != {}
    ensures LatestDue(s, base, now).due.Some? ==> CoversLatest(LatestDue(s, base, now).due.value, Missed(s, base, now))
  {
    LatestDueMeaning(s, base, now);
  }

  /**
   Exactly when a pass starts a backup, which one, and what it covers: when one is due and no
   backoff is running; a full one whenever that is due; and the latest of the times missed.
   */
  lemma StartsExactlyWhen(full: Schedule, inc: Option<Schedule>, st: Status, now: int)
    requires ValidSchedules(full, inc)
    ensures var start := Decide(full, inc, st, now).start;
            && (start.Some? <==> !Waits(st, now) && (FullDue(full, st, now) || IncrementalDue(inc, st, now)))
            && (start.Some? ==>
                  && (start.value.0 == Full <==> FullDue(full, st, now))
                  && (if st.lastFull.None? then start.value.1 == now
                      else if start.value.0 == Full then CoversLatest(start.value.1, Missed(full, st.lastFull.value, now))
                      else CoversLatest(start.value.1, MissedIncrements(inc.value, st, now))))
  {
    HeldMeans(st, now);
    if st.lastFull.Some? {
      DueMeans(full, st.lastFull.value, now);
      if inc.Some? {
        DueMeans(inc.value, IncrementalBase(st, st.lastFull.value), now);
      }
    }
  }

  lemma WantedMeans(full: Schedule, inc: Option<Schedule>, st: Status, now: int)
    requires ValidSchedules(full, inc)
    ensures Wanted(full, inc, st, now).start.Some? <==> FullDue(full, st, now) || IncrementalDue(inc, st, now)
    ensures Wanted(full, inc, st, now).retryAt == None
  {
    if st.lastFull.Some? {
      DueMeans(full, st.lastFull.value, now);
      if inc.Some? {
        DueMeans(inc.value, IncrementalBase(st, st.lastFull.value), now);
      }
    }
  }

  /** A due backup that a backoff holds is reported with the time it is released, and nothing else is. */
  lemma HoldIsReported(full: Schedule, inc: Option<Schedule>, st: Status, now: int)
    requires ValidSchedules(full, inc)
    ensures var retryAt := Decide(full, inc, st, now).retryAt;
            && (retryAt.Some? <==> Waits(st, now) && (FullDue(full, st, now) || IncrementalDue(inc, st, now)))
            && (retryAt.Some? ==> Waits(st, retryAt.value - 1) && !Waits(st, retryAt.value))
  {
    var d := Decide(full, inc, st, now);
    assert d.retryAt == if Wanted(full, inc, st, now).start.Some? && Held(st, now) then HeldUntil(st) else None by {
      WantedMeans(full, inc, st, now);
    }
    WantedMeans(full, inc, st, now);
    HeldMeans(st, now);
    if d.retryAt.Some? {
      HeldMeans(st, d.retryAt.value - 1);
      HeldMeans(st, d.retryAt.value);
    }
  }

  /** A due backup is held half an hour at most after a failure, and seconds after an unclaimed attempt. */
  lemma HeldAtMostHalfAnHour(full: Schedule, inc: Option<Schedule>, st: Status, now: int)
    requires Wanted(full, inc, st, now).start.Some?
    requires st.lastFailure.Some? ==> now >= st.lastFailure.value + RETRY_MAX
    requires st.lastUnclaimed.Some? ==> now >= st.lastUnclaimed.value + UNCLAIMED_RETRY
    ensures Decide(full, inc, st, now) == Wanted(full, inc, st, now)
  {
  }

  // ---------- when to look again ----------

  /** No time of the schedule falls in (base, t]. */
  lemma NoneDue(s: Schedule, base: int, t: int)
    requires Valid(s)
    ensures LatestDue(s, base, t).due.None? <==> Missed(s, base, t) == {}
  {
    LatestDueMeaning(s, base, t);
  }

  /** With nothing due at now, the next time is the first of the schedule after now: nothing before it, due at it. */
  lemma NextOfOne(s: Schedule, base: int, now: int, t: int)
    requires Valid(s) && base <= now <= t && LatestDue(s, base, now).due.None?
    ensures var next := LatestDue(s, base, now).next;
            LatestDue(s, base, t).due.None? <==> next.None? || t < next.value
  {
    LatestDueMeaning(s, base, now);
    NoneDue(s, base, t);
    NextIsLeast(s, now);
    MissedSplit(s, base, now, t);
    MissedStep(s, now, t);
    if Missed(s, base, t) == {} {
      assert |Missed(s, now, t)| == 0;
    }
  }

  /** The times the status remembers are not in the future. */
  predicate RemembersPast(st: Status, now: int) {
    && (st.lastFull.Some? ==> st.lastFull.value <= now)
    && (st.lastIncremental.Some? ==> st.lastIncremental.value <= now)
  }

  lemma WantedLater(full: Schedule, inc: Option<Schedule>, st: Status, now: int, t: int)
    requires ValidSchedules(full, inc) && RemembersPast(st, now) && now <= t
    requires Wanted(full, inc, st, now).start.None?
    ensures var next := Wanted(full, inc, st, now).next;
            Wanted(full, inc, st, t).start.None? <==> next.None? || t < next.value
  {
    var anchor := st.lastFull.value;
    NextOfOne(full, anchor, now, t);
    if inc.Some? && st.lastId != "" {
      var base := IncrementalBase(st, anchor);
      NextOfOne(inc.value, base, now, t);
    }
  }

  lemma DueStaysDue(s: Schedule, base: int, now: int, t: int)
    requires Valid(s) && now <= t && LatestDue(s, base, now).due.Some?
    ensures LatestDue(s, base, t).due.Some?
  {
    NoneDue(s, base, now);
    NoneDue(s, base, t);
    assert Missed(s, base, now) <= Missed(s, base, t);
  }

  lemma WantedStaysWanted(full: Schedule, inc: Option<Schedule>, st: Status, now: int, t: int)
    requires ValidSchedules(full, inc) && now <= t && Wanted(full, inc, st, now).start.Some?
    ensures Wanted(full, inc, st, t).start.Some?
  {
    if st.lastFull.Some? {
      var anchor := st.lastFull.value;
      if LatestDue(full, anchor, now).due.Some? {
        DueStaysDue(full, anchor, now, t);
      } else {
        var base := IncrementalBase(st, anchor);
        DueStaysDue(inc.value, base, now, t);
      }
    }
  }

  /**
   The wake-up time is exact. When nothing is started now and the status stays as it is, the first
   time anything is started is the one the decision names, backoffs included: before it nothing is,
   and from it on something is whenever no backoff holds it.
   */
  lemma WakeIsExact(full: Schedule, inc: Option<Schedule>, st: Status, now: int, t: int)
    requires ValidSchedules(full, inc) && RemembersPast(st, now) && now <= t
    requires Decide(full, inc, st, now).start.None?
    ensures var next := Decide(full, inc, st, now).next;
            Decide(full, inc, st, t).start.None? <==> next.None? || t < next.value || Held(st, t)
  {
    if Wanted(full, inc, st, now).start.None? {
      WantedLater(full, inc, st, now, t);
    } else {
      WantedStaysWanted(full, inc, st, now, t);
    }
  }

  // ---------- asking the nodes ----------

  /** One node's answer: the backup, the end of the time allowed, a typed refusal, or no answer. */
  datatype Reply =
    | Took(info: BackupInfo)
    | OutOfTime(refusal: Option<BackupOutcome>)
    | Refused(outcome: BackupOutcome)
    | NoAnswer

  /** What a round amounts to. A failure carries the server's typed refusal when it wraps one. */
  datatype Result = Success(info: BackupInfo) | Unclaimed | Failed(refusal: Option<BackupOutcome>)

  /** The round ends with this node. */
  predicate Decisive(r: Reply) {
    r.Took? || r.OutOfTime? || (r.Refused? && !TryAnotherNode(r.outcome))
  }

  /** A refusal that clears on its own. */
  predicate Clears(r: Reply) {
    r.Refused? && ClearsOnRetry(r.outcome)
  }

  function Verdict(r: Reply): Result
    requires Decisive(r)
  {
    match r
    case Took(info) => Success(info)
    case OutOfTime(refusal) => Failed(refusal)
    case Refused(outcome) => Failed(Some(outcome))
  }

  /**
   runBackup: the first decisive answer is the result, and no node after it is asked. Without one,
   the backup is unclaimed exactly when there was a node and every refusal clears on retry.
   */
  method RunBackup(replies: seq<Reply>) returns (result: Result, asked: nat)
    ensures asked <= |replies|
    ensures forall k :: 0 <= k < asked - 1 ==> replies[k].NoAnswer? || (replies[k].Refused? && TryAnotherNode(replies[k].outcome))
    ensures asked < |replies| ==> asked > 0 && Decisive(replies[asked - 1])
    ensures asked > 0 && (replies[asked - 1].NoAnswer? || (replies[asked - 1].Refused? && TryAnotherNode(replies[asked - 1].outcome)))
            ==> asked == |replies|
    ensures asked > 0 && Decisive(replies[asked - 1]) ==> result == Verdict(replies[asked - 1])
    ensures (asked == 0 || !Decisive(replies[asked - 1])) ==>
              result == if replies != [] && (forall k :: 0 <= k < |replies| ==> Clears(replies[k]))
                        then Unclaimed else Failed(None)
  {
    var refusals, clears := 0, true;
    for i := 0 to |replies|
      invariant refusals == i
      invariant forall k :: 0 <= k < i ==> !Decisive(replies[k])
      invariant clears <==> forall k :: 0 <= k < i ==> Clears(replies[k])
    {
      var r := replies[i];
      if r.Took? {
        return Success(r.info), i + 1;
      }
      if r.OutOfTime? {
        return Failed(r.refusal), i + 1;
      }
      if r.Refused? && !TryAnotherNode(r.outcome) {
        return Failed(Some(r.outcome)), i + 1;
      }
      clears := clears && r.Refused? && ClearsOnRetry(r.outcome);
      refusals := refusals + 1;
    }
    asked := |replies|;
    if refusals == 0 {
      return Failed(None), asked;
    }
    result := if clears then Unclaimed else Failed(None);
  }

  /** What clears on retry is always worth asking another node about, and a missing parent never is. */
  lemma ClearsImpliesTryAnother(o: BackupOutcome)
    ensures ClearsOnRetry(o) ==> TryAnotherNode(o)
    ensures TryAnotherNode(o) && !ClearsOnRetry(o) <==> o == NotConfigured
    ensures !TryAnotherNode(ParentMissing)
  {
  }

  // ---------- recording the result ----------

  datatype Job = Job(kind: Kind, scheduled: int, parent: string)

  /** The attempt is unclaimed, no failure is outstanding, and the streak is still within the bound. */
  predicate GoesUncounted(st: Status, result: Result, now: int) {
    result.Unclaimed? && st.failures == 0
    && now - (if st.unclaimedSince.None? then now else st.unclaimedSince.value) < UNCLAIMED_FAIL_AFTER
  }

  predicate LostParent(job: Job, result: Result) {
    job.kind == Incremental && result == Failed(Some(ParentMissing))
  }

  function ApplyResult(st: Status, job: Job, result: Result, now: int): Status {
    if result.Success? then
      var info := result.info;
      var done := st.(lastSuccess := Some(now), lastId := info.id,
                      lastType := if info.actualKind == "" then info.typ else info.actualKind,
                      failures := 0, lastFailure := None, unclaimedSince := None, lastUnclaimed := None);
      if job.kind == Full then done.(lastFull := Some(job.scheduled), lastIncremental := Some(now))
      else done.(lastIncremental := Some(job.scheduled))
    else if GoesUncounted(st, result, now) then
      st.(unclaimedSince := if st.unclaimedSince.None? then Some(now) else st.unclaimedSince, lastUnclaimed := Some(now))
    else if LostParent(job, result) then
      st.(unclaimedSince := None, lastUnclaimed := None, lastId := "", lastFull := None)
    else
      st.(unclaimedSince := None, lastUnclaimed := None, failures := st.failures + 1, lastFailure := Some(now))
  }

  /** The status object that applyBackupResult edits in place. */
  class BackupStatus {
    var lastFull: Option<int>
    var lastIncremental: Option<int>
    var lastSuccess: Option<int>
    var lastId: string
    var lastType: string
    var failures: nat
    var lastFailure: Option<int>
    var unclaimedSince: Option<int>
    var lastUnclaimed: Option<int>

    function Value(): Status
      reads this
    {
      Status(lastFull, lastIncremental, lastSuccess, lastId, lastType, failures, lastFailure,
             unclaimedSince, lastUnclaimed)
    }

    constructor ()
      ensures Value() == NO_STATUS
    {
      lastFull, lastIncremental, lastSuccess := None, None, None;
      lastId, lastType, failures := "", "", 0;
      lastFailure, unclaimedSince, lastUnclaimed := None, None, None;
    }

    method Apply(job: Job, result: Result, now: int)
      modifies this
      ensures Value() == ApplyResult(old(Value()), job, result, now)
    {
      if result.Success? {
        var typ := result.info.actualKind;
        if typ == "" {
          typ := result.info.typ;
        }
        lastSuccess, lastId, lastType := Some(now), result.info.id, typ;
        failures, lastFailure := 0, None;
        unclaimedSince, lastUnclaimed := None, None;
        if job.kind == Full {
          lastFull := Some(job.scheduled);
          lastIncremental := Some(now);
        } else {
          lastIncremental := Some(job.scheduled);
        }
        return;
      }
      if result.Unclaimed? && failures == 0 {
        if unclaimedSince == None {
          unclaimedSince := Some(now);
        }
        if now - unclaimedSince.value < UNCLAIMED_FAIL_AFTER {
          lastUnclaimed := Some(now);
          return;
        }
      }
      unclaimedSince, lastUnclaimed := None, None;
      if job.kind == Incremental && result == Failed(Some(ParentMissing)) {
        lastId := "";
        lastFull := None;
        return;
      }
      failures := failures + 1;
      lastFailure := Some(now);
    }
  }
}
