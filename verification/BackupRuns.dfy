/**
 The backup scheduler over time: passes that collect a finished backup and start the next one, and
 backups that end in between. A pass may be kept from starting (suspended, blocked, an invalid
 schedule), schedules may be edited between passes, and the operator may restart and lose a backup
 in progress. The clock never runs backwards.

 Models the control flow of reconcileBackup in internal/controller/backup.go.
 */
module BackupRuns {
  import opened Options
  import opened Durations
  import opened Kahuna
  import opened Schedules
  import opened Backup

  /** A backup in the background, with the time it was started and its result once it has ended. */
  datatype Running = Running(job: Job, startedAt: int, result: Option<Result>)

  /** One recorded success, with the time it was recorded. */
  datatype Taken = Taken(kind: Kind, scheduled: int, info: BackupInfo, parent: string, at: int)

  /**
   What has happened so far, told by the results alone: the successes; the unclaimed attempts in a
   row that went uncounted, with the times of the first and the last; the counted failures since the
   last success, with the time of the last; and whether the chain was lost since the last success.
   */
  datatype Log = Log(history: seq<Taken>, uncounted: nat, firstUnclaimed: Option<int>, lastUnclaimed: Option<int>,
                     counted: nat, failedAt: Option<int>, lost: bool)

  const EMPTY_LOG := Log([], 0, None, None, 0, None, false)

  /** The scheduler: the saved status, the backup in the background, the time of the latest pass, and the log. */
  datatype Scheduler = Scheduler(st: Status, job: Option<Running>, clock: int, log: Log)

  /** An unclaimed attempt does not count with no failure before it and for five minutes. */
  predicate Uncounted(l: Log, result: Result, now: int) {
    && result.Unclaimed? && l.counted == 0
    && (l.firstUnclaimed.Some? ==> now < l.firstUnclaimed.value + 5 * MINUTE)
  }

  function Logged(l: Log, job: Job, result: Result, now: int): Log {
    if result.Success? then
      EMPTY_LOG.(history := l.history + [Taken(job.kind, job.scheduled, result.info, job.parent, now)])
    else if Uncounted(l, result, now) then
      l.(uncounted := l.uncounted + 1, lastUnclaimed := Some(now),
         firstUnclaimed := if l.uncounted == 0 then Some(now) else l.firstUnclaimed)
    else
      var counts := !(job.kind == Incremental && result == Failed(Some(ParentMissing)));
      l.(uncounted := 0, firstUnclaimed := None, lastUnclaimed := None, lost := l.lost || !counts,
         counted := if counts then l.counted + 1 else l.counted,
         failedAt := if counts then Some(now) else l.failedAt)
  }

  // ---------- steps ----------

  /** The first half of a pass: a finished backup is recorded, once. */
  function Collect(s: Scheduler, now: int): Scheduler {
    if s.job.Some? && s.job.value.result.Some? then
      var job, result := s.job.value.job, s.job.value.result.value;
      Scheduler(ApplyResult(s.st, job, result, now), None, now, Logged(s.log, job, result, now))
    else s.(clock := now)
  }

  ghost predicate Pass(s: Scheduler, t: Scheduler, now: int, full: Schedule, inc: Option<Schedule>) {
    && now >= s.clock && ValidSchedules(full, inc)
    && var c := Collect(s, now);
       var d := Decide(full, inc, c.st, now);
       || t == c
       || (&& c.job.None? && d.start.Some?
           && t == c.(job := Some(Running(Job(d.start.value.0, d.start.value.1, c.st.lastId), now, None))))
  }

  /** The backup in the background ends. A success carries an id: a response without one is an error. */
  predicate Finishes(s: Scheduler, t: Scheduler, result: Result) {
    && s.job.Some? && s.job.value.result.None?
    && (result.Success? ==> result.info.id != "")
    && t == s.(job := Some(s.job.value.(result := Some(result))))
  }

  /** The operator restarts: the background backup and its result are lost. */
  predicate Restarts(s: Scheduler, t: Scheduler) {
    t == s.(job := None)
  }

  ghost predicate Next(s: Scheduler, t: Scheduler) {
    || (exists now, full, inc :: Pass(s, t, now, full, inc))
    || (exists result :: Finishes(s, t, result))
    || Restarts(s, t)
  }

  predicate Starts(s: Scheduler) {
    s.st == NO_STATUS && s.job.None? && s.log == EMPTY_LOG
  }

  ghost predicate Run(ss: seq<Scheduler>) {
    && |ss| > 0 && Starts(ss[0])
    && forall k :: 0 <= k < |ss| - 1 ==> Next(ss[k], ss[k + 1])
  }

  // ---------- the invariant ----------

  predicate NotAfter(t: Option<int>, now: int) {
    t.Some? ==> t.value <= now
  }

  predicate StatusInv(st: Status, clock: int) {
    && (st.lastFull.Some? <==> st.lastId != "")
    && (st.lastFailure.Some? <==> st.failures > 0)
    && (st.unclaimedSince.Some? <==> st.lastUnclaimed.Some?)
    && (st.unclaimedSince.Some? ==> st.failures == 0)
    && NotAfter(st.lastFull, clock) && NotAfter(st.lastIncremental, clock)
    && NotAfter(st.lastFailure, clock) && NotAfter(st.lastUnclaimed, clock)
  }

  /** The background backup was started from the status as it still is. */
  predicate JobInv(st: Status, r: Running, clock: int) {
    && r.job.scheduled <= r.startedAt <= clock
    && r.job.parent == st.lastId
    && !Held(st, r.startedAt)
    && (r.job.kind == Full && st.lastFull.Some? ==> r.job.scheduled > st.lastFull.value)
    && (r.job.kind == Incremental ==> st.lastFull.Some? && r.job.scheduled > st.lastFull.value)
    && (r.job.kind == Incremental && st.lastIncremental.Some? ==> r.job.scheduled > st.lastIncremental.value)
    && (r.result.Some? && r.result.value.Success? ==> r.result.value.info.id != "")
  }

  /** The history is made of chains: it starts with a full backup, and an incremental continues the entry before it. */
  predicate Chained(h: seq<Taken>) {
    && (h != [] ==> h[0].kind == Full)
    && (forall i :: 0 < i < |h| && h[i].kind == Incremental ==> h[i].parent == h[i - 1].info.id)
  }

  predicate ChainInv(st: Status, h: seq<Taken>) {
    && Chained(h)
    && (st.lastId != "" ==> h != [] && h[|h| - 1].info.id == st.lastId)
  }

  /** Within each kind the covered instants strictly increase. */
  predicate Increasing(h: seq<Taken>) {
    forall i, j :: 0 <= i < j < |h| && h[i].kind == h[j].kind ==> h[i].scheduled < h[j].scheduled
  }

  /** Every entry of this kind covers an instant before `bound`. */
  predicate AllBefore(h: seq<Taken>, kind: Kind, bound: int) {
    forall i :: 0 <= i < |h| && h[i].kind == kind ==> h[i].scheduled < bound
  }

  predicate CoverInv(st: Status, h: seq<Taken>, clock: int) {
    && Increasing(h)
    && (h != [] ==> st.lastIncremental.Some? && AllBefore(h, Incremental, st.lastIncremental.value + 1))
    && (if st.lastFull.Some? then AllBefore(h, Full, st.lastFull.value + 1) else AllBefore(h, Full, clock))
    && (st.lastFull.Some? ==> exists i :: 0 <= i < |h| && h[i].kind == Full && h[i].scheduled == st.lastFull.value)
  }

  predicate UnclaimedInv(st: Status, l: Log) {
    && st.failures == l.counted && st.unclaimedSince == l.firstUnclaimed
    && if st.unclaimedSince.Some? && st.lastUnclaimed.Some? then
      && l.uncounted >= 1
      && st.lastUnclaimed.value - st.unclaimedSince.value >= UNCLAIMED_RETRY * (l.uncounted - 1)
      && st.lastUnclaimed.value - st.unclaimedSince.value < UNCLAIMED_FAIL_AFTER
    else l.uncounted == 0
  }

  /** The schedule time of the last full backup in the history. */
  function LastFull(h: seq<Taken>): Option<int> {
    if h == [] then None
    else if h[|h| - 1].kind == Full then Some(h[|h| - 1].scheduled)
    else LastFull(h[..|h| - 1])
  }

  /** The status as the log tells it. */
  function StatusOf(l: Log): Status {
    var st := NO_STATUS.(failures := l.counted, lastFailure := l.failedAt,
                         unclaimedSince := l.firstUnclaimed, lastUnclaimed := l.lastUnclaimed);
    if l.history == [] then st
    else
      var last := l.history[|l.history| - 1];
      st.(lastFull := if l.lost then None else LastFull(l.history),
          lastIncremental := Some(if last.kind == Full then last.at else last.scheduled),
          lastSuccess := Some(last.at),
          lastId := if l.lost then "" else last.info.id,
          lastType := if last.info.actualKind != "" then last.info.actualKind else last.info.typ)
  }

  predicate Inv(s: Scheduler) {
    && StatusInv(s.st, s.clock)
    && ChainInv(s.st, s.log.history)
    && CoverInv(s.st, s.log.history, s.clock)
    && UnclaimedInv(s.st, s.log)
    && (s.job.Some? ==> JobInv(s.st, s.job.value, s.clock) && AllBefore(s.log.history, s.job.value.job.kind, s.job.value.job.scheduled))
  }

  // ---------- preservation ----------

  lemma ClockMoves(s: Scheduler, now: int)
    requires Inv(s) && now >= s.clock
    ensures Inv(s.(clock := now))
  {
  }

  lemma ApplyKeepsStatus(s: Scheduler, now: int)
    requires Inv(s) && now >= s.clock && s.job.Some? && s.job.value.result.Some?
    ensures StatusInv(Collect(s, now).st, now) && UnclaimedInv(Collect(s, now).st, Collect(s, now).log)
  {
  }

  lemma ApplyKeepsChains(s: Scheduler, now: int)
    requires Inv(s) && now >= s.clock && s.job.Some? && s.job.value.result.Some?
    ensures ChainInv(Collect(s, now).st, Collect(s, now).log.history)
  {
  }

  lemma SuccessKeepsCover(s: Scheduler, now: int)
    requires Inv(s) && now >= s.clock && s.job.Some?
    requires s.job.value.result.Some? && s.job.value.result.value.Success?
    ensures CoverInv(Collect(s, now).st, Collect(s, now).log.history, now)
  {
    var c, job := Collect(s, now), s.job.value.job;
    var n := |s.log.history|;
    assert c.log.history[n].kind == job.kind && c.log.history[n].scheduled == job.scheduled;
    if job.kind == Incremental {
      var i :| 0 <= i < n && s.log.history[i].kind == Full && s.log.history[i].scheduled == s.st.lastFull.value;
      assert c.log.history[i] == s.log.history[i];
    }
  }

  lemma ApplyKeepsCover(s: Scheduler, now: int)
    requires Inv(s) && now >= s.clock && s.job.Some? && s.job.value.result.Some?
    ensures CoverInv(Collect(s, now).st, Collect(s, now).log.history, now)
  {
    if s.job.value.result.value.Success? {
      SuccessKeepsCover(s, now);
    }
  }

  lemma CollectKeepsInv(s: Scheduler, now: int)
    requires Inv(s) && now >= s.clock
    ensures Inv(Collect(s, now)) && Collect(s, now).clock == now
  {
    if s.job.Some? && s.job.value.result.Some? {
      ApplyKeepsStatus(s, now);
      ApplyKeepsChains(s, now);
      ApplyKeepsCover(s, now);
    } else {
      ClockMoves(s, now);
    }
  }

  lemma StartKeepsInv(c: Scheduler, full: Schedule, inc: Option<Schedule>, t: Scheduler)
    requires Inv(c) && c.job.None? && ValidSchedules(full, inc)
    requires var d := Decide(full, inc, c.st, c.clock);
             d.start.Some? && t == c.(job := Some(Running(Job(d.start.value.0, d.start.value.1, c.st.lastId), c.clock, None)))
    ensures Inv(t)
  {
    StartedCovers(full, inc, c.st, c.clock);
  }

  lemma StepKeepsInv(s: Scheduler, t: Scheduler)
    requires Inv(s) && Next(s, t)
    ensures Inv(t)
  {
    if now, full, inc :| Pass(s, t, now, full, inc) {
      CollectKeepsInv(s, now);
      var c := Collect(s, now);
      if t != c {
        StartKeepsInv(c, full, inc, t);
      }
    }
  }

  lemma {:induction false} RunsKeepInv(ss: seq<Scheduler>, k: nat)
    requires Run(ss) && k < |ss|
    ensures Inv(ss[k])
  {
    if k > 0 {
      RunsKeepInv(ss, k - 1);
      assert Next(ss[k - 1], ss[k - 1 + 1]);
      StepKeepsInv(ss[k - 1], ss[k]);
    }
  }

  // ---------- the status is what the log tells ----------

  /** The log fits together, and the status is the one it tells. */
  predicate LogInv(s: Scheduler) {
    && s.st == StatusOf(s.log)
    && (s.log.history == [] ==> !s.log.lost)
    && (s.log.uncounted > 0 <==> s.log.firstUnclaimed.Some?)
  }

  lemma LastFullStep(h: seq<Taken>, t: Taken)
    ensures LastFull(h + [t]) == if t.kind == Full then Some(t.scheduled) else LastFull(h)
  {
    assert (h + [t])[..|h|] == h;
  }

  lemma SuccessKeepsLog(s: Scheduler, now: int)
    requires Inv(s) && LogInv(s) && s.job.Some? && s.job.value.result.Some? && s.job.value.result.value.Success?
    ensures LogInv(Collect(s, now))
  {
    var job, result := s.job.value.job, s.job.value.result.value;
    var t := Taken(job.kind, job.scheduled, result.info, job.parent, now);
    LastFullStep(s.log.history, t);
    assert (s.log.history + [t])[|s.log.history|] == t;
  }

  lemma CollectKeepsLog(s: Scheduler, now: int)
    requires Inv(s) && LogInv(s)
    ensures LogInv(Collect(s, now))
  {
    if s.job.Some? && s.job.value.result.Some? {
      if s.job.value.result.value.Success? {
        SuccessKeepsLog(s, now);
      }
    }
  }

  lemma StepKeepsLog(s: Scheduler, t: Scheduler)
    requires Inv(s) && LogInv(s) && Next(s, t)
    ensures LogInv(t)
  {
    if now, full, inc :| Pass(s, t, now, full, inc) {
      CollectKeepsLog(s, now);
    }
  }

  /**
   The saved status is exactly what has happened: in every state of every run each of its fields is
   the one the log tells, the number of failures among them.
   */
  lemma {:induction false} StatusIsWhatHappened(ss: seq<Scheduler>, k: nat)
    requires Run(ss) && k < |ss|
    ensures LogInv(ss[k])
  {
    if k > 0 {
      StatusIsWhatHappened(ss, k - 1);
      RunsKeepInv(ss, k - 1);
      assert Next(ss[k - 1], ss[k - 1 + 1]);
      StepKeepsLog(ss[k - 1], ss[k]);
    }
  }

  /**
   The backoff doubles: in every state of every run, n counted failures after the last success hold
   a due backup for exactly 2^(n-1) minutes after the last of them, thirty at most.
   */
  lemma BackoffDoubles(ss: seq<Scheduler>, k: nat, full: Schedule, inc: Option<Schedule>, now: int)
    requires Run(ss) && k < |ss| && ss[k].log.counted > 0 && ValidSchedules(full, inc)
    ensures ss[k].log.failedAt.Some?
    ensures var st, l := ss[k].st, ss[k].log;
            Decide(full, inc, st, now).start.Some?
            <==> && (FullDue(full, st, now) || IncrementalDue(inc, st, now))
                 && now >= l.failedAt.value + MinInt(Pow2(l.counted - 1), 30) * MINUTE
  {
    StatusIsWhatHappened(ss, k);
    RunsKeepInv(ss, k);
    StartsExactlyWhen(full, inc, ss[k].st, now);
  }

  // ---------- what every run keeps ----------

  /** The full backup a chain goes back to. */
  function Root(h: seq<Taken>, i: nat): (r: nat)
    requires Chained(h) && i < |h|
    ensures r <= i && h[r].kind == Full
    ensures forall j :: r < j <= i ==> h[j].kind == Incremental && h[j].parent == h[j - 1].info.id
  {
    if h[i].kind == Full then i else Root(h, i - 1)
  }

  /**
   Every recorded backup can be restored: following parents from any of them, each one the success
   recorded just before, ends in a full backup. And there is a full anchor exactly when there is a
   latest id, which is that of the last success.
   */
  lemma ChainsEndInFull(ss: seq<Scheduler>, k: nat, i: nat)
    requires Run(ss) && k < |ss| && i < |ss[k].log.history|
    ensures Chained(ss[k].log.history)
    ensures var h, r := ss[k].log.history, Root(ss[k].log.history, i);
            && h[r].kind == Full
            && forall j :: r < j <= i ==> h[j].kind == Incremental && h[j].parent == h[j - 1].info.id
    ensures ss[k].st.lastFull.Some? <==> ss[k].st.lastId != ""
    ensures ss[k].st.lastId != "" ==> ss[k].st.lastId == ss[k].log.history[|ss[k].log.history| - 1].info.id
  {
    RunsKeepInv(ss, k);
  }

  /** No instant of either schedule is covered by two recorded backups. */
  lemma NoInstantCoveredTwice(ss: seq<Scheduler>, k: nat, i: nat, j: nat)
    requires Run(ss) && k < |ss| && i < j < |ss[k].log.history|
    requires ss[k].log.history[i].kind == ss[k].log.history[j].kind
    ensures ss[k].log.history[i].scheduled < ss[k].log.history[j].scheduled <= ss[k].clock
  {
    RunsKeepInv(ss, k);
    var st, h := ss[k].st, ss[k].log.history;
    assert h[j].scheduled <= ss[k].clock;
  }

  lemma HistoryGrowsInStep(s: Scheduler, t: Scheduler)
    requires Next(s, t)
    ensures s.log.history <= t.log.history
  {
  }

  lemma Prefixes(a: seq<Taken>, b: seq<Taken>, c: seq<Taken>)
    requires a <= b && b <= c
    ensures a <= c
  {
  }

  predicate AnchorMoves(a: Option<int>, b: Option<int>) {
    a.Some? ==> b.Some? && a.value <= b.value
  }

  lemma CollectMovesAnchor(s: Scheduler, now: int)
    requires Inv(s) && now >= s.clock
    ensures AnchorMoves(s.st.lastIncremental, Collect(s, now).st.lastIncremental)
  {
  }

  lemma AnchorMovesInStep(s: Scheduler, t: Scheduler)
    requires Inv(s) && Next(s, t)
    ensures AnchorMoves(s.st.lastIncremental, t.st.lastIncremental)
  {
    if now, full, inc :| Pass(s, t, now, full, inc) {
      CollectMovesAnchor(s, now);
      assert t.st == Collect(s, now).st;
    }
  }

  /** Nothing recorded is lost, and the incremental anchor does not move back. */
  predicate Moved(s: Scheduler, t: Scheduler) {
    s.log.history <= t.log.history && AnchorMoves(s.st.lastIncremental, t.st.lastIncremental)
  }

  lemma RunsMove(ss: seq<Scheduler>)
    requires Run(ss)
    ensures forall k :: 0 <= k < |ss| - 1 ==> Moved(ss[k], ss[k + 1])
  {
    forall k | 0 <= k < |ss| - 1
      ensures Moved(ss[k], ss[k + 1])
    {
      RunsKeepInv(ss, k);
      assert Next(ss[k], ss[k + 1]);
      HistoryGrowsInStep(ss[k], ss[k + 1]);
      AnchorMovesInStep(ss[k], ss[k + 1]);
    }
  }

  lemma {:induction false} MovedFar(ss: seq<Scheduler>, i: nat, k: nat)
    requires forall j :: 0 <= j < |ss| - 1 ==> Moved(ss[j], ss[j + 1])
    requires i <= k < |ss|
    ensures Moved(ss[i], ss[k])
    decreases k
  {
    if i < k {
      MovedFar(ss, i, k - 1);
      assert Moved(ss[k - 1], ss[k - 1 + 1]);
      Prefixes(ss[i].log.history, ss[k - 1].log.history, ss[k].log.history);
    }
  }

  /** Neither schedule anchor ever moves back, across any number of passes and lost chains, nor into the future. */
  lemma AnchorsNeverMoveBack(ss: seq<Scheduler>, i: nat, k: nat)
    requires Run(ss) && i <= k < |ss|
    ensures ss[i].st.lastFull.Some? && ss[k].st.lastFull.Some? ==>
              ss[i].st.lastFull.value <= ss[k].st.lastFull.value <= ss[k].clock
    ensures ss[i].st.lastIncremental.Some? ==>
              && ss[k].st.lastIncremental.Some?
              && ss[i].st.lastIncremental.value <= ss[k].st.lastIncremental.value <= ss[k].clock
  {
    RunsKeepInv(ss, i);
    RunsKeepInv(ss, k);
    RunsMove(ss);
    MovedFar(ss, i, k);
    if ss[i].st.lastFull.Some? && ss[k].st.lastFull.Some? {
      var h := ss[i].log.history;
      var x :| 0 <= x < |h| && h[x].kind == Full && h[x].scheduled == ss[i].st.lastFull.value;
      assert ss[k].log.history[x] == h[x];
    }
  }

  /** At most twenty attempts in a row go unclaimed without counting as a failure. */
  lemma AtMostTwentyUncounted(ss: seq<Scheduler>, k: nat)
    requires Run(ss) && k < |ss|
    ensures ss[k].log.uncounted <= 20
    ensures ss[k].log.uncounted > 0 <==> ss[k].st.unclaimedSince.Some?
    ensures ss[k].st.failures > 0 ==> ss[k].log.uncounted == 0
  {
    RunsKeepInv(ss, k);
  }

  // The bound is exact: a run in which no node ever takes the backup reaches it.

  const NEVER := Schedule(t => None)

  /** After n unclaimed attempts, one every retry delay. */
  function UnclaimedState(n: nat): Scheduler {
    if n == 0 then Scheduler(NO_STATUS, None, 0, EMPTY_LOG)
    else
      var last := UNCLAIMED_RETRY * (n - 1);
      Scheduler(NO_STATUS.(unclaimedSince := Some(0), lastUnclaimed := Some(last)), None, last,
                EMPTY_LOG.(uncounted := n, firstUnclaimed := Some(0), lastUnclaimed := Some(last)))
  }

  lemma AnotherUnclaimed(n: nat) returns (a: Scheduler, b: Scheduler)
    requires n < 20
    ensures Next(UnclaimedState(n), a) && Next(a, b) && Next(b, UnclaimedState(n + 1))
  {
    var s, now := UnclaimedState(n), UNCLAIMED_RETRY * n;
    var c := Collect(s, now);
    var d := Decide(NEVER, None, c.st, now);
    a := c.(job := Some(Running(Job(Full, now, ""), now, None)));
    assert Pass(s, a, now, NEVER, None);
    b := a.(job := Some(Running(Job(Full, now, ""), now, Some(Unclaimed))));
    assert Finishes(a, b, Unclaimed);
    assert Collect(b, now) == UnclaimedState(n + 1);
    assert Pass(b, UnclaimedState(n + 1), now, NEVER, None);
  }

  lemma {:induction false} TwentyIsAttained(n: nat) returns (ss: seq<Scheduler>)
    requires n <= 20
    ensures Run(ss) && ss[|ss| - 1] == UnclaimedState(n) && ss[|ss| - 1].log.uncounted == n
  {
    if n == 0 {
      ss := [UnclaimedState(0)];
    } else {
      var front := TwentyIsAttained(n - 1);
      var a, b := AnotherUnclaimed(n - 1);
      ss := front + [a, b, UnclaimedState(n)];
      forall k | 0 <= k < |ss| - 1
        ensures Next(ss[k], ss[k + 1])
      {
        if k < |front| - 1 {
          assert Next(front[k], front[k + 1]);
        }
      }
    }
  }

  /**
   A missing parent is never delayed: once an incremental has ended with its parent missing, the
   pass that collects it, and any decision from then on, starts a full backup at once, even with
   failures outstanding, because the incremental itself had to wait their backoff out.
   */
  lemma LostParentRestartsAtOnce(ss: seq<Scheduler>, k: nat, collected: int, now: int,
                                 full: Schedule, inc: Option<Schedule>)
    requires Run(ss) && k < |ss| && ss[k].job.Some? && ss[k].job.value.result.Some?
    requires LostParent(ss[k].job.value.job, ss[k].job.value.result.value)
    requires ss[k].clock <= collected <= now
    ensures Decide(full, inc, Collect(ss[k], collected).st, now).start == Some((Full, now))
  {
    RunsKeepInv(ss, k);
  }
}
