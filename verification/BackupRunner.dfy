/**
 The background runner: at most one backup per cluster, started by a pass, ended by a goroutine,
 collected by a later pass. Passes, endings and forgets interleave freely.

 Models backupRunner of internal/controller/backup.go and the way reconcileBackup uses it. A job
 pointer is an index into the jobs ever started, so a job that was dropped from the map can still
 be finished by its goroutine. Every method of the class is one critical section of the lock.
 */
module BackupRunner {
  import opened Options
  import opened Backup

  /** One job ever started. */
  datatype JobRecord = JobRecord(key: string, job: Job, result: Option<Result>)

  /** The map from cluster to its job, and all jobs ever started. */
  datatype Table = Table(jobs: map<string, nat>, started: seq<JobRecord>)

  predicate Done(t: Table, id: nat)
    requires id < |t.started|
  {
    t.started[id].result.Some?
  }

  /** Every entry of the map is a job of that cluster. */
  predicate WellFormed(t: Table) {
    forall key :: key in t.jobs ==> t.jobs[key] < |t.started| && t.started[t.jobs[key]].key == key
  }

  function StartJob(t: Table, key: string, job: Job): Table {
    Table(t.jobs[key := |t.started|], t.started + [JobRecord(key, job, None)])
  }

  /** The goroutine's last act: it writes into its job, and never looks at the map. */
  function FinishJob(t: Table, id: nat, result: Result): Table
    requires id < |t.started|
  {
    t.(started := t.started[id := t.started[id].(result := Some(result))])
  }

  function PollJob(t: Table, key: string): Table
    requires WellFormed(t)
  {
    if key in t.jobs && Done(t, t.jobs[key]) then t.(jobs := t.jobs - {key}) else t
  }

  function ForgetJob(t: Table, key: string): Table {
    t.(jobs := t.jobs - {key})
  }

  class Runner {
    var jobs: map<string, nat>
    var started: seq<JobRecord>

    function Value(): Table
      reads this
    {
      Table(jobs, started)
    }

    constructor ()
      ensures Value() == Table(map[], []) && WellFormed(Value())
    {
      jobs, started := map[], [];
    }

    method Start(key: string, job: Job) returns (id: nat)
      requires WellFormed(Value())
      modifies this
      ensures Value() == StartJob(old(Value()), key, job) && id == |old(started)|
      ensures WellFormed(Value())
    {
      id := |started|;
      started := started + [JobRecord(key, job, None)];
      jobs := jobs[key := id];
    }

    method Finish(id: nat, result: Result)
      requires WellFormed(Value()) && id < |started|
      modifies this
      ensures Value() == FinishJob(old(Value()), id, result)
      ensures WellFormed(Value())
    {
      started := started[id := started[id].(result := Some(result))];
    }

    /** A copy of the cluster's job. A finished one is removed, so the next poll does not see it. */
    method Poll(key: string) returns (found: Option<JobRecord>)
      requires WellFormed(Value())
      modifies this
      ensures Value() == PollJob(old(Value()), key)
      ensures found == if key in old(jobs) then Some(old(started)[old(jobs)[key]]) else None
      ensures found.Some? && found.value.result.Some? ==> key !in jobs
      ensures WellFormed(Value())
    {
      if key !in jobs {
        return None;
      }
      var job := started[jobs[key]];
      if job.result.Some? {
        jobs := jobs - {key};
      }
      found := Some(job);
    }

    method Forget(key: string)
      requires WellFormed(Value())
      modifies this
      ensures Value() == ForgetJob(old(Value()), key)
      ensures WellFormed(Value())
    {
      jobs := jobs - {key};
    }
  }

  // ---------- all interleavings ----------

  /** The table, the jobs whose result was handed to applyBackupResult (in order), and those forgotten. */
  datatype World = World(t: Table, applied: seq<nat>, forgotten: set<nat>)

  /** A pass collects a finished backup and starts at most one, only when none is left in the map. */
  predicate Pass(w: World, v: World, key: string, start: Option<Job>) {
    && WellFormed(w.t)
    && var polled := PollJob(w.t, key);
    var collected := if key in w.t.jobs && Done(w.t, w.t.jobs[key]) then [w.t.jobs[key]] else [];
    && v.applied == w.applied + collected && v.forgotten == w.forgotten
    && v.t == if start.Some? && key !in polled.jobs then StartJob(polled, key, start.value) else polled
  }

  /** A goroutine ends. */
  predicate Ends(w: World, v: World, id: nat, result: Result) {
    id < |w.t.started| && !Done(w.t, id) && v == w.(t := FinishJob(w.t, id, result))
  }

  /** The cluster, or its backup spec, is gone. */
  predicate Forgets(w: World, v: World, key: string) {
    v == w.(t := ForgetJob(w.t, key),
            forgotten := w.forgotten + if key in w.t.jobs then {w.t.jobs[key]} else {})
  }

  ghost predicate Next(w: World, v: World) {
    || (exists key, start :: Pass(w, v, key, start))
    || (exists id: nat, result :: Ends(w, v, id, result))
    || (exists key :: Forgets(w, v, key))
  }

  ghost predicate Run(ws: seq<World>) {
    && |ws| > 0 && ws[0] == World(Table(map[], []), [], {})
    && (forall k :: 0 <= k < |ws| - 1 ==> Next(ws[k], ws[k + 1]))
  }

  /** The job is the one the map holds for its cluster. */
  predicate InMap(t: Table, id: nat)
    requires id < |t.started|
  {
    t.started[id].key in t.jobs && t.jobs[t.started[id].key] == id
  }

  /** A job is in exactly one of three places: the map, the applied results, the forgotten ones. */
  predicate Inv(w: World) {
    && WellFormed(w.t)
    && (forall id :: id in w.forgotten ==> id < |w.t.started| && !InMap(w.t, id) && id !in w.applied)
    && (forall k :: 0 <= k < |w.applied| ==>
          w.applied[k] < |w.t.started| && Done(w.t, w.applied[k]) && !InMap(w.t, w.applied[k]))
    && (forall i, j :: 0 <= i < j < |w.applied| ==> w.applied[i] != w.applied[j])
    && (forall id: nat :: id < |w.t.started| ==> InMap(w.t, id) || id in w.applied || id in w.forgotten)
  }

  lemma CollectKeepsInv(w: World, key: string)
    requires Inv(w) && key in w.t.jobs && Done(w.t, w.t.jobs[key])
    ensures Inv(World(PollJob(w.t, key), w.applied + [w.t.jobs[key]], w.forgotten))
  {
    var id := w.t.jobs[key];
    var v := World(PollJob(w.t, key), w.applied + [id], w.forgotten);
    assert InMap(w.t, id);
    assert v.applied[|w.applied|] == id;
    forall other: nat | other < |v.t.started|
      ensures InMap(v.t, other) || other in v.applied || other in v.forgotten
    {
      if other != id {
        assert InMap(w.t, other) || other in w.applied || other in w.forgotten;
      }
    }
  }

  lemma StartKeepsInv(w: World, key: string, job: Job)
    requires Inv(w) && key !in w.t.jobs
    ensures Inv(w.(t := StartJob(w.t, key, job)))
  {
    var v := w.(t := StartJob(w.t, key, job));
    assert forall id: nat :: id < |w.t.started| ==> v.t.started[id] == w.t.started[id];
    assert forall id: nat :: id < |w.t.started| ==> (InMap(v.t, id) <==> InMap(w.t, id));
    assert InMap(v.t, |w.t.started|);
  }

  lemma EndKeepsInv(w: World, v: World, id: nat, result: Result)
    requires Inv(w) && Ends(w, v, id, result)
    ensures Inv(v)
  {
    assert forall i: nat :: i < |w.t.started| ==> v.t.started[i].key == w.t.started[i].key;
    assert forall i: nat :: i < |w.t.started| ==> (InMap(v.t, i) <==> InMap(w.t, i));
  }

  lemma ForgetKeepsInv(w: World, v: World, key: string)
    requires Inv(w) && Forgets(w, v, key)
    ensures Inv(v)
  {
    assert forall i: nat :: i < |w.t.started| ==> (InMap(v.t, i) <==> InMap(w.t, i) && w.t.started[i].key != key);
  }

  lemma PassKeepsInv(w: World, v: World, key: string, start: Option<Job>)
    requires Inv(w) && Pass(w, v, key, start)
    ensures Inv(v)
  {
    var mid := World(PollJob(w.t, key), v.applied, w.forgotten);
    if key in w.t.jobs && Done(w.t, w.t.jobs[key]) {
      CollectKeepsInv(w, key);
    } else {
      assert mid == w;
    }
    if v.t != mid.t {
      StartKeepsInv(mid, key, start.value);
    }
  }

  lemma {:induction false} RunsKeepInv(ws: seq<World>, k: nat)
    requires Run(ws) && k < |ws|
    ensures Inv(ws[k])
  {
    if k > 0 {
      RunsKeepInv(ws, k - 1);
      var w, v := ws[k - 1], ws[k - 1 + 1];
      assert Next(w, v);
      if key, start :| Pass(w, v, key, start) {
        PassKeepsInv(w, v, key, start);
      } else if id: nat, result :| Ends(w, v, id, result) {
        EndKeepsInv(w, v, id, result);
      } else {
        var key :| Forgets(w, v, key);
        ForgetKeepsInv(w, v, key);
      }
    }
  }

  /** No finished result is handed over twice, none of an unfinished job, and a forgotten one never. */
  lemma ResultsAppliedAtMostOnce(ws: seq<World>, k: nat)
    requires Run(ws) && k < |ws|
    ensures forall i, j :: 0 <= i < j < |ws[k].applied| ==> ws[k].applied[i] != ws[k].applied[j]
    ensures forall i :: 0 <= i < |ws[k].applied| ==>
              && ws[k].applied[i] < |ws[k].t.started|
              && Done(ws[k].t, ws[k].applied[i])
              && ws[k].applied[i] !in ws[k].forgotten
  {
    RunsKeepInv(ws, k);
  }

  /**
   Of any two backups of one cluster, one is finished and collected, or one was forgotten. What
   happens to other clusters does not matter.
   */
  lemma AtMostOneInFlight(ws: seq<World>, k: nat, a: nat, b: nat)
    requires Run(ws) && k < |ws|
    requires a < |ws[k].t.started| && b < |ws[k].t.started| && a != b
    requires ws[k].t.started[a].key == ws[k].t.started[b].key
    ensures || (a in ws[k].applied && Done(ws[k].t, a))
            || (b in ws[k].applied && Done(ws[k].t, b))
            || a in ws[k].forgotten || b in ws[k].forgotten
  {
    RunsKeepInv(ws, k);
    assert InMap(ws[k].t, a) || a in ws[k].applied || a in ws[k].forgotten;
    assert InMap(ws[k].t, b) || b in ws[k].applied || b in ws[k].forgotten;
  }

  /** The pass starts a backup of the cluster. */
  predicate Starts(w: World, v: World, key: string, start: Option<Job>) {
    Pass(w, v, key, start) && |v.t.started| > |w.t.started|
  }

  /** A new backup of a cluster starts only after every earlier one that was not forgotten is collected. */
  lemma StartsAfterCollecting(ws: seq<World>, k: nat, key: string, start: Option<Job>, id: nat)
    requires Run(ws) && k + 1 < |ws| && Starts(ws[k], ws[k + 1], key, start)
    requires id < |ws[k].t.started| && ws[k].t.started[id].key == key && id !in ws[k].forgotten
    ensures id in ws[k + 1].applied && Done(ws[k + 1].t, id)
  {
    RunsKeepInv(ws, k);
    RunsKeepInv(ws, k + 1);
    assert ws[k + 1].t.started[id] == ws[k].t.started[id];
    assert ws[k + 1].t.jobs[key] != id;
    assert InMap(ws[k + 1].t, id) || id in ws[k + 1].applied;
  }

  /** An unfinished backup of the cluster. */
  predicate Unfinished(t: Table, id: nat, key: string) {
    id < |t.started| && t.started[id].key == key && !Done(t, id)
  }

  /** A backup that was started before the step is still unfinished after it. */
  ghost predicate Overlaps(w: World, v: World, key: string) {
    exists id: nat :: id < |w.t.started| && Unfinished(v.t, id, key)
  }

  /**
   Exactly when two backups of one cluster run at once: a pass starts one while an earlier one is
   unfinished if and only if some forgotten backup of that very cluster is.
   */
  lemma OverlapsExactlyWhen(ws: seq<World>, k: nat, key: string, start: Option<Job>)
    requires Run(ws) && k + 1 < |ws| && Starts(ws[k], ws[k + 1], key, start)
    ensures Overlaps(ws[k], ws[k + 1], key)
            <==> (exists id :: id in ws[k].forgotten && Unfinished(ws[k].t, id, key))
  {
    RunsKeepInv(ws, k);
    var t, u := ws[k].t, ws[k + 1].t;
    assert forall id: nat :: id < |t.started| ==> u.started[id] == t.started[id];
    if id: nat :| id < |t.started| && Unfinished(u, id, key) {
      if id !in ws[k].forgotten {
        StartsAfterCollecting(ws, k, key, start, id);
        assert false;
      }
      assert Unfinished(t, id, key);
    }
    if id :| id in ws[k].forgotten && Unfinished(t, id, key) {
      assert Unfinished(u, id, key);
    }
  }

  /** A finished backup that is still held is handed over by the very next pass of its cluster. */
  lemma NextPassCollects(ws: seq<World>, k: nat, start: Option<Job>, id: nat)
    requires Run(ws) && k + 1 < |ws| && id < |ws[k].t.started|
    requires Done(ws[k].t, id) && id !in ws[k].applied && id !in ws[k].forgotten
    requires Pass(ws[k], ws[k + 1], ws[k].t.started[id].key, start)
    ensures ws[k + 1].applied == ws[k].applied + [id]
  {
    RunsKeepInv(ws, k);
    assert InMap(ws[k].t, id);
  }

  /** What the runner holds for one cluster. */
  function View(t: Table, key: string): Option<JobRecord>
    requires WellFormed(t)
  {
    if key in t.jobs then Some(t.started[t.jobs[key]]) else None
  }

  /** A pass or a forget of one cluster leaves what is held for every other cluster alone. */
  lemma ClustersDoNotInterfere(w: World, v: World, key: string, other: string, start: Option<Job>)
    requires Inv(w) && other != key && (Pass(w, v, key, start) || Forgets(w, v, key))
    ensures WellFormed(v.t) && View(v.t, other) == View(w.t, other)
  {
  }

  /** A backup that ends shows only in what is held for its own cluster, and there only if it is still held. */
  lemma EndingShowsOnlyWhereHeld(w: World, v: World, id: nat, result: Result, key: string)
    requires Inv(w) && Ends(w, v, id, result)
    ensures WellFormed(v.t)
    ensures View(v.t, key) == if key in w.t.jobs && w.t.jobs[key] == id
                              then Some(View(w.t, key).value.(result := Some(result))) else View(w.t, key)
  {
  }

  /** With a forget two backups of one cluster can run at once: the old one is dropped, not stopped. */
  lemma ForgetAllowsTwo(job: Job)
    ensures exists ws: seq<World> ::
              && Run(ws) && |ws| == 4 && |ws[3].t.started| == 2
              && !Done(ws[3].t, 0) && !Done(ws[3].t, 1) && ws[3].t.started[0].key == ws[3].t.started[1].key
  {
    var w0 := World(Table(map[], []), [], {});
    var w1 := w0.(t := StartJob(w0.t, "c", job));
    var w2 := World(Table(map[], w1.t.started), [], {0});
    var w3 := w2.(t := StartJob(w2.t, "c", job));
    assert Pass(w0, w1, "c", Some(job));
    assert w1.t.jobs - {"c"} == map[];
    assert Forgets(w1, w2, "c");
    assert Pass(w2, w3, "c", Some(job));
    var ws := [w0, w1, w2, w3];
    assert Run(ws);
  }
}
