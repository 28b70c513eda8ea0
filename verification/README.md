# A verified model of the Kahuna operator

The operator changes the membership of a Raft cluster one node at a time, chooses the node count
from traffic, schedules backups, and writes the command line its nodes start with. This project
models those four cores in Dafny and proves what they promise, over every input, every run or every
reachable state.

| part | files | what it is about |
|---|---|---|
| names | `Naming.dfy` | ordinals, pod names, endpoints, and the startup script's view of them |
| membership | `Roster.dfy`, `Settling.dfy`, `Shares.dfy`, `Plan.dfy`, `Protocol.dfy`, `Progress.dfy`, `Latch.dfy`, `Pods.dfy` | the roster gate, the placement gate, the step of a pass, and the protocol as a transition system |
| autoscaler | `Autoscaler.dfy`, `AutoscaleTraces.dfy`, `AutoscalePass.dfy`, `Sampler.dfy` | the decision, its iteration over saved state, its place in a pass, the rate sampler |
| backups | `Schedules.dfy`, `Backup.dfy`, `BackupRuns.dfy`, `BackupRunner.dfy` | the walk over a schedule, the decision, the scheduler over time, the background runner |
| command line | `Shell.dfy`, `Flags.dfy` | quoting against the POSIX shell, and overriding generated flags |
| shared | `Options.dfy`, `Durations.dfy`, `Kahuna.dfy` | optional values, time units, and what a node reports |

## How it is modelled

- Times are integers in nanoseconds, float64 is `real`, a nil pointer or a zero time is `None`.
- A loop of the source is a method proved against a function of its inputs; the theorems are about
  that function. An object the source edits in place is a class whose methods state the whole new
  value.
- The network is an input. For a single pass every read and reply is an arbitrary value, including
  a failure. In the runs of the membership protocol a roster or placement read fails or is the
  committed value of that moment, and a leave reply may be lost.
- The membership protocol is a transition system. The operator's start of a pass, roster read,
  placement read, plan with leave request, and size write are separate steps, and anything the
  cluster may do happens between them. `RunAnyhow` puts no bound on what the cluster does;
  `Run` is a fault-free cluster: only a pod the StatefulSet wants joins, only a node it no longer
  wants is evicted, and a leave that was asked for ends. Each such run is one of the former
  (`FaultFreeIsAnyhow`). In both the committed roster lists ordinals of the cluster, each once; leave
  replies may be lost, size writes may fail, and the operator may restart.
- The backup scheduler's runs allow schedule edits, suspensions and operator restarts; the clock
  does not run backwards. The runner's runs are all interleavings over any number of clusters.

## What does not hold of the code

Each of these is stated as a lemma, next to the exact condition under which the property holds.

- An ordinal read from a pod name wraps at 2^31 (`OrdinalRoundTrip`, `OrdinalWraps`).
- A roster that lists one endpoint twice is held without naming a node (`NothingNamed`,
  `DuplicateHasNoName`).
- A removal that was committed but not reported does not shrink the StatefulSet: a planned shrink
  goes ahead if and only if the node reported itself out or has no pod to ask. Such a state is
  reached by fault-free runs, the size then stays until the node is a Voter again, and there is
  always a way on to the target (`ShrinksExactlyWhenReported`, `LeaveGoesUnreported`,
  `HoldEndsWhenBack`, `TargetStaysReachable`).
- The bootstrap latch counts Voters. A roster that sets it is exact if and only if no one but
  founders has joined, each once (`LatchMeansExact`, `LatchOnStranger`).
- The documentation says that a new step must earn a new window. A bound edited past the current
  size keeps a running window, so the pass that applies it can add a node at once
  (`GrowthHasAWindow`, `ClampInheritsWindow`).
- The limit message says that traffic asks for more than the maximum; it is also shown when traffic
  asks for exactly the maximum (`MaximumReportedExactlyWhen`, `ExactMaximumIsReported`).
- On a server without replica placement an autoscaled pass dereferences a placement that is not
  there, if and only if the roster and pods have converged (`PanicsExactlyWhen`,
  `HealthyClusterPanics`).
- Two backups of one cluster can run at once: a pass starts one over an unfinished one if and only if
  some forgotten backup of that cluster is unfinished (`OverlapsExactlyWhen`, `ForgetAllowsTwo`).
- Extra arguments replace the static flags only: setting one of the node's own flags repeats it
  (`CommandLineRepeatsExactlyWhen`, `NodeOptionIsNotOverridable`, `RaftPortIsNotOverridable`).
- Overriding keeps the meaning of the generated options if and only if the extra arguments begin with
  a flag; a value in front joins an option (`OverrideMeansExactlyWhen`, `StrayValuesJoin`).

## Model

| member | source | states |
|---|---|---|
| Naming.OrdinalRoundTrip | internal/controller/membership.go:42-52 | for every number, the ordinal read back from its pod name is that number if and only if it is below 2^31 |
| Naming.OrdinalWraps | internal/controller/membership.go:47-51 | the pod name numbered 2^32 reads as ordinal 0 |
| Naming.NoDashNoOrdinal | internal/controller/membership.go:43-46 | a name without a dash reads as -1 |
| Naming.NoNumberNoOrdinal | internal/controller/membership.go:47-50 | so does one whose text after the last dash is not a number |
| Naming.EndpointInjective | internal/controller/naming.go:132-150 | two ordinals of one cluster never share a Raft endpoint, whatever its name and namespace contain |
| Naming.ScriptPeers | internal/controller/entrypoint.go:330-334 | the script's loop yields the endpoints of the other ordinals below REPLICAS, in order |
| Naming.ScriptAgrees | internal/controller/entrypoint.go:302-334 | a pod derives its own ordinal, registers the operator's endpoint for it, and lists every other node below REPLICAS exactly once and never itself |
| Kahuna.FullyReplicatedIn | internal/kahuna/client.go:165-177 | the list is empty exactly when no active data partition lacks a replica set |
| Kahuna.FullyReplicatedIds | internal/kahuna/client.go:165-177 | exactly the active data partitions without a replica set are listed |
| Kahuna.FullyReplicated | internal/kahuna/client.go:168-177 | the loop computes that list |
| Roster.GateIsExact | internal/controller/plan.go:37-56 | the gate accepts a roster if and only if it is a rearrangement of the n expected endpoints, all Voters, although it checks a length and n lookups only |
| Roster.MissingUpTo | internal/controller/plan.go:123-128 | nothing is missing exactly when every expected node is a Voter |
| Roster.ExtraUpTo | internal/controller/plan.go:129-137 | nothing is extra exactly when every member is an expected node |
| Roster.RosterHoldReason | internal/controller/plan.go:119-150 | the loops name exactly the missing pods and the extra endpoints, in order |
| Roster.HoldNamesNodes | internal/controller/plan.go:123-137 | the pod of ordinal i is named if and only if it is expected and has no Voter, and an endpoint if and only if it is a member and not expected |
| Roster.NothingNamed | internal/controller/plan.go:138-149 | a readable roster with nothing to name passes the gate if and only if no endpoint is listed twice |
| Roster.DuplicateHasNoName | internal/controller/plan.go:147-149 | one node listed twice is held and nothing is named |
| Settling.PlacementSettled | internal/controller/autoscaler.go:368-402 | the nested loops compute the verdict, the total, and for every node the number of pairs of a placed partition and a Voter replica of it on that node |
| Settling.SettledIffOnMembers | internal/controller/autoscaler.go:361-402 | settled if and only if every replica of every active placed partition is a Voter on a current node |
| Settling.HoldNamesPartitions | internal/controller/autoscaler.go:372-402 | a move in flight is reported wherever there is one, else stranded replicas, and the partitions named are exactly those that have one |
| Settling.AtMostOneCopyLost | internal/controller/plan.go:88-100 | removing the top node of a settled cluster costs a placed partition one copy at most, and none exactly when the top node held none |
| Shares.CountsAddUp | internal/controller/autoscaler.go:383-394 | the per-node counts sum to the total, which is every replica of the active placed partitions when settled |
| Shares.PlacementConverged | internal/controller/autoscaler.go:409-430 | the loops compute the verdict that ConvergedMeans explains |
| Shares.ConvergedMeans | internal/controller/autoscaler.go:409-430 | converged if and only if settled, and there are fewer placed replicas than nodes, or the settle clock ran out, or every node holds at least one replica and half of its even share; counted over the pairs of a placed partition and a replica in it |
| Shares.ShareIsFeasible | internal/controller/autoscaler.go:414-422 | the minimum share times the node count never exceeds the replicas there are |
| Shares.SparseLeavesANodeEmpty | internal/controller/autoscaler.go:414-419 | with fewer replicas than nodes some node holds none, so no share could be demanded |
| Plan.Decommission | internal/controller/membership.go:164-199 | the node is asked exactly when it has a reachable pod, and may go exactly when it has none or reports itself out |
| Plan.StatefulSet.constructor | internal/controller/kahunacluster_controller.go:282-292 | a StatefulSet that does not exist is created at the full target with updates free |
| Plan.StatefulSet.Reconcile | internal/controller/kahunacluster_controller.go:297-335 | the new size, partition and reason are those of the plan, turned into a hold when a shrink's node is still in |
| Plan.ChangesExactlyWhen | internal/controller/plan.go:64-116 | a bootstrapped pass changes the size if and only if the roster is exact, the data is settled or not placed, the target differs, and a shrink leaves a node and has its top node out |
| Plan.OneNodeTowardTarget | internal/controller/plan.go:102-115 | a bootstrapped pass moves one node at most, every move brings the size one nearer the target, and a node always remains |
| Plan.FrozenExactlyWhen | internal/controller/kahunacluster_controller.go:301-317 | rolling updates are frozen if and only if the roster is not exact or a leaving node is still in |
| Plan.ReasonExactlyWhen | internal/controller/plan.go:64-116 | which reason a bootstrapped pass gives, for each of them, and none if and only if nothing holds it |
| Plan.BeforeBootstrap | internal/controller/plan.go:69-71 | an unbootstrapped pass ends at the target with updates free, unless the top node was asked and is still in |
| Plan.MajoritiesMeet | internal/controller/kahunacluster_controller.go:487-494 | any majority before a one-node step shares a node with any majority after it |
| Plan.TwoNodeStepMayNotMeet | internal/controller/plan.go:103-107 | two nodes at a time would lose that: disjoint majorities of one and of three nodes |
| Protocol.GateReadsRoster | internal/controller/plan.go:37-56 | on a faithful read the gate passes if and only if the committed roster is ordinals 0..n-1, all Voters |
| Protocol.RunsStayWithinOne | internal/controller/kahunacluster_controller.go:171-204 | in every state of every fault-free run: ordinals 0..size-2 are Voters, nothing lies above ordinal size, and ordinal size is present only with size-1 a Voter |
| Protocol.RunsKeepQuorum | internal/controller/kahunacluster_controller.go:487-494 | with three nodes or more, the committed Voters are a majority of the wanted size in every state of every fault-free run |
| Protocol.SurvivorsAreAMajority | internal/controller/kahunacluster_controller.go:303-336 | the Voters the StatefulSet keeps are a strict majority of all committed Voters in every state of every fault-free run of two nodes or more |
| Protocol.ChangeIsEarned | internal/controller/kahunacluster_controller.go:297-336 | in any run at all, a change of size is one node toward its pass's target, with an exact committed roster and then a settled committed placement at earlier moments of the same pass, and a shrink has its top node out or without a pod |
| Protocol.NextChangeWaits | internal/controller/plan.go:73-100 | between any two changes of size the committed roster was exact for the size between them, and later the committed placement was settled for it |
| Protocol.ShrinkCostsOneCopy | internal/controller/plan.go:88-115 | in any run, the committed placement that the shrinking pass itself read, with the size unchanged since, is one in which every placed partition keeps all copies but one on the nodes that stay |
| Protocol.ShrinksExactlyWhenReported | internal/controller/kahunacluster_controller.go:307-317 | a planned shrink goes ahead if and only if the top node reported itself out or has no pod to ask, and a report means it is out of the roster |
| Protocol.HoldEndsWhenBack | internal/controller/plan.go:75-86 | in any run, from a moment at which no roster read is held, the size changes only after a moment at which the committed roster is exact again |
| Protocol.UnreportedLeaveHolds | internal/controller/plan.go:75-86 | so while the top node stays out, no run changes the size, whatever the target |
| Progress.TargetIsReachable | internal/controller/kahunacluster_controller.go:111-221 | from every quiet state there is a fault-free run to the target that ends with an exact roster and a settled placement, losing no more copies than the smaller size forces |
| Progress.TargetStaysReachable | internal/controller/kahunacluster_controller.go:111-221 | the same from every state of every fault-free run, in the middle of a pass or with an unreported removal |
| Progress.LeaveGoesUnreported | internal/controller/kahunacluster_controller.go:307-317 | from every quiet settled state above its target a fault-free run reaches an idle state of the same size with the top node out of the roster |
| Latch.LatchMeansExact | internal/controller/kahunacluster_controller.go:376-382 | a roster that sets the latch passes the gate for the desired size if and only if every member is a founder and none is listed twice; under that condition a seeded roster sets the latch if and only if it passes the gate |
| Latch.LatchOnStranger | internal/controller/kahunacluster_controller.go:379-382 | a Voter above the desired size also sets the latch |
| Latch.LatchIsForGood | internal/controller/kahunacluster_controller.go:376-382 | over any passes, the flag is set if and only if some pass so far saw a seeded roster with enough Voters |
| Pods.CountReady | internal/controller/autoscaler.go:446-458 | the loop counts the ready pods below the current size |
| Pods.ImageRolledOut | internal/controller/kahunacluster_controller.go:446-466 | true exactly when every pod in range is ready on the image and as many are seen as there are replicas |
| Pods.BackupBlocked | internal/controller/backup.go:524-561 | free exactly when bootstrapped, the gate passes, every pod in range is steady, and enough are seen; otherwise a reason that applies, naming a pod it applies to |
| Pods.CountCoversEveryNode | internal/controller/autoscaler.go:446-460 | the count of pods passing a test reaches n exactly when every single node has a pod of its own that passes, and never exceeds n |
| Pods.InOrderExactlyWhen | internal/controller/kahunacluster_controller.go:454-465 | the per-pod tests plus the count hold exactly when every node's pod passes the test |
| Pods.RolledOutExactlyWhen | internal/controller/kahunacluster_controller.go:446-466 | the image is rolled out if and only if every node's own pod is ready on it |
| Pods.BackupNeedsSteadyCluster | internal/controller/backup.go:524-561 | a backup is free to start exactly on a bootstrapped cluster with an exact roster and every node's pod ready on the current configuration and image |
| Autoscaler.ShrinkNeedsEverySignal | internal/controller/autoscaler.go:296-301 | a recommendation below the current size is made only with every configured signal known |
| Autoscaler.PassIsOneStep | internal/controller/autoscaler.go:223-342 | a pass stays inside the bounds, moves one node at most, grows only on a converged pass that asks for more under no binding ceiling, and shrinks only on one that asks for less with every signal known |
| Autoscaler.RecommendationMeans | internal/controller/autoscaler.go:251-303 | over the signals and targets alone: more if and only if there is room and a known signal exceeds its target by more than the tolerance; fewer if and only if every configured signal is known and falls short by more than the tolerance, one node fewer carries the traffic, and the minimum allows it; and what is recommended is the fewest nodes that carry the traffic, or the maximum |
| Autoscaler.StepsExactlyWhen | internal/controller/autoscaler.go:223-342 | a pass adds or removes a node if and only if it is converged, the signals ask for it as above, no ceiling binds, and the saved window is over |
| Autoscaler.Defaults | internal/controller/autoscaler.go:287-307 | the windows and the tolerance of a spec, and their defaults |
| Autoscaler.ScaleTimeIsChangeTime | internal/controller/autoscaler.go:239-245 | the scale time becomes now exactly when the pass leaves a size other than the saved one, and is kept otherwise |
| Autoscaler.MaximumReportedExactlyWhen | internal/controller/autoscaler.go:337-340 | the maximum is reported exactly when traffic is above the band and asks for at least the maximum |
| Autoscaler.ExactMaximumIsReported | internal/controller/autoscaler.go:337-340 | a load that asks for exactly the maximum is reported as limited |
| Autoscaler.LimitedExactlyWhen | internal/controller/autoscaler.go:251-280 | a pass is limited exactly when it is converged and has no signal, reports the maximum, or has reached a ceiling it wants to pass; at a ceiling it does not grow |
| AutoscaleTraces.GrowthHasAWindow | internal/controller/autoscaler.go:308-322 | a node is added only after a whole scale-up window of passes that were all converged, asked for more and had no binding ceiling; the size was the same throughout exactly where no edited bound moved it |
| AutoscaleTraces.RemovalHasAWindow | internal/controller/autoscaler.go:323-332 | a node is removed only after a whole scale-down window of passes that were all converged, asked for less and knew every signal |
| AutoscaleTraces.GrowsExactlyWhen | internal/controller/autoscaler.go:308-322 | along a streak of passes asking for more, begun with no window running, a pass adds a node if and only if the window has passed since the streak began |
| AutoscaleTraces.RemovesExactlyWhen | internal/controller/autoscaler.go:323-332 | likewise for removal and its window |
| AutoscaleTraces.WindowsAtOneSize | internal/controller/autoscaler.go:251-335 | for a fixed spec the whole window was spent at the very size the step is taken from |
| AutoscaleTraces.ClampInheritsWindow | internal/controller/autoscaler.go:239-246 | a two-pass trace from nothing: the window starts at five nodes, a raised minimum moves the size to six, and the same pass adds a seventh |
| AutoscaleTraces.StepTowardLimit | internal/controller/autoscaler.go:282-335 | under a constant load one pass moves toward the nodes the load needs, by one at most, and never past |
| AutoscaleTraces.RemovalStaysWithinTargets | internal/controller/autoscaler.go:292-301 | under a constant load a node is removed only if the load over one node fewer is within every target |
| AutoscaleTraces.NoFlapping | internal/controller/autoscaler.go:282-335 | under a constant load and a fixed spec the size stays between its start and the limit, and the number of changes is exactly the distance travelled |
| AutoscaleTraces.SizesAreMonotone | internal/controller/autoscaler.go:282-335 | and the sizes of the whole trace are monotone |
| AutoscalePass.PanicsExactlyWhen | internal/controller/autoscaler.go:465-500 | the pass fails on a missing placement if and only if the roster and pods have converged on a server without placement |
| AutoscalePass.HealthyClusterPanics | internal/controller/autoscaler.go:465-500 | for every spec, a bootstrapped cluster with an exact roster and every pod ready is such a pass |
| AutoscalePass.StepStandsOnEveryNode | internal/controller/autoscaler.go:445-483 | a traffic step is taken only with an exact roster, every node's own pod ready, and a settled placement |
| AutoscalePass.StepIsPlanned | internal/controller/kahunacluster_controller.go:197-201 | on every converged pass with the StatefulSet at the autoscaler's size, the plan of the same pass is one node toward the chosen size and holds nothing; with the saved size inside the bounds that is the traffic step itself |
| AutoscalePass.CeilingHolds | internal/controller/autoscaler.go:344-359 | traffic never takes a cluster past three nodes while a data partition is fully replicated |
| AutoscalePass.ConvergedExactlyWhen | internal/controller/autoscaler.go:436-483 | a pass is converged if and only if the cluster is bootstrapped, the roster exact, every node's own pod ready, and the data settled and spread, the spread not being waited for five minutes after the last step |
| AutoscalePass.PassStepsExactlyWhen | internal/controller/autoscaler.go:436-500 | a pass adds or removes a node by traffic if and only if it is converged with the metrics in, the signals ask for it, the bounds allow it, past three nodes no data partition is fully replicated, and the window is over |
| Sampler.ObserveSample | internal/controller/autoscaler.go:97-113 | a reading resets, is ignored as too soon, or yields the rate since the baseline, and is recorded under its UID only |
| Sampler.RatesConserveWrites | internal/controller/autoscaler.go:98-113 | since a pod's last reset the accepted rates times their intervals sum exactly to the counter's growth, are never negative, and span the minimum interval each |
| Sampler.SteadyReadings | internal/controller/autoscaler.go:98-113 | on readings that move forward by the minimum interval, an idle node's included, each one after the first yields the rate since the one before |
| Sampler.RestartHasNoRate | internal/controller/autoscaler.go:100-104 | a counter or clock behind the saved one leaves no rate |
| Sampler.TooSoonChangesNothing | internal/controller/autoscaler.go:105-108 | a reading too soon leaves the sample as it was |
| Sampler.TrafficSampler.Measure | internal/controller/autoscaler.go:122-189 | nothing is recorded unless every ready pod answers; else the kept samples are exactly the ready pods', each its own, no other cluster changes, and with distinct UIDs the signal is the average of the pods' own rates and depths, the rate known if and only if every pod has one |
| Sampler.SignalMeans | internal/controller/autoscaler.go:159-189 | the averages times the number of pods are the sums over the pods by index, of the rate of each pod's own sample and of the depth it answered |
| Sampler.FirstMeasurementIsUnknown | internal/controller/autoscaler.go:170-187 | a ready pod without a saved sample makes the rate unknown |
| Sampler.EachPodObservedOnce | internal/controller/autoscaler.go:163-175 | with distinct UIDs a measurement observes each pod once, from its own saved sample |
| Sampler.TrafficSampler.Forget | internal/controller/autoscaler.go:191-196 | a cluster's samples are dropped and no other's |
| Schedules.LatestDueLoop | internal/controller/backup.go:475-492 | the bounded loop computes the walk |
| Schedules.LatestDueMeaning | internal/controller/backup.go:475-492 | for any schedule: none due exactly when none is missed; up to the bound the greatest missed time and the first after now; past the bound the time the bound reaches, in (base, now] |
| Schedules.CatchesUp | internal/controller/backup.go:483-491 | anchoring on the due time leaves nothing missed, or as much less as the bound and one |
| Schedules.Earliest | internal/controller/backup.go:494-506 | the earlier of two times where either may be absent |
| Backup.BackupRetryDelay | internal/controller/backup.go:508-516 | the loop computes the smaller of 2^(failures-1) minutes and half an hour |
| Backup.DelayGrows | internal/controller/backup.go:508-516 | more failures never wait less, and the wait is between a minute and half an hour |
| Backup.StartedCovers | internal/controller/backup.go:429-473 | a started backup covers an instant not in the future and after every anchor of its kind; an incremental has a parent and no full backup due |
| Backup.StartsExactlyWhen | internal/controller/backup.go:429-473 | a backup starts if and only if no backoff is running and a full one is due, or an incremental one with a parent is, by the times missed since the anchors; the kind is full if and only if that is due; and it covers the latest missed time, up to the walk's bound |
| Backup.HoldIsReported | internal/controller/backup.go:459-471 | a retry time is given if and only if a due backup waits, and it is the first moment at which the wait, doubling minutes up to thirty or 15 seconds, is over |
| Backup.HeldAtMostHalfAnHour | internal/controller/backup.go:459-471 | a due backup is released half an hour after the latest failure and 15 seconds after an unclaimed attempt |
| Backup.WakeIsExact | internal/controller/backup.go:417-427 | with the status unchanged, nothing is started before the time the decision names, and something is from then on unless a backoff holds it |
| Backup.RunBackup | internal/controller/backup.go:643-689 | the first decisive reply is the result and nobody after it is asked; without one the backup is unclaimed exactly when there was a node and every refusal clears on retry |
| Backup.ClearsImpliesTryAnother | internal/kahuna/client.go:290-314 | every outcome that clears is worth asking another node about, and NotConfigured is the only one of those that does not clear |
| Backup.BackupStatus.Apply | internal/controller/backup.go:691-756 | the edited status is the specified one in every field; StatusIsWhatHappened says what that is |
| BackupRuns.RunsKeepInv | internal/controller/backup.go:758-787 | every state of every run: anchor and id exist together, failure time and count agree, the two unclaimed times are set together and never with failures outstanding, no remembered time is in the future |
| BackupRuns.StatusIsWhatHappened | internal/controller/backup.go:691-756 | in every state of every run each field of the saved status is the one told by a log of the results alone: the failures are the counted ones since the last success, the anchors and id those of the last successes, gone when the chain was lost |
| BackupRuns.BackoffDoubles | internal/controller/backup.go:459-471 | in every state of every run, n counted failures in a row hold a due backup for exactly min(2^(n-1), 30) minutes after the last |
| BackupRuns.ChainsEndInFull | internal/controller/backup.go:873-878 | every recorded incremental continues the success just before it, so every chain goes back to a full backup, and the latest id is the last success's |
| BackupRuns.NoInstantCoveredTwice | internal/controller/backup.go:429-457 | the instants covered by full backups, and those covered by incrementals, strictly increase and are never in the future |
| BackupRuns.AnchorsNeverMoveBack | internal/controller/backup.go:694-717 | neither schedule anchor moves backwards over a run, even across lost chains, nor past the clock |
| BackupRuns.AtMostTwentyUncounted | internal/controller/backup.go:720-736 | at most twenty unclaimed attempts in a row go uncounted, and none while failures are outstanding |
| BackupRuns.TwentyIsAttained | internal/controller/backup.go:464-466 | a run of retries every 15 seconds reaches every count up to that bound |
| BackupRuns.LostParentRestartsAtOnce | internal/controller/backup.go:738-747 | after a missing parent every later decision is a full backup at once, even with failures outstanding |
| BackupRunner.Runner.Start | internal/controller/backup.go:358-366 | the new job is recorded as the cluster's, and nothing else changes |
| BackupRunner.Runner.Finish | internal/controller/backup.go:368-384 | the goroutine writes its own job and never the map |
| BackupRunner.Runner.Poll | internal/controller/backup.go:387-400 | a copy of the cluster's job is returned, and a finished one is removed |
| BackupRunner.Runner.Forget | internal/controller/backup.go:402-407 | the cluster's entry is dropped, and the job itself is not touched |
| BackupRunner.ResultsAppliedAtMostOnce | internal/controller/backup.go:783-787 | over all interleavings no result is applied twice, none of an unfinished job, and a forgotten one never |
| BackupRunner.AtMostOneInFlight | internal/controller/backup.go:344-356 | in any run, of any two jobs of one cluster one is finished and collected or one was forgotten |
| BackupRunner.StartsAfterCollecting | internal/controller/backup.go:783-823 | a job starts only after every earlier one of its cluster that was not forgotten is finished and collected |
| BackupRunner.OverlapsExactlyWhen | internal/controller/backup.go:344-366 | a pass starts a job over an unfinished earlier one of its cluster if and only if a forgotten job of that cluster is unfinished |
| BackupRunner.NextPassCollects | internal/controller/backup.go:783-787 | a finished job still held is applied by its cluster's next pass, and only it |
| BackupRunner.ClustersDoNotInterfere | internal/controller/backup.go:353-407 | a pass or forget of one cluster leaves every other cluster's job as it was |
| BackupRunner.EndingShowsOnlyWhereHeld | internal/controller/backup.go:381-384 | an ending job shows in its own cluster's entry if it is still held, and nowhere else |
| BackupRunner.ForgetAllowsTwo | internal/controller/backup.go:402-407 | with a forget two unfinished jobs of one cluster exist |
| Shell.ShellReadsBack | internal/controller/entrypoint.go:44-47 | the shell reads back exactly the quoted arguments, whatever they contain, if and only if none contains NUL |
| Shell.LineDeterminesArgs | internal/controller/entrypoint.go:286-289 | two argument lists give the same line if and only if they are equal, NUL included |
| Shell.QuoteLoop | internal/controller/entrypoint.go:286-289 | the loop and the join build that line |
| Flags.WithoutOverridden | internal/controller/entrypoint.go:217-240 | the loop with its skipping flag computes the kept tokens |
| Flags.SpellingsAgree | internal/controller/entrypoint.go:242-249 | both spellings of a flag set the same option name |
| Flags.OverrideKeepsMeaning | internal/controller/entrypoint.go:211-240 | grouped into options, the result is the generated options extra does not set, in order and unchanged, followed by extra's options |
| Flags.StrayValuesJoin | internal/controller/entrypoint.go:214 | values in front of the first extra flag join the last generated option that is left, or stand in front when none is, and everything else is as overridden |
| Flags.OverrideMeansExactlyWhen | internal/controller/entrypoint.go:211-240 | the final arguments group into the kept options followed by extra's if and only if no value stands in front of the first extra flag |
| Flags.StaticArgsRepeatOnlyIfExtraDoes | internal/controller/entrypoint.go:211-214 | with distinct generated options, the static arguments repeat an option, in either spelling, if and only if extra does |
| Flags.CommandLineRepeatsExactlyWhen | internal/controller/entrypoint.go:375-383 | the whole command line repeats an option if and only if extra repeats one or sets one of the node's own |
| Flags.NodeOptionIsNotOverridable | internal/controller/entrypoint.go:375-383 | whatever else is on the line, extra arguments that set an option of the node's own repeat it |
| Flags.RaftPortIsNotOverridable | internal/controller/entrypoint.go:379 | whatever the generated options, setting the Raft port in extra arguments repeats it |
| Flags.ScriptLineMeans | internal/controller/entrypoint.go:370 | the shell reads the script's line back as the overridden options |

## Left out

- Kubernetes objects (Services, ConfigMaps, the pod template, the disruption budget, claims) and the order they are created in: data without an algorithm.
- HTTP transport, JSON decoding and timeouts: every call is an arbitrary reply.
- TLS, certificates, the keystore and the backup key.
- Phases, conditions, events, log text and the wording of reasons: a reason is its kind and the names it lists.
- Steps before bootstrap: the plan jumps to the target there, and the protocol's runs start bootstrapped.
- Removal of witness entries from a standalone node's roster: a filter on the read.
- The list of flags staticArgs generates: the theorems hold for any list of options, and where they need distinct names they say so.
- Cron parsing, and cron's five-year search limit: a schedule is any function that gives the first of its times after its argument.
- The text of the failure message and its truncation in the backup status.
- Rounded measurements in the autoscaler's status, and the sums over metric tag sets: reporting and plain sums.
- Float64 rounding: signals and ratios are real numbers, and the recommendation has to fit an int32 as the conversion needs.
- Truncation of stored times to whole seconds, stale caches and conflicting status writes; a failing size write is modelled.
- 32-bit width of replica counts and failure counts: they are unbounded here, except where an ordinal is converted.
- What a node does inside a leave or an election: only the roster and placement changes the operator can see.
- BackupRuns.RunsKeepInv: does not cover removal of the backup spec, which clears the saved status and starts over.
