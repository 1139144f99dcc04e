# CertOS cluster: a verified model

This project models the job handling of CertOS, an HPC cluster manager, in Dafny and proves what it
guarantees. Check it with `dafny verify dfyconfig.toml`.

A master keeps a table of jobs and a table of nodes. Clients submit and cancel jobs; one scheduler thread
repeatedly assigns queued jobs to nodes; agents poll for jobs assigned to their node, run each in a thread of
its own, and report its start and its end. Every table is locked call by call, so a scheduling pass is not
atomic and the master accepts any status write at any time. The guarantees therefore have to come from the
protocol as a whole.

## The parts

| file | what it models |
|---|---|
| `Common.dfy`, `ResourceSpecs.dfy` | shared names; resource amounts and unsigned arithmetic |
| `FirstFit.dfy` | the placement rule of a pass, stated by loads and not by an algorithm |
| `SchedulingOrder.dfy` | the queue comparator with its tolerance of 0.1, and sorting with it |
| `FairShare.dfy` | usage, decay and the priority factor |
| `JobManager.dfy` | the job table and `JobManager` |
| `NodeRegistry.dfy` | the node table and `NodeRegistry` |
| `SchedulerEngine.dfy` | one scheduling pass on those objects |
| `ResourceManager.dfy` | capacities with wrap-around, and their agreement with the pass |
| `JobExecutor.dfy` | the agent's table of running jobs, exit statuses and output |
| `AgentService.dfy` | the master's handlers for agent calls |
| `AgentDaemon.dfy` | the agent's polling, heartbeat and job threads, as methods and as steps of the protocol |
| `ClusterProtocol.dfy` | the whole cluster as a step system, and its inductive invariant |
| `ClusterTheorems.dfy` | what holds over whole runs, and where it stops holding |
| `ClusterFinality.dfy` | exactly when a completed, failed or cancelled job keeps its status for good |
| `ClusterRelaunch.dfy` | exactly when a launched job will not be launched again |
| `ClusterDrain.dfy` | how fast the queue drains, whatever interleaves with the passes |
| `UserDirectory.dfy` | user accounts and their comma-separated list, one request at a time |
| `UserCreations.dfy` | overlapping requests as a step system, one access to the store at a time |

The objects that the C++ code updates in place are classes whose methods are proved against functions on the
table values; the lemmas are about those functions, and the step system uses the same functions. One step of
`ClusterProtocol` is one lock section or one remote call: `PickQueue`, `PickNodes`, `Place` and `EndPass` are
the pieces of a pass; `Fetch`, `Spawn` and `Enter` those of a poll (the thread is spawned and the entry made
inside one lock section, during which the new thread can already run); the other agent steps are those of a
job's thread, where `Reap` is the wait for the process and `Forget` the later removal of its entry.

## Main results

* **Launching at most once.** It is not unconditional. At every moment the jobs launched so far are exactly
  those that have left a trace: a start recorded at the master, or an entry in some agent's table
  (`LaunchedIffTraced`). Hence, in any cluster, a run launches every job at most once if and only if each launch
  in it is of a job without a trace (`AtMostOnceIffFresh`); with one agent process per node id, that is a job
  whose start the master has not recorded, so that the only relaunches are those where the reply to the poll
  was overtaken by the job itself (`RelaunchIffStartRecorded`). `OvertakenReplyRelaunches` is a run of one agent
  that launches a job twice and takes it from completed back to running. With replies acted on at once,
  at-most-once launching holds in every run precisely for clusters in which no two agent processes share a node
  id (`AtMostOnceIffOneAgentPerNode`). `agent/src/agent_daemon.cpp:42` registers every agent under one host name
  and address, which by `RegistrationIsStable` gives all of them the same node id. Seen from one state, a job
  that has been launched is never launched again in any further run if and only if it is no longer assigned and
  every agent that holds an offer of it also holds an entry left behind by a failed fork
  (`NeverLaunchedAgainIffSpent`).
* **When a finished status is final.** The master's status write has no guard, so no status is final by itself.
  A completed or failed job keeps its status in every further run if and only if every offer of it on its way
  will be turned away for good and none of its threads has anything left to report but that same status
  (`FinalForeverIffSettled`); for a cancelled job all its threads must be over, and the pass in progress, replayed
  on what is left of the nodes, must not place it (`CancelledForeverIff`). Both conditions can be read off the
  state, and for each way of failing them there is a run that changes the status. Each is proved twice over, with
  and without waits that fail (see Assumptions). `CancelledJobIsAssigned` is such a run from the start; a
  job cancelled in the queue while no pass in progress will place it is never launched
  (`CancelledInTimeNeverRuns`). With replies acted on at once, completed and failed are final precisely in clusters in which no two agent processes
  share a node id (`FinalWhenPromptIffOneAgentPerNode`).
* **The scheduler's stale snapshot is harmless** in all runs: what it assigns is queued or cancelled at that
  moment, was never assigned and never launched (`SchedulerWritesSafely`), and an interrupted pass still makes
  exactly the first-fit placement of its own snapshot (`InterleavedPassIsFirstFit`). Left alone, the steps
  do what `SchedulePass` promises (`UninterruptedPass`), and those of an agent do what the methods of
  `AgentDaemon` promise (`UninterruptedPoll`, `UninterruptedThread`).
* **A pass** makes the unique first-fit placement, never overcommits a node against the snapshot, never wraps
  an unsigned subtraction, and leaves no job that still fits. It looks at what nodes offer and not at what earlier
  passes have put there: no queue takes a busy node over its total if and only if what it offers on top of its
  present load does not (`CapacityAcrossPassesIff`), and agents offer the same amounts whatever they run
  (`agent/src/agent_daemon.cpp:70-72`).
* **The queue drains.** While nothing is submitted and the nodes keep reporting the same amounts, `n` passes leave
  at most `m - n` queued of the `m` jobs that fit some node, whatever the order of the queue and whatever is
  cancelled, launched or reported between and during the passes (`BoundedDrain`).
* **An agent's table** has, in every interleaving, one entry for each thread that has not removed it, with that
  thread's pid from registration on. A cancellation that finds a pid reaches a live process exactly until the
  thread has passed the wait (`CancelFindsOwnPid`); between the wait and the removal it finds the pid of a process
  that is gone (`ReapedPidIsFound`).
* **The comparator** is a strict weak order on a queue if and only if no three jobs drift: two priority
  differences within 0.1 that add up to more than 0.1, with submission times that do not grow in the other
  direction.
* **Fair share** has a closed form under any clock, decay by any time is the power of one half that the half-life
  calls for, and decay never reorders two users. In the queue, of two jobs of equal priority the one of the user
  with more usage ranks strictly lower if and only if that priority is positive; for a negative priority the
  penalty is a reward (`HeavierUserRanksLowerIff`). In an ordered queue the heavier user's job is never tried
  first, unless it is older and the effective priorities are within 0.1 (`HeavierUserWaits`).
* **What is submitted is what runs.** Through every run a job keeps the description it was submitted with, in the
  table and in the pass in progress (`SubmittedIsWhatRuns`); a node that registers takes part in the next pass
  with what it registered (`RegisteredNodeIsUsed`), and the table shows as its running count the number of its
  agent's threads that have not removed their entry (`ShownCountIsThreadCount`).
* **Resource accounting** is exact over every run that returns what it was granted; the admission check is
  right for all requests if and only if the node is not overallocated; and it agrees with the pass decision by
  decision.
* **The user list.** Splitting undoes appending, for all strings. A creation that runs alone leaves its name
  listed if and only if the name was listed already or is a proper name that occurs nowhere in the list string,
  and a sequence of such creations lists nobody twice if and only if each name adds only pieces that are new and
  distinct. But a creation is up to five accesses to the store, and creations overlap: two of them can both be
  answered with success and leave the first name unlisted (`LostUpdate`). In any state, a name is listed in every
  further run if and only if it is listed now and no creation has read, and not yet written, a list that will
  lack it (`ListedForeverIff`). Proper names are never listed twice, in any interleaving (`NobodyIsListedTwice`).
  An account keeps its password if and only if no other creation of it has passed the check and is about to store
  a different one (`PasswordForeverIff`). All of this is about names and passwords without the character `'`:
  with it the concatenated SQL fails and the handler takes no notice (`master/src/state_store.cpp:102-113`).

## Assumptions

Job ids are fresh and clocks read past the epoch; reports reach the master; an agent process does not crash or
restart during a run. In the step system the node list of a pass is arbitrary, so nothing there depends on
heartbeats or registrations. Where the comparator is not a strict weak order the C++ sort has no defined
result; the model then still gives some rearrangement of the queue, and every theorem about passes holds for
any order.

A wait reports exit or signal, or else nothing, which the code reaches only if `waitpid` fails. The theorems on
final statuses have a parameter `waitsFail` that admits such waits or excludes them; without them a process that
has started can only be reported as completed. All other theorems admit them.

Where the comments in the source and its code differ, the model follows the code: `FetchJob` speaks of marking
a job as picked up but does not (`master/src/grpc_service.cpp:337-339`), and a killed job or one with a nonzero
exit code is reported as completed (`agent/src/agent_daemon.cpp:20-21`).

## Model

| member | source | states |
|---|---|---|
| ResourceSpecs.WrapMinusExact | master/src/scheduler/scheduler_engine.cpp:97-99 | the unsigned difference is the integer difference exactly when nothing goes below zero |
| ResourceSpecs.WrapsAtWireWidth | proto/certosc/common.proto:11-16 | amounts are of 32, 64 and 32 bits, and unsigned arithmetic wraps there |
| FirstFit.FirstFitUnique | master/src/scheduler/scheduler_engine.cpp:76-111 | for an ordered queue and a node list there is exactly one first-fit placement |
| FirstFit.PrefixIndependence | master/src/scheduler/scheduler_engine.cpp:76-111 | jobs appended behind never change the placement of those in front |
| FirstFit.PlaceNext | master/src/scheduler/scheduler_engine.cpp:80-103 | placing one more job on the machine residual continues the first fit and keeps residual equal to snapshot minus load |
| FirstFit.NeverOvercommitted | master/src/scheduler/scheduler_engine.cpp:86-99 | at every moment of a pass the load of a node is between zero and its snapshot, in every dimension |
| FirstFit.CapacityAcrossPassesIff | master/src/scheduler/scheduler_engine.cpp:86-99 | whatever a node runs already, every queue's first fit keeps old and new load within its total exactly if the offered amount on top of the old load is within it |
| FirstFit.PassIsMaximal | master/src/scheduler/scheduler_engine.cpp:76-111 | a job left unassigned does not fit the final residual of any node |
| FirstFit.PassMakesProgress | master/src/scheduler/scheduler_engine.cpp:76-111 | if some queued job fits some node, the pass assigns at least one job |
| SchedulingOrder.OrderedIffNoDrift | master/src/scheduler/scheduler_engine.cpp:50-61 | the comparator is a strict weak order on a queue exactly when no three jobs drift |
| SchedulingOrder.AlwaysAsymmetric | master/src/scheduler/scheduler_engine.cpp:50-61 | it is irreflexive and asymmetric on all inputs, and always in order on two jobs |
| SchedulingOrder.AgeDecidesWithinATenth | master/src/scheduler/scheduler_engine.cpp:57-60 | up to and including 0.1 apart the older job comes first, and beyond that the one of higher priority |
| SchedulingOrder.ThreeJobCycle | master/src/scheduler/scheduler_engine.cpp:57-60 | three jobs each of which should come before the next |
| SchedulingOrder.SeparatedMeansOrdered | master/src/scheduler/scheduler_engine.cpp:50-61 | priorities equal or more than 0.1 apart make it a strict weak order |
| SchedulingOrder.SortQueue | master/src/scheduler/scheduler_engine.cpp:50-61 | sorting rearranges any queue, and orders it whenever the comparator is a strict weak order on it |
| SchedulingOrder.SeparatedOrderIsPriorityThenAge | master/src/scheduler/scheduler_engine.cpp:49-61 | on a separated queue the order is by priority, then by submission time |
| FairShare.UsageClosedForm | master/src/scheduler/fair_share.cpp:12-32 | after any deposits and decays under any clock, the decay time is the latest reading and usage is the sum of deposits each decayed since it was made |
| FairShare.LatestTickIsMaximum | master/src/scheduler/fair_share.cpp:19-31 | the decay time is the maximum of the start and all readings, and is one of them |
| FairShare.FactorInUnit | master/src/scheduler/fair_share.cpp:34-46 | factors lie in (0, 1] and are 1 exactly for users without positive usage |
| FairShare.FactorReversesUsage | master/src/scheduler/fair_share.cpp:34-46 | the factor is smaller exactly for the user with more, positive, usage |
| FairShare.FactorPerHour | master/src/scheduler/fair_share.cpp:41-45 | with h hours of usage, 3600 seconds each, the factor times one plus the logarithm of one plus h is 1 |
| FairShare.DecayKeepsRanking | master/src/scheduler/fair_share.cpp:17-46 | decay keeps the order of any two factors both ways, lowers none, and raises one exactly if its user has usage and time has passed |
| FairShare.FairShareManager.constructor | master/src/scheduler/fair_share.cpp:7-10 | a half-life that is not positive is replaced by 24 hours; the rate halves in the half-life; the books start empty at the given time |
| FairShare.RateGivesPowerOfHalf | master/src/scheduler/fair_share.cpp:20-25 | a rate that halves in one half-life, applied for the seconds elapsed, is one half to the power of the hours elapsed over the half-life |
| FairShare.PowerOfHalfIsUnique | master/src/scheduler/fair_share.cpp:24-25 | that power is one number, and after k half-lives it is one half to the k |
| FairShare.ADayHalves | master/src/scheduler/fair_share.cpp:20-25 | with a half-life of 24 hours, usage halves in 86400 seconds and quarters in twice that |
| FairShare.FairShareManager.AddUsage | master/src/scheduler/fair_share.cpp:12-15 | adds the amount to that user's usage, from zero for a new user, and changes nothing else |
| FairShare.FairShareManager.ApplyDecay | master/src/scheduler/fair_share.cpp:17-32 | the loop multiplies every usage once by one half to the power of the hours elapsed over the half-life, or does nothing if the clock has not advanced |
| FairShare.FairShareManager.GetPriorityFactor | master/src/scheduler/fair_share.cpp:34-46 | returns the factor of the user's usage |
| JobTable.HistoryKeepsTable | master/src/job_manager.cpp:11-122 | over every operation sequence: keys are the stored ids, descriptions and submission times never change, a start time is written once, running jobs have one and finished jobs have an end time |
| JobTable.SubmissionEntersExactly | master/src/job_manager.cpp:14-25 | the new entry has exactly the description, user and time it was submitted with, is queued on no node with no other time, and no other entry changes |
| JobTable.SubmittedStaysAsSubmitted | master/src/job_manager.cpp:11-122 | that description is still there after every further sequence of operations |
| JobTable.StatusWriteIsExact | master/src/job_manager.cpp:36-57 | field by field: which writes change the node, the start time and the end time and to what, and that nothing else in the table changes |
| JobTable.ListingIsComplete | master/src/job_manager.cpp:68-77 | a listing without a status has every job of the table, as many as the table, and one with a status exactly the jobs that have it; each once |
| JobTable.FailOnNodeIsExact | master/src/job_manager.cpp:83-96 | changes exactly the jobs assigned to or running on the node, which become failed at that time with that reason, and leaves none there |
| JobTable.CancelReachesTheNode | master/src/job_manager.cpp:98-140 | a cancellation is refused, without effect, exactly for unknown or finished jobs; otherwise it sets status and end time alone and is announced for sixty seconds to the job's node and to no other |
| JobTable.OnlyCancelledIsAnnounced | master/src/job_manager.cpp:124-140 | only cancelled jobs of the node are announced |
| JobTable.ListingInAnyOrder | master/src/job_manager.cpp:68-81 | a rearranged listing is still a listing, so sorting loses and duplicates no job |
| JobManagers.JobManager.SubmitJob | master/src/job_manager.cpp:11-34 | enters a queued job under its id with the given description and time |
| JobManagers.JobManager.UpdateJobStatus | master/src/job_manager.cpp:36-57 | overwrites any status; keeps the node on an empty node id; sets the start time once and the end time always |
| JobManagers.JobManager.ListJobs | master/src/job_manager.cpp:68-77 | returns every job that passes the filter exactly once |
| JobManagers.JobManager.FailJobsOnNode | master/src/job_manager.cpp:83-96 | the loop computes the failing of a node |
| JobManagers.JobManager.CancelJob | master/src/job_manager.cpp:98-122 | cancels exactly if the job exists and is not over |
| JobManagers.JobManager.GetJobsToCancelForNode | master/src/job_manager.cpp:124-140 | returns, once each, exactly the recently cancelled jobs of the node |
| NodeTable.RegistrationIsStable | master/src/node_registry.cpp:7-57 | over every run keys are ids and no machine is listed twice; a machine re-registers under its old id unless that was unregistered |
| NodeTable.RegistrationIsExact | master/src/node_registry.cpp:7-34 | for known and new machines alike: the entry is online as of now with what was registered as total and as available, a machine is known exactly by host name and address, and nothing else changes |
| NodeTable.HeartbeatLastsForTimeout | master/src/node_registry.cpp:46-90 | a heartbeat keeps its node, and no other, online through every sweep within the timeout, with the reported amounts and running count and with its registration data unchanged |
| NodeTable.TimeOutIsExact | master/src/node_registry.cpp:78-90 | afterwards every online node has a heartbeat within the timeout, and only the status of late nodes has changed |
| NodeRegistries.NodeRegistry.RegisterNode | master/src/node_registry.cpp:7-34 | the search loop refreshes the machine's entry or admits a new one, and returns its id |
| NodeRegistries.NodeRegistry.UnregisterNode | master/src/node_registry.cpp:36-44 | removes exactly that node |
| NodeRegistries.NodeRegistry.UpdateHeartbeat | master/src/node_registry.cpp:46-57 | brings the node online with the reported amounts; unknown nodes are refused |
| NodeRegistries.NodeRegistry.GetAllNodes | master/src/node_registry.cpp:59-67 | returns every node exactly once |
| NodeRegistries.NodeRegistry.CheckTimeouts | master/src/node_registry.cpp:78-90 | the loop computes the timeout sweep |
| Scheduling.SchedulerEngine.SchedulePass | master/src/scheduler/scheduler_engine.cpp:39-112 | nothing happens on an empty queue or without online nodes; otherwise the queue is tried in sorted order and the job table changes by exactly its first-fit placement on the online nodes |
| Scheduling.SchedulerEngine.PlaceAll | master/src/scheduler/scheduler_engine.cpp:76-111 | the nested loops make the first-fit placement and write exactly its assignments |
| Scheduling.SchedulerEngine.PlaceJob | master/src/scheduler/scheduler_engine.cpp:80-104 | the job goes to the first node with room, from which the request is deducted |
| Scheduling.SchedulerEngine.GetOnlineNodes | master/src/scheduler/scheduler_engine.cpp:63-69 | the filter keeps exactly the online nodes, once each |
| Scheduling.OnlineNodesAreAll | master/src/scheduler/scheduler_engine.cpp:63-69 | the nodes a pass works with are exactly those whose status is online, each once |
| Scheduling.RegisteredNodeIsUsed | master/src/node_registry.cpp:23-33 | a machine that has just registered is among the nodes of the next pass, with its registered total available |
| Scheduling.RankClosedForm | master/src/scheduler/scheduler_engine.cpp:50-55 | the effective priority is the job's own without usage, and otherwise what times one plus the logarithm of one plus the hours used makes it |
| Scheduling.HeavierUserRanksLowerIff | master/src/scheduler/scheduler_engine.cpp:50-55 | of two jobs of equal priority the one of the heavier user ranks strictly lower exactly if the priority is positive, and strictly higher exactly if it is negative |
| Scheduling.HeavierUserWaits | master/src/scheduler/scheduler_engine.cpp:50-61 | in an ordered queue no job of a heavier user stands before one of equal positive priority of a lighter user, unless it is the older one and their effective priorities are within 0.1 |
| Scheduling.TwoJobsAreInOrder | master/src/scheduler/scheduler_engine.cpp:50-61 | a queue of two jobs is always sorted, whatever their users have used |
| Scheduling.WithoutUsagePriorityThenAge | master/src/scheduler/scheduler_engine.cpp:49-61 | while no usage is booked, as in the shipped wiring, the comparator is a strict weak order and sorted means by priority, then by submission time |
| Scheduling.PassNeverOvercommits | master/src/scheduler/scheduler_engine.cpp:76-111 | in terms of the job table: the jobs put on a node together fit what it reported, jobs left queued fit nowhere, and only queued jobs were changed |
| ResourceManagement.TestIsRightIffSound | master/src/resource_manager.cpp:20-25 | the wrapped test accepts exactly what fits, for all requests, if and only if the node is not overallocated |
| ResourceManagement.ReturnUndoesGrantIffNoWrap | master/src/resource_manager.cpp:13-49 | an allocation followed by its return restores the state exactly when the sum did not wrap, so always on a sound node |
| ResourceManagement.RunKeepsBalance | master/src/resource_manager.cpp:6-49 | over every run allocated equals the sum of outstanding grants and is at most the total |
| ResourceManagement.ResourceManager.SetNodeCapacity | master/src/resource_manager.cpp:6-11 | sets the total and keeps what is allocated |
| ResourceManagement.ResourceManager.AllocateOn | master/src/resource_manager.cpp:13-32 | grants exactly if the node is known and the wrapped test accepts |
| ResourceManagement.ResourceManager.Deallocate | master/src/resource_manager.cpp:34-49 | lowers what is allocated, stopping at zero |
| ResourceManagement.ResourceManager.GetAvailable | master/src/resource_manager.cpp:51-62 | the wrapped difference, or nothing for an unknown node |
| ResourceManagement.ResourceManager.CanAccommodate | master/src/resource_manager.cpp:64-75 | answers exactly whether an allocation would be granted |
| PassReplay.ReplayAgrees | master/src/resource_manager.cpp:13-75 | replaying a pass through the resource manager picks the same node for every job and reports the pass's residual after every job |
| Execution.FailureMeansNoExit | agent/src/agent_daemon.cpp:18-25 | a job is reported as failed exactly if it never started or the wait reported neither exit nor signal |
| Execution.ExitCodeTellsTheEnd | agent/src/job_executor.cpp:164-179 | success is exit code 0; the code reported is the process's own or 128 more than the signal, and tells the two apart for codes up to 128 |
| Execution.OutputWholeIffNoNul | agent/src/job_executor.cpp:148-158 | the collected output is all that was read exactly when no read contains a NUL byte |
| Execution.KeptInOrder | agent/src/job_executor.cpp:148-158 | what is kept of two series of reads is what is kept of the first and then what is kept of the second |
| Execution.KeptOfOne | agent/src/job_executor.cpp:151-154 | of one read, everything before its first NUL is kept |
| Execution.CollectOutput | agent/src/job_executor.cpp:148-158 | the read loop keeps each buffer up to its first NUL |
| Execution.JobExecutor.ExecuteAsync | agent/src/job_executor.cpp:42-53 | refuses a job that is in the table and otherwise enters it without a pid |
| Execution.JobExecutor.RegisterPid | agent/src/job_executor.cpp:137-144 | records the pid if the entry is there |
| Execution.JobExecutor.Forget | agent/src/job_executor.cpp:183-191 | removes the entry |
| AgentServices.AgentService.FetchJob | master/src/grpc_service.cpp:325-346 | offers some job assigned to the node exactly if there is one, and marks nothing |
| AgentServices.AgentService.SendHeartbeat | master/src/grpc_service.cpp:311-323 | updates the node and answers with exactly its jobs to cancel |
| AgentServices.AgentService.ReportJobStarted | master/src/grpc_service.cpp:348-352 | writes the running status unconditionally |
| AgentServices.AgentService.ReportJobCompleted | master/src/grpc_service.cpp:354-359 | writes the completed status unconditionally |
| AgentServices.AgentService.ReportJobFailed | master/src/grpc_service.cpp:361-366 | writes the failed status unconditionally |
| AgentServices.StartWithdrawsOffer | master/src/grpc_service.cpp:329-352 | reporting a start is what withdraws an offer, and it withdraws no other |
| AgentDaemons.AgentDaemon.PollOnce | agent/src/agent_daemon.cpp:98-116 | launches an offered job exactly if it is not in the table, and finds nothing only if nothing is on offer |
| AgentDaemons.AgentDaemon.HeartbeatOnce | agent/src/agent_daemon.cpp:65-95 | reports the size of the table, and signals exactly the processes of the node's recently cancelled jobs |
| AgentDaemons.AgentDaemon.RunThread | agent/src/job_executor.cpp:66-196 | reports start and end and removes the entry, or after a failed fork reports failure and leaves the entry; the output is what the read loop kept |
| AgentSteps.UninterruptedPoll | agent/src/agent_daemon.cpp:98-116 | run without interference, the steps of a poll change the agent and spawn a thread exactly as the polling method promises |
| AgentSteps.UninterruptedThread | agent/src/job_executor.cpp:66-196 | run without interference, the steps of a thread change the job table and the agent's table exactly as the thread method promises |
| AgentSteps.UninterruptedJob | agent/src/job_executor.cpp:42-196 | a job polled, run and reported without interference leaves the agent as it was and ends with the reported status, started and ended at the two report times |
| ClusterInvariant.RunKeepsInvariant | master/src/scheduler/scheduler_engine.cpp:39-111 | the invariant linking job table, pass in progress, agents' tables and threads holds after every run from a state that has it |
| ClusterInvariant.KeepsExecutor | agent/src/job_executor.cpp:42-196 | every step keeps one thread per table entry, which holds that thread's own pid exactly from registration to removal |
| ClusterInvariant.KeepsLink | agent/src/job_executor.cpp:137-195 | every step keeps: offers and launches are on the job's own node, a start is recorded exactly if a thread told it, and final jobs have an ended thread |
| ClusterTheorems.SchedulerWritesSafely | master/src/scheduler/scheduler_engine.cpp:76-103 | whatever interleaves, an assigned job is queued or cancelled at that moment, never assigned before and never launched |
| ClusterTheorems.InterleavedPassIsFirstFit | master/src/scheduler/scheduler_engine.cpp:39-111 | whatever interleaves, the pass makes the first-fit placement of its snapshot and does not overcommit it |
| ClusterTheorems.UninterruptedPass | master/src/scheduler/scheduler_engine.cpp:39-111 | run without interference, the steps change the table exactly as the pass method promises |
| ClusterTheorems.NeverRequeued | master/src/job_manager.cpp:36-57 | over every run no job returns to the queue and none disappears |
| ClusterTheorems.SubmittedIsWhatRuns | master/src/job_manager.cpp:11-57 | over every run, what the table, the pass in progress and so the agents have for a job is the description it was submitted with |
| ClusterTheorems.LaunchedIffTraced | agent/src/job_executor.cpp:42-196 | in every state, the jobs launched so far are exactly those with a recorded start or an entry in some agent's table |
| ClusterTheorems.RelaunchIffStartRecorded | agent/src/job_executor.cpp:42-53 | with one agent per node, a launch is a relaunch exactly when the master has recorded the job's start |
| ClusterTheorems.AtMostOnceIffFresh | agent/src/agent_daemon.cpp:98-111 | in every cluster, a run launches each job at most once exactly when every launch is of a job with no recorded start and no table entry |
| ClusterTheorems.PromptRunsLaunchOnce | agent/src/agent_daemon.cpp:98-111 | with one agent per node, if every reply is acted on before anything else happens, no job is launched twice |
| ClusterTheorems.AtMostOnceIffOneAgentPerNode | agent/src/agent_daemon.cpp:42-47 | with prompt replies, at-most-once launching holds in all runs exactly for clusters without a shared node id |
| ClusterTheorems.SharedNodeLaunchesTwice | agent/src/agent_daemon.cpp:42-47 | a run in which two agents under one node id launch the same job |
| ClusterTheorems.OvertakenReplyRelaunches | master/src/grpc_service.cpp:337-339 | a run of one agent in which a second offer is launched after the job has completed, and completed is left |
| ClusterTheorems.OnlyRelaunchLeavesFinal | master/src/job_manager.cpp:36-57 | a single step changes a completed or failed job only if it has been launched twice |
| ClusterTheorems.FinalStays | master/src/job_manager.cpp:36-57 | over every further run a completed or failed job keeps its status unless it is launched twice |
| ClusterFinality.KeptForeverIffFrozen | master/src/job_manager.cpp:36-57 | any finished job keeps its status in all further runs, with failing waits or without, exactly when each offer of it meets an entry without pid, no thread of it has a different status to report, and the pass in progress does not place it |
| ClusterFinality.FinalForeverIffSettled | master/src/job_manager.cpp:36-57 | for completed and failed jobs the offers and the threads alone decide whether the status is kept in all further runs |
| ClusterFinality.CancelledForeverIff | master/src/job_manager.cpp:98-122 | a cancelled job stays cancelled in all further runs exactly when all its threads are over, its offers will be turned away, and replaying the rest of the pass in progress does not place it |
| ClusterFinality.CancelledInTimeNeverRuns | master/src/job_manager.cpp:98-122 | a job cancelled in the queue, with no pass in progress that will place it, stays cancelled and is never launched, in any further run |
| ClusterFinality.FinalWhenPromptIffOneAgentPerNode | agent/src/agent_daemon.cpp:42-47 | with prompt replies, completed and failed are final in all runs exactly for clusters without a shared node id |
| ClusterFinality.SharedNodeLeavesFinal | agent/src/agent_daemon.cpp:42-47 | a run with prompt replies of two agents under one node id in which a completed job goes back to running |
| ClusterRelaunch.NeverLaunchedAgainIffSpent | agent/src/job_executor.cpp:42-53 | in every cluster and state, a launched job is launched in no further run exactly if it is not assigned and each agent that holds an offer of it has an entry of it left by a thread that never forked |
| ClusterDrain.BoundedDrain | master/src/scheduler/scheduler_engine.cpp:32-111 | over every interleaved run without submissions and with the same node sizes, each ended pass takes at least one of the jobs that fit some node, so m of them are gone after m passes |
| ClusterTheorems.CancelledJobIsAssigned | master/src/scheduler/scheduler_engine.cpp:90-91 | a run in which a pass assigns a job that was cancelled after its snapshot |
| ClusterTheorems.RegistrationFindsEntry | agent/src/job_executor.cpp:137-144 | in every interleaving pid registration finds the entry, still without a pid |
| ClusterTheorems.CancelFindsOwnPid | agent/src/job_executor.cpp:55-64 | an entry is one thread's and has that thread's pid exactly once it has registered; the process is still there exactly if the thread has not passed the wait |
| ClusterTheorems.ReapedPidIsFound | agent/src/job_executor.cpp:161-191 | a run after which the table has the pid of a process already waited for |
| ClusterTheorems.RunningCountIsThreadCount | agent/src/job_executor.cpp:37-40 | the running count is the number of threads that have not removed their entry |
| ClusterTheorems.ShownCountIsThreadCount | master/src/node_registry.cpp:46-57 | after an agent's heartbeat, and still after the next sweep, the node table shows that number |
| UserDirectory.NamesOfAppended | master/src/grpc_service.cpp:48-70 | splitting a list after appending a comma and a name gives the old pieces and then those of the name, for all strings |
| UserDirectory.CreatedUserIsListedIff | master/src/grpc_service.cpp:30-71 | exactly when a new account is listed after a creation that runs alone |
| UserDirectory.UnlistedUser | master/src/grpc_service.cpp:48-51 | an account that exists and is not listed |
| UserDirectory.ListingAfterCreations | master/src/grpc_service.cpp:30-80 | over every sequence of creations that run one after another the listing is the old one followed by what each added, and stays without duplicates exactly when each creation adds distinct names that were not listed |
| UserDirectory.DuplicateFreeIff | master/src/grpc_service.cpp:30-80 | the same condition for one creation, on the name and the list before the call |
| UserDirectory.ProperNameAddsAfresh | master/src/grpc_service.cpp:48-70 | a name that is not empty and has no comma always meets that condition, adding itself or nothing |
| UserDirectory.CommaNameListsTwice | master/src/grpc_service.cpp:48-51 | a name with a comma that lists somebody a second time |
| UserDirectory.MasterService.CreateUser | master/src/grpc_service.cpp:30-59 | run alone, refuses exactly existing accounts, and otherwise stores account, role and extended list |
| UserDirectory.CreationStoresExactly | master/src/grpc_service.cpp:35-52 | an existing account is left alone; a new one gets its password and role under their keys, and no other account changes |
| UserDirectory.CreatedRoleIsShown | master/src/grpc_service.cpp:33-78 | a new account is shown as an administrator's exactly if it was created as one, and nobody else's role changes |
| UserCreations.UninterruptedCreation | master/src/grpc_service.cpp:30-59 | run without interference, the store accesses of a creation do exactly what the handler's method promises |
| UserCreations.ListedWhenAnsweredIff | master/src/grpc_service.cpp:42-52 | whatever overlaps, a creation answered with success has its name listed at that moment exactly if it wrote a list and the name is proper, or wrote none and the name is listed |
| UserCreations.ListedForeverIff | master/src/grpc_service.cpp:42-52 | in any state, a name is listed after every further run exactly if it is listed now and each creation that has read a list and not written it will write one with the name |
| UserCreations.LostUpdate | master/src/grpc_service.cpp:42-52 | for any two proper new names, a run in which both creations succeed and the first name is not listed |
| UserCreations.UndisturbedListing | master/src/grpc_service.cpp:42-52 | if each list written extends the list in force, the listing is the old one followed by everything appended |
| UserCreations.DistinctForeverIff | master/src/grpc_service.cpp:48-52 | proper names are listed at most once in every further run exactly if that holds of the stored list and of every list read and not yet written |
| UserCreations.NobodyIsListedTwice | master/src/grpc_service.cpp:48-52 | from a list without duplicates, creations of proper names never list anybody twice, in any interleaving |
| UserCreations.PasswordForeverIff | master/src/grpc_service.cpp:35-40 | an existing account keeps its password in every further run exactly if no other creation of the name has passed the existence check and is about to store a different password |
| UserDirectory.MasterService.AdminListUsers | master/src/grpc_service.cpp:61-80 | lists the pieces of the stored list in order, each with its role |
| UserDirectory.Split | master/src/grpc_service.cpp:66-70 | the reading loop cuts at commas and drops empty pieces |
| UserDirectory.Find | master/src/grpc_service.cpp:48 | substring search, including the empty string |
| UserDirectory.ContainsIff | master/src/grpc_service.cpp:48 | a name occurs in the list exactly if the list is the name between two strings |

## Left out

- Gateway, web interface, shell scripts, OS images and configuration loading: plumbing and library calls.
- JWT, the auth interceptor, the role table, `Login` and `AdminDeleteUser`: library calls and a finite table.
- The job request review workflow and protobuf JSON: it would only add easy members.
- SQLite: the key-value store is a map, so the SQL text, and with it names and passwords that contain `'`, is not modelled; `submit_job` also writes a record that nothing reads.
- A restart of the master, which writes the default accounts and the default user list again.
- Fork, exec, pipes, signals, tar extraction and system metrics: a process runs and ends with some wait status; pipe or fork failure is a step that may happen.
- Agent crashes and restarts, lost reports and the executor's destructor: at-most-once launching is stated for runs without them.
- Random ids: the digits are a parameter, and freshness is an assumption of the runs.
- Floating-point rounding: reals stand for doubles and `log1p` for any strictly increasing function that is zero at zero.
- The endless loops of the agent and the scheduler, their sleeping, starting and stopping: a method does one iteration or one job, and `ClusterProtocol`, whose subject is interleaving, has the steps of these on values. A heartbeat's effect on the node table is not a step there, since the node list of a pass is arbitrary, and the kill it may cause only influences the wait status, which is arbitrary too.
- A scheduler pass that finds no queued job or no online node is not counted as a pass by `BoundedDrain`: it takes nothing.
- Job fields that no modelled operation reads (arguments, environment, container image, time limit, effective priority, assigned host name) and node fields likewise (used resources, running job ids); disk space is in the wire format but neither the scheduler nor the resource manager looks at it.
- `list_jobs` paging and `user_filter`: the handler ignores them.
