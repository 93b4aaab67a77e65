# kdebug: a verified model of its core

kdebug runs diagnostic checks on one machine or, in batch mode, on many. This project models the parts of
it where something can go wrong between components, and proves what they promise:

- **Worker pool** (`BatchPool`, `BatchRuns`, `BatchOrder`, `BatchExecute`). One sender goroutine per machine, C
  workers, two bounded channels and a collector, as a step system. Proved for every interleaving: each task is in
  exactly one place, results are the task body mapped over the machine list (duplicates included), closing the task channel is
  safe, a run that cannot go on has exactly 5N + C + 1 steps and leaves no goroutine behind, and a pool is free of
  deadlock exactly when it has a worker or nothing to do. `BatchOrder` says exactly which orders the results can come
  in. `BatchExecute` is the same protocol as a class whose methods each take one step, with `Execute` and its caller
  on top.
- **Pod tasks and the job store** (`PodTask`, `PodBatch`, `PodTiming`, `SshTask`). One task creates a job, polls it
  against a clock, lists pods and decodes a log. Running under the pool against a store that refuses existing names and
  may drop finished jobs, jobs accepted for a machine always equal jobs expired plus the one still held. With a clock,
  `PodTiming` says exactly for which machine lists and worker counts no machine can get a second job.
- **SSH keys and certificates** (`Base64`, `SshWire`, `SshCertificate`). The length-prefixed field loop, RSA numbers
  up to their base64url texts, and the certificate file written and read back.
- **Command transport** (`CommandTransport`, `CheckerRegistry`). Checker names through a pod's argument list, a
  systemd unit or an SSH command line and back.
- **Smaller parsers and verdicts** (`PodSchedule`, `Tcpdump`, `DiskUsage`, `SystemLoad`).

`Collections`, `CheckResults` and `GoStrings` hold what several modules share; `GoStrings` states the functions of Go's
`strings`, `strconv` and `path` packages that the program calls.

## What the environment contributes

API replies, clock readings, remote command output, AAD's answer and parsing of key blobs are parameters. A task body
is a relation between a machine name and a result; the pool's progress assumes that it relates every machine to some
result, that is, that the task returns. `PodTask.CleanExactly` says when a pod task does not: reading the first of no
pods panics, which ends the process; `PodBatch` has that as a move, and a batch that can do nothing more has lost its
results exactly if it was taken (`PodBatch.ResultsLostExactly`). Nothing else is assumed about scheduling: any enabled
goroutine may move next. `PodTiming` considers, beside that, a batch in which time passes only while all there is to do
is wait for jobs.

## Where the code is not what one would expect

- Job names are unique for a run, but a finished job is dropped after 300 seconds, and a machine listed twice can then
  get a second job. With any worker at all, no machine can, in any run, exactly if the list has no duplicate, or there
  are more workers than different machines and goroutines are not held up (`PodTiming.OneJobEachExactly`): with so many workers all jobs are
  asked for at once, with fewer a task can wait 300 seconds behind others. The task of the first job may itself fill
  that time, as a job that fails early is polled until the timeout. `PodBatch.AcceptedEqualsExpiredPlusHeld` counts how
  many jobs are accepted in a given run.
- The same-node verdict depends on the order of the pods exactly when some pods are unscheduled and the scheduled ones
  share a node (`PodSchedule.OrderMattersExactly`).
- A certificate whose "valid before" is 2^64 - 1 is never accepted from the file (`SshCertificate.ForeverIsRejected`).
- An address with a colon in it does not survive `<ip>:<port>` parsing (`Tcpdump.AddressSurvivesExactly`).
- tcpdump always runs in the network namespace of the tool. The namespace of a process named with `--pid` is entered by
  a shell started before it, so packets are captured where the help says exactly if no process is named
  (`Tcpdump.AttachesExactly`).
- The modulus text keeps mpint's leading zero byte (`SshWire.ShortestTextExactly`).
- A space inside any column of any row, a mount point or a network share say, makes the parser refuse the whole df
  output; the rows printed come back exactly if there is none (`DiskUsage.RefusedExactly`, `DiskUsage.ParsedExactly`).
- Checker names are not checked before they are sent: on the way through a command line they arrive exactly if each is
  one word and not an option (`CommandTransport.HostTransport`, `CommandTransport.SshTransport`).

## Model

| member | source | states |
|---|---|---|
| BatchPool.InitInv | pkg/batch/pod_executor.go:71-86 | the state in which the goroutines are started satisfies the invariant |
| BatchPool.StepKeepsInv | pkg/batch/pod_executor.go:71-104 | every step of every goroutine keeps the invariant: each input task in exactly one place, channels and workers within bounds, no panic, nobody exits before the close, every result answers its task, limited overtaking |
| BatchPool.SendKeepsInv | pkg/batch/pod_executor.go:79-86 | a sender never finds the channel closed, and its send keeps the invariant |
| BatchPool.RunKeepsInv | pkg/batch/pod_executor.go:71-104 | the invariant holds at every state of every interleaving |
| BatchPool.EmptyOnceAllCollected | pkg/batch/pod_executor.go:88-95 | when N results are collected there is no unsent, queued, executing, held or uncollected task |
| BatchRuns.EveryStepCountsOnce | pkg/batch/pod_executor.go:79-104 | each step lowers the weighted count of outstanding work by exactly one |
| BatchRuns.StepsLeftAlongRun | pkg/batch/pod_executor.go:71-104 | after k steps of any run exactly 5N + C + 1 - k are left |
| BatchRuns.Progress | pkg/batch/pod_executor.go:71-104 | no state meeting the invariant is stuck short of the end |
| BatchRuns.DeadlockFreeIffWorkers | cmd/batch.go:70-73 | no run deadlocks if and only if there is at least one worker or no machine, which is what the clamp ensures |
| BatchRuns.MaximalRunLength | pkg/batch/pod_executor.go:71-104 | a run cannot go on if and only if it has 5N + C + 1 steps, if and only if everything has ended |
| BatchRuns.EveryCompleteRunAnswersAll | pkg/batch/pod_executor.go:58-104 | a run that cannot go on has that length, has not panicked, left nothing behind, and answered each machine once |
| BatchRuns.EveryRunCanBeCompleted | pkg/batch/pod_executor.go:71-104 | any run so far extends to such a complete run |
| BatchRuns.CloseIsSafe | pkg/batch/pod_executor.go:95-104 | at every state with the task channel closed no sender is pending, both channels are empty, no worker is busy and all tasks are answered |
| BatchRuns.PoolRefinesMap | pkg/batch/ssh_executor.go:36-68 | for a task body that is a function, the results are a rearrangement of it mapped over the machine list |
| BatchRuns.EachTaskOnce | pkg/batch/pod_executor.go:79-93 | no task is enqueued or produced twice |
| BatchRuns.OneWorkerKeepsOrder | pkg/batch/pod_executor.go:79-104 | with one worker, produced, in-hand and queued tasks in a row are the enqueue order at every state, and the final results are in it |
| BatchRuns.LimitedOvertaking | pkg/batch/pod_executor.go:79-104 | with C workers the p-th collected result belongs to one of the first p + C enqueued tasks |
| BatchOrder.OrdersExactly | pkg/batch/pod_executor.go:79-104 | the tasks can be enqueued in one order and answered in another if and only if each result is among the first of the tasks enqueued, as many as were answered before it plus C |
| BatchRuns.BackPressure | pkg/batch/pod_executor.go:71-77 | at most C tasks execute, 2C are received and uncollected, 3C sent and uncollected |
| BatchExecute.Batch.Advance | pkg/batch/pod_executor.go:79-104 | one step of a sender or worker changes the shared state as the step system says and extends its run |
| BatchExecute.Batch.Receive | pkg/batch/pod_executor.go:89-91 | the collector's receive returns, whatever the scheduler does, and appends one result |
| BatchExecute.Execute | pkg/batch/ssh_executor.go:35-62 | one result per machine, each an answer to its machine; the reporter has seen exactly these, in order; the state reached ends a run with the channel closed |
| BatchExecute.PodExecute | pkg/batch/pod_executor.go:58-98 | nothing runs and nothing is reported when the namespace cannot be created and does not exist; otherwise as Execute |
| BatchExecute.RunBatch | cmd/batch.go:60-83 | for any requested concurrency, negative included, the batch answers all machines and its pool is free of deadlock |
| PodTask.IsJobCompleted | pkg/batch/pod_executor.go:47-56 | true exactly if some condition is Complete with status True |
| PodTask.JobNameInjective | pkg/batch/pod_executor.go:214 | within a run two job names are equal exactly if the machines are |
| PodTask.JobRunsCheckers | pkg/batch/pod_executor.go:199-230 | the job is named for run and machine and goes to the machine; its command in container mode, and what run-as-host makes of it in host mode, collects exactly these checkers if and only if their names are no options, and, in host mode, one word each |
| PodTask.WaitForJob | pkg/batch/pod_executor.go:240-260 | polling ends at the first read that fails, shows completion or is 300 seconds after the start, within 60 reads, and which it was is told |
| PodTask.ExecuteTask | pkg/batch/pod_executor.go:193-287 | each error is returned, with its message, if and only if its stage was reached and failed; the check results are those decoded if the logs of a completed job were read, and otherwise none; a panic exactly if the completed job has no pods |
| PodTask.CleanExactly | pkg/batch/pod_executor.go:232-286 | a result without error exactly if the job was created, completion was seen before any failure or timeout, and every later stage succeeded; a panic exactly if the completed job has no pods; the machine is always the task's |
| PodTask.NeverCompleteIsError | pkg/batch/pod_executor.go:240-260 | a job never seen complete in sixty reads gives an error for its machine |
| PodTask.BoundIsReached | pkg/batch/pod_executor.go:240-260 | sixty reads do happen |
| SshTask.ExecuteTask | pkg/batch/ssh_executor.go:90-133 | the machine is kept; each error is returned, with its message, if and only if its stage was reached and failed; the check results are those decoded from the output of the command line for the checkers, if it was reached |
| PodBatch.TaskReturnsAreAllowed | pkg/batch/pod_executor.go:232-272 | every end of a pod task is allowed by what the store answered its creation: what it returns, and that only a task whose job was accepted panics |
| PodBatch.ProjectsToPool | pkg/batch/pod_executor.go:71-104 | a batch with its job store is, store forgotten, a run of the pool |
| PodBatch.AcceptedEqualsExpiredPlusHeld | pkg/batch/pod_executor.go:210-237 | at every state, for each machine, jobs accepted equal jobs expired plus the job still in the store |
| PodBatch.AtMostOnePerMachine | pkg/batch/pod_executor.go:212-237 | while no job expires, two entries of one machine do not both get past creation |
| PodBatch.ExactlyOnePerMachine | pkg/batch/pod_executor.go:212-237 | with no expiry and no other creation failure exactly one entry of each machine does |
| PodBatch.DuplicatesFail | pkg/batch/pod_executor.go:88-97 | at the end there is one result per list entry, naming its machine; without expiry at most one result per machine is not a creation error |
| PodBatch.BatchProgress | pkg/batch/pod_executor.go:71-104 | the store never blocks the pool: short of the end and of a panic some move other than an expiry is possible |
| PodBatch.ResultsLostExactly | pkg/batch/pod_executor.go:262-272 | a batch that can do nothing more has failed to close exactly if some task panicked; otherwise it has ended with every list entry answered |
| PodBatch.BatchRunsEnd | pkg/batch/pod_executor.go:71-104 | a run with the store takes at most 7N + C + 2 moves plus one per job held at the start |
| PodTiming.ReturnsTakeTime | pkg/batch/pod_executor.go:240-260 | a task whose job was accepted returns no sooner than five seconds later, and times out no sooner than 300 |
| PodTiming.ProjectsToBatch | pkg/batch/pod_executor.go:71-104 | clock forgotten, a timed run is a run of the batch with its job store |
| PodTiming.WaitersHaveMachines | pkg/batch/pod_executor.go:75-77 | when every worker waits for a job there are at least as many different machines as workers |
| PodTiming.OneJobEachExactly | pkg/batch/pod_executor.go:210-237 | in every timed run no two entries of one machine get past creation, if and only if there is no worker, or no duplicate, or time passes only in waiting and there are more workers than different machines |
| PodTiming.OneJobEachWheneverDropped | pkg/batch/pod_executor.go:210-237 | if jobs may be dropped at any time, the same holds if and only if the list has no duplicate |
| Base64.DecodeEncode | pkg/tools/aadssh/ssh.go:129 | decoding undoes encoding for every byte string, padded and unpadded, also with line breaks after the text |
| Base64.EncodeIsText | pkg/tools/aadssh/aadssh.go:102 | an encoded text has no space and no line break |
| Base64.EncodeSays | pkg/tools/aadssh/ssh.go:100-101 | each character of an encoded text is that of the six bits at its place, zero bits after the end, and padding fills the standard form up to a multiple of four |
| Base64.AlphabetInOrder | pkg/tools/aadssh/ssh.go:100-129 | the characters of both forms are those of RFC 4648, in order |
| Base64.UrlSafe | pkg/tools/aadssh/ssh.go:100-101 | the unpadded texts have only letters, digits, minus and underscore |
| Base64.DecodesExactly | pkg/tools/aadssh/ssh.go:129-132 | a text decodes if and only if, line breaks aside, it is characters of the alphabet, in a possible number, and the padding due |
| Base64.LineBreaksSkipped | pkg/tools/aadssh/ssh.go:129 | line breaks make no difference anywhere in a text |
| SshWire.ParseFields | pkg/tools/aadssh/ssh.go:90-98 | the loop returns the fields laid out in the key, and panics only if no list of fields is; it terminates and slices within capacity otherwise |
| SshWire.MarshalParse | pkg/tools/aadssh/ssh.go:88-98 | the one list the loop can return for a marshalled list is that list, whatever storage lies behind the slice |
| SshWire.AcceptedIffMarshalled | pkg/tools/aadssh/ssh.go:88-98 | with no storage behind the slice, exactly the marshalled lists are accepted |
| SshWire.ParseSSHPublicKey | pkg/tools/aadssh/ssh.go:87-103 | the texts of fields 1 and 2, or a panic exactly if there are not three fields |
| SshWire.RsaKeyToText | pkg/tools/aadssh/ssh.go:87-103 | decoding the two texts as unsigned big-endian numbers gives the key's exponent and modulus |
| SshWire.ShortestTextExactly | pkg/tools/aadssh/token.go:44-49 | the text is that of the shortest byte form exactly if the top bit is clear |
| SshCertificate.LoadSSHCertificate | pkg/tools/aadssh/ssh.go:112-153 | loads exactly if the file reads, splits, decodes and parses to a certificate valid now; each failure is told apart |
| SshCertificate.ValidExactly | pkg/tools/aadssh/ssh.go:144-146 | the validity window in closed form, 64-bit conversions included |
| SshCertificate.ForeverIsRejected | pkg/tools/aadssh/ssh.go:144-150 | a certificate valid for ever is rejected at every time |
| SshCertificate.SaveLoad | pkg/tools/aadssh/aadssh.go:102-103 | the saved text gives the marshalled bytes back, also with line breaks or a comment after it |
| SshCertificate.KeyDirectory.ObtainCertificate | pkg/tools/aadssh/aadssh.go:88-109 | a certificate is asked for exactly if the saved one does not load; what was obtained is what is saved |
| SshCertificate.SavedIsReused | pkg/tools/aadssh/aadssh.go:88-109 | a saved certificate is reused by a later run exactly while it is valid |
| CommandTransport.BuildPodCommand | pkg/batch/pod_executor.go:199-208 | the loop builds the fixed flags and one -c pair per checker, in order |
| CommandTransport.HostCommandLine | cmd/run-as-host/main.go:74-90 | no line exactly if arguments are missing; splitting the line gives the copied binary, the arguments in order and the output file, whatever words they are |
| CommandTransport.HostLineSplits | cmd/run-as-host/main.go:79-90 | the same of the command line as a function of the arguments |
| CommandTransport.ContainerTransport | pkg/batch/pod_executor.go:199-208 | in container mode the process collects exactly the task's checkers, in order, if and only if no name is taken for an option |
| CommandTransport.CopiedUnderTmp | cmd/run-as-host/main.go:82-83 | a file in any directory is copied to its own name under /tmp |
| CommandTransport.UnitHoldsCommand | cmd/run-as-host/main.go:53-58 | the written unit is the template with the command line, for every one-line command, as its ExecStart and every other line as it was |
| CommandTransport.HostTransport | cmd/run-as-host/main.go:79-91 | in host mode, through the unit file, the process collects exactly the task's checkers, in order, and writes where they are read, if and only if every name is one word and none is taken for an option |
| CommandTransport.BuildSshCommand | pkg/batch/ssh_executor.go:118-121 | the loop appends one -c pair per checker to the command line |
| CommandTransport.SshTransport | pkg/batch/ssh_executor.go:118-123 | splitting the SSH command line gives exactly the task's checkers, in order, under the same condition |
| CommandTransport.RegistryNamesArrive | pkg/batch/ssh_executor.go:118-123 | lower-case names, as the registry uses, meet the condition of all three ways |
| CheckerRegistry.Check | pkg/checkers/checker.go:16-36 | all checkers run in order, and each one's results stand in the list where those of the checkers before it end, whether or not it gave an error; or, if a name is unknown, none runs and the first such name is reported |
| CheckerRegistry.ConcatAppend | pkg/checkers/checker.go:26-33 | results of a longer list of checkers extend those of the shorter |
| PodSchedule.GroupByReplicaSet | pkg/checkers/podschedule/podschedule.go:48-66 | one group per replica set with a pod, holding its pods |
| PodSchedule.GroupsPartition | pkg/checkers/podschedule/podschedule.go:50-66 | a pod is in its own group as often as it is listed and in no other |
| PodSchedule.MembersInOrder | pkg/checkers/podschedule/podschedule.go:60-63 | groups keep list order |
| PodSchedule.SameGroup | pkg/checkers/podschedule/podschedule.go:59 | two owned pods share a group exactly if namespace and replica set agree, namespaces having no slash |
| PodSchedule.NamespacesMergeExactly | pkg/checkers/podschedule/podschedule.go:59 | pods of two namespaces can share a group if and only if one namespace with a slash after it begins the other |
| PodSchedule.CheckPodsInReplicaSet | pkg/checkers/podschedule/podschedule.go:80-103 | the same-node error if and only if every pod after a scheduled one names its node, otherwise the description |
| PodSchedule.AllScheduled | pkg/checkers/podschedule/podschedule.go:85-95 | with every pod scheduled an error means all names are equal |
| PodSchedule.OrderMattersExactly | pkg/checkers/podschedule/podschedule.go:85-95 | the verdict depends on pod order exactly if some pod is unscheduled, some is scheduled and the scheduled share a node |
| PodSchedule.ScheduledOrderIrrelevant | pkg/checkers/podschedule/podschedule.go:85-95 | with every pod scheduled any permutation has the same verdict |
| PodSchedule.CheckReplicaSets | pkg/checkers/podschedule/podschedule.go:68-77 | one verdict per group of two or more, in some order |
| PodSchedule.CheckPodSchedule | pkg/checkers/podschedule/podschedule.go:38-78 | no result if the pods cannot be listed; otherwise each replica set is reported if and only if two or more pods listed have it as first owner, once, as an error if and only if of these every pod after a scheduled one is on its node |
| PodSchedule.VisitOrderIrrelevant | pkg/checkers/podschedule/podschedule.go:68-77 | two runs over the same pods report the same multiset of verdicts |
| Tcpdump.ParseIPAndPort | pkg/tools/tcpdump/tcpdump.go:117-124 | cut at the first colon; without one the whole text is the address |
| Tcpdump.AddressSurvivesExactly | pkg/tools/tcpdump/tcpdump.go:117-124 | address and port come back exactly if the address has no colon |
| Tcpdump.EndpointIsParsed | pkg/tools/tcpdump/tcpdump.go:117-124 | every text names one address without a colon and one port, either possibly empty, and these are what parsing gives |
| Tcpdump.TcpdumpTool.ParseParameters | pkg/tools/tcpdump/tcpdump.go:83-89 | source, destination and host fields are the address and port that the text of that name gives; nothing of an earlier configuration is left |
| Tcpdump.TcpdumpTool.GenerateTcpdumpParameters | pkg/tools/tcpdump/tcpdump.go:91-115 | the text is that of the primitives for the fields set |
| Tcpdump.FilterReadsBack | pkg/tools/tcpdump/tcpdump.go:76-115 | the arguments passed to tcpdump read back as the primitives for the fields set, if and only if these are IPv4 addresses and port numbers |
| Tcpdump.FilterMeaning | pkg/tools/tcpdump/tcpdump.go:62-115 | what tcpdump is started with for a configuration accepts a packet if and only if it is from the source's address and port, to the destination's, has the host's on either side, and is TCP if only that is wanted, as far as each is given |
| Tcpdump.TcpdumpTool.Run | pkg/tools/tcpdump/tcpdump.go:62-81 | starts nsenter if a process is named, and tcpdump with the filter unless that failed |
| Tcpdump.AttachesExactly | pkg/tools/tcpdump/tcpdump.go:62-81 | for every configuration tcpdump runs in the tool's own network namespace, so it captures in the requested one if and only if no process is named or nothing is captured |
| DiskUsage.AtoiNumber | pkg/checkers/diskusage/diskusage.go:208-211 | every number, signed or not, reads as itself or as the nearest bound |
| DiskUsage.AtoiMalformed | pkg/checkers/diskusage/diskusage.go:208-211 | a text that is no number reads as 0 |
| DiskUsage.ParseDfResult | pkg/checkers/diskusage/diskusage.go:164-206 | in terms of the words on each line: the columns of the row lines in order, if every line is empty, the header or a row; otherwise the first other line decides, a wrong header giving the rows before it, another number of words a row error, and no word a panic |
| DiskUsage.ResultUnique | pkg/checkers/diskusage/diskusage.go:164-206 | these conditions are exact: any lines have one result |
| DiskUsage.ParsedExactly | pkg/checkers/diskusage/diskusage.go:164-206 | for the output printed for any rows, with any spacing, the result is exactly those rows in order, if and only if no column has a space in it, no file system is named like the header and no percentage exceeds a 64-bit integer |
| DiskUsage.ParsePrintedOutput | pkg/checkers/diskusage/diskusage.go:164-206 | parsing the output printed on either system returns the rows under the same condition |
| DiskUsage.RefusedExactly | pkg/checkers/diskusage/diskusage.go:193-196 | for rows without a blank column the whole output is refused if and only if some column of some row has a space inside it |
| DiskUsage.GetUsageAt | pkg/checkers/diskusage/diskusage.go:154-162 | the first row mounted at the path, if there is one |
| SystemLoad.TotalWraps | pkg/checkers/systemload/systemload.go:138-141 | ten wrapping additions equal the true sum reduced once |
| SystemLoad.DeltaIsTrueIncrease | pkg/checkers/systemload/systemload.go:100-102 | the wrapped difference is the true increase if that fits in 64 bits |
| SystemLoad.MeasureUsage | pkg/checkers/systemload/systemload.go:89-103 | for any two readings, usage by remainders modulo 2^64 of the increases and of 100 times the idle one; that is the busy share of the increase as long as 100 times the idle increase fits in 64 bits, and undefined if nothing increased |
| SystemLoad.UsageIsBusyShare | pkg/checkers/systemload/systemload.go:182-184 | usage is the busy share of the increase exactly if 100 times the idle increase fits in 64 bits, and then lies between 0 and 100 |

## Left out

- Kubernetes, SSH, SCP, HTTP and AAD calls: foreign; their replies are parameters.
- Parsing of key blobs, RSA key generation, PEM, X.509 and SHA-256: library cryptography.
- JSON decoding of check results and go-flags beyond the flags used in transport: library behaviour.
- CommandTransport.HostTransport: names of other than ordinary characters are left out, because systemd gives quotes,
  dollars, percent signs and backslashes a meaning.
- CommandTransport.SshTransport: the same, because of the remote shell.
- PodTask.ExecuteTask: assumes that a sleep of five seconds lasts at least that long on the clock read.
- PodTiming.OneJobEachExactly: in a prompt batch a call to the API server takes no time.
- SshWire.ParseFields: lengths and sums are those of a 64-bit int; a 32-bit build is not modelled.
- SystemLoad.UsageIsBusyShare: percentages are real numbers; floating-point rounding is not modelled.
- DiskUsage.ParseDfResult: takes the seven-column headers of the two supported systems, not a header of any length.
- Tcpdump.FilterMeaning: host and service names, which tcpdump resolves, are outside the modelled filter language.
- Tcpdump.TcpdumpTool.Run: of nsenter, only that it enters the namespace and becomes the program it is given, or a shell.
- Pod specifications, labels, volumes, logging, progress bar and colours: no behaviour to prove.
- Machine discovery, formatters, environment flags, memory and per-process load, and the remaining checkers and tools:
  filters, thresholds and wrappers without interplay.
