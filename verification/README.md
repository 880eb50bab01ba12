# csf_scrapyd launcher and schedule handlers, modelled in Dafny

This project models the core of csf_scrapyd, a Scrapyd variant that runs
crawl jobs in a fixed pool of process slots and re-schedules jobs that carry a
`loop` counter. It also keeps a persisted store of scheduled jobs and replays
that store on restart. The project has two parts.

- **The launcher** (`csf_scrapyd/launcher.py`). It holds:
  - the slot → process map;
  - the bounded history of finished processes;
  - the pool size computed by `_get_max_proc`;
  - a log of the calls it makes to the spider queues (`clear`), to the job scheduler (`schedule`) and to the poller (`_wait_for_project`);
  - the outstanding waits: the slots whose poller callback has not fired yet.

  Each Twisted callback is a pure step from one launcher state to the next:
  - `startService`;
  - `_spawn_process`;
  - `_process_finished`;
  - `connectionMade`;
  - `processEnded`.

  A Python exception is a value. `Outcome` records the state at the moment the exception was raised, so partial mutations are kept. For example, the slot is already popped when `int()` fails on a malformed `loop`.

  The life of one process is a state machine:
  - `NotStarted`: no pid yet;
  - `Started`: pid known;
  - `Ended(success)`: the Deferred has fired.

  The `loop` field stays a string, as it is in the job message. Python 2's `int()` and `str()` on it are modelled explicitly, and `int(str(n)) == n` is proved.

- **The schedule and delete handlers** (`csf_scrapyd/webservice.py`). Each one is a pure function from the request arguments (each name mapped to its list of values) and the persisted store (`map<project, {spider, args}>`) to three things:
  - the response;
  - the scheduler calls made;
  - the new store.

  The spider list (`get_spider_list`), the fresh job id (`uuid1().hex`) and the node name are parameters.

Modules: `Common` (shared types), `PyInt` (`int()`/`str()`), `PyList`
(`del lst[:stop]`), `ProcessProtocol`, `LoopPolicy`, `Launcher`, `Webservice`
and `Recovery` (how the handlers and the restart replay meet in the store).

Four behaviours of the code are easy to miss, and the model keeps each of them:

- `_get_max_proc` can return 0 or a negative pool size (`csf_scrapyd/launcher.py:87-94`). It returns a negative configured `max_proc` unchanged, and it returns 0 when `max_proc_per_cpu` is 0. `Launcher.MaxProcAtLeastOne` states exactly when the result is positive.
- A malformed `loop` makes `int()` raise after the pop, so the slot is neither archived nor waited on again (`csf_scrapyd/launcher.py:72-84`). `Launcher.ProcessFinished` states this. Likewise a job message without `_project`, `_spider` or `_job` makes `_spawn_process` raise after its wait was used up, so the slot goes out of service (`Launcher.FailedSpawnLosesSlot`).
- `processEnded` does not check that the process started (`csf_scrapyd/launcher.py:121-127`), and neither does the model.
- With `finished_to_keep = 0`, `del finished[:-0]` deletes nothing, so the history is unbounded. With a negative value, it deletes a prefix (`csf_scrapyd/launcher.py:83`). `PyList.KeepLast` models every integer.

## Model

| member | source | states |
|---|---|---|
| Launcher.GetMaxProc | csf_scrapyd/launcher.py:86-94 | A non-zero configured `max_proc` is returned unchanged. Otherwise the result is CPU count × `max_proc_per_cpu`: the factor defaults to 4, and the CPU count falls back to 1 when it cannot be detected. |
| Launcher.MaxProcAtLeastOne | csf_scrapyd/launcher.py:86-94 | With `max_proc` unset (or 0) and a positive CPU count, the pool has at least one slot iff the per-CPU factor is positive. The default configuration gives 4 × CPUs. |
| Launcher.NewLauncher | csf_scrapyd/launcher.py:20-28 | A new launcher has no processes, no history, no calls made and no outstanding waits. Its spider queues are those `get_spider_queues` opened, which is a parameter, and it satisfies the slot invariant. `finished_to_keep` defaults to 100, and the pool size comes from `_get_max_proc`. |
| Launcher.ClearQueues | csf_scrapyd/launcher.py:33-34 | One `clear()` call per spider queue, none twice and none for a project without a queue, in unspecified order. |
| Launcher.ReplayStore | csf_scrapyd/launcher.py:36-40 | The restart replay makes one scheduler call per persisted project. Each call carries that project's stored spider and args. No call is made twice, and nothing else is called. |
| Launcher.StartService | csf_scrapyd/launcher.py:32-43 | `clear()` is called once on every spider queue, before any replayed call is made. The scheduler log gains exactly the replay of the store. Exactly one wait is issued, and left outstanding, for each slot `0..max_proc-1`. Slots, history and pool size are unchanged. Started on a fresh launcher, it leaves every slot with exactly one outstanding wait and the slot invariant established. |
| Launcher.SpawnProcess | csf_scrapyd/launcher.py:54-69 | A message lacking `_project`, `_spider` or `_job` raises KeyError and changes nothing. Otherwise the slot now holds a not-yet-started process whose project, spider, job and message come from the job message, and every other slot is unchanged. |
| Launcher.ProcessFinished | csf_scrapyd/launcher.py:71-84 | A slot with no process raises KeyError. Otherwise exactly that slot is removed. The scheduler log gains the loop policy's re-submission and nothing else. The process, with its end time and rewritten message, is archived under `del finished[:-k]`. The slot is waited on again and its wait is outstanding. A malformed `loop` raises after the pop, with no archive and no new wait. |
| Launcher.OnConnectionMade | csf_scrapyd/launcher.py:117-119 | The slot's process gets the transport pid. No other slot and no other launcher field changes. |
| Launcher.FailureNeverStarvesSlot | csf_scrapyd/launcher.py:65-84 | A clean exit and an abnormal exit both free the slot and re-issue its wait, leaving the same outstanding waits. They make the same scheduler calls and leave the same slot map. |
| Launcher.OnPolled | csf_scrapyd/launcher.py:50-52 | The poller's answer uses up the slot's outstanding wait and runs `_spawn_process`. The process is registered iff the message has `_project`, `_spider` and `_job`; otherwise the KeyError leaves only the used-up wait. An answer for a slot with no outstanding wait changes nothing. |
| Launcher.OnProcessEnded | csf_scrapyd/launcher.py:121-127 | `processEnded` on a running process pops its slot, whatever the exit status. The launcher returns normally iff the loop policy does, and then the slot has a new outstanding wait. For `finished_to_keep ≥ 0`, the newest history entry records the end time and whether the exit was clean. A process still in the map whose Deferred has already fired would raise AlreadyCalledError and change nothing; the slot invariant rules that state out. A repeated end on a freed slot raises KeyError (see Left out). |
| Launcher.Step | csf_scrapyd/launcher.py:50-127 | One reactor event. A poll uses up exactly the wait it answers. A connect changes no slot and no wait. Under the invariant, an exit always frees its slot. |
| Launcher.StepKeepsInvariant | csf_scrapyd/launcher.py:50-84 | Each reactor event keeps the slot invariant. Occupied and waited-on slots stay in `[0, max_proc)`. A running process has not ended. No slot is both occupied and waited on, and no slot has two outstanding waits. The history stays within `finished_to_keep` when that is positive. |
| Launcher.PollKeepsInvariant | csf_scrapyd/launcher.py:50-69 | Answering a wait keeps the slot invariant: the slot's only wait is used up before the slot is occupied. |
| Launcher.EndKeepsInvariant | csf_scrapyd/launcher.py:71-84 | Ending a process keeps the slot invariant, whether it ends cleanly, abnormally, twice or on an unknown slot. The freed slot had no outstanding wait and gets exactly one. |
| Launcher.RunKeepsInvariant | csf_scrapyd/launcher.py:50-84 | Any sequence of reactor events keeps the slot invariant. Together with NewLauncher and StartService, it holds from start-up on. |
| Launcher.StepKeepsCovered | csf_scrapyd/launcher.py:50-84 | An event that raises nothing keeps every slot of the pool either occupied or waited on. |
| Launcher.RunKeepsCovered | csf_scrapyd/launcher.py:50-84 | As long as no callback raises, no slot of the pool is ever lost. |
| Launcher.PollConsumesWait | csf_scrapyd/launcher.py:50-52 | After the poller answers a slot's wait, the slot has no outstanding wait, so a second answer changes nothing and cannot replace the running process. |
| Launcher.FailedSpawnLosesSlot | csf_scrapyd/launcher.py:54-69 | A job message without `_project`, `_spider` or `_job` raises KeyError after its wait was used up. The slot is then neither occupied nor waited on. |
| Launcher.SlotRangeCount | csf_scrapyd/launcher.py:42-43 | `range(max_proc)` names each slot of `[0, max_proc)` exactly once. |
| ProcessProtocol.NewProtocol | csf_scrapyd/launcher.py:98-109 | A new process has no pid, no end time and an unfired Deferred. Its `logfile` and `itemsfile` are `env.get('SCRAPY_LOG_FILE')` and `env.get('SCRAPY_FEED_URI')`. |
| ProcessProtocol.ConnectionMade | csf_scrapyd/launcher.py:117-119 | Sets the pid and nothing else. A not-started process becomes Started. |
| ProcessProtocol.ProcessEnded | csf_scrapyd/launcher.py:121-127 | Fires the Deferred as a success iff the status is ProcessDone, and as a failure otherwise. A Deferred that has already fired raises AlreadyCalledError. |
| ProcessProtocol.EndsExactlyOnce | csf_scrapyd/launcher.py:121-127 | The first end of a process succeeds, and any second end is refused, whatever the statuses. |
| ProcessProtocol.Lifecycle | csf_scrapyd/launcher.py:98-127 | Construction, then `connectionMade`, then `processEnded` goes NotStarted → Started → Ended(status is ProcessDone). The pid is kept throughout. |
| LoopPolicy.LoopValue | csf_scrapyd/launcher.py:75 | `int(msg["loop"])` succeeds exactly on a decimal-integer string and yields the integer it reads. Any other string raises ValueError, and a dictionary raises TypeError. |
| LoopPolicy.Resubmission | csf_scrapyd/launcher.py:74-79 | With no `loop`, nothing is re-submitted. With `loop > 1`, the job is re-submitted with `loop - 1`. With `loop == 0`, it is re-submitted with "0". With 1 or a negative value, nothing is re-submitted. A re-submission changes no field other than `loop`. |
| LoopPolicy.ResubmissionOfWritten | csf_scrapyd/launcher.py:75-78 | A message whose `loop` was written by `str(n)` re-submits according to `n` itself. |
| LoopPolicy.CountdownResubmissions | csf_scrapyd/launcher.py:74-79 | For a job whose `loop` field reads as an integer `n >= 1` (so `" 3"` counts as 3), successive runs re-submit exactly the countdown `n-1, …, 1` and then stop, so the job runs n times. |
| LoopPolicy.CountdownAt | csf_scrapyd/launcher.py:77-78 | The i-th re-submission of a countdown from n is the original message with `loop = str(n-1-i)`. |
| LoopPolicy.EndlessResubmissions | csf_scrapyd/launcher.py:76-79 | Starting from `loop = 0`, every one of N runs re-submits, each time with `loop` written back as 0 and every other field unchanged. |
| LoopPolicy.LoopThree | csf_scrapyd/launcher.py:74-79 | A job whose `loop` was written as 3 re-submits with `loop` written as 2, then as 1, and nothing after that, however many runs follow. |
| PyInt.IntRoundTrip | csf_scrapyd/launcher.py:75-78 | `int(str(n)) == n` for every integer, so the counter written back reads back unchanged. |
| PyInt.NoDigitNoInt | csf_scrapyd/launcher.py:75 | A `loop` value without any decimal digit is rejected. |
| PyList.KeepLast | csf_scrapyd/launcher.py:83 | `del lst[:-k]`: for k ≥ 1, exactly the last min(k, len) elements remain, in order. For k = 0, nothing is deleted. For k < 0, the first -k elements are deleted. Unless k is negative, the newest element survives. |
| PyList.ArchiveAllKeepsMostRecent | csf_scrapyd/launcher.py:82-83 | Archiving finished processes one at a time with k ≥ 1 leaves exactly the k most recent of them, in completion order. |
| PyList.KeepTwoOfThree | csf_scrapyd/launcher.py:82-83 | With `finished_to_keep = 2`, finishing P1, P2 and P3 leaves [P2, P3]. |
| Webservice.SplitFirst | csf_scrapyd/webservice.py:22 | `x.split('=', 1)` finds the first `=`: the name has no `=`, and name + "=" + value rebuilds x. There is no pair iff x has no `=`. |
| Webservice.SplitAtFirstEquals | csf_scrapyd/webservice.py:22 | A setting's value may itself contain `=`. Only the first `=` splits. |
| Webservice.ParseSettings | csf_scrapyd/webservice.py:21-22 | The settings parse iff every setting contains `=`. Otherwise the parse raises ValueError. |
| Webservice.ParsedSettingNames | csf_scrapyd/webservice.py:22 | The parsed dictionary's names are exactly the names the settings mention. |
| Webservice.ParsedSettingValue | csf_scrapyd/webservice.py:22 | Each name maps to the value of its last occurrence. |
| Webservice.FirstValues | csf_scrapyd/webservice.py:23 | Each request argument maps to the first of its values. An argument with no value raises IndexError. |
| Webservice.JobArgs | csf_scrapyd/webservice.py:30-32 | The scheduled arguments keep every request argument except `jobid`. `settings` is the parsed dictionary, which overrides any client value, and `_job` is the job id. |
| Webservice.ScheduleArgs | csf_scrapyd/webservice.py:24-37 | A missing `project` or `spider` raises KeyError. An unknown spider is refused with no call and no store change. Otherwise: exactly one `schedule(project, spider, args)` call is made; the store maps the project to that same `{spider, args}` and other projects are unchanged; `project`, `spider` and `jobid` are consumed while `_version` and all other arguments pass through; the response's job id is the client's `jobid` or the fresh one, and it equals `args['_job']`. |
| Webservice.Schedule | csf_scrapyd/webservice.py:20-37 | A malformed setting is refused first with ValueError. An argument with no value is refused next with IndexError. Otherwise the handler acts as ScheduleArgs. A refusal never schedules or writes the store, and `setting` never reaches the scheduled arguments. |
| Webservice.DeleteSchedulePersist | csf_scrapyd/webservice.py:7-16 | The delete succeeds iff the request names a project that is in the store. Then exactly that key is removed, the other entries are unchanged, and the response echoes the project. An unknown project is refused with the store unchanged. Nothing is ever scheduled. |
| Recovery.ScheduledIsReplayed | csf_scrapyd/webservice.py:34-35 | The entry a successful schedule request persists replays, on the next start, exactly the call that the request made. |
| Recovery.DeletedIsNotReplayed | csf_scrapyd/webservice.py:14 | After a delete, no replay re-submits the deleted project, and every remaining replay is one the old store would have made. |

## Left out

- The Twisted reactor, Deferred chaining and `reactor.spawnProcess` are replaced by explicit events (`Launcher.Event`). The code runs on one thread, so no concurrency is modelled.
- The reactor never answers a slot with no outstanding wait, and never ends a process that is not in the slot map. The model ignores the first such event and raises KeyError on the second.
- Building the child's command line (`get_crawl_args`, `sys.executable`, `runner`) is left out because it is foreign code with no effect on the launcher state.
- `stringify_dict` is taken as the identity, since message values are already strings or dictionaries of strings.
- `get_environment` is a parameter (`env`).
- `datetime.now()` readings are opaque integer parameters.
- `cpu_count()` is a parameter, with `None` standing for NotImplementedError.
- `uuid.uuid1().hex` is a parameter (`freshId`).
- `get_spider_list` is a function parameter. Failures inside it are not modelled.
- `scheduler.schedule`, `get_crawl_args`, `get_environment` and `reactor.spawnProcess` are assumed to succeed. In the code, a raise from any of them has four consequences that the model does not show:
  - in the replay loop of `startService` (`csf_scrapyd/launcher.py:36-40`), it aborts start-up before any slot is waited on (`csf_scrapyd/launcher.py:42-43`);
  - in `_spawn_process` (`csf_scrapyd/launcher.py:58-68`), it loses the slot, whose wait was already used up;
  - at the re-submission in `_process_finished` (`csf_scrapyd/launcher.py:79`), it skips the archive and the re-wait;
  - in `Schedule.render_POST` (`csf_scrapyd/webservice.py:34`), it escapes before the store write (`csf_scrapyd/webservice.py:35`).
- `outReceived`, `errReceived`, `log` and every `log.msg` call only write diagnostics, so they are left out.
- `csf_scrapyd/utils.py` (directory creation and the SQLite-backed dictionary) is replaced by an abstract map (`Store`). Its iteration order is left unspecified by choosing keys with `:|`.
- Launcher.StartService: the contents of the spider queues are not modelled, only the `clear()` calls on them. The scheduler's `schedule` (`csf_scrapyd/launcher.py:40`) enqueues into those same queues, so after start-up a replayed project's queue holds its job; the model records that job in the scheduler log instead.
- Launcher.ProcessFinished: likewise, the re-submission (`csf_scrapyd/launcher.py:79`) adds a job to the project's spider queue. The model records it only in the scheduler log, and the queue records stay unchanged.
- The scheduler and the poller are not implemented. Their calls are logged (`scheduled`, `waits`). Queue order, and which slot receives which job, are left out because they belong to the poller.
- The web-service wrapper turns an exception escaping a handler into an error response. That wrapper is not part of this model: an escaped exception is the refusal `Escaped`.
- `**args` raising TypeError for a keyword that duplicates `project` or `spider` is not modelled. Neither handler nor the poller can produce such a message.
- PyInt.ParseInt: covers Python 2 `int()` on ASCII decimal strings with surrounding whitespace and one sign. Whitespace between the sign and the digits, a trailing `L`, and non-ASCII digits are treated as ValueError.
- Launcher.GetMaxProc: the configuration is given as already-read integers. A non-integer configuration value, which makes `getint` raise, is not modelled.
