/** The lifecycle of one spawned crawl process (`ScrapyProcessProtocol`):
    created with no pid, given its pid when the OS reports it started, and
    ended exactly once, as a success when the exit was clean and as a
    failure otherwise. */
module ProcessProtocol {
  import opened Common

  /** A `datetime.now()` reading, taken as an opaque number. */
  type Timestamp = int

  /** The state of the process's `Deferred`. */
  datatype Deferred = Unfired | Fired(succeeded: bool)

  /** `status.value` in `processEnded`: Twisted's ProcessDone for a clean
      exit, ProcessTerminated (with the exit code when there is one) for
      any other end. */
  datatype ExitStatus = ProcessDone | ProcessTerminated(exitCode: Option<int>)

  datatype Protocol = Protocol(
    slot: int,
    pid: Option<int>,
    project: Value,
    spider: Value,
    job: Value,
    startTime: Timestamp,
    endTime: Option<Timestamp>,
    env: map<string, string>,
    logfile: Option<string>,
    itemsfile: Option<string>,
    deferred: Deferred,
    msg: Option<Message>    // attached by the launcher right after construction
  )

  datatype Phase = NotStarted | Started | Ended(succeeded: bool)

  /** Where a process is in its lifecycle. */
  function PhaseOf(p: Protocol): Phase {
    match p.deferred
    case Fired(ok) => Ended(ok)
    case Unfired => if p.pid.Some? then Started else NotStarted
  }

  /** `env.get(key)`. */
  function EnvGet(env: map<string, string>, key: string): (r: Option<string>)
    ensures r.Some? <==> key in env
    ensures key in env ==> r.value == env[key]
  {
    if key in env then Some(env[key]) else None
  }

  /** `ScrapyProcessProtocol(slot, project, spider, job, env)` at time `now`. */
  function NewProtocol(slot: int, project: Value, spider: Value, job: Value,
                       env: map<string, string>, now: Timestamp): (p: Protocol)
    ensures PhaseOf(p) == NotStarted && p.pid.None? && p.endTime.None?
    ensures p.slot == slot && p.project == project && p.spider == spider && p.job == job
    ensures p.startTime == now && p.env == env && p.msg.None?
    ensures p.logfile.Some? <==> "SCRAPY_LOG_FILE" in env
    ensures p.logfile.Some? ==> p.logfile.value == env["SCRAPY_LOG_FILE"]
    ensures p.itemsfile.Some? <==> "SCRAPY_FEED_URI" in env
    ensures p.itemsfile.Some? ==> p.itemsfile.value == env["SCRAPY_FEED_URI"]
  {
    Protocol(slot, None, project, spider, job, now, None, env,
             EnvGet(env, "SCRAPY_LOG_FILE"), EnvGet(env, "SCRAPY_FEED_URI"),
             Unfired, None)
  }

  /** `connectionMade`: the process's pid becomes known; nothing else changes. */
  function ConnectionMade(p: Protocol, transportPid: int): (p': Protocol)
    ensures p'.pid == Some(transportPid)
    ensures PhaseOf(p) != NotStarted ==> PhaseOf(p') == PhaseOf(p)
    ensures PhaseOf(p) == NotStarted ==> PhaseOf(p') == Started
    ensures p' == p.(pid := p'.pid)
  {
    p.(pid := Some(transportPid))
  }

  /** `processEnded`: fires the Deferred, as a success exactly when the
      status is ProcessDone. A Deferred fires at most once, so a second
      end raises AlreadyCalledError. */
  function ProcessEnded(p: Protocol, status: ExitStatus): (r: Result<Protocol, PyError>)
    ensures r.Success? <==> p.deferred == Unfired
    ensures r.Failure? ==> r.error == AlreadyCalledError
    ensures r.Success? ==> PhaseOf(r.value) == Ended(status == ProcessDone)
    ensures r.Success? ==> r.value == p.(deferred := r.value.deferred)
  {
    if p.deferred.Fired? then Failure(AlreadyCalledError)
    else Success(p.(deferred := Fired(status.ProcessDone?)))
  }

  /** The Deferred resolves exactly once: once a process has ended, any
      further end is refused, whatever its status. */
  lemma EndsExactlyOnce(p: Protocol, first: ExitStatus, second: ExitStatus)
    requires PhaseOf(p) != Ended(true) && PhaseOf(p) != Ended(false)
    ensures ProcessEnded(p, first).Success?
    ensures ProcessEnded(ProcessEnded(p, first).value, second) == Failure(AlreadyCalledError)
  {
  }

  /** A freshly constructed process goes NotStarted -> Started -> Ended,
      ending as a success iff its status is ProcessDone. */
  lemma Lifecycle(slot: int, project: Value, spider: Value, job: Value,
                  env: map<string, string>, now: Timestamp, pid: int, status: ExitStatus)
    ensures var p0 := NewProtocol(slot, project, spider, job, env, now);
      var p1 := ConnectionMade(p0, pid);
      && PhaseOf(p0) == NotStarted
      && PhaseOf(p1) == Started
      && ProcessEnded(p1, status).Success?
      && PhaseOf(ProcessEnded(p1, status).value) == Ended(status.ProcessDone?)
      && ProcessEnded(p1, status).value.pid == Some(pid)
  {
  }
}
