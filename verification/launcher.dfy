/** The launcher's slot pool: the occupied-slot map, the bounded history of
    finished processes, the pool size, and the calls the launcher makes on
    its collaborators (the job scheduler and the poller). Each Twisted
    callback is one step from a launcher state to the next. */
module Launcher {
  import opened Common
  import opened PyList
  import opened ProcessProtocol
  import opened LoopPolicy

  datatype LauncherState = LauncherState(
    processes: map<int, Protocol>,         // slot -> running process
    finished: seq<Protocol>,               // history, oldest first
    finishedToKeep: int,
    maxProc: int,
    projects: set<string>,                 // the projects that have a spider queue
    clears: seq<QueueClear>,               // every spider_queue[project].clear() call made, in order
    scheduled: seq<ScheduleCall>,          // every scheduler.schedule call made, in order
    waits: seq<int>,                       // every _wait_for_project(slot) call made, in order
    pending: multiset<int>                 // slots whose poller callback has not fired yet
  )

  /** A `spider_queue[project].clear()` call, made when the scheduler log
      held `scheduledBefore` calls. The queues' contents belong to the
      scheduler and are not part of this model. */
  datatype QueueClear = QueueClear(project: string, scheduledBefore: nat)

  /** `_get_max_proc`: a non-zero configured `max_proc` wins; otherwise the
      CPU count (1 when `cpu_count` raises NotImplementedError, modelled as
      `None`) times `max_proc_per_cpu` (4 when not configured). */
  function GetMaxProc(maxProc: Option<int>, maxProcPerCpu: Option<int>, cpus: Option<int>): (r: int)
    ensures maxProc.GetOr(0) != 0 ==> r == maxProc.value
    ensures maxProc.GetOr(0) == 0 && cpus.None? ==> r == maxProcPerCpu.GetOr(4)
    ensures maxProc.GetOr(0) == 0 && cpus.Some? ==> r == cpus.value * maxProcPerCpu.GetOr(4)
  {
    var configured := maxProc.GetOr(0);
    if configured != 0 then configured
    else
      var n := match cpus case Some(c) => c case None => 1;
      n * maxProcPerCpu.GetOr(4)
  }

  /** With no configured `max_proc` and a positive CPU count (or none
      detected), the pool has at least one slot exactly when the per-CPU
      factor is positive; the default configuration gives `4 * cpus`. */
  lemma MaxProcAtLeastOne(maxProcPerCpu: Option<int>, cpus: Option<int>)
    requires cpus.Some? ==> cpus.value >= 1
    ensures GetMaxProc(None, maxProcPerCpu, cpus) >= 1 <==> maxProcPerCpu.GetOr(4) >= 1
    ensures GetMaxProc(Some(0), maxProcPerCpu, cpus) == GetMaxProc(None, maxProcPerCpu, cpus)
    ensures GetMaxProc(None, None, cpus) == 4 * cpus.GetOr(1)
  {
    var f := maxProcPerCpu.GetOr(4);
    var c := cpus.GetOr(1);
    if f >= 1 {
      assert c * f >= c;
    } else {
      assert c * f <= 0;
    }
  }

  /** `Launcher.__init__`, with the configuration values read by `getint`
      passed in (`None` when the option is absent). */
  function NewLauncher(finishedToKeep: Option<int>, maxProc: Option<int>, maxProcPerCpu: Option<int>,
                       cpus: Option<int>, projects: set<string>): (l: LauncherState)
    ensures l.processes == map[] && l.finished == [] && l.scheduled == [] && l.waits == []
    ensures l.pending == multiset{} && l.clears == [] && l.projects == projects
    ensures l.finishedToKeep == finishedToKeep.GetOr(100)
    ensures l.maxProc == GetMaxProc(maxProc, maxProcPerCpu, cpus)
    ensures Invariant(l)
  {
    LauncherState(map[], [], finishedToKeep.GetOr(100), GetMaxProc(maxProc, maxProcPerCpu, cpus), projects, [], [], [], multiset{})
  }

  /** `range(n)`. */
  function SlotRange(n: int): (r: seq<int>)
    ensures |r| == if n > 0 then n else 0
    ensures forall i :: 0 <= i < |r| ==> r[i] == i
  {
    if n <= 0 then [] else seq(n, i => i)
  }

  /** `range(n)` names each slot of `[0, n)` exactly once. */
  lemma {:induction false} SlotRangeCount(n: int, s: int)
    ensures multiset(SlotRange(n))[s] == if 0 <= s < n then 1 else 0
    decreases n
  {
    if n > 0 {
      assert SlotRange(n) == SlotRange(n - 1) + [n - 1];
      SlotRangeCount(n - 1, s);
    }
  }

  /** The call that replays the persisted entry of `project`. */
  function ReplayCall(project: string, entry: Persisted): ScheduleCall {
    ScheduleCall(Str(project), Str(entry.spider), entry.args)
  }

  /** `c` replays the persisted entry of its own project. */
  predicate IsReplayOf(c: ScheduleCall, store: Store) {
    c.project.Str? && c.project.s in store && c == ReplayCall(c.project.s, store[c.project.s])
  }

  predicate Distinct<T(==)>(s: seq<T>) {
    forall i, j :: 0 <= i < j < |s| ==> s[i] != s[j]
  }

  /** Every occupied slot and every slot waited on lies in `[0, max_proc)`;
      a running process has not ended yet (its Deferred pops it the moment
      it fires); a slot is never both occupied and waited on, and never has
      two outstanding waits; the history holds at most `finished_to_keep`
      processes when that is positive. */
  predicate Invariant(l: LauncherState) {
    && (forall s :: s in l.processes ==> 0 <= s < l.maxProc && l.processes[s].deferred == Unfired)
    && (forall w :: w in l.waits ==> 0 <= w < l.maxProc)
    && (forall s :: s in l.pending ==> 0 <= s < l.maxProc && s !in l.processes && l.pending[s] == 1)
    && (l.finishedToKeep >= 1 ==> |l.finished| <= l.finishedToKeep)
  }

  /** Every slot of the pool is either occupied or waited on. Only an
      exception in a callback takes a slot out of service. */
  predicate Covered(l: LauncherState) {
    forall s :: 0 <= s < l.maxProc ==> s in l.processes || s in l.pending
  }

  /** The replay loop of `startService`: one call per persisted project,
      in the store's own (unspecified) iteration order, none twice. */
  method ReplayStore(store: Store) returns (calls: seq<ScheduleCall>)
    ensures |calls| == |store|
    ensures forall p :: p in store ==> ReplayCall(p, store[p]) in calls
    ensures forall c :: c in calls ==> IsReplayOf(c, store)
    ensures Distinct(calls)
  {
    var remaining := store.Keys;
    var done: set<string> := {};
    calls := [];
    while remaining != {}
      invariant remaining !! done && remaining + done == store.Keys
      invariant |calls| == |done|
      invariant forall c :: c in calls ==> IsReplayOf(c, store) && c.project.s in done
      invariant forall p :: p in done ==> ReplayCall(p, store[p]) in calls
      invariant Distinct(calls)
      decreases |remaining|
    {
      var p :| p in remaining;
      var c := ReplayCall(p, store[p]);
      assert c !in calls;
      calls := calls + [c];
      done := done + {p};
      remaining := remaining - {p};
    }
    assert done == store.Keys;
  }

  /** The clearing loop of `startService`: one `clear()` per spider queue,
      in the queue map's own (unspecified) iteration order, none twice. */
  method ClearQueues(projects: set<string>, scheduledBefore: nat) returns (cs: seq<QueueClear>)
    ensures |cs| == |projects|
    ensures forall p :: p in projects ==> QueueClear(p, scheduledBefore) in cs
    ensures forall c :: c in cs ==> c.project in projects && c.scheduledBefore == scheduledBefore
    ensures Distinct(cs)
  {
    var remaining := projects;
    var done: set<string> := {};
    cs := [];
    while remaining != {}
      invariant remaining !! done && remaining + done == projects
      invariant |cs| == |done|
      invariant forall c :: c in cs ==> c.project in done && c.scheduledBefore == scheduledBefore
      invariant forall p :: p in done ==> QueueClear(p, scheduledBefore) in cs
      invariant Distinct(cs)
      decreases |remaining|
    {
      var p :| p in remaining;
      assert QueueClear(p, scheduledBefore) !in cs;
      cs := cs + [QueueClear(p, scheduledBefore)];
      done := done + {p};
      remaining := remaining - {p};
    }
    assert done == projects;
  }

  /** `startService`: clears every spider queue, replays each entry of the
      persisted store into the scheduler exactly once, then opens `max_proc`
      slots by issuing one wait for each of `0 .. max_proc - 1`. */
  method StartService(l: LauncherState, store: Store) returns (l': LauncherState)
    // Every spider queue is cleared once, before any replayed call is made.
    ensures l'.projects == l.projects && |l'.clears| == |l.clears| + |l.projects|
    ensures l'.clears[..|l.clears|] == l.clears
    ensures forall p :: p in l.projects ==> QueueClear(p, |l.scheduled|) in l'.clears[|l.clears|..]
    ensures forall c :: c in l'.clears[|l.clears|..] ==> c.project in l.projects && c.scheduledBefore == |l.scheduled|
    ensures |l'.scheduled| == |l.scheduled| + |store|
    ensures l'.scheduled[..|l.scheduled|] == l.scheduled
    ensures forall p :: p in store ==> ReplayCall(p, store[p]) in l'.scheduled[|l.scheduled|..]
    ensures forall c :: c in l'.scheduled[|l.scheduled|..] ==> IsReplayOf(c, store)
    ensures Distinct(l'.scheduled[|l.scheduled|..])
    ensures l'.waits == l.waits + SlotRange(l.maxProc)
    ensures l'.pending == l.pending + multiset(SlotRange(l.maxProc))
    ensures l'.processes == l.processes && l'.finished == l.finished
    ensures l'.maxProc == l.maxProc && l'.finishedToKeep == l.finishedToKeep
    // Started on a fresh launcher, every slot has exactly one outstanding wait.
    ensures Invariant(l) && l.processes == map[] && l.pending == multiset{} ==> Invariant(l') && Covered(l')
  {
    var cleared := ClearQueues(l.projects, |l.scheduled|);
    var calls := ReplayStore(store);
    var slots := SlotRange(l.maxProc);
    l' := l.(clears := l.clears + cleared, scheduled := l.scheduled + calls, waits := l.waits + slots,
             pending := l.pending + multiset(slots));
    assert l'.scheduled[|l.scheduled|..] == calls;
    assert l'.scheduled[..|l.scheduled|] == l.scheduled;
    assert l'.clears[|l.clears|..] == cleared;
    forall w | w in l'.waits && w !in l.waits
      ensures 0 <= w < l.maxProc
    {
      var i :| 0 <= i < |l'.waits| && l'.waits[i] == w;
      assert SlotRange(l.maxProc)[i - |l.waits|] == w;
    }
    if Invariant(l) && l.processes == map[] && l.pending == multiset{} {
      forall s | 0 <= s < l.maxProc
        ensures s in l'.pending
      {
        SlotRangeCount(l.maxProc, s);
      }
      forall s | s in l'.pending
        ensures 0 <= s < l.maxProc && l'.pending[s] == 1
      {
        SlotRangeCount(l.maxProc, s);
      }
    }
  }

  /** `_spawn_process(message, slot)`: reads `_project`, `_spider` and `_job`
      (a KeyError, with nothing registered, when one is missing) and
      registers a new process for `slot`, carrying the message. The
      environment `env` and the start time `now` come from collaborators. */
  function SpawnProcess(l: LauncherState, msg: Message, slot: int, env: map<string, string>, now: Timestamp): (r: Outcome<LauncherState>)
    ensures r.Returned? <==> "_project" in msg && "_spider" in msg && "_job" in msg
    ensures r.Raised? ==> r.state == l && r.error.KeyError?
    ensures r.Returned? ==> r.state.processes.Keys == l.processes.Keys + {slot}
    ensures r.Returned? ==>
      var p := r.state.processes[slot];
      && r.state == l.(processes := r.state.processes)
      && (forall s :: s in l.processes && s != slot ==> r.state.processes[s] == l.processes[s])
      && p.slot == slot && p.project == msg["_project"] && p.spider == msg["_spider"] && p.job == msg["_job"]
      && p.msg == Some(msg) && p.env == env && PhaseOf(p) == NotStarted
  {
    if "_project" !in msg then Raised(KeyError("_project"), l)
    else if "_spider" !in msg then Raised(KeyError("_spider"), l)
    else if "_job" !in msg then Raised(KeyError("_job"), l)
    else
      var pp := NewProtocol(slot, msg["_project"], msg["_spider"], msg["_job"], env, now).(msg := Some(msg));
      Returned(l.(processes := l.processes[slot := pp]))
  }

  /** `_process_finished(_, slot)`: pops the slot's process (a KeyError when
      there is none), applies the loop policy, archives the process with its
      end time into the bounded history and waits on the slot again. An
      exception from `int()` on a malformed `loop` leaves the slot popped
      but neither archived nor waited on again. */
  function ProcessFinished(l: LauncherState, slot: int, now: Timestamp): (r: Outcome<LauncherState>)
    ensures slot !in l.processes ==> r == Raised(SlotKeyError(slot), l)
    ensures slot in l.processes ==> r.state.processes == l.processes - {slot}
    ensures r.state.maxProc == l.maxProc && r.state.finishedToKeep == l.finishedToKeep && r.state.clears == l.clears
    ensures r.Returned? <==>
      slot in l.processes && l.processes[slot].msg.Some? && Resubmission(l.processes[slot].msg.value).Success?
    ensures r.Raised? ==>
      r.state.scheduled == l.scheduled && r.state.finished == l.finished && r.state.waits == l.waits
      && r.state.pending == l.pending
    ensures r.Returned? ==>
      var p := l.processes[slot];
      var next := Resubmission(p.msg.value).value;
      && r.state.waits == l.waits + [slot]
      && r.state.pending == l.pending + multiset{slot}
      && (next.None? ==> r.state.scheduled == l.scheduled)
      && (next.Some? ==> r.state.scheduled == l.scheduled + [ScheduleCall(p.project, p.spider, next.value)])
      && r.state.finished == KeepLast(l.finished + [p.(endTime := Some(now), msg := Some(next.GetOr(p.msg.value)))], l.finishedToKeep)
  {
    if slot !in l.processes then Raised(SlotKeyError(slot), l)
    else
      var process := l.processes[slot];
      var popped := l.(processes := l.processes - {slot});
      match process.msg
      case None => Raised(AttributeError("msg"), popped)
      case Some(msg) =>
        match Resubmission(msg)
        case Failure(e) => Raised(e, popped)
        case Success(next) =>
          var calls := if next.Some? then [ScheduleCall(process.project, process.spider, next.value)] else [];
          var done := process.(msg := Some(next.GetOr(msg)), endTime := Some(now));
          Returned(popped.(scheduled := l.scheduled + calls,
                           finished := Archive(l.finished, done, l.finishedToKeep),
                           waits := l.waits + [slot],
                           pending := l.pending + multiset{slot}))
  }

  /** The events the reactor delivers to the launcher. */
  datatype Event =
    | Polled(slot: int, msg: Message, env: map<string, string>, at: Timestamp)  // the poller answered a wait
    | Connected(slot: int, pid: int)                                          // connectionMade
    | Exited(slot: int, status: ExitStatus, at: Timestamp)                    // processEnded

  /** The poller answers the outstanding wait on `slot`: `_wait_for_project`
      made `_spawn_process` the callback of `poller.next()`, so the wait is
      used up and `_spawn_process` runs. The poller answers each wait once;
      an answer for a slot with no outstanding wait cannot arrive, and the
      model ignores it. */
  function OnPolled(l: LauncherState, slot: int, msg: Message, env: map<string, string>, now: Timestamp): (r: Outcome<LauncherState>)
    ensures slot !in l.pending ==> r == Returned(l)
    ensures slot in l.pending ==> r.state.pending == l.pending - multiset{slot}
    ensures slot in l.pending ==> (r.Returned? <==> "_project" in msg && "_spider" in msg && "_job" in msg)
    ensures slot in l.pending && r.Returned? ==>
      && r.state.processes.Keys == l.processes.Keys + {slot}
      && r.state.processes[slot].msg == Some(msg)
      && PhaseOf(r.state.processes[slot]) == NotStarted
    ensures r.Raised? ==> r.state == l.(pending := l.pending - multiset{slot})
  {
    if slot !in l.pending then Returned(l)
    else SpawnProcess(l.(pending := l.pending - multiset{slot}), msg, slot, env, now)
  }

  /** `connectionMade` on the process of `slot`. */
  function OnConnectionMade(l: LauncherState, slot: int, pid: int): (l': LauncherState)
    ensures l'.processes.Keys == l.processes.Keys
    ensures slot in l.processes ==> l'.processes[slot].pid == Some(pid)
    ensures forall s :: s in l.processes && s != slot ==> l'.processes[s] == l.processes[s]
    ensures l' == l.(processes := l'.processes)
  {
    if slot in l.processes then l.(processes := l.processes[slot := ConnectionMade(l.processes[slot], pid)])
    else l
  }

  /** `processEnded` on the process of `slot`: its Deferred fires, as a
      success exactly for ProcessDone, and so runs `_process_finished` for
      the slot whatever the exit status. */
  function OnProcessEnded(l: LauncherState, slot: int, status: ExitStatus, now: Timestamp): (r: Outcome<LauncherState>)
    ensures slot !in l.processes ==> r == Raised(SlotKeyError(slot), l)
    ensures slot in l.processes && l.processes[slot].deferred.Fired? ==> r == Raised(AlreadyCalledError, l)
    ensures slot in l.processes && l.processes[slot].deferred == Unfired ==>
      var p := l.processes[slot];
      && r.state.processes == l.processes - {slot}
      && (r.Returned? <==> p.msg.Some? && Resubmission(p.msg.value).Success?)
      && (r.Returned? ==> r.state.pending == l.pending + multiset{slot} && r.state.waits == l.waits + [slot])
      && (r.Raised? ==> r.state.pending == l.pending && r.state.finished == l.finished)
    // Unless a negative `finished_to_keep` truncates it away, the archived
    // process is the newest in the history and records how it ended.
    ensures r.Returned? && l.finishedToKeep >= 0 ==>
      && r.state.finished != []
      && r.state.finished[|r.state.finished| - 1].deferred == Fired(status.ProcessDone?)
      && r.state.finished[|r.state.finished| - 1].endTime == Some(now)
  {
    if slot !in l.processes then Raised(SlotKeyError(slot), l)
    else
      match ProcessEnded(l.processes[slot], status)
      case Failure(e) => Raised(e, l)
      case Success(p) => ProcessFinished(l.(processes := l.processes[slot := p]), slot, now)
  }

  /** A failed process frees its slot exactly like a successful one: the
      slot is waited on again, and the scheduler calls and the slot map are
      the same for a clean and for an abnormal exit. */
  lemma FailureNeverStarvesSlot(l: LauncherState, slot: int, code: Option<int>, now: Timestamp)
    requires slot in l.processes && l.processes[slot].deferred == Unfired
    requires l.processes[slot].msg.Some? && Resubmission(l.processes[slot].msg.value).Success?
    ensures var ok := OnProcessEnded(l, slot, ProcessDone, now);
      var died := OnProcessEnded(l, slot, ProcessTerminated(code), now);
      && ok.Returned? && died.Returned?
      && died.state.waits == ok.state.waits == l.waits + [slot]
      && died.state.pending == ok.state.pending == l.pending + multiset{slot}
      && died.state.scheduled == ok.state.scheduled
      && died.state.processes == ok.state.processes == l.processes - {slot}
  {
    var p := l.processes[slot];
    var ok := ProcessEnded(p, ProcessDone);
    var died := ProcessEnded(p, ProcessTerminated(code));
    assert ok.Success? && ok.value.msg == p.msg && ok.value.project == p.project && ok.value.spider == p.spider;
    assert died.Success? && died.value.msg == p.msg && died.value.project == p.project && died.value.spider == p.spider;
    var lOk := l.(processes := l.processes[slot := ok.value]);
    var lDied := l.(processes := l.processes[slot := died.value]);
    assert lOk.processes - {slot} == l.processes - {slot} == lDied.processes - {slot};
  }

  /** One event, and the exception it raised if any. An exception does not
      stop the reactor: the state reached when it was raised carries on. */
  function Step(l: LauncherState, e: Event): (r: Outcome<LauncherState>)
    ensures r.state.maxProc == l.maxProc && r.state.finishedToKeep == l.finishedToKeep
    ensures e.Polled? ==> r.state.pending == l.pending - multiset{e.slot}
    ensures e.Polled? && e.slot !in l.pending ==> r == Returned(l)
    ensures e.Connected? ==> r.Returned? && r.state.processes.Keys == l.processes.Keys && r.state.pending == l.pending
    // A running process has an unfired Deferred, so its end always frees the slot.
    ensures e.Exited? && Invariant(l) ==> e.slot !in r.state.processes
  {
    match e
    case Polled(slot, msg, env, at) => OnPolled(l, slot, msg, env, at)
    case Connected(slot, pid) => Returned(OnConnectionMade(l, slot, pid))
    case Exited(slot, status, at) => OnProcessEnded(l, slot, status, at)
  }

  function Run(l: LauncherState, events: seq<Event>): LauncherState
    decreases |events|
  {
    if events == [] then l else Run(Step(l, events[0]).state, events[1..])
  }

  /** No event of `events`, delivered from `l` on, raises. */
  predicate NoneRaise(l: LauncherState, events: seq<Event>)
    decreases |events|
  {
    events == [] || (Step(l, events[0]).Returned? && NoneRaise(Step(l, events[0]).state, events[1..]))
  }

  lemma {:induction false} StepKeepsInvariant(l: LauncherState, e: Event)
    requires Invariant(l)
    ensures Invariant(Step(l, e).state)
  {
    match e
    case Polled(slot, msg, env, at) =>
      PollKeepsInvariant(l, slot, msg, env, at);
    case Connected(slot, pid) =>
    case Exited(slot, status, at) =>
      EndKeepsInvariant(l, slot, status, at);
  }

  /** Answering a wait keeps the invariant: the slot's only wait is used up
      before the slot is occupied. */
  lemma PollKeepsInvariant(l: LauncherState, slot: int, msg: Message, env: map<string, string>, now: Timestamp)
    requires Invariant(l)
    ensures Invariant(OnPolled(l, slot, msg, env, now).state)
  {
    if slot in l.pending {
      var l0 := l.(pending := l.pending - multiset{slot});
      assert slot !in l0.pending;
      assert Invariant(l0);
      var r := SpawnProcess(l0, msg, slot, env, now);
      assert r.state.maxProc == l.maxProc && r.state.waits == l.waits && r.state.finished == l.finished;
      assert r.state.pending == l0.pending;
    }
  }

  /** An exit keeps the invariant: the slot it frees was occupied, so it had
      no outstanding wait and gets exactly one. */
  lemma EndKeepsInvariant(l: LauncherState, slot: int, status: ExitStatus, now: Timestamp)
    requires Invariant(l)
    ensures Invariant(OnProcessEnded(l, slot, status, now).state)
  {
    if slot in l.processes && ProcessEnded(l.processes[slot], status).Success? {
      var p := ProcessEnded(l.processes[slot], status).value;
      var l1 := l.(processes := l.processes[slot := p]);
      var r := ProcessFinished(l1, slot, now);
      assert r.state.processes == l.processes - {slot};
      FreedSlotKeepsInvariant(l, slot, r.state, r.Returned?);
    }
  }

  /** The state after `_process_finished` popped an occupied slot, and,
      when it returned, archived the process and waited on the slot again. */
  lemma FreedSlotKeepsInvariant(l: LauncherState, slot: int, l': LauncherState, rewaited: bool)
    requires Invariant(l) && slot in l.processes
    requires l'.maxProc == l.maxProc && l'.finishedToKeep == l.finishedToKeep
    requires l'.processes == l.processes - {slot}
    requires !rewaited ==> l'.waits == l.waits && l'.pending == l.pending && l'.finished == l.finished
    requires rewaited ==> l'.waits == l.waits + [slot] && l'.pending == l.pending + multiset{slot}
    requires rewaited && l.finishedToKeep >= 1 ==> |l'.finished| <= l.finishedToKeep
    ensures Invariant(l')
  {
    if rewaited {
      assert slot !in l.pending;
      forall s | s in l'.pending
        ensures 0 <= s < l.maxProc && s !in l'.processes && l'.pending[s] == 1
      {
        assert l'.pending[s] == l.pending[s] + if s == slot then 1 else 0;
      }
    }
  }

  /** Whatever the reactor delivers, the invariant holds throughout. */
  lemma {:induction false} RunKeepsInvariant(l: LauncherState, events: seq<Event>)
    requires Invariant(l)
    ensures Invariant(Run(l, events))
    decreases |events|
  {
    if events != [] {
      StepKeepsInvariant(l, events[0]);
      RunKeepsInvariant(Step(l, events[0]).state, events[1..]);
    }
  }

  /** An event that raises nothing keeps every slot in service: a used-up
      wait becomes a process, and a finished process becomes a wait. */
  lemma StepKeepsCovered(l: LauncherState, e: Event)
    requires Covered(l) && Step(l, e).Returned?
    ensures Covered(Step(l, e).state)
  {
    match e
    case Polled(slot, msg, env, at) =>
    case Connected(slot, pid) =>
    case Exited(slot, status, at) =>
      var r := Step(l, e);
      assert slot in l.processes && l.processes[slot].deferred == Unfired;
      assert r.state.pending == l.pending + multiset{slot};
  }

  /** As long as no callback raises, no slot of the pool is ever lost. */
  lemma {:induction false} RunKeepsCovered(l: LauncherState, events: seq<Event>)
    requires Covered(l) && NoneRaise(l, events)
    ensures Covered(Run(l, events))
    decreases |events|
  {
    if events != [] {
      StepKeepsCovered(l, events[0]);
      RunKeepsCovered(Step(l, events[0]).state, events[1..]);
    }
  }

  /** The poller answers a wait once: after one answer the slot has no
      outstanding wait, so a second answer cannot replace the process. */
  lemma PollConsumesWait(l: LauncherState, slot: int, msg: Message, env: map<string, string>, now: Timestamp, later: Event)
    requires Invariant(l) && slot in l.pending && later.Polled? && later.slot == slot
    ensures var l1 := Step(l, Polled(slot, msg, env, now)).state;
      && slot !in l1.pending
      && Step(l1, later) == Returned(l1)
  {
  }

  /** A job message that `_spawn_process` cannot read raises after its wait
      was used up: the slot is then neither occupied nor waited on, and no
      later poll can fill it. */
  lemma FailedSpawnLosesSlot(l: LauncherState, slot: int, msg: Message, env: map<string, string>, now: Timestamp)
    requires Invariant(l) && slot in l.pending
    requires !("_project" in msg && "_spider" in msg && "_job" in msg)
    ensures var r := Step(l, Polled(slot, msg, env, now));
      && r.Raised? && r.error.KeyError?
      && slot !in r.state.processes && slot !in r.state.pending
  {
  }
}
