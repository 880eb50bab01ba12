/** Values shared by the launcher and the web-service handlers: optional
    values, results, the Python exceptions the modelled code can raise, job
    messages, scheduler calls and the persisted schedule store. */
module Common {

  datatype Option<T> = None | Some(value: T) {
    /** The value, or `default` when there is none (Python's `d.get(k, default)`). */
    function GetOr(default: T): T {
      match this
      case Some(v) => v
      case None => default
    }
  }

  datatype Result<T, E> = Success(value: T) | Failure(error: E)

  /** The Python exceptions the modelled code can raise. */
  datatype PyError =
    | KeyError(key: string)        // `d[k]` or `d.pop(k)` on a missing string key
    | SlotKeyError(slot: int)      // `processes.pop(slot)` on a slot with no process
    | IndexError                   // `v[0]` on an empty list of request values
    | ValueError                   // `int(s)` on a non-numeric string, `dict(...)` on a one-element split
    | TypeError                    // `int(d)` on a dictionary
    | AttributeError(name: string) // reading an attribute that was never set
    | AlreadyCalledError           // firing a Deferred a second time

  /** The outcome of a Python method that mutates state and may raise: the
      state is the one reached when the method returned or when it raised. */
  datatype Outcome<S> = Returned(state: S) | Raised(error: PyError, state: S)

  /** A job-message value: request values are strings, except `settings`,
      which the schedule handler stores as a dictionary. */
  datatype Value = Str(s: string) | Dict(entries: map<string, string>)

  /** A job message, also the keyword arguments of a scheduler call. */
  type Message = map<string, Value>

  /** One call `scheduler.schedule(project, spider, **args)`. */
  datatype ScheduleCall = ScheduleCall(project: Value, spider: Value, args: Message)

  /** One entry `{"spider": spider, "args": args}` of the persisted schedule store. */
  datatype Persisted = Persisted(spider: string, args: Message)

  /** The persisted schedule store, keyed by project name. */
  type Store = map<string, Persisted>
}
