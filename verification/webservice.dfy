/** The two HTTP handlers that feed the launcher: `schedule.json`, which
    schedules a crawl and records it in the persisted store, and the
    handler that deletes a project's persisted entry. Each is a pure
    transformation from the request arguments and the store to a response,
    the scheduler calls it makes and the new store. */
module Webservice {
  import opened Common

  /** `txrequest.args`: each argument name with the list of its values. */
  type Request = map<string, seq<string>>

  /** Why a request was refused; `Escaped` is an exception the handler let
      escape, which the web-service wrapper turns into an error response. */
  datatype Refusal = SpiderNotFound(spider: string) | ProjectNotFound(project: string) | Escaped(error: PyError)

  datatype Response =
    | Scheduled(nodeName: string, jobid: string)   // {"status": "ok", "jobid": ...}
    | Deleted(nodeName: string, project: string)   // {"status": "ok", "project": ...}
    | Refused(reason: Refusal)                     // {"status": "error", ...}

  datatype Handled = Handled(response: Response, calls: seq<ScheduleCall>, store: Store)

  /** `x.split(sep, 1)` seen as a pair: `None` when `sep` does not occur. */
  function SplitFirst(x: string, sep: char): (r: Option<(string, string)>)
    ensures r.None? <==> sep !in x
    ensures r.Some? ==> sep !in r.value.0 && x == r.value.0 + [sep] + r.value.1
  {
    if x == [] then None
    else if x[0] == sep then Some(([], x[1..]))
    else
      match SplitFirst(x[1..], sep)
      case None => None
      case Some((k, v)) => Some(([x[0]] + k, v))
  }

  /** The name part of a setting `name=value`. */
  function SettingName(x: string): string
    requires '=' in x
  {
    SplitFirst(x, '=').value.0
  }

  /** The value part of a setting `name=value`, which may itself hold `=`. */
  function SettingValue(x: string): string
    requires '=' in x
  {
    SplitFirst(x, '=').value.1
  }

  /** `dict(x.split('=', 1) for x in settings)`: a ValueError when some
      setting has no `=`; otherwise each name maps to the value of its last
      occurrence. */
  function ParseSettings(settings: seq<string>): (r: Result<map<string, string>, PyError>)
    ensures r.Success? <==> forall i :: 0 <= i < |settings| ==> '=' in settings[i]
    ensures r.Failure? ==> r.error == ValueError
    decreases |settings|
  {
    if settings == [] then Success(map[])
    else
      var last := settings[|settings| - 1];
      match ParseSettings(settings[..|settings| - 1])
      case Failure(e) => Failure(e)
      case Success(d) =>
        match SplitFirst(last, '=')
        case None => Failure(ValueError)
        case Some((k, v)) => Success(d[k := v])
  }

  /** Setting `i` is well formed and no later setting has the same name. */
  predicate LastWithName(settings: seq<string>, i: int)
    requires 0 <= i < |settings|
  {
    '=' in settings[i] &&
    forall j :: i < j < |settings| ==> '=' !in settings[j] || SettingName(settings[j]) != SettingName(settings[i])
  }

  /** Parsing one more setting adds its name and value to the dictionary. */
  lemma ParseSettingsSnoc(settings: seq<string>)
    requires settings != [] && ParseSettings(settings).Success?
    ensures var n := |settings| - 1;
      && ParseSettings(settings[..n]).Success?
      && '=' in settings[n]
      && ParseSettings(settings).value ==
           ParseSettings(settings[..n]).value[SettingName(settings[n]) := SettingValue(settings[n])]
  {
  }

  /** The names of a successfully parsed list of settings are exactly the
      names it mentions. */
  lemma {:induction false} ParsedSettingNames(settings: seq<string>, k: string)
    requires ParseSettings(settings).Success?
    ensures k in ParseSettings(settings).value <==> Names(settings, k)
    decreases |settings|
  {
    if settings != [] {
      var n := |settings| - 1;
      ParseSettingsSnoc(settings);
      ParsedSettingNames(settings[..n], k);
      NamesSnoc(settings, k);
    }
  }

  /** Some well-formed setting in `settings` is named `k`. */
  predicate Names(settings: seq<string>, k: string) {
    exists i :: 0 <= i < |settings| && '=' in settings[i] && SettingName(settings[i]) == k
  }

  lemma NamesSnoc(settings: seq<string>, k: string)
    requires settings != [] && '=' in settings[|settings| - 1]
    ensures var n := |settings| - 1;
      Names(settings, k) <==> Names(settings[..n], k) || SettingName(settings[n]) == k
  {
    var n := |settings| - 1;
    var init := settings[..n];
    if Names(init, k) {
      var i :| 0 <= i < |init| && '=' in init[i] && SettingName(init[i]) == k;
      assert settings[i] == init[i];
    }
    if Names(settings, k) && SettingName(settings[n]) != k {
      var i :| 0 <= i < |settings| && '=' in settings[i] && SettingName(settings[i]) == k;
      assert init[i] == settings[i];
    }
  }

  /** In a successfully parsed list of settings, a name maps to the value
      of its last occurrence: later settings override earlier ones. */
  lemma {:induction false} ParsedSettingValue(settings: seq<string>, i: int)
    requires ParseSettings(settings).Success?
    requires 0 <= i < |settings| && LastWithName(settings, i)
    ensures SettingName(settings[i]) in ParseSettings(settings).value
    ensures ParseSettings(settings).value[SettingName(settings[i])] == SettingValue(settings[i])
    decreases |settings|
  {
    var n := |settings| - 1;
    var init := settings[..n];
    ParseSettingsSnoc(settings);
    if i < n {
      assert settings[i] == init[i];
      assert LastWithName(init, i) by {
        forall j | i < j < |init|
          ensures '=' !in init[j] || SettingName(init[j]) != SettingName(init[i])
        {
          assert init[j] == settings[j];
        }
      }
      ParsedSettingValue(init, i);
    }
  }

  /** `dict((k, v[0]) for k, v in args.items())`: an IndexError when some
      argument has no value. */
  function FirstValues(args: Request): (r: Result<map<string, string>, PyError>)
    ensures r.Success? <==> forall k :: k in args ==> args[k] != []
    ensures r.Failure? ==> r.error == IndexError
    ensures r.Success? ==> r.value.Keys == args.Keys && forall k :: k in args ==> r.value[k] == args[k][0]
  {
    if exists k :: k in args && args[k] == [] then Failure(IndexError)
    else Success(map k | k in args :: args[k][0])
  }

  /** Strings as message values. */
  function Lift(args: map<string, string>): (m: Message)
    ensures m.Keys == args.Keys && forall k :: k in args ==> m[k] == Str(args[k])
  {
    map k | k in args :: Str(args[k])
  }

  /** The request arguments the schedule handler consumes or overwrites. */
  predicate Reserved(k: string) {
    k == "project" || k == "spider" || k == "jobid" || k == "settings" || k == "_job"
  }

  /** The scheduled arguments: the request's own, with the parsed
      `settings` set, `jobid` popped and `_job` set to the job id. */
  function JobArgs(args: map<string, string>, settings: map<string, string>, jobid: string): (m: Message)
    ensures m.Keys == (args.Keys - {"jobid"}) + {"settings", "_job"}
    ensures forall k :: k in args && k !in {"jobid", "settings", "_job"} ==> m[k] == Str(args[k])
    ensures m["settings"] == Dict(settings) && m["_job"] == Str(jobid)
  {
    (Lift(args)["settings" := Dict(settings)] - {"jobid"})["_job" := Str(jobid)]
  }

  /** `txrequest.args.pop('setting', [])`, parsed. */
  function SettingsParsed(req: Request): Result<map<string, string>, PyError> {
    ParseSettings(if "setting" in req then req["setting"] else [])
  }

  /** `Schedule.render_POST` from the point where the settings are parsed
      and `args` holds the first value of every other request argument. */
  function ScheduleArgs(first: map<string, string>, settings: map<string, string>,
                        spiderList: (string, string) -> seq<string>, freshId: string,
                        nodeName: string, store: Store): (r: Handled)
    ensures r.response.Refused? ==> r.calls == [] && r.store == store
    ensures "project" !in first ==> r.response == Refused(Escaped(KeyError("project")))
    ensures "project" in first && "spider" !in first ==> r.response == Refused(Escaped(KeyError("spider")))
    ensures r.response.Scheduled? ==>
      && "project" in first && "spider" in first
      && |r.calls| == 1
      && var project := first["project"];
         var spider := first["spider"];
         var args := r.calls[0].args;
         && spider in spiderList(project, if "_version" in first then first["_version"] else "")
         // exactly one scheduler call, and the store now holds that very call for the project
         && r.calls == [ScheduleCall(Str(project), Str(spider), args)]
         && r.store == store[project := Persisted(spider, args)]
         // the reserved arguments are consumed; every other one is passed on
         && args.Keys == (first.Keys - {"project", "spider", "jobid"}) + {"settings", "_job"}
         && (forall k :: k in first && !Reserved(k) ==> args[k] == Str(first[k]))
         // the parsed settings replace any client-supplied `settings`
         && args["settings"] == Dict(settings)
         // the job id: the client's `jobid` if given, else the fresh one, and it is `_job`
         && r.response == Scheduled(nodeName, if "jobid" in first then first["jobid"] else freshId)
         && args["_job"] == Str(r.response.jobid)
    ensures "project" in first && "spider" in first ==>
      var version := if "_version" in first then first["_version"] else "";
      (r.response.Scheduled? <==> first["spider"] in spiderList(first["project"], version))
  {
    if "project" !in first then Handled(Refused(Escaped(KeyError("project"))), [], store)
    else
      var project := first["project"];
      var args1 := first - {"project"};
      if "spider" !in args1 then Handled(Refused(Escaped(KeyError("spider"))), [], store)
      else
        var spider := args1["spider"];
        var args2 := args1 - {"spider"};
        var version := if "_version" in args2 then args2["_version"] else "";
        if spider !in spiderList(project, version) then Handled(Refused(SpiderNotFound(spider)), [], store)
        else
          var jobid := if "jobid" in args2 then args2["jobid"] else freshId;
          var args := JobArgs(args2, settings, jobid);
          Handled(Scheduled(nodeName, jobid), [ScheduleCall(Str(project), Str(spider), args)],
                  store[project := Persisted(spider, args)])
  }

  /** `Schedule.render_POST`. `spiderList(project, version)` stands for
      `get_spider_list` and `freshId` for `uuid.uuid1().hex`. A malformed
      setting is refused before anything else is looked at; `setting` is
      never passed on as an argument. */
  function Schedule(req: Request, spiderList: (string, string) -> seq<string>, freshId: string,
                    nodeName: string, store: Store): (r: Handled)
    ensures r.response.Refused? ==> r.calls == [] && r.store == store
    ensures SettingsParsed(req).Failure? ==> r.response == Refused(Escaped(ValueError))
    ensures SettingsParsed(req).Success? && FirstValues(req - {"setting"}).Failure? ==>
      r.response == Refused(Escaped(IndexError))
    ensures SettingsParsed(req).Success? && FirstValues(req - {"setting"}).Success? ==>
      r == ScheduleArgs(FirstValues(req - {"setting"}).value, SettingsParsed(req).value,
                        spiderList, freshId, nodeName, store)
    ensures r.response.Scheduled? ==> |r.calls| == 1 && "setting" !in r.calls[0].args
  {
    match SettingsParsed(req)
    case Failure(e) => Handled(Refused(Escaped(e)), [], store)
    case Success(settings) =>
      match FirstValues(req - {"setting"})
      case Failure(e) => Handled(Refused(Escaped(e)), [], store)
      case Success(first) => ScheduleArgs(first, settings, spiderList, freshId, nodeName, store)
  }

  /** `DeleteSchedulePersist.render_POST`: removes the persisted entry of
      the requested project, and nothing else. */
  function DeleteSchedulePersist(req: Request, nodeName: string, store: Store): (r: Handled)
    ensures r.calls == []
    ensures r.response.Refused? ==> r.store == store
    ensures r.response.Deleted? <==>
      FirstValues(req).Success? && "project" in req && req["project"][0] in store
    ensures r.response.Deleted? ==>
      var project := req["project"][0];
      && r.response == Deleted(nodeName, project)
      && r.store.Keys == store.Keys - {project}
      && forall p :: p in r.store ==> r.store[p] == store[p]
    ensures FirstValues(req).Success? && "project" in req && req["project"][0] !in store ==>
      r.response == Refused(ProjectNotFound(req["project"][0]))
  {
    match FirstValues(req)
    case Failure(e) => Handled(Refused(Escaped(e)), [], store)
    case Success(args) =>
      if "project" !in args then Handled(Refused(Escaped(KeyError("project"))), [], store)
      else
        var project := args["project"];
        if project !in store then Handled(Refused(ProjectNotFound(project)), [], store)
        else Handled(Deleted(nodeName, project), [], store - {project})
  }

  /** A setting value may itself contain `=`: only the first `=` splits. */
  lemma {:induction false} SplitAtFirstEquals(name: string, value: string)
    requires '=' !in name
    ensures SplitFirst(name + "=" + value, '=') == Some((name, value))
    decreases |name|
  {
    var x := name + "=" + value;
    if name != [] {
      assert x[0] == name[0];
      assert x[1..] == name[1..] + "=" + value;
      SplitAtFirstEquals(name[1..], value);
      assert [name[0]] + name[1..] == name;
    }
  }
}
