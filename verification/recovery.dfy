/** How the schedule handlers and the launcher's restart recovery meet in
    the persisted store. */
module Recovery {
  import opened Common
  import Launcher
  import Webservice

  /** The entry a successful schedule request persists replays, on the
      next start, exactly the scheduler call the request made; the entries
      of other projects are untouched. */
  lemma ScheduledIsReplayed(req: Webservice.Request, spiderList: (string, string) -> seq<string>,
                            freshId: string, nodeName: string, store: Store)
    requires Webservice.Schedule(req, spiderList, freshId, nodeName, store).response.Scheduled?
    ensures var r := Webservice.Schedule(req, spiderList, freshId, nodeName, store);
      && |r.calls| == 1 && r.calls[0].project.Str?
      && var project := r.calls[0].project.s;
         && project in r.store
         && Launcher.ReplayCall(project, r.store[project]) == r.calls[0]
         && r.store.Keys == store.Keys + {project}
         && forall p :: p in store && p != project ==> r.store[p] == store[p]
  {
  }

  /** After a successful delete, no replay re-submits the deleted project. */
  lemma DeletedIsNotReplayed(req: Webservice.Request, nodeName: string, store: Store, c: ScheduleCall)
    requires Webservice.DeleteSchedulePersist(req, nodeName, store).response.Deleted?
    requires Launcher.IsReplayOf(c, Webservice.DeleteSchedulePersist(req, nodeName, store).store)
    ensures c.project != Str(Webservice.DeleteSchedulePersist(req, nodeName, store).response.project)
    ensures Launcher.IsReplayOf(c, store)
  {
  }
}
