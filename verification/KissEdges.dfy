/** What every handler of the KISS actors leaves behind, for every box: the whole
    transition relation, spelled out in the records themselves. */
module KissEdges {
  import opened Results
  import opened KissBox
  import opened KissWorld
  import opened KissSafety

  // ------------------------------------------------------------ who may join

  predicate IsIn(w: World, id: Uuid, s: State) {
    id in w.boxes && w.boxes[id].status.Some? && w.boxes[id].status.value.state == s
  }

  /** A control plane of the cluster. */
  predicate Plane(w: World, id: Uuid, cluster: string) {
    id in w.boxes && w.boxes[id].group.cluster == cluster && w.boxes[id].group.role == ControlPlane
  }

  /** The box was created earlier, or at the same time under a smaller name. */
  predicate IsOlder(w: World, a: Uuid, b: Uuid)
    requires a in w.boxes && b in w.boxes
  {
    w.boxes[a].created < w.boxes[b].created || (w.boxes[a].created == w.boxes[b].created && a < b)
  }

  /** A control plane may join when all control planes of its cluster are ready or running
      and it is the oldest that does not run; any other box when all control planes run,
      and there are some unless the cluster is the default one. */
  ghost predicate MayJoin(w: World, id: Uuid)
    requires id in w.boxes
  {
    var cluster := w.boxes[id].group.cluster;
    if w.boxes[id].group.role == ControlPlane then
      && (forall p :: Plane(w, p, cluster) ==> IsIn(w, p, Ready) || IsIn(w, p, Running))
      && !IsIn(w, id, Running)
      && (forall p :: Plane(w, p, cluster) && !IsIn(w, p, Running) && p != id ==> IsOlder(w, id, p))
    else
      && (forall p :: Plane(w, p, cluster) ==> IsIn(w, p, Running))
      && (cluster == "default" || exists p :: Plane(w, p, cluster))
  }

  lemma JoinableExactly(w: World, id: Uuid)
    requires id in w.boxes
    ensures IsJoinable(w, id, w.boxes[id].group) <==> MayJoin(w, id)
  {
    var cluster := w.boxes[id].group.cluster;
    CountsMeanAll(w, cluster);
    assert forall p :: p in ControlPlanes(w, cluster) <==> Plane(w, p, cluster);
    assert forall p, s :: InState(w, p, s) <==> IsIn(w, p, s);
    if p :| Plane(w, p, cluster) {
      assert p in ControlPlanes(w, cluster);
    }
  }

  /** A control plane whose cluster has none running. */
  ghost predicate Founds(w: World, id: Uuid)
    requires id in w.boxes
  {
    w.boxes[id].group.role == ControlPlane && forall p :: Plane(w, p, w.boxes[id].group.cluster) ==> !IsIn(w, p, Running)
  }

  // ---------------------------------------------------------------- records

  function StateOf(b: BoxCrd): State {
    match b.status case None => New case Some(status) => status.state
  }

  function AccessOf(b: BoxCrd): bool {
    match b.status case None => false case Some(status) => status.access
  }

  function BindOf(b: BoxCrd): Option<Group> {
    match b.status case None => None case Some(status) => status.bindGroup
  }

  function Since(b: BoxCrd): Time {
    match b.status case None => b.created case Some(status) => status.updated
  }

  /** The box has this status now, and nothing else about the boxes has changed. */
  ghost predicate Becomes(w: World, w': World, id: Uuid, status: Status)
    requires id in w.boxes
  {
    && w'.boxes.Keys == w.boxes.Keys
    && w'.boxes[id] == BoxCrd(w.boxes[id].created, w.boxes[id].group, Some(status))
    && forall other :: other in w.boxes && other != id ==> w'.boxes[other] == w.boxes[other]
  }

  /** Only the critical jobs of the box are left, and the jobs of other boxes. */
  ghost predicate Cleared(w: World, w': World, id: Uuid) {
    forall j :: j in w'.jobs <==> j in w.jobs && (j.owner != id || j.critical)
  }

  /** The same, and a new job that leaves this state behind when it succeeds. */
  ghost predicate Restarted(w: World, w': World, id: Uuid, completed: Option<State>, hourly: bool)
    requires id in w.boxes
  {
    forall j :: j in w'.jobs <==>
                || (j in w.jobs && (j.owner != id || j.critical))
                || (&& j.owner == id && !j.critical && j.outcome == Pending
                    && j.completed == completed && j.cron == hourly
                    && j.isNew == Founds(w, id) && j.cluster == w.boxes[id].group.cluster)
  }

  lemma SpawnedExactly(w: World, id: Uuid, state: State)
    requires id in w.boxes
    ensures var (w', ok) := Spawned(w, id, state);
            && ok == (state == Joining ==> MayJoin(w, id))
            && w'.boxes == w.boxes
            && if ok then Restarted(w, w', id, Complete(state), HasCron(state)) else Cleared(w, w', id)
  {
    JoinableExactly(w, id);
    var cluster := w.boxes[id].group.cluster;
    assert forall p :: p in ControlPlanes(w, cluster) <==> Plane(w, p, cluster);
    assert forall p :: p in RunningOf(w, cluster) <==> Plane(w, p, cluster) && IsIn(w, p, Running);
    assert IsNew(w, id, w.boxes[id].group) <==> Founds(w, id);
    var job := NewJob(w, id, state);
    assert forall j :: j == job <==>
             && j.owner == id && !j.critical && j.outcome == Pending && j.completed == Complete(state)
             && j.cron == HasCron(state) && j.isNew == Founds(w, id) && j.cluster == cluster;
  }

  // ------------------------------------------------------------ the operator

  /** External workers do not join, nor do generic workers of the default cluster when
      it is disabled. */
  predicate StaysOut(cfg: Config, group: Group) {
    group.role == ExternalWorker
    || (group.role == GenericWorker && group.cluster == "default" && !cfg.enableDefaultCluster)
  }

  /** What a reconcile does to a box in each state. */
  ghost predicate IsReconciled(cfg: Config, w: World, w': World, id: Uuid, now: Time)
    requires id in w.boxes
  {
    var b := w.boxes[id];
    var kept := (s: State) => Status(s, AccessOf(b), BindOf(b), now);
    match StateOf(b)
    case New =>
      if AccessOf(b) then Becomes(w, w', id, kept(Commissioning)) && Restarted(w, w', id, None, false)
      else if now <= Since(b) + 30 then w' == w
      else Becomes(w, w', id, kept(Disconnected)) && Restarted(w, w', id, None, true)
    case Commissioning =>
      if now <= Since(b) + 7200 then w' == w
      else Becomes(w, w', id, kept(Failed)) && Restarted(w, w', id, None, true)
    case Ready =>
      if StaysOut(cfg, b.group) then w' == w
      else if BindOf(b) == Some(b.group) then Becomes(w, w', id, kept(Running)) && w'.jobs == w.jobs
      else if MayJoin(w, id) then
        && Becomes(w, w', id, Status(Joining, AccessOf(b), Some(b.group), now))
        && Restarted(w, w', id, Some(Running), false)
      else w'.boxes == w.boxes && Cleared(w, w', id)
    case Joining =>
      if now <= Since(b) + 7200 then w' == w
      else Becomes(w, w', id, kept(Failed)) && Restarted(w, w', id, None, true)
    case Running =>
      && Restarted(w, w', id, None, true)
      && if BindOf(b) == Some(b.group) then w'.boxes == w.boxes else Becomes(w, w', id, kept(Disconnected))
    case _ => w'.boxes == w.boxes && Restarted(w, w', id, None, true)
  }

  lemma NewExactly(cfg: Config, w: World, id: Uuid, now: Time)
    requires id in w.boxes && StateOf(w.boxes[id]) == New
    ensures IsReconciled(cfg, w, Reconciled(cfg, w, id, now), id, now)
  {
    SpawnedExactly(w, id, Commissioning);
    SpawnedExactly(w, id, Disconnected);
  }

  lemma WaitingExactly(cfg: Config, w: World, id: Uuid, now: Time)
    requires id in w.boxes && (StateOf(w.boxes[id]) == Commissioning || StateOf(w.boxes[id]) == Joining)
    ensures IsReconciled(cfg, w, Reconciled(cfg, w, id, now), id, now)
  {
    SpawnedExactly(w, id, Failed);
  }

  lemma QueuedExactly(cfg: Config, w: World, id: Uuid, now: Time)
    requires id in w.boxes && StateOf(w.boxes[id]) == Ready
    requires !StaysOut(cfg, w.boxes[id].group) && BindOf(w.boxes[id]) != Some(w.boxes[id].group)
    ensures IsReconciled(cfg, w, Reconciled(cfg, w, id, now), id, now)
  {
    SpawnedExactly(w, id, Joining);
    var b := w.boxes[id];
    var spawned := Spawned(w, id, Joining);
    assert Reconciled(cfg, w, id, now) ==
           if spawned.1 then WithStatus(spawned.0, id, Status(Joining, AccessOf(b), Some(b.group), now)) else spawned.0;
  }

  lemma ReadyExactly(cfg: Config, w: World, id: Uuid, now: Time)
    requires id in w.boxes && StateOf(w.boxes[id]) == Ready
    ensures IsReconciled(cfg, w, Reconciled(cfg, w, id, now), id, now)
  {
    if !StaysOut(cfg, w.boxes[id].group) && BindOf(w.boxes[id]) != Some(w.boxes[id].group) {
      QueuedExactly(cfg, w, id, now);
    }
  }

  lemma RunningExactly(cfg: Config, w: World, id: Uuid, now: Time)
    requires id in w.boxes && StateOf(w.boxes[id]) == Running
    ensures IsReconciled(cfg, w, Reconciled(cfg, w, id, now), id, now)
  {
    SpawnedExactly(w, id, Running);
    SpawnedExactly(w, id, Disconnected);
  }

  lemma LostExactly(cfg: Config, w: World, id: Uuid, now: Time)
    requires id in w.boxes && StateOf(w.boxes[id]) in {GroupChanged, Failed, Disconnected}
    ensures IsReconciled(cfg, w, Reconciled(cfg, w, id, now), id, now)
  {
    SpawnedExactly(w, id, StateOf(w.boxes[id]));
  }

  lemma ReconcileExactly(cfg: Config, w: World, id: Uuid, now: Time)
    requires id in w.boxes
    ensures IsReconciled(cfg, w, Reconciled(cfg, w, id, now), id, now)
  {
    match StateOf(w.boxes[id])
    case New => NewExactly(cfg, w, id, now);
    case Commissioning => WaitingExactly(cfg, w, id, now);
    case Ready => ReadyExactly(cfg, w, id, now);
    case Joining => WaitingExactly(cfg, w, id, now);
    case Running => RunningExactly(cfg, w, id, now);
    case _ => LostExactly(cfg, w, id, now);
  }

  // ------------------------------------------------- the monitor and the gateway

  /** What the monitor does with a job: a success writes the state the job leaves behind,
      a failure writes `Failed`; access and binding stay. */
  lemma MonitorExactly(w: World, j: Job, now: Time)
    ensures var w' := Monitored(w, j, now);
            var written := if j.critical || j.outcome == Pending then None
                           else if j.outcome == Succeeded then j.completed
                           else Some(Failed);
            if written.Some? && j.owner in w.boxes then
              var b := w.boxes[j.owner];
              Becomes(w, w', j.owner, Status(written.value, AccessOf(b), BindOf(b), now)) && w'.jobs == w.jobs
            else w' == w
  {
  }

  /** What booting into the installer does: a known box starts over with its binding, and
      an unknown one appears as a generic worker of the default cluster. */
  lemma RegisterExactly(w: World, id: Uuid, now: Time)
    ensures var w' := Registered(w, id, now);
            && w'.jobs == w.jobs
            && if id in w.boxes then Becomes(w, w', id, Status(New, true, BindOf(w.boxes[id]), now))
               else
                 && w'.boxes.Keys == w.boxes.Keys + {id}
                 && w'.boxes[id] == BoxCrd(now, Group("default", GenericWorker), Some(Status(New, true, None, now)))
                 && forall other :: other in w.boxes ==> w'.boxes[other] == w.boxes[other]
  {
  }

  /** What a commission report does: a known box becomes ready, and a reset unbinds it. */
  lemma CommissionExactly(w: World, id: Uuid, access: bool, reset: bool, now: Time)
    ensures var w' := Commissioned(w, id, access, reset, now);
            if id !in w.boxes then w' == w
            else
              && w'.jobs == w.jobs
              && (reset ==> Becomes(w, w', id, Status(Ready, access, None, now)))
              && (!reset ==> Becomes(w, w', id, Status(Ready, access, BindOf(w.boxes[id]), now)))
  {
  }

  // ------------------------------------------------------------- reachability

  /** A ready box that is not bound starts to join if and only if it does not stay out and
      its turn has come. */
  lemma JoinsExactly(cfg: Config, w: World, id: Uuid, now: Time)
    requires id in w.boxes && StateOf(w.boxes[id]) == Ready
    ensures IsIn(Reconciled(cfg, w, id, now), id, Joining) <==>
            BindOf(w.boxes[id]) != Some(w.boxes[id].group) && !StaysOut(cfg, w.boxes[id].group) && MayJoin(w, id)
  {
    ReconcileExactly(cfg, w, id, now);
  }
}
