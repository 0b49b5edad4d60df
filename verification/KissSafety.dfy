/** Safety of the join queue over every run of the four actors. */
module KissSafety {
  import opened Results
  import opened KissBox
  import opened KissWorld

  lemma SubsetOfSameSize<T>(a: set<T>, b: set<T>)
    requires a <= b && |a| == |b|
    ensures a == b
  {
    if a != b {
      var x :| x in b && x !in a;
      SmallerSubset(a, b - {x});
    }
  }

  lemma {:induction false} SmallerSubset<T>(a: set<T>, b: set<T>)
    requires a <= b
    ensures |a| <= |b|
    decreases |a|
  {
    if a != {} {
      var x :| x in a;
      SmallerSubset(a - {x}, b - {x});
    }
  }

  /** The counts compared by the source are equal when every control plane is
      ready, and likewise when every one is running. */
  lemma CountsMeanAll(w: World, cluster: string)
    ensures IsControlPlaneReady(w, cluster) <==>
            forall id :: id in ControlPlanes(w, cluster) ==> InState(w, id, Ready) || InState(w, id, Running)
    ensures IsControlPlaneRunning(w, cluster) <==>
            && (forall id :: id in ControlPlanes(w, cluster) ==> InState(w, id, Running))
            && (ControlPlanes(w, cluster) != {} || cluster == DEFAULT_CLUSTER)
  {
    var all, ready, running := ControlPlanes(w, cluster), ReadyOf(w, cluster), RunningOf(w, cluster);
    if |ready| == |all| { SubsetOfSameSize(ready, all); }
    if |running| == |all| { SubsetOfSameSize(running, all); }
    if forall id :: id in all ==> InState(w, id, Ready) || InState(w, id, Running) { assert ready == all; }
    if forall id :: id in all ==> InState(w, id, Running) { assert running == all; }
  }

  /** At most one control plane of a cluster is joining, and a joining box is bound
      to its group. */
  ghost predicate OneJoins(w: World) {
    && (forall a, b :: InState(w, a, Joining) && InState(w, b, Joining) && SameControlPlane(w, a, b) ==> a == b)
    && (forall a :: InState(w, a, Joining) ==> w.boxes[a].Bound())
  }

  predicate SameControlPlane(w: World, a: Uuid, b: Uuid) {
    && a in w.boxes && b in w.boxes
    && w.boxes[a].group.role == ControlPlane && w.boxes[b].group == w.boxes[a].group
  }

  /** A box has at most one job that is not critical, and only join jobs leave a
      state behind. */
  ghost predicate JobsOwned(w: World) {
    && (forall j :: j in w.jobs ==> j.completed.None? || (j.completed == Some(Running) && !j.cron && !j.critical))
    && (forall j :: j in w.jobs && !j.critical ==> j.owner in w.boxes)
    && (forall i, j :: i in w.jobs && j in w.jobs && !i.critical && !j.critical && i.owner == j.owner ==> i == j)
  }

  /** The box was not joining before, and is now. */
  predicate StartsJoining(w: World, w': World, id: Uuid) {
    !InState(w, id, Joining) && InState(w', id, Joining)
  }

  /** The box whose record a step may write. */
  function Subject(step: Step): Option<Uuid> {
    match step
    case Reconcile(id, _, _) => Some(id)
    case Monitor(job, _) => Some(job.owner)
    case GetNew(id, _) => Some(id)
    case PostCommission(id, _, _, _) => Some(id)
    case ChangeGroup(id, _) => Some(id)
    case _ => None
  }

  /** Other boxes are not written, and groups are written by the environment only. */
  lemma StepFrame(w: World, step: Step, id: Uuid)
    requires Enabled(w, step) && id in w.boxes
    ensures var w' := Stepped(w, step);
            && id in w'.boxes
            && w'.boxes[id].created == w.boxes[id].created
            && (!step.ChangeGroup? ==> w'.boxes[id].group == w.boxes[id].group)
            && (Subject(step) != Some(id) ==> w'.boxes[id] == w.boxes[id])
  {
  }

  /** Nothing but a reconcile makes a box join. */
  lemma OnlyReconcileJoins(w: World, step: Step, id: Uuid)
    requires Enabled(w, step) && JobsOwned(w) && StartsJoining(w, Stepped(w, step), id)
    ensures step.Reconcile? && step.id == id && InState(w, id, Ready)
    ensures IsJoinable(w, id, w.boxes[id].group)
    ensures Stepped(w, step) ==
            WithStatus(Spawned(w, id, Joining).0, id, Status(Joining, w.boxes[id].Access(), Some(w.boxes[id].group), step.now))
  {
  }

  /** A join starts only in a reconcile of its box, with a fresh join job. A control
      plane joins only when every control plane of its cluster is ready or running
      and no other comes before it; any other box joins only when every control
      plane is running, and there is one unless the cluster is the default one. */
  lemma JoinStarts(w: World, step: Step, id: Uuid)
    requires Enabled(w, step) && JobsOwned(w) && StartsJoining(w, Stepped(w, step), id)
    ensures step.Reconcile? && step.id == id && InState(w, id, Ready)
    ensures NewJob(w, id, Joining) in Stepped(w, step).jobs && Stepped(w, step).boxes[id].Bound()
    ensures var group := w.boxes[id].group;
            if group.role == ControlPlane then
              && (forall cp :: cp in ControlPlanes(w, group.cluster) ==> InState(w, cp, Ready) || InState(w, cp, Running))
              && IsNext(w, group.cluster, id)
            else
              && (forall cp :: cp in ControlPlanes(w, group.cluster) ==> InState(w, cp, Running))
              && (ControlPlanes(w, group.cluster) != {} || group.cluster == DEFAULT_CLUSTER)
  {
    OnlyReconcileJoins(w, step, id);
    CountsMeanAll(w, w.boxes[id].group.cluster);
  }

  /** Why a reconcile may move a box from one state to another. */
  predicate Reason(w: World, b: BoxCrd, id: Uuid, after: State, now: Time) {
    match after
    case Commissioning => b.State() == New && b.Access()
    case Joining => b.State() == Ready && !b.Bound() && IsJoinable(w, id, b.group)
    case Running => b.State() == Ready && b.Bound()
    case Failed => (b.State() == Commissioning || b.State() == Joining) && now > b.LastUpdated() + 2 * HOUR
    case Disconnected =>
      (b.State() == New && !b.Access() && now > b.LastUpdated() + 30) || (b.State() == Running && !b.Bound())
    case _ => false
  }

  /** The whole transition relation of the operator: a reconcile changes a box's state
      only for its reason, binds it only when it starts to join, and replaces its jobs
      by the one that belongs to the new state. */
  lemma ReconcileEdges(config: Config, w: World, id: Uuid, now: Time)
    requires id in w.boxes && Reconciled(config, w, id, now).boxes[id].State() != w.boxes[id].State()
    ensures var b := w.boxes[id];
            var w' := Reconciled(config, w, id, now);
            var after := w'.boxes[id].State();
            && Reason(w, b, id, after, now)
            && w'.boxes[id].Access() == b.Access() && w'.boxes[id].LastUpdated() == now
            && w'.boxes[id].BindGroup() == (if after == Joining then Some(b.group) else b.BindGroup())
            && (after != Running ==>
                  forall j :: j in w'.jobs && j.owner == id && !j.critical ==> j == NewJob(w, id, after))
  {
  }

  lemma SpawnKeepsJobsOwned(w: World, id: Uuid, state: State)
    requires JobsOwned(w) && id in w.boxes
    ensures JobsOwned(Spawned(w, id, state).0)
  {
  }

  /** A reconcile leaves the jobs alone, or spawns. */
  lemma ReconcileJobs(config: Config, w: World, id: Uuid, now: Time)
    requires id in w.boxes
    ensures var jobs := Reconciled(config, w, id, now).jobs;
            jobs == w.jobs || exists state :: jobs == Spawned(w, id, state).0.jobs
  {
  }

  lemma StepKeepsJobsOwned(w: World, step: Step)
    requires Enabled(w, step) && JobsOwned(w)
    ensures JobsOwned(Stepped(w, step))
  {
    var w' := Stepped(w, step);
    assert w.boxes.Keys <= w'.boxes.Keys;
    if step.Reconcile? {
      ReconcileJobs(step.config, w, step.id, step.now);
      if w'.jobs != w.jobs {
        var state :| w'.jobs == Spawned(w, step.id, state).0.jobs;
        SpawnKeepsJobsOwned(w, step.id, state);
      }
    }
  }

  lemma StepKeepsOneJoins(w: World, step: Step)
    requires Enabled(w, step) && JobsOwned(w) && OneJoins(w)
    ensures OneJoins(Stepped(w, step))
  {
    var w' := Stepped(w, step);
    forall a | InState(w', a, Joining) ensures w'.boxes[a].Bound() {
      StillJoining(w, step, a);
    }
    forall a, b | InState(w', a, Joining) && InState(w', b, Joining) && SameControlPlane(w', a, b) ensures a == b {
      StillJoining(w, step, a);
      StillJoining(w, step, b);
      if StartsJoining(w, w', a) {
        JoinsAlone(w, step, a, b);
      } else if StartsJoining(w, w', b) {
        JoinsAlone(w, step, b, a);
      }
    }
  }

  /** No other control plane of the cluster is joining when one starts to. */
  lemma JoinsAlone(w: World, step: Step, a: Uuid, b: Uuid)
    requires Enabled(w, step) && JobsOwned(w)
    requires StartsJoining(w, Stepped(w, step), a) && InState(Stepped(w, step), b, Joining)
    requires SameControlPlane(Stepped(w, step), a, b)
    ensures a == b
  {
    JoinStarts(w, step, a);
    StepFrame(w, step, a);
    StillJoining(w, step, b);
    assert b in ControlPlanes(w, w.boxes[a].group.cluster);
    if a != b {
      StepFrame(w, step, b);
    }
  }

  /** A box that is joining after the step either starts to, or was joining with
      the same group and binding. */
  lemma StillJoining(w: World, step: Step, id: Uuid)
    requires Enabled(w, step) && JobsOwned(w) && InState(Stepped(w, step), id, Joining)
    ensures id in w.boxes && Stepped(w, step).boxes[id].group == w.boxes[id].group
    ensures InState(w, id, Joining) ==> Stepped(w, step).boxes[id].BindGroup() == w.boxes[id].BindGroup()
    ensures !InState(w, id, Joining) ==> Stepped(w, step).boxes[id].Bound()
  {
  }

  /** In every run of the four actors, from any orderly state such as the empty one,
      at most one control plane of each cluster is joining. */
  lemma {:induction false} AlwaysOneJoins(w: World, steps: seq<Step>)
    requires JobsOwned(w) && OneJoins(w) && Runs(w, steps)
    ensures JobsOwned(After(w, steps)) && OneJoins(After(w, steps))
    decreases |steps|
  {
    if steps != [] {
      StepKeepsJobsOwned(w, steps[0]);
      StepKeepsOneJoins(w, steps[0]);
      AlwaysOneJoins(Stepped(w, steps[0]), steps[1..]);
    }
  }

  lemma EmptyIsOrderly()
    ensures JobsOwned(EMPTY) && OneJoins(EMPTY)
  {
  }

  // ---------------------------------------------------------------- bootstraps

  /** The job tells its playbook to create the cluster. */
  predicate Bootstraps(j: Job, cluster: string) {
    j.completed.Some? && j.isNew && j.cluster == cluster
  }

  /** A bootstrap is only spawned while no control plane of the cluster runs. */
  lemma BootstrapFindsNoneRunning(w: World, step: Step, j: Job)
    requires Enabled(w, step) && j in Stepped(w, step).jobs && j !in w.jobs
    requires j.completed.Some? && j.isNew
    ensures RunningOf(w, j.cluster) == {} || exists i :: i in w.jobs && Bootstraps(i, j.cluster)
  {
    if step.Finish? {
      assert j == step.job.(outcome := if step.ok then Succeeded else Broken);
      assert Bootstraps(step.job, j.cluster);
    }
  }

  ghost predicate KeepsOneRunning(w: World, steps: seq<Step>, cluster: string)
    requires Runs(w, steps)
    decreases |steps|
  {
    RunningOf(w, cluster) != {} && (steps == [] || KeepsOneRunning(Stepped(w, steps[0]), steps[1..], cluster))
  }

  /** While some control plane of the cluster runs, no later join is a bootstrap. */
  lemma {:induction false} NoLaterBootstrap(w: World, steps: seq<Step>, cluster: string)
    requires Runs(w, steps) && KeepsOneRunning(w, steps, cluster)
    requires forall j :: j in w.jobs ==> !Bootstraps(j, cluster)
    ensures forall j :: j in After(w, steps).jobs ==> !Bootstraps(j, cluster)
    decreases |steps|
  {
    if steps != [] {
      var w' := Stepped(w, steps[0]);
      forall j | j in w'.jobs ensures !Bootstraps(j, cluster) {
        if Bootstraps(j, cluster) && j !in w.jobs {
          BootstrapFindsNoneRunning(w, steps[0], j);
        }
      }
      NoLaterBootstrap(w', steps[1..], cluster);
    }
  }

  /** A box with a join job has not been commissioned since the join. */
  ghost predicate JoinJobsPlaced(w: World) {
    forall j :: j in w.jobs && !j.critical && j.completed.Some? ==>
                  !InState(w, j.owner, Ready) && !InState(w, j.owner, Commissioning)
  }

  lemma StepKeepsJoinJobsPlaced(w: World, step: Step)
    requires Enabled(w, step) && JobsOwned(w) && JoinJobsPlaced(w)
    ensures JoinJobsPlaced(Stepped(w, step))
  {
    var w' := Stepped(w, step);
    forall j | j in w'.jobs && !j.critical && j.completed.Some?
      ensures !InState(w', j.owner, Ready) && !InState(w', j.owner, Commissioning)
    {
      JoinJobPlaced(w, step, j);
    }
  }

  lemma JoinJobPlaced(w: World, step: Step, j: Job)
    requires Enabled(w, step) && JobsOwned(w) && JoinJobsPlaced(w)
    requires j in Stepped(w, step).jobs && !j.critical && j.completed.Some?
    ensures !InState(Stepped(w, step), j.owner, Ready) && !InState(Stepped(w, step), j.owner, Commissioning)
  {
  }

  lemma {:induction false} AlwaysJoinJobsPlaced(w: World, steps: seq<Step>)
    requires JobsOwned(w) && JoinJobsPlaced(w) && Runs(w, steps)
    ensures JoinJobsPlaced(After(w, steps))
    decreases |steps|
  {
    if steps != [] {
      StepKeepsJobsOwned(w, steps[0]);
      StepKeepsJoinJobsPlaced(w, steps[0]);
      AlwaysJoinJobsPlaced(Stepped(w, steps[0]), steps[1..]);
    }
  }

  lemma OneStep(w: World, first: Step, rest: seq<Step>)
    requires Enabled(w, first) && Runs(Stepped(w, first), rest)
    ensures Runs(w, [first] + rest) && After(w, [first] + rest) == After(Stepped(w, first), rest)
  {
    assert ([first] + rest)[1..] == rest;
  }
}
