/** Who creates a cluster: exactly which changes of groups let two boxes do it. */
module KissBootstrap {
  import opened Results
  import opened KissBox
  import opened KissWorld
  import opened KissSafety

  /** A join whose playbook has not ended. */
  predicate PendingJoin(j: Job) {
    j.completed == Some(Running) && j.outcome == Pending && !j.critical
  }

  /** A join that was told to create its cluster. */
  predicate PendingBootstrap(j: Job) {
    PendingJoin(j) && j.isNew
  }

  ghost predicate OneBootstrap(w: World) {
    forall i, j :: i in w.jobs && j in w.jobs && PendingBootstrap(i) && PendingBootstrap(j) && i.cluster == j.cluster ==> i == j
  }

  /** The box of a pending bootstrap is joining, or booted into the installer since,
      and is still a control plane of the cluster it was told to create. */
  predicate InPlace(w: World, j: Job) {
    && j.owner in w.boxes
    && (InState(w, j.owner, Joining) || InState(w, j.owner, New))
    && w.boxes[j.owner].group == Group(j.cluster, ControlPlane)
  }

  ghost predicate BootstrapsApart(w: World) {
    && (forall j :: j in w.jobs && PendingBootstrap(j) ==> InPlace(w, j))
    && OneBootstrap(w)
  }

  /** The step takes a box whose bootstrap is pending out of the control planes of
      the cluster that it is about to create. */
  ghost predicate Abandons(w: World, step: Step) {
    step.ChangeGroup? &&
    exists j :: j in w.jobs && PendingBootstrap(j) && j.owner == step.id && step.group != Group(j.cluster, ControlPlane)
  }

  lemma EmptyIsApart()
    ensures BootstrapsApart(EMPTY)
  {
  }

  /** A pending join of the next state was pending before, or was just spawned by a
      reconcile that found its box joinable. */
  lemma PendingAfter(w: World, step: Step, j: Job)
    requires Enabled(w, step) && JobsOwned(w)
    requires j in Stepped(w, step).jobs && PendingJoin(j)
    ensures j in w.jobs
            || (StartsJoining(w, Stepped(w, step), j.owner) && j == NewJob(w, j.owner, Joining))
  {
  }

  lemma OldStaysInPlace(w: World, step: Step, j: Job)
    requires Enabled(w, step) && !Abandons(w, step) && JobsOwned(w) && j in w.jobs && InPlace(w, j)
    requires j in Stepped(w, step).jobs && PendingBootstrap(j)
    ensures InPlace(Stepped(w, step), j)
  {
  }

  lemma StepKeepsBootstrapsApart(w: World, step: Step)
    requires Enabled(w, step) && !Abandons(w, step) && JobsOwned(w) && BootstrapsApart(w)
    ensures BootstrapsApart(Stepped(w, step))
  {
    var w' := Stepped(w, step);
    forall j | j in w'.jobs && PendingBootstrap(j) ensures InPlace(w', j) {
      PendingAfter(w, step, j);
      if j in w.jobs {
        OldStaysInPlace(w, step, j);
      }
    }
    forall i, j | i in w'.jobs && j in w'.jobs && PendingBootstrap(i) && PendingBootstrap(j) && i.cluster == j.cluster
      ensures i == j
    {
      PendingAfter(w, step, i);
      PendingAfter(w, step, j);
      if i !in w.jobs {
        BootstrapsAlone(w, step, i, j);
      } else if j !in w.jobs {
        BootstrapsAlone(w, step, j, i);
      }
    }
  }

  /** No other bootstrap of the cluster is pending when one is spawned. */
  lemma BootstrapsAlone(w: World, step: Step, i: Job, j: Job)
    requires Enabled(w, step) && JobsOwned(w) && BootstrapsApart(w)
    requires i in Stepped(w, step).jobs && j in Stepped(w, step).jobs && i !in w.jobs
    requires PendingBootstrap(i) && PendingBootstrap(j) && i.cluster == j.cluster
    ensures i == j
  {
    PendingAfter(w, step, i);
    PendingAfter(w, step, j);
    JoinStarts(w, step, i.owner);
    assert j in w.jobs ==> InPlace(w, j);
    assert j in w.jobs ==> j.owner in ControlPlanes(w, i.cluster);
  }

  // ------------------------------------------------------------ runs with care

  /** A run of the four actors without a step that abandons a bootstrap. */
  ghost predicate RunsCarefully(w: World, steps: seq<Step>)
    decreases |steps|
  {
    steps == [] || (Enabled(w, steps[0]) && !Abandons(w, steps[0]) && RunsCarefully(Stepped(w, steps[0]), steps[1..]))
  }

  /** In every careful run two bootstraps of one cluster are never pending together. */
  lemma {:induction false} AlwaysOneBootstrap(w: World, steps: seq<Step>)
    requires JobsOwned(w) && BootstrapsApart(w) && RunsCarefully(w, steps)
    ensures Runs(w, steps) && JobsOwned(After(w, steps)) && BootstrapsApart(After(w, steps))
    decreases |steps|
  {
    if steps != [] {
      StepKeepsJobsOwned(w, steps[0]);
      StepKeepsBootstrapsApart(w, steps[0]);
      AlwaysOneBootstrap(Stepped(w, steps[0]), steps[1..]);
    }
  }

  lemma {:induction false} CarefulRuns(w: World, steps: seq<Step>)
    requires RunsCarefully(w, steps)
    ensures Runs(w, steps)
    decreases |steps|
  {
    if steps != [] {
      CarefulRuns(Stepped(w, steps[0]), steps[1..]);
    }
  }

  lemma {:induction false} RunsOn(w: World, first: seq<Step>, rest: seq<Step>)
    requires Runs(w, first) && Runs(After(w, first), rest)
    ensures Runs(w, first + rest) && After(w, first + rest) == After(After(w, first), rest)
    ensures RunsCarefully(w, first) && RunsCarefully(After(w, first), rest) ==> RunsCarefully(w, first + rest)
    decreases |first|
  {
    if first == [] {
      assert first + rest == rest;
    } else {
      assert (first + rest)[1..] == first[1..] + rest;
      RunsOn(Stepped(w, first[0]), first[1..], rest);
    }
  }

  /** A careful run leads from one world to the other. */
  ghost predicate Leads(w: World, w': World) {
    exists steps :: RunsCarefully(w, steps) && Runs(w, steps) && After(w, steps) == w'
  }

  lemma LeadsNowhere(w: World)
    ensures Leads(w, w)
  {
    assert RunsCarefully(w, []) && After(w, []) == w;
  }

  lemma LeadsStep(w: World, step: Step)
    requires Enabled(w, step) && !Abandons(w, step)
    ensures Leads(w, Stepped(w, step))
  {
    LeadsNowhere(Stepped(w, step));
    assert [step][1..] == [];
    assert RunsCarefully(w, [step]);
    assert Runs(w, [step]) && After(w, [step]) == After(Stepped(w, step), []);
  }

  lemma LeadsOn(a: World, b: World, c: World)
    requires Leads(a, b) && Leads(b, c)
    ensures Leads(a, c)
  {
    var first :| RunsCarefully(a, first) && Runs(a, first) && After(a, first) == b;
    var rest :| RunsCarefully(b, rest) && Runs(b, rest) && After(b, rest) == c;
    RunsOn(a, first, rest);
    assert RunsCarefully(a, first + rest);
  }

  // -------------------------------------------------- what one careless move does

  /** The cluster of a pending bootstrap has no control plane with a bootstrap. */
  ghost predicate Orphan(w: World, j: Job) {
    && JobsOwned(w) && j in w.jobs && PendingBootstrap(j)
    && forall i :: i in w.jobs && PendingBootstrap(i) ==> i.owner !in ControlPlanes(w, j.cluster)
  }

  lemma AbandonedIsOrphan(w: World, step: Step) returns (j: Job)
    requires JobsOwned(w) && BootstrapsApart(w) && Enabled(w, step) && Abandons(w, step)
    ensures Orphan(Stepped(w, step), j)
  {
    j :| j in w.jobs && PendingBootstrap(j) && j.owner == step.id && step.group != Group(j.cluster, ControlPlane);
    StepKeepsJobsOwned(w, step);
    var w' := Stepped(w, step);
    forall i | i in w'.jobs && PendingBootstrap(i) ensures i.owner !in ControlPlanes(w', j.cluster) {
      assert InPlace(w, i);
    }
  }

  /** A box reboots and is given another role. */
  lemma Dismissed(w: World, j: Job, x: Uuid) returns (w': World)
    requires Orphan(w, j) && x in ControlPlanes(w, j.cluster)
    ensures Leads(w, w') && Orphan(w', j)
    ensures ControlPlanes(w', j.cluster) == ControlPlanes(w, j.cluster) - {x}
  {
    var reboot, move := GetNew(x, 0), ChangeGroup(x, Group(j.cluster, GenericWorker));
    var rebooted := Stepped(w, reboot);
    w' := Stepped(rebooted, move);
    StepKeepsJobsOwned(w, reboot);
    StepKeepsJobsOwned(rebooted, move);
    LeadsStep(w, reboot);
    LeadsStep(rebooted, move);
    LeadsOn(w, rebooted, w');
  }

  lemma {:induction false} AllDismissed(w: World, j: Job) returns (w': World)
    requires Orphan(w, j)
    ensures Leads(w, w') && Orphan(w', j) && ControlPlanes(w', j.cluster) == {}
    decreases |ControlPlanes(w, j.cluster)|
  {
    if ControlPlanes(w, j.cluster) == {} {
      w' := w;
      LeadsNowhere(w);
    } else {
      var x :| x in ControlPlanes(w, j.cluster);
      var next := Dismissed(w, j, x);
      w' := AllDismissed(next, j);
      LeadsOn(w, next, w');
    }
  }

  const CONFIG := Config(false)

  /** A new box becomes a control plane and joins. */
  function JoinSteps(b: Uuid, cluster: string): seq<Step> {
    [GetNew(b, 0), ChangeGroup(b, Group(cluster, ControlPlane)), Reconcile(b, CONFIG, 0),
     PostCommission(b, true, true, 0), Reconcile(b, CONFIG, 0)]
  }

  /** Where there is no control plane, a new one bootstraps the cluster. */
  lemma NewcomerBootstraps(w: World, b: Uuid, cluster: string)
    requires JobsOwned(w) && b !in w.boxes && ControlPlanes(w, cluster) == {}
    ensures Runs(w, JoinSteps(b, cluster)) && RunsCarefully(w, JoinSteps(b, cluster))
    ensures var w' := After(w, JoinSteps(b, cluster));
            && w'.boxes.Keys == w.boxes.Keys + {b}
            && (forall id :: id in w.boxes ==> w'.boxes[id] == w.boxes[id])
            && InState(w', b, Joining) && w'.boxes[b].group == Group(cluster, ControlPlane)
            && w'.jobs == w.jobs + {Job(b, Some(Running), false, false, true, cluster, Pending)}
  {
    var steps := JoinSteps(b, cluster);
    var w1 := Stepped(w, steps[0]);
    var w2 := Stepped(w1, steps[1]);
    NewcomerReady(w, b, cluster);
    var w3 := Stepped(w2, steps[2]);
    var w4 := Stepped(w3, steps[3]);
    NewcomerJoins(w, w4, b, cluster);
    var w5 := Stepped(w4, steps[4]);
    Reaches(w4, steps[4..], w5);
    Reaches(w3, steps[3..], w5);
    Reaches(w2, steps[2..], w5);
    Reaches(w1, steps[1..], w5);
    Reaches(w, steps, w5);
  }

  /** A new control plane once it was commissioned. */
  predicate IsReadyNewcomer(w: World, w': World, b: Uuid, cluster: string) {
    && w'.boxes == w.boxes[b := BoxCrd(0, Group(cluster, ControlPlane), Some(Status(Ready, true, None, 0)))]
    && WithoutJobs(w'.jobs, b) == w.jobs
  }

  lemma NewcomerReady(w: World, b: Uuid, cluster: string)
    requires JobsOwned(w) && b !in w.boxes
    ensures var steps := JoinSteps(b, cluster);
            var w2 := Stepped(Stepped(w, steps[0]), steps[1]);
            && Enabled(w2, steps[2]) && !Abandons(Stepped(w, steps[0]), steps[1])
            && Enabled(Stepped(w2, steps[2]), steps[3])
            && IsReadyNewcomer(w, Stepped(Stepped(w2, steps[2]), steps[3]), b, cluster)
  {
    var steps := JoinSteps(b, cluster);
    var w2 := Stepped(Stepped(w, steps[0]), steps[1]);
    Commissions(w2, b, cluster);
    var w4 := Stepped(Stepped(w2, steps[2]), steps[3]);
    forall j ensures j in WithoutJobs(w4.jobs, b) <==> j in w.jobs {
    }
  }

  lemma NewcomerJoins(w: World, w4: World, b: Uuid, cluster: string)
    requires b !in w.boxes && ControlPlanes(w, cluster) == {} && IsReadyNewcomer(w, w4, b, cluster)
    ensures var w5 := Stepped(w4, Reconcile(b, CONFIG, 0));
            && w5.boxes.Keys == w.boxes.Keys + {b}
            && (forall id :: id in w.boxes ==> w5.boxes[id] == w.boxes[id])
            && InState(w5, b, Joining) && w5.boxes[b].group == Group(cluster, ControlPlane)
            && w5.jobs == w.jobs + {Job(b, Some(Running), false, false, true, cluster, Pending)}
  {
    forall id ensures id in ControlPlanes(w4, cluster) <==> id == b {
      assert id in ControlPlanes(w4, cluster) && id != b ==> id in ControlPlanes(w, cluster);
    }
    Joins(w4, b, cluster);
  }

  lemma Commissions(w: World, b: Uuid, cluster: string)
    requires b in w.boxes && (forall j :: j in w.jobs && !j.critical ==> j.owner != b)
    requires w.boxes[b] == BoxCrd(0, Group(cluster, ControlPlane), Some(Status(New, true, None, 0)))
    ensures Stepped(w, Reconcile(b, CONFIG, 0)) ==
            World(w.boxes[b := w.boxes[b].(status := Some(Status(Commissioning, true, None, 0)))],
                  w.jobs + {NewJob(w, b, Commissioning)})
  {
    assert WithoutJobs(w.jobs, b) == w.jobs;
  }

  lemma Joins(w: World, b: Uuid, cluster: string)
    requires b in w.boxes && ControlPlanes(w, cluster) == {b}
    requires w.boxes[b] == BoxCrd(0, Group(cluster, ControlPlane), Some(Status(Ready, true, None, 0)))
    ensures Stepped(w, Reconcile(b, CONFIG, 0)) ==
            World(w.boxes[b := w.boxes[b].(status := Some(Status(Joining, true, Some(Group(cluster, ControlPlane)), 0)))],
                  WithoutJobs(w.jobs, b) + {Job(b, Some(Running), false, false, true, cluster, Pending)})
  {
    FirstInLine(w, b, cluster);
  }

  lemma FirstInLine(w: World, b: Uuid, cluster: string)
    requires InState(w, b, Ready) && ControlPlanes(w, cluster) == {b}
    ensures IsJoinable(w, b, Group(cluster, ControlPlane)) && IsNew(w, b, Group(cluster, ControlPlane))
  {
    CountsMeanAll(w, cluster);
  }

  lemma Reaches(w: World, steps: seq<Step>, w': World)
    requires steps != [] && Enabled(w, steps[0]) && !Abandons(w, steps[0])
    requires Runs(Stepped(w, steps[0]), steps[1..]) && RunsCarefully(Stepped(w, steps[0]), steps[1..])
    requires After(Stepped(w, steps[0]), steps[1..]) == w'
    ensures Runs(w, steps) && RunsCarefully(w, steps) && After(w, steps) == w'
  {
  }

  lemma {:induction false} Unused(ids: set<Uuid>) returns (b: Uuid)
    ensures b !in ids
  {
    b := if ids == {} then 0 else Largest(ids) + 1;
  }

  ghost function Largest(ids: set<Uuid>): (m: nat)
    ensures forall id :: id in ids ==> id <= m
  {
    if ids == {} then 0 else
      var id :| id in ids;
      var m := Largest(ids - {id});
      assert forall x :: x in ids ==> x == id || x in ids - {id};
      if id <= m then m else id
  }

  /** The environment may change the group of a box, without ever letting two boxes
      create one cluster, if and only if the change does not take the box of a
      pending bootstrap out of the control planes of its cluster. After a change
      that does, a run without another one leads to two pending bootstraps. */
  lemma CareIsExact(w: World, step: Step)
    requires JobsOwned(w) && BootstrapsApart(w) && Enabled(w, step)
    ensures Abandons(w, step) <==> exists w' :: Leads(Stepped(w, step), w') && !OneBootstrap(w')
  {
    if Abandons(w, step) {
      CarelessSplits(w, step);
    } else {
      StepKeepsJobsOwned(w, step);
      StepKeepsBootstrapsApart(w, step);
      forall w' | Leads(Stepped(w, step), w') ensures OneBootstrap(w') {
        var steps :| RunsCarefully(Stepped(w, step), steps) && Runs(Stepped(w, step), steps) && After(Stepped(w, step), steps) == w';
        AlwaysOneBootstrap(Stepped(w, step), steps);
      }
    }
  }

  lemma CarelessSplits(w: World, step: Step)
    requires JobsOwned(w) && BootstrapsApart(w) && Enabled(w, step) && Abandons(w, step)
    ensures exists w' :: Leads(Stepped(w, step), w') && !OneBootstrap(w')
  {
    var j := AbandonedIsOrphan(w, step);
    var alone := AllDismissed(Stepped(w, step), j);
    var b := Unused(alone.boxes.Keys);
    NewcomerBootstraps(alone, b, j.cluster);
    var w' := After(alone, JoinSteps(b, j.cluster));
    var i := Job(b, Some(Running), false, false, true, j.cluster, Pending);
    assert i in w'.jobs && j in w'.jobs && i != j;
    assert Leads(alone, w');
    LeadsOn(Stepped(w, step), alone, w');
  }

  /** A run from the very beginning: a control plane joins as the first, boots into
      the installer again, which keeps its job, and is moved away; the next control
      plane joins as the first, too. */
  function SplitRun(cluster: string): seq<Step> {
    JoinSteps(0, cluster) + ([GetNew(0, 0), ChangeGroup(0, Group(cluster, GenericWorker))] + JoinSteps(1, cluster))
  }

  lemma MovedBoxSplitsCluster(cluster: string)
    ensures Runs(EMPTY, SplitRun(cluster)) && !OneBootstrap(After(EMPTY, SplitRun(cluster)))
  {
    var move := [GetNew(0, 0), ChangeGroup(0, Group(cluster, GenericWorker))];
    var first := JoinSteps(0, cluster);
    NewcomerBootstraps(EMPTY, 0, cluster);
    AlwaysOneBootstrap(EMPTY, first);
    var w1 := After(EMPTY, first);
    var w2 := MovedAway(w1, cluster);
    NewcomerBootstraps(w2, 1, cluster);
    RunsOn(w1, move, JoinSteps(1, cluster));
    RunsOn(EMPTY, first, move + JoinSteps(1, cluster));
    var i := Job(0, Some(Running), false, false, true, cluster, Pending);
    var j := Job(1, Some(Running), false, false, true, cluster, Pending);
    assert i in After(w2, JoinSteps(1, cluster)).jobs && j in After(w2, JoinSteps(1, cluster)).jobs;
  }

  lemma MovedAway(w: World, cluster: string) returns (w': World)
    requires JobsOwned(w) && w.boxes.Keys == {0} && InState(w, 0, Joining)
    ensures var move := [GetNew(0, 0), ChangeGroup(0, Group(cluster, GenericWorker))];
            Runs(w, move) && w' == After(w, move)
    ensures JobsOwned(w') && w'.boxes.Keys == {0} && w'.jobs == w.jobs && ControlPlanes(w', cluster) == {}
  {
    var reboot, move := GetNew(0, 0), ChangeGroup(0, Group(cluster, GenericWorker));
    var rebooted := Stepped(w, reboot);
    StepKeepsJobsOwned(w, reboot);
    StepKeepsJobsOwned(rebooted, move);
    w' := Stepped(rebooted, move);
    OneStep(rebooted, move, []);
    OneStep(w, reboot, [move]);
    assert [move] == [move] + [] && [reboot, move] == [reboot] + [move];
  }
}
