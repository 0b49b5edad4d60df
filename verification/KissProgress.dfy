/** Convergence of the join queue when jobs succeed and nothing interferes. */
module KissProgress {
  import opened Results
  import opened KissBox
  import opened KissWorld
  import opened KissSafety

  /** The control plane's join job will succeed, or has. */
  predicate JoinUnderway(w: World, id: Uuid, j: Job) {
    j in w.jobs && j.owner == id && !j.critical && !j.cron && j.completed == Some(Running) && j.outcome != Broken
  }

  ghost predicate ControlPlaneHealthy(w: World, id: Uuid) {
    || InState(w, id, Ready)
    || (InState(w, id, Running) && w.boxes[id].Bound())
    || (InState(w, id, Joining) && w.boxes[id].Bound() && exists j :: JoinUnderway(w, id, j))
  }

  /** Each control plane is ready, or running and bound to its group, or joining
      with a job that does not fail; at most one is joining. Any state in which
      each is ready, or running and bound, is one of these: see `RestingIsHealthy`. */
  ghost predicate Healthy(w: World, cluster: string) {
    && JobsOwned(w) && JoinJobsPlaced(w) && OneJoins(w)
    && forall id :: id in ControlPlanes(w, cluster) ==> ControlPlaneHealthy(w, id)
  }

  /** Nothing happens but the operator's reconciles, before any timeout, and the
      success of jobs. */
  predicate Quiet(w: World, step: Step) {
    && Enabled(w, step)
    && match step
       case Reconcile(id, _, now) => InState(w, id, Joining) ==> now <= w.boxes[id].LastUpdated() + 2 * HOUR
       case Monitor(job, _) => job.outcome != Broken
       case Finish(_, ok) => ok
       case _ => false
  }

  function JoiningOf(w: World, cluster: string): set<Uuid> {
    set id | id in ControlPlanes(w, cluster) && InState(w, id, Joining)
  }

  function WaitingOf(w: World, cluster: string): set<Uuid> {
    set id | id in ControlPlanes(w, cluster) && InState(w, id, Ready)
  }

  function Measure(w: World, cluster: string): nat {
    2 * |WaitingOf(w, cluster)| + |JoiningOf(w, cluster)|
  }

  predicate AllRunning(w: World, cluster: string) {
    forall id :: id in ControlPlanes(w, cluster) ==> InState(w, id, Running)
  }

  lemma RestingIsHealthy(w: World, cluster: string)
    requires JobsOwned(w) && JoinJobsPlaced(w) && OneJoins(w)
    requires forall id :: id in ControlPlanes(w, cluster) ==>
                            InState(w, id, Ready) || (InState(w, id, Running) && w.boxes[id].Bound())
    ensures Healthy(w, cluster)
  {
  }

  lemma SameControlPlanes(w: World, step: Step, cluster: string)
    requires Quiet(w, step)
    ensures ControlPlanes(Stepped(w, step), cluster) == ControlPlanes(w, cluster)
  {
    assert Stepped(w, step).boxes.Keys == w.boxes.Keys;
    forall id | id in w.boxes ensures Stepped(w, step).boxes[id].group == w.boxes[id].group {
      StepFrame(w, step, id);
    }
  }

  /** How a quiet step may change a control plane: forward, or not at all. */
  predicate Forward(before: State, after: State) {
    || after == before
    || (before == Ready && (after == Joining || after == Running))
    || (before == Joining && after == Running)
  }

  lemma QuietMovesForward(w: World, step: Step, cluster: string, id: Uuid)
    requires Quiet(w, step) && Healthy(w, cluster) && id in ControlPlanes(w, cluster)
    ensures var w' := Stepped(w, step);
            && id in w'.boxes && w'.boxes[id].status.Some?
            && Forward(w.boxes[id].State(), w'.boxes[id].State())
            && (InState(w', id, Running) ==> w'.boxes[id].Bound())
  {
    assert ControlPlaneHealthy(w, id);
    if step.Reconcile? && step.id == id {
      ReconcileMovesForward(w, step, id);
    }
  }

  lemma ReconcileMovesForward(w: World, step: Step, id: Uuid)
    requires Quiet(w, step) && step.Reconcile? && step.id == id
    requires ControlPlaneHealthy(w, id) && w.boxes[id].group.role == ControlPlane
    ensures var b := Stepped(w, step).boxes[id];
            b.status.Some? && Forward(w.boxes[id].State(), b.State()) && (b.State() == Running ==> b.Bound())
  {
  }

  /** A join job stays underway while its box is joining. */
  lemma JoinStaysUnderway(w: World, step: Step, cluster: string, id: Uuid)
    requires Quiet(w, step) && Healthy(w, cluster) && id in ControlPlanes(w, cluster)
    requires InState(Stepped(w, step), id, Joining)
    ensures exists j :: JoinUnderway(Stepped(w, step), id, j)
  {
    var w' := Stepped(w, step);
    assert ControlPlaneHealthy(w, id);
    if InState(w, id, Joining) {
      var j :| JoinUnderway(w, id, j);
      var j' := if step.Finish? && step.job == j then j.(outcome := Succeeded) else j;
      JobKept(w, step, j);
      assert JoinUnderway(w', id, j');
    } else {
      JoinStarts(w, step, id);
      assert JoinUnderway(w', id, NewJob(w, id, Joining));
    }
  }

  lemma JobKept(w: World, step: Step, j: Job)
    requires Quiet(w, step) && JobsOwned(w) && j in w.jobs && !j.critical && j.completed.Some?
    requires InState(w, j.owner, Joining) && InState(Stepped(w, step), j.owner, Joining)
    ensures (if step.Finish? && step.job == j then j.(outcome := Succeeded) else j) in Stepped(w, step).jobs
  {
  }

  lemma QuietKeepsHealthy(w: World, step: Step, cluster: string)
    requires Quiet(w, step) && Healthy(w, cluster)
    ensures Healthy(Stepped(w, step), cluster)
  {
    var w' := Stepped(w, step);
    StepKeepsJobsOwned(w, step);
    StepKeepsJoinJobsPlaced(w, step);
    StepKeepsOneJoins(w, step);
    SameControlPlanes(w, step, cluster);
    forall id | id in ControlPlanes(w', cluster) ensures ControlPlaneHealthy(w', id) {
      assert ControlPlaneHealthy(w, id);
      QuietMovesForward(w, step, cluster, id);
      if InState(w', id, Joining) {
        JoinStaysUnderway(w, step, cluster, id);
      }
    }
  }

  /** A quiet step writes at most one box. */
  lemma QuietChangesOne(w: World, step: Step, a: Uuid, b: Uuid)
    requires Quiet(w, step) && a in w.boxes && b in w.boxes
    requires Stepped(w, step).boxes[a] != w.boxes[a] && Stepped(w, step).boxes[b] != w.boxes[b]
    ensures a == b
  {
    StepFrame(w, step, a);
    StepFrame(w, step, b);
  }

  /** Every effective step lowers the measure; the others leave it alone. */
  lemma QuietLowers(w: World, step: Step, cluster: string)
    requires Quiet(w, step) && Healthy(w, cluster)
    ensures var w' := Stepped(w, step);
            if forall id :: id in ControlPlanes(w, cluster) ==> id in w'.boxes && w'.boxes[id].State() == w.boxes[id].State()
            then Measure(w', cluster) == Measure(w, cluster)
            else Measure(w', cluster) < Measure(w, cluster)
  {
    var w' := Stepped(w, step);
    SameControlPlanes(w, step, cluster);
    forall id | id in ControlPlanes(w, cluster)
      ensures id in w'.boxes && w'.boxes[id].status.Some? && Forward(w.boxes[id].State(), w'.boxes[id].State())
    {
      QuietMovesForward(w, step, cluster, id);
    }
    if forall id :: id in ControlPlanes(w, cluster) ==> w'.boxes[id].State() == w.boxes[id].State() {
      assert WaitingOf(w', cluster) == WaitingOf(w, cluster);
      assert JoiningOf(w', cluster) == JoiningOf(w, cluster);
    } else {
      var id :| id in ControlPlanes(w, cluster) && w'.boxes[id].State() != w.boxes[id].State();
      forall other | other in ControlPlanes(w, cluster) && other != id
        ensures w'.boxes[other] == w.boxes[other]
      {
        if w'.boxes[other] != w.boxes[other] {
          QuietChangesOne(w, step, id, other);
        }
      }
      OneMoved(w, w', cluster, id);
    }
  }

  lemma OneMoved(w: World, w': World, cluster: string, id: Uuid)
    requires OnlyMoved(w, w', cluster, id)
    ensures Measure(w', cluster) < Measure(w, cluster)
  {
    WaitingMoved(w, w', cluster, id);
    JoiningMoved(w, w', cluster, id);
  }

  ghost predicate OnlyMoved(w: World, w': World, cluster: string, id: Uuid) {
    && ControlPlanes(w', cluster) == ControlPlanes(w, cluster) && id in ControlPlanes(w, cluster)
    && (forall other :: other in ControlPlanes(w, cluster) && other != id ==> w'.boxes[other] == w.boxes[other])
    && w.boxes[id].status.Some? && w'.boxes[id].status.Some?
    && w.boxes[id].State() != w'.boxes[id].State() && Forward(w.boxes[id].State(), w'.boxes[id].State())
  }

  lemma WaitingMoved(w: World, w': World, cluster: string, id: Uuid)
    requires OnlyMoved(w, w', cluster, id)
    ensures |WaitingOf(w', cluster)| == |WaitingOf(w, cluster)| - if InState(w, id, Ready) then 1 else 0
  {
    assert id in WaitingOf(w, cluster) <==> InState(w, id, Ready);
    assert WaitingOf(w', cluster) == WaitingOf(w, cluster) - {id};
  }

  lemma JoiningMoved(w: World, w': World, cluster: string, id: Uuid)
    requires OnlyMoved(w, w', cluster, id)
    ensures |JoiningOf(w', cluster)| ==
            |JoiningOf(w, cluster)| + (if InState(w', id, Joining) then 1 else 0) - (if InState(w, id, Joining) then 1 else 0)
  {
    var before, after := JoiningOf(w, cluster), JoiningOf(w', cluster);
    assert forall x :: x != id ==> (x in after <==> x in before);
    if InState(w, id, Joining) {
      assert after == before - {id};
    } else if InState(w', id, Joining) {
      assert after == before + {id};
    } else {
      assert after == before;
    }
  }

  function NotRunningOf(w: World, cluster: string): set<Uuid> {
    set id | id in ControlPlanes(w, cluster) && !InState(w, id, Running)
  }

  /** Unless all control planes run, exactly one that does not is next. */
  lemma OneIsNext(w: World, cluster: string) returns (next: Uuid)
    requires !AllRunning(w, cluster)
    ensures forall id :: IsNext(w, cluster, id) <==> id == next
  {
    var some :| some in ControlPlanes(w, cluster) && !InState(w, some, Running);
    assert some in NotRunningOf(w, cluster);
    next := FirstExists(w, NotRunningOf(w, cluster));
    forall id | id in ControlPlanes(w, cluster) && !InState(w, id, Running) && id != next
      ensures Before(w, next, id)
    {
      assert id in NotRunningOf(w, cluster);
    }
    forall id | IsNext(w, cluster, id) ensures id == next {
      assert next in NotRunningOf(w, cluster);
    }
  }

  /** The only stuck states have all control planes running: otherwise a quiet step,
      or the success of a join and its report, moves a control plane forward. */
  lemma NotStuck(w: World, cluster: string, config: Config, now: Time) returns (steps: seq<Step>)
    requires Healthy(w, cluster) && !AllRunning(w, cluster)
    ensures 1 <= |steps| <= 2 && QuietRun(w, steps)
    ensures Healthy(After(w, steps), cluster) && Measure(After(w, steps), cluster) < Measure(w, cluster)
  {
    if id :| id in ControlPlanes(w, cluster) && InState(w, id, Joining) {
      assert ControlPlaneHealthy(w, id);
      var j :| JoinUnderway(w, id, j);
      steps := JoinCompletes(w, cluster, id, j, now);
    } else {
      var next := OneIsNext(w, cluster);
      assert IsNext(w, cluster, next) && ControlPlaneHealthy(w, next);
      var step := Reconcile(next, config, now);
      NextMoves(w, cluster, next, step);
      QuietLowers(w, step, cluster);
      QuietKeepsHealthy(w, step, cluster);
      OneStep(w, step, []);
      steps := [step];
    }
  }

  ghost predicate QuietRun(w: World, steps: seq<Step>)
    ensures QuietRun(w, steps) ==> Runs(w, steps)
    decreases |steps|
  {
    steps == [] || (Quiet(w, steps[0]) && QuietRun(Stepped(w, steps[0]), steps[1..]))
  }

  lemma NextMoves(w: World, cluster: string, next: Uuid, step: Step)
    requires Healthy(w, cluster) && IsNext(w, cluster, next) && JoiningOf(w, cluster) == {}
    requires step.Reconcile? && step.id == next
    ensures Quiet(w, step) && InState(w, next, Ready)
    ensures InState(Stepped(w, step), next, if w.boxes[next].Bound() then Running else Joining)
  {
    assert ControlPlaneHealthy(w, next);
    assert next !in JoiningOf(w, cluster);
    forall id | id in ControlPlanes(w, cluster) ensures InState(w, id, Ready) || InState(w, id, Running) {
      assert ControlPlaneHealthy(w, id);
      assert id !in JoiningOf(w, cluster);
    }
    CountsMeanAll(w, cluster);
  }

  /** The monitor reports a join that succeeded. */
  lemma JoinReported(w: World, cluster: string, id: Uuid, j: Job, now: Time)
    requires Healthy(w, cluster) && id in ControlPlanes(w, cluster) && InState(w, id, Joining)
    requires JoinUnderway(w, id, j) && j.outcome == Succeeded
    ensures var steps := [Monitor(j, now)];
            && QuietRun(w, steps) && Healthy(After(w, steps), cluster)
            && Measure(After(w, steps), cluster) < Measure(w, cluster)
  {
    var report := Monitor(j, now);
    QuietLowers(w, report, cluster);
    QuietKeepsHealthy(w, report, cluster);
    OneStep(w, report, []);
    assert InState(Stepped(w, report), id, Running);
  }

  lemma JoinFinished(w: World, cluster: string, id: Uuid, j: Job)
    requires Healthy(w, cluster) && id in ControlPlanes(w, cluster) && InState(w, id, Joining)
    requires JoinUnderway(w, id, j) && j.outcome == Pending
    ensures var step := Finish(j, true);
            && Quiet(w, step) && Healthy(Stepped(w, step), cluster)
            && Measure(Stepped(w, step), cluster) == Measure(w, cluster)
            && id in ControlPlanes(Stepped(w, step), cluster) && InState(Stepped(w, step), id, Joining)
            && JoinUnderway(Stepped(w, step), id, j.(outcome := Succeeded))
  {
    QuietKeepsHealthy(w, Finish(j, true), cluster);
    QuietLowers(w, Finish(j, true), cluster);
    SameControlPlanes(w, Finish(j, true), cluster);
  }

  lemma JoinCompletes(w: World, cluster: string, id: Uuid, j: Job, now: Time) returns (steps: seq<Step>)
    requires Healthy(w, cluster) && id in ControlPlanes(w, cluster) && InState(w, id, Joining) && JoinUnderway(w, id, j)
    ensures 1 <= |steps| <= 2 && QuietRun(w, steps)
    ensures Healthy(After(w, steps), cluster) && Measure(After(w, steps), cluster) < Measure(w, cluster)
  {
    var done := j.(outcome := Succeeded);
    steps := [Monitor(done, now)];
    if j.outcome == Pending {
      JoinFinished(w, cluster, id, j);
      JoinReported(Stepped(w, Finish(j, true)), cluster, id, done, now);
      OneStep(w, Finish(j, true), steps);
      steps := [Finish(j, true)] + steps;
    } else {
      assert done == j;
      JoinReported(w, cluster, id, j, now);
    }
  }

  lemma {:induction false} RunConcat(w: World, a: seq<Step>, b: seq<Step>)
    requires QuietRun(w, a) && QuietRun(After(w, a), b)
    ensures QuietRun(w, a + b) && After(w, a + b) == After(After(w, a), b)
    decreases |a|
  {
    if a == [] {
      assert a + b == b;
    } else {
      assert (a + b)[1..] == a[1..] + b;
      RunConcat(Stepped(w, a[0]), a[1..], b);
    }
  }

  /** From every healthy state, at most two steps per unit of the measure lead to
      all control planes running. */
  lemma {:induction false} Converges(w: World, cluster: string, config: Config, now: Time) returns (steps: seq<Step>)
    requires Healthy(w, cluster)
    ensures QuietRun(w, steps) && AllRunning(After(w, steps), cluster)
    ensures |steps| <= 2 * Measure(w, cluster)
    decreases Measure(w, cluster)
  {
    steps := [];
    if !AllRunning(w, cluster) {
      var first := NotStuck(w, cluster, config, now);
      var rest := Converges(After(w, first), cluster, config, now);
      RunConcat(w, first, rest);
      steps := first + rest;
    }
  }
}
