/** The controller at work on the cluster, each method proved to do what
    `DashJob` says, whatever calls fail. */
module DashJobController {
  import opened Results
  import opened Calls
  import opened DashJob
  import DashJobEdges

  class Controller {
    const faults: Faults
    const templates: seq<Resource>
    var job: Option<JobObject>
    var live: set<Resource>
    var calls: nat

    function View(): Cluster
      reads this
    {
      Cluster(job, live, calls)
    }

    constructor (faults: Faults, templates: seq<Resource>)
      ensures this.faults == faults && this.templates == templates && View() == Cluster(None, {}, 0)
    {
      this.faults, this.templates := faults, templates;
      job, live, calls := None, {}, 0;
    }

    /** The answer to a call that changes nothing. */
    method Ask() returns (ok: bool)
      modifies this`calls
      ensures (View(), ok) == Call(faults, old(View()), old(View()))
    {
      ok := faults(calls) == Fine;
      calls := calls + 1;
    }

    method CreateResource(r: Resource) returns (ok: bool)
      modifies this`calls, this`live
      ensures (View(), ok) == Call(faults, old(View()), old(View()).(live := old(live) + {r}))
    {
      if faults(calls) != Refused {
        live := live + {r};
      }
      ok := Ask();
    }

    method DeleteResource(r: Resource) returns (ok: bool)
      modifies this`calls, this`live
      ensures (View(), ok) == Call(faults, old(View()), old(View()).(live := old(live) - {r}))
    {
      if faults(calls) != Refused {
        live := live - {r};
      }
      ok := Ask();
    }

    /** `update_spec_or_requeue`: an error is only logged. */
    method UpdateSpec(state: State, now: Time)
      modifies this`calls, this`job
      ensures View() == Call(faults, old(View()), WithStatus(old(View()), state, now)).0
    {
      if faults(calls) != Refused && job.Some? {
        job := Some(job.value.(status := Some(Status(state, now))));
      }
      var _ := Ask();
    }

    method DeleteOrRequeue()
      modifies this`calls, this`job
      ensures View() == Call(faults, old(View()), WithoutJob(old(View()))).0
    {
      if faults(calls) != Refused && job.Some? {
        job := if job.value.finalizer then Some(job.value.(deleting := true)) else None;
      }
      var _ := Ask();
    }

    method AddFinalizer()
      modifies this`calls, this`job
      ensures View() == Call(faults, old(View()), WithFinalizer(old(View()))).0
    {
      if faults(calls) != Refused && job.Some? && !job.value.deleting {
        job := Some(job.value.(finalizer := true));
      }
      var _ := Ask();
    }

    method RemoveFinalizer()
      modifies this`calls, this`job
      ensures View() == Call(faults, old(View()), WithoutFinalizer(old(View()))).0
    {
      if faults(calls) != Refused && job.Some? {
        job := if job.value.deleting then None else Some(job.value.(finalizer := false));
      }
      var _ := Ask();
    }

    method TryCreate(r: Resource, present: bool) returns (ok: bool)
      modifies this`calls, this`live
      ensures (View(), ok) == Tried(faults, old(View()), Create, r, present)
    {
      if present {
        if r.immutable {
          return true;
        }
        ok := Ask();
      } else {
        ok := CreateResource(r);
      }
    }

    method TryDelete(r: Resource, present: bool) returns (ok: bool)
      modifies this`calls, this`live
      ensures (View(), ok) == Tried(faults, old(View()), Delete, r, present)
    {
      if r.claim || !present {
        return true;
      }
      ok := DeleteResource(r);
    }

    /** `execute_with`: load the templates, then act on one after the other. */
    method ExecuteWith(op: Operation) returns (ok: bool)
      modifies this`calls, this`live
      ensures (View(), ok) == Executed(faults, old(View()), op, templates)
    {
      ok := Ask();
      ghost var loaded := View();
      var i := 0;
      while i < |templates| && ok
        invariant 0 <= i <= |templates|
        invariant ok ==> Looped(faults, View(), op, templates[i..]) == Executed(faults, old(View()), op, templates)
        invariant !ok ==> (View(), false) == Executed(faults, old(View()), op, templates)
      {
        var r := templates[i];
        var present := r in live;
        ok := Ask();
        if ok {
          match op {
            case Create => ok := TryCreate(r, present);
            case Delete => ok := TryDelete(r, present);
          }
        }
        i := i + 1;
      }
    }

    /** `exists_named`, and `None` when a call fails. */
    method IsRunning() returns (running: Option<bool>)
      modifies this`calls
      ensures (View(), running) == Existing(faults, old(View()), templates)
    {
      var ok := Ask();
      running := if ok then Some(true) else None;
      var i := 0;
      while i < |templates| && running == Some(true)
        invariant 0 <= i <= |templates|
        invariant running == Some(true) ==> Found(faults, View(), templates[i..]) == Existing(faults, old(View()), templates)
        invariant running != Some(true) ==> (View(), running) == Existing(faults, old(View()), templates)
      {
        var present := templates[i] in live;
        ok := Ask();
        running := if !ok then None else Some(present);
        i := i + 1;
      }
    }

    /** `create`, with rollback. */
    method CreateAll() returns (ok: bool)
      modifies this`calls, this`live
      ensures (View(), ok) == Created(faults, old(View()), templates)
    {
      ok := ExecuteWith(Create);
      if !ok {
        var _ := ExecuteWith(Delete);
      }
    }

    method Reconcile(now: Time)
      requires job.Some?
      modifies this`calls, this`live, this`job
      ensures View() == Reconciled(faults, old(View()), templates, now)
      ensures DashJobEdges.IsReconciled(faults, old(View()), View(), templates, now)
    {
      DashJobEdges.ReconcileExactly(faults, View(), templates, now);
      var data := job.value;
      if data.deleting && (data.status.None? || data.status.value.state != Deleting) {
        UpdateSpec(Deleting, now);
        return;
      } else if !data.finalizer {
        AddFinalizer();
        return;
      }
      match data.State() {
        case Pending =>
          var ok := CreateAll();
          UpdateSpec(if ok then Running else Error, now);
        case Running =>
          var running := IsRunning();
          if running == Some(false) {
            var ok := ExecuteWith(Delete);
            if ok {
              UpdateSpec(Completed, now);
            }
          }
        case Error =>
          CollectAfterTimeout(data, now);
        case Completed =>
          CollectAfterTimeout(data, now);
        case Deleting =>
          var ok := ExecuteWith(Delete);
          if ok {
            RemoveFinalizer();
          }
      }
    }

    method CollectAfterTimeout(data: JobObject, now: Time)
      modifies this`calls, this`job
      ensures View() == Collected(faults, old(View()), data, now)
    {
      if data.status.None? || now - data.status.value.updated >= GC_TIMEOUT {
        DeleteOrRequeue();
      }
    }
  }
}
