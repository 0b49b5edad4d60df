/** The KISS actors as they write the shared records, each proved to take the
    step that `KissWorld` says it takes. */
module KissActors {
  import opened Results
  import opened KissBox
  import opened KissWorld
  import KissEdges

  /** Jobs have no say in the join queue. */
  lemma OnlyBoxesMatter(w: World, w': World, id: Uuid, group: Group)
    requires w.boxes == w'.boxes
    ensures IsJoinable(w', id, group) == IsJoinable(w, id, group)
    ensures IsNew(w', id, group) == IsNew(w, id, group)
  {
    assert ControlPlanes(w', group.cluster) == ControlPlanes(w, group.cluster);
    assert ReadyOf(w', group.cluster) == ReadyOf(w, group.cluster);
    assert RunningOf(w', group.cluster) == RunningOf(w, group.cluster);
  }

  /** The first node in order that is not running is next, and no other is. */
  lemma FirstIsNext(w: World, cluster: string, nodes: seq<Uuid>, i: nat)
    requires i < |nodes| && !InState(w, nodes[i], Running)
    requires forall j :: 0 <= j < |nodes| ==> nodes[j] in w.boxes
    requires forall id :: id in nodes <==> id in ControlPlanes(w, cluster)
    requires forall j, k :: 0 <= j < k < |nodes| ==> Before(w, nodes[j], nodes[k])
    requires forall j :: 0 <= j < i ==> InState(w, nodes[j], Running)
    ensures forall id :: IsNext(w, cluster, id) <==> id == nodes[i]
  {
    assert nodes[i] in nodes;
    forall id | id in ControlPlanes(w, cluster) && !InState(w, id, Running) && id != nodes[i]
      ensures Before(w, nodes[i], id)
    {
      var k :| 0 <= k < |nodes| && nodes[k] == id;
    }
  }

  class Store {
    var boxes: map<Uuid, BoxCrd>
    var jobs: set<Job>

    function View(): World
      reads this
    {
      World(boxes, jobs)
    }

    constructor ()
      ensures View() == EMPTY
    {
      boxes, jobs := map[], {};
    }

    method PatchStatus(id: Uuid, status: Status)
      requires id in boxes
      modifies this
      ensures View() == WithStatus(old(View()), id, status)
    {
      boxes := boxes[id := boxes[id].(status := Some(status))];
    }

    /** `is_next`: the first node of the sorted map that is not running. */
    method FindNext(cluster: string, id: Uuid) returns (next: bool)
      ensures next <==> IsNext(View(), cluster, id)
    {
      var w := View();
      var nodes := InOrder(w, ControlPlanes(w, cluster));
      var i := 0;
      while i < |nodes| && InState(w, nodes[i], Running)
        invariant 0 <= i <= |nodes|
        invariant forall j :: 0 <= j < i ==> InState(w, nodes[j], Running)
      {
        i := i + 1;
      }
      next := i < |nodes| && nodes[i] == id;
      if i < |nodes| {
        FirstIsNext(w, cluster, nodes, i);
      }
    }

    /** `is_joinable`. */
    method CanJoin(id: Uuid, group: Group) returns (joinable: bool)
      ensures joinable <==> IsJoinable(View(), id, group)
    {
      if id in ControlPlanes(View(), group.cluster) {
        var next := FindNext(group.cluster, id);
        joinable := IsControlPlaneReady(View(), group.cluster) && next;
      } else {
        joinable := IsControlPlaneRunning(View(), group.cluster);
      }
    }

    /** `AnsibleClient::spawn`, up to the creation of the job. */
    method Spawn(id: Uuid, newState: State) returns (spawned: bool)
      requires id in boxes
      modifies this
      ensures (View(), spawned) == Spawned(old(View()), id, newState)
    {
      var box := boxes[id];
      jobs := set j | j in jobs && !(j.owner == id && !j.critical);
      var cluster := View();
      OnlyBoxesMatter(old(View()), cluster, id, box.group);
      if newState == Joining {
        var joinable := CanJoin(id, box.group);
        if !joinable {
          return false;
        }
      }
      var job := Job(id, Complete(newState), false, HasCron(newState),
                     IsNew(cluster, id, box.group), box.group.cluster, Pending);
      jobs := jobs + {job};
      return true;
    }

    /** The operator's `reconcile`. */
    method Reconcile(id: Uuid, config: Config, now: Time)
      requires id in boxes
      modifies this
      ensures View() == Reconciled(config, old(View()), id, now)
      ensures KissEdges.IsReconciled(config, old(View()), View(), id, now)
    {
      KissEdges.ReconcileExactly(config, View(), id, now);
      var box := boxes[id];
      var oldState := box.State();
      var newState := Next(oldState);
      var isBindGroupUpdated := box.BindGroup().None? || box.BindGroup().value != box.group;

      // wait for new boxes with no access methods
      if oldState == New && !box.Access() {
        if now > box.LastUpdated() + TIMEOUT_NEW {
          newState := Disconnected;
        } else {
          return;
        }
      }

      // capture the timeout
      var threshold := Timeout(oldState);
      if threshold.Some? && now > box.LastUpdated() + threshold.value {
        newState := Failed;
      }

      // capture that the group has changed
      if oldState == Running && isBindGroupUpdated {
        newState := Disconnected;
      }

      if oldState != Joining && newState == Joining {
        if box.group.role == ExternalWorker {
          return;
        }
        if !config.enableDefaultCluster && box.group.cluster == DEFAULT_CLUSTER && box.group.role == GenericWorker {
          return;
        }
        if !isBindGroupUpdated {
          PatchStatus(id, Status(Running, box.Access(), box.BindGroup(), now));
          return;
        }
      }

      if oldState != newState || HasCron(newState) {
        if HasTask(newState) {
          var spawned := Spawn(id, newState);
          if !spawned {
            return;
          }
        }
        if oldState == newState {
          return;
        }
        var bindGroup := if newState == Joining then Some(box.group) else box.BindGroup();
        PatchStatus(id, Status(newState, box.Access(), bindGroup, now));
      }
    }

    /** The monitor's `update_box_state`; patching a missing box is an error. */
    method UpdateBoxState(id: Uuid, state: State, now: Time)
      modifies this
      ensures View() == WithState(old(View()), id, state, now)
    {
      if id in boxes {
        PatchStatus(id, Status(state, boxes[id].Access(), boxes[id].BindGroup(), now));
      }
    }

    /** The monitor's `reconcile`. */
    method MonitorJob(job: Job, now: Time)
      modifies this
      ensures View() == Monitored(old(View()), job, now)
    {
      if job.critical {
        return;
      }
      if job.outcome == Succeeded {
        if job.completed.Some? {
          UpdateBoxState(job.owner, job.completed.value, now);
        }
      } else if job.outcome == Broken {
        UpdateBoxState(job.owner, Failed, now);
      }
    }

    /** The gateway's `get_new`: creating the box and its status is one step. */
    method GetNewBox(id: Uuid, now: Time)
      modifies this
      ensures View() == Registered(old(View()), id, now)
    {
      if id in boxes {
        PatchStatus(id, Status(New, true, boxes[id].BindGroup(), now));
      } else {
        boxes := boxes[id := BoxCrd(now, Group(DEFAULT_CLUSTER, GenericWorker), None)];
        PatchStatus(id, Status(New, true, None, now));
      }
    }

    /** The gateway's `post_commission`. */
    method Commission(id: Uuid, access: bool, reset: bool, now: Time) returns (ok: bool)
      modifies this
      ensures ok <==> id in old(boxes)
      ensures View() == Commissioned(old(View()), id, access, reset, now)
    {
      if id !in boxes {
        return false;
      }
      var bindGroup := if reset then None else boxes[id].BindGroup();
      PatchStatus(id, Status(Ready, access, bindGroup, now));
      return true;
    }
  }
}
