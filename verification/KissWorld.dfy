/** The records the four KISS actors share, and one atomic step of each actor:
    the operator's reconcile with the Ansible spawn inside it, the job monitor,
    the HTTP gateway, and the environment. */
module KissWorld {
  import opened Results
  import opened KissBox

  type Uuid = nat

  datatype Outcome = Pending | Succeeded | Broken

  /** An Ansible job; `isNew` and `cluster` are what its playbook is told. */
  datatype Job = Job(owner: Uuid, completed: Option<State>, critical: bool, cron: bool,
                     isNew: bool, cluster: string, outcome: Outcome)

  datatype World = World(boxes: map<Uuid, BoxCrd>, jobs: set<Job>)

  datatype Config = Config(enableDefaultCluster: bool)

  // --------------------------------------------------------------- cluster.rs

  predicate IsControlPlane(w: World, id: Uuid, cluster: string) {
    id in w.boxes && w.boxes[id].group == Group(cluster, ControlPlane)
  }

  /** `load_control_planes`. */
  function ControlPlanes(w: World, cluster: string): set<Uuid> {
    set id | id in w.boxes && IsControlPlane(w, id, cluster)
  }

  predicate InState(w: World, id: Uuid, s: State) {
    id in w.boxes && w.boxes[id].status.Some? && w.boxes[id].State() == s
  }

  function RunningOf(w: World, cluster: string): set<Uuid> {
    set id | id in ControlPlanes(w, cluster) && InState(w, id, Running)
  }

  function ReadyOf(w: World, cluster: string): set<Uuid> {
    set id | id in ControlPlanes(w, cluster) && (InState(w, id, Ready) || InState(w, id, Running))
  }

  /** The order of the sorted node map: by creation, then by host name. */
  predicate Before(w: World, a: Uuid, b: Uuid)
    requires a in w.boxes && b in w.boxes
  {
    w.boxes[a].created < w.boxes[b].created || (w.boxes[a].created == w.boxes[b].created && a < b)
  }

  /** The creation order has a first element in every non-empty set. */
  lemma {:induction false} FirstExists(w: World, ids: set<Uuid>) returns (first: Uuid)
    requires ids != {} && ids <= w.boxes.Keys
    ensures first in ids && forall id :: id in ids && id != first ==> Before(w, first, id)
    decreases |ids|
  {
    var x :| x in ids;
    first := x;
    if ids != {x} {
      var y := FirstExists(w, ids - {x});
      first := if Before(w, x, y) then x else y;
      assert forall id :: id in ids ==> id == x || id in ids - {x};
    }
  }

  predicate IsFirst(w: World, ids: set<Uuid>, first: Uuid)
    requires ids <= w.boxes.Keys
  {
    first in ids && forall id :: id in ids && id != first ==> Before(w, first, id)
  }

  lemma OneFirst(w: World, ids: set<Uuid>)
    requires ids != {} && ids <= w.boxes.Keys
    ensures exists first :: IsFirst(w, ids, first)
    ensures forall a, b :: IsFirst(w, ids, a) && IsFirst(w, ids, b) ==> a == b
  {
    var first := FirstExists(w, ids);
    assert IsFirst(w, ids, first);
  }

  /** The nodes in the order the sorted map is iterated. */
  function InOrder(w: World, ids: set<Uuid>): (nodes: seq<Uuid>)
    requires ids <= w.boxes.Keys
    ensures forall id :: id in nodes <==> id in ids
    ensures forall i, j :: 0 <= i < j < |nodes| ==> Before(w, nodes[i], nodes[j])
  {
    if ids == {} then []
    else
      OneFirst(w, ids);
      var first :| IsFirst(w, ids, first);
      var rest := InOrder(w, ids - {first});
      [first] + rest
  }

  /** `is_next`: of the nodes that are not running, the one before all others. */
  predicate IsNext(w: World, cluster: string, id: Uuid) {
    && id in ControlPlanes(w, cluster) && !InState(w, id, Running)
    && forall other :: other in ControlPlanes(w, cluster) && !InState(w, other, Running) && other != id ==> Before(w, id, other)
  }

  predicate IsControlPlaneReady(w: World, cluster: string) {
    |ReadyOf(w, cluster)| == |ControlPlanes(w, cluster)|
  }

  predicate IsControlPlaneRunning(w: World, cluster: string) {
    && !(|RunningOf(w, cluster)| == 0 && cluster != DEFAULT_CLUSTER)
    && |RunningOf(w, cluster)| == |ControlPlanes(w, cluster)|
  }

  /** `is_joinable` for the box whose group is `group`. */
  predicate IsJoinable(w: World, id: Uuid, group: Group) {
    if id in ControlPlanes(w, group.cluster)
    then IsControlPlaneReady(w, group.cluster) && IsNext(w, group.cluster, id)
    else IsControlPlaneRunning(w, group.cluster)
  }

  /** `is_new`: the join would bootstrap the cluster. */
  predicate IsNew(w: World, id: Uuid, group: Group) {
    id in ControlPlanes(w, group.cluster) && RunningOf(w, group.cluster) == {}
  }

  // ------------------------------------------------------- ansible/src/lib.rs

  function WithoutJobs(jobs: set<Job>, id: Uuid): set<Job> {
    set j | j in jobs && !(j.owner == id && !j.critical)
  }

  function NewJob(w: World, id: Uuid, state: State): Job
    requires id in w.boxes
  {
    var group := w.boxes[id].group;
    Job(id, Complete(state), false, HasCron(state), IsNew(w, id, group), group.cluster, Pending)
  }

  /** `spawn`: earlier jobs of the box are deleted even when the join is refused. */
  function Spawned(w: World, id: Uuid, state: State): (World, bool)
    requires id in w.boxes
  {
    var cleared := w.(jobs := WithoutJobs(w.jobs, id));
    if state == Joining && !IsJoinable(w, id, w.boxes[id].group) then (cleared, false)
    else (cleared.(jobs := cleared.jobs + {NewJob(w, id, state)}), true)
  }

  // ------------------------------------------------------- operator/src/ctx.rs

  function WithStatus(w: World, id: Uuid, status: Status): World
    requires id in w.boxes
  {
    w.(boxes := w.boxes[id := w.boxes[id].(status := Some(status))])
  }

  /** The new state the operator aims at, and `None` while it waits for a new box. */
  function Target(b: BoxCrd, now: Time): Option<State> {
    var current := b.State();
    if current == New && !b.Access() then
      if now > b.LastUpdated() + TIMEOUT_NEW then Some(Disconnected) else None
    else if Timeout(current).Some? && now > b.LastUpdated() + Timeout(current).value then Some(Failed)
    else if current == Running && !b.Bound() then Some(Disconnected)
    else Some(Next(current))
  }

  predicate SkipsJoining(cfg: Config, group: Group) {
    group.role == ExternalWorker
    || (!cfg.enableDefaultCluster && group.cluster == DEFAULT_CLUSTER && group.role == GenericWorker)
  }

  /** One `reconcile` of a box. */
  function Reconciled(cfg: Config, w: World, id: Uuid, now: Time): World
    requires id in w.boxes
  {
    var b := w.boxes[id];
    var current := b.State();
    match Target(b, now)
    case None => w
    case Some(state) =>
      if current != Joining && state == Joining && SkipsJoining(cfg, b.group) then w
      else if current != Joining && state == Joining && b.Bound() then
        WithStatus(w, id, Status(Running, b.Access(), b.BindGroup(), now))
      else if current == state && !HasCron(state) then w
      else
        var (spawned, ok) := if HasTask(state) then Spawned(w, id, state) else (w, true);
        if !ok || current == state then spawned
        else WithStatus(spawned, id, Status(state, b.Access(), if state == Joining then Some(b.group) else b.BindGroup(), now))
  }

  // -------------------------------------------------- monitor and gateway steps

  /** `update_box_state`: nothing is checked, and the bind group is kept. */
  function WithState(w: World, id: Uuid, state: State, now: Time): World {
    if id !in w.boxes then w
    else WithStatus(w, id, Status(state, w.boxes[id].Access(), w.boxes[id].BindGroup(), now))
  }

  /** One `reconcile` of a job by the monitor. */
  function Monitored(w: World, j: Job, now: Time): World {
    if j.critical then w
    else if j.outcome == Succeeded then
      if j.completed.Some? then WithState(w, j.owner, j.completed.value, now) else w
    else if j.outcome == Broken then WithState(w, j.owner, Failed, now)
    else w
  }

  /** `get_new`: a box boots into the installer. */
  function Registered(w: World, id: Uuid, now: Time): World {
    if id in w.boxes then WithStatus(w, id, Status(New, true, w.boxes[id].BindGroup(), now))
    else w.(boxes := w.boxes[id := BoxCrd(now, Group(DEFAULT_CLUSTER, GenericWorker), Some(Status(New, true, None, now)))])
  }

  /** `post_commission`. */
  function Commissioned(w: World, id: Uuid, access: bool, reset: bool, now: Time): World {
    if id !in w.boxes then w
    else WithStatus(w, id, Status(Ready, access, if reset then None else w.boxes[id].BindGroup(), now))
  }

  // -------------------------------------------------------------------- actors

  datatype Step =
    | Reconcile(id: Uuid, config: Config, now: Time)
    | Monitor(job: Job, now: Time)
    | GetNew(id: Uuid, now: Time)
    | PostCommission(id: Uuid, access: bool, reset: bool, now: Time)
    | ChangeGroup(id: Uuid, group: Group)
    | Finish(job: Job, ok: bool)
    | Expire(job: Job)
    | Upgrade(job: Job)

  /** What may happen. `ChangeGroup`, `Finish`, `Expire` and `Upgrade` belong to the
      environment: users, the job runner and the maintenance tool. Groups are only changed on boxes that are not joining, and
      boxes only report a commission while they are commissioning. */
  predicate Enabled(w: World, step: Step) {
    match step
    case Reconcile(id, _, _) => id in w.boxes
    case Monitor(job, _) => job in w.jobs
    case GetNew(_, _) => true
    case PostCommission(id, _, _, _) => InState(w, id, Commissioning)
    case ChangeGroup(id, _) => id in w.boxes && !InState(w, id, Joining)
    case Finish(job, _) => job in w.jobs && (job.outcome == Pending || job.cron)
    case Expire(job) => job in w.jobs && job.outcome != Pending && !job.cron
    case Upgrade(job) => job.critical && job.completed.None?
  }

  function Stepped(w: World, step: Step): World
    requires Enabled(w, step)
  {
    match step
    case Reconcile(id, config, now) => Reconciled(config, w, id, now)
    case Monitor(job, now) => Monitored(w, job, now)
    case GetNew(id, now) => Registered(w, id, now)
    case PostCommission(id, access, reset, now) => Commissioned(w, id, access, reset, now)
    case ChangeGroup(id, group) => w.(boxes := w.boxes[id := w.boxes[id].(group := group)])
    case Finish(job, ok) => w.(jobs := w.jobs - {job} + {job.(outcome := if ok then Succeeded else Broken)})
    case Expire(job) => w.(jobs := w.jobs - {job})
    case Upgrade(job) => w.(jobs := w.jobs + {job})
  }

  /** Every step of the run can happen when its turn comes. */
  ghost predicate Runs(w: World, steps: seq<Step>)
    decreases |steps|
  {
    steps == [] || (Enabled(w, steps[0]) && Runs(Stepped(w, steps[0]), steps[1..]))
  }

  ghost function After(w: World, steps: seq<Step>): World
    requires Runs(w, steps)
    decreases |steps|
  {
    if steps == [] then w else After(Stepped(w, steps[0]), steps[1..])
  }

  const EMPTY := World(map[], {})
}
