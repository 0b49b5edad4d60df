/** The Dash job controller: a job object with a finalizer, and the resources its
    templates create and delete one by one through calls that may fail. */
module DashJob {
  import opened Results
  import opened Calls

  datatype State = Pending | Running | Error | Completed | Deleting

  type Time = int

  const GC_TIMEOUT := 20 * 60

  datatype Status = Status(state: State, updated: Time)

  /** `deleting` is the deletion timestamp of the object. */
  datatype JobObject = JobObject(finalizer: bool, deleting: bool, status: Option<Status>)
  {
    function State(): State {
      if status.Some? then status.value.state else Pending
    }
  }

  /** A resource rendered from the job's templates; `claim` marks a
      PersistentVolumeClaim, which outlives its job. */
  datatype Resource = Resource(name: string, immutable: bool, claim: bool)

  datatype Cluster = Cluster(job: Option<JobObject>, live: set<Resource>, calls: nat)

  datatype Operation = Create | Delete

  // ------------------------------------------------------------ API calls

  /** A call whose effect is `after`. */
  function Call(f: Faults, c: Cluster, after: Cluster): (Cluster, bool) {
    var effect := if f(c.calls) == Refused then c else after;
    (effect.(calls := c.calls + 1), f(c.calls) == Fine)
  }

  function WithStatus(c: Cluster, state: State, now: Time): Cluster {
    if c.job.None? then c else c.(job := Some(c.job.value.(status := Some(Status(state, now)))))
  }

  /** Deleting an object with a finalizer only marks it. */
  function WithoutJob(c: Cluster): Cluster {
    if c.job.None? then c
    else if c.job.value.finalizer then c.(job := Some(c.job.value.(deleting := true)))
    else c.(job := None)
  }

  /** Removing the finalizer of a marked object removes the object. */
  function WithoutFinalizer(c: Cluster): Cluster {
    if c.job.None? then c
    else if c.job.value.deleting then c.(job := None)
    else c.(job := Some(c.job.value.(finalizer := false)))
  }

  /** The API refuses to add a finalizer to a marked object. */
  function WithFinalizer(c: Cluster): Cluster {
    if c.job.None? || c.job.value.deleting then c
    else c.(job := Some(c.job.value.(finalizer := true)))
  }

  // ------------------------------------------------- provider/src/client/job.rs

  /** `try_create` and `try_delete`. */
  function Tried(f: Faults, c: Cluster, op: Operation, r: Resource, present: bool): (Cluster, bool) {
    match op
    case Create =>
      if present then
        if r.immutable then (c, true) else Call(f, c, c)
      else Call(f, c, c.(live := c.live + {r}))
    case Delete =>
      if r.claim then (c, true)
      else if present then Call(f, c, c.(live := c.live - {r}))
      else (c, true)
  }

  /** The loop of `execute_with`: it stops at the first call that fails. */
  function Looped(f: Faults, c: Cluster, op: Operation, rs: seq<Resource>): (Cluster, bool)
    decreases |rs|
  {
    if rs == [] then (c, true)
    else
      var got := Call(f, c, c);
      if !got.1 then got
      else
        var tried := Tried(f, got.0, op, rs[0], rs[0] in c.live);
        if !tried.1 then tried else Looped(f, tried.0, op, rs[1..])
  }

  /** `execute_with`: the templates are loaded first. */
  function Executed(f: Faults, c: Cluster, op: Operation, rs: seq<Resource>): (Cluster, bool) {
    var loaded := Call(f, c, c);
    if !loaded.1 then loaded else Looped(f, loaded.0, op, rs)
  }

  /** The loop of `exists_named`: `None` when a call fails. */
  function Found(f: Faults, c: Cluster, rs: seq<Resource>): (Cluster, Option<bool>)
    decreases |rs|
  {
    if rs == [] then (c, Some(true))
    else
      var got := Call(f, c, c);
      if !got.1 then (got.0, None)
      else if rs[0] !in c.live then (got.0, Some(false))
      else Found(f, got.0, rs[1..])
  }

  function Existing(f: Faults, c: Cluster, rs: seq<Resource>): (Cluster, Option<bool>) {
    var loaded := Call(f, c, c);
    if !loaded.1 then (loaded.0, None) else Found(f, loaded.0, rs)
  }

  // ------------------------------------------------- operator/src/validator/job.rs

  /** `create`: a failed creation is rolled back. */
  function Created(f: Faults, c: Cluster, rs: seq<Resource>): (Cluster, bool) {
    var created := Executed(f, c, Create, rs);
    if created.1 then created else (Executed(f, created.0, Delete, rs).0, false)
  }

  // ------------------------------------------------------ operator/src/ctx/job.rs

  /** One `reconcile` of a job. */
  function Reconciled(f: Faults, c: Cluster, rs: seq<Resource>, now: Time): Cluster
    requires c.job.Some?
  {
    var job := c.job.value;
    if job.deleting && (job.status.None? || job.State() != Deleting) then Call(f, c, WithStatus(c, Deleting, now)).0
    else if !job.finalizer then Call(f, c, WithFinalizer(c)).0
    else
      match job.State()
      case Pending =>
        var created := Created(f, c, rs);
        Call(f, created.0, WithStatus(created.0, if created.1 then Running else Error, now)).0
      case Running =>
        var running := Existing(f, c, rs);
        if running.1 != Some(false) then running.0
        else
          var deleted := Executed(f, running.0, Delete, rs);
          if deleted.1 then Call(f, deleted.0, WithStatus(deleted.0, Completed, now)).0 else deleted.0
      case Error => Collected(f, c, job, now)
      case Completed => Collected(f, c, job, now)
      case Deleting =>
        var deleted := Executed(f, c, Delete, rs);
        if deleted.1 then Call(f, deleted.0, WithoutFinalizer(deleted.0)).0 else deleted.0
  }

  /** A job that has ended is deleted after the timeout. */
  function Collected(f: Faults, c: Cluster, job: JobObject, now: Time): Cluster {
    if job.status.None? || now - job.status.value.updated >= GC_TIMEOUT then Call(f, c, WithoutJob(c)).0 else c
  }
}
