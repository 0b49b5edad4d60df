/** Boxes of the KISS bare-metal manager and the life cycle of their states. */
module KissBox {
  import opened Results

  datatype Role =
    | ControlPlane | Compute | Dashboard | Desktop | Gateway | Storage | Robot
    | GenericWorker | ExternalWorker

  datatype Group = Group(cluster: string, role: Role)

  const DEFAULT_CLUSTER := "default"

  datatype State =
    New | Commissioning | Ready | Joining | Running | GroupChanged | Failed | Disconnected

  type Time = int

  const HOUR := 3600
  const TIMEOUT_NEW := 30

  /** The state the operator drives a box to. */
  function Next(s: State): State {
    match s
    case New => Commissioning
    case Ready => Joining
    case _ => s
  }

  /** The state a successful job leaves its box in. */
  function Complete(s: State): Option<State> {
    if s == Joining then Some(Running) else None
  }

  /** Whether there is an Ansible task for the state. */
  predicate HasTask(s: State) {
    s != New && s != Ready
  }

  /** Whether the task is repeated hourly. */
  predicate HasCron(s: State) {
    s == Running || s == GroupChanged || s == Failed || s == Disconnected
  }

  function Timeout(s: State): Option<Time> {
    if s == Commissioning || s == Joining then Some(2 * HOUR) else None
  }

  datatype Status = Status(state: State, access: bool, bindGroup: Option<Group>, updated: Time)

  datatype BoxCrd = BoxCrd(created: Time, group: Group, status: Option<Status>)
  {
    function State(): State {
      if status.Some? then status.value.state else New
    }

    function Access(): bool {
      status.Some? && status.value.access
    }

    function BindGroup(): Option<Group> {
      if status.Some? then status.value.bindGroup else None
    }

    function LastUpdated(): Time {
      if status.Some? then status.value.updated else created
    }

    /** The box is bound to the group it is meant to be in. */
    predicate Bound() {
      BindGroup() == Some(group)
    }
  }
}
