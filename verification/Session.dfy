/** Vine sessions: a user is bound to a node by labels on the node, the user's
    namespace, the user and the node's box, written in that order on login and in
    the reverse order on logout. */
module Session {
  import opened Results
  import opened Calls

  /** The binding labels of an object. `bound` is the status label. */
  datatype Labels = Labels(user: Option<string>, node: Option<string>, bound: Option<bool>, persistent: bool)

  /** Namespaces are keyed by the user whose name they carry. */
  datatype World = World(nodes: map<string, Labels>, users: map<string, Labels>,
                         namespaces: map<string, Labels>, boxes: map<string, Labels>, calls: nat)

  /** The object is labelled as bound to the node by the user. */
  predicate BoundTo(l: Labels, node: string, user: string) {
    l.bound == Some(true) && l.node == Some(node) && l.user == Some(user)
  }

  /** `get_label`. */
  function GetLabel(node: string, user: Option<string>, persistent: bool): Labels {
    Labels(user, Some(node), Some(user.Some?), persistent)
  }

  datatype Allocation = ByMyself | ByOtherNode(node: string) | ByOtherUser(user: string) | NotAllocated

  /** `is_allocable`. */
  function IsAllocable(l: Labels, node: Option<string>, user: string): Allocation {
    if l.bound.None? || l.bound == Some(false) then NotAllocated
    else if node.Some? && l.node.Some? && l.node != node then ByOtherNode(l.node.value)
    else if l.user.Some? && l.user.value != user then ByOtherUser(l.user.value)
    else ByMyself
  }

  predicate Allocable(l: Labels, node: Option<string>, user: string) {
    IsAllocable(l, node, user) == ByMyself || IsAllocable(l, node, user) == NotAllocated
  }

  /** What a run is about: the node as it was read, and the user. */
  datatype Spec = Spec(node: string, persistent: bool, user: string)

  // ------------------------------------------------------------------- calls

  function Call(f: Faults, w: World, after: World): (World, bool) {
    var effect := if f(w.calls) == Refused then w else after;
    (effect.(calls := w.calls + 1), f(w.calls) == Fine)
  }

  /** What a run does one after the other. */
  datatype Action =
    | Other
    | MakeNamespace
    | LabelNode
    | LabelNamespace
    | LabelUser
    | LabelBox

  /** The effect of one action; `user` is the value of the user label. */
  function Acted(w: World, action: Action, spec: Spec, user: Option<string>): World {
    var mark := GetLabel(spec.node, user, spec.persistent);
    match action
    case Other => w
    case MakeNamespace =>
      if spec.user in w.namespaces then w
      else w.(namespaces := w.namespaces[spec.user := Labels(None, None, None, false)])
    case LabelNode => if spec.node in w.nodes then w.(nodes := w.nodes[spec.node := mark]) else w
    case LabelNamespace =>
      if spec.user in w.namespaces then w.(namespaces := w.namespaces[spec.user := mark]) else w
    case LabelUser => if spec.user in w.users then w.(users := w.users[spec.user := mark]) else w
    case LabelBox => if spec.node in w.boxes then w.(boxes := w.boxes[spec.node := mark]) else w
  }

  /** Labelling an object that is not there is an error, except for the box. */
  predicate Possible(w: World, action: Action, spec: Spec) {
    match action
    case LabelNode => spec.node in w.nodes
    case LabelNamespace => spec.user in w.namespaces
    case LabelUser => spec.user in w.users
    case _ => true
  }

  /** An action is one call, except that the box is looked up first and left alone
      when there is none. */
  function Performed(f: Faults, w: World, action: Action, spec: Spec, user: Option<string>): (World, bool) {
    if action == LabelBox then
      var got := Call(f, w, w);
      if !got.1 || spec.node !in w.boxes then got else Call(f, got.0, Acted(got.0, action, spec, user))
    else
      var called := Call(f, w, Acted(w, action, spec, user));
      (called.0, called.1 && Possible(w, action, spec))
  }

  /** The actions up to the first that fails. */
  function Chained(f: Faults, w: World, actions: seq<Action>, spec: Spec, user: Option<string>): (World, bool)
    decreases |actions|
  {
    if actions == [] then (w, true)
    else
      var done := Performed(f, w, actions[0], spec, user);
      if done.1 then Chained(f, done.0, actions[1..], spec, user) else done
  }

  /** `create` after the node: namespace, user, box, shared volumes, template. */
  const BIND_ACTIONS := [MakeNamespace, LabelNamespace, LabelUser, LabelBox, Other, Other]

  /** `delete` before the node: template, pods, box, user, namespace. */
  const CLEAR_ACTIONS := [Other, Other, LabelBox, LabelUser, MakeNamespace, LabelNamespace]

  function Created(f: Faults, w: World, spec: Spec): (World, bool) {
    Chained(f, w, [LabelNode] + BIND_ACTIONS, spec, Some(spec.user))
  }

  function Deleted(f: Faults, w: World, spec: Spec): (World, bool) {
    Chained(f, w, CLEAR_ACTIONS + [LabelNode], spec, None)
  }

  /** `try_create`: on failure the session is deleted again if asked for. */
  function TryCreated(f: Faults, w: World, spec: Spec, deleteOnFail: bool): (World, bool) {
    var created := Created(f, w, spec);
    if created.1 || !deleteOnFail then created else (Deleted(f, created.0, spec).0, false)
  }

  /** The guards of `execute_with`; `admitted` stands for the checks of box bindings,
      quotas and roles. */
  function Guarded(w: World, node: string, user: string, admitted: bool): Option<Spec> {
    if user !in w.users || !Allocable(w.users[user], None, user) then None
    else if node !in w.nodes || !Allocable(w.nodes[node], Some(node), user) then None
    else if !admitted then None
    else Some(Spec(node, w.nodes[node].persistent, user))
  }

  function LoggedIn(f: Faults, w: World, node: string, user: string, admitted: bool, deleteOnFail: bool): (World, bool) {
    match Guarded(w, node, user, admitted)
    case None => (w, false)
    case Some(spec) => TryCreated(f, w, spec, deleteOnFail)
  }

  function LoggedOut(f: Faults, w: World, node: string, user: string, admitted: bool): (World, bool) {
    match Guarded(w, node, user, admitted)
    case None => (w, false)
    case Some(spec) => Deleted(f, w, spec)
  }

  /** The operator's `reconcile` of a node with `try_delete` inside it; `over` says
      that the session has started and is no longer alive. */
  function Reaped(f: Faults, w: World, node: string, over: bool): (World, bool) {
    if node !in w.nodes then (w, false)
    else
      var l := w.nodes[node];
      if l.user.None? || l.persistent || l.bound != Some(true) || l.node.None? || !over then (w, false)
      else Deleted(f, w, Spec(node, l.persistent, l.user.value))
  }
}
