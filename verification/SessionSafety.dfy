/** The node label is the session lock. */
module SessionSafety {
  import opened Results
  import opened Calls
  import opened Session

  /** A node's label names itself. Whatever is labelled as bound to a node by a user is labelled so together with
      the node; a user and a namespace only by their own user, a box only to its
      own node. */
  predicate Locked(w: World) {
    && (forall x :: x in w.nodes ==> w.nodes[x].node.None? || w.nodes[x].node == Some(x))
    && (forall x :: x in w.users ==> UserKept(w, w.users[x], x))
    && (forall x :: x in w.namespaces ==> UserKept(w, w.namespaces[x], x))
    && (forall x :: x in w.boxes ==> BoxKept(w, w.boxes[x], x))
  }

  /** The object is labelled as bound to some node by some user. */
  predicate Refers(l: Labels) {
    l.bound == Some(true) && l.node.Some? && l.user.Some?
  }

  predicate Holds(w: World, n: string, u: string) {
    n in w.nodes && BoundTo(w.nodes[n], n, u)
  }

  predicate UserKept(w: World, l: Labels, x: string) {
    Refers(l) ==> l.user == Some(x) && Holds(w, l.node.value, x)
  }

  predicate BoxKept(w: World, l: Labels, x: string) {
    Refers(l) ==> l.node == Some(x) && Holds(w, x, l.user.value)
  }

  predicate RefersTo(l: Labels, n: string) {
    Refers(l) && l.node == Some(n)
  }

  /** Nothing but the node refers to the node. */
  predicate Unreferenced(w: World, n: string) {
    && (forall x :: x in w.users ==> !RefersTo(w.users[x], n))
    && (forall x :: x in w.namespaces ==> !RefersTo(w.namespaces[x], n))
    && (forall x :: x in w.boxes ==> !RefersTo(w.boxes[x], n))
  }

  lemma {:induction false} ChainedSplit(f: Faults, w: World, a: seq<Action>, b: seq<Action>, spec: Spec,
                                        user: Option<string>)
    ensures Chained(f, w, a + b, spec, user) ==
            var first := Chained(f, w, a, spec, user);
            if first.1 then Chained(f, first.0, b, spec, user) else first
    decreases |a|
  {
    if a == [] {
      assert a + b == b;
    } else {
      assert (a + b)[1..] == a[1..] + b;
      var done := Performed(f, w, a[0], spec, user);
      if done.1 {
        ChainedSplit(f, done.0, a[1..], b, spec, user);
      }
    }
  }

  /** The action took effect, or not; only the number of calls changed otherwise. */
  lemma PerformedEffect(f: Faults, w: World, action: Action, spec: Spec, user: Option<string>)
    ensures var r := Performed(f, w, action, spec, user).0;
            r == w.(calls := r.calls) || r == Acted(w, action, spec, user).(calls := r.calls)
  {
  }

  /** The number of calls does not matter. */
  lemma SameLabels(w: World, w': World)
    ensures w' == w.(calls := w'.calls) ==>
              && (Locked(w') <==> Locked(w))
              && (forall n :: Unreferenced(w', n) <==> Unreferenced(w, n))
              && (forall n, u :: Holds(w', n, u) <==> Holds(w, n, u))
  {
    if w' == w.(calls := w'.calls) {
      forall n ensures Unreferenced(w', n) <==> Unreferenced(w, n) {
      }
    }
  }

  lemma BindKeepsLocked(w: World, action: Action, spec: Spec)
    requires Locked(w) && Holds(w, spec.node, spec.user)
    ensures var w' := Acted(w, action, spec, Some(spec.user)); Locked(w') && Holds(w', spec.node, spec.user)
  {
  }

  /** Labelling under a held node keeps the lock. */
  lemma {:induction false} BindingKeepsLocked(f: Faults, w: World, actions: seq<Action>, spec: Spec)
    requires Locked(w) && Holds(w, spec.node, spec.user)
    ensures var r := Chained(f, w, actions, spec, Some(spec.user)).0;
            Locked(r) && Holds(r, spec.node, spec.user)
    decreases |actions|
  {
    if actions != [] {
      var done := Performed(f, w, actions[0], spec, Some(spec.user));
      PerformedBinding(f, w, actions[0], spec);
      if done.1 {
        BindingKeepsLocked(f, done.0, actions[1..], spec);
      }
    }
  }

  lemma PerformedBinding(f: Faults, w: World, action: Action, spec: Spec)
    requires Locked(w) && Holds(w, spec.node, spec.user)
    ensures var w' := Performed(f, w, action, spec, Some(spec.user)).0; Locked(w') && Holds(w', spec.node, spec.user)
  {
    var w' := Performed(f, w, action, spec, Some(spec.user)).0;
    PerformedEffect(f, w, action, spec, Some(spec.user));
    BindKeepsLocked(w, action, spec);
    SameLabels(w, w');
    SameLabels(Acted(w, action, spec, Some(spec.user)), w');
  }

  /** Clearing labels other than the node's keeps the lock. */
  lemma ClearKeepsLocked(w: World, action: Action, spec: Spec)
    requires Locked(w) && action != LabelNode
    ensures Locked(Acted(w, action, spec, None)) && Acted(w, action, spec, None).nodes == w.nodes
  {
  }

  lemma PerformedClearing(f: Faults, w: World, action: Action, spec: Spec)
    requires Locked(w) && action != LabelNode
    ensures var w' := Performed(f, w, action, spec, None).0; Locked(w') && w'.nodes == w.nodes
  {
    var w' := Performed(f, w, action, spec, None).0;
    PerformedEffect(f, w, action, spec, None);
    ClearKeepsLocked(w, action, spec);
    SameLabels(w, w');
    SameLabels(Acted(w, action, spec, None), w');
  }

  lemma {:induction false} ClearingKeepsLocked(f: Faults, w: World, actions: seq<Action>, spec: Spec)
    requires Locked(w) && LabelNode !in actions
    ensures var r := Chained(f, w, actions, spec, None).0; Locked(r) && r.nodes == w.nodes
    decreases |actions|
  {
    if actions != [] {
      assert actions == [actions[0]] + actions[1..];
      var done := Performed(f, w, actions[0], spec, None);
      PerformedClearing(f, w, actions[0], spec);
      if done.1 {
        ClearingKeepsLocked(f, done.0, actions[1..], spec);
      }
    }
  }

  /** How a run with this label may leave node `n`. */
  predicate NodeStep(w: World, w': World, spec: Spec, user: Option<string>, n: string) {
    && (n in w'.nodes <==> n in w.nodes)
    && (n in w.nodes ==> w'.nodes[n] == w.nodes[n] || (n == spec.node && w'.nodes[n] == GetLabel(n, user, spec.persistent)))
  }

  lemma PerformedNode(f: Faults, w: World, action: Action, spec: Spec, user: Option<string>, n: string)
    ensures NodeStep(w, Performed(f, w, action, spec, user).0, spec, user, n)
  {
  }

  /** A chain touches no node but its own, and gives it one label. */
  lemma {:induction false} ChainedNode(f: Faults, w: World, actions: seq<Action>, spec: Spec, user: Option<string>,
                                       n: string)
    ensures NodeStep(w, Chained(f, w, actions, spec, user).0, spec, user, n)
    decreases |actions|
  {
    if actions != [] {
      var done := Performed(f, w, actions[0], spec, user);
      PerformedNode(f, w, actions[0], spec, user, n);
      if done.1 {
        ChainedNode(f, done.0, actions[1..], spec, user, n);
      }
    }
  }

  /** The object the action labels carries the label of this chain. */
  predicate Labelled(w: World, action: Action, spec: Spec, user: Option<string>) {
    var mark := GetLabel(spec.node, user, spec.persistent);
    match action
    case LabelNode => spec.node in w.nodes && w.nodes[spec.node] == mark
    case LabelNamespace => spec.user in w.namespaces && w.namespaces[spec.user] == mark
    case LabelUser => spec.user in w.users && w.users[spec.user] == mark
    case LabelBox => spec.node in w.boxes ==> w.boxes[spec.node] == mark
    case _ => true
  }

  lemma PerformedLabels(f: Faults, w: World, action: Action, spec: Spec, user: Option<string>, a: Action)
    requires Performed(f, w, action, spec, user).1 && (a == action || Labelled(w, a, spec, user))
    ensures Labelled(Performed(f, w, action, spec, user).0, a, spec, user)
  {
  }

  /** A chain that reports success has labelled everything it was to label. */
  lemma {:induction false} SuccessLabels(f: Faults, w: World, actions: seq<Action>, spec: Spec, user: Option<string>,
                                         a: Action)
    requires Chained(f, w, actions, spec, user).1
    requires a in actions || Labelled(w, a, spec, user)
    ensures Labelled(Chained(f, w, actions, spec, user).0, a, spec, user)
    decreases |actions|
  {
    if actions != [] {
      assert actions == [actions[0]] + actions[1..];
      if a == actions[0] || Labelled(w, a, spec, user) {
        PerformedLabels(f, w, actions[0], spec, user, a);
      }
      SuccessLabels(f, Performed(f, w, actions[0], spec, user).0, actions[1..], spec, user, a);
    }
  }

  /** A node that the user may allocate is held by that user, or by nobody. */
  lemma AllocableIsFree(w: World, n: string, u: string)
    requires Locked(w) && n in w.nodes && Allocable(w.nodes[n], Some(n), u)
    ensures Holds(w, n, u) || Unreferenced(w, n)
    ensures forall v :: Holds(w, n, v) ==> v == u
  {
  }

  /** What passing the guards means: the node is held by the user or by nobody. A user
      whose own labels are in order is refused every node that another user holds, and
      admitted to every node that is free or already held. */
  lemma GuardMeans(w: World, node: string, user: string)
    requires Locked(w) && node in w.nodes && user in w.users
    requires w.users[user].bound == Some(true) ==> Refers(w.users[user])
    requires w.nodes[node].bound == Some(true) ==> Refers(w.nodes[node])
    ensures Guarded(w, node, user, true).Some? <==> w.nodes[node].bound != Some(true) || Holds(w, node, user)
    ensures Guarded(w, node, user, true).Some? ==> Holds(w, node, user) || Unreferenced(w, node)
    ensures forall v :: Holds(w, node, v) && v != user ==> Guarded(w, node, user, true).None?
  {
    UnboundIsFree(w.users[user], None, user);
    UnboundIsFree(w.nodes[node], Some(node), user);
    assert UserKept(w, w.users[user], user);
    if Allocable(w.nodes[node], Some(node), user) {
      AllocableIsFree(w, node, user);
    }
  }

  lemma UnboundIsFree(l: Labels, node: Option<string>, user: string)
    ensures l.bound != Some(true) ==> Allocable(l, node, user)
  {
    if l.bound.Some? && l.bound != Some(true) {
      assert !l.bound.value;
      assert l.bound == Some(false);
    }
  }

  /** Labelling a node nobody else refers to keeps the lock. */
  lemma LabelNodeKeepsLocked(w: World, spec: Spec, user: Option<string>)
    requires Locked(w) && spec.node in w.nodes
    requires Unreferenced(w, spec.node) || (user == Some(spec.user) && Holds(w, spec.node, spec.user))
    ensures Locked(Acted(w, LabelNode, spec, user))
  {
  }

  /** A login keeps the lock wherever it stops, and leaves the node to its user. */
  lemma CreationKeepsLocked(f: Faults, w: World, spec: Spec)
    requires Locked(w) && spec.node in w.nodes && Allocable(w.nodes[spec.node], Some(spec.node), spec.user)
    ensures var r := Created(f, w, spec).0;
            Locked(r) && spec.node in r.nodes && Allocable(r.nodes[spec.node], Some(spec.node), spec.user)
  {
    ChainedNode(f, w, [LabelNode] + BIND_ACTIONS, spec, Some(spec.user), spec.node);
    AllocableIsFree(w, spec.node, spec.user);
    LabelNodeKeepsLocked(w, spec, Some(spec.user));
    ChainedSplit(f, w, [LabelNode], BIND_ACTIONS, spec, Some(spec.user));
    OneAction(f, w, LabelNode, spec, Some(spec.user));
    var done := Performed(f, w, LabelNode, spec, Some(spec.user));
    PerformedEffect(f, w, LabelNode, spec, Some(spec.user));
    SameLabels(w, done.0);
    SameLabels(Acted(w, LabelNode, spec, Some(spec.user)), done.0);
    if done.1 {
      BindingKeepsLocked(f, done.0, BIND_ACTIONS, spec);
    }
  }

  lemma OneAction(f: Faults, w: World, a: Action, spec: Spec, user: Option<string>)
    ensures Chained(f, w, [a], spec, user) == Performed(f, w, a, spec, user)
  {
    assert [a][1..] == [];
  }

  /** When everything but the node is cleared, nothing refers to the node. */
  lemma ClearedUnreferenced(w: World, spec: Spec)
    requires Locked(w) && spec.node in w.nodes && Allocable(w.nodes[spec.node], Some(spec.node), spec.user)
    requires Labelled(w, LabelBox, spec, None) && Labelled(w, LabelUser, spec, None) && Labelled(w, LabelNamespace, spec, None)
    ensures Unreferenced(w, spec.node)
  {
    AllocableIsFree(w, spec.node, spec.user);
  }

  /** A logout keeps the lock wherever it stops; one that succeeds frees the node. */
  lemma DeletionKeepsLocked(f: Faults, w: World, spec: Spec)
    requires Locked(w) && spec.node in w.nodes && Allocable(w.nodes[spec.node], Some(spec.node), spec.user)
    ensures var r := Deleted(f, w, spec);
            Locked(r.0) && (r.1 ==> Unreferenced(r.0, spec.node) && Labelled(r.0, LabelNode, spec, None))
  {
    var first := Chained(f, w, CLEAR_ACTIONS, spec, None);
    ChainedSplit(f, w, CLEAR_ACTIONS, [LabelNode], spec, None);
    ClearingKeepsLocked(f, w, CLEAR_ACTIONS, spec);
    if first.1 {
      SuccessLabels(f, w, CLEAR_ACTIONS, spec, None, LabelBox);
      SuccessLabels(f, w, CLEAR_ACTIONS, spec, None, LabelUser);
      SuccessLabels(f, w, CLEAR_ACTIONS, spec, None, LabelNamespace);
      ClearedUnreferenced(first.0, spec);
      OneAction(f, first.0, LabelNode, spec, None);
      NodeFreed(f, first.0, spec);
    }
  }

  lemma NodeFreed(f: Faults, w: World, spec: Spec)
    requires Locked(w) && spec.node in w.nodes && Unreferenced(w, spec.node)
    ensures var r := Performed(f, w, LabelNode, spec, None);
            && Locked(r.0) && Unreferenced(r.0, spec.node)
            && (r.1 ==> Labelled(r.0, LabelNode, spec, None))
  {
    LabelNodeKeepsLocked(w, spec, None);
    PerformedEffect(f, w, LabelNode, spec, None);
    SameLabels(w, Performed(f, w, LabelNode, spec, None).0);
    SameLabels(Acted(w, LabelNode, spec, None), Performed(f, w, LabelNode, spec, None).0);
  }

  // -------------------------------------------------------------------- runs

  datatype Step =
    | Login(node: string, user: string, admitted: bool, deleteOnFail: bool)
    | Logout(node: string, user: string, admitted: bool)
    | Reap(node: string, over: bool)
    | AddUser(user: string)
    | AddNode(node: string, persistent: bool)
    | AddBox(node: string)

  function Stepped(f: Faults, w: World, step: Step): World {
    match step
    case Login(node, user, admitted, deleteOnFail) => LoggedIn(f, w, node, user, admitted, deleteOnFail).0
    case Logout(node, user, admitted) => LoggedOut(f, w, node, user, admitted).0
    case Reap(node, over) => Reaped(f, w, node, over).0
    case AddUser(user) =>
      if user in w.users then w else w.(users := w.users[user := Labels(None, None, None, false)])
    case AddNode(node, persistent) =>
      if node in w.nodes then w else w.(nodes := w.nodes[node := Labels(None, None, None, persistent)])
    case AddBox(node) =>
      if node in w.boxes then w else w.(boxes := w.boxes[node := Labels(None, None, None, false)])
  }

  function After(f: Faults, w: World, steps: seq<Step>): World
    decreases |steps|
  {
    if steps == [] then w else After(f, Stepped(f, w, steps[0]), steps[1..])
  }

  lemma StepKeepsLocked(f: Faults, w: World, step: Step)
    requires Locked(w)
    ensures Locked(Stepped(f, w, step))
  {
    match step
    case Login(node, user, admitted, deleteOnFail) =>
      var spec := Guarded(w, node, user, admitted);
      if spec.Some? {
        CreationKeepsLocked(f, w, spec.value);
        DeletionKeepsLocked(f, Created(f, w, spec.value).0, spec.value);
      }
    case Logout(node, user, admitted) =>
      var spec := Guarded(w, node, user, admitted);
      if spec.Some? {
        DeletionKeepsLocked(f, w, spec.value);
      }
    case Reap(node, over) =>
      if node in w.nodes && w.nodes[node].bound == Some(true) && w.nodes[node].user.Some? {
        DeletionKeepsLocked(f, w, Spec(node, w.nodes[node].persistent, w.nodes[node].user.value));
      }
    case _ =>
  }

  /** After any runs, each stopped anywhere, what is labelled as bound to a node is
      labelled so together with the node. */
  lemma {:induction false} AlwaysLocked(f: Faults, w: World, steps: seq<Step>)
    requires Locked(w)
    ensures Locked(After(f, w, steps))
    decreases |steps|
  {
    if steps != [] {
      StepKeepsLocked(f, w, steps[0]);
      AlwaysLocked(f, Stepped(f, w, steps[0]), steps[1..]);
    }
  }

  /** A bound node does not pass to another user: between two holders it is free. */
  lemma NoHandover(f: Faults, w: World, step: Step, n: string, u: string, v: string)
    requires Locked(w) && Holds(w, n, u) && Holds(Stepped(f, w, step), n, v)
    ensures u == v
  {
    match step
    case Login(node, user, admitted, deleteOnFail) =>
      var spec := Guarded(w, node, user, admitted);
      if spec.Some? {
        AllocableIsFree(w, node, user);
        ChainedNode(f, w, [LabelNode] + BIND_ACTIONS, spec.value, Some(user), n);
        ChainedNode(f, Created(f, w, spec.value).0, CLEAR_ACTIONS + [LabelNode], spec.value, None, n);
      }
    case Logout(node, user, admitted) =>
      var spec := Guarded(w, node, user, admitted);
      if spec.Some? {
        ChainedNode(f, w, CLEAR_ACTIONS + [LabelNode], spec.value, None, n);
      }
    case Reap(node, over) =>
      if node in w.nodes && w.nodes[node].user.Some? {
        ChainedNode(f, w, CLEAR_ACTIONS + [LabelNode], Spec(node, w.nodes[node].persistent, w.nodes[node].user.value), None, n);
      }
    case _ =>
  }

  /** A login that is accepted leaves the node, the namespace, the user and the box,
      if there is one, bound to the node by the user. */
  lemma LoginBinds(f: Faults, w: World, node: string, user: string, admitted: bool, deleteOnFail: bool)
    requires LoggedIn(f, w, node, user, admitted, deleteOnFail).1
    ensures var r := LoggedIn(f, w, node, user, admitted, deleteOnFail).0;
            && Holds(r, node, user)
            && user in r.namespaces && BoundTo(r.namespaces[user], node, user)
            && user in r.users && BoundTo(r.users[user], node, user)
            && (node in r.boxes ==> BoundTo(r.boxes[node], node, user))
  {
    var spec := Guarded(w, node, user, admitted).value;
    var actions := [LabelNode] + BIND_ACTIONS;
    SuccessLabels(f, w, actions, spec, Some(user), LabelNode);
    SuccessLabels(f, w, actions, spec, Some(user), LabelNamespace);
    SuccessLabels(f, w, actions, spec, Some(user), LabelUser);
    SuccessLabels(f, w, actions, spec, Some(user), LabelBox);
  }

  /** A call that does not fail performs its action. */
  lemma FinePerformed(f: Faults, w: World, action: Action, spec: Spec, user: Option<string>)
    requires FineFrom(f, w.calls) && spec.node in w.nodes && spec.user in w.users
    requires spec.user in w.namespaces || action != LabelNamespace
    ensures var (r, ok) := Performed(f, w, action, spec, user);
            && ok && w.calls <= r.calls && r.nodes.Keys == w.nodes.Keys && r.users.Keys == w.users.Keys
            && (action == MakeNamespace ==> spec.user in r.namespaces)
            && w.namespaces.Keys <= r.namespaces.Keys
  {
  }

  /** While no call fails, a chain of actions succeeds. */
  lemma {:induction false} FineChain(f: Faults, w: World, actions: seq<Action>, spec: Spec, user: Option<string>)
    requires FineFrom(f, w.calls) && spec.node in w.nodes && spec.user in w.users
    requires spec.user in w.namespaces || LabelNamespace !in actions
    ensures var (r, ok) := Chained(f, w, actions, spec, user);
            && ok && w.calls <= r.calls && r.nodes.Keys == w.nodes.Keys && r.users.Keys == w.users.Keys
            && (MakeNamespace in actions ==> spec.user in r.namespaces)
            && w.namespaces.Keys <= r.namespaces.Keys
    decreases |actions|
  {
    if actions != [] {
      assert actions == [actions[0]] + actions[1..];
      FinePerformed(f, w, actions[0], spec, user);
      FineChain(f, Performed(f, w, actions[0], spec, user).0, actions[1..], spec, user);
    }
  }

  /** While no call fails, a login that passes the guards is accepted. */
  lemma FineLogin(f: Faults, w: World, node: string, user: string)
    requires FineFrom(f, w.calls) && Guarded(w, node, user, true).Some?
    ensures LoggedIn(f, w, node, user, true, true).1
    ensures w.calls <= LoggedIn(f, w, node, user, true, true).0.calls
  {
    var spec := Guarded(w, node, user, true).value;
    var first, rest := [LabelNode, MakeNamespace], [LabelNamespace, LabelUser, LabelBox, Other, Other];
    assert [LabelNode] + BIND_ACTIONS == first + rest;
    ChainedSplit(f, w, first, rest, spec, Some(user));
    FineChain(f, w, first, spec, Some(user));
    FineChain(f, Chained(f, w, first, spec, Some(user)).0, rest, spec, Some(user));
  }

  /** The lock is the node's, not the user's: the guard on the user names no node, so
      from the very beginning one user may come to hold two nodes. */
  lemma OneUserTwoNodes(f: Faults, a: string, b: string, user: string)
    requires a != b && FineFrom(f, 0)
    ensures var steps := [AddUser(user), AddNode(a, false), AddNode(b, false), Login(a, user, true, true), Login(b, user, true, true)];
            var end := After(f, World(map[], map[], map[], map[], 0), steps);
            Holds(end, a, user) && Holds(end, b, user)
  {
    var free := Labels(None, None, None, false);
    var empty := World(map[], map[], map[], map[], 0);
    var w := World(map[a := free][b := free], map[user := free], map[], map[], 0);
    var logins := [Login(a, user, true, true), Login(b, user, true, true)];
    var w1 := Stepped(f, empty, AddUser(user));
    var w2 := Stepped(f, w1, AddNode(a, false));
    assert [AddUser(user), AddNode(a, false), AddNode(b, false), Login(a, user, true, true), Login(b, user, true, true)] ==
           [AddUser(user)] + ([AddNode(a, false), AddNode(b, false)] + logins);
    assert [AddNode(a, false), AddNode(b, false)] + logins == [AddNode(a, false)] + ([AddNode(b, false)] + logins);
    AfterOne(f, empty, AddUser(user), [AddNode(a, false), AddNode(b, false)] + logins);
    AfterOne(f, w1, AddNode(a, false), [AddNode(b, false)] + logins);
    AfterOne(f, w2, AddNode(b, false), logins);
    TwoLogins(f, w, a, b, user);
  }

  lemma AfterOne(f: Faults, w: World, step: Step, rest: seq<Step>)
    ensures After(f, w, [step] + rest) == After(f, Stepped(f, w, step), rest)
  {
    assert ([step] + rest)[1..] == rest;
  }

  lemma TwoLogins(f: Faults, w: World, a: string, b: string, user: string)
    requires a != b && FineFrom(f, w.calls) && a in w.nodes && b in w.nodes && user in w.users
    requires w.nodes[a].bound.None? && w.nodes[b].bound.None? && w.users[user].bound.None?
    ensures var end := After(f, w, [Login(a, user, true, true), Login(b, user, true, true)]);
            Holds(end, a, user) && Holds(end, b, user)
  {
    var first, second := Login(a, user, true, true), Login(b, user, true, true);
    var w1 := LoggedIn(f, w, a, user, true, true).0;
    FineLogin(f, w, a, user);
    LoginBinds(f, w, a, user, true, true);
    ChainedNode(f, w, [LabelNode] + BIND_ACTIONS, Guarded(w, a, user, true).value, Some(user), b);
    FineLogin(f, w1, b, user);
    LoginBinds(f, w1, b, user, true, true);
    ChainedNode(f, w1, [LabelNode] + BIND_ACTIONS, Guarded(w1, b, user, true).value, Some(user), a);
    AfterOne(f, w, first, [second]);
    AfterOne(f, w1, second, []);
    assert [first, second] == [first] + [second] && [second] == [second] + [];
  }

  lemma EmptyIsLocked()
    ensures Locked(World(map[], map[], map[], map[], 0))
  {
  }

  // --------------------------------------------------------------- automatic login

  /** `update_node_autologin`: the user label is written, the status is not. */
  function Autologin(w: World, n: string, user: Option<string>): World
    requires n in w.nodes
  {
    w.(nodes := w.nodes[n := w.nodes[n].(user := user, persistent := user.Some?)])
  }

  /** Writing the user label outside a login or logout keeps the lock exactly when
      the node is already labelled with that user or nothing is bound to it. */
  lemma AutologinKeepsLocked(w: World, n: string, user: Option<string>)
    requires Locked(w) && n in w.nodes
    ensures Locked(Autologin(w, n, user)) <==> w.nodes[n].user == user || Unreferenced(w, n)
    ensures Autologin(w, n, user).nodes[n] == Labels(user, w.nodes[n].node, w.nodes[n].bound, user.Some?)
  {
    var w' := Autologin(w, n, user);
    if w.nodes[n].user != user && !Unreferenced(w, n) {
      assert exists u :: Holds(w, n, u) && !Holds(w', n, u);
    }
  }
}
