/** The session manager writing labels on the cluster, and the two ways into it:
    the guarded login and logout, and the reaper of dead sessions. */
module SessionManagers {
  import opened Results
  import opened Calls
  import opened Session

  class SessionManager {
    const faults: Faults
    var nodes: map<string, Labels>
    var users: map<string, Labels>
    var namespaces: map<string, Labels>
    var boxes: map<string, Labels>
    var calls: nat

    function View(): World
      reads this
    {
      World(nodes, users, namespaces, boxes, calls)
    }

    constructor (faults: Faults)
      ensures this.faults == faults && View() == World(map[], map[], map[], map[], 0)
    {
      this.faults := faults;
      nodes, users, namespaces, boxes, calls := map[], map[], map[], map[], 0;
    }

    /** A call that changes nothing. */
    method Ask() returns (ok: bool)
      modifies this`calls
      ensures (View(), ok) == Call(faults, old(View()), old(View()))
    {
      ok := faults(calls) == Fine;
      calls := calls + 1;
    }

    method Act(action: Action, spec: Spec, user: Option<string>) returns (ok: bool)
      modifies this
      ensures (View(), ok) == Performed(faults, old(View()), action, spec, user)
    {
      if action == LabelBox {
        ok := Ask();
        if !ok || spec.node !in boxes {
          return;
        }
      }
      var possible := Possible(View(), action, spec);
      if faults(calls) != Refused {
        Write(action, spec, GetLabel(spec.node, user, spec.persistent));
      }
      ok := Ask();
      ok := ok && possible;
    }

    /** The effect of a call. */
    method Write(action: Action, spec: Spec, mark: Labels)
      requires mark == GetLabel(spec.node, mark.user, spec.persistent)
      modifies this`nodes, this`users, this`namespaces, this`boxes
      ensures View() == Acted(old(View()), action, spec, mark.user)
    {
      match action {
        case Other =>
        case MakeNamespace =>
          if spec.user !in namespaces {
            namespaces := namespaces[spec.user := Labels(None, None, None, false)];
          }
        case LabelNode =>
          if spec.node in nodes {
            nodes := nodes[spec.node := mark];
          }
        case LabelNamespace =>
          if spec.user in namespaces {
            namespaces := namespaces[spec.user := mark];
          }
        case LabelUser =>
          if spec.user in users {
            users := users[spec.user := mark];
          }
        case LabelBox =>
          if spec.node in boxes {
            boxes := boxes[spec.node := mark];
          }
      }
    }

    /** A chain of calls that stops at the first failure. */
    method Chain(actions: seq<Action>, spec: Spec, user: Option<string>) returns (ok: bool)
      modifies this
      ensures (View(), ok) == Chained(faults, old(View()), actions, spec, user)
    {
      ok := true;
      var i := 0;
      while i < |actions| && ok
        invariant 0 <= i <= |actions|
        invariant ok ==> Chained(faults, View(), actions[i..], spec, user) == Chained(faults, old(View()), actions, spec, user)
        invariant !ok ==> (View(), false) == Chained(faults, old(View()), actions, spec, user)
      {
        ok := Act(actions[i], spec, user);
        i := i + 1;
      }
    }

    method CreateSession(spec: Spec) returns (ok: bool)
      modifies this
      ensures (View(), ok) == Created(faults, old(View()), spec)
    {
      ok := Chain([LabelNode] + BIND_ACTIONS, spec, Some(spec.user));
    }

    method DeleteSession(spec: Spec) returns (ok: bool)
      modifies this
      ensures (View(), ok) == Deleted(faults, old(View()), spec)
    {
      ok := Chain(CLEAR_ACTIONS + [LabelNode], spec, None);
    }

    method TryCreate(spec: Spec, deleteOnFail: bool) returns (ok: bool)
      modifies this
      ensures (View(), ok) == TryCreated(faults, old(View()), spec, deleteOnFail)
    {
      ok := CreateSession(spec);
      if !ok && deleteOnFail {
        var _ := DeleteSession(spec);
      }
    }

    /** The guards of `execute_with`. */
    method Guard(node: string, user: string, admitted: bool) returns (spec: Option<Spec>)
      ensures spec == Guarded(View(), node, user, admitted)
    {
      if user !in users {
        return None;
      }
      if !Allocable(users[user], None, user) {
        return None;
      }
      if node !in nodes {
        return None;
      }
      if !Allocable(nodes[node], Some(node), user) {
        return None;
      }
      if !admitted {
        return None;
      }
      return Some(Spec(node, nodes[node].persistent, user));
    }

    method Login(node: string, user: string, admitted: bool, deleteOnFail: bool) returns (ok: bool)
      modifies this
      ensures (View(), ok) == LoggedIn(faults, old(View()), node, user, admitted, deleteOnFail)
    {
      var spec := Guard(node, user, admitted);
      ok := false;
      if spec.Some? {
        ok := TryCreate(spec.value, deleteOnFail);
      }
    }

    method Logout(node: string, user: string, admitted: bool) returns (ok: bool)
      modifies this
      ensures (View(), ok) == LoggedOut(faults, old(View()), node, user, admitted)
    {
      var spec := Guard(node, user, admitted);
      ok := false;
      if spec.Some? {
        ok := DeleteSession(spec.value);
      }
    }

    /** The operator's reconcile of a node. */
    method Reap(node: string, over: bool) returns (ok: bool)
      modifies this
      ensures (View(), ok) == Reaped(faults, old(View()), node, over)
    {
      ok := false;
      if node in nodes && nodes[node].user.Some? && !nodes[node].persistent {
        var data := nodes[node];
        if data.bound == Some(true) && data.node.Some? && over {
          ok := DeleteSession(Spec(node, data.persistent, data.user.value));
        }
      }
    }
  }
}
