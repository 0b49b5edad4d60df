/** What the guards, the chains of actions and the reaper do, spelled out in the labels. */
module SessionEdges {
  import opened Results
  import opened Calls
  import opened Session
  import opened SessionSafety

  // ------------------------------------------------------------------ guards

  /** An object may be taken when it is not labelled as bound, or when neither its node
      label nor its user label names somebody else. */
  predicate MayTake(l: Labels, node: Option<string>, user: string) {
    l.bound == Some(true) ==>
      && (node.Some? && l.node.Some? ==> l.node.value == node.value)
      && (l.user.Some? ==> l.user.value == user)
  }

  /** Whom a refusal blames: the other node comes before the other user. */
  lemma AllocationExactly(l: Labels, node: Option<string>, user: string)
    ensures Allocable(l, node, user) <==> MayTake(l, node, user)
    ensures IsAllocable(l, node, user) == NotAllocated <==> l.bound != Some(true)
    ensures forall n :: IsAllocable(l, node, user) == ByOtherNode(n) <==>
                          l.bound == Some(true) && l.node == Some(n) && node.Some? && node.value != n
    ensures forall u :: IsAllocable(l, node, user) == ByOtherUser(u) <==>
                          && l.bound == Some(true) && l.user == Some(u) && u != user
                          && (node.Some? && l.node.Some? ==> node.value == l.node.value)
  {
    if l.bound.Some? && l.bound != Some(true) {
      assert !l.bound.value;
    }
  }

  /** What a login or logout is about, if it passes: the user's own labels name no other
      user, the node's name no other node and no other user. */
  lemma GuardExactly(w: World, node: string, user: string, admitted: bool)
    ensures Guarded(w, node, user, admitted) ==
            if && user in w.users && MayTake(w.users[user], None, user)
               && node in w.nodes && MayTake(w.nodes[node], Some(node), user) && admitted
            then Some(Spec(node, w.nodes[node].persistent, user)) else None
  {
    if user in w.users && node in w.nodes {
      AllocationExactly(w.users[user], None, user);
      AllocationExactly(w.nodes[node], Some(node), user);
    }
  }

  // ------------------------------------------------------------------ chains

  /** The labels after all of the actions. */
  function AllActed(w: World, actions: seq<Action>, spec: Spec, user: Option<string>): World
    decreases |actions|
  {
    if actions == [] then w else AllActed(Acted(w, actions[0], spec, user), actions[1..], spec, user)
  }

  predicate SameButCalls(w: World, w': World) {
    w'.nodes == w.nodes && w'.users == w.users && w'.namespaces == w.namespaces && w'.boxes == w.boxes
  }

  lemma ActedSame(w: World, w': World, action: Action, spec: Spec, user: Option<string>)
    requires SameButCalls(w, w')
    ensures SameButCalls(Acted(w, action, spec, user), Acted(w', action, spec, user))
  {
    assert w' == w.(calls := w'.calls);
  }

  lemma {:induction false} CallsDoNotMatter(w: World, w': World, actions: seq<Action>, spec: Spec, user: Option<string>)
    requires SameButCalls(w, w')
    ensures SameButCalls(AllActed(w, actions, spec, user), AllActed(w', actions, spec, user))
    decreases |actions|
  {
    if actions != [] {
      ActedSame(w, w', actions[0], spec, user);
      CallsDoNotMatter(Acted(w, actions[0], spec, user), Acted(w', actions[0], spec, user), actions[1..], spec, user);
    }
  }

  /** The chain has come as far as its first `k` actions. */
  predicate CameTo(w: World, w': World, actions: seq<Action>, k: nat, spec: Spec, user: Option<string>)
    requires k <= |actions|
  {
    SameButCalls(AllActed(w, actions[..k], spec, user), w')
  }

  lemma CameOneFurther(w: World, w1: World, w': World, actions: seq<Action>, k: nat, spec: Spec, user: Option<string>)
    requires actions != [] && k < |actions| && SameButCalls(Acted(w, actions[0], spec, user), w1)
    requires CameTo(w1, w', actions[1..], k, spec, user)
    ensures CameTo(w, w', actions, k + 1, spec, user)
  {
    assert actions[..k + 1][1..] == actions[1..][..k];
    CallsDoNotMatter(Acted(w, actions[0], spec, user), w1, actions[1..][..k], spec, user);
  }

  /** A chain performs some of its first actions: all of them if it succeeds, and without
      a failing call and with everything there it does. */
  lemma {:induction false} ChainComesTo(f: Faults, w: World, actions: seq<Action>, spec: Spec, user: Option<string>)
    returns (k: nat)
    ensures k <= |actions|
    ensures var (w', ok) := Chained(f, w, actions, spec, user);
            CameTo(w, w', actions, k, spec, user) && (ok ==> k == |actions|)
    decreases |actions|
  {
    k := 0;
    assert actions[..0] == [];
    if actions != [] {
      var done := Performed(f, w, actions[0], spec, user);
      PerformedEffect(f, w, actions[0], spec, user);
      if done.1 {
        assert SameButCalls(Acted(w, actions[0], spec, user), done.0);
        k := ChainComesTo(f, done.0, actions[1..], spec, user);
        CameOneFurther(w, done.0, Chained(f, w, actions, spec, user).0, actions, k, spec, user);
        k := k + 1;
      } else if !SameButCalls(w, done.0) {
        assert actions[1..][..0] == [];
        CameOneFurther(w, done.0, done.0, actions, 0, spec, user);
        k := 1;
      }
    }
  }

  /** Every object the actions label is there when its turn comes, except for a box. */
  predicate AllThere(w: World, actions: seq<Action>, spec: Spec, user: Option<string>)
    decreases |actions|
  {
    actions == [] ||
    (&& (actions[0] == LabelNode ==> spec.node in w.nodes)
     && (actions[0] == LabelNamespace ==> spec.user in w.namespaces)
     && (actions[0] == LabelUser ==> spec.user in w.users)
     && AllThere(Acted(w, actions[0], spec, user), actions[1..], spec, user))
  }

  lemma {:induction false} CallsLeaveAllThere(w: World, w': World, actions: seq<Action>, spec: Spec, user: Option<string>)
    requires SameButCalls(w, w')
    ensures AllThere(w, actions, spec, user) <==> AllThere(w', actions, spec, user)
    decreases |actions|
  {
    if actions != [] {
      ActedSame(w, w', actions[0], spec, user);
      CallsLeaveAllThere(Acted(w, actions[0], spec, user), Acted(w', actions[0], spec, user), actions[1..], spec, user);
    }
  }

  /** An action is one call, and two when it labels a box that is there. It succeeds if and
      only if they do and the object is there, and then it has its effect. */
  lemma PerformedExactly(f: Faults, w: World, action: Action, spec: Spec, user: Option<string>)
    ensures var (w', ok) := Performed(f, w, action, spec, user);
            && w'.calls == w.calls + (if action == LabelBox && spec.node in w.boxes && f(w.calls) == Fine then 2 else 1)
            && (ok <==> FineIn(f, w.calls, w'.calls) && AllThere(w, [action], spec, user))
            && (ok ==> SameButCalls(Acted(w, action, spec, user), w'))
            && (SameButCalls(w, w') || SameButCalls(Acted(w, action, spec, user), w'))
  {
    assert [action][1..] == [];
  }

  /** A chain succeeds if and only if none of its calls failed and all it labels was there. */
  lemma {:induction false} ChainSucceedsExactly(f: Faults, w: World, actions: seq<Action>, spec: Spec, user: Option<string>)
    ensures var (w', ok) := Chained(f, w, actions, spec, user);
            w.calls <= w'.calls && (ok <==> FineIn(f, w.calls, w'.calls) && AllThere(w, actions, spec, user))
    decreases |actions|
  {
    if actions != [] {
      var done := Performed(f, w, actions[0], spec, user);
      assert [actions[0]][1..] == [];
      PerformedExactly(f, w, actions[0], spec, user);
      if done.1 {
        CallsLeaveAllThere(Acted(w, actions[0], spec, user), done.0, actions[1..], spec, user);
        ChainSucceedsExactly(f, done.0, actions[1..], spec, user);
      }
    }
  }

  // ---------------------------------------------------------- login and logout

  function Put(labels: map<string, Labels>, name: string, mark: Labels): map<string, Labels> {
    if name in labels then labels[name := mark] else labels
  }

  function Made(labels: map<string, Labels>, name: string): map<string, Labels> {
    if name in labels then labels else labels[name := Labels(None, None, None, false)]
  }

  /** A login after `k` of its five steps: the node is labelled, the namespace is made,
      the namespace, the user and the box are labelled. */
  predicate LoginAt(w: World, w': World, spec: Spec, k: nat) {
    var mark := Labels(Some(spec.user), Some(spec.node), Some(true), spec.persistent);
    && w'.nodes == (if k >= 1 then Put(w.nodes, spec.node, mark) else w.nodes)
    && w'.namespaces == (if k >= 3 then Put(Made(w.namespaces, spec.user), spec.user, mark)
                         else if k == 2 then Made(w.namespaces, spec.user) else w.namespaces)
    && w'.users == (if k >= 4 then Put(w.users, spec.user, mark) else w.users)
    && w'.boxes == (if k >= 5 then Put(w.boxes, spec.node, mark) else w.boxes)
  }

  /** A logout after `k` of its five steps: the box and the user are cleared, the
      namespace is made and cleared, and the node comes last. */
  predicate LogoutAt(w: World, w': World, spec: Spec, k: nat) {
    var mark := Labels(None, Some(spec.node), Some(false), spec.persistent);
    && w'.boxes == (if k >= 1 then Put(w.boxes, spec.node, mark) else w.boxes)
    && w'.users == (if k >= 2 then Put(w.users, spec.user, mark) else w.users)
    && w'.namespaces == (if k >= 4 then Put(Made(w.namespaces, spec.user), spec.user, mark)
                         else if k == 3 then Made(w.namespaces, spec.user) else w.namespaces)
    && w'.nodes == (if k >= 5 then Put(w.nodes, spec.node, mark) else w.nodes)
  }

  lemma ActedNext(w: World, actions: seq<Action>, k: nat, spec: Spec, user: Option<string>)
    requires k < |actions|
    ensures AllActed(w, actions[..k + 1], spec, user) == Acted(AllActed(w, actions[..k], spec, user), actions[k], spec, user)
  {
    assert actions[..k + 1] == actions[..k] + [actions[k]];
    AllActedConcat(w, actions[..k], actions[k], spec, user);
  }

  lemma {:induction false} AllActedConcat(w: World, actions: seq<Action>, last: Action, spec: Spec, user: Option<string>)
    ensures AllActed(w, actions + [last], spec, user) == Acted(AllActed(w, actions, spec, user), last, spec, user)
    decreases |actions|
  {
    if actions == [] {
      assert ([] + [last])[1..] == [];
    } else {
      assert (actions + [last])[1..] == actions[1..] + [last];
      AllActedConcat(Acted(w, actions[0], spec, user), actions[1..], last, spec, user);
    }
  }

  /** The actions of a login in their order, and the step each of them is. */
  predicate IsLoginAction(action: Action, k: nat) {
    match action
    case LabelNode => k == 0
    case MakeNamespace => k == 1
    case LabelNamespace => k == 2
    case LabelUser => k == 3
    case LabelBox => k == 4
    case Other => k >= 5
  }

  lemma LoginNext(w: World, w': World, spec: Spec, k: nat, action: Action)
    requires IsLoginAction(action, k) && LoginAt(w, w', spec, k)
    ensures LoginAt(w, Acted(w', action, spec, Some(spec.user)), spec, k + 1)
  {
  }

  lemma LoginActions(k: nat)
    requires k < 7
    ensures IsLoginAction(([LabelNode] + BIND_ACTIONS)[k], k)
  {
    assert [LabelNode] + BIND_ACTIONS == [LabelNode, MakeNamespace, LabelNamespace, LabelUser, LabelBox, Other, Other];
  }

  lemma {:induction false} LoginStages(w: World, spec: Spec, k: nat)
    requires k <= 7
    ensures LoginAt(w, AllActed(w, ([LabelNode] + BIND_ACTIONS)[..k], spec, Some(spec.user)), spec, k)
  {
    var actions := [LabelNode] + BIND_ACTIONS;
    if k == 0 {
      assert actions[..0] == [];
    } else {
      LoginStages(w, spec, k - 1);
      LoginActions(k - 1);
      LoginNext(w, AllActed(w, actions[..k - 1], spec, Some(spec.user)), spec, k - 1, actions[k - 1]);
      ActedNext(w, actions, k - 1, spec, Some(spec.user));
    }
  }

  /** The actions of a logout: the template and the pods come before the labels. */
  predicate IsLogoutAction(action: Action, k: nat) {
    match action
    case Other => k < 2
    case LabelBox => k == 2
    case LabelUser => k == 3
    case MakeNamespace => k == 4
    case LabelNamespace => k == 5
    case LabelNode => k == 6
  }

  function LogoutSteps(k: nat): nat {
    if k <= 2 then 0 else k - 2
  }

  lemma LogoutNext(w: World, w': World, spec: Spec, k: nat, action: Action)
    requires IsLogoutAction(action, k) && LogoutAt(w, w', spec, LogoutSteps(k))
    ensures LogoutAt(w, Acted(w', action, spec, None), spec, LogoutSteps(k + 1))
  {
  }

  lemma LogoutActions(k: nat)
    requires k < 7
    ensures IsLogoutAction((CLEAR_ACTIONS + [LabelNode])[k], k)
  {
    assert CLEAR_ACTIONS + [LabelNode] == [Other, Other, LabelBox, LabelUser, MakeNamespace, LabelNamespace, LabelNode];
  }

  lemma {:induction false} LogoutStages(w: World, spec: Spec, k: nat)
    requires k <= 7
    ensures LogoutAt(w, AllActed(w, (CLEAR_ACTIONS + [LabelNode])[..k], spec, None), spec, LogoutSteps(k))
  {
    var actions := CLEAR_ACTIONS + [LabelNode];
    if k == 0 {
      assert actions[..0] == [];
    } else {
      LogoutStages(w, spec, k - 1);
      LogoutActions(k - 1);
      LogoutNext(w, AllActed(w, actions[..k - 1], spec, None), spec, k - 1, actions[k - 1]);
      ActedNext(w, actions, k - 1, spec, None);
    }
  }

  /** What a login from its step `k` on needs to be there. */
  lemma {:induction false} LoginThere(w: World, spec: Spec, k: nat)
    requires k <= 7 && (k >= 2 ==> spec.user in w.namespaces)
    ensures AllThere(w, ([LabelNode] + BIND_ACTIONS)[k..], spec, Some(spec.user)) <==>
            (k == 0 ==> spec.node in w.nodes) && (k <= 3 ==> spec.user in w.users)
    decreases 7 - k
  {
    var rest := ([LabelNode] + BIND_ACTIONS)[k..];
    if k < 7 {
      LoginActions(k);
      assert rest[1..] == ([LabelNode] + BIND_ACTIONS)[k + 1..];
      LoginThere(Acted(w, rest[0], spec, Some(spec.user)), spec, k + 1);
    }
  }

  /** A login stops at one of its stages. It reports success, at the last one, if and only if
      no call failed and the node and the user are there. */
  lemma CreatedExactly(f: Faults, w: World, spec: Spec)
    ensures var (w', ok) := Created(f, w, spec);
            && (exists k: nat :: LoginAt(w, w', spec, k) && (ok ==> k >= 5))
            && (ok <==> FineIn(f, w.calls, w'.calls) && spec.node in w.nodes && spec.user in w.users)
  {
    var k := ChainComesTo(f, w, [LabelNode] + BIND_ACTIONS, spec, Some(spec.user));
    LoginStages(w, spec, k);
    ChainSucceedsExactly(f, w, [LabelNode] + BIND_ACTIONS, spec, Some(spec.user));
    LoginThere(w, spec, 0);
    assert ([LabelNode] + BIND_ACTIONS)[0..] == [LabelNode] + BIND_ACTIONS;
    assert LoginAt(w, Created(f, w, spec).0, spec, k);
  }

  /** What a logout from its action `k` on needs to be there. */
  lemma {:induction false} LogoutThere(w: World, spec: Spec, k: nat)
    requires k <= 7 && (k >= 5 ==> spec.user in w.namespaces)
    ensures AllThere(w, (CLEAR_ACTIONS + [LabelNode])[k..], spec, None) <==>
            (k <= 6 ==> spec.node in w.nodes) && (k <= 3 ==> spec.user in w.users)
    decreases 7 - k
  {
    var rest := (CLEAR_ACTIONS + [LabelNode])[k..];
    if k < 7 {
      LogoutActions(k);
      assert rest[1..] == (CLEAR_ACTIONS + [LabelNode])[k + 1..];
      LogoutThere(Acted(w, rest[0], spec, None), spec, k + 1);
    }
  }

  /** A logout stops at one of its stages. It reports success, at the last one, if and only if
      no call failed and the node and the user are there. */
  lemma DeletedExactly(f: Faults, w: World, spec: Spec)
    ensures var (w', ok) := Deleted(f, w, spec);
            && (exists k: nat :: LogoutAt(w, w', spec, k) && (ok ==> k >= 5))
            && (ok <==> FineIn(f, w.calls, w'.calls) && spec.node in w.nodes && spec.user in w.users)
  {
    var k := ChainComesTo(f, w, CLEAR_ACTIONS + [LabelNode], spec, None);
    LogoutStages(w, spec, k);
    ChainSucceedsExactly(f, w, CLEAR_ACTIONS + [LabelNode], spec, None);
    LogoutThere(w, spec, 0);
    assert (CLEAR_ACTIONS + [LabelNode])[0..] == CLEAR_ACTIONS + [LabelNode];
    assert LogoutAt(w, Deleted(f, w, spec).0, spec, LogoutSteps(k));
  }

  /** A failed login without a rollback stays where it stopped; with one, a logout runs from
      there, and if that succeeds nothing is bound to the node any more. */
  lemma FailedLoginLeaves(f: Faults, w: World, spec: Spec, deleteOnFail: bool)
    requires !TryCreated(f, w, spec, deleteOnFail).1
    requires Locked(w) && spec.node in w.nodes && Allocable(w.nodes[spec.node], Some(spec.node), spec.user)
    ensures var w' := TryCreated(f, w, spec, deleteOnFail).0;
            && (!deleteOnFail ==> exists k: nat :: LoginAt(w, w', spec, k))
            && (deleteOnFail ==> exists stopped, k: nat :: LoginAt(w, stopped, spec, k) && IsCleared(f, stopped, w', spec))
  {
    CreatedExactly(f, w, spec);
    CreationKeepsLocked(f, w, spec);
    var stopped := Created(f, w, spec).0;
    DeletionKeepsLocked(f, stopped, spec);
    var k: nat :| LoginAt(w, stopped, spec, k);
    assert deleteOnFail ==> IsCleared(f, stopped, TryCreated(f, w, spec, deleteOnFail).0, spec);
  }

  /** The labels are what a logout leaves; if it succeeds the node is free. */
  predicate IsCleared(f: Faults, before: World, after: World, spec: Spec) {
    && after == Deleted(f, before, spec).0
    && (Deleted(f, before, spec).1 ==>
          && Unreferenced(after, spec.node) && spec.node in after.nodes
          && after.nodes[spec.node].bound == Some(false) && after.nodes[spec.node].user.None?)
  }

  /** The user may use the node. */
  predicate Passes(w: World, node: string, user: string) {
    user in w.users && MayTake(w.users[user], None, user) && node in w.nodes && MayTake(w.nodes[node], Some(node), user)
  }

  /** A guarded login comes to a stage of the login if it passes, and else does nothing. */
  lemma LoginExactly(f: Faults, w: World, node: string, user: string, admitted: bool)
    ensures var (w', ok) := LoggedIn(f, w, node, user, admitted, false);
            if !Passes(w, node, user) || !admitted then w' == w && !ok
            else
              && (exists k: nat :: LoginAt(w, w', Spec(node, w.nodes[node].persistent, user), k) && (ok ==> k >= 5))
              && (ok <==> FineIn(f, w.calls, w'.calls))
  {
    GuardExactly(w, node, user, admitted);
    if Passes(w, node, user) && admitted {
      CreatedExactly(f, w, Spec(node, w.nodes[node].persistent, user));
    }
  }

  /** A guarded logout comes to a stage of the logout if it passes, and else does nothing. */
  lemma LogoutExactly(f: Faults, w: World, node: string, user: string, admitted: bool)
    ensures var (w', ok) := LoggedOut(f, w, node, user, admitted);
            if !Passes(w, node, user) || !admitted then w' == w && !ok
            else
              && (exists k: nat :: LogoutAt(w, w', Spec(node, w.nodes[node].persistent, user), k) && (ok ==> k >= 5))
              && (ok <==> FineIn(f, w.calls, w'.calls))
  {
    GuardExactly(w, node, user, admitted);
    if Passes(w, node, user) && admitted {
      DeletedExactly(f, w, Spec(node, w.nodes[node].persistent, user));
    }
  }

  /** The reaper logs out whoever is bound to a node whose session is over, unless the
      node is persistent. */
  lemma ReapExactly(f: Faults, w: World, node: string, over: bool)
    ensures Reaped(f, w, node, over) ==
            if && node in w.nodes && over && !w.nodes[node].persistent
               && w.nodes[node].bound == Some(true) && w.nodes[node].node.Some? && w.nodes[node].user.Some?
            then Deleted(f, w, Spec(node, false, w.nodes[node].user.value)) else (w, false)
  {
  }
}
