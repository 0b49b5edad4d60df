/** What the three reconcilers guarantee each other. */
module BindingSafety {
  import opened Results
  import opened Bindings

  /** An object that has been worked on has its finalizer, and only marked objects
      are in the deleting phase. */
  predicate MetaSound(meta: Meta, phase: Option<Phase>) {
    && (phase.Some? && phase.value != Pending ==> meta.finalizer)
    && (meta.deleting ==> meta.finalizer)
    && (phase == Some(Deleting) ==> meta.deleting)
  }

  ghost predicate AllSound(ns: Namespace) {
    && (forall n :: n in ns.models ==> MetaSound(ns.models[n].meta, ModelPhase(ns.models[n])))
    && (forall n :: n in ns.storages ==> MetaSound(ns.storages[n].meta, StoragePhase(ns.storages[n])))
    && (forall n :: n in ns.bindings ==> MetaSound(ns.bindings[n].meta, BindingPhase(ns.bindings[n])))
  }

  /** A storage of this name is there, once validated, with this uid. */
  predicate StorageLives(ns: Namespace, name: string, uid: Uid) {
    && name in ns.storages && ns.storages[name].meta.uid == uid
    && (StoragePhase(ns.storages[name]) == Some(Ready) || StoragePhase(ns.storages[name]) == Some(Deleting))
  }

  predicate ModelLives(ns: Namespace, name: string) {
    && name in ns.models
    && (ModelPhase(ns.models[name]) == Some(Ready) || ModelPhase(ns.models[name]) == Some(Deleting))
  }

  /** The status names what the spec names, and all of it lives, with the recorded uids. */
  predicate BindingHolds(ns: Namespace, b: Binding)
    requires IsReady(b)
  {
    var status := b.status.value;
    && status.modelName == Some(b.spec.model) && ModelLives(ns, b.spec.model)
    && status.bound.Some?
    && status.bound.value.targetName == b.spec.target
    && StorageLives(ns, b.spec.target, status.bound.value.targetUid)
    && (status.bound.value.source.Some? <==> b.spec.source.Some?)
    && (b.spec.source.Some? ==>
          && status.bound.value.source.value.0 == b.spec.source.value.name
          && status.bound.value.sourceUid.Some?
          && StorageLives(ns, b.spec.source.value.name, status.bound.value.sourceUid.value))
  }

  /** A ready binding whose spec was not edited since has a live model and live
      storages whose uids match its status. */
  ghost predicate BindingsHold(ns: Namespace) {
    forall n :: n in ns.bindings && IsReady(ns.bindings[n]) && !ns.bindings[n].edited ==> BindingHolds(ns, ns.bindings[n])
  }

  /** What a ready binding records was accepted by `bind_model`. */
  ghost predicate BindingsFit(ns: Namespace) {
    forall n :: n in ns.bindings ==> Fit(ns.bindings[n])
  }

  predicate BothPublish(ns: Namespace, a: string, b: string, kind: StorageKind) {
    a in ns.storages && b in ns.storages && Publishes(ns.storages[a], kind) && Publishes(ns.storages[b], kind)
  }

  /** At most one storage publishes each unique kind. */
  ghost predicate KindsUnique(ns: Namespace) {
    forall a, b, kind :: BothPublish(ns, a, b, kind) ==> a == b
  }

  lemma StepKeepsSound(ns: Namespace, step: Step)
    requires Enabled(ns, step) && AllSound(ns)
    ensures AllSound(Stepped(ns, step))
  {
    var ns' := Stepped(ns, step);
    forall n | n in ns'.models ensures MetaSound(ns'.models[n].meta, ModelPhase(ns'.models[n])) {
      ModelStep(ns, step, n);
    }
    forall n | n in ns'.storages ensures MetaSound(ns'.storages[n].meta, StoragePhase(ns'.storages[n])) {
      StorageStep(ns, step, n);
    }
    forall n | n in ns'.bindings ensures MetaSound(ns'.bindings[n].meta, BindingPhase(ns'.bindings[n])) {
      BindingStep(ns, step, n);
    }
  }

  /** A model changes only in steps that name it, and stays sound. */
  lemma ModelStep(ns: Namespace, step: Step, n: string)
    requires Enabled(ns, step) && n in Stepped(ns, step).models
    requires n in ns.models ==> MetaSound(ns.models[n].meta, ModelPhase(ns.models[n]))
    ensures MetaSound(Stepped(ns, step).models[n].meta, ModelPhase(Stepped(ns, step).models[n]))
  {
    match step
    case ReconcileModel(name, r) => ReconciledModelSound(ns, name, r, n);
    case _ =>
  }

  lemma ReconciledModelSound(ns: Namespace, name: string, r: Replies, n: string)
    requires name in ns.models && n in ReconciledModel(ns, name, r).models
    requires n in ns.models ==> MetaSound(ns.models[n].meta, ModelPhase(ns.models[n]))
    ensures MetaSound(ReconciledModel(ns, name, r).models[n].meta, ModelPhase(ReconciledModel(ns, name, r).models[n]))
  {
  }

  lemma StorageStep(ns: Namespace, step: Step, n: string)
    requires Enabled(ns, step) && n in Stepped(ns, step).storages
    requires n in ns.storages ==> MetaSound(ns.storages[n].meta, StoragePhase(ns.storages[n]))
    ensures MetaSound(Stepped(ns, step).storages[n].meta, StoragePhase(Stepped(ns, step).storages[n]))
  {
    match step
    case ReconcileStorage(name, r) => ReconciledStorageSound(ns, name, r, n);
    case _ =>
  }

  lemma ReconciledStorageSound(ns: Namespace, name: string, r: Replies, n: string)
    requires name in ns.storages && n in ReconciledStorage(ns, name, r).storages
    requires n in ns.storages ==> MetaSound(ns.storages[n].meta, StoragePhase(ns.storages[n]))
    ensures MetaSound(ReconciledStorage(ns, name, r).storages[n].meta, StoragePhase(ReconciledStorage(ns, name, r).storages[n]))
  {
  }

  lemma BindingStep(ns: Namespace, step: Step, n: string)
    requires Enabled(ns, step) && n in Stepped(ns, step).bindings
    requires n in ns.bindings ==> MetaSound(ns.bindings[n].meta, BindingPhase(ns.bindings[n]))
    ensures MetaSound(Stepped(ns, step).bindings[n].meta, BindingPhase(Stepped(ns, step).bindings[n]))
  {
    if step.ReconcileBinding? {
      if n == step.name {
        ReconciledBindingSound(ns, n, step.replies);
      }
    }
  }

  lemma ReconciledBindingSound(ns: Namespace, n: string, r: Replies)
    requires n in ns.bindings && n in ReconciledBinding(ns, n, r).bindings
    requires MetaSound(ns.bindings[n].meta, BindingPhase(ns.bindings[n]))
    ensures MetaSound(ReconciledBinding(ns, n, r).bindings[n].meta, BindingPhase(ReconciledBinding(ns, n, r).bindings[n]))
  {
  }

  lemma StepKeepsKindsUnique(ns: Namespace, step: Step)
    requires Enabled(ns, step) && KindsUnique(ns)
    ensures KindsUnique(Stepped(ns, step))
  {
    var ns' := Stepped(ns, step);
    forall a, b, kind | BothPublish(ns', a, b, kind) ensures a == b {
      PublishedBefore(ns, step, a, kind);
      PublishedBefore(ns, step, b, kind);
      assert BothPublish(ns, a, b, kind) ==> a == b;
    }
  }

  /** A storage publishes a unique kind only if it did before, or nobody did. */
  lemma PublishedBefore(ns: Namespace, step: Step, name: string, kind: StorageKind)
    requires Enabled(ns, step) && name in Stepped(ns, step).storages && Publishes(Stepped(ns, step).storages[name], kind)
    ensures (name in ns.storages && Publishes(ns.storages[name], kind))
            || (step.ReconcileStorage? && step.name == name && forall other :: other in ns.storages ==> !Publishes(ns.storages[other], kind))
  {
    if step.ReconcileStorage? && step.name == name && !Publishes(ns.storages[name], kind) {
      forall other | other in ns.storages ensures !Publishes(ns.storages[other], kind) {
        assert other !in Conflicting(ns, kind);
      }
    }
  }

  predicate Fit(b: Binding) {
    IsReady(b) ==>
      var status := b.status.value;
      status.model.Some? && status.bound.Some? && Bindable(status.model.value, status.bound.value)
  }

  lemma StepKeepsBindingsFit(ns: Namespace, step: Step)
    requires Enabled(ns, step) && BindingsFit(ns)
    ensures BindingsFit(Stepped(ns, step))
  {
    match step
    case ReconcileBinding(name, r) =>
      forall n | n in Stepped(ns, step).bindings ensures Fit(Stepped(ns, step).bindings[n]) {
        if n == name {
          ReconciledBindingFit(ns, n, r);
        }
      }
    case _ =>
  }

  lemma ReconciledBindingFit(ns: Namespace, n: string, r: Replies)
    requires n in ns.bindings && n in ReconciledBinding(ns, n, r).bindings && Fit(ns.bindings[n])
    ensures Fit(ReconciledBinding(ns, n, r).bindings[n])
  {
  }

  /** What was bound can be unbound, under either deletion policy. */
  lemma BindableIsUnbindable(model: ModelSpec, bound: Bound, policy: DeletionPolicy)
    requires Bindable(model, bound)
    ensures Unbindable(model, bound, policy)
  {
  }

  /** A model some ready binding refers to does not go away. */
  lemma ModelStaysAlive(ns: Namespace, step: Step, name: string)
    requires Enabled(ns, step) && ModelLives(ns, name) && BindingsOfModel(ns, name) != {}
    requires MetaSound(ns.models[name].meta, ModelPhase(ns.models[name]))
    ensures ModelLives(Stepped(ns, step), name)
  {
  }

  /** A storage some ready binding refers to does not go away, and keeps its uid. */
  lemma StorageStaysAlive(ns: Namespace, step: Step, name: string, uid: Uid)
    requires Enabled(ns, step) && StorageLives(ns, name, uid) && BindingsOfStorage(ns, name) != {}
    requires MetaSound(ns.storages[name].meta, StoragePhase(ns.storages[name]))
    ensures StorageLives(Stepped(ns, step), name, uid)
  {
  }

  /** Nothing that a ready, unedited binding relies on goes away. */
  lemma StepKeepsLives(ns: Namespace, step: Step, b: Binding, n: string)
    requires Enabled(ns, step) && AllSound(ns)
    requires n in ns.bindings && ns.bindings[n] == b && IsReady(b) && BindingHolds(ns, b)
    ensures BindingHolds(Stepped(ns, step), b)
  {
    assert n in BindingsOfModel(ns, b.spec.model);
    ModelStaysAlive(ns, step, b.spec.model);
    assert n in BindingsOfStorage(ns, b.spec.target);
    StorageStaysAlive(ns, step, b.spec.target, b.status.value.bound.value.targetUid);
    if b.spec.source.Some? {
      assert n in BindingsOfStorage(ns, b.spec.source.value.name);
      StorageStaysAlive(ns, step, b.spec.source.value.name, b.status.value.bound.value.sourceUid.value);
    }
  }

  lemma StepKeepsBindingsHold(ns: Namespace, step: Step)
    requires Enabled(ns, step) && AllSound(ns) && BindingsHold(ns)
    ensures BindingsHold(Stepped(ns, step))
  {
    var ns' := Stepped(ns, step);
    forall n | n in ns'.bindings && IsReady(ns'.bindings[n]) && !ns'.bindings[n].edited
      ensures BindingHolds(ns', ns'.bindings[n])
    {
      if n in ns.bindings && SameBinding(ns.bindings[n], ns'.bindings[n]) {
        StepKeepsLives(ns, step, ns.bindings[n], n);
      } else {
        BoundHolds(ns, step, n);
      }
    }
  }

  /** Nothing but the metadata of the binding changed. */
  predicate SameBinding(before: Binding, after: Binding) {
    before.spec == after.spec && before.status == after.status && before.edited == after.edited
  }

  /** A binding that just became ready, or was made again, holds. */
  lemma BoundHolds(ns: Namespace, step: Step, n: string)
    requires Enabled(ns, step)
    requires var ns' := Stepped(ns, step);
             n in ns'.bindings && IsReady(ns'.bindings[n]) && !ns'.bindings[n].edited
    requires n in ns.bindings ==> !SameBinding(ns.bindings[n], Stepped(ns, step).bindings[n])
    ensures BindingHolds(Stepped(ns, step), Stepped(ns, step).bindings[n])
  {
    match step
    case ReconcileBinding(name, r) => ReboundHolds(ns, name, r, n);
    case _ =>
  }

  lemma ReboundHolds(ns: Namespace, name: string, r: Replies, n: string)
    requires name in ns.bindings
    requires var ns' := ReconciledBinding(ns, name, r);
             n in ns'.bindings && IsReady(ns'.bindings[n]) && !ns'.bindings[n].edited
    requires n in ns.bindings ==> !SameBinding(ns.bindings[n], ReconciledBinding(ns, name, r).bindings[n])
    ensures BindingHolds(ReconciledBinding(ns, name, r), ReconciledBinding(ns, name, r).bindings[n])
  {
  }

  /** In every run of the three controllers and their users, from an empty namespace
      or any sound one, ready unedited bindings hold and unique kinds are unique. */
  lemma {:induction false} AlwaysGuarded(ns: Namespace, steps: seq<Step>)
    requires Runs(ns, steps) && AllSound(ns) && BindingsHold(ns) && BindingsFit(ns) && KindsUnique(ns)
    ensures var end := After(ns, steps);
            AllSound(end) && BindingsHold(end) && BindingsFit(end) && KindsUnique(end)
    decreases |steps|
  {
    if steps != [] {
      StepKeepsSound(ns, steps[0]);
      StepKeepsBindingsHold(ns, steps[0]);
      StepKeepsBindingsFit(ns, steps[0]);
      StepKeepsKindsUnique(ns, steps[0]);
      AlwaysGuarded(Stepped(ns, steps[0]), steps[1..]);
    }
  }

  lemma EmptyIsGuarded(uid: Uid)
    ensures var ns := Namespace(map[], map[], map[], uid);
            AllSound(ns) && BindingsHold(ns) && BindingsFit(ns) && KindsUnique(ns)
  {
  }

  // ---------------------------------------------------------------- progress

  /** Every call succeeds. */
  const ALL_WELL := Replies(true, true, true, true)

  /** A pending binding whose model and storages are ready and fit becomes ready, in
      one reconcile once it has its finalizer, and holds. */
  lemma PendingBecomesReady(ns: Namespace, n: string)
    requires n in ns.bindings && !ns.bindings[n].meta.deleting && ns.bindings[n].meta.finalizer
    requires PhaseOf(BindingPhase(ns.bindings[n])) == Pending
    requires var context := LoadContext(ns, ns.bindings[n].spec);
             context.Some? && Bindable(context.value.0, context.value.1)
    ensures var ns' := ReconciledBinding(ns, n, ALL_WELL);
            IsReady(ns'.bindings[n]) && !ns'.bindings[n].edited && BindingHolds(ns', ns'.bindings[n])
  {
  }

  /** The binding is ready and records the context as it is now. */
  predicate InStep(b: Binding, context: (ModelSpec, Bound)) {
    IsReady(b) && b.status.value.model == Some(context.0) && b.status.value.bound == Some(context.1)
  }

  /** When a reconcile of a ready binding, that meets no failure, leaves it in step with
      its model and storages: if and only if these are ready, the model is still the
      one that was bound, and the storages did not change or can be unbound as they
      were and bound as they are. Otherwise nothing changes. */
  lemma RebindExactly(ns: Namespace, n: string)
    requires n in ns.bindings && IsReady(ns.bindings[n]) && ns.bindings[n].meta.finalizer && !ns.bindings[n].meta.deleting
    ensures var b, b' := ns.bindings[n], ReconciledBinding(ns, n, ALL_WELL).bindings[n];
            var context := LoadContext(ns, b.spec);
            if context.None? then b' == b
            else
              var (model, bound) := context.value;
              var last := b.status.value;
              && (InStep(b', context.value) <==>
                  && last.model == Some(model)
                  && (last.bound == Some(bound)
                      || (last.bound.Some? && Unbindable(model, last.bound.value, b.spec.policy) && Bindable(model, bound))))
              && (b' != b ==> InStep(b', context.value) && !b'.edited && BindingHolds(ReconciledBinding(ns, n, ALL_WELL), b'))
  {
  }

  /** A model marked for deletion that no ready binding refers to is gone after two
      reconciles; a storage likewise. */
  lemma UnboundGoesAway(ns: Namespace, n: string)
    requires AllSound(ns)
    ensures n in ns.models && ns.models[n].meta.deleting && BindingsOfModel(ns, n) == {} ==>
              var ns' := ReconciledModel(ns, n, ALL_WELL);
              n !in ns'.models || n !in ReconciledModel(ns', n, ALL_WELL).models
    ensures n in ns.storages && ns.storages[n].meta.deleting && BindingsOfStorage(ns, n) == {} ==>
              var ns' := ReconciledStorage(ns, n, ALL_WELL);
              n !in ns'.storages || n !in ReconciledStorage(ns', n, ALL_WELL).storages
  {
    if n in ns.models && ns.models[n].meta.deleting {
      var ns' := ReconciledModel(ns, n, ALL_WELL);
      assert BindingsOfModel(ns', n) == BindingsOfModel(ns, n);
    }
    if n in ns.storages && ns.storages[n].meta.deleting {
      var ns' := ReconciledStorage(ns, n, ALL_WELL);
      assert BindingsOfStorage(ns', n) == BindingsOfStorage(ns, n);
    }
  }
}
