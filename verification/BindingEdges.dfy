/** What each of the three reconcilers does in every phase, whatever the world outside
    answers, spelled out in the records themselves. */
module BindingEdges {
  import opened Results
  import opened Bindings

  // ----------------------------------------------------------------- objects

  /** Only this model was written; it is `after` now, or gone. */
  ghost predicate OnlyModel(ns: Namespace, ns': Namespace, name: string, after: Option<Model>) {
    && ns'.storages == ns.storages && ns'.bindings == ns.bindings && ns'.nextUid == ns.nextUid
    && (name in ns'.models <==> after.Some?)
    && (after.Some? ==> ns'.models[name] == after.value)
    && forall n :: n != name ==>
                     (n in ns'.models <==> n in ns.models) && (n in ns.models ==> ns'.models[n] == ns.models[n])
  }

  ghost predicate OnlyStorage(ns: Namespace, ns': Namespace, name: string, after: Option<Storage>) {
    && ns'.models == ns.models && ns'.bindings == ns.bindings && ns'.nextUid == ns.nextUid
    && (name in ns'.storages <==> after.Some?)
    && (after.Some? ==> ns'.storages[name] == after.value)
    && forall n :: n != name ==>
                     (n in ns'.storages <==> n in ns.storages) && (n in ns.storages ==> ns'.storages[n] == ns.storages[n])
  }

  ghost predicate OnlyBinding(ns: Namespace, ns': Namespace, name: string, after: Option<Binding>) {
    && ns'.models == ns.models && ns'.storages == ns.storages && ns'.nextUid == ns.nextUid
    && (name in ns'.bindings <==> after.Some?)
    && (after.Some? ==> ns'.bindings[name] == after.value)
    && forall n :: n != name ==>
                     (n in ns'.bindings <==> n in ns.bindings) && (n in ns.bindings ==> ns'.bindings[n] == ns.bindings[n])
  }

  // ------------------------------------------------------------------- models

  function PhaseOfModel(m: Model): Phase {
    match m.status case None => Pending case Some(status) => status.phase
  }

  /** Some ready binding refers to the model. */
  predicate IsReferred(ns: Namespace, model: string) {
    exists b :: b in ns.bindings && Refers(ns.bindings[b], model)
  }

  predicate Refers(b: Binding, model: string) {
    b.status.Some? && b.status.value.phase == Ready && b.spec.model == model
  }

  function HasFields(m: Model): bool {
    match m.status case None => false case Some(status) => status.fields
  }

  /** The model after its reconcile, if there is one. */
  function NextModel(ns: Namespace, name: string, r: Replies): Option<Model>
    requires name in ns.models
  {
    var m := ns.models[name];
    var phase := PhaseOfModel(m);
    if m.meta.deleting && phase != Deleting then
      Some(if r.status then Model(m.meta, m.spec, Some(ModelStatus(Deleting, HasFields(m)))) else m)
    else if !m.meta.finalizer then
      Some(if r.metadata && !m.meta.deleting then Model(Meta(m.meta.uid, true, false), m.spec, m.status) else m)
    else if phase == Pending && r.external && r.status then
      Some(Model(m.meta, m.spec, Some(ModelStatus(Ready, true))))
    else if phase == Deleting && !IsReferred(ns, name) && r.external && r.metadata then
      if m.meta.deleting then None else Some(Model(Meta(m.meta.uid, false, false), m.spec, m.status))
    else Some(m)
  }

  lemma ReferredExactly(ns: Namespace, model: string)
    ensures BindingsOfModel(ns, model) == {} <==> !IsReferred(ns, model)
  {
    forall b | b in ns.bindings ensures b in BindingsOfModel(ns, model) <==> Refers(ns.bindings[b], model) {
    }
  }

  lemma ModelReleased(ns: Namespace, name: string, r: Replies)
    requires name in ns.models && ns.models[name].meta.finalizer && PhaseOfModel(ns.models[name]) == Deleting
    ensures OnlyModel(ns, ReconciledModel(ns, name, r), name, NextModel(ns, name, r))
  {
    ReferredExactly(ns, name);
  }

  lemma ModelExactly(ns: Namespace, name: string, r: Replies)
    requires name in ns.models
    ensures OnlyModel(ns, ReconciledModel(ns, name, r), name, NextModel(ns, name, r))
  {
    if ns.models[name].meta.finalizer && PhaseOfModel(ns.models[name]) == Deleting {
      ModelReleased(ns, name, r);
    }
  }

  // ----------------------------------------------------------------- storages

  function PhaseOfStorage(s: Storage): Phase {
    match s.status case None => Pending case Some(status) => status.phase
  }

  function PublishedBy(s: Storage): Option<StorageSpec> {
    match s.status case None => None case Some(status) => status.kind
  }

  /** Two specifications that must not be ready in one namespace together: two of
      Kubernetes, or two object storages that ask to be unique. */
  predicate Exclude(a: StorageSpec, b: StorageSpec) {
    (a.Kubernetes? && b.Kubernetes?) || (a.ObjectStorage? && b.ObjectStorage? && a.unique && b.unique)
  }

  predicate IsExcluded(ns: Namespace, spec: StorageSpec) {
    exists n :: n in ns.storages && PublishesAgainst(ns.storages[n], spec)
  }

  predicate PublishesAgainst(s: Storage, spec: StorageSpec) {
    PublishedBy(s).Some? && Exclude(PublishedBy(s).value, spec)
  }

  predicate IsUsed(ns: Namespace, storage: string) {
    exists b :: b in ns.bindings && Uses(ns.bindings[b], storage)
  }

  /** The binding is ready, and its source or its target is the storage. */
  predicate Uses(b: Binding, storage: string) {
    && b.status.Some? && b.status.value.phase == Ready
    && (b.spec.target == storage || (b.spec.source.Some? && b.spec.source.value.name == storage))
  }

  /** The storage after its reconcile, if there is one. */
  function NextStorage(ns: Namespace, name: string, r: Replies): Option<Storage>
    requires name in ns.storages
  {
    var s := ns.storages[name];
    var phase := PhaseOfStorage(s);
    if s.meta.deleting && phase != Deleting then
      Some(if r.status then Storage(s.meta, s.spec, Some(StorageStatus(Deleting, PublishedBy(s)))) else s)
    else if !s.meta.finalizer then
      Some(if r.metadata && !s.meta.deleting then Storage(Meta(s.meta.uid, true, false), s.spec, s.status) else s)
    else if phase == Pending && !IsExcluded(ns, s.spec) && r.external && r.status then
      Some(Storage(s.meta, s.spec, Some(StorageStatus(Ready, Some(s.spec)))))
    else if phase == Deleting && !IsUsed(ns, name) && r.metadata then
      if s.meta.deleting then None else Some(Storage(Meta(s.meta.uid, false, false), s.spec, s.status))
    else Some(s)
  }

  lemma ExcludedExactly(ns: Namespace, spec: StorageSpec)
    ensures (spec.IsUnique() ==> Conflicting(ns, spec.ToKind()) == {}) <==> !IsExcluded(ns, spec)
  {
    forall n | n in ns.storages
      ensures spec.IsUnique() && n in Conflicting(ns, spec.ToKind()) <==> PublishesAgainst(ns.storages[n], spec)
    {
    }
  }

  lemma UsedExactly(ns: Namespace, storage: string)
    ensures BindingsOfStorage(ns, storage) == {} <==> !IsUsed(ns, storage)
  {
    forall b | b in ns.bindings ensures b in BindingsOfStorage(ns, storage) <==> Uses(ns.bindings[b], storage) {
    }
  }

  lemma StoragePublished(ns: Namespace, name: string, r: Replies)
    requires name in ns.storages && ns.storages[name].meta.finalizer && !ns.storages[name].meta.deleting
    requires PhaseOfStorage(ns.storages[name]) == Pending
    ensures OnlyStorage(ns, ReconciledStorage(ns, name, r), name, NextStorage(ns, name, r))
  {
    ExcludedExactly(ns, ns.storages[name].spec);
  }

  lemma StorageReleased(ns: Namespace, name: string, r: Replies)
    requires name in ns.storages && ns.storages[name].meta.finalizer && PhaseOfStorage(ns.storages[name]) == Deleting
    ensures OnlyStorage(ns, ReconciledStorage(ns, name, r), name, NextStorage(ns, name, r))
  {
    UsedExactly(ns, name);
  }

  lemma StorageExactly(ns: Namespace, name: string, r: Replies)
    requires name in ns.storages
    ensures OnlyStorage(ns, ReconciledStorage(ns, name, r), name, NextStorage(ns, name, r))
  {
    var s := ns.storages[name];
    if s.meta.finalizer && PhaseOfStorage(s) == Deleting {
      StorageReleased(ns, name, r);
    } else if s.meta.finalizer && !s.meta.deleting && PhaseOfStorage(s) == Pending {
      StoragePublished(ns, name, r);
    }
  }

  // ----------------------------------------------------------------- bindings

  function PhaseOfBinding(b: Binding): Phase {
    match b.status case None => Pending case Some(status) => status.phase
  }

  predicate ModelIsReady(ns: Namespace, name: string) {
    name in ns.models && PhaseOfModel(ns.models[name]) == Ready && HasFields(ns.models[name])
  }

  predicate StorageIsReady(ns: Namespace, name: string) {
    name in ns.storages && PhaseOfStorage(ns.storages[name]) == Ready
  }

  /** Everything the binding names is ready. */
  predicate AllReady(ns: Namespace, spec: BindingSpec) {
    && ModelIsReady(ns, spec.model) && StorageIsReady(ns, spec.target)
    && (spec.source.Some? ==> StorageIsReady(ns, spec.source.value.name))
  }

  function ModelNow(ns: Namespace, spec: BindingSpec): ModelSpec
    requires AllReady(ns, spec)
  {
    ns.models[spec.model].spec
  }

  /** The storages the binding names, as they are now. */
  function BoundNow(ns: Namespace, spec: BindingSpec): Bound
    requires AllReady(ns, spec)
  {
    var target := ns.storages[spec.target];
    match spec.source
    case None => Bound(None, None, None, target.spec, spec.target, target.meta.uid)
    case Some(source) =>
      var origin := ns.storages[source.name];
      Bound(Some((source.name, origin.spec, source.policy)), source.binding, Some(origin.meta.uid),
            target.spec, spec.target, target.meta.uid)
  }

  lemma ContextExactly(ns: Namespace, spec: BindingSpec)
    ensures LoadContext(ns, spec) == if AllReady(ns, spec) then Some((ModelNow(ns, spec), BoundNow(ns, spec))) else None
  {
  }

  /** A database has no source; Kubernetes has none either, and holds definitions only;
      an object storage takes from object storages. */
  predicate CanBind(model: ModelSpec, bound: Bound) {
    match (bound.target, bound.source)
    case (Database(_), None) => true
    case (Kubernetes, None) => model.CrdRef?
    case (ObjectStorage(_, _), None) => true
    case (ObjectStorage(_, _), Some((_, ObjectStorage(_, _), _))) => true
    case _ => false
  }

  /** A source must be of the target's kind; what Kubernetes is to delete must be a definition. */
  predicate CanUnbind(model: ModelSpec, bound: Bound, policy: DeletionPolicy) {
    match (bound.target, bound.source)
    case (Database(_), None) => true
    case (Database(_), Some((_, Database(_), _))) => true
    case (Kubernetes, None) => policy == Retain || model.CrdRef?
    case (Kubernetes, Some((_, Kubernetes, _))) => policy == Retain || model.CrdRef?
    case (ObjectStorage(_, _), None) => true
    case (ObjectStorage(_, _), Some((_, ObjectStorage(_, _), _))) => true
    case _ => false
  }

  lemma TablesExactly(model: ModelSpec, bound: Bound, policy: DeletionPolicy)
    ensures Bindable(model, bound) <==> CanBind(model, bound)
    ensures Unbindable(model, bound, policy) <==> CanUnbind(model, bound, policy)
  {
  }

  /** A ready binding is made again: the model is the one that was bound, the storages
      have changed, and they can be unbound as they were. */
  predicate MustRebind(ns: Namespace, b: Binding, r: Replies)
    requires AllReady(ns, b.spec) && b.status.Some?
  {
    && b.status.value.model == Some(ModelNow(ns, b.spec))
    && b.status.value.bound.Some? && b.status.value.bound.value != BoundNow(ns, b.spec)
    && CanUnbind(ModelNow(ns, b.spec), b.status.value.bound.value, b.spec.policy) && r.unbind
  }

  /** The storage accepts the binding, and its status is written. */
  predicate IsAccepted(ns: Namespace, spec: BindingSpec, r: Replies)
    requires AllReady(ns, spec)
  {
    CanBind(ModelNow(ns, spec), BoundNow(ns, spec)) && r.external && r.status
  }

  function MadeReady(ns: Namespace, b: Binding): Binding
    requires AllReady(ns, b.spec)
  {
    Binding(b.meta, b.spec,
            Some(BindingStatus(Ready, Some(ModelNow(ns, b.spec)), Some(b.spec.model), Some(BoundNow(ns, b.spec)))), false)
  }

  /** The binding after its reconcile, if there is one. */
  function NextBinding(ns: Namespace, name: string, r: Replies): Option<Binding>
    requires name in ns.bindings
  {
    var b := ns.bindings[name];
    var phase := PhaseOfBinding(b);
    if b.meta.deleting && phase != Deleting then
      var last := if b.status.Some? then b.status.value else BindingStatus(Pending, None, None, None);
      Some(if r.status then
             Binding(b.meta, b.spec, Some(BindingStatus(Deleting, last.model, last.modelName, last.bound)), b.edited)
           else b)
    else if !b.meta.finalizer then
      Some(if r.metadata && !b.meta.deleting then Binding(Meta(b.meta.uid, true, false), b.spec, b.status, b.edited) else b)
    else
      match phase
      case Pending => Some(if AllReady(ns, b.spec) && IsAccepted(ns, b.spec, r) then MadeReady(ns, b) else b)
      case Ready =>
        Some(if AllReady(ns, b.spec) && MustRebind(ns, b, r) && IsAccepted(ns, b.spec, r) then MadeReady(ns, b) else b)
      case Deleting =>
        if AllReady(ns, b.spec) && !(CanUnbind(ModelNow(ns, b.spec), BoundNow(ns, b.spec), b.spec.policy) && r.unbind) then Some(b)
        else if !r.metadata then Some(b)
        else if b.meta.deleting then None
        else Some(Binding(Meta(b.meta.uid, false, false), b.spec, b.status, b.edited))
  }

  lemma BindingMade(ns: Namespace, name: string, r: Replies)
    requires name in ns.bindings && ns.bindings[name].meta.finalizer && !ns.bindings[name].meta.deleting
    requires PhaseOfBinding(ns.bindings[name]) == Pending
    ensures OnlyBinding(ns, ReconciledBinding(ns, name, r), name, NextBinding(ns, name, r))
  {
    var b := ns.bindings[name];
    ContextExactly(ns, b.spec);
    if AllReady(ns, b.spec) {
      TablesExactly(ModelNow(ns, b.spec), BoundNow(ns, b.spec), b.spec.policy);
    }
  }

  lemma BindingRemade(ns: Namespace, name: string, r: Replies)
    requires name in ns.bindings && ns.bindings[name].meta.finalizer && !ns.bindings[name].meta.deleting
    requires PhaseOfBinding(ns.bindings[name]) == Ready
    ensures OnlyBinding(ns, ReconciledBinding(ns, name, r), name, NextBinding(ns, name, r))
  {
    var b := ns.bindings[name];
    ContextExactly(ns, b.spec);
    if AllReady(ns, b.spec) {
      TablesExactly(ModelNow(ns, b.spec), BoundNow(ns, b.spec), b.spec.policy);
      if b.status.value.bound.Some? {
        TablesExactly(ModelNow(ns, b.spec), b.status.value.bound.value, b.spec.policy);
      }
    }
  }

  lemma BindingReleased(ns: Namespace, name: string, r: Replies)
    requires name in ns.bindings && ns.bindings[name].meta.finalizer && PhaseOfBinding(ns.bindings[name]) == Deleting
    ensures OnlyBinding(ns, ReconciledBinding(ns, name, r), name, NextBinding(ns, name, r))
  {
    var b := ns.bindings[name];
    ContextExactly(ns, b.spec);
    if AllReady(ns, b.spec) {
      TablesExactly(ModelNow(ns, b.spec), BoundNow(ns, b.spec), b.spec.policy);
    }
  }

  lemma BindingExactly(ns: Namespace, name: string, r: Replies)
    requires name in ns.bindings
    ensures OnlyBinding(ns, ReconciledBinding(ns, name, r), name, NextBinding(ns, name, r))
  {
    var b := ns.bindings[name];
    if b.meta.finalizer && PhaseOfBinding(b) == Deleting {
      BindingReleased(ns, name, r);
    } else if b.meta.finalizer && !b.meta.deleting && PhaseOfBinding(b) == Pending {
      BindingMade(ns, name, r);
    } else if b.meta.finalizer && !b.meta.deleting {
      BindingRemade(ns, name, r);
    }
  }

  /** A binding becomes ready, or is made again, only when the storage accepted it. */
  lemma ReadyMeansAccepted(ns: Namespace, name: string, r: Replies)
    requires name in ns.bindings
    requires var ns' := ReconciledBinding(ns, name, r);
             name in ns'.bindings && ns'.bindings[name] != ns.bindings[name] && PhaseOfBinding(ns'.bindings[name]) == Ready
    ensures ns.bindings[name].meta.finalizer ==> r.external && r.status && AllReady(ns, ns.bindings[name].spec)
  {
    BindingExactly(ns, name, r);
  }
}
