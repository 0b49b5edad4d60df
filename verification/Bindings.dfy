/** Models, storages and the bindings between them, in one namespace: the three
    Dash reconcilers and what users do, one atomic step at a time. */
module Bindings {
  import opened Results

  type Uid = nat

  datatype Phase = Pending | Ready | Deleting

  /** `deleting` is the deletion timestamp. */
  datatype Meta = Meta(uid: Uid, finalizer: bool, deleting: bool)

  datatype ModelSpec = DynamicModel | FieldsModel(fields: string) | CrdRef(name: string)

  datatype StorageKind = DatabaseKind | KubernetesKind | ObjectStorageKind

  datatype StorageSpec = Database(url: string) | Kubernetes | ObjectStorage(config: string, unique: bool)
  {
    predicate IsUnique() {
      Kubernetes? || (ObjectStorage? && unique)
    }

    function ToKind(): StorageKind {
      match this
      case Database(_) => DatabaseKind
      case Kubernetes => KubernetesKind
      case ObjectStorage(_, _) => ObjectStorageKind
    }
  }

  /** The status has parsed fields once the model was ready. */
  datatype ModelStatus = ModelStatus(phase: Phase, fields: bool)

  datatype Model = Model(meta: Meta, spec: ModelSpec, status: Option<ModelStatus>)

  datatype StorageStatus = StorageStatus(phase: Phase, kind: Option<StorageSpec>)

  datatype Storage = Storage(meta: Meta, spec: StorageSpec, status: Option<StorageStatus>)

  datatype SyncPolicy = SyncPolicy(pull: bool, push: bool)

  datatype Source = Source(name: string, policy: SyncPolicy, binding: Option<string>)

  datatype DeletionPolicy = Delete | Retain

  datatype BindingSpec = BindingSpec(model: string, source: Option<Source>, target: string, policy: DeletionPolicy)

  /** `State`: what a rebind is decided on. */
  datatype Bound = Bound(source: Option<(string, StorageSpec, SyncPolicy)>, sourceBinding: Option<string>, sourceUid: Option<Uid>,
                         target: StorageSpec, targetName: string, targetUid: Uid)

  datatype BindingStatus = BindingStatus(phase: Phase, model: Option<ModelSpec>, modelName: Option<string>, bound: Option<Bound>)

  /** `edited` remembers that the spec was written after the status became ready. */
  datatype Binding = Binding(meta: Meta, spec: BindingSpec, status: Option<BindingStatus>, edited: bool)

  datatype Namespace = Namespace(models: map<string, Model>, storages: map<string, Storage>,
                                 bindings: map<string, Binding>, nextUid: Uid)

  /** What the world outside answers during one reconcile: whether validation or
      binding succeeds, whether unbinding does, and whether the patches of the
      status and of the metadata take effect. */
  datatype Replies = Replies(external: bool, unbind: bool, status: bool, metadata: bool)

  // -------------------------------------- provider/src/storage/kubernetes.rs

  function LoadModel(ns: Namespace, name: string): Option<Model> {
    if name in ns.models && ns.models[name].status.Some?
       && ns.models[name].status.value.phase == Ready && ns.models[name].status.value.fields
    then Some(ns.models[name]) else None
  }

  function LoadStorage(ns: Namespace, name: string): Option<Storage> {
    if name in ns.storages && ns.storages[name].status.Some? && ns.storages[name].status.value.phase == Ready
    then Some(ns.storages[name]) else None
  }

  predicate IsReady(b: Binding) {
    b.status.Some? && b.status.value.phase == Ready
  }

  /** `load_model_storage_bindings`. */
  function BindingsOfModel(ns: Namespace, model: string): set<string> {
    set b | b in ns.bindings && IsReady(ns.bindings[b]) && ns.bindings[b].spec.model == model
  }

  /** `load_model_storage_bindings_by_storage`. */
  function BindingsOfStorage(ns: Namespace, storage: string): set<string> {
    set b | b in ns.bindings && IsReady(ns.bindings[b])
            && ((ns.bindings[b].spec.source.Some? && ns.bindings[b].spec.source.value.name == storage)
                || ns.bindings[b].spec.target == storage)
  }

  predicate Publishes(s: Storage, kind: StorageKind) {
    && s.status.Some? && s.status.value.kind.Some?
    && s.status.value.kind.value.IsUnique() && s.status.value.kind.value.ToKind() == kind
  }

  /** `load_model_storages_by` as `validate_model_storage_conflict` calls it. */
  function Conflicting(ns: Namespace, kind: StorageKind): set<string> {
    set s | s in ns.storages && Publishes(ns.storages[s], kind)
  }

  // ---------------------------------------------------- objects and finalizers

  /** A user asks for deletion: without a finalizer the object is gone at once. */
  function Marked(meta: Meta): Option<Meta> {
    if meta.finalizer then Some(meta.(deleting := true)) else None
  }

  function Finalized(meta: Meta, r: Replies): Meta {
    if r.metadata && !meta.deleting then meta.(finalizer := true) else meta
  }

  /** Without its finalizer an object marked for deletion is gone. */
  function Released(meta: Meta, r: Replies): Option<Meta> {
    if !r.metadata then Some(meta)
    else if meta.deleting then None
    else Some(meta.(finalizer := false))
  }

  // ------------------------------------------------------------------- models

  function PhaseOf(phase: Option<Phase>): Phase {
    if phase.Some? then phase.value else Pending
  }

  function ModelPhase(m: Model): Option<Phase> {
    if m.status.Some? then Some(m.status.value.phase) else None
  }

  function WithModel(ns: Namespace, name: string, meta: Option<Meta>): Namespace
    requires name in ns.models
  {
    if meta.None? then ns.(models := ns.models - {name})
    else ns.(models := ns.models[name := ns.models[name].(meta := meta.value)])
  }

  function WithModelStatus(ns: Namespace, name: string, status: ModelStatus, r: Replies): Namespace
    requires name in ns.models
  {
    if r.status then ns.(models := ns.models[name := ns.models[name].(status := Some(status))]) else ns
  }

  function ReconciledModel(ns: Namespace, name: string, r: Replies): Namespace
    requires name in ns.models
  {
    var m := ns.models[name];
    if m.meta.deleting && ModelPhase(m) != Some(Deleting) then
      WithModelStatus(ns, name, ModelStatus(Deleting, m.status.Some? && m.status.value.fields), r)
    else if !m.meta.finalizer then WithModel(ns, name, Some(Finalized(m.meta, r)))
    else
      match PhaseOf(ModelPhase(m))
      case Pending => if r.external then WithModelStatus(ns, name, ModelStatus(Ready, true), r) else ns
      case Ready => ns
      case Deleting =>
        // `external` says that no ready model claim is in the way
        if BindingsOfModel(ns, name) == {} && r.external then WithModel(ns, name, Released(m.meta, r)) else ns
  }

  // ----------------------------------------------------------------- storages

  function StoragePhase(s: Storage): Option<Phase> {
    if s.status.Some? then Some(s.status.value.phase) else None
  }

  function WithStorage(ns: Namespace, name: string, meta: Option<Meta>): Namespace
    requires name in ns.storages
  {
    if meta.None? then ns.(storages := ns.storages - {name})
    else ns.(storages := ns.storages[name := ns.storages[name].(meta := meta.value)])
  }

  function WithStorageStatus(ns: Namespace, name: string, status: StorageStatus, r: Replies): Namespace
    requires name in ns.storages
  {
    if r.status then ns.(storages := ns.storages[name := ns.storages[name].(status := Some(status))]) else ns
  }

  function ReconciledStorage(ns: Namespace, name: string, r: Replies): Namespace
    requires name in ns.storages
  {
    var s := ns.storages[name];
    if s.meta.deleting && StoragePhase(s) != Some(Deleting) then
      WithStorageStatus(ns, name, StorageStatus(Deleting, if s.status.Some? then s.status.value.kind else None), r)
    else if !s.meta.finalizer then WithStorage(ns, name, Some(Finalized(s.meta, r)))
    else
      match PhaseOf(StoragePhase(s))
      case Pending =>
        if (s.spec.IsUnique() ==> Conflicting(ns, s.spec.ToKind()) == {}) && r.external
        then WithStorageStatus(ns, name, StorageStatus(Ready, Some(s.spec)), r) else ns
      case Ready => ns
      case Deleting =>
        if BindingsOfStorage(ns, name) == {} then WithStorage(ns, name, Released(s.meta, r)) else ns
  }

  // ----------------------------------------------------------------- bindings

  function BindingPhase(b: Binding): Option<Phase> {
    if b.status.Some? then Some(b.status.value.phase) else None
  }

  function WithBinding(ns: Namespace, name: string, meta: Option<Meta>): Namespace
    requires name in ns.bindings
  {
    if meta.None? then ns.(bindings := ns.bindings - {name})
    else ns.(bindings := ns.bindings[name := ns.bindings[name].(meta := meta.value)])
  }

  function WithBindingStatus(ns: Namespace, name: string, status: BindingStatus, r: Replies): Namespace
    requires name in ns.bindings
  {
    if r.status then
      ns.(bindings := ns.bindings[name := ns.bindings[name].(
            status := Some(status),
            edited := if status.phase == Ready then false else ns.bindings[name].edited)])
    else ns
  }

  /** `load_context`. */
  function LoadContext(ns: Namespace, spec: BindingSpec): Option<(ModelSpec, Bound)> {
    var model := LoadModel(ns, spec.model);
    var source := if spec.source.Some? then LoadStorage(ns, spec.source.value.name) else None;
    var target := LoadStorage(ns, spec.target);
    if model.None? || (spec.source.Some? && source.None?) || target.None? then None
    else Some((model.value.spec, Bound(
                 if spec.source.Some? then Some((spec.source.value.name, source.value.spec, spec.source.value.policy)) else None,
                 if spec.source.Some? then spec.source.value.binding else None,
                 if spec.source.Some? then Some(source.value.meta.uid) else None,
                 target.value.spec, spec.target, target.value.meta.uid)))
  }

  /** What `bind_model` checks before it talks to the storage. */
  predicate Bindable(model: ModelSpec, bound: Bound) {
    match bound.target
    case Database(_) => bound.source.None?
    case Kubernetes => bound.source.None? && model.CrdRef?
    case ObjectStorage(_, _) => bound.source.Some? ==> bound.source.value.1.ObjectStorage?
  }

  /** What `unbind_model` checks before it talks to the storage. */
  predicate Unbindable(model: ModelSpec, bound: Bound, policy: DeletionPolicy) {
    && (bound.source.Some? ==> bound.source.value.1.ToKind() == bound.target.ToKind())
    && (bound.target.Kubernetes? && policy == Delete ==> model.CrdRef?)
  }

  /** `validate_model_storage_binding_with`. */
  function Validated(b: Binding, model: ModelSpec, bound: Bound, r: Replies): Option<BindingStatus> {
    if Bindable(model, bound) && r.external
    then Some(BindingStatus(Ready, Some(model), Some(b.spec.model), Some(bound))) else None
  }

  /** `update`: the new status, if the binding has to be made again. */
  function Updated(b: Binding, context: (ModelSpec, Bound), r: Replies): Option<BindingStatus>
    requires b.status.Some?
  {
    var last := b.status.value;
    if last.model != Some(context.0) then None
    else if last.bound == Some(context.1) then None
    else if last.bound.None? || !Unbindable(context.0, last.bound.value, b.spec.policy) || !r.unbind then None
    else Validated(b, context.0, context.1, r)
  }

  function ReconciledBinding(ns: Namespace, name: string, r: Replies): Namespace
    requires name in ns.bindings
  {
    var b := ns.bindings[name];
    if b.meta.deleting && BindingPhase(b) != Some(Deleting) then
      WithBindingStatus(ns, name, if b.status.Some? then b.status.value.(phase := Deleting) else BindingStatus(Deleting, None, None, None), r)
    else if !b.meta.finalizer then WithBinding(ns, name, Some(Finalized(b.meta, r)))
    else
      var context := LoadContext(ns, b.spec);
      match PhaseOf(BindingPhase(b))
      case Pending =>
        if context.None? then ns
        else
          var status := Validated(b, context.value.0, context.value.1, r);
          if status.Some? then WithBindingStatus(ns, name, status.value, r) else ns
      case Ready =>
        if context.None? || b.status.None? then ns
        else
          var status := Updated(b, context.value, r);
          if status.Some? then WithBindingStatus(ns, name, status.value, r) else ns
      case Deleting =>
        // a context that cannot be loaded is only logged
        if context.None? || (Unbindable(context.value.0, context.value.1, b.spec.policy) && r.unbind)
        then WithBinding(ns, name, Released(b.meta, r)) else ns
  }

  // -------------------------------------------------------------------- steps

  datatype Step =
    | ReconcileModel(name: string, replies: Replies)
    | ReconcileStorage(name: string, replies: Replies)
    | ReconcileBinding(name: string, replies: Replies)
    | CreateModel(name: string, model: ModelSpec)
    | CreateStorage(name: string, storage: StorageSpec)
    | CreateBinding(name: string, binding: BindingSpec)
    | EditModel(name: string, model: ModelSpec)
    | EditStorage(name: string, storage: StorageSpec)
    | EditBinding(name: string, binding: BindingSpec)
    | DeleteModel(name: string)
    | DeleteStorage(name: string)
    | DeleteBinding(name: string)

  predicate Enabled(ns: Namespace, step: Step) {
    match step
    case CreateModel(name, _) => name !in ns.models
    case CreateStorage(name, _) => name !in ns.storages
    case CreateBinding(name, _) => name !in ns.bindings
    case ReconcileModel(name, _) => name in ns.models
    case EditModel(name, _) => name in ns.models
    case DeleteModel(name) => name in ns.models
    case ReconcileStorage(name, _) => name in ns.storages
    case EditStorage(name, _) => name in ns.storages
    case DeleteStorage(name) => name in ns.storages
    case ReconcileBinding(name, _) => name in ns.bindings
    case EditBinding(name, _) => name in ns.bindings
    case DeleteBinding(name) => name in ns.bindings
  }

  function Stepped(ns: Namespace, step: Step): Namespace
    requires Enabled(ns, step)
  {
    var newborn := Meta(ns.nextUid, false, false);
    match step
    case ReconcileModel(name, r) => ReconciledModel(ns, name, r)
    case ReconcileStorage(name, r) => ReconciledStorage(ns, name, r)
    case ReconcileBinding(name, r) => ReconciledBinding(ns, name, r)
    case CreateModel(name, spec) =>
      ns.(models := ns.models[name := Model(newborn, spec, None)], nextUid := ns.nextUid + 1)
    case CreateStorage(name, spec) =>
      ns.(storages := ns.storages[name := Storage(newborn, spec, None)], nextUid := ns.nextUid + 1)
    case CreateBinding(name, spec) =>
      ns.(bindings := ns.bindings[name := Binding(newborn, spec, None, false)], nextUid := ns.nextUid + 1)
    case EditModel(name, spec) => ns.(models := ns.models[name := ns.models[name].(spec := spec)])
    case EditStorage(name, spec) => ns.(storages := ns.storages[name := ns.storages[name].(spec := spec)])
    case EditBinding(name, spec) =>
      ns.(bindings := ns.bindings[name := ns.bindings[name].(spec := spec, edited := true)])
    case DeleteModel(name) => WithModel(ns, name, Marked(ns.models[name].meta))
    case DeleteStorage(name) => WithStorage(ns, name, Marked(ns.storages[name].meta))
    case DeleteBinding(name) => WithBinding(ns, name, Marked(ns.bindings[name].meta))
  }

  ghost predicate Runs(ns: Namespace, steps: seq<Step>)
    decreases |steps|
  {
    steps == [] || (Enabled(ns, steps[0]) && Runs(Stepped(ns, steps[0]), steps[1..]))
  }

  ghost function After(ns: Namespace, steps: seq<Step>): Namespace
    requires Runs(ns, steps)
    decreases |steps|
  {
    if steps == [] then ns else After(Stepped(ns, steps[0]), steps[1..])
  }
}
