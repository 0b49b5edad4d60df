/** The three reconcilers at work on one namespace, each proved to take the step
    that `Bindings` says it takes. */
module BindingControllers {
  import opened Results
  import opened Bindings
  import BindingEdges

  class Controllers {
    var models: map<string, Model>
    var storages: map<string, Storage>
    var bindings: map<string, Binding>
    var nextUid: Uid

    function View(): Namespace
      reads this
    {
      Namespace(models, storages, bindings, nextUid)
    }

    constructor (uid: Uid)
      ensures View() == Namespace(map[], map[], map[], uid)
    {
      models, storages, bindings, nextUid := map[], map[], map[], uid;
    }

    // ----------------------------------------------------------------- models

    method UpdateFields(name: string, phase: Phase, fields: bool, r: Replies)
      requires name in models
      modifies this`models
      ensures View() == WithModelStatus(old(View()), name, ModelStatus(phase, fields), r)
    {
      if r.status {
        models := models[name := models[name].(status := Some(ModelStatus(phase, fields)))];
      }
    }

    /** `ModelValidator::delete`. */
    method DeleteModel(name: string, r: Replies) returns (ok: bool)
      requires name in models
      ensures ok <==> BindingsOfModel(View(), name) == {} && r.external
    {
      var bound := set b | b in bindings && IsReady(bindings[b]) && bindings[b].spec.model == name;
      ok := bound == {} && r.external;
    }

    method RemoveModelFinalizer(name: string, r: Replies)
      requires name in models
      modifies this`models
      ensures View() == WithModel(old(View()), name, Released(old(models)[name].meta, r))
    {
      if r.metadata {
        if models[name].meta.deleting {
          models := models - {name};
        } else {
          models := models[name := models[name].(meta := models[name].meta.(finalizer := false))];
        }
      } else {
        assert models[name := models[name].(meta := models[name].meta)] == models;
      }
    }

    method ReconcileModel(name: string, r: Replies)
      requires name in models
      modifies this`models
      ensures View() == ReconciledModel(old(View()), name, r)
      ensures BindingEdges.OnlyModel(old(View()), View(), name, BindingEdges.NextModel(old(View()), name, r))
    {
      BindingEdges.ModelExactly(View(), name, r);
      var data := models[name];
      if data.meta.deleting && (data.status.None? || data.status.value.phase != Deleting) {
        UpdateFields(name, Deleting, data.status.Some? && data.status.value.fields, r);
        return;
      } else if !data.meta.finalizer {
        models := models[name := data.(meta := Finalized(data.meta, r))];
        return;
      }
      match PhaseOf(ModelPhase(data)) {
        case Pending =>
          if r.external {
            UpdateFields(name, Ready, true, r);
          }
        case Ready =>
        case Deleting =>
          var ok := DeleteModel(name, r);
          if ok {
            RemoveModelFinalizer(name, r);
          }
      }
    }

    // --------------------------------------------------------------- storages

    method UpdateStorageState(name: string, phase: Phase, kind: Option<StorageSpec>, r: Replies)
      requires name in storages
      modifies this`storages
      ensures View() == WithStorageStatus(old(View()), name, StorageStatus(phase, kind), r)
    {
      if r.status {
        storages := storages[name := storages[name].(status := Some(StorageStatus(phase, kind)))];
      }
    }

    /** `validate_model_storage`: a unique kind must not be published yet. */
    method ValidateStorage(spec: StorageSpec, r: Replies) returns (ok: bool)
      ensures ok <==> (spec.IsUnique() ==> Conflicting(View(), spec.ToKind()) == {}) && r.external
    {
      if spec.IsUnique() {
        var conflicted := set s | s in storages && Publishes(storages[s], spec.ToKind());
        if conflicted != {} {
          assert conflicted == Conflicting(View(), spec.ToKind());
          return false;
        }
      }
      ok := r.external;
    }

    method RemoveStorageFinalizer(name: string, r: Replies)
      requires name in storages
      modifies this`storages
      ensures View() == WithStorage(old(View()), name, Released(old(storages)[name].meta, r))
    {
      if r.metadata {
        if storages[name].meta.deleting {
          storages := storages - {name};
        } else {
          storages := storages[name := storages[name].(meta := storages[name].meta.(finalizer := false))];
        }
      } else {
        assert storages[name := storages[name].(meta := storages[name].meta)] == storages;
      }
    }

    method ReconcileStorage(name: string, r: Replies)
      requires name in storages
      modifies this`storages
      ensures View() == ReconciledStorage(old(View()), name, r)
      ensures BindingEdges.OnlyStorage(old(View()), View(), name, BindingEdges.NextStorage(old(View()), name, r))
    {
      BindingEdges.StorageExactly(View(), name, r);
      var data := storages[name];
      if data.meta.deleting && (data.status.None? || data.status.value.phase != Deleting) {
        UpdateStorageState(name, Deleting, if data.status.Some? then data.status.value.kind else None, r);
        return;
      } else if !data.meta.finalizer {
        storages := storages[name := data.(meta := Finalized(data.meta, r))];
        return;
      }
      match PhaseOf(StoragePhase(data)) {
        case Pending =>
          var ok := ValidateStorage(data.spec, r);
          if ok {
            UpdateStorageState(name, Ready, Some(data.spec), r);
          }
        case Ready =>
        case Deleting =>
          if BindingsOfStorage(View(), name) == {} {
            RemoveStorageFinalizer(name, r);
          }
      }
    }

    // --------------------------------------------------------------- bindings

    method UpdateBindingState(name: string, status: BindingStatus, r: Replies)
      requires name in bindings
      modifies this`bindings
      ensures View() == WithBindingStatus(old(View()), name, status, r)
    {
      if r.status {
        var edited := if status.phase == Ready then false else bindings[name].edited;
        bindings := bindings[name := bindings[name].(status := Some(status), edited := edited)];
      }
    }

    /** `update`: unbind what was bound, then bind again. */
    method Update(data: Binding, context: (ModelSpec, Bound), r: Replies) returns (status: Option<BindingStatus>)
      requires data.status.Some?
      ensures status == Updated(data, context, r)
    {
      var last := data.status.value;
      if last.model != Some(context.0) {
        return None;
      }
      if last.bound == Some(context.1) {
        return None;
      }
      if last.bound.None? {
        return None;
      }
      var unbound := Unbindable(context.0, last.bound.value, data.spec.policy) && r.unbind;
      if !unbound {
        return None;
      }
      var bound := Bindable(context.0, context.1) && r.external;
      if !bound {
        return None;
      }
      return Some(BindingStatus(Ready, Some(context.0), Some(data.spec.model), Some(context.1)));
    }

    method RemoveBindingFinalizer(name: string, r: Replies)
      requires name in bindings
      modifies this`bindings
      ensures View() == WithBinding(old(View()), name, Released(old(bindings)[name].meta, r))
    {
      if r.metadata {
        if bindings[name].meta.deleting {
          bindings := bindings - {name};
        } else {
          bindings := bindings[name := bindings[name].(meta := bindings[name].meta.(finalizer := false))];
        }
      } else {
        assert bindings[name := bindings[name].(meta := bindings[name].meta)] == bindings;
      }
    }

    method ReconcileBinding(name: string, r: Replies)
      requires name in bindings
      modifies this`bindings
      ensures View() == ReconciledBinding(old(View()), name, r)
      ensures BindingEdges.OnlyBinding(old(View()), View(), name, BindingEdges.NextBinding(old(View()), name, r))
    {
      BindingEdges.BindingExactly(View(), name, r);
      var data := bindings[name];
      if data.meta.deleting && (data.status.None? || data.status.value.phase != Deleting) {
        var status := if data.status.Some? then data.status.value.(phase := Deleting)
                      else BindingStatus(Deleting, None, None, None);
        UpdateBindingState(name, status, r);
        return;
      } else if !data.meta.finalizer {
        bindings := bindings[name := data.(meta := Finalized(data.meta, r))];
        return;
      }
      var context := LoadContext(View(), data.spec);
      match PhaseOf(BindingPhase(data)) {
        case Pending =>
          if context.Some? {
            var status := Validated(data, context.value.0, context.value.1, r);
            if status.Some? {
              UpdateBindingState(name, status.value, r);
            }
          }
        case Ready =>
          if context.Some? && data.status.Some? {
            var status := Update(data, context.value, r);
            if status.Some? {
              UpdateBindingState(name, status.value, r);
            }
          }
        case Deleting =>
          var deleted := true;
          if context.Some? {
            deleted := Unbindable(context.value.0, context.value.1, data.spec.policy) && r.unbind;
          }
          if deleted {
            RemoveBindingFinalizer(name, r);
          }
      }
    }
  }
}
