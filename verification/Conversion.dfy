/** From the validator to the engine: every model the validator accepts yields a
    template whose conversions conform. */
module Conversion {
  import opened Results
  import opened Names
  import opened Schema
  import opened Order
  import opened Validator
  import opened ValidatorTheorems
  import opened Json
  import opened Template
  import opened FillTheorems
  import opened ConformTheorems

  lemma {:induction false} TableOfPick(t: Table, order: seq<Path>)
    requires Named(t) && forall n :: n in order ==> n in t
    requires forall i, j :: 0 <= i < j < |order| ==> order[i] != order[j]
    ensures forall n :: n in TableOf(Pick(t, order)) <==> n in order
    ensures forall n :: n in order ==> TableOf(Pick(t, order))[n] == t[n]
  {
    if order != [] {
      assert order == [order[0]] + order[1..];
      TableOfPick(t, order[1..]);
    }
  }

  /** The template's base map is the validator's table. */
  lemma TableOfValidated(t: Table)
    requires Named(t)
    ensures TableOf(FieldsInOrder(t)) == t
  {
    var order := SortedNames(t.Keys);
    assert forall n :: n in order <==> n in t by {
      assert forall n :: n in order <==> n in Elements(order);
    }
    NoRepeats(order, NameKey);
    TableOfPick(t, order);
    assert TableOf(Pick(t, order)) == t;
  }

  lemma {:induction false} AddedModelNormalized(m: Table, parent: Path, model: seq<Field>)
    requires Normalized(m) && AddedModel(m, parent, model).Some?
    ensures Normalized(AddedModel(m, parent, model).value)
    decreases |model|
  {
    if model != [] {
      var moved := Prefixed(parent, model[0]);
      NormalizeIdempotent(moved.kind);
      NormalizeKeepsChildren(moved.kind);
      AddedModelNormalized(m[parent + model[0].name := NormalizeField(moved)], parent, model[1..]);
    }
  }

  lemma {:induction false} AddedItemsNormalized(m: Table, items: seq<Item>)
    requires Normalized(m) && AddedItems(m, items).Some?
    ensures Normalized(AddedItems(m, items).value)
    decreases |items|
  {
    if items != [] {
      match items[0] {
        case Native(field) =>
          AddedFieldsNormalized(m, [field]);
          AddedItemsNormalized(AddedFields(m, [field]).value, items[1..]);
        case Reference(at, model) =>
          AddedModelNormalized(m, at, model);
          AddedItemsNormalized(AddedModel(m, at, model).value, items[1..]);
      }
    }
  }

  /** An accepted, non-empty table in which no field lists itself is completed to a
      closed tree, so the template engine terminates on it, and whatever it converts
      conforms. */
  lemma AcceptedModelsConvert(env: Env, m: Table, value: Value)
    requires Named(m) && Normalized(m) && Accepts(m) && m != map[] && !ListsItself(m)
    requires DynamicListNothing(Completed(m)) && ClockOk(env)
    ensures var t := Completed(m);
            && ClosedTree(t) && Descends(t)
            && (Converted(env, t, value).Ok? ==> Conforms(env, t, Converted(env, t, value).value, [], false))
  {
    AcceptedIsClosedTree(m);
    ConversionConforms(env, Completed(m), value);
  }

  /** The same for whatever the validator returns. */
  lemma ValidatedModelsConvert(env: Env, items: seq<Item>, value: Value)
    requires ClockOk(env)
    ensures var fields := ValidatedItems(items);
            fields.Some? && fields.value != []
            && !ListsItself(TableOf(fields.value)) && DynamicListNothing(TableOf(fields.value)) ==>
              var t := TableOf(fields.value);
              && ClosedTree(t) && Descends(t)
              && (Converted(env, t, value).Ok? ==> Conforms(env, t, Converted(env, t, value).value, [], false))
  {
    if ValidatedItems(items).Some? {
      var m := AddedItems(map[], items).value;
      AddedItemsNamed(map[], items);
      AddedItemsNormalized(map[], items);
      TableOfValidated(Completed(m));
      ClosureIsClosed(m.Keys);
      NonEmpty(m);
      assert forall n :: n in m ==> Completed(m)[n] == m[n];
      if m != map[] && !ListsItself(m) && DynamicListNothing(Completed(m)) {
        AcceptedModelsConvert(env, m, value);
      }
    }
  }

  lemma NonEmpty(m: Table)
    requires Named(m)
    ensures m == map[] ==> FieldsInOrder(Completed(m)) == []
  {
  }
}
