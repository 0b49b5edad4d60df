/** What an item says is what its conversion holds. */
module SuppliedTheorems {
  import opened Results
  import opened Names
  import opened Schema
  import opened Json
  import opened Template
  import opened FillTheorems
  import opened ConformTheorems
  import opened ConversionRange
  import opened Idempotence
  import opened IdempotenceTheorems

  /** In every field that is written as a whole, a leaf, a string array, a dynamic
      object or an array of objects, a conversion holds the last value that the item's
      keys write there with effect, or else the default. */
  lemma ConversionHolds(env: Env, t: Table, value: Value, p: seq<string>)
    requires ClosedTree(t) && DynamicListNothing(t) && Descends(t)
    requires Converted(env, t, value).Ok? && Leads(env, t, [], p)
    ensures End([], p) in t
    ensures Held(Converted(env, t, value).value, p) == Completion(env, t, Or(Stored(env, t, [], value, p), Null), End([], p), true)
  {
    ClosedTreeWired(t);
    ConvertedIs(env, t, value);
    var u := Updated(env, t, Null, [], false, value).value;
    UpdateKeepsPartial(env, t, Null, [], false, value);
    PartialFits(env, t, u, []);
    FillCompletes(env, t, u, [], false, true);
    UpdateLeaves(env, t, Null, [], false, value, p);
    HeldNothing(p);
    HeldCompletion(env, t, u, [], p);
  }

  /** The names that raw keys are written to. */
  function NamesOf(env: Env, ks: seq<string>): seq<string> {
    if ks == [] then [] else [env.snake(ks[0])] + NamesOf(env, ks[1..])
  }

  /** No other key of the object is written to the same field. */
  predicate Alone(env: Env, value: Value, k: string) {
    value.Obj? && k in value.fields && forall other :: other in value.fields && env.snake(other) == env.snake(k) ==> other == k
  }

  /** The raw keys lead through static objects of the schema to a field that takes the
      value there as `x`. */
  predicate Supplies(env: Env, t: Table, value: Value, n: Path, ks: seq<string>, x: Value)
    requires n in t
    decreases |ks|
  {
    if ks == [] then !IsStatic(t, n) && !t[n].kind.NoneKind? && Sticks(env, t[n].kind, value) == Some(x)
    else
      && IsStatic(t, n) && Alone(env, value, ks[0])
      && Extend(n, env.snake(ks[0])) in t
      && Supplies(env, t, value.fields[ks[0]], Extend(n, env.snake(ks[0])), ks[1..], x)
  }

  lemma {:induction false} SuppliedLeads(env: Env, t: Table, value: Value, n: Path, ks: seq<string>, x: Value)
    requires SnakeIdempotent(env) && n in t && Supplies(env, t, value, n, ks, x)
    ensures Leads(env, t, n, NamesOf(env, ks)) && End(n, NamesOf(env, ks)) in t
    decreases |ks|
  {
    if ks != [] {
      var c := env.snake(ks[0]);
      SuppliedLeads(env, t, value.fields[ks[0]], Extend(n, c), ks[1..], x);
      assert NamesOf(env, ks)[1..] == NamesOf(env, ks[1..]);
    }
  }

  /** The update stores a supplied value where its keys lead. */
  lemma {:induction false} UpdateStores(env: Env, t: Table, value: Value, n: Path, ks: seq<string>, x: Value)
    requires SnakeIdempotent(env) && n in t && Supplies(env, t, value, n, ks, x)
    ensures Leads(env, t, n, NamesOf(env, ks))
    ensures Stored(env, t, n, value, NamesOf(env, ks)) == Some(x)
    decreases |ks|
  {
    SuppliedLeads(env, t, value, n, ks, x);
    if ks != [] {
      UpdateStores(env, t, value.fields[ks[0]], Extend(n, env.snake(ks[0])), ks[1..], x);
      assert NamesOf(env, ks)[1..] == NamesOf(env, ks[1..]);
      OnlyKeyStores(env, t, value, n, SortedKeys(value.fields.Keys), ks, x);
    }
  }

  lemma {:induction false} OnlyKeyStores(env: Env, t: Table, value: Value, n: Path, keys: seq<string>, ks: seq<string>,
                                         x: Value)
    requires ks != [] && Leads(env, t, n, NamesOf(env, ks)) && Alone(env, value, ks[0])
    requires forall k :: k in keys ==> k in value.fields
    requires forall i, j :: 0 <= i < j < |keys| ==> keys[i] != keys[j]
    requires NamesOf(env, ks)[1..] == NamesOf(env, ks[1..])
    requires Stored(env, t, Extend(n, env.snake(ks[0])), value.fields[ks[0]], NamesOf(env, ks[1..])) == Some(x)
    ensures StoredBy(env, t, n, value, keys, NamesOf(env, ks)) == if ks[0] in keys then Some(x) else None
    decreases |keys|
  {
    if keys != [] {
      assert keys == [keys[0]] + keys[1..];
      OnlyKeyStores(env, t, value, n, keys[1..], ks, x);
    }
  }

  /** The keys of the object that lead to the field. */
  function CursorOf(p: seq<string>): Cursor {
    if p == [] then [] else [Key(p[0])] + CursorOf(p[1..])
  }

  lemma {:induction false} HeldIsReached(v: Value, p: seq<string>)
    requires !Held(v, p).Null?
    ensures Reaches(v, CursorOf(p)) && Get(v, CursorOf(p)) == Held(v, p)
    decreases |p|
  {
    if p != [] {
      assert CursorOf(p)[1..] == CursorOf(p[1..]);
      HeldIsReached(Child(v, p[0]), p[1..]);
      if !v.Obj? || p[0] !in v.fields {
        HeldNothing(p[1..]);
      }
    }
  }

  /** A successful conversion holds everything that the item supplies under names of
      the schema, leaves, string arrays and dynamic objects, unless two of the item's
      keys compete for one field. */
  lemma ConversionKeepsSupplied(env: Env, t: Table, value: Value, ks: seq<string>, x: Value)
    requires ClosedTree(t) && DynamicListNothing(t) && Descends(t) && SnakeIdempotent(env)
    requires Supplies(env, t, value, [], ks, x) && Converted(env, t, value).Ok?
    ensures var w, p := Converted(env, t, value).value, CursorOf(NamesOf(env, ks));
            Reaches(w, p) && Get(w, p) == x
  {
    ClosedTreeWired(t);
    var p := NamesOf(env, ks);
    UpdateStores(env, t, value, [], ks, x);
    StoredFirmly(env, t, [], value, p);
    KindKept(env, t, value, [], ks, x);
    ConversionHolds(env, t, value, p);
    HeldIsReached(Converted(env, t, value).value, p);
  }

  lemma {:induction false} KindKept(env: Env, t: Table, value: Value, n: Path, ks: seq<string>, x: Value)
    requires n in t && Supplies(env, t, value, n, ks, x)
    ensures End(n, NamesOf(env, ks)) in t && !t[End(n, NamesOf(env, ks))].kind.NoneKind?
    decreases |ks|
  {
    if ks != [] {
      KindKept(env, t, value.fields[ks[0]], Extend(n, env.snake(ks[0])), ks[1..], x);
      assert NamesOf(env, ks)[1..] == NamesOf(env, ks[1..]);
    }
  }
}
