/** What conversions yield: exactly the conforming values in which every entry that no
    key of an item can reach holds its default. */
module ConversionRange {
  import opened Results
  import opened Names
  import opened Schema
  import opened Json
  import opened Template
  import opened FillTheorems
  import opened ConformTheorems

  /** A name that is its own snake case. Only such names are written by an update. */
  predicate Reachable(env: Env, c: string) {
    env.snake(c) == c
  }

  /** Converting a name twice is converting it once. */
  ghost predicate SnakeIdempotent(env: Env) {
    forall s :: env.snake(env.snake(s)) == env.snake(s)
  }

  /** An object whose entries are updated one by one. */
  predicate IsStatic(t: Table, n: Path) {
    n in t && t[n].kind.Object? && !t[n].kind.objectKind.Dynamic?
  }

  /** What filling makes of an entry that was never written. */
  ghost function Untouched(env: Env, t: Table, n: Path): Value
    requires n in t
  {
    Completion(env, t, Null, n, true)
  }

  /** Every entry that cannot be reached holds its default. */
  ghost predicate Idle(env: Env, t: Table, w: Value, n: Path)
    decreases w
  {
    IsStatic(t, n) && w.Obj? ==>
      forall c :: c in w.fields && Extend(n, c) in t ==>
                    if Reachable(env, c) then Idle(env, t, w.fields[c], Extend(n, c))
                    else w.fields[c] == Untouched(env, t, Extend(n, c))
  }

  /** A text that only a default can hold. */
  predicate TooLongAt(kind: Kind, w: Value) {
    kind.String? && w.Str? && |w.text| >= TEXT_LIMIT
  }

  /** A result of a conversion. The root is always written, unless it is optional. */
  ghost predicate IsResult(env: Env, t: Table, w: Value)
    requires [] in t
  {
    Conforms(env, t, w, [], false) && Idle(env, t, w, []) && (TooLongAt(t[[]].kind, w) ==> t[[]].optional)
  }

  // ------------------------------------------------ results are idle where unreached

  /** Only reachable names were written. */
  ghost predicate Reached(env: Env, t: Table, v: Value, n: Path)
    decreases v
  {
    IsStatic(t, n) && v.Obj? ==>
      forall c :: c in v.fields ==> Reachable(env, c) && Reached(env, t, v.fields[c], Extend(n, c))
  }

  lemma {:induction false} UpdateKeepsReached(env: Env, t: Table, v: Value, n: Path, optional: bool, value: Value)
    requires SnakeIdempotent(env) && n in t && Partial(env, t, v, n) && Reached(env, t, v, n)
    requires Updated(env, t, v, n, optional, value).Ok?
    ensures Reached(env, t, Updated(env, t, v, n, optional, value).value, n)
    decreases value, 1, 0
  {
    if IsStatic(t, n) && value.Obj? {
      UpdateFieldsKeepReached(env, t, v, n, optional || t[n].optional, value, SortedKeys(value.fields.Keys));
    }
  }

  lemma {:induction false} UpdateFieldsKeepReached(env: Env, t: Table, v: Value, n: Path, optional: bool, value: Value,
                                                   keys: seq<string>)
    requires SnakeIdempotent(env) && IsStatic(t, n) && Partial(env, t, v, n) && Reached(env, t, v, n)
    requires value.Obj? && forall k :: k in keys ==> k in value.fields
    requires UpdatedFields(env, t, v, n, optional, value, keys).Ok?
    ensures Reached(env, t, UpdatedFields(env, t, v, n, optional, value, keys).value, n)
    decreases value, 0, |keys|
  {
    if keys != [] {
      var c := env.snake(keys[0]);
      if Extend(n, c) !in t {
        UpdateFieldsKeepReached(env, t, v, n, optional, value, keys[1..]);
      } else {
        var x := OneField(env, t, v, n, optional, value, keys);
        UpdateKeepsReached(env, t, Child(v, c), Extend(n, c), optional, value.fields[keys[0]]);
        ReachedSet(env, t, v, n, c, x);
        UpdateFieldsKeepReached(env, t, Obj(Entries(v)[c := x]), n, optional, value, keys[1..]);
      }
    }
  }

  lemma ReachedSet(env: Env, t: Table, v: Value, n: Path, c: string, x: Value)
    requires IsStatic(t, n) && (v.Null? || v.Obj?) && Reached(env, t, v, n)
    requires Reachable(env, c) && Reached(env, t, x, Extend(n, c))
    ensures Reached(env, t, Obj(Entries(v)[c := x]), n)
  {
  }

  /** The loop over the entries of an object after its first round. */
  lemma OneField(env: Env, t: Table, v: Value, n: Path, optional: bool, x: Value, keys: seq<string>) returns (y: Value)
    requires IsStatic(t, n) && Partial(env, t, v, n) && x.Obj? && keys != [] && forall k :: k in keys ==> k in x.fields
    requires Extend(n, env.snake(keys[0])) in t && UpdatedFields(env, t, v, n, optional, x, keys).Ok?
    ensures var c := env.snake(keys[0]);
            var next := Obj(Entries(v)[c := y]);
            && Partial(env, t, Child(v, c), Extend(n, c))
            && Updated(env, t, Child(v, c), Extend(n, c), optional, x.fields[keys[0]]) == Ok(y)
            && Partial(env, t, next, n)
            && UpdatedFields(env, t, v, n, optional, x, keys) == UpdatedFields(env, t, next, n, optional, x, keys[1..])
  {
    var c := env.snake(keys[0]);
    PartialChild(env, t, v, n, c);
    var first := Updated(env, t, Child(v, c), Extend(n, c), optional, x.fields[keys[0]]);
    y := if first.Ok? then first.value else Null;
    UpdatedFirst(env, t, v, n, optional, x, keys, y);
    if first.Ok? {
      UpdateKeepsPartial(env, t, Child(v, c), Extend(n, c), optional, x.fields[keys[0]]);
      PartialSet(env, t, v, n, c, y);
    }
  }

  lemma {:induction false} CompletionIsIdle(env: Env, t: Table, v: Value, n: Path)
    requires n in t && Partial(env, t, v, n) && Reached(env, t, v, n)
    ensures Idle(env, t, Completion(env, t, v, n, true), n)
    decreases Remaining(t, n)
  {
    var w := Completion(env, t, v, n, true);
    if IsStatic(t, n) {
      forall c | c in w.fields && Extend(n, c) in t
        ensures if Reachable(env, c) then Idle(env, t, w.fields[c], Extend(n, c))
                else w.fields[c] == Untouched(env, t, Extend(n, c))
      {
        CompletedChildIs(env, t, v, n, true, c);
        if Reachable(env, c) {
          CompletionIsIdle(env, t, Child(v, c), Extend(n, c));
        }
      }
    }
  }

  // -------------------------------------------- every such value is a result

  /** Updating with some value gave `u`, which fills to `w`. */
  ghost predicate Echo(env: Env, t: Table, u: Value, w: Value, n: Path, optional: bool) {
    && n in t
    && Fits(t, u, n, true)
    && Fillable(t, u, n, optional, true)
    && Completion(env, t, u, n, true) == w
  }

  /** What of a conforming value an item has to supply: the reachable entries, without
      the texts that only a default can hold. */
  ghost function Item(env: Env, t: Table, w: Value, n: Path): (item: Value)
    requires n in t
    ensures IsStatic(t, n) && w.Obj? ==> item.Obj? && item.fields.Keys <= w.fields.Keys
    decreases w
  {
    if IsStatic(t, n) && w.Obj? then
      Obj(map c | c in w.fields && Needed(env, t, w, n, c) :: Item(env, t, w.fields[c], Extend(n, c)))
    else w
  }

  predicate Needed(env: Env, t: Table, w: Value, n: Path, c: string)
    requires w.Obj? && c in w.fields
  {
    Extend(n, c) in t && Reachable(env, c) && !TooLongAt(t[Extend(n, c)].kind, w.fields[c])
  }

  lemma LeafEchoes(env: Env, t: Table, w: Value, n: Path, optional: bool)
    requires n in t && !TooLongAt(t[n].kind, w) && Conforms(env, t, w, n, optional)
    requires t[n].kind.Children().None? && !t[n].kind.NoneKind?
    ensures var r := UpdatedLeaf(env, t[n].kind, Null, optional || t[n].optional, w);
            r.Ok? && Echo(env, t, r.value, w, n, optional)
  {
    if t[n].kind.StringArray? && w.Arr? {
      AllStrings(w.items);
    }
  }

  lemma {:induction false} AllStrings(items: seq<Value>)
    requires forall x :: x in items ==> x.Str?
    ensures OnlyStrings(items) == items
  {
    if items != [] {
      assert items == [items[0]] + items[1..];
      AllStrings(items[1..]);
    }
  }

  /** Where the default conforms, nothing needs to be supplied. */
  lemma {:induction false} DefaultsSuffice(env: Env, t: Table, n: Path, optional: bool)
    requires Wired(t) && DynamicListNothing(t) && n in t && Conforms(env, t, Untouched(env, t, n), n, optional)
    ensures Fillable(t, Null, n, optional, true)
    decreases Remaining(t, n)
  {
    if t[n].kind.Object? {
      forall c | Extend(n, c) in t ensures Fillable(t, Null, Extend(n, c), optional || t[n].optional, true) {
        if t[n].kind.objectKind.Dynamic? {
          NothingBelow(t, n, c);
        }
        CompletedChildIs(env, t, Null, n, true, c);
        DefaultsSuffice(env, t, Extend(n, c), optional || t[n].optional);
      }
    }
  }

  /** An entry that is not supplied is filled with what it has to be. */
  lemma UnneededEchoes(env: Env, t: Table, w: Value, n: Path, c: string, optional: bool)
    requires Wired(t) && DynamicListNothing(t) && IsStatic(t, n) && w.Obj? && c in w.fields && Extend(n, c) in t
    requires Idle(env, t, w, n) && Conforms(env, t, w.fields[c], Extend(n, c), optional) && !Needed(env, t, w, n, c)
    ensures Echo(env, t, Null, w.fields[c], Extend(n, c), optional)
  {
    NullFits(t, Extend(n, c));
    assert w.fields[c] == Untouched(env, t, Extend(n, c));
    DefaultsSuffice(env, t, Extend(n, c), optional);
  }

  /** The entries in `done` have been updated, and nothing else. */
  ghost predicate EchoBelow(env: Env, t: Table, v: Value, w: Value, n: Path, optional: bool, done: set<string>)
    requires w.Obj? && done <= w.fields.Keys
  {
    && (v.Null? ==> done == {})
    && (!v.Null? ==> v.Obj? && v.fields.Keys == done)
    && forall c :: c in done ==> Echo(env, t, Child(v, c), w.fields[c], Extend(n, c), optional)
  }

  /** Updating an absent value with what an item has to supply of a conforming value
      succeeds, and filling then gives the conforming value back. */
  lemma {:induction false} ItemEchoes(env: Env, t: Table, w: Value, n: Path, optional: bool)
    requires Wired(t) && DynamicListNothing(t)
    requires n in t && Conforms(env, t, w, n, optional) && Idle(env, t, w, n) && !TooLongAt(t[n].kind, w)
    ensures var r := Updated(env, t, Null, n, optional, Item(env, t, w, n));
            r.Ok? && Echo(env, t, r.value, w, n, optional)
    decreases w, 1, 0
  {
    var kind := t[n].kind;
    var inherited := optional || t[n].optional;
    if kind.Object? {
      if kind.objectKind.Dynamic? {
        DynamicEchoes(env, t, w, n, optional);
      } else {
        var item := Item(env, t, w, n);
        var keys := SortedKeys(item.fields.Keys);
        FieldsEcho(env, t, Null, w, n, inherited, keys, {});
        AllEchoed(env, t, UpdatedFields(env, t, Null, n, inherited, item, keys).value, w, n, optional);
      }
    } else if !kind.NoneKind? && !kind.ObjectArray? {
      LeafEchoes(env, t, w, n, optional);
    }
  }

  lemma DynamicEchoes(env: Env, t: Table, w: Value, n: Path, optional: bool)
    requires n in t && Wired(t) && w.Obj? && t[n].kind.Children() == Some([]) && t[n].kind.Object?
    ensures Echo(env, t, w, w, n, optional)
  {
    forall c ensures Extend(n, c) !in t {
      NothingBelow(t, n, c);
    }
    SameObject(env, t, w, n, true);
  }

  lemma AllEchoed(env: Env, t: Table, v: Value, w: Value, n: Path, optional: bool)
    requires Wired(t) && DynamicListNothing(t) && IsStatic(t, n) && w.Obj?
    requires Conforms(env, t, w, n, optional) && Idle(env, t, w, n)
    requires EchoBelow(env, t, v, w, n, optional || t[n].optional, Item(env, t, w, n).fields.Keys)
    ensures Echo(env, t, v, w, n, optional)
  {
    var inherited := optional || t[n].optional;
    forall c | c in w.fields ensures Echo(env, t, Child(v, c), w.fields[c], Extend(n, c), inherited) {
      if c !in Item(env, t, w, n).fields {
        assert Child(v, c) == Null && !Needed(env, t, w, n, c);
        UnneededEchoes(env, t, w, n, c, inherited);
      }
    }
    ChildrenEcho(env, t, v, w, n, optional);
  }

  lemma ChildrenEcho(env: Env, t: Table, v: Value, w: Value, n: Path, optional: bool)
    requires IsStatic(t, n) && w.Obj? && (v.Null? || (v.Obj? && v.fields.Keys <= w.fields.Keys))
    requires forall c :: c in w.fields <==> Extend(n, c) in t
    requires forall c :: c in w.fields ==> Echo(env, t, Child(v, c), w.fields[c], Extend(n, c), optional || t[n].optional)
    ensures Echo(env, t, v, w, n, optional)
  {
    var whole := Completion(env, t, v, n, true);
    forall c ensures c in whole.fields <==> c in w.fields
             ensures c in w.fields ==> whole.fields[c] == w.fields[c] {
      CompletedChildIs(env, t, v, n, true, c);
    }
    assert whole.fields == w.fields;
  }

  /** The loop over the entries of the item has come to `v`; `keys` are left to do. */
  ghost predicate EchoLoop(env: Env, t: Table, v: Value, w: Value, n: Path, optional: bool, keys: seq<string>, done: set<string>) {
    && IsStatic(t, n) && w.Obj? && Idle(env, t, w, n)
    && (forall c :: c in w.fields ==> Extend(n, c) in t && Conforms(env, t, w.fields[c], Extend(n, c), optional))
    && (forall k :: k in keys ==> k in Item(env, t, w, n).fields && k !in done)
    && (forall i, j :: 0 <= i < j < |keys| ==> keys[i] != keys[j])
    && (forall k :: k in Item(env, t, w, n).fields ==> k in done || k in keys)
    && done <= Item(env, t, w, n).fields.Keys
    && EchoBelow(env, t, v, w, n, optional, done)
  }

  lemma {:induction false} FieldsEcho(env: Env, t: Table, v: Value, w: Value, n: Path, optional: bool,
                                      keys: seq<string>, done: set<string>)
    requires Wired(t) && DynamicListNothing(t)
    requires EchoLoop(env, t, v, w, n, optional, keys, done)
    ensures var r := UpdatedFields(env, t, v, n, optional, Item(env, t, w, n), keys);
            r.Ok? && EchoBelow(env, t, r.value, w, n, optional, Item(env, t, w, n).fields.Keys)
    decreases w, 0, |keys|
  {
    var item := Item(env, t, w, n);
    if keys == [] {
      assert done == item.fields.Keys;
    } else {
      var c := keys[0];
      FirstEntry(env, t, v, w, n, optional, keys, done);
      ItemEchoes(env, t, w.fields[c], Extend(n, c), optional);
      var u := Updated(env, t, Null, Extend(n, c), optional, item.fields[c]).value;
      UpdatedFirst(env, t, v, n, optional, item, keys, u);
      EchoStep(env, t, v, w, n, optional, keys, done, u);
      FieldsEcho(env, t, Obj(Entries(v)[c := u]), w, n, optional, keys[1..], done + {c});
    }
  }

  /** What the loop knows of the next entry. */
  lemma FirstEntry(env: Env, t: Table, v: Value, w: Value, n: Path, optional: bool, keys: seq<string>,
                   done: set<string>)
    requires EchoLoop(env, t, v, w, n, optional, keys, done) && keys != []
    ensures var c := keys[0];
            && (v.Null? || v.Obj?) && Child(v, c) == Null
            && env.snake(c) == c && c in w.fields && c in Item(env, t, w, n).fields && Extend(n, c) in t
            && Item(env, t, w, n).fields[c] == Item(env, t, w.fields[c], Extend(n, c))
            && Conforms(env, t, w.fields[c], Extend(n, c), optional) && Idle(env, t, w.fields[c], Extend(n, c))
            && !TooLongAt(t[Extend(n, c)].kind, w.fields[c])
    ensures forall k :: k in keys ==> k in Item(env, t, w, n).fields
  {
    assert keys[0] in keys;
    assert Needed(env, t, w, n, keys[0]);
  }

  lemma EchoStep(env: Env, t: Table, v: Value, w: Value, n: Path, optional: bool, keys: seq<string>,
                 done: set<string>, u: Value)
    requires EchoLoop(env, t, v, w, n, optional, keys, done) && keys != []
    requires Echo(env, t, u, w.fields[keys[0]], Extend(n, keys[0]), optional)
    ensures EchoLoop(env, t, Obj(Entries(v)[keys[0] := u]), w, n, optional, keys[1..], done + {keys[0]})
  {
    var c := keys[0];
    assert keys == [c] + keys[1..];
    EchoMore(env, t, v, w, n, optional, done, c, u);
  }

  lemma EchoMore(env: Env, t: Table, v: Value, w: Value, n: Path, optional: bool, done: set<string>, c: string,
                 u: Value)
    requires w.Obj? && done <= w.fields.Keys && c in w.fields && c !in done
    requires EchoBelow(env, t, v, w, n, optional, done)
    requires Echo(env, t, u, w.fields[c], Extend(n, c), optional)
    ensures EchoBelow(env, t, Obj(Entries(v)[c := u]), w, n, optional, done + {c})
  {
    var v' := Obj(Entries(v)[c := u]);
    forall d | d in done + {c} ensures Echo(env, t, Child(v', d), w.fields[d], Extend(n, d), optional) {
      if d != c {
        assert Child(v', d) == Child(v, d);
      }
    }
  }

  // --------------------------------------------------------------- the theorem

  /** An item that yields the value. */
  ghost function ItemFor(env: Env, t: Table, w: Value): Value
    requires [] in t
  {
    if TooLongAt(t[[]].kind, w) then Null else Item(env, t, w, [])
  }

  /** The values that converting some item yields are exactly the conforming ones in
      which every unreachable entry holds its default. */
  lemma ResultsExactly(env: Env, t: Table, w: Value)
    requires ClosedTree(t) && DynamicListNothing(t) && ClockOk(env) && SnakeIdempotent(env)
    ensures Descends(t)
    ensures IsResult(env, t, w) <==> exists value :: Converted(env, t, value) == Ok(w)
  {
    ClosedTreeWired(t);
    if IsResult(env, t, w) {
      ItemConverts(env, t, w);
    }
    forall value | Converted(env, t, value) == Ok(w) ensures IsResult(env, t, w) {
      ConvertedIsResult(env, t, value);
    }
  }

  lemma ItemConverts(env: Env, t: Table, w: Value)
    requires ClosedTree(t) && DynamicListNothing(t) && Wired(t) && IsResult(env, t, w)
    ensures Converted(env, t, ItemFor(env, t, w)) == Ok(w)
  {
    ConvertedIs(env, t, ItemFor(env, t, w));
    if TooLongAt(t[[]].kind, w) {
      FillCompletes(env, t, Null, [], false, true);
    } else {
      ItemEchoes(env, t, w, [], false);
      FillCompletes(env, t, Updated(env, t, Null, [], false, Item(env, t, w, [])).value, [], false, true);
    }
  }

  lemma ConvertedIsResult(env: Env, t: Table, value: Value)
    requires ClosedTree(t) && DynamicListNothing(t) && Wired(t) && ClockOk(env) && SnakeIdempotent(env)
    requires Converted(env, t, value).Ok?
    ensures IsResult(env, t, Converted(env, t, value).value)
  {
    ConvertedIs(env, t, value);
    ConversionConforms(env, t, value);
    var u := Updated(env, t, Null, [], false, value).value;
    UpdateKeepsPartial(env, t, Null, [], false, value);
    UpdateKeepsReached(env, t, Null, [], false, value);
    PartialFits(env, t, u, []);
    FillCompletes(env, t, u, [], false, true);
    CompletionIsIdle(env, t, u, []);
  }
}
