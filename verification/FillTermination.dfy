/** When filling defaults comes to an end: exactly when the root is not an object
    that lists itself. */
module FillTermination {
  import opened Results
  import opened Names
  import opened Schema
  import opened Order
  import opened Validator
  import VT = ValidatorTheorems
  import opened Json
  import opened Template
  import opened FillTheorems

  /** Enough depth for a name: two calls for each level of the schema below it. */
  ghost predicate Enough(depth: nat, t: Table, n: Path, isAtom: bool) {
    depth >= 2 * Remaining(t, n) + if isAtom then 1 else 0
  }

  lemma {:induction false} WithinAgrees(depth: nat, env: Env, t: Table, v: Value, n: Path, optional: bool, isAtom: bool)
    requires Descends(t) && n in t && Enough(depth, t, n, isAtom)
    ensures FilledWithin(depth, env, t, v, n, optional, isAtom) == Some(Filled(env, t, v, n, optional, isAtom))
    decreases depth, 1, 0
  {
    var field := t[n];
    var inherited := optional || field.optional;
    if field.kind.ObjectArray? && isAtom {
      if v.Arr? {
        ItemsAgree(depth, env, t, v, n, inherited, 0);
      }
    } else if field.kind.Children().Some? {
      FieldsAgree(depth, env, t, if v.Null? then Obj(map[]) else v, n, inherited, field.kind.Children().value);
    }
  }

  lemma {:induction false} FieldsAgree(depth: nat, env: Env, t: Table, v: Value, n: Path, optional: bool,
                                       children: seq<Path>)
    requires Descends(t) && n in t && [] !in children && Enough(depth, t, n, false)
    ensures FieldsWithin(depth, env, t, v, n, optional, children) == Some(FilledFields(env, t, v, n, optional, children))
    decreases depth, 0, |children|
  {
    if children != [] {
      var e := ChildKey(children[0]);
      var inside := Enter(t, v, n, e);
      if inside.Inside? {
        WithinAgrees(depth - 1, env, t, At(inside.node, e), inside.base, optional, true);
        var r := Filled(env, t, At(inside.node, e), inside.base, optional, true);
        WithinFirst(depth, env, t, v, n, optional, children, r);
        FilledFirst(env, t, v, n, optional, children, r);
        if r.Ok? {
          FieldsAgree(depth, env, t, Set(inside.node, e, r.value), n, optional, children[1..]);
        }
      }
    }
  }

  lemma WithinFirst(depth: nat, env: Env, t: Table, v: Value, n: Path, optional: bool, children: seq<Path>,
                    first: Outcome)
    requires n in t && depth > 0 && children != [] && [] !in children
    requires var inside := Enter(t, v, n, ChildKey(children[0]));
             && inside.Inside?
             && FilledWithin(depth - 1, env, t, At(inside.node, ChildKey(children[0])), inside.base, optional, true) == Some(first)
    ensures first.Err? ==> FieldsWithin(depth, env, t, v, n, optional, children) == Some(Err(first.error))
    ensures first.Ok? ==>
              var next := Set(Enter(t, v, n, ChildKey(children[0])).node, ChildKey(children[0]), first.value);
              FieldsWithin(depth, env, t, v, n, optional, children) == FieldsWithin(depth, env, t, next, n, optional, children[1..])
  {
  }

  lemma {:induction false} ItemsAgree(depth: nat, env: Env, t: Table, v: Value, n: Path, optional: bool, i: nat)
    requires Descends(t) && n in t && v.Arr? && i <= |v.items| && Enough(depth, t, n, true)
    ensures ItemsWithin(depth, env, t, v, n, optional, i) == Some(FilledItems(env, t, v, n, optional, i))
    decreases depth, 0, |v.items| - i
  {
    if i < |v.items| {
      WithinAgrees(depth - 1, env, t, v.items[i], n, optional, false);
      var r := Filled(env, t, v.items[i], n, optional, false);
      if r.Ok? {
        ItemsAgree(depth, env, t, Arr(v.items[i := r.value]), n, optional, i + 1);
      }
    }
  }

  predicate ListsItself(t: Table, n: Path) {
    n in t && t[n].kind.Children().Some? && n in t[n].kind.Children().value
  }

  /** A field of an accepted table that lists itself has no other child, and there is
      nothing below it. */
  lemma SelfListingIsAlone(m: Table, n: Path)
    requires Named(m) && VT.Normalized(m) && Accepts(m) && ListsItself(m, n)
    ensures m[n].kind.Children() == Some([n])
    ensures forall k :: k in m ==> !(n < k)
    ensures forall k :: k in Completed(m) ==> !(n < k)
  {
    var children := m[n].kind.Children().value;
    assert ListsGivenFields(m, n);
    assert n in Elements(children) && n !in DirectChildren(Closure(m.Keys), n);
    forall k | k in m ensures !(n < k) {
      assert n < k ==> ListsChildren(m, Closure(m.Keys), n);
    }
    forall c | c in children ensures c == n {
      assert n <= c && c in m;
      assert |c| == |n| ==> c == n;
    }
    assert Elements(children) == {n} && Elements([n]) == {n};
    assert ArePaths(Elements(children));
    assert children == SortedNames(Elements(children));
    SortedUnique(children, [n], NameKey);
    forall k | k in Completed(m) ensures !(n < k) {
      InClosure(m.Keys, k);
    }
  }

  /** Filling it never ends, however deep one goes. */
  lemma {:induction false} SelfListingNeverEnds(depth: nat, env: Env, t: Table, v: Value, optional: bool)
    requires [] in t && t[[]].kind.Object? && t[[]].kind.Children() == Some([[]]) && (v.Null? || v.Obj?)
    ensures FilledWithin(depth, env, t, v, [], optional, true) == None
    decreases depth
  {
    if depth > 0 {
      SelfListingNeverEnds(depth - 1, env, t, if v.Null? then Obj(map[]) else v, optional || t[[]].optional);
    }
  }

  /** No field of an accepted table lists the root, except perhaps the root. */
  lemma OnlyRootListsRoot(m: Table)
    requires Named(m) && Accepts(m) && !ListsItself(m, [])
    ensures Descends(Completed(m))
  {
    var t := Completed(m);
    forall n | n in t && t[n].kind.Children().Some? ensures [] !in t[n].kind.Children().value {
      if n in m {
        assert ListsGivenFields(m, n);
      } else {
        VT.GeneratedLists(n, t.Keys);
        assert [] !in DirectChildren(t.Keys, n);
        var children := t[n].kind.Children().value;
        assert forall c :: c in children ==> c in Elements(children);
      }
    }
  }

  /** However deep one goes, filling a null map is not done. */
  ghost predicate NeverEnds(env: Env, t: Table)
    requires [] in t
  {
    forall depth: nat :: FilledWithin(depth, env, t, Null, [], false, true) == None
  }

  /** Filling this map is done at some depth. */
  ghost predicate Ends(env: Env, t: Table, v: Value)
    requires [] in t
  {
    exists depth: nat :: FilledWithin(depth, env, t, v, [], false, true).Some?
  }

  /** On a model the validator accepts, filling ends on every map if and only if the
      root is not an object that lists itself; and if it is, filling the empty map,
      where a conversion starts, never ends. */
  lemma FillingEndsExactly(env: Env, m: Table)
    requires Named(m) && VT.Normalized(m) && Accepts(m) && m != map[]
    ensures [] in Completed(m)
    ensures (forall v :: Ends(env, Completed(m), v)) <==> !(ListsItself(m, []) && m[[]].kind.Object?)
    ensures ListsItself(m, []) && m[[]].kind.Object? ==> NeverEnds(env, Completed(m))
  {
    var t := Completed(m);
    RootPresent(m);
    if ListsItself(m, []) {
      SelfListingIsAlone(m, []);
      if m[[]].kind.Object? {
        NullNeverEnds(env, t);
        assert !Ends(env, t, Null);
      } else {
        forall v ensures Ends(env, t, v) {
          var k := Nesting(v);
          NestedEnds(k, env, t, v, false);
        }
      }
    } else {
      OnlyRootListsRoot(m);
      forall v ensures Ends(env, t, v) {
        WithinAgrees(2 * Remaining(t, []) + 1, env, t, v, [], false, true);
      }
    }
  }

  lemma RootPresent(m: Table)
    requires Named(m) && m != map[]
    ensures [] in Completed(m) && ([] in m ==> Completed(m)[[]] == m[[]])
  {
    var k :| k in m.Keys;
    assert [] <= k;
    InClosure(m.Keys, []);
  }

  lemma NullNeverEnds(env: Env, t: Table)
    requires [] in t && t[[]].kind.Object? && t[[]].kind.Children() == Some([[]])
    ensures NeverEnds(env, t)
  {
    forall depth: nat ensures FilledWithin(depth, env, t, Null, [], false, true) == None {
      SelfListingNeverEnds(depth, env, t, Null, false);
    }
  }

  /** Arrays are nested at most `k` deep in the value. */
  predicate NestedWithin(v: Value, k: nat)
    decreases v
  {
    v.Arr? ==> k > 0 && forall i :: 0 <= i < |v.items| ==> NestedWithin(v.items[i], k - 1)
  }

  lemma {:induction false} NestedMore(v: Value, k: nat, l: nat)
    requires NestedWithin(v, k) && k <= l
    ensures NestedWithin(v, l)
    decreases v
  {
    if v.Arr? {
      forall i | 0 <= i < |v.items| ensures NestedWithin(v.items[i], l - 1) {
        NestedMore(v.items[i], k - 1, l - 1);
      }
    }
  }

  lemma {:induction false} Nesting(v: Value) returns (k: nat)
    ensures NestedWithin(v, k)
    decreases v, 0
  {
    k := 0;
    if v.Arr? {
      k := 1;
      var i := 0;
      while i < |v.items|
        invariant 0 <= i <= |v.items| && k > 0
        invariant forall j :: 0 <= j < i ==> NestedWithin(v.items[j], k - 1)
      {
        var l := Nesting(v.items[i]);
        var more := if k > l + 1 then k else l + 1;
        forall j | 0 <= j < i ensures NestedWithin(v.items[j], more - 1) {
          NestedMore(v.items[j], k - 1, more - 1);
        }
        NestedMore(v.items[i], l, more - 1);
        k := more;
        i := i + 1;
      }
    }
  }

  /** An array at the root that lists itself is filled down its own nesting. */
  lemma {:induction false} NestedEnds(k: nat, env: Env, t: Table, v: Value, optional: bool)
    requires [] in t && t[[]].kind.ObjectArray? && t[[]].kind.Children() == Some([[]]) && NestedWithin(v, k)
    ensures FilledWithin(2 * k + 1, env, t, v, [], optional, true).Some?
    ensures v.Null? || v.Arr? || FilledWithin(2 * k + 1, env, t, v, [], optional, true) == Some(Ok(v))
    decreases k, 1, 0
  {
    if v.Arr? {
      NestedItemsEnd(k, env, t, v, optional || t[[]].optional, 0);
    }
  }

  lemma {:induction false} NestedItemsEnd(k: nat, env: Env, t: Table, v: Value, optional: bool, i: nat)
    requires [] in t && t[[]].kind.ObjectArray? && t[[]].kind.Children() == Some([[]])
    requires k > 0 && v.Arr? && i <= |v.items| && forall j :: i <= j < |v.items| ==> NestedWithin(v.items[j], k - 1)
    ensures ItemsWithin(2 * k + 1, env, t, v, [], optional, i).Some?
    decreases k, 0, |v.items| - i
  {
    if i < |v.items| {
      var item := v.items[i];
      var open := if item.Null? then Obj(map[]) else item;
      NestedEnds(k - 1, env, t, open, optional || t[[]].optional);
      var r := FilledWithin(2 * k - 1, env, t, open, [], optional || t[[]].optional, true).value;
      OneMoreCall(2 * k, env, t, item, optional, r);
      if r.Ok? {
        NestedItemsEnd(k, env, t, Arr(v.items[i := r.value]), optional, i + 1);
      }
    }
  }

  lemma OneMoreCall(depth: nat, env: Env, t: Table, item: Value, optional: bool, r: Outcome)
    requires [] in t && t[[]].kind.ObjectArray? && t[[]].kind.Children() == Some([[]]) && depth > 0
    requires FilledWithin(depth - 1, env, t, if item.Null? then Obj(map[]) else item, [], optional || t[[]].optional, true) == Some(r)
    ensures FilledWithin(depth, env, t, item, [], optional, false) == Some(r)
  {
    var root: Path := [];
    var inherited := optional || t[[]].optional;
    assert [root][1..] == [];
    if r.Ok? {
      assert FieldsWithin(depth, env, t, r.value, [], inherited, []) == Some(r);
    }
    assert FieldsWithin(depth, env, t, if item.Null? then Obj(map[]) else item, [], inherited, [root]) == Some(r);
  }

  /** Once filling is done at some depth, going deeper does not change the outcome. */
  lemma {:induction false} DeeperAgrees(depth: nat, deeper: nat, env: Env, t: Table, v: Value, n: Path, optional: bool,
                                        isAtom: bool)
    requires n in t && depth <= deeper && FilledWithin(depth, env, t, v, n, optional, isAtom).Some?
    ensures FilledWithin(deeper, env, t, v, n, optional, isAtom) == FilledWithin(depth, env, t, v, n, optional, isAtom)
    decreases depth, 1, 0
  {
    var kind := t[n].kind;
    var inherited := optional || t[n].optional;
    if kind.ObjectArray? && isAtom {
      if v.Arr? {
        ItemsDeeper(depth, deeper, env, t, v, n, inherited, 0);
      }
    } else if kind.Children().Some? {
      FieldsDeeper(depth, deeper, env, t, if v.Null? then Obj(map[]) else v, n, inherited, kind.Children().value);
    }
  }

  lemma {:induction false} FieldsDeeper(depth: nat, deeper: nat, env: Env, t: Table, v: Value, n: Path, optional: bool,
                                        children: seq<Path>)
    requires n in t && 0 < depth <= deeper && FieldsWithin(depth, env, t, v, n, optional, children).Some?
    ensures FieldsWithin(deeper, env, t, v, n, optional, children) == FieldsWithin(depth, env, t, v, n, optional, children)
    decreases depth, 0, |children|
  {
    if children != [] {
      if children[0] == [] {
        DeeperAgrees(depth - 1, deeper - 1, env, t, v, n, optional, true);
        var r := FilledWithin(depth - 1, env, t, v, n, optional, true).value;
        if r.Ok? {
          FieldsDeeper(depth, deeper, env, t, r.value, n, optional, children[1..]);
        }
      } else {
        var e := ChildKey(children[0]);
        match Enter(t, v, n, e) {
          case Inside(node, next) =>
            DeeperAgrees(depth - 1, deeper - 1, env, t, At(node, e), next, optional, true);
            var r := FilledWithin(depth - 1, env, t, At(node, e), next, optional, true).value;
            if r.Ok? {
              FieldsDeeper(depth, deeper, env, t, Set(node, e, r.value), n, optional, children[1..]);
            }
          case _ =>
        }
      }
    }
  }

  lemma {:induction false} ItemsDeeper(depth: nat, deeper: nat, env: Env, t: Table, v: Value, n: Path, optional: bool,
                                       i: nat)
    requires n in t && v.Arr? && i <= |v.items| && 0 < depth <= deeper
    requires ItemsWithin(depth, env, t, v, n, optional, i).Some?
    ensures ItemsWithin(deeper, env, t, v, n, optional, i) == ItemsWithin(depth, env, t, v, n, optional, i)
    decreases depth, 0, |v.items| - i
  {
    if i < |v.items| {
      DeeperAgrees(depth - 1, deeper - 1, env, t, v.items[i], n, optional, false);
      var r := FilledWithin(depth - 1, env, t, v.items[i], n, optional, false).value;
      if r.Ok? {
        ItemsDeeper(depth, deeper, env, t, Arr(v.items[i := r.value]), n, optional, i + 1);
      }
    }
  }

  /** Where no field lists the root, a conversion ends, with the outcome `Converted` gives. */
  lemma ConversionEnds(env: Env, t: Table, value: Value, depth: nat)
    requires Descends(t) && depth == 2 * Remaining(t, []) + 1
    ensures ConvertedWithin(depth, env, t, value) == Some(Converted(env, t, value))
  {
    var updated := UpdatedAt(env, t, Null, [], false, value);
    if [] in t && updated.Ok? {
      WithinAgrees(depth, env, t, updated.value, [], false, true);
    }
  }

  /** Any other field of an accepted model that lists itself is looked for below
      itself, where there is nothing: an object is never filled, an array only when it
      has no elements. */
  lemma SelfListingFieldFails(env: Env, m: Table, v: Value, n: Path, optional: bool)
    requires Named(m) && VT.Normalized(m) && Accepts(m) && ListsItself(m, n) && n != []
    ensures var t := Completed(m);
            && Descends(t) && n in t
            && Filled(env, t, v, n, optional, true) ==
               if m[n].kind.Object? || (v.Arr? && v.items != []) then Err(Template.NoSuchField)
               else Ok(if v.Null? then Arr([]) else v)
  {
    var t := Completed(m);
    VT.CompletedEntries(m, n);
    SelfListingIsAlone(m, n);
    var root: Path := [];
    assert root < n;
    if ListsItself(m, []) {
      SelfListingIsAlone(m, []);
    }
    OnlyRootListsRoot(m);
    assert n < Extend(n, n[|n| - 1]);
    var children := t[n].kind.Children().value;
    assert children[0] == n && ChildKey(children[0]) == Key(n[|n| - 1]);
    if v.Arr? && v.items != [] {
      assert Filled(env, t, v.items[0], n, optional || t[n].optional, false) == Err(Template.NoSuchField);
    }
  }
}
