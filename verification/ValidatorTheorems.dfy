/** What validation guarantees: closed trees, a fixpoint, and tree embeddings. */
module ValidatorTheorems {
  import opened Results
  import opened Names
  import opened Schema
  import opened Order
  import opened Validator

  ghost predicate Normalized(m: Table) {
    forall n :: n in m ==> Normalize(m[n].kind) == m[n].kind && KindOk(m[n].kind)
  }

  ghost predicate HasDescendant(names: set<Path>, n: Path) {
    exists k :: k in names && n < k
  }

  ghost predicate ListsItself(m: Table) {
    exists n :: n in m && m[n].kind.Children().Some? && n in m[n].kind.Children().value
  }

  lemma {:induction false} AddedFieldsNormalized(m: Table, spec: seq<Field>)
    requires Normalized(m) && AddedFields(m, spec).Some?
    ensures Normalized(AddedFields(m, spec).value)
    decreases |spec|
  {
    if spec != [] {
      NormalizeIdempotent(spec[0].kind);
      NormalizeKeepsChildren(spec[0].kind);
      AddedFieldsNormalized(m[spec[0].name := NormalizeField(spec[0])], spec[1..]);
    }
  }

  lemma AncestorInClosure(names: set<Path>, n: Path, x: Path)
    requires n in Closure(names) && x <= n
    ensures x in Closure(names)
  {
    InClosure(names, n);
    var k :| k in names && n <= k;
    assert x <= k;
    InClosure(names, x);
  }

  lemma GeneratedHasDescendant(names: set<Path>, n: Path)
    requires n in Closure(names) && n !in names
    ensures HasDescendant(names, n)
  {
    InClosure(names, n);
    var k :| k in names && n <= k;
    assert |n| == |k| ==> n == k;
  }

  lemma DescendantInClosure(names: set<Path>, n: Path)
    requires HasDescendant(Closure(names), n)
    ensures HasDescendant(names, n)
  {
    var x :| x in Closure(names) && n < x;
    InClosure(names, x);
    var k :| k in names && x <= k;
    assert n < k;
  }

  /** Every ancestor of a name in the completed table is in it. */
  lemma CompletedHasAncestors(m: Table, n: Path, x: Path)
    requires Named(m) && n in Completed(m) && x <= n
    ensures x in Completed(m)
  {
    AncestorInClosure(m.Keys, n, x);
  }

  /** A mandatory static object that lists the names directly below it in order. */
  ghost predicate IsPlainObject(names: set<Path>, n: Path, field: Field) {
    && field.name == n && !field.optional
    && field.kind.Object? && field.kind.objectKind.Static?
    && (forall c :: c in field.kind.objectChildren <==> c in names && |c| == |n| + 1 && n <= c)
    && InNameOrder(field.kind.objectChildren)
  }

  /** The printed names are strictly increasing. */
  predicate InNameOrder(names: seq<Path>) {
    forall i, j :: 0 <= i < j < |names| ==> Less(Render(names[i]), Render(names[j]))
  }

  /** Explicit fields are unchanged; every other name lies above an explicit one
      and is a mandatory object listing exactly its direct children. */
  lemma CompletedEntries(m: Table, n: Path)
    requires Named(m)
    ensures n in m ==> n in Completed(m) && Completed(m)[n] == m[n]
    ensures n in Completed(m) && n !in m ==> HasDescendant(m.Keys, n)
    ensures n in Completed(m) && n !in m ==> IsPlainObject(Completed(m).Keys, n, Completed(m)[n])
  {
    ClosureIsClosed(m.Keys);
    if n in Completed(m) && n !in m {
      GeneratedHasDescendant(m.Keys, n);
      ClosureOfPaths(m.Keys);
      var children := SortedNames(DirectChildren(Closure(m.Keys), n));
      forall c ensures c in children <==> c in Completed(m) && |c| == |n| + 1 && n <= c {
        assert c in children <==> c in Elements(children);
        assert c in DirectChildren(Closure(m.Keys), n) <==> c in Closure(m.Keys) && c != [] && c[..|c| - 1] == n;
      }
    }
  }

  /** An accepted table is a closed tree if and only if it is not empty and no
      field lists itself. The exception is real: see `SelfListingAccepted`. */
  lemma AcceptedIsClosedTree(m: Table)
    requires Named(m) && Normalized(m) && Accepts(m)
    ensures ClosedTree(Completed(m)) <==> m != map[] && !ListsItself(m)
  {
    if m != map[] && !ListsItself(m) {
      ClosedWhenExact(m);
    }
    if ClosedTree(Completed(m)) {
      ExactWhenClosed(m);
    }
  }

  lemma ClosedWhenExact(m: Table)
    requires Named(m) && Normalized(m) && Accepts(m) && m != map[] && !ListsItself(m)
    ensures ClosedTree(Completed(m))
  {
    var t := Completed(m);
    CompletedNormalized(m);
    forall n, p | n in t && p <= n ensures p in t {
      AncestorInClosure(m.Keys, n, p);
    }
    var k :| k in m.Keys;
    assert [] <= k;
    InClosure(m.Keys, []);
    forall n | n in t && t[n].kind.Children().Some?
      ensures Elements(t[n].kind.Children().value) == DirectChildren(t.Keys, n)
    {
      if n in m {
        ListedExactly(m, n);
      } else {
        GeneratedLists(n, t.Keys);
      }
    }
  }

  lemma ExactWhenClosed(m: Table)
    requires Named(m) && ClosedTree(Completed(m))
    ensures m != map[] && !ListsItself(m)
  {
    var t := Completed(m);
    ClosureIsClosed(m.Keys);
    InClosure(m.Keys, []);
    forall n | n in m && m[n].kind.Children().Some? ensures n !in m[n].kind.Children().value {
      assert t[n] == m[n];
      assert n !in DirectChildren(t.Keys, n);
      assert n in m[n].kind.Children().value <==> n in Elements(m[n].kind.Children().value);
    }
  }

  lemma ListedExactly(m: Table, n: Path)
    requires Accepts(m) && !ListsItself(m) && n in m && m[n].kind.Children().Some?
    ensures Elements(m[n].kind.Children().value) == DirectChildren(Closure(m.Keys), n)
  {
    if HasDescendant(m.Keys, n) {
      var k :| k in m.Keys && n < k;
      assert ListsChildren(m, Closure(m.Keys), n);
    } else {
      var children := m[n].kind.Children().value;
      assert ListsGivenFields(m, n);
      assert forall c :: c in children ==> |c| <= |n| && n <= c && c == n;
      forall c | c in DirectChildren(Closure(m.Keys), n) ensures false {
        assert n < c;
        DescendantInClosure(m.Keys, n);
      }
    }
  }

  /** A root that lists itself is accepted, although it is not a closed tree. */
  lemma SelfListingAccepted(m: Table)
    requires m == map[[] := Field([], Object([[]], Static), false)]
    ensures Named(m) && Accepts(m) && ListsItself(m)
  {
    assert [] in m[[]].kind.Children().value;
  }

  /** Completing a completed table changes nothing, and it stays accepted. */
  lemma CompletedIsStable(m: Table)
    requires Named(m) && Accepts(m)
    ensures Accepts(Completed(m)) && Completed(Completed(m)) == Completed(m)
  {
    var t := Completed(m);
    ClosureTwice(m.Keys);
    ClosureIsClosed(m.Keys);
    forall n | n in t ensures ListsGivenFields(t, n) {
      if n in m {
        assert ListsGivenFields(m, n);
      } else {
        GeneratedLists(n, t.Keys);
      }
    }
    forall n, k | n in t && k in t && n < k ensures ListsChildren(t, t.Keys, n) {
      CompletedLists(m, n, k);
    }
  }

  lemma CompletedLists(m: Table, n: Path, k: Path)
    requires Named(m) && Accepts(m) && n in Completed(m) && k in Completed(m) && n < k
    ensures ListsChildren(Completed(m), Completed(m).Keys, n)
  {
    if n in m {
      assert HasDescendant(Closure(m.Keys), n);
      DescendantInClosure(m.Keys, n);
      var j :| j in m.Keys && n < j;
      assert ListsChildren(m, Closure(m.Keys), n);
    } else {
      GeneratedLists(n, Completed(m).Keys);
    }
  }

  lemma ClosureTwice(names: set<Path>)
    ensures Closure(Closure(names)) == Closure(names)
  {
    ClosureIsClosed(Closure(names));
    forall x | x in Closure(Closure(names)) ensures x in Closure(names) {
      InClosure(Closure(names), x);
      var y :| y in Closure(names) && x <= y;
      InClosure(names, y);
      var k :| k in names && y <= k;
      assert x <= k;
      InClosure(names, x);
    }
  }

  lemma GeneratedLists(n: Path, names: set<Path>)
    requires ArePaths(names)
    ensures Elements(Generated(n, names).kind.Children().value) == DirectChildren(names, n)
    ensures forall c :: c in Generated(n, names).kind.Children().value ==> n <= c && c in names
    ensures Normalize(Generated(n, names).kind) == Generated(n, names).kind
  {
    var children := SortedNames(DirectChildren(names, n));
    forall c | c in children ensures n <= c && c in names && IsPath(c) {
      assert c in Elements(children);
    }
    assert ArePaths(Elements(children));
    SortedUnique(SortedNames(Elements(children)), children, NameKey);
  }

  /** `order` lists, once each, the names of `t` that are not yet in `done`. */
  ghost predicate Remaining(t: Table, order: seq<Path>, done: Table) {
    && (forall i, j :: 0 <= i < j < |order| ==> order[i] != order[j])
    && (forall n :: n in order ==> n in t && n !in done)
    && (forall n :: n in done ==> n in t && done[n] == t[n])
    && (forall n :: n in t ==> n in order || n in done)
  }

  lemma RemainingStep(t: Table, order: seq<Path>, done: Table)
    requires Remaining(t, order, done) && order != []
    ensures order[0] in t && order[0] !in done
    ensures Remaining(t, order[1..], done[order[0] := t[order[0]]])
  {
    assert order == [order[0]] + order[1..];
    assert order[0] in order;
  }

  lemma RemainingStart(t: Table)
    requires Named(t)
    ensures Remaining(t, SortedNames(t.Keys), map[])
  {
    var order := SortedNames(t.Keys);
    NoRepeats(order, NameKey);
    assert forall n :: n in order <==> n in Elements(order);
  }

  /** Parsing the fields of a table, in any duplicate-free order, rebuilds the table. */
  lemma {:induction false} ReparsedTable(t: Table, order: seq<Path>, done: Table)
    requires Named(t) && Normalized(t)
    requires Remaining(t, order, done)
    ensures AddedFields(done, Pick(t, order)) == Some(t)
    decreases |order|
  {
    if order == [] {
      assert done == t;
    } else {
      RemainingStep(t, order, done);
      ReparsedTable(t, order[1..], done[order[0] := t[order[0]]]);
    }
  }

  lemma ReparsedFields(t: Table)
    requires Named(t) && Normalized(t)
    ensures AddedFields(map[], FieldsInOrder(t)) == Some(t)
  {
    RemainingStart(t);
    ReparsedTable(t, SortedNames(t.Keys), map[]);
  }

  lemma CompletedNormalized(m: Table)
    requires Named(m) && Normalized(m)
    ensures Named(Completed(m)) && Normalized(Completed(m))
  {
    var t := Completed(m);
    forall n | n in t ensures Normalize(t[n].kind) == t[n].kind && KindOk(t[n].kind) {
      if n !in m {
        GeneratedLists(n, t.Keys);
      }
    }
  }

  /** Validating an already validated list succeeds and returns the same list. */
  lemma ValidationFixpoint(spec: seq<Field>)
    requires Validated(spec).Some?
    ensures Validated(Validated(spec).value) == Validated(spec)
  {
    var m := AddedFields(map[], spec).value;
    AddedFieldsNamed(map[], spec);
    AddedFieldsNormalized(map[], spec);
    CompletedNormalized(m);
    CompletedIsStable(m);
    ReparsedFields(Completed(m));
  }
}
