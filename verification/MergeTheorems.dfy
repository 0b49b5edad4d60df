/** Merging a validated model below a name is a tree embedding. */
module MergeTheorems {
  import opened Results
  import opened Names
  import opened Schema
  import opened Order
  import opened Validator
  import opened ValidatorTheorems

  lemma PrefixKeepsOrder(p: Path, a: Path, b: Path)
    ensures Less(NameKey(p + a), NameKey(p + b)) <==> Less(NameKey(a), NameKey(b))
  {
    RenderTailConcat(p, a);
    RenderTailConcat(p, b);
    LessAfterPrefix(RenderTail(p), RenderTail(a), RenderTail(b));
    LessAfterPrefix("/", RenderTail(a), RenderTail(b));
    LessAfterPrefix("/", RenderTail(p) + RenderTail(a), RenderTail(p) + RenderTail(b));
  }

  /** A sorted list of children stays sorted below a prefix. */
  lemma PrefixedStaysNormalized(p: Path, field: Field)
    requires Mergeable(p, field) && Normalize(field.kind) == field.kind
    ensures NormalizeField(Prefixed(p, field)) == Prefixed(p, field)
    ensures KindOk(Prefixed(p, field).kind)
  {
    if field.kind.Children().Some? {
      var children := field.kind.Children().value;
      var moved := PrefixAll(p, children);
      forall c | c in Elements(moved) ensures IsPath(c) {
        var i :| 0 <= i < |moved| && moved[i] == c;
        assert children[i] in children;
      }
      assert ArePaths(Elements(children)) by { assert forall c :: c in Elements(children) ==> c in children; }
      assert children == SortedNames(Elements(children));
      forall i, j | 0 <= i < j < |moved| ensures Less(NameKey(moved[i]), NameKey(moved[j])) {
        PrefixKeepsOrder(p, children[i], children[j]);
      }
      SortedUnique(SortedNames(Elements(moved)), moved, NameKey);
    }
  }

  /** The fields of `t`, moved below `p`. */
  ghost function Moved(p: Path, t: Table): Table {
    map x | x in (set n | n in t :: p + n) :: Prefixed(p, t[x[|p|..]])
  }

  lemma MovedAt(p: Path, t: Table, n: Path)
    ensures p + n in Moved(p, t) <==> n in t
    ensures n in t ==> Moved(p, t)[p + n] == Prefixed(p, t[n])
  {
    assert (p + n)[|p|..] == n;
    if p + n in Moved(p, t) {
      var k :| k in t && p + k == p + n;
      assert (p + k)[|p|..] == k;
    }
  }

  lemma MovedKeys(p: Path, t: Table, x: Path)
    ensures x in Moved(p, t) <==> p <= x && x[|p|..] in t
  {
    if p <= x {
      assert x == p + x[|p|..];
      MovedAt(p, t, x[|p|..]);
    }
  }

  /** A field of `t` that can be merged as it is. */
  ghost predicate Ready(p: Path, t: Table, n: Path)
    requires n in t
  {
    Mergeable(p, t[n]) && t[n].name == n && Normalize(t[n].kind) == t[n].kind
  }

  lemma MergeOne(p: Path, done: Table, t: Table, n: Path, rest: seq<Field>)
    requires n in t && n !in done && Ready(p, t, n)
    ensures AddedModel(Moved(p, done), p, [t[n]] + rest) == AddedModel(Moved(p, done[n := t[n]]), p, rest)
  {
    PrefixedStaysNormalized(p, t[n]);
    MovedAt(p, done, n);
    MovedOneMore(p, done, n, t[n]);
    assert ([t[n]] + rest)[1..] == rest;
  }

  lemma {:induction false} MergedTable(p: Path, t: Table, order: seq<Path>, done: Table)
    requires forall n :: n in t ==> Ready(p, t, n)
    requires Remaining(t, order, done)
    ensures AddedModel(Moved(p, done), p, Pick(t, order)) == Some(Moved(p, t))
    decreases |order|
  {
    if order == [] {
      assert done == t;
    } else {
      var n := order[0];
      RemainingStep(t, order, done);
      MergedTable(p, t, order[1..], done[n := t[n]]);
      MergeOne(p, done, t, n, Pick(t, order[1..]));
    }
  }

  lemma MovedOneMore(p: Path, done: Table, n: Path, field: Field)
    requires n !in done
    ensures Moved(p, done[n := field]) == Moved(p, done)[p + n := Prefixed(p, field)]
  {
    var a, b := Moved(p, done[n := field]), Moved(p, done)[p + n := Prefixed(p, field)];
    forall x ensures x in a <==> x in b
             ensures x in a ==> a[x] == b[x] {
      MovedOneMoreAt(p, done, n, field, x);
    }
  }

  lemma MovedOneMoreAt(p: Path, done: Table, n: Path, field: Field, x: Path)
    requires n !in done
    ensures x in Moved(p, done[n := field]) <==> x in Moved(p, done) || x == p + n
    ensures x in Moved(p, done[n := field]) ==>
              Moved(p, done[n := field])[x] == if x == p + n then Prefixed(p, field) else Moved(p, done)[x]
  {
    MovedKeys(p, done[n := field], x);
    MovedKeys(p, done, x);
    assert (p + n)[|p|..] == n;
    if p <= x {
      var k := x[|p|..];
      assert x == p + k;
      MovedAt(p, done[n := field], k);
      MovedAt(p, done, k);
    }
  }

  /** In an accepted table every child is a well-formed name, so all fields can
      be merged anywhere. */
  lemma ValidatedReady(p: Path, t: Table)
    requires IsPath(p) && Named(t) && Normalized(t) && Accepts(t)
    ensures forall n :: n in t ==> Ready(p, t, n)
  {
    forall n | n in t ensures Ready(p, t, n) {
      assert ListsGivenFields(t, n);
    }
  }

  lemma MovedNamed(p: Path, t: Table)
    requires IsPath(p) && Named(t)
    ensures Named(Moved(p, t))
  {
    forall x | x in Moved(p, t) ensures IsPath(x) && Moved(p, t)[x].name == x {
      MovedKeys(p, t, x);
      assert x == p + x[|p|..];
      MovedAt(p, t, x[|p|..]);
    }
  }

  lemma ClosureOfMoved(p: Path, t: Table, x: Path)
    requires Closure(t.Keys) == t.Keys && t != map[]
    ensures x in Closure(Moved(p, t).Keys) <==> x < p || x in Moved(p, t)
  {
    MovedKeys(p, t, x);
    InClosure(Moved(p, t).Keys, x);
    if x < p {
      RootInClosure(t.Keys);
      MovedAt(p, t, []);
      assert p + [] == p;
      assert x <= p;
    }
    if x in Closure(Moved(p, t).Keys) {
      var k :| k in Moved(p, t).Keys && x <= k;
      MovedKeys(p, t, k);
      if |p| <= |x| {
        assert p <= x;
        assert x[|p|..] <= k[|p|..];
        InClosure(t.Keys, x[|p|..]);
      } else {
        assert x < p;
      }
    } else {
      assert x !in Moved(p, t).Keys || x <= x;
    }
  }

  lemma RootInClosure(names: set<Path>)
    requires names != {}
    ensures [] in Closure(names)
  {
    var k :| k in names;
    assert [] <= k;
    InClosure(names, []);
  }

  /** The direct children of a moved name are the moved direct children. */
  lemma MovedChildren(p: Path, t: Table, n: Path)
    requires Closure(t.Keys) == t.Keys && n in t
    requires t[n].kind.Children().Some?
    requires Elements(t[n].kind.Children().value) == DirectChildren(t.Keys, n)
    ensures Elements(Prefixed(p, t[n]).kind.Children().value) == DirectChildren(Closure(Moved(p, t).Keys), p + n)
  {
    var children := t[n].kind.Children().value;
    var moved := PrefixAll(p, children);
    forall c | c in moved ensures c in DirectChildren(Closure(Moved(p, t).Keys), p + n) {
      var i :| 0 <= i < |moved| && moved[i] == c;
      assert children[i] in Elements(children);
      MovedChild(p, t, n, children[i]);
    }
    forall c | c in DirectChildren(Closure(Moved(p, t).Keys), p + n) ensures c in moved {
      ChildWasMoved(p, t, n, c);
      assert c[|p|..] in Elements(children);
      var i :| 0 <= i < |children| && children[i] == c[|p|..];
      assert moved[i] == c;
    }
  }

  lemma MovedChild(p: Path, t: Table, n: Path, d: Path)
    requires Closure(t.Keys) == t.Keys && n in t && d in DirectChildren(t.Keys, n)
    ensures p + d in DirectChildren(Closure(Moved(p, t).Keys), p + n)
  {
    MovedAt(p, t, d);
    ClosureOfMoved(p, t, p + d);
    assert (p + d)[..|p + d| - 1] == p + d[..|d| - 1];
  }

  lemma ChildWasMoved(p: Path, t: Table, n: Path, c: Path)
    requires Closure(t.Keys) == t.Keys && n in t && c in DirectChildren(Closure(Moved(p, t).Keys), p + n)
    ensures p <= c && c == p + c[|p|..] && c[|p|..] in DirectChildren(t.Keys, n)
  {
    ClosureOfMoved(p, t, c);
    assert Parent(c) == Some(p + n);
    assert c != [] && c[..|c| - 1] == p + n;
    MovedKeys(p, t, c);
    var d := c[|p|..];
    assert c == p + d;
    forall i | 0 <= i < |n| ensures d[i] == n[i] {
      assert d[i] == c[|p| + i] == (p + n)[|p| + i];
    }
    assert d[..|d| - 1] == n;
  }

  lemma MovedAccepted(p: Path, t: Table)
    requires Named(t) && Accepts(t) && Closure(t.Keys) == t.Keys && IsPath(p)
    ensures Named(Moved(p, t)) && Accepts(Moved(p, t))
  {
    var m := Moved(p, t);
    MovedNamed(p, t);
    forall x | x in m ensures ListsGivenFields(m, x) {
      MovedGiven(p, t, x);
    }
    forall x, k | x in m && k in m && x < k ensures ListsChildren(m, Closure(m.Keys), x) {
      MovedKeys(p, t, x);
      MovedKeys(p, t, k);
      var n := x[|p|..];
      assert x == p + n && n < k[|p|..];
      MovedAt(p, t, n);
      if t[n].kind.Children().Some? {
        assert ListsChildren(t, Closure(t.Keys), n);
        MovedChildren(p, t, n);
      }
    }
  }

  lemma MovedGiven(p: Path, t: Table, x: Path)
    requires Accepts(t) && x in Moved(p, t)
    ensures ListsGivenFields(Moved(p, t), x)
  {
    MovedKeys(p, t, x);
    var n := x[|p|..];
    assert x == p + n;
    MovedAt(p, t, n);
    assert ListsGivenFields(t, n);
    if t[n].kind.Children().Some? {
      var children := t[n].kind.Children().value;
      var moved := PrefixAll(p, children);
      forall c | c in moved ensures x <= c && c in Moved(p, t) {
        var i :| 0 <= i < |moved| && moved[i] == c;
        assert children[i] in children;
        MovedAt(p, t, children[i]);
      }
    }
  }

  /** The names, each below `p`. */
  predicate AreBelow(p: Path, names: seq<Path>, moved: seq<Path>) {
    |moved| == |names| && forall i :: 0 <= i < |names| ==> moved[i] == p + names[i]
  }

  /** The field with its name and its children below `p`, and nothing else changed. */
  predicate IsMoved(p: Path, field: Field, moved: Field) {
    && moved.name == p + field.name
    && moved.optional == field.optional
    && match field.kind
       case Object(children, k) =>
         moved.kind.Object? && moved.kind.objectKind == k && AreBelow(p, children, moved.kind.objectChildren)
       case ObjectArray(children) => moved.kind.ObjectArray? && AreBelow(p, children, moved.kind.elementChildren)
       case kind => moved.kind == kind
  }

  /** The table that merging the validated model `t` below `p` produces. */
  ghost predicate Embeds(p: Path, t: Table, merged: Table) {
    && (forall n :: n in t ==> p + n in merged && IsMoved(p, t[n], merged[p + n]))
    && (forall x :: x in merged ==> x < p || (p <= x && x[|p|..] in t))
    && (forall x :: x < p ==> x in merged && merged[x] == Field(x, Object([p[..|x| + 1]], Static), false))
  }

  /** Merging a validated, non-empty model below a name always succeeds; stripped
      of the prefix, the entries below it are the original fields with their
      children, and the others are generated single-child ancestors. */
  lemma MergeIsEmbedding(p: Path, spec: seq<Field>)
    requires IsPath(p) && spec != [] && ValidatedTable(spec).Some?
    ensures var t := ValidatedTable(spec).value;
            var merged := ValidatedItems([Reference(p, FieldsInOrder(t))]);
            && Named(Moved(p, t)) && Embeds(p, t, Completed(Moved(p, t)))
            && merged == Some(FieldsInOrder(Completed(Moved(p, t))))
  {
    var t := ValidatedTable(spec).value;
    ValidatedTableFacts(spec);
    MergedFields(p, t);
    MovedAccepted(p, t);
    MovedEmbeds(p, t);
  }

  lemma MergedFields(p: Path, t: Table)
    requires IsPath(p) && Named(t) && Normalized(t) && Accepts(t)
    ensures AddedItems(map[], [Reference(p, FieldsInOrder(t))]) == Some(Moved(p, t))
  {
    ValidatedReady(p, t);
    RemainingStart(t);
    assert Moved(p, map[]) == map[];
    MergedTable(p, t, SortedNames(t.Keys), map[]);
  }

  lemma ValidatedTableFacts(spec: seq<Field>)
    requires spec != [] && ValidatedTable(spec).Some?
    ensures var t := ValidatedTable(spec).value;
            Normalized(t) && Accepts(t) && Closure(t.Keys) == t.Keys && t != map[]
  {
    var m := AddedFields(map[], spec).value;
    AddedFieldsNamed(map[], spec);
    AddedFieldsNormalized(map[], spec);
    CompletedNormalized(m);
    CompletedIsStable(m);
    ClosureTwice(m.Keys);
    ClosureIsClosed(m.Keys);
    AddedFieldsKeep(map[spec[0].name := NormalizeField(spec[0])], spec[1..], spec[0].name);
  }

  lemma {:induction false} AddedFieldsKeep(m: Table, spec: seq<Field>, n: Path)
    requires n in m && AddedFields(m, spec).Some?
    ensures n in AddedFields(m, spec).value
    decreases |spec|
  {
    if spec != [] {
      AddedFieldsKeep(m[spec[0].name := NormalizeField(spec[0])], spec[1..], n);
    }
  }

  lemma MovedEmbeds(p: Path, t: Table)
    requires Named(t) && Named(Moved(p, t)) && Closure(t.Keys) == t.Keys && t != map[]
    ensures Embeds(p, t, Completed(Moved(p, t)))
  {
    var m := Moved(p, t);
    var c := Completed(m);
    forall n | n in t ensures p + n in c && IsMoved(p, t[n], c[p + n]) {
      MovedAt(p, t, n);
      ClosureOfMoved(p, t, p + n);
    }
    forall x | x in c ensures x < p || (p <= x && x[|p|..] in t) {
      ClosureOfMoved(p, t, x);
      MovedKeys(p, t, x);
    }
    forall x | x < p ensures x in c && c[x] == Field(x, Object([p[..|x| + 1]], Static), false) {
      ClosureOfMoved(p, t, x);
      MovedKeys(p, t, x);
      AncestorHasOneChild(p, t, x);
      SingletonSorted(p[..|x| + 1], c.Keys, x);
    }
  }

  lemma AncestorHasOneChild(p: Path, t: Table, x: Path)
    requires Closure(t.Keys) == t.Keys && t != map[] && x < p
    ensures DirectChildren(Closure(Moved(p, t).Keys), x) == {p[..|x| + 1]}
  {
    var only := p[..|x| + 1];
    ClosureOfMoved(p, t, only);
    RootInClosure(t.Keys);
    MovedAt(p, t, []);
    assert p + [] == p;
    assert only[..|only| - 1] == x;
    assert only == p || only < p;
    forall c | c in DirectChildren(Closure(Moved(p, t).Keys), x) ensures c == only {
      ClosureOfMoved(p, t, c);
      MovedKeys(p, t, c);
      assert c == only;
    }
  }

  lemma SingletonSorted(c: Path, names: set<Path>, x: Path)
    requires ArePaths(names) && DirectChildren(names, x) == {c}
    ensures Generated(x, names) == Field(x, Object([c], Static), false)
  {
    var q := SortedNames(DirectChildren(names, x));
    assert Elements([c]) == {c};
    SortedUnique(q, [c], NameKey);
  }
}
