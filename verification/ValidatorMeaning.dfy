/** What the validator accepts and returns, in terms of the names and the bounds of the
    fields it was given. */
module ValidatorMeaning {
  import opened Results
  import opened Names
  import opened Schema
  import opened Order
  import opened Validator
  import opened ValidatorTheorems
  import opened Json
  import opened Template
  import opened FillTheorems
  import opened ConformTheorems
  import opened EngineMeaning
  import opened Conversion

  // -------------------------------------------------------------- one field

  /** The same children, each once and in the order of their names. */
  ghost predicate ListsInOrder(given: seq<Path>, sorted: seq<Path>) {
    (forall c :: c in sorted <==> c in given) && InNameOrder(sorted)
  }

  /** The same kind, but for the order and the repetitions of the children. */
  ghost predicate SameButSorted(kind: Kind, sorted: Kind) {
    match kind
    case Object(children, k) => sorted.Object? && sorted.objectKind == k && ListsInOrder(children, sorted.objectChildren)
    case ObjectArray(children) => sorted.ObjectArray? && ListsInOrder(children, sorted.elementChildren)
    case _ => sorted == kind
  }

  function ChildrenOf(kind: Kind): seq<Path> {
    match kind
    case Object(children, _) => children
    case ObjectArray(children) => children
    case _ => []
  }

  /** Parsing a field sorts the children that an aggregate lists and keeps the rest. */
  lemma NormalizeExactly(kind: Kind)
    ensures if forall c :: c in ChildrenOf(kind) ==> IsPath(c) then SameButSorted(kind, Normalize(kind))
            else Normalize(kind) == kind
  {
    if kind.Children().Some? {
      var children := kind.Children().value;
      if forall c :: c in children ==> IsPath(c) {
        assert ArePaths(Elements(children)) by { assert forall c :: c in Elements(children) ==> c in children; }
        var sorted := SortedNames(Elements(children));
        assert forall c :: c in sorted <==> c in Elements(sorted);
      }
    }
  }

  /** The bounds are in order and the default is legal: what is asked of one field. */
  ghost predicate IsLegal(field: Field) {
    IsPath(field.name) && LeavesRoom(field.kind) && DefaultIsLegal(field.kind)
  }

  // ------------------------------------------------------------ the given fields

  /** No two fields have the same name. */
  predicate Distinct(spec: seq<Field>) {
    forall i, j :: 0 <= i < j < |spec| ==> spec[i].name != spec[j].name
  }

  predicate NameTaken(m: Table, spec: seq<Field>) {
    exists i :: 0 <= i < |spec| && spec[i].name in m
  }

  ghost predicate AllLegal(spec: seq<Field>) {
    forall i :: 0 <= i < |spec| ==> IsLegal(spec[i])
  }

  /** Parsing fields one by one succeeds if and only if each is legal and no name comes
      twice. */
  lemma {:induction false} ParsesExactly(m: Table, spec: seq<Field>)
    ensures AddedFields(m, spec).Some? <==> AllLegal(spec) && Distinct(spec) && !NameTaken(m, spec)
    decreases |spec|
  {
    if spec != [] {
      var first, rest := spec[0], spec[1..];
      KindOkExactly(first.kind);
      assert spec == [first] + rest;
      ParsesExactly(m[first.name := NormalizeField(first)], rest);
      if IsLegal(first) && first.name !in m {
        TakenByFirst(m, first, rest);
      }
    }
  }

  lemma TakenByFirst(m: Table, first: Field, rest: seq<Field>)
    requires first.name !in m
    ensures Distinct(rest) && !NameTaken(m[first.name := NormalizeField(first)], rest) <==>
            Distinct([first] + rest) && !NameTaken(m, [first] + rest)
  {
    var spec, more := [first] + rest, m[first.name := NormalizeField(first)];
    assert forall i :: 0 <= i < |rest| ==> spec[i + 1] == rest[i];
    if NameTaken(more, rest) {
      var i :| 0 <= i < |rest| && rest[i].name in more;
      assert spec[i + 1].name in m || spec[i + 1].name == spec[0].name;
    }
    if NameTaken(m, spec) {
      var i :| 0 <= i < |spec| && spec[i].name in m;
      assert rest[i - 1].name in more;
    }
    if i, j :| 0 <= i < j < |spec| && spec[i].name == spec[j].name && i == 0 {
      assert rest[j - 1].name in more;
    }
  }

  /** The parsed table holds each field under its name, with its children sorted. */
  lemma {:induction false} ParsedFields(m: Table, spec: seq<Field>)
    requires AddedFields(m, spec).Some?
    ensures var t := AddedFields(m, spec).value;
            && (forall n :: n in t <==> n in m || exists i :: 0 <= i < |spec| && spec[i].name == n)
            && (forall n :: n in m ==> t[n] == m[n])
            && forall i :: 0 <= i < |spec| ==> t[spec[i].name] == NormalizeField(spec[i])
    decreases |spec|
  {
    if spec != [] {
      var first, rest := spec[0], spec[1..];
      assert spec == [first] + rest;
      ParsedFields(m[first.name := NormalizeField(first)], rest);
      var t := AddedFields(m, spec).value;
      forall n ensures n in t <==> n in m || exists i :: 0 <= i < |spec| && spec[i].name == n {
        if i :| 0 <= i < |rest| && rest[i].name == n {
          assert spec[i + 1].name == n;
        }
        if i :| 0 <= i < |spec| && spec[i].name == n {
          assert i == 0 || rest[i - 1].name == n;
        }
      }
    }
  }

  // ---------------------------------------------------------------- the tree

  /** `c` lies directly below `n`, at or above a given field. */
  ghost predicate DirectlyBelow(names: set<Path>, n: Path, c: Path) {
    |c| == |n| + 1 && n <= c && exists k :: k in names && c <= k
  }

  /** An aggregate lists given fields only: exactly the names directly below it, or, if
      nothing is given below it, at most itself. */
  ghost predicate ListsRightly(names: set<Path>, n: Path, children: seq<Path>) {
    && (forall c :: c in children ==> c in names)
    && if HasDescendant(names, n) then forall c :: c in children <==> DirectlyBelow(names, n, c)
       else forall c :: c in children ==> c == n
  }

  ghost predicate IsAggregate(kind: Kind) {
    kind.Object? || kind.ObjectArray?
  }

  lemma AcceptsOne(m: Table, n: Path)
    requires Named(m) && n in m && IsAggregate(m[n].kind)
    ensures ListsGivenFields(m, n) && (HasDescendant(m.Keys, n) ==> ListsChildren(m, Closure(m.Keys), n)) <==>
            ListsRightly(m.Keys, n, ChildrenOf(m[n].kind))
  {
    var children := ChildrenOf(m[n].kind);
    assert m[n].kind.Children() == Some(children);
    forall c ensures c in DirectChildren(Closure(m.Keys), n) <==> DirectlyBelow(m.Keys, n, c) {
      InClosure(m.Keys, c);
      assert c != [] && c[..|c| - 1] == n <==> |c| == |n| + 1 && n <= c;
    }
    assert forall c :: c in Elements(children) <==> c in children;
    if HasDescendant(m.Keys, n) {
      assert ListsChildren(m, Closure(m.Keys), n) <==> forall c :: c in children <==> DirectlyBelow(m.Keys, n, c);
    }
    if ListsGivenFields(m, n) && !HasDescendant(m.Keys, n) {
      forall c | c in children ensures c == n {
        assert c in m.Keys && n <= c;
        assert !(n < c);
      }
    }
  }

  /** What `Finalize` asks of the fields together. */
  lemma AcceptsExactly(m: Table)
    requires Named(m)
    ensures Accepts(m) <==> forall n :: n in m && IsAggregate(m[n].kind) ==> ListsRightly(m.Keys, n, ChildrenOf(m[n].kind))
  {
    forall n | n in m && IsAggregate(m[n].kind)
      ensures ListsGivenFields(m, n) && (HasDescendant(m.Keys, n) ==> ListsChildren(m, Closure(m.Keys), n)) <==>
              ListsRightly(m.Keys, n, ChildrenOf(m[n].kind))
    {
      AcceptsOne(m, n);
    }
    assert forall n :: n in m && !IsAggregate(m[n].kind) ==> ListsGivenFields(m, n) && ListsChildren(m, Closure(m.Keys), n);
    if Accepts(m) {
      forall n | n in m && HasDescendant(m.Keys, n) ensures ListsChildren(m, Closure(m.Keys), n) {
        var k :| k in m.Keys && n < k;
      }
    }
  }

  // ------------------------------------------------------------- the whole

  function NamesIn(spec: seq<Field>): set<Path> {
    set i | 0 <= i < |spec| :: spec[i].name
  }

  /** Every aggregate lists what is below it. */
  ghost predicate AllListRightly(spec: seq<Field>) {
    forall i :: 0 <= i < |spec| && IsAggregate(spec[i].kind) ==>
                  ListsRightly(NamesIn(spec), spec[i].name, ChildrenOf(spec[i].kind))
  }

  /** Validation succeeds if and only if every field is legal, no name comes twice, and
      every aggregate lists what is below it. */
  lemma ValidatesExactly(spec: seq<Field>)
    ensures Validated(spec).Some? <==> AllLegal(spec) && Distinct(spec) && AllListRightly(spec)
  {
    ParsesExactly(map[], spec);
    if AddedFields(map[], spec).Some? {
      var m := AddedFields(map[], spec).value;
      AddedFieldsNamed(map[], spec);
      AcceptsExactly(m);
      SameListing(spec, m);
    }
  }

  lemma SameListing(spec: seq<Field>, m: Table)
    requires AddedFields(map[], spec) == Some(m)
    ensures m.Keys == NamesIn(spec)
    ensures AllListRightly(spec) <==>
            forall n :: n in m && IsAggregate(m[n].kind) ==> ListsRightly(m.Keys, n, ChildrenOf(m[n].kind))
  {
    ParsedFields(map[], spec);
    assert m.Keys == NamesIn(spec);
    forall i | 0 <= i < |spec|
      ensures IsAggregate(m[spec[i].name].kind) <==> IsAggregate(spec[i].kind)
      ensures ListsRightly(m.Keys, spec[i].name, ChildrenOf(m[spec[i].name].kind)) <==>
              ListsRightly(m.Keys, spec[i].name, ChildrenOf(spec[i].kind))
    {
      SameListed(m.Keys, spec[i]);
    }
  }

  lemma SameListed(names: set<Path>, field: Field)
    ensures IsAggregate(Normalize(field.kind)) <==> IsAggregate(field.kind)
    ensures ListsRightly(names, field.name, ChildrenOf(Normalize(field.kind))) <==>
            ListsRightly(names, field.name, ChildrenOf(field.kind))
  {
    NormalizeExactly(field.kind);
    assert forall c :: c in ChildrenOf(Normalize(field.kind)) <==> c in ChildrenOf(field.kind);
  }

  /** The field as it was given, but for the order of its children. */
  ghost predicate IsGiven(given: Field, field: Field) {
    given.name == field.name && given.optional == field.optional && SameButSorted(given.kind, field.kind)
  }

  /** A list of fields in the order of their names: the prefixes of the names in `spec`,
      each as it was given there, or as a plain object. */
  ghost predicate IsCompletionOf(spec: seq<Field>, q: seq<Field>) {
    && (forall i, j :: 0 <= i < j < |q| ==> Less(Render(q[i].name), Render(q[j].name)))
    && (forall n :: n in NamesIn(q) <==> exists k :: k in NamesIn(spec) && n <= k)
    && (forall i :: 0 <= i < |q| ==> IsEntry(spec, NamesIn(q), q[i]))
  }

  ghost predicate IsEntry(spec: seq<Field>, names: set<Path>, field: Field) {
    if field.name in NamesIn(spec) then forall j :: 0 <= j < |spec| && spec[j].name == field.name ==> IsGiven(spec[j], field)
    else IsPlainObject(names, field.name, field)
  }

  /** What validation returns. */
  lemma ReturnsExactly(spec: seq<Field>)
    requires Validated(spec).Some?
    ensures IsCompletionOf(spec, Validated(spec).value)
  {
    var m := AddedFields(map[], spec).value;
    AddedFieldsNamed(map[], spec);
    SameListing(spec, m);
    var t := Completed(m);
    PickedFields(t, SortedNames(t.Keys));
    var q := FieldsInOrder(t);
    forall n ensures n in NamesIn(q) <==> exists k :: k in NamesIn(spec) && n <= k {
      InClosure(m.Keys, n);
    }
    forall i | 0 <= i < |q| ensures IsEntry(spec, NamesIn(q), q[i]) {
      EntryIs(m, spec, q[i].name);
    }
  }

  lemma EntryIs(m: Table, spec: seq<Field>, n: Path)
    requires AddedFields(map[], spec) == Some(m) && Named(m) && Accepts(m) && m.Keys == NamesIn(spec)
    requires n in Completed(m)
    ensures IsEntry(spec, Completed(m).Keys, Completed(m)[n])
  {
    CompletedEntries(m, n);
    forall j | 0 <= j < |spec| && spec[j].name == n ensures IsGiven(spec[j], Completed(m)[n]) {
      GivenStays(m, spec, j);
    }
  }

  lemma PickedFields(t: Table, order: seq<Path>)
    requires Named(t) && order == SortedNames(t.Keys)
    ensures forall n :: n in order <==> n in t
    ensures var q := Pick(t, order);
            |q| == |order| && (forall i :: 0 <= i < |q| ==> q[i] == t[order[i]] && q[i].name == order[i]) && NamesIn(q) == t.Keys
  {
    assert forall n :: n in order <==> n in Elements(order);
    PickedAt(t, order);
    var q := Pick(t, order);
    forall n ensures n in NamesIn(q) <==> n in t.Keys {
      if n in t.Keys {
        var i :| 0 <= i < |order| && order[i] == n;
        assert q[i].name == n;
      }
    }
  }

  lemma {:induction false} PickedAt(t: Table, order: seq<Path>)
    requires forall n :: n in order ==> n in t
    ensures |Pick(t, order)| == |order| && forall i :: 0 <= i < |order| ==> Pick(t, order)[i] == t[order[i]]
  {
    if order != [] {
      assert order == [order[0]] + order[1..];
      PickedAt(t, order[1..]);
    }
  }

  lemma GivenStays(m: Table, spec: seq<Field>, j: nat)
    requires AddedFields(map[], spec) == Some(m) && Named(m) && Accepts(m) && j < |spec|
    ensures spec[j].name in m && IsGiven(spec[j], m[spec[j].name])
  {
    ParsedFields(map[], spec);
    var n := spec[j].name;
    NormalizeExactly(spec[j].kind);
    assert ListsGivenFields(m, n);
  }

  // -------------------------------------------------------- room for values

  /** The field takes the value wherever it occurs. */
  ghost predicate TakesAnywhere(env: Env, t: Table, n: Path, value: Value)
    requires n in t
  {
    forall v, optional :: Updated(env, t, v, n, optional, value) == Ok(value)
  }

  /** A number or text field with room for a value takes it. */
  lemma TakesSome(env: Env, t: Table, n: Path)
    requires n in t && KindOk(t[n].kind) && (t[n].kind.Integer? || t[n].kind.Number? || t[n].kind.String?)
    ensures exists value :: TakesAnywhere(env, t, n, value)
  {
    KindOkExactly(t[n].kind);
    var value := match t[n].kind
      case Integer(_, lo, hi) => (var i: I64 :| Between(i, lo, hi); Num(Whole(i)))
      case Number(_, lo, hi) => (var r :| RealBetween(r, lo, hi); Num(Fraction(r)))
      case String(_, k) => (var length: U32 :| HasLength(length, k); Str(seq(length, _ => 'a')));
    forall v, optional ensures Updated(env, t, v, n, optional, value) == Ok(value) {
      LeafUpdateExactly(env, t[n].kind, v, optional || t[n].optional, value);
    }
    assert TakesAnywhere(env, t, n, value);
  }

  /** Every number and text field of a validated model takes some value. */
  lemma ValidatedFieldsTakeSome(env: Env, items: seq<Item>, n: Path)
    requires ValidatedItems(items).Some? && n in TableOf(ValidatedItems(items).value)
    requires var kind := TableOf(ValidatedItems(items).value)[n].kind; kind.Integer? || kind.Number? || kind.String?
    ensures exists value :: TakesAnywhere(env, TableOf(ValidatedItems(items).value), n, value)
  {
    var m := AddedItems(map[], items).value;
    AddedItemsNamed(map[], items);
    AddedItemsNormalized(map[], items);
    CompletedNormalized(m);
    TableOfValidated(Completed(m));
    TakesSome(env, Completed(m), n);
  }
}
