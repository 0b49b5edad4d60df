/** The model validator: a flat list of fields becomes a closed tree.

    `ModelFieldsParser` follows the source statement by statement. `Accepts`
    and `Completed` say, without reference to any processing order, when
    `Finalize` succeeds and what it returns. */
module Validator {
  import opened Results
  import opened Names
  import opened Schema
  import opened Order

  datatype Error =
    | InvalidName(name: Path)
    | ConflictedName(name: Path)
    | InvalidKind(name: Path)
    | NotAChild(parent: Path, child: Path)
    | NoSuchField(parent: Path, child: Path)
    | ChildrenMismatch(parent: Path)

  function NameKey(n: Path): string {
    Render(n)
  }

  ghost predicate ArePaths(names: set<Path>) {
    forall n :: n in names ==> IsPath(n)
  }

  lemma PathsInjective(names: set<Path>)
    requires ArePaths(names)
    ensures InjectiveOn(names, NameKey)
  {
    forall x, y | x in names && y in names && NameKey(x) == NameKey(y) ensures x == y {
      RenderInjective(x, y);
    }
  }

  function SortedNames(names: set<Path>): (q: seq<Path>)
    requires ArePaths(names)
    ensures Elements(q) == names
    ensures SortedBy(q, NameKey)
  {
    PathsInjective(names);
    Sorted(names, NameKey)
  }

  /** Children are stored through a `BTreeSet`: sorted, without repetitions.
      A list with a malformed name is left alone; it never survives `Finalize`. */
  function Normalize(kind: Kind): Kind {
    match kind.Children()
    case None => kind
    case Some(children) =>
      if forall c :: c in children ==> IsPath(c) then
        assert ArePaths(Elements(children)) by { assert forall c :: c in Elements(children) ==> c in children; }
        kind.WithChildren(SortedNames(Elements(children)))
      else kind
  }

  function NormalizeField(field: Field): Field {
    field.(kind := Normalize(field.kind))
  }

  lemma NormalizeKeepsChildren(kind: Kind)
    ensures Normalize(kind).Children().Some? <==> kind.Children().Some?
    ensures kind.Children().Some? ==>
              Elements(Normalize(kind).Children().value) == Elements(kind.Children().value)
    ensures KindOk(Normalize(kind)) <==> KindOk(kind)
  {
  }

  /** Normalizing twice changes nothing. */
  lemma NormalizeIdempotent(kind: Kind)
    ensures Normalize(Normalize(kind)) == Normalize(kind)
  {
    if kind.Children().Some? {
      var children := kind.Children().value;
      if forall c :: c in children ==> IsPath(c) {
        assert ArePaths(Elements(children));
        var s := SortedNames(Elements(children));
        assert forall c :: c in s ==> c in Elements(s);
        SortedUnique(SortedNames(Elements(s)), s, NameKey);
      }
    }
  }

  /** The keys of the map are the names of its fields. */
  ghost predicate Named(m: Table) {
    forall n :: n in m ==> IsPath(n) && m[n].name == n
  }

  function Generated(n: Path, names: set<Path>): Field
    requires ArePaths(names)
  {
    Field(n, Object(SortedNames(DirectChildren(names, n)), Static), false)
  }

  lemma ClosureOfPaths(names: set<Path>)
    requires ArePaths(names)
    ensures ArePaths(Closure(names))
  {
    forall n | n in Closure(names) ensures IsPath(n) {
      InClosure(names, n);
      var k :| k in names && n <= k;
      assert forall i :: 0 <= i < |n| ==> n[i] == k[i];
    }
  }

  lemma ClosureIsClosed(names: set<Path>)
    ensures names <= Closure(names)
    ensures forall n :: n in Closure(names) && n != [] ==> n[..|n| - 1] in Closure(names)
  {
    forall n | n in names ensures n in Closure(names) {
      InClosure(names, n);
    }
    forall n | n in Closure(names) && n != [] ensures n[..|n| - 1] in Closure(names) {
      InClosure(names, n);
      var k :| k in names && n <= k;
      assert n[..|n| - 1] <= k;
      InClosure(names, n[..|n| - 1]);
    }
  }

  /** The explicit fields completed by an object for every missing ancestor. */
  ghost function Completed(m: Table): (t: Table)
    requires Named(m)
    ensures t.Keys == Closure(m.Keys) && Named(t)
  {
    ClosureOfPaths(m.Keys);
    map n | n in Closure(m.Keys) :: if n in m then m[n] else Generated(n, Closure(m.Keys))
  }

  /** The children an explicit aggregate lists are given fields at or below it. */
  ghost predicate ListsGivenFields(m: Table, n: Path)
    requires n in m
  {
    match m[n].kind.Children()
    case None => true
    case Some(children) => forall c :: c in children ==> n <= c && c in m
  }

  /** In the name set `names`, the aggregate lists exactly its direct children. */
  ghost predicate ListsChildren(m: Table, names: set<Path>, n: Path)
    requires n in m
  {
    match m[n].kind.Children()
    case None => true
    case Some(children) => Elements(children) == DirectChildren(names, n)
  }

  /** When `Finalize` succeeds. A field without descendants escapes the exact
      check, so it may list itself. */
  ghost predicate Accepts(m: Table) {
    && (forall n :: n in m ==> ListsGivenFields(m, n))
    && (forall n, k :: n in m && k in m && n < k ==> ListsChildren(m, Closure(m.Keys), n))
  }

  function FieldsInOrder(m: Table): seq<Field>
    requires Named(m)
  {
    var order := SortedNames(m.Keys);
    assert forall n :: n in order ==> n in Elements(order);
    Pick(m, order)
  }

  function Pick(m: Table, order: seq<Path>): seq<Field>
    requires forall n :: n in order ==> n in m
  {
    if order == [] then [] else [m[order[0]]] + Pick(m, order[1..])
  }

  /** The state in the middle of `Finalize`: explicit fields are untouched and
      generated objects list their direct children, except perhaps at `stale`. */
  ghost predicate InProgress(m0: Table, m: Table, generated: set<Path>, stale: Option<Path>) {
    && Named(m0) && Named(m)
    && m0.Keys <= m.Keys
    && generated == m.Keys - m0.Keys
    && (forall n :: n in m0 ==> m[n] == m0[n])
    && (forall g :: g in generated && Some(g) != stale ==> m[g] == Generated(g, m.Keys))
  }

  /** Names were only added above or at `name`. */
  ghost predicate Grown(before: set<Path>, after: set<Path>, name: Path) {
    before <= after && forall x :: x in after && x !in before ==> x <= name
  }

  /** Explicit aggregates other than `but` that list their direct children
      among `before` also do so among `after`. */
  ghost predicate StillListed(m0: Table, before: set<Path>, after: set<Path>, but: Option<Path>) {
    forall n :: n in m0 && Some(n) != but && ListsChildren(m0, before, n) ==> ListsChildren(m0, after, n)
  }

  /** Some explicit aggregate at or above `name` does not list its direct children. */
  ghost predicate Mislisted(m0: Table, names: set<Path>, name: Path) {
    exists n :: n in m0 && n <= name && !ListsChildren(m0, names, n)
  }

  /** Explicit aggregates strictly above `name`, of length `k` or more, list their direct children. */
  ghost predicate ListedFrom(m0: Table, names: set<Path>, name: Path, k: nat) {
    forall n :: n in m0 && n < name && k <= |n| ==> ListsChildren(m0, names, n)
  }

  /** The proper prefixes of `name` of length `k` or more are present. */
  ghost predicate PresentFrom(names: set<Path>, name: Path, k: nat) {
    forall x :: x < name && k <= |x| ==> x in names
  }

  /** The climb from `name` has handled its proper prefixes of length `k` or more. */
  ghost predicate Climbed(m0: Table, start: set<Path>, m: Table, generated: set<Path>, name: Path, k: nat) {
    && InProgress(m0, m, generated, None)
    && PresentFrom(m.Keys, name, k)
    && ListedFrom(m0, m.Keys, name, k)
    && StillListed(m0, start, m.Keys, None)
  }

  function Depth(n: Option<Path>): nat {
    if n.Some? then 1 + |n.value| else 0
  }

  /** What making the object `name` and its missing ancestors establishes; when
      it fails, an explicit aggregate above does not list its direct children. */
  ghost predicate ParentMade(m0: Table, before: set<Path>, m: Table, generated: set<Path>, name: Option<Path>, ok: bool) {
    && (name.None? ==> m.Keys == before)
    && (name.Some? ==> Grown(before, m.Keys, name.value))
    && (ok ==> InProgress(m0, m, generated, None) && StillListed(m0, before, m.Keys, name))
    && (ok && name.Some? ==> name.value in m && (name.value in m0 ==> ListsChildren(m0, m.Keys, name.value)))
    && (!ok ==> name.Some? && Mislisted(m0, m.Keys, name.value))
  }

  function PrefixAll(parent: Path, names: seq<Path>): seq<Path> {
    seq(|names|, i requires 0 <= i < |names| => parent + names[i])
  }

  /** A field of a merged model, moved below `parent`. */
  function Prefixed(parent: Path, field: Field): Field {
    var moved := field.(name := parent + field.name);
    match field.kind.Children()
    case None => moved
    case Some(children) => moved.(kind := field.kind.WithChildren(PrefixAll(parent, children)))
  }

  predicate Mergeable(parent: Path, field: Field) {
    && IsPath(parent) && IsPath(field.name) && KindOk(field.kind)
    && (field.kind.Children().Some? ==> forall c :: c in field.kind.Children().value ==> IsPath(c))
  }

  /** The table after merging a model below `parent`, unless a name clashes. */
  function AddedModel(m: Table, parent: Path, model: seq<Field>): Option<Table>
    decreases |model|
  {
    if model == [] then Some(m)
    else
      var field := model[0];
      if Mergeable(parent, field) && parent + field.name !in m then
        AddedModel(m[parent + field.name := NormalizeField(Prefixed(parent, field))], parent, model[1..])
      else None
  }

  /** The table after parsing native fields one by one. */
  function AddedFields(m: Table, spec: seq<Field>): Option<Table>
    decreases |spec|
  {
    if spec == [] then Some(m)
    else
      var field := spec[0];
      if IsPath(field.name) && KindOk(field.kind) && field.name !in m then
        AddedFields(m[field.name := NormalizeField(field)], spec[1..])
      else None
  }

  lemma {:induction false} AddedFieldsNamed(m: Table, spec: seq<Field>)
    requires Named(m) && AddedFields(m, spec).Some?
    ensures Named(AddedFields(m, spec).value)
    decreases |spec|
  {
    if spec != [] {
      AddedFieldsNamed(m[spec[0].name := NormalizeField(spec[0])], spec[1..]);
    }
  }

  /** The result of validation: what `validate_native_fields` returns, and `None`
      when it fails. */
  ghost function Validated(spec: seq<Field>): Option<seq<Field>> {
    match ValidatedTable(spec)
    case None => None
    case Some(t) => Some(FieldsInOrder(t))
  }

  ghost function ValidatedTable(spec: seq<Field>): (t: Option<Table>)
    ensures t.Some? ==> Named(t.value)
  {
    match AddedFields(map[], spec)
    case None => None
    case Some(m) =>
      AddedFieldsNamed(map[], spec);
      if Accepts(m) then Some(Completed(m)) else None
  }

  /** An item of a model specification: a native field, or a reference to an
      already validated model to be merged below a name. */
  datatype Item = Native(field: Field) | Reference(at: Path, model: seq<Field>)

  /** The table after parsing the items one by one. */
  function AddedItems(m: Table, items: seq<Item>): Option<Table>
    decreases |items|
  {
    if items == [] then Some(m)
    else
      var added := match items[0]
        case Native(field) => AddedFields(m, [field])
        case Reference(at, model) => AddedModel(m, at, model);
      if added.Some? then AddedItems(added.value, items[1..]) else None
  }

  lemma AddedOne(m: Table, field: Field)
    ensures AddedFields(m, [field]) ==
            if IsPath(field.name) && KindOk(field.kind) && field.name !in m
            then Some(m[field.name := NormalizeField(field)]) else None
  {
  }

  lemma {:induction false} AddedModelNamed(m: Table, parent: Path, model: seq<Field>)
    requires Named(m) && AddedModel(m, parent, model).Some?
    ensures Named(AddedModel(m, parent, model).value)
    decreases |model|
  {
    if model != [] {
      var n := parent + model[0].name;
      AddedModelNamed(m[n := NormalizeField(Prefixed(parent, model[0]))], parent, model[1..]);
    }
  }

  lemma {:induction false} AddedItemsNamed(m: Table, items: seq<Item>)
    requires Named(m) && AddedItems(m, items).Some?
    ensures Named(AddedItems(m, items).value)
    decreases |items|
  {
    if items != [] {
      match items[0] {
        case Native(field) =>
          AddedFieldsNamed(m, [field]);
          AddedItemsNamed(AddedFields(m, [field]).value, items[1..]);
        case Reference(at, model) =>
          AddedModelNamed(m, at, model);
          AddedItemsNamed(AddedModel(m, at, model).value, items[1..]);
      }
    }
  }

  /** The result of `validate_fields`, and `None` when it fails. */
  ghost function ValidatedItems(items: seq<Item>): Option<seq<Field>> {
    match AddedItems(map[], items)
    case None => None
    case Some(m) =>
      AddedItemsNamed(map[], items);
      if Accepts(m) then Some(FieldsInOrder(Completed(m))) else None
  }

  method ValidateFields(items: seq<Item>) returns (r: Result<seq<Field>, Error>)
    ensures r.Ok? <==> ValidatedItems(items).Some?
    ensures r.Ok? ==> r.value == ValidatedItems(items).value
  {
    var parser := new ModelFieldsParser();
    var parsed: Result<(), Error> := Ok(());
    var i := 0;
    while i < |items| && parsed.Ok?
      invariant 0 <= i <= |items|
      invariant parsed.Ok? ==> AddedItems(map[], items) == AddedItems(parser.fields, items[i..])
      invariant parsed.Err? ==> AddedItems(map[], items).None?
    {
      match items[i] {
        case Native(field) =>
          AddedOne(parser.fields, field);
          parsed := parser.ParseField(field);
        case Reference(at, model) =>
          parsed := parser.MergeFields(at, model);
      }
      i := i + 1;
    }
    if parsed.Err? {
      return Err(parsed.error);
    }
    AddedItemsNamed(map[], items);
    r := parser.Finalize();
  }

  method ValidateNativeFields(spec: seq<Field>) returns (r: Result<seq<Field>, Error>)
    ensures r.Ok? <==> Validated(spec).Some?
    ensures r.Ok? ==> r.value == Validated(spec).value
  {
    var parser := new ModelFieldsParser();
    var parsed: Result<(), Error> := Ok(());
    var i := 0;
    while i < |spec| && parsed.Ok?
      invariant 0 <= i <= |spec|
      invariant parsed.Ok? ==> Named(parser.fields)
      invariant parsed.Ok? ==> AddedFields(map[], spec) == AddedFields(parser.fields, spec[i..])
      invariant parsed.Err? ==> AddedFields(map[], spec).None?
    {
      parsed := parser.ParseField(spec[i]);
      i := i + 1;
    }
    if parsed.Err? {
      return Err(parsed.error);
    }
    r := parser.Finalize();
  }

  class ModelFieldsParser {
    var fields: Table

    constructor ()
      ensures fields == map[]
    {
      fields := map[];
    }

    method InsertField(field: Field) returns (r: Result<(), Error>)
      modifies this
      ensures fields == old(fields)[field.name := field]
      ensures r == if field.name in old(fields) then Err(ConflictedName(field.name)) else Ok(())
    {
      var known := field.name in fields;
      fields := fields[field.name := field];
      if known {
        return Err(ConflictedName(field.name));
      }
      return Ok(());
    }

    method ParseField(field: Field) returns (r: Result<(), Error>)
      modifies this
      ensures r.Ok? <==> IsPath(field.name) && KindOk(field.kind) && field.name !in old(fields)
      ensures r.Ok? <==> IsPath(field.name) && LeavesRoom(field.kind) && DefaultIsLegal(field.kind) && field.name !in old(fields)
      ensures r.Ok? ==> fields == old(fields)[field.name := NormalizeField(field)]
    {
      KindOkExactly(field.kind);
      if !IsPath(field.name) {
        return Err(InvalidName(field.name));
      }
      var kind := field.kind;
      var ok := true;
      match kind {
        case Integer(d, lo, hi) =>
          ok := AssertCmp(d, hi) && AssertCmp(lo, d) && AssertCmp(lo, hi);
        case Number(d, lo, hi) =>
          ok := AssertRealCmp(d, hi) && AssertRealCmp(lo, d) && AssertRealCmp(lo, hi);
        case String(d, FixedLength(n)) =>
          if d.Some? {
            ok := |d.value| < 0x1_0000_0000 && AssertCmp(Some(|d.value|), Some(n)) && AssertCmp(Some(n), Some(|d.value|));
          }
        case String(d, LengthRange(lo, hi)) =>
          var shortest: Option<int> := match lo case None => None case Some(l) => Some(l);
          if d.Some? {
            ok := |d.value| < 0x1_0000_0000 && AssertCmp(Some(|d.value|), Some(hi)) && AssertCmp(shortest, Some(|d.value|));
          }
          ok := ok && AssertCmp(shortest, Some(hi));
        case OneOfStrings(d, choices) =>
          ok := d.Some? ==> d.value in choices;
        case _ =>
          kind := Normalize(kind);
      }
      if !ok {
        return Err(InvalidKind(field.name));
      }
      r := InsertField(field.(kind := kind));
    }

    method MergeField(parent: Path, field: Field) returns (r: Result<(), Error>)
      modifies this
      ensures r.Ok? <==> Mergeable(parent, field) && parent + field.name !in old(fields)
      ensures r.Ok? <==> && IsPath(parent) && IsPath(field.name) && parent + field.name !in old(fields)
                         && LeavesRoom(field.kind) && DefaultIsLegal(field.kind)
                         && (field.kind.Object? ==> forall c :: c in field.kind.objectChildren ==> IsPath(c))
                         && (field.kind.ObjectArray? ==> forall c :: c in field.kind.elementChildren ==> IsPath(c))
      ensures r.Ok? ==> fields == old(fields)[parent + field.name := NormalizeField(Prefixed(parent, field))]
    {
      KindOkExactly(field.kind);
      if !IsPath(parent) {
        return Err(InvalidName(parent));
      }
      if !IsPath(field.name) {
        return Err(InvalidName(field.name));
      }
      var merged := field.(name := parent + field.name);
      if field.kind.Children().Some? {
        var children := field.kind.Children().value;
        var renamed: seq<Path> := [];
        for i := 0 to |children|
          invariant renamed == PrefixAll(parent, children[..i])
          invariant forall c :: c in children[..i] ==> IsPath(c)
        {
          if !IsPath(children[i]) {
            assert children[i] in children;
            return Err(InvalidName(children[i]));
          }
          assert children[..i + 1] == children[..i] + [children[i]];
          renamed := renamed + [parent + children[i]];
        }
        assert children[..|children|] == children;
        merged := merged.(kind := field.kind.WithChildren(renamed));
      }
      r := ParseField(merged);
    }

    method MergeFields(parent: Path, model: seq<Field>) returns (r: Result<(), Error>)
      modifies this
      ensures r.Ok? <==> AddedModel(old(fields), parent, model).Some?
      ensures r.Ok? ==> fields == AddedModel(old(fields), parent, model).value
    {
      r := Ok(());
      ghost var start := fields;
      var i := 0;
      while i < |model| && r.Ok?
        invariant 0 <= i <= |model|
        invariant r.Ok? ==> AddedModel(start, parent, model) == AddedModel(fields, parent, model[i..])
        invariant r.Err? ==> AddedModel(start, parent, model).None?
      {
        r := MergeField(parent, model[i]);
        i := i + 1;
      }
    }

    method CreateParentObject(ghost m0: Table, generated: set<Path>, name: Option<Path>)
      returns (r: Result<(), Error>, generated': set<Path>)
      requires InProgress(m0, fields, generated, name)
      requires name.Some? ==> IsPath(name.value)
      modifies this
      ensures ParentMade(m0, old(fields.Keys), fields, generated', name, r.Ok?)
      decreases Depth(name)
    {
      r, generated' := Ok(()), generated;
      if name.Some? {
        var n := name.value;
        var children := DirectChildren(fields.Keys, n);
        if n in fields && n !in generated {
          var given := fields[n].kind.Children();
          if given.Some? && children != Elements(given.value) {
            r := Err(ChildrenMismatch(n));
          }
        } else {
          ghost var before := fields;
          InsertGenerated(m0, fields, generated, n);
          fields := fields[n := Field(n, Object(SortedNames(children), Static), false)];
          ghost var after := fields;
          r, generated' := CreateParentObject(m0, generated + {n}, Parent(n));
          GeneratedMade(m0, before.Keys, after.Keys, fields, generated', n, r.Ok?);
        }
      }
    }

    method CreateParentObjects(ghost m0: Table, generated: set<Path>, name: Path)
      returns (r: Result<(), Error>, generated': set<Path>)
      requires InProgress(m0, fields, generated, None)
      requires name in m0
      modifies this
      ensures Grown(old(fields.Keys), fields.Keys, name)
      ensures r.Ok? ==> Climbed(m0, old(fields.Keys), fields, generated', name, 0)
      ensures r.Err? ==> name != [] && Mislisted(m0, fields.Keys, name[..|name| - 1])
    {
      r, generated' := Ok(()), generated;
      var current := Some(name);
      ghost var start := fields.Keys;
      while current.Some? && r.Ok?
        invariant Climbing(m0, start, fields, generated', name, current, r.Ok?)
        decreases Depth(current)
      {
        ghost var before := fields;
        var child := current.value;
        current := Parent(child);
        MayBeStale(m0, fields, generated', name, child);
        r, generated' := CreateParentObject(m0, generated', current);
        ClimbStep(m0, start, before, fields, generated', name, child, r.Ok?);
      }
    }

    /** One round of the loop in `Finalize`. */
    method FinalizeField(explicit: Table, generated: set<Path>, ghost done: seq<Path>, name: Path)
      returns (r: Result<(), Error>, generated': set<Path>)
      requires Handled(explicit, fields, generated, done) && name in explicit
      modifies this
      ensures r.Ok? ==> Handled(explicit, fields, generated', done + [name])
      ensures r.Err? ==> !Accepts(explicit)
    {
      generated' := generated;
      r := AssertAggregationType(explicit, name);
      if r.Ok? {
        ghost var before := fields;
        r, generated' := CreateParentObjects(explicit, generated, name);
        if r.Ok? {
          HandledStep(explicit, before, generated, fields, generated', done, name);
        } else {
          HandledGrows(explicit, before.Keys, fields.Keys, name);
          MislistedRejects(explicit, fields.Keys, name);
        }
      }
    }

    method Finalize() returns (r: Result<seq<Field>, Error>)
      requires Named(fields)
      modifies this
      ensures r.Ok? <==> Accepts(old(fields))
      ensures r.Ok? ==> fields == Completed(old(fields)) && r.value == FieldsInOrder(fields)
    {
      var explicit := fields;
      var keys := SortedNames(fields.Keys);
      var checked: Result<(), Error> := Ok(());
      var generated: set<Path> := {};
      ghost var done: seq<Path> := [];
      var i := 0;
      while i < |keys| && checked.Ok?
        invariant 0 <= i <= |keys|
        invariant checked.Ok? ==> |done| == i && (forall j :: 0 <= j < i ==> done[j] == keys[j])
        invariant checked.Ok? ==> Handled(explicit, fields, generated, done)
        invariant checked.Err? ==> !Accepts(explicit)
      {
        assert keys[i] in Elements(keys);
        checked, generated := FinalizeField(explicit, generated, done, keys[i]);
        done := done + [keys[i]];
        i := i + 1;
      }
      if checked.Err? {
        return Err(checked.error);
      }
      AllHandled(explicit, fields, generated, done, keys);
      return Ok(FieldsInOrder(fields));
    }
  }

  /** `assert_aggregation_type`: each child starts with the name and is a given field. */
  function AssertAggregationType(m: Table, name: Path): (r: Result<(), Error>)
    requires name in m
    ensures r.Ok? <==> ListsGivenFields(m, name)
  {
    match m[name].kind.Children()
    case None => Ok(())
    case Some(children) => AssertChildren(m.Keys, name, children)
  }

  function AssertChildren(keys: set<Path>, name: Path, children: seq<Path>): (r: Result<(), Error>)
    ensures r.Ok? <==> forall c :: c in children ==> name <= c && c in keys
  {
    if children == [] then Ok(())
    else
      assert children[0] in children;
      if !(name <= children[0]) then Err(NotAChild(name, children[0]))
      else if children[0] !in keys then Err(NoSuchField(name, children[0]))
      else
        assert children == [children[0]] + children[1..];
        AssertChildren(keys, name, children[1..])
  }

  /** Every name present is a given field or an ancestor of one. */
  ghost predicate Above(m0: Table, names: set<Path>) {
    forall x :: x in names && x !in m0 ==> exists k :: k in m0 && x <= k
  }

  /** The names in `done` have passed every check of `Finalize`. */
  ghost predicate Handled(m0: Table, m: Table, generated: set<Path>, done: seq<Path>) {
    && InProgress(m0, m, generated, None)
    && Above(m0, m.Keys)
    && (forall k :: k in done ==> k in m0 && PassedAt(m0, m.Keys, k))
  }

  ghost predicate PassedAt(m0: Table, names: set<Path>, k: Path)
    requires k in m0
  {
    ListsGivenFields(m0, k) && PresentFrom(names, k, 0) && ListedFrom(m0, names, k, 0)
  }

  lemma HandledGrows(m0: Table, before: set<Path>, after: set<Path>, name: Path)
    requires name in m0 && Above(m0, before) && Grown(before, after, name)
    ensures Above(m0, after)
  {
  }

  lemma PassedGrows(m0: Table, before: set<Path>, after: set<Path>, k: Path)
    requires k in m0 && PassedAt(m0, before, k)
    requires before <= after && StillListed(m0, before, after, None)
    ensures PassedAt(m0, after, k)
  {
  }

  lemma HandledStep(m0: Table, before: Table, known: set<Path>, after: Table, generated: set<Path>, done: seq<Path>, name: Path)
    requires Handled(m0, before, known, done)
    requires name in m0 && ListsGivenFields(m0, name)
    requires Grown(before.Keys, after.Keys, name)
    requires Climbed(m0, before.Keys, after, generated, name, 0)
    ensures Handled(m0, after, generated, done + [name])
  {
    HandledGrows(m0, before.Keys, after.Keys, name);
    forall k | k in done + [name] ensures k in m0 && PassedAt(m0, after.Keys, k) {
      if k in done {
        PassedGrows(m0, before.Keys, after.Keys, k);
      } else {
        assert k == name;
      }
    }
  }

  /** A mislisted aggregate above a given field means the fields are not accepted:
      given children cannot appear later, and generated ones are never listed. */
  lemma MislistedRejects(m0: Table, names: set<Path>, name: Path)
    requires name in m0 && name != []
    requires m0.Keys <= names && Above(m0, names)
    requires Mislisted(m0, names, name[..|name| - 1])
    ensures !Accepts(m0)
  {
    var n :| n in m0 && n <= name[..|name| - 1] && !ListsChildren(m0, names, n);
    assert n < name;
    if ListsGivenFields(m0, n) {
      StaysMislisted(m0, names, n);
    }
  }

  lemma StaysMislisted(m0: Table, names: set<Path>, n: Path)
    requires n in m0 && m0.Keys <= names && Above(m0, names)
    requires ListsGivenFields(m0, n) && !ListsChildren(m0, names, n)
    ensures !ListsChildren(m0, Closure(m0.Keys), n)
  {
    var given := Elements(m0[n].kind.Children().value);
    var c :| (c in given) != (c in DirectChildren(names, n));
    InClosure(m0.Keys, c);
    assert (c in given) != (c in DirectChildren(Closure(m0.Keys), n));
  }

  lemma AllHandled(m0: Table, m: Table, generated: set<Path>, done: seq<Path>, keys: seq<Path>)
    requires Handled(m0, m, generated, done)
    requires |done| == |keys| && forall j :: 0 <= j < |keys| ==> done[j] == keys[j]
    requires Elements(keys) == m0.Keys
    ensures Accepts(m0) && m == Completed(m0)
  {
    assert done == keys;
    forall k | k in m0 ensures PassedAt(m0, m.Keys, k) {
      assert k in Elements(keys);
    }
    HandledNames(m0, m.Keys);
    PassedAccepts(m0, m.Keys);
    HandledTable(m0, m, generated);
  }

  lemma HandledTable(m0: Table, m: Table, generated: set<Path>)
    requires InProgress(m0, m, generated, None)
    requires m.Keys == Closure(m0.Keys)
    ensures m == Completed(m0)
  {
    forall n | n in m ensures m[n] == Completed(m0)[n] {
      if n !in m0 {
        assert n in generated;
      }
    }
  }

  lemma PassedAccepts(m0: Table, names: set<Path>)
    requires forall k :: k in m0 ==> PassedAt(m0, names, k)
    requires names == Closure(m0.Keys)
    ensures Accepts(m0)
  {
    forall n, k | n in m0 && k in m0 && n < k ensures ListsChildren(m0, names, n) {
      assert PassedAt(m0, names, k);
    }
  }

  lemma HandledNames(m0: Table, names: set<Path>)
    requires m0.Keys <= names && Above(m0, names)
    requires forall k :: k in m0 ==> PassedAt(m0, names, k)
    ensures names == Closure(m0.Keys)
  {
    forall x ensures x in names <==> x in Closure(m0.Keys) {
      InClosure(m0.Keys, x);
      if x in Closure(m0.Keys) {
        var k :| k in m0.Keys && x <= k;
        assert x == k || x < k;
        assert PassedAt(m0, names, k);
      }
    }
  }

  function AssertCmp(a: Option<int>, b: Option<int>): bool {
    a.Some? && b.Some? ==> a.value <= b.value
  }

  function AssertRealCmp(a: Option<real>, b: Option<real>): bool {
    a.Some? && b.Some? ==> a.value <= b.value
  }

  ghost predicate Climbing(m0: Table, start: set<Path>, m: Table, generated: set<Path>, name: Path, current: Option<Path>, ok: bool) {
    && (current.Some? ==> current.value <= name)
    && Grown(start, m.Keys, name)
    && (ok ==> Climbed(m0, start, m, generated, name, if current.Some? then |current.value| else 0))
    && (!ok ==> name != [] && Mislisted(m0, m.Keys, name[..|name| - 1]))
  }

  lemma MayBeStale(m0: Table, m: Table, generated: set<Path>, name: Path, child: Path)
    requires InProgress(m0, m, generated, None) && name in m0 && child <= name
    ensures InProgress(m0, m, generated, Parent(child))
    ensures child != [] ==> IsPath(child[..|child| - 1])
  {
    assert IsPath(name);
    assert forall i :: 0 <= i < |child| ==> child[i] == name[i];
  }

  lemma ClimbStep(m0: Table, start: set<Path>, before: Table, m: Table, generated: set<Path>, name: Path, child: Path,
                  ok: bool)
    requires child <= name && Grown(start, before.Keys, name)
    requires PresentFrom(before.Keys, name, |child|) && ListedFrom(m0, before.Keys, name, |child|)
    requires StillListed(m0, start, before.Keys, None)
    requires ParentMade(m0, before.Keys, m, generated, Parent(child), ok)
    ensures Climbing(m0, start, m, generated, name, Parent(child), ok)
  {
    if child != [] {
      StepUp(m0, start, before.Keys, m.Keys, name, child[..|child| - 1], ok);
    }
  }

  /** One round of the climb in `CreateParentObjects`: the parent `p` was handled. */
  lemma StepUp(m0: Table, start: set<Path>, before: set<Path>, after: set<Path>, name: Path, p: Path, ok: bool)
    requires p < name
    requires Grown(start, before, name) && Grown(before, after, p)
    ensures Grown(start, after, name)
    requires ok ==> p in after && StillListed(m0, before, after, Some(p))
    requires ok && p in m0 ==> ListsChildren(m0, after, p)
    requires PresentFrom(before, name, |p| + 1) && ListedFrom(m0, before, name, |p| + 1)
    requires StillListed(m0, start, before, None)
    ensures ok ==> PresentFrom(after, name, |p|) && ListedFrom(m0, after, name, |p|)
    ensures ok ==> StillListed(m0, start, after, None)
    ensures Mislisted(m0, after, p) ==> Mislisted(m0, after, name[..|name| - 1])
  {
    assert name[..|p|] == p;
    if ok {
      forall n | n < name && |p| <= |n| ensures n in after && (n in m0 ==> ListsChildren(m0, after, n)) {
        if |n| == |p| {
          assert n == name[..|p|];
        }
      }
    }
    if Mislisted(m0, after, p) {
      var n :| n in m0 && n <= p && !ListsChildren(m0, after, n);
      assert n <= name[..|name| - 1];
    }
  }

  /** A generated object was put at `n` and its ancestors were made after it. */
  lemma GeneratedMade(m0: Table, before: set<Path>, after: set<Path>, m: Table, generated: set<Path>, n: Path, ok: bool)
    requires n !in m0 && after == before + {n}
    requires StillListed(m0, before, after, Parent(n))
    requires ParentMade(m0, after, m, generated, Parent(n), ok)
    ensures ParentMade(m0, before, m, generated, Some(n), ok)
  {
    if ok && n != [] {
      var p := n[..|n| - 1];
      forall x | x in m0 && ListsChildren(m0, before, x) ensures ListsChildren(m0, m.Keys, x) {
        assert x != p ==> ListsChildren(m0, after, x);
      }
    }
  }

  /** Adding a generated object at `n` leaves only the parent of `n` stale. */
  lemma InsertGenerated(m0: Table, m: Table, generated: set<Path>, n: Path)
    requires InProgress(m0, m, generated, Some(n)) && IsPath(n) && n !in m0
    ensures ArePaths(DirectChildren(m.Keys, n))
    ensures var m' := m[n := Generated(n, m.Keys)];
            && InProgress(m0, m', generated + {n}, Parent(n))
            && StillListed(m0, m.Keys, m'.Keys, Parent(n))
  {
    var m' := m[n := Generated(n, m.Keys)];
    forall g | Some(g) != Parent(n) ensures DirectChildren(m'.Keys, g) == DirectChildren(m.Keys, g) {
    }
  }
}
