/** `ItemTemplate`: the engine at work on its map. */
module ItemTemplates {
  import opened Results
  import opened Names
  import opened Schema
  import opened Json
  import opened Template

  /** The map after entering an entry of the node under `p` and updating there. */
  function UpdatedInside(env: Env, t: Table, root: Value, p: Cursor, n: Path, e: Entry, optional: bool,
                         value: Value): Result<Value, Error>
    requires Reaches(root, p)
  {
    match Enter(t, Get(root, p), n, e)
    case Unknown => Ok(root)
    case Refused(error) => Err(error)
    case Inside(node, next) => EntryReplaced(root, p, node, e, Updated(env, t, At(node, e), next, optional, value))
  }

  /** The map after the entry of `node`, which is put under `p`, was replaced. */
  function EntryReplaced(root: Value, p: Cursor, node: Value, e: Entry, v: Result<Value, Error>): Result<Value, Error>
    requires Reaches(root, p) && Has(node, e)
  {
    match v case Err(error) => Err(error) case Ok(x) => Ok(Put(root, p, Set(node, e, x)))
  }

  /** Below a settled cursor, updating one entry only touches the node under it. */
  lemma UpdatedBelow(env: Env, t: Table, root: Value, p: Cursor, n: Path, e: Entry, optional: bool, value: Value)
    requires [] in t && Settled(t, root, p, n)
    ensures UpdatedAt(env, t, root, p + [e], optional, value) == UpdatedInside(env, t, root, p, n, e, optional, value)
  {
    WalkOneMore(t, root, p, n, e);
    var entered := Enter(t, Get(root, p), n, e);
    if entered.Inside? {
      UpdatedEntered(env, t, root, p, entered.node, e, entered.base, optional, value);
    }
  }

  lemma UpdatedEntered(env: Env, t: Table, root: Value, p: Cursor, node: Value, e: Entry, next: Path, optional: bool,
                       value: Value)
    requires Reaches(root, p) && Has(node, e) && next in t
    ensures Reaches(Put(root, p, node), p + [e])
    ensures UpdatedThere(env, t, Found(Put(root, p, node), next), p + [e], optional, value) ==
            EntryReplaced(root, p, node, e, Updated(env, t, At(node, e), next, optional, value))
  {
    PutBelow(root, p, node, e);
  }

  /** The node `v` after entering an entry and filling there. */
  function InsideWithin(depth: nat, env: Env, t: Table, v: Value, n: Path, e: Entry, optional: bool,
                        isAtom: bool): Option<Outcome>
  {
    match Enter(t, v, n, e)
    case Unknown => Some(Err(NoSuchField))
    case Refused(error) => Some(Err(error))
    case Inside(node, next) => EntryWithin(node, e, FilledWithin(depth, env, t, At(node, e), next, optional, isAtom))
  }

  function EntryWithin(node: Value, e: Entry, filled: Option<Outcome>): Option<Outcome>
    requires Has(node, e)
  {
    match filled
    case None => None
    case Some(Err(error)) => Some(Err(error))
    case Some(Ok(x)) => Some(Ok(Set(node, e, x)))
  }

  lemma FilledBelow(depth: nat, env: Env, t: Table, root: Value, p: Cursor, n: Path, e: Entry, optional: bool,
                    isAtom: bool)
    requires [] in t && Settled(t, root, p, n)
    ensures FilledWithinAt(depth, env, t, root, p + [e], optional, isAtom) ==
            ReplacedWithin(root, p, InsideWithin(depth, env, t, Get(root, p), n, e, optional, isAtom))
  {
    WalkOneMore(t, root, p, n, e);
    match Enter(t, Get(root, p), n, e)
    case Inside(node, next) => PutBelow(root, p, node, e);
    case _ =>
  }

  lemma PutBelow(root: Value, p: Cursor, node: Value, e: Entry)
    requires Reaches(root, p) && Has(node, e)
    ensures Reaches(Put(root, p, node), p + [e])
    ensures Get(Put(root, p, node), p + [e]) == At(node, e)
    ensures forall x :: Put(Put(root, p, node), p + [e], x) == Put(root, p, Set(node, e, x))
  {
    var w := Put(root, p, node);
    GetPut(root, p, node);
    Compose(w, p, [e], Null);
    forall x ensures Put(w, p + [e], x) == Put(root, p, Set(node, e, x)) {
      Compose(w, p, [e], x);
      PutPut(root, p, node, Set(node, e, x));
    }
  }

  /** Inheriting optionality from the field once more changes nothing. */
  lemma UpdatedInherits(env: Env, t: Table, v: Value, n: Path, optional: bool, value: Value)
    requires n in t
    ensures Updated(env, t, v, n, optional || t[n].optional, value) == Updated(env, t, v, n, optional, value)
  {
  }

  lemma FilledInherits(depth: nat, env: Env, t: Table, v: Value, n: Path, optional: bool, isAtom: bool)
    requires n in t
    ensures FilledWithin(depth, env, t, v, n, optional || t[n].optional, isAtom) ==
            FilledWithin(depth, env, t, v, n, optional, isAtom)
  {
  }

  class ItemTemplate {
    const basemap: Table
    var tree: Value

    constructor NewEmpty(parsed: seq<Field>)
      ensures basemap == TableOf(parsed) && tree == Null
    {
      basemap := TableOf(parsed);
      tree := Null;
    }

    method TryGetField(name: Cursor) returns (r: Result<Option<Field>, Error>)
      modifies this`tree
      ensures [] !in basemap ==> r == Err(NoRootField)
      ensures [] in basemap ==>
                match Walk(basemap, old(tree), [], name)
                case Found(w, n) => r == Ok(Some(basemap[n])) && tree == w
                case Absent(w) => r == Ok(None) && tree == w
                case Failed(e) => r == Err(e)
    {
      if [] !in basemap {
        return Err(NoRootField);
      }
      var base: Path := [];
      var status: Option<Walked> := None;
      ghost var goal := Walk(basemap, tree, [], name);
      EndsOf(name);
      var i := 0;
      while i < |name| && status.None?
        invariant 0 <= i <= |name| && base in basemap
        invariant status.None? ==> WalkedTo(basemap, tree, name[..i], base, name[i..], goal)
        invariant status.Some? ==> status == Some(goal) && !goal.Found?
        invariant status.Some? && goal.Absent? ==> tree == goal.tree
        decreases |name| - i, status.None?
      {
        var here := name[..i];
        NextOf(name, i);
        WalkStep(basemap, tree, here, base, name[i], name[i + 1..], goal);
        match Enter(basemap, Get(tree, here), base, name[i]) {
          case Unknown =>
            status := Some(Absent(tree));
          case Refused(e) =>
            status := Some(Failed(e));
          case Inside(node, next) =>
            tree := Put(tree, here, node);
            base := next;
            i := i + 1;
        }
      }
      match status {
        case Some(Absent(_)) => return Ok(None);
        case Some(Failed(e)) => return Err(e);
        case None =>
          PutGet(tree, name);
          return Ok(Some(basemap[base]));
      }
    }

    method GetField(name: Cursor) returns (r: Result<Field, Error>)
      modifies this`tree
      ensures [] !in basemap ==> r == Err(NoRootField)
      ensures [] in basemap ==>
                match Walk(basemap, old(tree), [], name)
                case Found(w, n) => r == Ok(basemap[n]) && tree == w
                case Absent(_) => r == Err(NoSuchField)
                case Failed(e) => r == Err(e)
    {
      var got := TryGetField(name);
      match got {
        case Err(e) => return Err(e);
        case Ok(None) => return Err(NoSuchField);
        case Ok(Some(field)) => return Ok(field);
      }
    }

    /** `update_field_value_impl`. */
    method UpdateFieldValue(env: Env, name: Cursor, value: Value, optional: bool) returns (r: Result<(), Error>)
      modifies this`tree
      ensures Performed(UpdatedAt(env, basemap, old(tree), name, optional, value), tree, r)
      decreases value, 2
    {
      ghost var walked := Walk(basemap, tree, [], name);
      var got := TryGetField(name);
      match got {
        case Err(e) =>
          r := Err(e);
        case Ok(None) =>
          r := Ok(());
        case Ok(Some(base)) =>
          WalkSettles(basemap, old(tree), name);
          UpdatedInherits(env, basemap, Get(tree, name), walked.base, optional, value);
          r := UpdateNode(env, name, walked.base, base, value, optional || base.optional);
      }
    }

    /** The match on the kind of the field found. */
    method UpdateNode(env: Env, name: Cursor, ghost n: Path, base: Field, value: Value, optional: bool) returns (r: Result<(), Error>)
      requires [] in basemap && Settled(basemap, tree, name, n)
      requires n in basemap && base == basemap[n] && optional == (optional || base.optional)
      modifies this`tree
      ensures Performed(Replaced(old(tree), name, Updated(env, basemap, Get(old(tree), name), n, optional, value)), tree, r)
      decreases value, 1
    {
      PutGet(tree, name);
      if base.kind.NoneKind? {
        tree := Put(tree, name, Null);
        r := Ok(());
      } else if base.kind.Object? {
        if !value.Obj? {
          r := AssertOptional(value, optional);
        } else if base.kind.objectKind.Dynamic? {
          tree := Put(tree, name, value);
          r := Ok(());
        } else {
          r := UpdateFields(env, name, n, optional, value);
        }
      } else if base.kind.ObjectArray? {
        if !value.Arr? {
          r := AssertOptional(value, optional);
        } else {
          r := UpdateItems(env, name, n, optional, value);
        }
      } else {
        r := UpdateLeaf(env, name, base, value, optional);
      }
    }

    /** The arms of the leaf kinds. */
    method UpdateLeaf(env: Env, name: Cursor, base: Field, value: Value, optional: bool) returns (r: Result<(), Error>)
      requires Reaches(tree, name)
      modifies this`tree
      ensures Performed(Replaced(old(tree), name, UpdatedLeaf(env, base.kind, Get(old(tree), name), optional, value)), tree, r)
    {
      PutGet(tree, name);
      match Check(env, base.kind, value) {
        case Accepted(x) =>
          tree := Put(tree, name, x);
          r := Ok(());
        case Mismatch =>
          r := AssertOptional(value, optional);
        case Rejected(e) =>
          r := Err(e);
      }
    }

    /** `fill_default_value`, wherever it comes to an end: `depth` bounds the nesting
        of the calls. */
    method FillDefaultValue(env: Env, name: Cursor, ghost depth: nat, optional: bool, isAtom: bool) returns (r: Result<(), Error>)
      requires FilledWithinAt(depth, env, basemap, tree, name, optional, isAtom).Some?
      modifies this`tree
      ensures Performed(FilledWithinAt(depth, env, basemap, old(tree), name, optional, isAtom).value, tree, r)
      decreases depth, 3
    {
      ghost var walked := Walk(basemap, tree, [], name);
      var got := GetField(name);
      if got.Err? {
        return Err(got.error);
      }
      WalkSettles(basemap, old(tree), name);
      FilledInherits(depth, env, basemap, Get(tree, name), walked.base, optional, isAtom);
      r := FillNode(env, name, depth, walked.base, got.value, optional || got.value.optional, isAtom);
    }

    /** The match on the kind of the field found. */
    method FillNode(env: Env, name: Cursor, ghost depth: nat, ghost n: Path, base: Field, optional: bool,
                    isAtom: bool) returns (r: Result<(), Error>)
      requires [] in basemap && Settled(basemap, tree, name, n)
      requires n in basemap && base == basemap[n] && optional == (optional || base.optional)
      requires FilledWithin(depth, env, basemap, Get(tree, name), n, optional, isAtom).Some?
      modifies this`tree
      ensures Performed(
          Replaced(old(tree), name, FilledWithin(depth, env, basemap, Get(old(tree), name), n, optional, isAtom).value), tree, r)
      ensures IsLeaf(base.kind) && Get(old(tree), name).Null? ==>
                LeafFilled(env, base.kind, old(tree), name, optional, tree, r)
      decreases depth, 2
    {
      PutGet(tree, name);
      r := Ok(());
      if base.kind.NoneKind? {
        tree := Put(tree, name, Null);
      } else if base.kind.ObjectArray? && isAtom {
        if Get(tree, name).Null? {
          tree := Put(tree, name, Arr([]));
        } else if Get(tree, name).Arr? {
          r := FillItems(env, name, depth, n, optional);
        }
      } else if base.kind.Children().Some? {
        ghost var before := tree;
        if Get(tree, name).Null? {
          PutSettled(basemap, tree, name, n, Obj(map[]));
          GetPut(tree, name, Obj(map[]));
          tree := Put(tree, name, Obj(map[]));
        }
        ghost var node := Get(tree, name);
        r := FillFields(env, name, depth, n, optional, base.kind.Children().value);
        ReplacedTwice(before, name, node, FieldsWithin(depth, env, basemap, node, n, optional, base.kind.Children().value).value);
      } else {
        var filled := FilledLeaf(env, base.kind, Get(tree, name), optional);
        FilledLeafExactly(env, base.kind, Get(tree, name), optional);
        if filled.Ok? {
          tree := Put(tree, name, filled.value);
        } else {
          r := Err(filled.error);
        }
      }
    }

    /** One round of the loop over the children. The root's name has no last component,
        and an empty entry leads nowhere. */
    method FillChild(env: Env, name: Cursor, ghost depth: nat, ghost n: Path, optional: bool, child: Path, ghost rest: seq<Path>,
                     ghost root: Value, ghost goal: Option<Outcome>) returns (r: Result<(), Error>)
      requires [] in basemap && n in basemap
      requires FieldsLeft(depth, env, basemap, root, tree, name, n, optional, [child] + rest, goal, Ok(()))
      modifies this`tree
      ensures FieldsLeft(depth, env, basemap, root, tree, name, n, optional, rest, goal, r)
      decreases depth, 0
    {
      ghost var before := tree;
      ChildFills(depth, env, basemap, tree, name, n, optional, child, rest);
      r := FillDefaultValue(env, ChildCursor(name, child), depth - 1, optional, true);
      FillFieldStep(depth, env, basemap, root, before, tree, name, n, optional, child, rest, r);
    }

    /** The loop over the children a field lists. */
    method FillFields(env: Env, name: Cursor, ghost depth: nat, ghost n: Path, optional: bool,
                      children: seq<Path>) returns (r: Result<(), Error>)
      requires [] in basemap && n in basemap && Settled(basemap, tree, name, n)
      requires depth > 0 && FieldsWithin(depth, env, basemap, Get(tree, name), n, optional, children).Some?
      modifies this`tree
      ensures Performed(
          Replaced(old(tree), name, FieldsWithin(depth, env, basemap, Get(old(tree), name), n, optional, children).value), tree, r)
      decreases depth, 1
    {
      ghost var root := tree;
      ghost var goal := FieldsWithin(depth, env, basemap, Get(root, name), n, optional, children);
      r := Ok(());
      PutGet(tree, name);
      EndsOf(children);
      var i := 0;
      while i < |children| && r.Ok?
        invariant 0 <= i <= |children|
        invariant FieldsLeft(depth, env, basemap, root, tree, name, n, optional, children[i..], goal, r)
      {
        NextOf(children, i);
        r := FillChild(env, name, depth, n, optional, children[i], children[i + 1..], root, goal);
        i := i + 1;
      }
    }

    /** One round of the loop over the elements. */
    method FillItem(env: Env, name: Cursor, ghost depth: nat, ghost n: Path, optional: bool, i: nat,
                    ghost root: Value, ghost goal: Option<Outcome>) returns (r: Result<(), Error>)
      requires [] in basemap && n in basemap && Reaches(tree, name) && Get(tree, name).Arr? && i < |Get(tree, name).items|
      requires ItemsLeft(depth, env, basemap, root, tree, name, n, optional, i, |Get(tree, name).items|, goal, Ok(()))
      modifies this`tree
      ensures ItemsLeft(depth, env, basemap, root, tree, name, n, optional, i + 1, |Get(old(tree), name).items|, goal, r)
      decreases depth, 0
    {
      ghost var before := tree;
      ItemFills(depth, env, basemap, before, name, n, optional, i);
      FilledBelow(depth - 1, env, basemap, tree, name, n, Index(i), optional, false);
      r := FillDefaultValue(env, name + [Index(i)], depth - 1, optional, false);
      FillItemStep(depth, env, basemap, root, before, tree, name, n, optional, i, r);
    }

    /** The loop over the elements of an array. */
    method FillItems(env: Env, name: Cursor, ghost depth: nat, ghost n: Path, optional: bool) returns (r: Result<(), Error>)
      requires [] in basemap && n in basemap && Settled(basemap, tree, name, n) && Get(tree, name).Arr?
      requires depth > 0 && ItemsWithin(depth, env, basemap, Get(tree, name), n, optional, 0).Some?
      modifies this`tree
      ensures Performed(
          Replaced(old(tree), name, ItemsWithin(depth, env, basemap, Get(old(tree), name), n, optional, 0).value), tree, r)
      decreases depth, 1
    {
      ghost var root := tree;
      ghost var goal := ItemsWithin(depth, env, basemap, Get(root, name), n, optional, 0);
      r := Ok(());
      PutGet(tree, name);
      var count := |Get(tree, name).items|;
      var i := 0;
      while i < count && r.Ok?
        invariant 0 <= i <= count
        invariant ItemsLeft(depth, env, basemap, root, tree, name, n, optional, i, count, goal, r)
      {
        r := FillItem(env, name, depth, n, optional, i, root, goal);
        i := i + 1;
      }
    }

    method Finalize(env: Env, ghost depth: nat) returns (r: Result<Value, Error>)
      requires FilledWithinAt(depth, env, basemap, tree, [], false, true).Some?
      modifies this`tree
      ensures Some(r) == FilledWithinAt(depth, env, basemap, old(tree), [], false, true)
    {
      var filled := FillDefaultValue(env, [], depth, false, true);
      if filled.Err? {
        return Err(filled.error);
      }
      return Ok(tree);
    }

    /** The loop over the entries of a JSON object. */
    method UpdateFields(env: Env, name: Cursor, ghost n: Path, optional: bool, value: Value) returns (r: Result<(), Error>)
      requires [] in basemap && n in basemap && value.Obj? && Settled(basemap, tree, name, n)
      modifies this`tree
      ensures Performed(
          Replaced(old(tree), name, UpdatedFields(env, basemap, Get(old(tree), name), n, optional, value, SortedKeys(value.fields.Keys))),
          tree, r)
      decreases value, 0
    {
      var keys := SortedKeys(value.fields.Keys);
      ghost var root := tree;
      ghost var goal := UpdatedFields(env, basemap, Get(root, name), n, optional, value, keys);
      r := Ok(());
      PutGet(tree, name);
      var i := 0;
      while i < |keys| && r.Ok?
        invariant 0 <= i <= |keys|
        invariant r.Ok? ==> Within(basemap, root, tree, name, n)
        invariant r.Ok? ==> goal == UpdatedFields(env, basemap, Get(tree, name), n, optional, value, keys[i..])
        invariant r.Err? ==> goal == Err(r.error)
      {
        ghost var before := tree;
        var e := Key(env.snake(keys[i]));
        r := UpdateFieldValue(env, name + [e], value.fields[keys[i]], optional);
        UpdatedBelow(env, basemap, before, name, n, e, optional, value.fields[keys[i]]);
        FieldStep(env, basemap, root, before, tree, name, n, optional, value, keys[i..], r);
        assert keys[i..][1..] == keys[i + 1..];
        i := i + 1;
      }
    }

    /** The loop over the elements of a JSON array. */
    method UpdateItems(env: Env, name: Cursor, ghost n: Path, optional: bool, value: Value) returns (r: Result<(), Error>)
      requires [] in basemap && n in basemap && value.Arr? && Settled(basemap, tree, name, n)
      modifies this`tree
      ensures Performed(
          Replaced(old(tree), name, UpdatedItems(env, basemap, Get(old(tree), name), n, optional, value, 0)),
          tree, r)
      decreases value, 0
    {
      ghost var root := tree;
      ghost var goal := UpdatedItems(env, basemap, Get(root, name), n, optional, value, 0);
      r := Ok(());
      PutGet(tree, name);
      var i := 0;
      while i < |value.items| && r.Ok?
        invariant 0 <= i <= |value.items|
        invariant r.Ok? ==> Within(basemap, root, tree, name, n)
        invariant r.Ok? ==> goal == UpdatedItems(env, basemap, Get(tree, name), n, optional, value, i)
        invariant r.Err? ==> goal == Err(r.error)
      {
        ghost var before := tree;
        r := UpdateFieldValue(env, name + [Index(i)], value.items[i], optional);
        UpdatedBelow(env, basemap, before, name, n, Index(i), optional, value.items[i]);
        ItemStep(env, basemap, root, before, tree, name, n, optional, value, i, r);
        i := i + 1;
      }
    }
  }

  /** `convert_model_item`, for every field list and item on which filling ends. */
  method ConvertModelItem(env: Env, item: Value, parsed: seq<Field>, ghost depth: nat) returns (r: Result<Value, Error>)
    requires ConvertedWithin(depth, env, TableOf(parsed), item).Some?
    ensures Some(r) == ConvertedWithin(depth, env, TableOf(parsed), item)
  {
    var template := new ItemTemplate.NewEmpty(parsed);
    var updated := template.UpdateFieldValue(env, [], item, false);
    if updated.Err? {
      return Err(updated.error);
    }
    r := template.Finalize(env, depth);
  }

  /** The method ended as its specification says; after an error the map is dropped. */
  predicate Performed(goal: Result<Value, Error>, tree: Value, r: Result<(), Error>) {
    match goal
    case Ok(v) => r.Ok? && tree == v
    case Err(e) => r == Err(e)
  }

  /** What filling a null leaf does to the map: the declared value is put there; without
      one nothing changes, and a field that must not be null is an error. */
  ghost predicate LeafFilled(env: Env, kind: Kind, before: Value, name: Cursor, optional: bool, after: Value,
                             r: Result<(), Error>)
    requires Reaches(before, name)
  {
    if HasDefault(kind) then r.Ok? && exists x :: IsDeclared(env, kind, x) && after == Put(before, name, x)
    else if optional then r.Ok? && after == before
    else r == Err(Missing)
  }

  function AssertOptional(value: Value, optional: bool): Result<(), Error> {
    if optional && value.Null? then Ok(()) else Err(TypeMismatch)
  }

  /** The map while the node under a settled cursor is being worked on: nothing
      else has changed since `root`. */
  ghost predicate Within(t: Table, root: Value, tree: Value, p: Cursor, n: Path) {
    Reaches(root, p) && Settled(t, tree, p, n) && tree == Put(root, p, Get(tree, p))
  }

  lemma WithinPut(t: Table, root: Value, before: Value, p: Cursor, n: Path, x: Value)
    requires Within(t, root, before, p, n)
    ensures Within(t, root, Put(before, p, x), p, n) && Get(Put(before, p, x), p) == x
  {
    PutPut(root, p, Get(before, p), x);
    PutSettled(t, before, p, n, x);
    GetPut(before, p, x);
  }

  lemma FieldStep(env: Env, t: Table, root: Value, before: Value, after: Value, p: Cursor, n: Path,
                  optional: bool, value: Value, keys: seq<string>, r: Result<(), Error>)
    requires Within(t, root, before, p, n) && n in t && value.Obj?
    requires keys != [] && forall k :: k in keys ==> k in value.fields
    requires Performed(
        UpdatedInside(env, t, before, p, n, Key(env.snake(keys[0])), optional, value.fields[keys[0]]), after, r)
    ensures var goal := UpdatedFields(env, t, Get(before, p), n, optional, value, keys);
            match r
            case Ok(_) => Within(t, root, after, p, n)
                          && goal == UpdatedFields(env, t, Get(after, p), n, optional, value, keys[1..])
            case Err(e) => goal == Err(e)
  {
    match Enter(t, Get(before, p), n, Key(env.snake(keys[0])))
    case Inside(node, next) =>
      var e := Key(env.snake(keys[0]));
      var done := Updated(env, t, At(node, e), next, optional, value.fields[keys[0]]);
      if done.Ok? {
        WithinPut(t, root, before, p, n, Set(node, e, done.value));
      }
    case _ =>
  }

  lemma ItemStep(env: Env, t: Table, root: Value, before: Value, after: Value, p: Cursor, n: Path,
                 optional: bool, value: Value, i: nat, r: Result<(), Error>)
    requires Within(t, root, before, p, n) && n in t && value.Arr? && i < |value.items|
    requires Performed(
        UpdatedInside(env, t, before, p, n, Index(i), optional, value.items[i]), after, r)
    ensures var goal := UpdatedItems(env, t, Get(before, p), n, optional, value, i);
            match r
            case Ok(_) => Within(t, root, after, p, n)
                          && goal == UpdatedItems(env, t, Get(after, p), n, optional, value, i + 1)
            case Err(e) => goal == Err(e)
  {
    match Enter(t, Get(before, p), n, Index(i))
    case Inside(node, next) =>
      var done := Updated(env, t, At(node, Index(i)), next, optional, value.items[i]);
      if done.Ok? {
        WithinPut(t, root, before, p, n, Set(node, Index(i), done.value));
      }
    case _ =>
  }

  lemma ReplacedTwice(root: Value, p: Cursor, x: Value, v: Result<Value, Error>)
    requires Reaches(root, p)
    ensures Reaches(Put(root, p, x), p) && Replaced(Put(root, p, x), p, v) == Replaced(root, p, v)
  {
    GetPut(root, p, x);
    if v.Ok? {
      PutPut(root, p, x, v.value);
    }
  }

  /** The loop over the children has come to `tree`, with `rest` left to fill. */
  ghost predicate FieldsLeft(depth: nat, env: Env, t: Table, root: Value, tree: Value, p: Cursor, n: Path, optional: bool,
                             rest: seq<Path>, goal: Option<Outcome>, r: Result<(), Error>)
    requires n in t
  {
    && goal.Some? && depth > 0
    && match r
       case Ok(_) => Within(t, root, tree, p, n) && goal == FieldsWithin(depth, env, t, Get(tree, p), n, optional, rest)
       case Err(e) => goal == Some(Err(e))
  }

  /** The loop over the elements has come to `tree`, with the element `i` next. */
  ghost predicate ItemsLeft(depth: nat, env: Env, t: Table, root: Value, tree: Value, p: Cursor, n: Path, optional: bool,
                            i: nat, count: nat, goal: Option<Outcome>, r: Result<(), Error>)
    requires n in t
  {
    && goal.Some? && depth > 0
    && match r
       case Ok(_) =>
         && Within(t, root, tree, p, n) && Get(tree, p).Arr? && |Get(tree, p).items| == count && i <= count
         && goal == ItemsWithin(depth, env, t, Get(tree, p), n, optional, i)
       case Err(e) => goal == Some(Err(e))
  }

  /** The cursor of a child: an empty entry leads nowhere. */
  function ChildCursor(p: Cursor, child: Path): Cursor {
    if child == [] then p else p + [ChildKey(child)]
  }

  /** Filling the first child that is left comes to an end, and touches only the node. */
  lemma ChildFills(depth: nat, env: Env, t: Table, tree: Value, p: Cursor, n: Path, optional: bool, child: Path,
                   rest: seq<Path>)
    requires [] in t && Settled(t, tree, p, n) && Reaches(tree, p) && n in t && depth > 0
    requires FieldsWithin(depth, env, t, Get(tree, p), n, optional, [child] + rest).Some?
    ensures NodeWithin(depth - 1, env, t, Get(tree, p), n, optional, child).Some?
    ensures FilledWithinAt(depth - 1, env, t, tree, ChildCursor(p, child), optional, true) ==
            ReplacedWithin(tree, p, NodeWithin(depth - 1, env, t, Get(tree, p), n, optional, child))
  {
    FirstChild(depth, env, t, Get(tree, p), n, optional, child, rest);
    if child != [] {
      FilledBelow(depth - 1, env, t, tree, p, n, ChildKey(child), optional, true);
    }
  }

  /** One round of the loop over the children, at the child itself. */
  lemma FillFieldStep(depth: nat, env: Env, t: Table, root: Value, before: Value, after: Value, p: Cursor, n: Path,
                      optional: bool, child: Path, rest: seq<Path>, r: Result<(), Error>)
    requires Within(t, root, before, p, n) && n in t && depth > 0
    requires FieldsWithin(depth, env, t, Get(before, p), n, optional, [child] + rest).Some?
    requires var filled := ReplacedWithin(before, p, NodeWithin(depth - 1, env, t, Get(before, p), n, optional, child));
             filled.Some? && Performed(filled.value, after, r)
    ensures FieldsLeft(depth, env, t, root, after, p, n, optional, rest,
                       FieldsWithin(depth, env, t, Get(before, p), n, optional, [child] + rest), r)
  {
    FirstChild(depth, env, t, Get(before, p), n, optional, child, rest);
    var done := NodeWithin(depth - 1, env, t, Get(before, p), n, optional, child).value;
    if done.Ok? {
      WithinPut(t, root, before, p, n, done.value);
    }
  }

  /** The node after one of its children was filled. */
  function NodeWithin(depth: nat, env: Env, t: Table, v: Value, n: Path, optional: bool, child: Path): Option<Outcome>
    requires n in t
  {
    if child == [] then FilledWithin(depth, env, t, v, n, optional, true)
    else InsideWithin(depth, env, t, v, n, ChildKey(child), optional, true)
  }

  lemma FirstChild(depth: nat, env: Env, t: Table, v: Value, n: Path, optional: bool, child: Path, rest: seq<Path>)
    requires n in t && depth > 0
    ensures var done := NodeWithin(depth - 1, env, t, v, n, optional, child);
            var all := FieldsWithin(depth, env, t, v, n, optional, [child] + rest);
            && (done.None? ==> all.None?)
            && (done.Some? && done.value.Err? ==> all == done)
            && (done.Some? && done.value.Ok? ==> all == FieldsWithin(depth, env, t, done.value.value, n, optional, rest))
  {
    assert ([child] + rest)[1..] == rest;
  }

  lemma ItemFills(depth: nat, env: Env, t: Table, before: Value, p: Cursor, n: Path, optional: bool, i: nat)
    requires Reaches(before, p) && n in t && depth > 0 && Get(before, p).Arr? && i < |Get(before, p).items|
    requires ItemsWithin(depth, env, t, Get(before, p), n, optional, i).Some?
    ensures InsideWithin(depth - 1, env, t, Get(before, p), n, Index(i), optional, false).Some?
  {
  }

  lemma FillItemStep(depth: nat, env: Env, t: Table, root: Value, before: Value, after: Value, p: Cursor, n: Path,
                     optional: bool, i: nat, r: Result<(), Error>)
    requires Within(t, root, before, p, n) && n in t && depth > 0
    requires Get(before, p).Arr? && i < |Get(before, p).items|
    requires ItemsWithin(depth, env, t, Get(before, p), n, optional, i).Some?
    requires var filled := ReplacedWithin(before, p, InsideWithin(depth - 1, env, t, Get(before, p), n, Index(i), optional, false));
             filled.Some? && Performed(filled.value, after, r)
    ensures ItemsLeft(depth, env, t, root, after, p, n, optional, i + 1, |Get(before, p).items|,
                      ItemsWithin(depth, env, t, Get(before, p), n, optional, i), r)
  {
    var v := Get(before, p);
    assert Enter(t, v, n, Index(i)) == Inside(v, n);
    var done := FilledWithin(depth - 1, env, t, v.items[i], n, optional, false).value;
    if done.Ok? {
      WithinPut(t, root, before, p, n, Set(v, Index(i), done.value));
    }
  }

  lemma NextOf<T>(s: seq<T>, i: nat)
    requires i < |s|
    ensures s[i..] == [s[i]] + s[i + 1..] && s[..i + 1] == s[..i] + [s[i]]
  {
  }

  lemma EndsOf<T>(s: seq<T>)
    ensures s[0..] == s && s[..|s|] == s && s[..0] == [] && s[|s|..] == []
  {
  }

  /** The walk has come to `p`, whose schema name is `base`; `rest` is left to walk. */
  ghost predicate WalkedTo(t: Table, tree: Value, p: Cursor, base: Path, rest: Cursor, goal: Walked) {
    Reaches(tree, p) && goal == Graft(tree, p, Walk(t, Get(tree, p), base, rest))
  }

  /** One round of the walk: entering an entry moves it from what is left to
      what has been walked. */
  lemma WalkStep(t: Table, tree: Value, p: Cursor, base: Path, e: Entry, rest: Cursor, goal: Walked)
    requires WalkedTo(t, tree, p, base, [e] + rest, goal)
    ensures var entered := Enter(t, Get(tree, p), base, e);
            && (entered.Unknown? ==> goal == Absent(tree))
            && (entered.Refused? ==> goal == Failed(entered.error))
            && (entered.Inside? ==> WalkedTo(t, Put(tree, p, entered.node), p + [e], entered.base, rest, goal))
  {
    assert ([e] + rest)[1..] == rest;
    PutGet(tree, p);
    match Enter(t, Get(tree, p), base, e)
    case Inside(node, next) => PutBelow(tree, p, node, e);
    case _ =>
  }
}
