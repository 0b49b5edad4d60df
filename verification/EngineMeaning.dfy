/** What the engine accepts and writes, field by field, in terms of the schema's own
    bounds, choices and defaults. */
module EngineMeaning {
  import opened Results
  import opened Names
  import opened Schema
  import opened Json
  import opened Template
  import opened FillTheorems
  import opened ConformTheorems
  import opened ConversionRange
  import opened Idempotence
  import opened IdempotenceTheorems
  import opened SuppliedTheorems

  // ------------------------------------------------------------------ leaves

  function AsReal(number: Numeric): real {
    match number case Whole(i) => i as real case Fraction(r) => r
  }

  /** The value has the JSON type of the kind. */
  predicate Typed(kind: Kind, value: Value) {
    match kind
    case Boolean(_) => value.Bool?
    case Integer(_, _, _) =>
      value.Num? && value.number.Whole? && -0x8000_0000_0000_0000 <= value.number.whole <= 0x7FFF_FFFF_FFFF_FFFF
    case Number(_, _, _) => value.Num?
    case StringArray => value.Arr?
    case _ => value.Str?
  }

  /** A value of the right type is accepted within the bounds, among the choices, or in
      the format that the schema asks for. */
  predicate Meets(env: Env, kind: Kind, value: Value)
    requires IsLeaf(kind) && Typed(kind, value)
  {
    match kind
    case Boolean(_) => true
    case Integer(_, lo, hi) => Between(value.number.whole, lo, hi)
    case Number(_, lo, hi) => RealBetween(AsReal(value.number), lo, hi)
    case String(_, k) => |value.text| < 0x1_0000_0000 && HasLength(|value.text|, k)
    case OneOfStrings(_, choices) => value.text in choices
    case DateTime(_) => env.isDateTime(value.text)
    case Ip => env.isIp(value.text)
    case Uuid => env.isUuid(value.text)
    case StringArray => true
  }

  /** Why a value of the right type is refused. */
  predicate Blames(kind: Kind, value: Value, e: Error)
    requires Typed(kind, value)
  {
    match kind
    case Integer(_, _, _) => e == OutOfRange
    case Number(_, _, _) => e == OutOfRange
    case String(_, _) => if |value.text| < 0x1_0000_0000 then e == WrongLength else e == TooLong
    case OneOfStrings(_, _) => e == NotAChoice
    case _ => e == Unparsable
  }

  /** The texts of a list, in order. */
  predicate AreTextsOf(items: seq<Value>, texts: seq<Value>) {
    if items == [] then texts == []
    else if !items[|items| - 1].Str? then AreTextsOf(items[..|items| - 1], texts)
    else texts != [] && texts[|texts| - 1] == items[|items| - 1] && AreTextsOf(items[..|items| - 1], texts[..|texts| - 1])
  }

  lemma {:induction false} OnlyStringsJoins(a: seq<Value>, b: seq<Value>)
    ensures OnlyStrings(a + b) == OnlyStrings(a) + OnlyStrings(b)
  {
    if a == [] {
      assert a + b == b;
    } else {
      assert (a + b)[1..] == a[1..] + b;
      OnlyStringsJoins(a[1..], b);
    }
  }

  lemma {:induction false} OnlyStringsKeepsTexts(items: seq<Value>)
    ensures AreTextsOf(items, OnlyStrings(items))
  {
    if items != [] {
      var front, last := items[..|items| - 1], items[|items| - 1];
      assert items == front + [last];
      OnlyStringsJoins(front, [last]);
      assert OnlyStrings([last]) == if last.Str? then [last] else [] by {
        assert [last][1..] == [];
      }
      OnlyStringsKeepsTexts(front);
      if last.Str? {
        assert OnlyStrings(items)[..|OnlyStrings(items)| - 1] == OnlyStrings(front);
      } else {
        assert OnlyStrings(items) == OnlyStrings(front);
      }
    }
  }

  /** What a leaf holds after it took the value. */
  predicate HoldsTaken(kind: Kind, value: Value, x: Value) {
    if kind.StringArray? then value.Arr? && x.Arr? && AreTextsOf(value.items, x.items) else x == value
  }

  /** Updating a leaf: a value of the right type is taken if it meets the schema and
      refused otherwise; a null leaves an optional field as it is; nothing else is taken. */
  lemma LeafUpdateExactly(env: Env, kind: Kind, v: Value, optional: bool, value: Value)
    requires IsLeaf(kind)
    ensures var r := UpdatedLeaf(env, kind, v, optional, value);
            if Typed(kind, value) then
              if Meets(env, kind, value) then r.Ok? && HoldsTaken(kind, value, r.value)
              else r.Err? && Blames(kind, value, r.error)
            else if value.Null? && optional then r == Ok(v)
            else r == Err(TypeMismatch)
  {
    if kind.StringArray? && value.Arr? {
      OnlyStringsKeepsTexts(value.items);
    }
  }

  // ------------------------------------------------------------------ cursor

  /** Entering an object by a key of the schema: the node keeps its entries, and an
      absent entry, or an absent object, is made with a null. */
  lemma EnterKeyExactly(t: Table, v: Value, n: Path, c: string)
    ensures var r := Enter(t, v, n, Key(c));
            if n + [c] !in t then r == Unknown
            else if !v.Null? && !v.Obj? then r == Refused(CannotAccess)
            else
              && r.Inside? && r.base == n + [c] && r.node.Obj?
              && r.node.fields.Keys == (if v.Obj? then v.fields.Keys else {}) + {c}
              && r.node.fields[c] == (if v.Obj? && c in v.fields then v.fields[c] else Null)
              && (v.Obj? ==> forall d :: d in v.fields ==> r.node.fields[d] == v.fields[d])
  {
  }

  /** Entering an array by an index: the array keeps its items and grows, with nulls, up
      to the index and no further. An absent array panics. */
  lemma EnterIndexExactly(t: Table, v: Value, n: Path, i: nat)
    ensures var r := Enter(t, v, n, Index(i));
            if n !in t then r == Refused(NoSuchArrayField)
            else if v.Null? then r == Refused(Panic)
            else if !v.Arr? then r == Refused(CannotAccess)
            else
              && r.Inside? && r.base == n && r.node.Arr?
              && |r.node.items| == (if i < |v.items| then |v.items| else i + 1)
              && forall j :: 0 <= j < |r.node.items| ==> r.node.items[j] == if j < |v.items| then v.items[j] else Null
  {
  }

  /** A field list is collected by name, and the last field of a name is the one kept. */
  lemma {:induction false} LastFieldOfNameStays(parsed: seq<Field>, field: Field)
    ensures TableOf([]) == map[]
    ensures TableOf(parsed + [field]) == TableOf(parsed)[field.name := field]
  {
    if parsed == [] {
      assert ([] + [field])[1..] == [];
    } else {
      assert (parsed + [field])[1..] == parsed[1..] + [field];
      LastFieldOfNameStays(parsed[1..], field);
    }
  }

  // -------------------------------------------------------- what is accepted

  /** The item is accepted for the field, whatever it held before. */
  ghost predicate Acceptable(env: Env, t: Table, n: Path, optional: bool, value: Value)
    requires n in t
    decreases value
  {
    var field := t[n];
    var skipped := value.Null? && (optional || field.optional);
    match field.kind
    case NoneKind => true
    case Object(_, Dynamic) => skipped || value.Obj?
    case Object(_, _) =>
      skipped || (value.Obj? && forall k :: k in value.fields && n + [env.snake(k)] in t ==>
                                              Acceptable(env, t, n + [env.snake(k)], optional || field.optional, value.fields[k]))
    case ObjectArray(_) => skipped || value == Arr([])
    case kind => skipped || (Typed(kind, value) && Meets(env, kind, value))
  }

  /** An update succeeds if and only if the item is acceptable. */
  lemma {:induction false} UpdateAcceptsExactly(env: Env, t: Table, v: Value, n: Path, optional: bool, value: Value)
    requires n in t && Partial(env, t, v, n)
    ensures Updated(env, t, v, n, optional, value).Ok? <==> Acceptable(env, t, n, optional, value)
    decreases value
  {
    UpdateSucceeds(env, t, v, n, optional, value);
    if IsStatic(t, n) && value.Obj? {
      forall k | k in value.fields && Extend(n, env.snake(k)) in t
        ensures EntrySucceeds(env, t, n, optional || t[n].optional, value, k) <==>
                Acceptable(env, t, n + [env.snake(k)], optional || t[n].optional, value.fields[k])
      {
        UpdateAcceptsExactly(env, t, Null, Extend(n, env.snake(k)), optional || t[n].optional, value.fields[k]);
      }
      ObjectAccepted(env, t, n, optional, value);
    } else {
      WholeAccepted(env, t, n, optional, value);
    }
  }

  lemma ObjectAccepted(env: Env, t: Table, n: Path, optional: bool, value: Value)
    requires IsStatic(t, n) && value.Obj?
    requires forall k :: k in value.fields && Extend(n, env.snake(k)) in t ==>
               (EntrySucceeds(env, t, n, optional || t[n].optional, value, k) <==>
                Acceptable(env, t, n + [env.snake(k)], optional || t[n].optional, value.fields[k]))
    ensures Updated(env, t, Null, n, optional, value).Ok? <==> Acceptable(env, t, n, optional, value)
  {
    FieldsSucceed(env, t, Null, n, optional || t[n].optional, value, SortedKeys(value.fields.Keys));
  }

  lemma WholeAccepted(env: Env, t: Table, n: Path, optional: bool, value: Value)
    requires n in t && !(IsStatic(t, n) && value.Obj?)
    ensures Updated(env, t, Null, n, optional, value).Ok? <==> Acceptable(env, t, n, optional, value)
  {
    if IsLeaf(t[n].kind) {
      LeafUpdateExactly(env, t[n].kind, Null, optional || t[n].optional, value);
    } else if t[n].kind.ObjectArray? && value.Arr? {
      EmptyOrPanic(env, t, n, optional || t[n].optional, value);
    }
  }

  function ItemAt(v: Value, j: nat): Value
    requires v.Arr?
  {
    if j < |v.items| then v.items[j] else Null
  }

  /** An array that is there: every item of the input, from the `i`-th on, updates the item
      in its place, the array grows as far as needed, and all other items stay. */
  lemma {:induction false} ItemsUpdateExactly(env: Env, t: Table, v: Value, n: Path, optional: bool, value: Value, i: nat)
    requires n in t && v.Arr? && value.Arr? && i <= |value.items|
    ensures var r := UpdatedItems(env, t, v, n, optional, value, i);
            && (r.Ok? <==> forall j :: i <= j < |value.items| ==> Updated(env, t, ItemAt(v, j), n, optional, value.items[j]).Ok?)
            && (r.Ok? ==>
                  && r.value.Arr?
                  && |r.value.items| == (if i < |value.items| && |v.items| < |value.items| then |value.items| else |v.items|)
                  && (forall j :: i <= j < |value.items| ==>
                        Updated(env, t, ItemAt(v, j), n, optional, value.items[j]) == Ok(ItemAt(r.value, j)))
                  && forall j :: 0 <= j < |v.items| && !(i <= j < |value.items|) ==> ItemAt(r.value, j) == v.items[j])
    decreases |value.items| - i
  {
    if i < |value.items| {
      EnterIndexExactly(t, v, n, i);
      var node := Enter(t, v, n, Index(i)).node;
      assert At(node, Index(i)) == ItemAt(v, i);
      var x := Updated(env, t, ItemAt(v, i), n, optional, value.items[i]);
      if x.Ok? {
        var next := Set(node, Index(i), x.value);
        assert next == Arr(node.items[i := x.value]);
        assert forall j :: i < j < |value.items| ==> ItemAt(next, j) == ItemAt(v, j);
        ItemsUpdateExactly(env, t, next, n, optional, value, i + 1);
      }
    }
  }

  // -------------------------------------------------- which leaves are supplied

  /** The names `p` lead from `n` through static objects. */
  predicate Along(t: Table, n: Path, p: seq<string>)
    decreases |p|
  {
    n in t && (p == [] || (IsStatic(t, n) && Along(t, Extend(n, p[0]), p[1..])))
  }

  lemma {:induction false} AlongEnds(t: Table, n: Path, p: seq<string>)
    requires Along(t, n, p)
    ensures End(n, p) in t
    decreases |p|
  {
    if p != [] {
      AlongEnds(t, Extend(n, p[0]), p[1..]);
    }
  }

  /** Some keys of the item lead to the leaf and have a value there that it takes. */
  predicate Gives(env: Env, t: Table, n: Path, x: Value, p: seq<string>)
    decreases |p|
  {
    if p == [] then n in t && IsLeaf(t[n].kind) && Typed(t[n].kind, x) && Meets(env, t[n].kind, x)
    else x.Obj? && exists k :: k in x.fields && env.snake(k) == p[0] && Gives(env, t, Extend(n, p[0]), x.fields[k], p[1..])
  }

  /** An update leaves a leaf null if and only if it was null and the item gives nothing there. */
  lemma {:induction false} UpdateGives(env: Env, t: Table, v: Value, n: Path, optional: bool, x: Value, p: seq<string>)
    requires Along(t, n, p) && Partial(env, t, v, n) && Updated(env, t, v, n, optional, x).Ok?
    requires End(n, p) in t && IsLeaf(t[End(n, p)].kind)
    ensures Held(Updated(env, t, v, n, optional, x).value, p).Null? <==> Held(v, p).Null? && !Gives(env, t, n, x, p)
    decreases |p|, 1, 0
  {
    if p == [] {
      LeafUpdateExactly(env, t[n].kind, v, optional || t[n].optional, x);
    } else if x.Obj? {
      FieldsGive(env, t, v, n, optional || t[n].optional, x, SortedKeys(x.fields.Keys), p);
    }
  }

  predicate OneGives(env: Env, t: Table, n: Path, x: Value, k: string, p: seq<string>)
    requires p != [] && x.Obj? && k in x.fields
  {
    env.snake(k) == p[0] && Gives(env, t, Extend(n, p[0]), x.fields[k], p[1..])
  }

  predicate NoneGives(env: Env, t: Table, n: Path, x: Value, keys: seq<string>, p: seq<string>)
    requires p != [] && x.Obj? && forall k :: k in keys ==> k in x.fields
  {
    forall k :: k in keys ==> !OneGives(env, t, n, x, k, p)
  }

  lemma {:induction false} FieldsGive(env: Env, t: Table, v: Value, n: Path, optional: bool, x: Value, keys: seq<string>,
                                      p: seq<string>)
    requires Along(t, n, p) && p != [] && Partial(env, t, v, n)
    requires End(n, p) in t && IsLeaf(t[End(n, p)].kind)
    requires x.Obj? && forall k :: k in keys ==> k in x.fields
    requires UpdatedFields(env, t, v, n, optional, x, keys).Ok?
    ensures Held(UpdatedFields(env, t, v, n, optional, x, keys).value, p).Null? <==>
            Held(v, p).Null? && NoneGives(env, t, n, x, keys, p)
    decreases |p|, 0, |keys|
  {
    if keys != [] {
      var c := env.snake(keys[0]);
      FirstOrRest(env, t, n, x, keys, p);
      assert Along(t, Extend(n, p[0]), p[1..]);
      if Extend(n, c) !in t {
        FieldsGive(env, t, v, n, optional, x, keys[1..], p);
      } else {
        var y := OneField(env, t, v, n, optional, x, keys);
        FieldsGive(env, t, Obj(Entries(v)[c := y]), n, optional, x, keys[1..], p);
        EntryWritten(v, c, y, p[0]);
        if c == p[0] {
          UpdateGives(env, t, Child(v, c), Extend(n, c), optional, x.fields[keys[0]], p[1..]);
        }
      }
    }
  }

  lemma FirstOrRest(env: Env, t: Table, n: Path, x: Value, keys: seq<string>, p: seq<string>)
    requires p != [] && x.Obj? && keys != [] && forall k :: k in keys ==> k in x.fields
    ensures NoneGives(env, t, n, x, keys, p) <==>
            !OneGives(env, t, n, x, keys[0], p) && NoneGives(env, t, n, x, keys[1..], p)
  {
    assert keys == [keys[0]] + keys[1..];
  }

  // ------------------------------------------------------- what a conversion does

  /** The leaf at `p` may stay without a value. */
  predicate NeedsNothing(t: Table, n: Path, optional: bool, p: seq<string>)
    requires End(n, p) in t
  {
    HasDefault(t[End(n, p)].kind) || Inherits(t, n, optional, p) || t[End(n, p)].optional
  }

  /** Every leaf of the static objects below `n` has a value or needs none. */
  ghost predicate NothingMissing(t: Table, u: Value, n: Path, optional: bool) {
    forall p :: Along(t, n, p) && End(n, p) in t && IsLeaf(t[End(n, p)].kind) ==>
                  !Held(u, p).Null? || NeedsNothing(t, n, optional, p)
  }

  lemma NothingMissingBelow(t: Table, u: Value, n: Path, optional: bool, c: string)
    requires IsStatic(t, n) && Extend(n, c) in t && NothingMissing(t, u, n, optional)
    ensures NothingMissing(t, Child(u, c), Extend(n, c), optional || t[n].optional)
  {
    var m := Extend(n, c);
    forall p | Along(t, m, p) && End(m, p) in t && IsLeaf(t[End(m, p)].kind)
      ensures !Held(Child(u, c), p).Null? || NeedsNothing(t, m, optional || t[n].optional, p)
    {
      assert ([c] + p)[1..] == p;
      assert Along(t, n, [c] + p) && End(n, [c] + p) == End(m, p);
      assert Held(u, [c] + p) == Held(Child(u, c), p);
    }
  }

  lemma NothingMissingAbove(t: Table, u: Value, n: Path, optional: bool)
    requires IsStatic(t, n)
    requires forall c :: Extend(n, c) in t ==> NothingMissing(t, Child(u, c), Extend(n, c), optional || t[n].optional)
    ensures NothingMissing(t, u, n, optional)
  {
    forall p | Along(t, n, p) && End(n, p) in t && IsLeaf(t[End(n, p)].kind)
      ensures !Held(u, p).Null? || NeedsNothing(t, n, optional, p)
    {
      assert p != [];
      assert NothingMissing(t, Child(u, p[0]), Extend(n, p[0]), optional || t[n].optional);
    }
  }

  lemma {:induction false} FillableExactly(env: Env, t: Table, u: Value, n: Path, optional: bool)
    requires Wired(t) && DynamicListNothing(t) && n in t && Partial(env, t, u, n)
    ensures Fillable(t, u, n, optional, true) <==> NothingMissing(t, u, n, optional)
    decreases Remaining(t, n)
  {
    var inherited := optional || t[n].optional;
    if IsStatic(t, n) {
      forall c | Extend(n, c) in t
        ensures Fillable(t, Child(u, c), Extend(n, c), inherited, true) <==>
                NothingMissing(t, Child(u, c), Extend(n, c), inherited)
        ensures NothingMissing(t, u, n, optional) ==> NothingMissing(t, Child(u, c), Extend(n, c), inherited)
      {
        PartialChild(env, t, u, n, c);
        FillableExactly(env, t, Child(u, c), Extend(n, c), inherited);
        if NothingMissing(t, u, n, optional) {
          NothingMissingBelow(t, u, n, optional, c);
        }
      }
      if Fillable(t, u, n, optional, true) {
        NothingMissingAbove(t, u, n, optional);
      }
    } else {
      WholeFillable(env, t, u, n, optional);
    }
  }

  lemma WholeFillable(env: Env, t: Table, u: Value, n: Path, optional: bool)
    requires Wired(t) && DynamicListNothing(t) && n in t && !IsStatic(t, n) && Partial(env, t, u, n)
    ensures Fillable(t, u, n, optional, true) <==> NothingMissing(t, u, n, optional)
  {
    assert Along(t, n, []) && End(n, []) == n && Held(u, []) == u;
    assert forall p :: Along(t, n, p) ==> p == [];
    if IsLeaf(t[n].kind) {
      assert NeedsNothing(t, n, optional, []) <==> HasDefault(t[n].kind) || optional || t[n].optional;
    } else if t[n].kind.Object? {
      forall c ensures Extend(n, c) !in t {
        NothingBelow(t, n, c);
      }
    }
  }

  /** A conversion succeeds if and only if the item is acceptable, and every leaf of the
      schema is given a value, has a declared one, or may be null. */
  lemma ConversionSucceedsExactly(env: Env, t: Table, value: Value)
    requires ClosedTree(t) && DynamicListNothing(t)
    ensures Descends(t)
    ensures Converted(env, t, value).Ok? <==>
            && Acceptable(env, t, [], false, value)
            && forall p :: Along(t, [], p) && End([], p) in t && IsLeaf(t[End([], p)].kind) ==>
                             Gives(env, t, [], value, p) || NeedsNothing(t, [], false, p)
  {
    ClosedTreeWired(t);
    ConvertedIs(env, t, value);
    UpdateAcceptsExactly(env, t, Null, [], false, value);
    if Acceptable(env, t, [], false, value) {
      var u := Updated(env, t, Null, [], false, value).value;
      UpdateKeepsPartial(env, t, Null, [], false, value);
      PartialFits(env, t, u, []);
      FillCompletes(env, t, u, [], false, true);
      FillableExactly(env, t, u, [], false);
      GivenOrMissing(env, t, value);
    }
  }

  lemma GivenOrMissing(env: Env, t: Table, value: Value)
    requires [] in t && Updated(env, t, Null, [], false, value).Ok?
    ensures NothingMissing(t, Updated(env, t, Null, [], false, value).value, [], false) <==>
            forall p :: Along(t, [], p) && End([], p) in t && IsLeaf(t[End([], p)].kind) ==>
                          Gives(env, t, [], value, p) || NeedsNothing(t, [], false, p)
  {
    var u := Updated(env, t, Null, [], false, value).value;
    forall p | Along(t, [], p) && End([], p) in t && IsLeaf(t[End([], p)].kind)
      ensures Held(u, p).Null? <==> !Gives(env, t, [], value, p)
    {
      UpdateGives(env, t, Null, [], false, value, p);
      HeldNothing(p);
    }
  }

  lemma {:induction false} AlongCompletion(env: Env, t: Table, v: Value, n: Path, p: seq<string>)
    requires Along(t, n, p)
    ensures End(n, p) in t
    ensures Held(Completion(env, t, v, n, true), p) == Completion(env, t, Held(v, p), End(n, p), true)
    decreases |p|
  {
    if p != [] {
      CompletedChildIs(env, t, v, n, true, p[0]);
      AlongCompletion(env, t, Child(v, p[0]), Extend(n, p[0]), p[1..]);
    }
  }

  /** A leaf to which the item gives nothing holds the declared value after the conversion,
      or null if none is declared. */
  lemma OmittedIsDeclared(env: Env, t: Table, value: Value, p: seq<string>)
    requires ClosedTree(t) && DynamicListNothing(t) && Descends(t) && Converted(env, t, value).Ok?
    requires Along(t, [], p) && !Gives(env, t, [], value, p)
    ensures End([], p) in t
    ensures IsLeaf(t[End([], p)].kind) ==>
              var kind, x := t[End([], p)].kind, Held(Converted(env, t, value).value, p);
              if HasDefault(kind) then IsDeclared(env, kind, x) else x.Null?
  {
    ClosedTreeWired(t);
    ConvertedIs(env, t, value);
    AlongEnds(t, [], p);
    var u := Updated(env, t, Null, [], false, value).value;
    UpdateKeepsPartial(env, t, Null, [], false, value);
    PartialFits(env, t, u, []);
    FillCompletes(env, t, u, [], false, true);
    AlongCompletion(env, t, u, [], p);
    if IsLeaf(t[End([], p)].kind) {
      UpdateGives(env, t, Null, [], false, value, p);
      HeldNothing(p);
      FilledLeafExactly(env, t[End([], p)].kind, Null, true);
    }
  }
}
