/** Converting an item: the result conforms to the schema. */
module ConformTheorems {
  import opened Results
  import opened Names
  import opened Schema
  import opened Json
  import opened Template
  import opened FillTheorems

  /** A leaf of the kind, within its bounds. */
  predicate InRange(env: Env, kind: Kind, v: Value) {
    match kind
    case Boolean(_) => v.Bool?
    case Integer(_, lo, hi) => AsI64(v).Some? && AtLeast(AsI64(v).value, lo) && AtMost(AsI64(v).value, hi)
    case Number(_, lo, hi) => AsF64(v).Some? && RealAtLeast(AsF64(v).value, lo) && RealAtMost(AsF64(v).value, hi)
    case String(_, k) => v.Str? && LengthFits(|v.text|, k)
    case OneOfStrings(_, choices) => v.Str? && v.text in choices
    case DateTime(_) => v.Str? && env.isDateTime(v.text)
    case Ip => v.Str? && env.isIp(v.text)
    case Uuid => v.Str? && env.isUuid(v.text)
    case StringArray => v.Arr? && forall x :: x in v.items ==> x.Str?
    case _ => false
  }

  /** Supplied texts are also shorter than 4 GiB; a default text may not be. */
  predicate LeafOk(env: Env, kind: Kind, v: Value) {
    InRange(env, kind, v) && (kind.String? && |v.text| >= TEXT_LIMIT ==> kind.textDefault == Some(v.text))
  }

  /** The value on the way to a conforming one: what is there conforms, but
      anything may still be null. Object arrays have not been touched. */
  ghost predicate Partial(env: Env, t: Table, v: Value, n: Path)
    requires n in t
    decreases v
  {
    if v.Null? then true
    else if t[n].kind.Object? then
      v.Obj? && (t[n].kind.objectKind.Dynamic? ||
                 forall c :: c in v.fields ==> Extend(n, c) in t && Partial(env, t, v.fields[c], Extend(n, c)))
    else if t[n].kind.NoneKind? || t[n].kind.ObjectArray? then false
    else LeafOk(env, t[n].kind, v)
  }

  /** The value conforms to the schema: objects have exactly the children of the
      schema, and each leaf is in range, or null under an optional self or
      ancestor when it has no default. */
  ghost predicate Conforms(env: Env, t: Table, v: Value, n: Path, optional: bool)
    requires n in t
    decreases v
  {
    var inherited := optional || t[n].optional;
    if t[n].kind.NoneKind? then v.Null?
    else if t[n].kind.ObjectArray? then v == Arr([])
    else if t[n].kind.Object? then
      v.Obj? && (t[n].kind.objectKind.Dynamic? ||
                 ((forall c :: c in v.fields <==> Extend(n, c) in t) &&
                  forall c :: c in v.fields ==> Conforms(env, t, v.fields[c], Extend(n, c), inherited)))
    else LeafOk(env, t[n].kind, v) || (v.Null? && inherited && !HasDefault(t[n].kind))
  }

  /** Dynamic objects list no children. */
  predicate DynamicListNothing(t: Table) {
    forall n :: n in t && t[n].kind.Object? && t[n].kind.objectKind.Dynamic? ==> t[n].kind.objectChildren == []
  }

  /** The instants the clock prints are date-times. */
  predicate ClockOk(env: Env) {
    env.isDateTime(env.now)
  }

  // ---------------------------------------------------------------- update

  lemma CheckAccepts(env: Env, kind: Kind, value: Value)
    ensures Check(env, kind, value).Accepted? ==> LeafOk(env, kind, Check(env, kind, value).value)
  {
  }

  lemma PartialChild(env: Env, t: Table, v: Value, n: Path, c: string)
    requires n in t && Extend(n, c) in t && Partial(env, t, v, n)
    requires t[n].kind.Object? && !t[n].kind.objectKind.Dynamic?
    ensures (v.Null? || v.Obj?) && Partial(env, t, Child(v, c), Extend(n, c))
  {
  }

  /** An entry of a partial object is updated. */
  lemma PartialSet(env: Env, t: Table, v: Value, n: Path, c: string, x: Value)
    requires n in t && Extend(n, c) in t && Partial(env, t, v, n)
    requires t[n].kind.Object? && !t[n].kind.objectKind.Dynamic?
    requires Partial(env, t, x, Extend(n, c))
    ensures Partial(env, t, Obj(Entries(v)[c := x]), n)
  {
  }

  /** Every update keeps the value partial, whatever the input. */
  lemma {:induction false} UpdateKeepsPartial(env: Env, t: Table, v: Value, n: Path, optional: bool, value: Value)
    requires n in t && Partial(env, t, v, n)
    requires Updated(env, t, v, n, optional, value).Ok?
    ensures Partial(env, t, Updated(env, t, v, n, optional, value).value, n)
    decreases value, 1, 0
  {
    var kind := t[n].kind;
    if kind.Object? {
      if value.Obj? && !kind.objectKind.Dynamic? {
        UpdateFieldsKeepsPartial(env, t, v, n, optional || t[n].optional, value, SortedKeys(value.fields.Keys));
      }
    } else if kind.ObjectArray? {
      if value.Arr? {
        EmptyOrPanic(env, t, n, optional || t[n].optional, value);
      }
    } else {
      CheckAccepts(env, kind, value);
    }
  }

  /** An absent object array takes an empty array and nothing else: entering it
      by index panics. */
  lemma EmptyOrPanic(env: Env, t: Table, n: Path, optional: bool, value: Value)
    requires n in t && value.Arr?
    ensures UpdatedItems(env, t, Null, n, optional, value, 0) == if value.items == [] then Ok(Null) else Err(Panic)
  {
  }

  /** The loop over the entries continues after the first one was updated. */
  lemma UpdatedFirst(env: Env, t: Table, v: Value, n: Path, optional: bool, value: Value, keys: seq<string>, x: Value)
    requires n in t && value.Obj? && keys != [] && forall k :: k in keys ==> k in value.fields
    requires (v.Null? || v.Obj?) && Extend(n, env.snake(keys[0])) in t
    ensures var c := env.snake(keys[0]);
            var first := Updated(env, t, Child(v, c), Extend(n, c), optional, value.fields[keys[0]]);
            var all := UpdatedFields(env, t, v, n, optional, value, keys);
            && (first.Err? ==> all == Err(first.error))
            && (first == Ok(x) ==>
                  all == UpdatedFields(env, t, Obj(Entries(v)[c := x]), n, optional, value, keys[1..]))
  {
    var c := env.snake(keys[0]);
    var node := Enter(t, v, n, Key(c)).node;
    assert node == Obj(Entries(v)[c := Child(v, c)]);
    assert Set(node, Key(c), x) == Obj(Entries(v)[c := x]);
  }

  lemma {:induction false} UpdateFieldsKeepsPartial(env: Env, t: Table, v: Value, n: Path, optional: bool,
                                                    value: Value, keys: seq<string>)
    requires n in t && t[n].kind.Object? && !t[n].kind.objectKind.Dynamic? && Partial(env, t, v, n)
    requires value.Obj? && forall k :: k in keys ==> k in value.fields
    requires UpdatedFields(env, t, v, n, optional, value, keys).Ok?
    ensures Partial(env, t, UpdatedFields(env, t, v, n, optional, value, keys).value, n)
    decreases value, 0, |keys|
  {
    if keys != [] {
      var c := env.snake(keys[0]);
      if Extend(n, c) !in t {
        UpdateFieldsKeepsPartial(env, t, v, n, optional, value, keys[1..]);
      } else {
        var first := Updated(env, t, Child(v, c), Extend(n, c), optional, value.fields[keys[0]]);
        var x := if first.Ok? then first.value else Null;
        UpdatedFirst(env, t, v, n, optional, value, keys, x);
        PartialChild(env, t, v, n, c);
        UpdateKeepsPartial(env, t, Child(v, c), Extend(n, c), optional, value.fields[keys[0]]);
        PartialSet(env, t, v, n, c, x);
        UpdateFieldsKeepsPartial(env, t, Obj(Entries(v)[c := x]), n, optional, value, keys[1..]);
      }
    }
  }

  // ---------------------------------------------------------------- filling

  lemma DefaultOk(env: Env, kind: Kind)
    requires KindOk(kind) && ClockOk(env)
    ensures Default(env, kind).Some? <==> HasDefault(kind)
    ensures HasDefault(kind) ==> LeafOk(env, kind, Default(env, kind).value)
  {
  }

  lemma {:induction false} PartialFits(env: Env, t: Table, v: Value, n: Path)
    requires n in t && Partial(env, t, v, n) && DynamicListNothing(t) && Wired(t)
    ensures Fits(t, v, n, true)
    decreases v
  {
    if t[n].kind.Object? && v.Obj? {
      forall c | c in v.fields && Extend(n, c) in t ensures Fits(t, v.fields[c], Extend(n, c), true) {
        if t[n].kind.objectKind.Dynamic? {
          NothingBelow(t, n, c);
        } else {
          PartialFits(env, t, v.fields[c], Extend(n, c));
        }
      }
    }
  }

  lemma NothingBelow(t: Table, n: Path, c: string)
    requires n in t && Wired(t) && t[n].kind.Children() == Some([])
    ensures Extend(n, c) !in t
  {
    assert WellListed(t, n);
    InChildNames(t, n, c);
  }

  /** Completing a partial value in which nothing required is missing makes it conform. */
  lemma {:induction false} CompletionConforms(env: Env, t: Table, v: Value, n: Path, optional: bool)
    requires ClosedTree(t) && Wired(t) && DynamicListNothing(t) && ClockOk(env)
    requires n in t && Partial(env, t, v, n) && Fillable(t, v, n, optional, true)
    ensures Conforms(env, t, Completion(env, t, v, n, true), n, optional)
    decreases Remaining(t, n)
  {
    var w := Completion(env, t, v, n, true);
    var inherited := optional || t[n].optional;
    if t[n].kind.Object? {
      if !t[n].kind.objectKind.Dynamic? {
        forall c
          ensures c in w.fields <==> Extend(n, c) in t
          ensures c in w.fields ==> Conforms(env, t, w.fields[c], Extend(n, c), inherited)
        {
          CompletedChildIs(env, t, v, n, true, c);
          if Extend(n, c) in t {
            CompletionConforms(env, t, Child(v, c), Extend(n, c), inherited);
          }
        }
      }
    } else {
      DefaultOk(env, t[n].kind);
    }
  }

  lemma ConvertedIs(env: Env, t: Table, value: Value)
    requires [] in t && Descends(t)
    ensures Converted(env, t, value) ==
            match Updated(env, t, Null, [], false, value)
            case Err(e) => Err(e)
            case Ok(u) => Filled(env, t, u, [], false, true)
  {
  }

  /** Conversion with a schema the validator accepts, whose dynamic objects list
      no children: every result conforms. */
  lemma ConversionConforms(env: Env, t: Table, value: Value)
    requires ClosedTree(t) && DynamicListNothing(t) && ClockOk(env)
    ensures Descends(t)
    ensures Converted(env, t, value).Ok? ==> Conforms(env, t, Converted(env, t, value).value, [], false)
  {
    ClosedTreeWired(t);
    if Converted(env, t, value).Ok? {
      UpdateKeepsPartial(env, t, Null, [], false, value);
      var v := Updated(env, t, Null, [], false, value).value;
      PartialFits(env, t, v, []);
      FillCompletes(env, t, v, [], false, true);
      CompletionConforms(env, t, v, [], false);
    }
  }
}
